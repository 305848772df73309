// Who holds an address: a node of one of the trees, or an allocation that has not been freed. Carving the front off
// a node and giving a freed range to a slot keep the address space tiled: no address is lost or held twice.
module VaRanges {
  import opened VaForest

  const TWO64 := 0x1_0000_0000_0000_0000
  const USER_SPACE := 0x4000_0000
  const USER_END := 0x7FFF_FFFF_FFFF
  const END := 0xFFFF_8FFF_FFFF_FFFF
  const KERNEL_SPACE := 0xFFFF_C000_0000_0000
  const SPACE_END := 0xFFFF_FFFF_FFFF_FFFF

  /** A range handed out and not yet freed. */
  datatype Allocation = Allocation(base: nat, pages: nat, attributes: nat)

  /** The user bit of the attributes. */
  predicate User(attributes: nat) { attributes / 4 % 2 == 1 }

  /** A range lies in one piece of the user or of the kernel half; ks is the first page after the kernel. */
  predicate InZone(ks: nat, user: bool, base: nat, length: nat) {
    if user then USER_SPACE <= base && base + length <= USER_END + 1
    else (ks <= base && base + length <= END + 1) || (KERNEL_SPACE <= base && base + length <= SPACE_END + 1)
  }

  /** The addresses the trees start with. */
  predicate Managed(ks: nat, x: nat) {
    USER_SPACE <= x <= USER_END || ks <= x <= END || KERNEL_SPACE <= x <= SPACE_END
  }

  predicate Holds(nodes: seq<Node>, i: nat, x: nat) {
    i < |nodes| && nodes[i].base <= x < nodes[i].base + nodes[i].length
  }

  predicate Has(a: Allocation, x: nat) { a.base <= x < a.base + a.pages * 4096 }

  ghost predicate FreeAt(nodes: seq<Node>, x: nat) {
    exists i: nat :: Holds(nodes, i, x)
  }

  ghost predicate LiveAt(live: set<Allocation>, x: nat) {
    exists a :: a in live && Has(a, x)
  }

  /** Address x has exactly one holder if it is managed and none otherwise. */
  ghost predicate Tiled(ks: nat, nodes: seq<Node>, live: set<Allocation>, x: nat) {
    && (Managed(ks, x) <==> FreeAt(nodes, x) || LiveAt(live, x))
    && !(FreeAt(nodes, x) && LiveAt(live, x))
    && (forall i: nat, j: nat :: Holds(nodes, i, x) && Holds(nodes, j, x) ==> i == j)
    && (forall a, b :: a in live && b in live && Has(a, x) && Has(b, x) ==> a == b)
  }

  /** Nodes are of kind 3 or 7, page aligned, and in the half of their kind. */
  predicate NodeFits(ks: nat, n: Node) {
    && n.length % 4096 == 0
    && (n.length > 0 ==>
          && n.base % 4096 == 0 && (n.attributes == 3 || n.attributes == 7)
          && InZone(ks, n.attributes == 7, n.base, n.length))
  }

  /** Allocations are never empty, page aligned, and in the half their user bit asks for. */
  predicate AllocationFits(ks: nat, a: Allocation) {
    && a.pages > 0 && a.base % 4096 == 0
    && InZone(ks, User(a.attributes), a.base, a.pages * 4096)
  }

  ghost predicate Tiling(ks: nat, nodes: seq<Node>, live: set<Allocation>) {
    && (forall x: nat {:trigger Tiled(ks, nodes, live, x)} :: Tiled(ks, nodes, live, x))
    && (forall i :: 0 <= i < |nodes| ==> NodeFits(ks, nodes[i]))
    && (forall a :: a in live ==> AllocationFits(ks, a))
  }

  /** An allocation took addresses that were free, and no others. */
  ghost predicate Taken(nodes: seq<Node>, live: set<Allocation>, nodes': seq<Node>, a: Allocation) {
    && (forall x: nat :: Has(a, x) ==> FreeAt(nodes, x) && !LiveAt(live, x))
    && (forall x: nat :: FreeAt(nodes', x) <==> FreeAt(nodes, x) && !Has(a, x))
  }

  /** The addresses of an allocation came back, and no others. */
  ghost predicate Returned(nodes: seq<Node>, nodes': seq<Node>, a: Allocation) {
    forall x: nat :: FreeAt(nodes', x) <==> FreeAt(nodes, x) || Has(a, x)
  }

  ghost predicate SameFree(nodes: seq<Node>, nodes': seq<Node>) {
    forall x: nat :: FreeAt(nodes', x) <==> FreeAt(nodes, x)
  }

  lemma TakenSame(nodes: seq<Node>, live: set<Allocation>, nodes1: seq<Node>, nodes2: seq<Node>, a: Allocation)
    requires Taken(nodes, live, nodes1, a) && SameFree(nodes1, nodes2)
    ensures Taken(nodes, live, nodes2, a)
  {
  }

  lemma ReturnedSame(nodes: seq<Node>, nodes1: seq<Node>, nodes2: seq<Node>, a: Allocation)
    requires Returned(nodes, nodes1, a) && SameFree(nodes1, nodes2)
    ensures Returned(nodes, nodes2, a)
  {
  }

  // ----- lengths -----

  ghost function FreeLength(nodes: seq<Node>): nat {
    if nodes == [] then 0 else FreeLength(nodes[..|nodes| - 1]) + nodes[|nodes| - 1].length
  }

  ghost function LiveLength(live: set<Allocation>): nat {
    if live == {} then 0 else
      var a :| a in live;
      a.pages * 4096 + LiveLength(live - {a})
  }

  lemma {:induction false} LiveLengthAdd(live: set<Allocation>, a: Allocation)
    requires a !in live
    ensures LiveLength(live + {a}) == LiveLength(live) + a.pages * 4096
    decreases |live|
  {
    var both := live + {a};
    var b :| b in both && LiveLength(both) == b.pages * 4096 + LiveLength(both - {b});
    if b == a {
      assert both - {a} == live;
    } else {
      assert both - {b} == (live - {b}) + {a};
      assert (live - {b}) + {b} == live;
      LiveLengthAdd(live - {b}, a);
      LiveLengthAdd(live - {b}, b);
    }
  }

  lemma {:induction false} FreeLengthUpdate(nodes: seq<Node>, i: nat, n: Node)
    requires i < |nodes|
    ensures FreeLength(nodes[i := n]) == FreeLength(nodes) - nodes[i].length + n.length
  {
    var m := |nodes| - 1;
    var nodes' := nodes[i := n];
    if i < m {
      FreeLengthUpdate(nodes[..m], i, n);
      assert nodes'[..m] == nodes[..m][i := n];
    } else {
      assert nodes'[..m] == nodes[..m];
    }
  }

  lemma {:induction false} FreeLengthSame(nodes: seq<Node>, nodes': seq<Node>)
    requires |nodes'| == |nodes| && forall i :: 0 <= i < |nodes| ==> nodes'[i].length == nodes[i].length
    ensures FreeLength(nodes') == FreeLength(nodes)
  {
    if nodes != [] {
      FreeLengthSame(nodes[..|nodes| - 1], nodes'[..|nodes| - 1]);
    }
  }

  /** Two tables that hold the same ranges. */
  predicate SameRanges(nodes: seq<Node>, nodes': seq<Node>) {
    && |nodes'| == |nodes|
    && forall i :: 0 <= i < |nodes| ==>
         nodes'[i].base == nodes[i].base && nodes'[i].length == nodes[i].length && nodes'[i].attributes == nodes[i].attributes
  }

  lemma SameRangesTile(ks: nat, nodes: seq<Node>, nodes': seq<Node>, live: set<Allocation>)
    requires Tiling(ks, nodes, live) && SameRanges(nodes, nodes')
    ensures Tiling(ks, nodes', live) && FreeLength(nodes') == FreeLength(nodes) && SameFree(nodes, nodes')
  {
    forall i: nat, x: nat ensures Holds(nodes', i, x) <==> Holds(nodes, i, x) {}
    forall x: nat ensures FreeAt(nodes', x) <==> FreeAt(nodes, x) {
      if FreeAt(nodes, x) { var i: nat :| Holds(nodes, i, x); assert Holds(nodes', i, x); }
      if FreeAt(nodes', x) { var i: nat :| Holds(nodes', i, x); assert Holds(nodes, i, x); }
    }
    forall x: nat ensures Tiled(ks, nodes', live, x) { assert Tiled(ks, nodes, live, x); }
    FreeLengthSame(nodes, nodes');
  }

  // ----- carving the front off a node -----

  function Carve(n: Node, size: nat): Node
    requires size <= n.length
  {
    n.(base := (n.base + size) % TWO64, length := n.length - size)
  }

  lemma CarveFits(ks: nat, n: Node, pages: nat, attributes: nat)
    requires NodeFits(ks, n) && 0 < pages && pages * 4096 <= n.length && (n.attributes == 7 <==> User(attributes))
    ensures NodeFits(ks, Carve(n, pages * 4096)) && AllocationFits(ks, Allocation(n.base, pages, attributes))
    ensures pages * 4096 == n.length || Carve(n, pages * 4096).base == n.base + pages * 4096
  {
    assert n.base + n.length <= TWO64;
  }

  lemma CarveTiles(ks: nat, nodes: seq<Node>, live: set<Allocation>, i: nat, pages: nat, attributes: nat, x: nat)
    requires Tiling(ks, nodes, live) && i < |nodes| && 0 < pages && pages * 4096 <= nodes[i].length
    requires nodes[i].attributes == 7 <==> User(attributes)
    ensures var a := Allocation(nodes[i].base, pages, attributes);
            var nodes' := nodes[i := Carve(nodes[i], pages * 4096)];
            && Tiled(ks, nodes', live + {a}, x)
            && (Has(a, x) ==> FreeAt(nodes, x) && !LiveAt(live, x))
            && (FreeAt(nodes', x) <==> FreeAt(nodes, x) && !Has(a, x))
  {
    CarveFits(ks, nodes[i], pages, attributes);
    var a := Allocation(nodes[i].base, pages, attributes);
    var nodes' := nodes[i := Carve(nodes[i], pages * 4096)];
    assert Tiled(ks, nodes, live, x);
    assert Has(a, x) ==> Holds(nodes, i, x) && !Holds(nodes', i, x);
    forall j: nat ensures Holds(nodes', j, x) <==> Holds(nodes, j, x) && !Has(a, x) {
      if j != i {
        assert Holds(nodes', j, x) <==> Holds(nodes, j, x);
        assert Has(a, x) ==> Holds(nodes, i, x);
      }
    }
    if FreeAt(nodes, x) && !Has(a, x) { var j: nat :| Holds(nodes, j, x); assert Holds(nodes', j, x); }
    if FreeAt(nodes', x) { var j: nat :| Holds(nodes', j, x); assert Holds(nodes, j, x); }
    assert LiveAt(live + {a}, x) <==> LiveAt(live, x) || Has(a, x) by {
      if LiveAt(live, x) { var b :| b in live && Has(b, x); assert b in live + {a}; }
      if Has(a, x) { assert a in live + {a}; }
    }
  }

  /** The allocation is new, was free as a whole, and the lengths add up as before. */
  lemma CarveKeepsTiling(ks: nat, nodes: seq<Node>, live: set<Allocation>, i: nat, pages: nat, attributes: nat)
    requires Tiling(ks, nodes, live) && i < |nodes| && 0 < pages && pages * 4096 <= nodes[i].length
    requires nodes[i].attributes == 7 <==> User(attributes)
    ensures var a := Allocation(nodes[i].base, pages, attributes);
            var nodes' := nodes[i := Carve(nodes[i], pages * 4096)];
            && a !in live && Tiling(ks, nodes', live + {a})
            && FreeLength(nodes') + LiveLength(live + {a}) == FreeLength(nodes) + LiveLength(live)
            && Taken(nodes, live, nodes', a)
  {
    var a := Allocation(nodes[i].base, pages, attributes);
    var nodes' := nodes[i := Carve(nodes[i], pages * 4096)];
    CarveFits(ks, nodes[i], pages, attributes);
    forall x: nat
      ensures Tiled(ks, nodes', live + {a}, x) && (Has(a, x) ==> FreeAt(nodes, x) && !LiveAt(live, x))
      ensures FreeAt(nodes', x) <==> FreeAt(nodes, x) && !Has(a, x)
    {
      CarveTiles(ks, nodes, live, i, pages, attributes, x);
    }
    assert Has(a, a.base);
    FreeLengthUpdate(nodes, i, Carve(nodes[i], pages * 4096));
    LiveLengthAdd(live, a);
  }

  // ----- giving a freed range to an empty slot -----

  lemma FillTiles(ks: nat, nodes: seq<Node>, live: set<Allocation>, i: nat, n: Node, a: Allocation, x: nat)
    requires Tiling(ks, nodes, live) && i < |nodes| && nodes[i].length == 0 && a in live
    requires n.base == a.base && n.length == a.pages * 4096
    ensures Tiled(ks, nodes[i := n], live - {a}, x)
    ensures FreeAt(nodes[i := n], x) <==> FreeAt(nodes, x) || Has(a, x)
  {
    var nodes', live' := nodes[i := n], live - {a};
    assert Tiled(ks, nodes, live, x);
    assert Has(a, x) ==> LiveAt(live, x);
    forall j: nat ensures Holds(nodes', j, x) <==> Holds(nodes, j, x) || (j == i && Has(a, x)) {}
    if FreeAt(nodes, x) { var j: nat :| Holds(nodes, j, x); assert Holds(nodes', j, x); }
    if FreeAt(nodes', x) { var j: nat :| Holds(nodes', j, x); assert Holds(nodes, j, x) || Has(a, x); }
    if Has(a, x) { assert Holds(nodes', i, x); }
    if LiveAt(live, x) && !Has(a, x) { var b :| b in live && Has(b, x); assert b in live'; }
  }

  lemma FillKeepsTiling(ks: nat, nodes: seq<Node>, live: set<Allocation>, i: nat, n: Node, a: Allocation)
    requires Tiling(ks, nodes, live) && i < |nodes| && nodes[i].length == 0 && a in live
    requires n.base == a.base && n.length == a.pages * 4096 && n.attributes == a.attributes
    requires a.attributes == 3 || a.attributes == 7
    ensures Tiling(ks, nodes[i := n], live - {a})
    ensures FreeLength(nodes[i := n]) + LiveLength(live - {a}) == FreeLength(nodes) + LiveLength(live)
    ensures Returned(nodes, nodes[i := n], a)
  {
    var nodes', live' := nodes[i := n], live - {a};
    forall x: nat ensures Tiled(ks, nodes', live', x) { FillTiles(ks, nodes, live, i, n, a, x); }
    forall x: nat ensures FreeAt(nodes', x) <==> FreeAt(nodes, x) || Has(a, x) { FillTiles(ks, nodes, live, i, n, a, x); }
    assert AllocationFits(ks, a) && a.pages * 4096 % 4096 == 0;
    assert NodeFits(ks, n);
    assert forall j :: 0 <= j < |nodes'| ==> NodeFits(ks, nodes'[j]);
    FreeLengthUpdate(nodes, i, n);
    assert (live - {a}) + {a} == live;
    LiveLengthAdd(live - {a}, a);
  }

  /** A slot beyond the last one used. */
  lemma AppendTiles(ks: nat, nodes: seq<Node>, live: set<Allocation>, n: Node)
    requires Tiling(ks, nodes, live) && n.length == 0
    ensures Tiling(ks, nodes + [n], live) && FreeLength(nodes + [n]) == FreeLength(nodes) && SameFree(nodes, nodes + [n])
  {
    var nodes' := nodes + [n];
    forall i: nat, x: nat ensures Holds(nodes', i, x) <==> Holds(nodes, i, x) {}
    forall x: nat ensures FreeAt(nodes', x) <==> FreeAt(nodes, x) {
      if FreeAt(nodes, x) { var i: nat :| Holds(nodes, i, x); assert Holds(nodes', i, x); }
      if FreeAt(nodes', x) { var i: nat :| Holds(nodes', i, x); assert Holds(nodes, i, x); }
    }
    forall x: nat ensures Tiled(ks, nodes', live, x) { assert Tiled(ks, nodes, live, x); }
    assert nodes'[..|nodes|] == nodes;
  }
}
