// va_alloc.c: the allocator of virtual ranges. Two binary trees of free ranges share one table of slots; va_alloc
// carves the front off the first node found long enough, va_free hangs the range below some node of its kind.
module VaAlloc {
  import opened Options
  import opened VaForest
  import opened VaRanges

  /** The slots that are in no tree. */
  function Dead(nodes: seq<Node>): set<nat> {
    set i: nat | i < |nodes| && !Live(nodes, i)
  }

  /** The slots that are. */
  function InTrees(nodes: seq<Node>): set<nat> {
    set i: nat | i < |nodes| && Live(nodes, i)
  }

  /** A node va_free may hang a range of these attributes under. */
  predicate Accepts(n: Node, attributes: nat) {
    n.attributes == attributes && !(n.usedRight && n.usedLeft) && n.length != 0
  }

  /** A node of the right tree is long enough. */
  ghost predicate FitExists(nodes: seq<Node>, attributes: nat, size: nat) {
    exists i: nat :: Live(nodes, i) && (nodes[i].attributes == 7 <==> User(attributes)) && nodes[i].length >= size
  }

  /** Everything that holds between calls, but for max_length. */
  ghost predicate Sound(ks: nat, f: Forest, live: set<Allocation>, entries: nat, unused: nat) {
    && 0xFFFF_8000_0000_0000 <= ks && Trees(f) && Tiling(ks, f.nodes, live)
    && unused == |Dead(f.nodes)| && entries == |InTrees(f.nodes)|
  }

  /** Rewriting max_length touches nothing else. */
  lemma MaxKeeps(ks: nat, f: Forest, nodes': seq<Node>, live: set<Allocation>, entries: nat, unused: nat)
    requires Sound(ks, f, live, entries, unused) && SameButMax(f.nodes, nodes') && Trees(f.(nodes := nodes'))
    ensures Sound(ks, f.(nodes := nodes'), live, entries, unused) && SameFree(f.nodes, nodes')
    ensures FreeLength(nodes') == FreeLength(f.nodes)
  {
    SameRangesTile(ks, f.nodes, nodes', live);
    DeadSame(f.nodes, nodes');
  }

  lemma CarveSound(ks: nat, f: Forest, live: set<Allocation>, entries: nat, unused: nat, i: nat, pages: nat, attributes: nat)
    requires Sound(ks, f, live, entries, unused) && Augmented(f.nodes) && Live(f.nodes, i)
    requires 0 < pages && pages * 4096 <= f.nodes[i].length && (f.nodes[i].attributes == 7 <==> User(attributes))
    requires IsRoot(i) ==> f.nodes[i].length != pages * 4096
    ensures var a := Allocation(f.nodes[i].base, pages, attributes);
            var nodes' := f.nodes[i := Carve(f.nodes[i], pages * 4096)];
            && Sound(ks, f.(nodes := nodes'), live + {a}, entries, unused) && AugmentedExcept(nodes', Some(i))
            && a !in live && Taken(f.nodes, live, nodes', a)
            && FreeLength(nodes') + LiveLength(live + {a}) == FreeLength(f.nodes) + LiveLength(live)
  {
    CarveKeepsTiling(ks, f.nodes, live, i, pages, attributes);
    CarveLinks(f, i, pages * 4096);
    DeadSame(f.nodes, f.nodes[i := Carve(f.nodes[i], pages * 4096)]);
  }

  lemma AdoptSound(ks: nat, f: Forest, live: set<Allocation>, entries: nat, unused: nat, p: nat, c: nat, a: Allocation)
    requires Sound(ks, f, live, entries, unused) && Augmented(f.nodes) && Live(f.nodes, p) && c < |f.nodes|
    requires !Live(f.nodes, c) && a in live && Accepts(f.nodes[p], a.attributes) && unused > 0
    ensures var f' := Adopt(f, p, c, a.base, a.pages * 4096);
            && Sound(ks, f', live - {a}, entries + 1, unused - 1) && AugmentedExcept(f'.nodes, Some(c))
            && Live(f'.nodes, c) && Returned(f.nodes, f'.nodes, a)
            && FreeLength(f'.nodes) + LiveLength(live - {a}) == FreeLength(f.nodes) + LiveLength(live)
  {
    assert Linked(f, p) && Linked(f, c);
    KindOf(f, p);
    AdoptKeeps(f, p, c, a.base, a.pages * 4096);
    AdoptMax(f, p, c, a.base, a.pages * 4096);
    DeadAdopt(f, p, c, a.base, a.pages * 4096);
    AdoptTiles(ks, f, live, p, c, a);
  }

  lemma DeadSame(nodes: seq<Node>, nodes': seq<Node>)
    requires |nodes'| == |nodes| && forall i :: 0 <= i < |nodes| ==> SameLinks(nodes[i], nodes'[i])
    ensures Dead(nodes') == Dead(nodes) && InTrees(nodes') == InTrees(nodes)
  {
    assert forall i: nat :: i < |nodes| ==> (Live(nodes, i) <==> Live(nodes', i));
  }

  lemma DeadUnlink(f: Forest, i: nat)
    requires Trees(f) && Live(f.nodes, i) && !IsRoot(i) && f.nodes[i].parent.Some? && f.nodes[i].parent.value < |f.nodes|
    requires f.nodes[i].parent.value != i
    ensures |Dead(Unlink(f.nodes, i))| == |Dead(f.nodes)| + 1
    ensures |InTrees(Unlink(f.nodes, i))| == |InTrees(f.nodes)| - 1
  {
    var nodes' := Unlink(f.nodes, i);
    assert forall j: nat :: j < |nodes'| ==> (Live(nodes', j) <==> Live(f.nodes, j) && j != i);
    assert Dead(nodes') == Dead(f.nodes) + {i} && InTrees(nodes') == InTrees(f.nodes) - {i};
  }

  lemma DeadAdopt(f: Forest, p: nat, c: nat, base: nat, length: nat)
    requires p < |f.nodes| == |f.depth| && c < |f.nodes| && p != c && !Live(f.nodes, c)
    requires !(f.nodes[p].usedRight && f.nodes[p].usedLeft)
    ensures |Dead(Adopt(f, p, c, base, length).nodes)| == |Dead(f.nodes)| - 1
    ensures |InTrees(Adopt(f, p, c, base, length).nodes)| == |InTrees(f.nodes)| + 1
  {
    var nodes' := Adopt(f, p, c, base, length).nodes;
    assert forall j: nat :: j < |nodes'| ==> (Live(nodes', j) <==> Live(f.nodes, j) || j == c);
    assert Dead(nodes') == Dead(f.nodes) - {c} && InTrees(nodes') == InTrees(f.nodes) + {c};
  }

  lemma DeadAppend(nodes: seq<Node>, n: Node)
    requires |nodes| > USTART && n.parent == None
    ensures |Dead(nodes + [n])| == |Dead(nodes)| + 1 && InTrees(nodes + [n]) == InTrees(nodes)
  {
    assert forall j: nat :: j < |nodes| ==> (Live(nodes + [n], j) <==> Live(nodes, j));
    assert Dead(nodes + [n]) == Dead(nodes) + {|nodes|};
  }

  class VaAllocator {
    const ks: nat
    var nodes: seq<Node>
    var entries: nat
    var unused: nat
    ghost var depth: seq<nat>
    ghost var bound: nat
    ghost var live: set<Allocation>

    ghost function AsForest(): Forest
      reads this
    {
      Forest(nodes, depth, bound)
    }

    /** Two well-formed augmented trees, every managed address held exactly once, and exact counts of the slots. */
    ghost predicate Valid()
      reads this
    {
      Sound(ks, AsForest(), live, entries, unused) && Augmented(nodes)
    }

    /** Bytes in the trees and in live allocations together. */
    ghost function Total(): nat
      reads this
    {
      FreeLength(nodes) + LiveLength(live)
    }

    /** The first call: one kernel range below and one above END, and the user range. */
    constructor (kernelEnd: nat)
      requires 0xFFFF_8000_0000_0000 <= kernelEnd && (kernelEnd + 4095) / 4096 * 4096 <= END
      ensures Valid() && live == {} && ks == (kernelEnd + 4095) / 4096 * 4096
      ensures forall x: nat :: FreeAt(nodes, x) <==> Managed(ks, x)
    {
      var start := (kernelEnd + 4095) / 4096 * 4096;
      ks := start;
      var high := SPACE_END - KERNEL_SPACE + 1;
      var user := USER_END - USER_SPACE + 1;
      nodes := [Node(start, END - start + 1, high, 3, true, false, Some(1), None, None),
                Node(KERNEL_SPACE, high, high, 3, false, false, None, None, Some(KSTART)),
                Node(USER_SPACE, user, user, 7, false, false, None, None, None)];
      entries, unused, depth, bound, live := 3, 0, [0, 1, 0], 1, {};
      new;
      InitialState(start, nodes, depth);
    }

    /** find_fit: the search goes down along max_length and never comes back up. It finds the first node in preorder that
        is long enough, and some node below the root is found exactly when one is long enough. */
    method FindFit(root: nat, size: nat) returns (r: Option<nat>)
      requires Valid() && IsRoot(root)
      ensures Live(nodes, root) && r == FirstFit(nodes, Preorder(AsForest(), root), size)
      ensures r.Some? ==> Live(nodes, r.value) && Below(AsForest(), r.value, root) && nodes[r.value].length >= size
      ensures r.None? ==> forall i: nat :: Live(nodes, i) && Below(AsForest(), i, root) ==> nodes[i].length < size
    {
      var entry := root;
      ghost var f := AsForest();
      assert Linked(f, root);
      while true
        invariant Live(nodes, root) && Live(nodes, entry) && Below(f, entry, root)
        invariant entry == root || nodes[entry].maxLength >= size
        invariant FirstFit(nodes, Preorder(f, root), size) == FirstFit(nodes, Preorder(f, entry), size)
        decreases bound - depth[entry]
      {
        assert Linked(f, entry) && MaxOk(nodes, entry);
        FirstFitHere(f, entry, size);
        if nodes[entry].length >= size {
          return Some(entry);
        }
        ChildrenFit(f, entry, size);
        if nodes[entry].left.Some? && nodes[nodes[entry].left.value].maxLength >= size {
          entry := nodes[entry].left.value;
        } else if nodes[entry].right.Some? && nodes[nodes[entry].right.value].maxLength >= size {
          entry := nodes[entry].right.value;
        } else {
          forall i: nat | Live(nodes, i) && Below(f, i, root) ensures nodes[i].length < size {
            MaxBounds(f, i, root);
          }
          return None;
        }
        assert Linked(f, entry);
      }
    }

    /** Recomputes max_length from a node up to its root. */
    method UpdateParents(entry: nat)
      requires Trees(AsForest()) && Live(nodes, entry) && AugmentedExcept(nodes, Some(entry))
      modifies this`nodes
      ensures Trees(AsForest()) && Augmented(nodes) && SameButMax(old(nodes), nodes)
    {
      var at := Some(entry);
      while at.Some?
        invariant Trees(AsForest()) && AugmentedExcept(nodes, at) && SameButMax(old(nodes), nodes)
        invariant at.Some? ==> Live(nodes, at.value)
        decreases if at.Some? then depth[at.value] + 1 else 0
      {
        var c := at.value;
        assert Linked(AsForest(), c);
        SetMaxStep(AsForest(), c);
        at := nodes[c].parent;
        nodes := SetMax(nodes, c);
      }
    }

    /** The same with what else holds between calls. */
    method RestoreMax(entry: nat, ghost inTrees: nat, ghost dead: nat)
      requires Sound(ks, AsForest(), live, inTrees, dead) && Live(nodes, entry) && AugmentedExcept(nodes, Some(entry))
      modifies this`nodes
      ensures Sound(ks, AsForest(), live, inTrees, dead) && Augmented(nodes) && SameButMax(old(nodes), nodes)
      ensures SameFree(old(nodes), nodes) && FreeLength(nodes) == FreeLength(old(nodes))
    {
      ghost var f := AsForest();
      UpdateParents(entry);
      assert AsForest() == f.(nodes := nodes);
      MaxKeeps(ks, f, nodes, live, inTrees, dead);
    }

    /** Carves the range off the front of a live node; max_length may be stale afterwards. */
    method CarveFront(i: nat, pages: nat, attributes: nat, ghost a: Allocation)
      requires Valid() && Live(nodes, i) && 0 < pages && pages * 4096 <= nodes[i].length
      requires nodes[i].attributes == 7 <==> User(attributes)
      requires IsRoot(i) ==> nodes[i].length != pages * 4096
      requires a == Allocation(nodes[i].base, pages, attributes)
      modifies this`nodes, this`live
      ensures Sound(ks, AsForest(), live, entries, unused) && AugmentedExcept(nodes, Some(i)) && live == old(live) + {a}
      ensures nodes == old(nodes)[i := Carve(old(nodes)[i], pages * 4096)] && Taken(old(nodes), old(live), nodes, a)
      ensures a !in old(live) && Total() == old(Total())
    {
      CarveSound(ks, AsForest(), live, entries, unused, i, pages, attributes);
      nodes := nodes[i := Carve(nodes[i], pages * 4096)];
      live := live + {a};
    }

    /** Carves the range off the front of a live node. */
    method CarveEntry(i: nat, pages: nat, attributes: nat, ghost a: Allocation)
      requires Valid() && Live(nodes, i) && 0 < pages && pages * 4096 <= nodes[i].length
      requires nodes[i].attributes == 7 <==> User(attributes)
      requires IsRoot(i) ==> nodes[i].length != pages * 4096
      requires a == Allocation(nodes[i].base, pages, attributes)
      modifies this`nodes, this`live
      ensures Valid() && |nodes| == |old(nodes)| && Live(nodes, i) && live == old(live) + {a}
      ensures a !in old(live) && Total() == old(Total()) && Taken(old(nodes), old(live), nodes, a)
      ensures nodes[i].length == old(nodes)[i].length - pages * 4096 && Some(i) != nodes[i].parent
    {
      CarveFront(i, pages, attributes, a);
      ghost var carved := nodes;
      RestoreMax(i, entries, unused);
      TakenSame(old(nodes), old(live), carved, nodes, a);
      assert Linked(AsForest(), i);
    }

    /** Takes an empty leaf out of its tree. */
    method RemoveEntry(i: nat)
      requires Valid() && Live(nodes, i) && !IsRoot(i) && nodes[i].length == 0
      requires !nodes[i].usedRight && !nodes[i].usedLeft
      modifies this`nodes, this`entries, this`unused
      ensures Valid() && |nodes| == |old(nodes)| && live == old(live) && Total() == old(Total())
      ensures SameFree(old(nodes), nodes)
    {
      ghost var f := AsForest();
      assert Linked(f, i);
      UnlinkKeeps(f, i);
      DeadUnlink(f, i);
      SameRangesTile(ks, nodes, Unlink(nodes, i), live);
      entries := entries - 1;
      nodes := Unlink(nodes, i);
      unused := unused + 1;
    }

    /** The node find_fit ends at. */
    ghost function Choice(pages: nat, attributes: nat): Option<nat>
      requires Valid()
      reads this
    {
      assert Linked(AsForest(), KSTART) && Linked(AsForest(), USTART);
      FirstFit(nodes, Preorder(AsForest(), RootFor(attributes)), pages * 4096)
    }

    /** The node va_alloc takes a range from: there is one exactly when some node of the right kind is long enough. */
    method FindRange(pages: nat, attributes: nat) returns (fit: Option<nat>)
      requires Valid()
      ensures fit == Choice(pages, attributes)
      ensures fit.Some? <==> FitExists(nodes, attributes, pages * 4096)
      ensures fit.Some? ==> Live(nodes, fit.value) && nodes[fit.value].length >= pages * 4096
      ensures fit.Some? ==> (nodes[fit.value].attributes == 7 <==> User(attributes))
      ensures fit.Some? && IsRoot(fit.value) ==> fit.value == RootFor(attributes)
    {
      fit := FindFit(RootFor(attributes), pages * 4096);
      FitIsAnywhere(AsForest(), attributes, pages * 4096);
      if fit.Some? {
        BelowRootKind(AsForest(), fit.value, RootFor(attributes));
        assert Linked(AsForest(), KSTART) && Linked(AsForest(), USTART);
      }
    }

    /** The front of that node is a range va_alloc may hand out. */
    lemma ChoiceFits(i: nat, pages: nat, attributes: nat)
      requires Valid() && Live(nodes, i) && 0 < pages && nodes[i].length >= pages * 4096
      requires nodes[i].attributes == 7 <==> User(attributes)
      ensures AllocationFits(ks, Allocation(nodes[i].base, pages, attributes))
    {
      assert NodeFits(ks, nodes[i]);
      CarveFits(ks, nodes[i], pages, attributes);
    }

    /** Takes the range off the front of the node. A range that fits exactly empties its node, and an empty leaf leaves
        its tree. */
    method TakeRange(i: nat, pages: nat, attributes: nat)
      requires Valid() && Live(nodes, i) && 0 < pages && pages * 4096 <= nodes[i].length
      requires nodes[i].attributes == 7 <==> User(attributes)
      // the roots start with terabytes and are never used up
      requires IsRoot(i) ==> nodes[i].length != pages * 4096
      modifies this`nodes, this`live, this`entries, this`unused
      ensures Valid() && Total() == old(Total()) && |nodes| == |old(nodes)|
      ensures var a := Allocation(old(nodes)[i].base, pages, attributes);
              a !in old(live) && live == old(live) + {a} && Taken(old(nodes), old(live), nodes, a)
    {
      CarveEntry(i, pages, attributes, Allocation(nodes[i].base, pages, attributes));
      if nodes[i].length == 0 && !nodes[i].usedRight && !nodes[i].usedLeft {
        assert Linked(AsForest(), i);
        RemoveEntry(i);
      }
    }

    /** The first slot that can take another range of these attributes. */
    method FindLast(attributes: nat) returns (r: Option<nat>)
      requires Valid()
      ensures r.Some? ==> r.value < |nodes| && Accepts(nodes[r.value], attributes) && Live(nodes, r.value)
      ensures r.Some? ==> forall i :: 0 <= i < r.value ==> !Accepts(nodes[i], attributes)
      ensures r.None? ==> forall i :: 0 <= i < |nodes| ==> !Accepts(nodes[i], attributes)
    {
      for i := 0 to |nodes|
        invariant forall j :: 0 <= j < i ==> !Accepts(nodes[j], attributes)
      {
        assert Linked(AsForest(), i);
        var n := nodes[i];
        if n.attributes == attributes && !(n.usedRight && n.usedLeft) && n.length != 0 {
          return Some(i);
        }
      }
      return None;
    }

    /** The first slot that is in no tree. */
    method FindUnused() returns (c: nat)
      requires Valid() && unused > 0
      ensures c < |nodes| && !Live(nodes, c) && forall i: nat :: i < c ==> Live(nodes, i)
    {
      c := 0;
      ghost var some :| some in Dead(nodes);
      while true
        invariant c <= some && forall i: nat :: i < c ==> Live(nodes, i)
        decreases some - c
      {
        assert Linked(AsForest(), c) && Linked(AsForest(), some);
        var n := nodes[c];
        if n.length == 0 && n.parent == None && !(n.usedRight && n.usedLeft) {
          return;
        }
        c := c + 1;
      }
    }

    /** A slot that was never used. */
    method NewSlot()
      requires Valid()
      modifies this`nodes, this`live, this`entries, this`unused, this`depth, this`bound
      ensures Valid() && nodes == old(nodes) + [Node(0, 0, 0, 0, false, false, None, None, None)]
      ensures live == old(live) && Total() == old(Total()) && unused == old(unused) + 1 && entries == old(entries)
      ensures SameFree(old(nodes), nodes)
    {
      ghost var n := Node(0, 0, 0, 0, false, false, None, None, None);
      AppendKeeps(AsForest(), n);
      AppendTiles(ks, nodes, live, n);
      DeadAppend(nodes, n);
      AppendMax(AsForest(), n);
      nodes := nodes + [Node(0, 0, 0, 0, false, false, None, None, None)];
      depth := depth + [0];
      unused := unused + 1;
    }

    /** Puts a freed range in an empty slot and hangs that below a node of the same kind. */
    method FillSlot(last: nat, c: nat, ghost a: Allocation, base: nat, length: nat)
      requires Valid() && Live(nodes, last) && c < |nodes| && !Live(nodes, c) && unused > 0
      requires a in live && a.base == base && a.pages * 4096 == length && Accepts(nodes[last], a.attributes)
      modifies this`nodes, this`live, this`entries, this`unused, this`depth, this`bound
      ensures Valid() && live == old(live) - {a} && Total() == old(Total()) && |nodes| == |old(nodes)|
      ensures unused == old(unused) - 1 && entries == old(entries) + 1
      ensures Returned(old(nodes), nodes, a)
    {
      ghost var f := AsForest();
      ghost var f' := Adopt(f, last, c, base, length);
      AdoptSound(ks, f, live, entries, unused, last, c, a);
      var n := nodes[c].(base := base, attributes := nodes[last].attributes, length := length);
      nodes := Attach(nodes[c := n], last, c);
      depth, bound, live := f'.depth, f'.bound, live - {a};
      RestoreMax(c, entries + 1, unused - 1);
      ReturnedSame(f.nodes, f'.nodes, nodes, a);
      unused := unused - 1;
      entries := entries + 1;
    }

    /** Hangs a freed range below a node of its kind. When none can take a child, nothing is changed: the range stays
        allocated unless it is freed again later. */
    method ReturnRange(base: nat, pages: nat, attributes: nat) returns (freed: bool)
      requires Valid() && Allocation(base, pages, attributes) in live
      modifies this`nodes, this`live, this`entries, this`unused, this`depth, this`bound
      ensures Valid() && Total() == old(Total())
      ensures freed <==> exists i :: 0 <= i < |old(nodes)| && Accepts(old(nodes)[i], attributes)
      ensures var a := Allocation(base, pages, attributes);
              freed ==> live == old(live) - {a} && Returned(old(nodes), nodes, a)
                        && |nodes| == |old(nodes)| + if old(unused) > 0 then 0 else 1
      ensures !freed ==> nodes == old(nodes) && live == old(live) && entries == old(entries) && unused == old(unused)
    {
      var last := FindLast(attributes);
      if last.None? {
        return false;
      }
      var c;
      if unused > 0 {
        c := FindUnused();
      } else {
        c := |nodes|;
        NewSlot();
      }
      FillSlot(last.value, c, Allocation(base, pages, attributes), base, pages * 4096);
      freed := true;
    }
  }

  /** The tree to search. */
  function RootFor(attributes: nat): nat { if User(attributes) then USTART else KSTART }

  lemma ChildrenFit(f: Forest, r: nat, size: nat)
    requires Trees(f) && Augmented(f.nodes) && Live(f.nodes, r)
    ensures var n := f.nodes[r];
            && (FirstFit(f.nodes, PreorderOf(f, r, n.left), size).Some? <==>
                  n.left.Some? && n.left.value < |f.nodes| && f.nodes[n.left.value].maxLength >= size)
            && (FirstFit(f.nodes, PreorderOf(f, r, n.right), size).Some? <==>
                  n.right.Some? && n.right.value < |f.nodes| && f.nodes[n.right.value].maxLength >= size)
  {
    assert Linked(f, r);
    var n := f.nodes[r];
    if n.left.Some? { assert Linked(f, n.left.value); FirstFitExists(f, n.left.value, size); }
    if n.right.Some? { assert Linked(f, n.right.value); FirstFitExists(f, n.right.value, size); }
  }

  lemma CarveLinks(f: Forest, i: nat, size: nat)
    requires Trees(f) && Augmented(f.nodes) && Live(f.nodes, i) && size <= f.nodes[i].length
    requires IsRoot(i) ==> size != f.nodes[i].length
    ensures var nodes' := f.nodes[i := Carve(f.nodes[i], size)];
            Trees(f.(nodes := nodes')) && AugmentedExcept(nodes', Some(i))
  {
    var nodes' := f.nodes[i := Carve(f.nodes[i], size)];
    assert Linked(f, KSTART) && Linked(f, USTART);
    forall j: nat | j < |f.nodes| && !Live(f.nodes, j) ensures nodes'[j].length == 0 { assert Linked(f, j); }
    KeepLinks(f, f.(nodes := nodes'));
    forall j: nat | j != i ensures MaxOk(nodes', j) { assert MaxOk(f.nodes, j); }
  }

  lemma AppendMax(f: Forest, n: Node)
    requires Trees(f) && Augmented(f.nodes) && n.parent == None
    ensures Augmented(f.nodes + [n])
  {
    forall j: nat ensures MaxOk(f.nodes + [n], j) { assert MaxOk(f.nodes, j) && Linked(f, j); }
  }

  lemma AdoptTiles(ks: nat, f: Forest, live: set<Allocation>, p: nat, c: nat, a: Allocation)
    requires Tiling(ks, f.nodes, live) && a in live && p < |f.nodes| == |f.depth| && c < |f.nodes| && p != c
    requires f.nodes[c].length == 0 && f.nodes[p].attributes == a.attributes
    requires a.attributes == 3 || a.attributes == 7
    ensures var nodes' := Adopt(f, p, c, a.base, a.pages * 4096).nodes;
            && Tiling(ks, nodes', live - {a})
            && FreeLength(nodes') + LiveLength(live - {a}) == FreeLength(f.nodes) + LiveLength(live)
            && Returned(f.nodes, nodes', a)
  {
    var n := f.nodes[c].(base := a.base, attributes := a.attributes, length := a.pages * 4096);
    FillKeepsTiling(ks, f.nodes, live, c, n, a);
    SameRangesTile(ks, f.nodes[c := n], Adopt(f, p, c, a.base, a.pages * 4096).nodes, live - {a});
  }

  /** Every node below a root is of the root's kind. */
  lemma {:induction false} BelowRootKind(f: Forest, i: nat, root: nat)
    requires Trees(f) && Live(f.nodes, i) && IsRoot(root) && Below(f, i, root)
    ensures f.nodes[i].attributes == if root == USTART then 7 else 3
    decreases f.depth[i]
  {
    assert Linked(f, i) && Linked(f, root);
    if i != root {
      BelowRootKind(f, f.nodes[i].parent.value, root);
    }
  }

  /** Only the kinds 3 and 7 occur in the trees. */
  lemma KindOf(f: Forest, i: nat)
    requires Trees(f) && Live(f.nodes, i)
    ensures f.nodes[i].attributes == 3 || f.nodes[i].attributes == 7
  {
    BelowItsRoot(f, i);
    BelowRootKind(f, i, RootOf(f.nodes[i]));
  }

  /** A range allocated with attributes other than 3 and 7 never finds its way back. */
  lemma OtherKindsAreLost(f: Forest, attributes: nat)
    requires Trees(f) && attributes != 3 && attributes != 7
    ensures forall i :: 0 <= i < |f.nodes| ==> !Accepts(f.nodes[i], attributes)
  {
    forall i | 0 <= i < |f.nodes| ensures !Accepts(f.nodes[i], attributes) {
      assert Linked(f, i);
      if Live(f.nodes, i) { KindOf(f, i); }
    }
  }

  /** Looking below the root of the kind asked for is looking at every node of that kind. */
  lemma FitIsAnywhere(f: Forest, attributes: nat, size: nat)
    requires Trees(f)
    ensures FitExists(f.nodes, attributes, size) <==>
            exists i: nat :: Live(f.nodes, i) && Below(f, i, RootFor(attributes)) && f.nodes[i].length >= size
  {
    var root := RootFor(attributes);
    forall i: nat | Live(f.nodes, i)
      ensures (f.nodes[i].attributes == 7 <==> User(attributes)) <==> Below(f, i, root)
    {
      BelowItsRoot(f, i);
      if Below(f, i, root) { BelowRootKind(f, i, root); }
    }
  }

  lemma InitialState(ks: nat, nodes: seq<Node>, depth: seq<nat>)
    requires 0xFFFF_8000_0000_0000 <= ks <= END && ks % 4096 == 0 && depth == [0, 1, 0]
    requires nodes == [Node(ks, END - ks + 1, SPACE_END - KERNEL_SPACE + 1, 3, true, false, Some(1), None, None),
                       Node(KERNEL_SPACE, SPACE_END - KERNEL_SPACE + 1, SPACE_END - KERNEL_SPACE + 1, 3, false, false,
                            None, None, Some(KSTART)),
                       Node(USER_SPACE, USER_END - USER_SPACE + 1, USER_END - USER_SPACE + 1, 7, false, false,
                            None, None, None)]
    ensures Trees(Forest(nodes, depth, 1)) && Augmented(nodes) && Tiling(ks, nodes, {}) && Dead(nodes) == {}
    ensures InTrees(nodes) == {0, 1, 2}
    ensures forall x: nat :: FreeAt(nodes, x) <==> Managed(ks, x)
  {
    forall i: nat ensures Linked(Forest(nodes, depth, 1), i) {}
    forall i: nat ensures MaxOk(nodes, i) {}
    forall x: nat ensures FreeAt(nodes, x) <==> Managed(ks, x) {
      assert Holds(nodes, 0, x) <==> ks <= x <= END;
      assert Holds(nodes, 1, x) <==> KERNEL_SPACE <= x <= SPACE_END;
      assert Holds(nodes, 2, x) <==> USER_SPACE <= x <= USER_END;
    }
    forall x: nat ensures Tiled(ks, nodes, {}, x) {}
  }
}
