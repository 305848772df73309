// The virtual-range trees of va_alloc.c as values: nodes are slots of a table, linked by slot numbers. What keeps
// them two trees, what max_length says about a subtree, and what linking and unlinking a node do.
module VaForest {
  import opened Options

  /** va_node; the two bits of UsedNodes are two fields. */
  datatype Node = Node(base: nat, length: nat, maxLength: nat, attributes: nat,
                       usedRight: bool, usedLeft: bool, right: Option<nat>, left: Option<nat>, parent: Option<nat>)

  /** The slots of va_kstart and va_ustart. */
  const KSTART := 0
  const USTART := 2

  predicate IsRoot(i: nat) { i == KSTART || i == USTART }

  /** A slot that is linked into a tree. */
  predicate Live(nodes: seq<Node>, i: nat) {
    i < |nodes| && (IsRoot(i) || nodes[i].parent.Some?)
  }

  /** The nodes and, for the proof, the depth of each node in its tree and a bound on the depths. */
  datatype Forest = Forest(nodes: seq<Node>, depth: seq<nat>, bound: nat)

  ghost predicate IsChild(nodes: seq<Node>, c: Option<nat>, i: nat) {
    c.Some? ==> c.value < |nodes| && nodes[c.value].parent == Some(i)
  }

  ghost predicate HangsFrom(f: Forest, i: nat, p: nat)
    requires i < |f.nodes| == |f.depth|
  {
    && Live(f.nodes, p) && f.nodes[p].attributes == f.nodes[i].attributes && f.depth[i] == f.depth[p] + 1
    && (f.nodes[p].right == Some(i) || f.nodes[p].left == Some(i))
  }

  ghost predicate Linked(f: Forest, i: nat) {
    i < |f.nodes| == |f.depth| ==>
      var n := f.nodes[i];
      && f.depth[i] <= f.bound
      && (n.usedRight <==> n.right.Some?) && (n.usedLeft <==> n.left.Some?)
      && IsChild(f.nodes, n.right, i) && IsChild(f.nodes, n.left, i) && (n.right.Some? ==> n.right != n.left)
      && (n.parent.Some? ==> HangsFrom(f, i, n.parent.value))
      && (IsRoot(i) ==> n.parent == None && n.length > 0 && n.attributes == if i == KSTART then 3 else 7)
      && (!Live(f.nodes, i) ==> n.length == 0 && n.right == None && n.left == None)
  }

  /** Two trees, one under each root; every other slot is free for reuse and remembers no link. */
  ghost predicate Trees(f: Forest) {
    && |f.depth| == |f.nodes| && |f.nodes| > USTART
    && forall i: nat {:trigger Linked(f, i)} :: Linked(f, i)
  }

  function MaxOf(nodes: seq<Node>, o: Option<nat>): nat {
    if o.Some? && o.value < |nodes| then nodes[o.value].maxLength else 0
  }

  function Max(a: nat, b: nat): nat { if a < b then b else a }

  /** What UpdateParents writes to max_length. */
  function MaxHere(nodes: seq<Node>, i: nat): nat
    requires i < |nodes|
  {
    Max(Max(nodes[i].length, MaxOf(nodes, nodes[i].left)), MaxOf(nodes, nodes[i].right))
  }

  ghost predicate MaxOk(nodes: seq<Node>, i: nat) {
    Live(nodes, i) ==> nodes[i].maxLength == MaxHere(nodes, i)
  }

  ghost predicate Augmented(nodes: seq<Node>) {
    forall i: nat {:trigger MaxOk(nodes, i)} :: MaxOk(nodes, i)
  }

  /** The root above a live node, by its attributes. */
  function RootOf(n: Node): nat { if n.attributes == 7 then USTART else KSTART }

  /** Node i is in the subtree of node r. */
  ghost predicate Below(f: Forest, i: nat, r: nat)
    requires Trees(f) && Live(f.nodes, i)
    decreases f.depth[i]
  {
    i == r ||
    (f.nodes[i].parent.Some? && (assert Linked(f, i); Below(f, f.nodes[i].parent.value, r)))
  }

  /** Every live node is below the root of its attributes. */
  lemma {:induction false} BelowItsRoot(f: Forest, i: nat)
    requires Trees(f) && Live(f.nodes, i)
    ensures Below(f, i, RootOf(f.nodes[i])) && Live(f.nodes, RootOf(f.nodes[i]))
    decreases f.depth[i]
  {
    assert Linked(f, i) && Linked(f, KSTART) && Linked(f, USTART);
    if f.nodes[i].parent.Some? {
      BelowItsRoot(f, f.nodes[i].parent.value);
    }
  }

  /** No length in the subtree of r exceeds max_length of r. */
  lemma {:induction false} MaxBounds(f: Forest, i: nat, r: nat)
    requires Trees(f) && Augmented(f.nodes) && Live(f.nodes, i) && Live(f.nodes, r) && Below(f, i, r)
    ensures f.nodes[i].length <= f.nodes[i].maxLength <= f.nodes[r].maxLength
    decreases f.depth[i]
  {
    assert MaxOk(f.nodes, i) && Linked(f, i);
    if i != r {
      var p := f.nodes[i].parent.value;
      assert MaxOk(f.nodes, p);
      MaxBounds(f, p, r);
    }
  }

  lemma {:induction false} BelowChild(f: Forest, i: nat, c: nat, r: nat)
    requires Trees(f) && Live(f.nodes, i) && Live(f.nodes, c) && Live(f.nodes, r)
    requires f.nodes[c].parent == Some(r) && Below(f, i, c)
    ensures Below(f, i, r)
    decreases f.depth[i]
  {
    assert Linked(f, i) && Linked(f, c);
    if i == c {
      assert Below(f, r, r);
    } else {
      BelowChild(f, f.nodes[i].parent.value, c, r);
    }
  }

  /** And some node of the subtree has exactly that length. */
  lemma {:induction false} MaxAttained(f: Forest, r: nat) returns (i: nat)
    requires Trees(f) && Augmented(f.nodes) && Live(f.nodes, r)
    ensures Live(f.nodes, i) && Below(f, i, r) && f.nodes[i].length == f.nodes[r].maxLength
    decreases f.bound - f.depth[r]
  {
    assert MaxOk(f.nodes, r) && Linked(f, r);
    var n := f.nodes[r];
    if n.length == n.maxLength {
      return r;
    }
    var c := if n.left.Some? && f.nodes[n.left.value].maxLength == n.maxLength then n.left.value else n.right.value;
    assert Linked(f, c);
    i := MaxAttained(f, c);
    BelowChild(f, i, c, r);
  }

  /** max_length of a node is the maximum length in its subtree. */
  lemma MaxLengthIsSubtreeMaximum(f: Forest, r: nat)
    requires Trees(f) && Augmented(f.nodes) && Live(f.nodes, r)
    ensures forall i: nat :: Live(f.nodes, i) && Below(f, i, r) ==> f.nodes[i].length <= f.nodes[r].maxLength
    ensures exists i: nat :: Live(f.nodes, i) && Below(f, i, r) && f.nodes[i].length == f.nodes[r].maxLength
  {
    forall i: nat | Live(f.nodes, i) && Below(f, i, r) ensures f.nodes[i].length <= f.nodes[r].maxLength {
      MaxBounds(f, i, r);
    }
    var i := MaxAttained(f, r);
  }

  // ----- the order in which find_fit prefers the nodes of a tree -----

  /** The nodes of the subtree of r: a node before its subtrees, the left subtree before the right one. */
  ghost function Preorder(f: Forest, r: nat): seq<nat>
    requires Trees(f) && Live(f.nodes, r)
    decreases f.bound - f.depth[r], 1
  {
    assert Linked(f, r);
    [r] + PreorderOf(f, r, f.nodes[r].left) + PreorderOf(f, r, f.nodes[r].right)
  }

  /** The same for a child of p, if there is one. */
  ghost function PreorderOf(f: Forest, p: nat, c: Option<nat>): seq<nat>
    requires Trees(f) && Live(f.nodes, p)
    requires c.Some? ==> c == f.nodes[p].left || c == f.nodes[p].right
    decreases f.bound - f.depth[p], 0
  {
    assert Linked(f, p);
    if c == None then [] else (assert Linked(f, c.value); Preorder(f, c.value))
  }

  /** The first node of a list that is long enough. */
  ghost function FirstFit(nodes: seq<Node>, order: seq<nat>, size: nat): Option<nat> {
    if order == [] then None
    else if order[0] < |nodes| && nodes[order[0]].length >= size then Some(order[0])
    else FirstFit(nodes, order[1..], size)
  }

  lemma {:induction false} FirstFitAppend(nodes: seq<Node>, a: seq<nat>, b: seq<nat>, size: nat)
    ensures FirstFit(nodes, a + b, size) ==
            if FirstFit(nodes, a, size).Some? then FirstFit(nodes, a, size) else FirstFit(nodes, b, size)
  {
    if a == [] {
      assert a + b == b;
    } else {
      assert (a + b)[1..] == a[1..] + b;
      FirstFitAppend(nodes, a[1..], b, size);
    }
  }

  /** The first fit below a node is the node itself, or else the one below its left, or else below its right child. */
  lemma FirstFitHere(f: Forest, r: nat, size: nat)
    requires Trees(f) && Live(f.nodes, r)
    ensures var n := f.nodes[r];
            var left := FirstFit(f.nodes, PreorderOf(f, r, n.left), size);
            FirstFit(f.nodes, Preorder(f, r), size) ==
              if n.length >= size then Some(r)
              else if left.Some? then left else FirstFit(f.nodes, PreorderOf(f, r, n.right), size)
  {
    assert Linked(f, r);
    var left, right := PreorderOf(f, r, f.nodes[r].left), PreorderOf(f, r, f.nodes[r].right);
    FirstFitAppend(f.nodes, [r] + left, right, size);
    FirstFitAppend(f.nodes, [r], left, size);
    assert [r][1..] == [];
  }

  /** There is one exactly when max_length says so. */
  lemma {:induction false} FirstFitExists(f: Forest, r: nat, size: nat)
    requires Trees(f) && Augmented(f.nodes) && Live(f.nodes, r)
    ensures FirstFit(f.nodes, Preorder(f, r), size).Some? <==> f.nodes[r].maxLength >= size
    decreases f.bound - f.depth[r]
  {
    assert Linked(f, r) && MaxOk(f.nodes, r);
    FirstFitHere(f, r, size);
    var n := f.nodes[r];
    if n.left.Some? { assert Linked(f, n.left.value); FirstFitExists(f, n.left.value, size); }
    if n.right.Some? { assert Linked(f, n.right.value); FirstFitExists(f, n.right.value, size); }
  }

  /** Preorder lists the live nodes below r. */
  lemma {:induction false} PreorderIsBelow(f: Forest, r: nat)
    requires Trees(f) && Live(f.nodes, r)
    ensures forall i: nat :: i in Preorder(f, r) ==> Live(f.nodes, i) && Below(f, i, r)
    decreases f.bound - f.depth[r], 1
  {
    assert Linked(f, r);
    var n := f.nodes[r];
    if n.left.Some? { PreorderChild(f, r, n.left.value); }
    if n.right.Some? { PreorderChild(f, r, n.right.value); }
  }

  lemma {:induction false} PreorderChild(f: Forest, r: nat, c: nat)
    requires Trees(f) && Live(f.nodes, r) && (f.nodes[r].left == Some(c) || f.nodes[r].right == Some(c))
    ensures Live(f.nodes, c) && forall i: nat :: i in Preorder(f, c) ==> Live(f.nodes, i) && Below(f, i, r)
    decreases f.bound - f.depth[r], 0
  {
    assert Linked(f, r) && Linked(f, c);
    PreorderIsBelow(f, c);
    forall i: nat | i in Preorder(f, c) ensures Below(f, i, r) { BelowChild(f, i, c, r); }
  }

  lemma {:induction false} BelowIsInPreorder(f: Forest, i: nat, r: nat)
    requires Trees(f) && Live(f.nodes, i) && Live(f.nodes, r) && Below(f, i, r)
    ensures i in Preorder(f, r)
    decreases f.depth[i]
  {
    assert Linked(f, i);
    if i != r {
      BelowIsInPreorder(f, f.nodes[i].parent.value, r);
      ChildInPreorder(f, f.nodes[i].parent.value, i, r);
    }
  }

  lemma {:induction false} ChildInPreorder(f: Forest, p: nat, c: nat, r: nat)
    requires Trees(f) && Live(f.nodes, p) && Live(f.nodes, c) && Live(f.nodes, r) && f.nodes[c].parent == Some(p)
    requires p in Preorder(f, r)
    ensures c in Preorder(f, r)
    decreases f.bound - f.depth[r]
  {
    assert Linked(f, r) && Linked(f, c) && Linked(f, p);
    var n := f.nodes[r];
    if p == r {
      assert c in Preorder(f, c);
    } else if p in PreorderOf(f, r, n.left) {
      assert Linked(f, n.left.value);
      ChildInPreorder(f, p, c, n.left.value);
    } else {
      assert Linked(f, n.right.value);
      ChildInPreorder(f, p, c, n.right.value);
    }
  }

  /** The list is the subtree. */
  lemma PreorderIsSubtree(f: Forest, r: nat)
    requires Trees(f) && Live(f.nodes, r)
    ensures forall i: nat :: i in Preorder(f, r) <==> Live(f.nodes, i) && Below(f, i, r)
  {
    PreorderIsBelow(f, r);
    forall i: nat | Live(f.nodes, i) && Below(f, i, r) ensures i in Preorder(f, r) { BelowIsInPreorder(f, i, r); }
  }

  /** Nodes that differ in base, length and max_length only. */
  predicate SameLinks(n: Node, m: Node) {
    m == n.(base := m.base, length := m.length, maxLength := m.maxLength)
  }

  lemma KeepLinks(f: Forest, f': Forest)
    requires Trees(f) && |f'.nodes| == |f.nodes| && f'.depth == f.depth && f'.bound == f.bound
    requires forall i :: 0 <= i < |f.nodes| ==> SameLinks(f.nodes[i], f'.nodes[i])
    requires forall i: nat :: i < |f.nodes| && IsRoot(i) ==> f'.nodes[i].length > 0
    requires forall i: nat :: i < |f.nodes| && !Live(f.nodes, i) ==> f'.nodes[i].length == 0
    ensures Trees(f')
  {
    forall i: nat ensures Linked(f', i) {
      assert Linked(f, i);
    }
  }

  /** A node that did not change itself stays linked if its neighbours still know it. */
  lemma LinkedAfter(f: Forest, f': Forest, j: nat)
    requires Linked(f, j) && |f.nodes| == |f.depth| == |f'.nodes| == |f'.depth| && j < |f.nodes|
    requires f'.nodes[j] == f.nodes[j] && f'.depth[j] == f.depth[j] && f.bound <= f'.bound
    requires IsChild(f'.nodes, f.nodes[j].right, j) && IsChild(f'.nodes, f.nodes[j].left, j)
    requires f.nodes[j].parent.Some? ==> HangsFrom(f', j, f.nodes[j].parent.value)
    ensures Linked(f', j)
  {
  }

  /** An empty leaf is taken out of its tree. */
  function Unlink(nodes: seq<Node>, i: nat): seq<Node>
    requires i < |nodes| && nodes[i].parent.Some? && nodes[i].parent.value < |nodes|
  {
    var p := nodes[i].parent.value;
    var m := nodes[p];
    var m' := if m.left == Some(i) then m.(left := None, usedLeft := false)
              else if m.right == Some(i) then m.(right := None, usedRight := false) else m;
    var nodes' := nodes[p := m'];
    nodes'[i := nodes'[i].(parent := None)]
  }

  /** What unlinking i keeps in the other slots. */
  lemma UnlinkFields(nodes: seq<Node>, i: nat, p: nat, k: nat)
    requires i < |nodes| && nodes[i].parent == Some(p) && p < |nodes| && i != p && k < |nodes| && k != i
    ensures var n, n' := nodes[k], Unlink(nodes, i)[k];
            && n' == n.(right := n'.right, left := n'.left, usedRight := n'.usedRight, usedLeft := n'.usedLeft)
            && (n.right != Some(i) ==> n'.right == n.right && n'.usedRight == n.usedRight)
            && (n.left != Some(i) ==> n'.left == n.left && n'.usedLeft == n.usedLeft)
            && (k != p ==> n' == n)
  {
  }

  lemma UnlinkChild(nodes: seq<Node>, i: nat, p: nat, j: nat, c: Option<nat>)
    requires i < |nodes| && nodes[i].parent == Some(p) && p < |nodes| && i != p && IsChild(nodes, c, j) && j != p
    ensures IsChild(Unlink(nodes, i), c, j) && c != Some(i)
  {
    if c.Some? { UnlinkFields(nodes, i, p, c.value); }
  }

  lemma UnlinkHangs(f: Forest, i: nat, p: nat, j: nat, q: nat)
    requires |f.depth| == |f.nodes| && i < |f.nodes| && f.nodes[i].parent == Some(p) && p < |f.nodes| && i != p
    requires j < |f.nodes| && j != i && HangsFrom(f, j, q) && q != i && f.nodes[j].parent == Some(q)
    ensures HangsFrom(f.(nodes := Unlink(f.nodes, i)), j, q)
  {
    UnlinkFields(f.nodes, i, p, q);
    UnlinkFields(f.nodes, i, p, j);
  }

  lemma UnlinkOther(f: Forest, i: nat, p: nat, j: nat)
    requires Trees(f) && i < |f.nodes| && f.nodes[i].parent == Some(p) && p < |f.nodes| && i != p
    requires f.nodes[i].right == None && f.nodes[i].left == None && j < |f.nodes| && j != i && j != p
    ensures Linked(f.(nodes := Unlink(f.nodes, i)), j)
  {
    assert Linked(f, j);
    UnlinkFields(f.nodes, i, p, j);
    var n := f.nodes[j];
    UnlinkChild(f.nodes, i, p, j, n.right);
    UnlinkChild(f.nodes, i, p, j, n.left);
    if n.parent.Some? {
      UnlinkHangs(f, i, p, j, n.parent.value);
    }
    LinkedAfter(f, f.(nodes := Unlink(f.nodes, i)), j);
  }

  lemma UnlinkParent(f: Forest, i: nat, p: nat)
    requires Trees(f) && i < |f.nodes| && f.nodes[i].parent == Some(p) && p < |f.nodes| && i != p
    requires f.nodes[i].right == None && f.nodes[i].left == None
    ensures Linked(f.(nodes := Unlink(f.nodes, i)), p)
  {
    assert Linked(f, p) && Linked(f, i);
    UnlinkFields(f.nodes, i, p, p);
    var n, n' := f.nodes[p], Unlink(f.nodes, i)[p];
    if n.right.Some? && n.right != Some(i) { UnlinkFields(f.nodes, i, p, n.right.value); }
    if n.left.Some? && n.left != Some(i) { UnlinkFields(f.nodes, i, p, n.left.value); }
    if n.parent.Some? {
      assert HangsFrom(f, p, n.parent.value);
      UnlinkFields(f.nodes, i, p, n.parent.value);
    }
  }

  lemma UnlinkSelf(f: Forest, i: nat, p: nat)
    requires Trees(f) && i < |f.nodes| && f.nodes[i].parent == Some(p) && p < |f.nodes| && i != p && !IsRoot(i)
    requires f.nodes[i].length == 0 && f.nodes[i].right == None && f.nodes[i].left == None
    ensures Linked(f.(nodes := Unlink(f.nodes, i)), i)
  {
    assert Linked(f, i);
  }

  lemma UnlinkMax(f: Forest, i: nat, j: nat)
    requires Trees(f) && Augmented(f.nodes) && i < |f.nodes| && f.nodes[i].parent.Some? && f.nodes[i].parent.value < |f.nodes|
    requires f.nodes[i].length == 0 && f.nodes[i].right == None && f.nodes[i].left == None && !IsRoot(i)
    ensures MaxOk(Unlink(f.nodes, i), j)
  {
    assert MaxOk(f.nodes, i) && MaxOk(f.nodes, j) && Linked(f, j);
  }

  lemma UnlinkKeeps(f: Forest, i: nat)
    requires Trees(f) && Augmented(f.nodes) && i < |f.nodes| && f.nodes[i].parent.Some? && !IsRoot(i)
    requires f.nodes[i].length == 0 && f.nodes[i].right == None && f.nodes[i].left == None
    requires f.nodes[i].parent.value < |f.nodes|
    ensures Trees(f.(nodes := Unlink(f.nodes, i))) && Augmented(Unlink(f.nodes, i)) && !Live(Unlink(f.nodes, i), i)
  {
    var p := f.nodes[i].parent.value;
    assert Linked(f, i);
    UnlinkSelf(f, i, p);
    UnlinkParent(f, i, p);
    forall j: nat ensures Linked(f.(nodes := Unlink(f.nodes, i)), j) {
      if j != i && j != p && j < |f.nodes| { UnlinkOther(f, i, p, j); }
    }
    forall j: nat ensures MaxOk(Unlink(f.nodes, i), j) { UnlinkMax(f, i, j); }
  }

  /** attach_node: the right side first, then the left one. */
  function Attach(nodes: seq<Node>, p: nat, c: nat): seq<Node>
    requires p < |nodes| && c < |nodes|
  {
    if nodes[p].usedRight && nodes[p].usedLeft then nodes
    else
      var m := nodes[p];
      var m' := if !m.usedRight then m.(right := Some(c), usedRight := true) else m.(left := Some(c), usedLeft := true);
      var nodes' := nodes[p := m'];
      nodes'[c := nodes'[c].(parent := Some(p))]
  }

  /** A free slot c gets a range of the kind of p and becomes a child of p. */
  function Adopt(f: Forest, p: nat, c: nat, base: nat, length: nat): Forest
    requires p < |f.nodes| == |f.depth| && c < |f.nodes|
  {
    var n := f.nodes[c].(base := base, attributes := f.nodes[p].attributes, length := length);
    Forest(Attach(f.nodes[c := n], p, c), f.depth[c := f.depth[p] + 1], f.bound + 1)
  }

  lemma AdoptChild(f: Forest, p: nat, c: nat, base: nat, length: nat)
    requires Trees(f) && Live(f.nodes, p) && c < |f.nodes| && !Live(f.nodes, c)
    requires !(f.nodes[p].usedRight && f.nodes[p].usedLeft)
    ensures Linked(Adopt(f, p, c, base, length), c)
  {
    assert Linked(f, p) && Linked(f, c);
  }

  lemma AdoptParent(f: Forest, p: nat, c: nat, base: nat, length: nat)
    requires Trees(f) && Live(f.nodes, p) && c < |f.nodes| && !Live(f.nodes, c)
    requires !(f.nodes[p].usedRight && f.nodes[p].usedLeft)
    ensures Linked(Adopt(f, p, c, base, length), p)
  {
    assert Linked(f, p) && Linked(f, c);
    var n, n' := f.nodes[p], Adopt(f, p, c, base, length).nodes[p];
    assert n'.parent == n.parent && n'.attributes == n.attributes && n'.length == n.length;
  }

  /** What adoption keeps in the slots but c. */
  lemma AdoptFields(f: Forest, p: nat, c: nat, base: nat, length: nat, k: nat)
    requires p < |f.nodes| == |f.depth| && c < |f.nodes| && p != c && k < |f.nodes| && k != c
    ensures var n, f' := f.nodes[k], Adopt(f, p, c, base, length);
            && |f'.nodes| == |f'.depth| == |f.nodes| && f'.depth[k] == f.depth[k]
            && f'.nodes[k] == n.(right := f'.nodes[k].right, left := f'.nodes[k].left,
                                 usedRight := f'.nodes[k].usedRight, usedLeft := f'.nodes[k].usedLeft)
            && (n.usedRight ==> f'.nodes[k].right == n.right) && (n.usedLeft ==> f'.nodes[k].left == n.left)
            && (k != p ==> f'.nodes[k] == n)
  {
  }

  lemma AdoptHangs(f: Forest, p: nat, c: nat, base: nat, length: nat, j: nat, q: nat)
    requires p < |f.nodes| == |f.depth| && c < |f.nodes| && p != c && j < |f.nodes| && j != c && q != c
    requires HangsFrom(f, j, q) && Linked(f, q)
    ensures HangsFrom(Adopt(f, p, c, base, length), j, q)
  {
    AdoptFields(f, p, c, base, length, j);
    AdoptFields(f, p, c, base, length, q);
  }

  lemma AdoptOther(f: Forest, p: nat, c: nat, base: nat, length: nat, j: nat)
    requires Trees(f) && Live(f.nodes, p) && c < |f.nodes| && !Live(f.nodes, c) && j != p && j != c && j < |f.nodes|
    ensures Linked(Adopt(f, p, c, base, length), j)
  {
    assert Linked(f, j) && Linked(f, c);
    AdoptFields(f, p, c, base, length, j);
    var n := f.nodes[j];
    if n.right.Some? { AdoptFields(f, p, c, base, length, n.right.value); }
    if n.left.Some? { AdoptFields(f, p, c, base, length, n.left.value); }
    if n.parent.Some? {
      assert Linked(f, n.parent.value);
      AdoptHangs(f, p, c, base, length, j, n.parent.value);
    }
    LinkedAfter(f, Adopt(f, p, c, base, length), j);
  }

  lemma AdoptKeeps(f: Forest, p: nat, c: nat, base: nat, length: nat)
    requires Trees(f) && Live(f.nodes, p) && c < |f.nodes| && !Live(f.nodes, c)
    requires !(f.nodes[p].usedRight && f.nodes[p].usedLeft)
    ensures Trees(Adopt(f, p, c, base, length)) && Live(Adopt(f, p, c, base, length).nodes, c)
  {
    AdoptChild(f, p, c, base, length);
    AdoptParent(f, p, c, base, length);
    forall j: nat ensures Linked(Adopt(f, p, c, base, length), j) {
      if j != p && j != c && j < |f.nodes| { AdoptOther(f, p, c, base, length, j); }
    }
  }

  /** A slot beyond the last one used. */
  lemma AppendKeeps(f: Forest, n: Node)
    requires Trees(f) && n.length == 0 && n.right == None && n.left == None && n.parent == None && !n.usedRight && !n.usedLeft
    ensures Trees(f.(nodes := f.nodes + [n], depth := f.depth + [0]))
  {
    var f' := f.(nodes := f.nodes + [n], depth := f.depth + [0]);
    forall j: nat ensures Linked(f', j) {
      assert Linked(f, j);
    }
  }

  // ----- restoring max_length upwards -----

  /** Tables that differ in max_length only. */
  predicate SameButMax(nodes: seq<Node>, nodes': seq<Node>) {
    && |nodes'| == |nodes|
    && forall i :: 0 <= i < |nodes| ==> nodes'[i] == nodes[i].(maxLength := nodes'[i].maxLength)
  }

  /** max_length may be stale in one node and in its parent. */
  ghost predicate AugmentedExcept(nodes: seq<Node>, c: Option<nat>) {
    forall i: nat {:trigger MaxOk(nodes, i)} ::
      c == Some(i) || (c.Some? && c.value < |nodes| && nodes[c.value].parent == Some(i)) || MaxOk(nodes, i)
  }

  function SetMax(nodes: seq<Node>, c: nat): seq<Node>
    requires c < |nodes|
  {
    nodes[c := nodes[c].(maxLength := MaxHere(nodes, c))]
  }

  lemma SetMaxLinks(f: Forest, c: nat)
    requires Trees(f) && c < |f.nodes|
    ensures Trees(f.(nodes := SetMax(f.nodes, c)))
  {
    assert Linked(f, KSTART) && Linked(f, USTART);
    forall i: nat | i < |f.nodes| && !Live(f.nodes, i) ensures SetMax(f.nodes, c)[i].length == 0 { assert Linked(f, i); }
    KeepLinks(f, f.(nodes := SetMax(f.nodes, c)));
  }

  lemma SetMaxHere(f: Forest, c: nat)
    requires Trees(f) && c < |f.nodes|
    ensures MaxOk(SetMax(f.nodes, c), c)
  {
    assert Linked(f, c);
  }

  lemma SetMaxOther(f: Forest, c: nat, i: nat)
    requires Trees(f) && c < |f.nodes| && i != c && f.nodes[c].parent != Some(i) && MaxOk(f.nodes, i)
    ensures MaxOk(SetMax(f.nodes, c), i)
  {
    assert Linked(f, i);
  }

  /** One turn of the climb: the node is right again, only its parent may be stale. */
  lemma SetMaxStep(f: Forest, c: nat)
    requires Trees(f) && Live(f.nodes, c) && AugmentedExcept(f.nodes, Some(c))
    ensures Trees(f.(nodes := SetMax(f.nodes, c))) && SameButMax(f.nodes, SetMax(f.nodes, c))
    ensures AugmentedExcept(SetMax(f.nodes, c), f.nodes[c].parent)
  {
    SetMaxLinks(f, c);
    SetMaxHere(f, c);
    forall i: nat | f.nodes[c].parent != Some(i) ensures MaxOk(SetMax(f.nodes, c), i) {
      if i != c {
        assert MaxOk(f.nodes, i);
        SetMaxOther(f, c, i);
      }
    }
  }

  /** Writing a length leaves max_length stale in that node at most, linking a slot in the slot and its parent. */
  lemma AdoptMax(f: Forest, p: nat, c: nat, base: nat, length: nat)
    requires Trees(f) && Augmented(f.nodes) && Live(f.nodes, p) && c < |f.nodes| && !Live(f.nodes, c)
    requires !(f.nodes[p].usedRight && f.nodes[p].usedLeft)
    ensures AugmentedExcept(Adopt(f, p, c, base, length).nodes, Some(c))
    ensures Adopt(f, p, c, base, length).nodes[c].parent == Some(p)
  {
    var nodes' := Adopt(f, p, c, base, length).nodes;
    assert Linked(f, p);
    forall i: nat | i != c && i != p ensures MaxOk(nodes', i) {
      assert Linked(f, i) && MaxOk(f.nodes, i);
    }
  }
}
