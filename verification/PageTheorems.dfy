// Consequences of the invariant: the tables are exactly the frames that walks from the PML4 reach, each through one
// entry. And what create_mapping does to a leaf that it only needs a part of.
module PageTheorems {
  import opened Options
  import opened PageTree
  import opened PageEffects
  import opened PageSplits

  /** The table of the given level that the walk for page w arrives at. */
  function TableOf(m: Memory, root: nat, w: nat, level: nat): Option<nat>
    decreases 4 - level
  {
    if level >= 4 then Some(root)
    else
      var above := TableOf(m, root, w, level + 1);
      if above == None then None
      else
        var e := Read(m, above.value, Prefix(w, level) % 512);
        if IsTable(e) then Some(e.frame) else None
  }

  lemma {:induction false} WalkToTable(t: Tables, w: nat, level: nat)
    requires Shape(t) && Page(w) && 1 <= level <= 4
    ensures var q := Pos(level, Prefix(w, level));
            TableOf(t.mem, t.root, w, level) == if q in t.node then Some(t.node[q]) else None
    decreases 4 - level
  {
    if level < 4 {
      WalkToTable(t, w, level + 1);
      PathStep(t, w, level + 1);
      assert NodeOk(t, Pos(level + 1, Prefix(w, level + 1)));
    }
  }

  lemma {:induction false} PlaceInRange(t: Tables, p: Pos)
    requires Shape(t) && p in t.node
    ensures 1 <= p.level <= 4
    ensures (p.level == 4 ==> p.n == 0) && (p.level == 3 ==> p.n < 512)
    ensures (p.level == 2 ==> p.n < 262144) && (p.level == 1 ==> p.n < 134217728)
    decreases 4 - p.level
  {
    assert NodeOk(t, p) && LinkOk(t, p);
    if p.level < 4 {
      PlaceInRange(t, Up(p));
    }
  }

  /** Every frame that holds a table is reached by a walk from the PML4. */
  lemma EveryTableIsReached(t: Tables, f: nat)
    requires Shape(t) && f in t.mem
    ensures exists w: nat, level: nat :: Page(w) && 1 <= level <= 4 && TableOf(t.mem, t.root, w, level) == Some(f)
  {
    assert FrameOk(t, f);
    var p := t.owner[f];
    PlaceInRange(t, p);
    var w := if p.level == 4 then 0 else First(p);
    assert Prefix(w, p.level) == p.n by {
      if p.level < 4 { PrefixRegion(w, p); }
    }
    assert NodeOk(t, p);
    WalkToTable(t, w, p.level);
  }

  /** And what a walk arrives at is a frame that holds a table. */
  lemma WalksReachTables(t: Tables, w: nat, level: nat)
    requires Shape(t) && Page(w) && 1 <= level <= 4
    ensures TableOf(t.mem, t.root, w, level).Some? ==> TableOf(t.mem, t.root, w, level).value in t.mem
  {
    WalkToTable(t, w, level);
    assert NodeOk(t, Pos(level, Prefix(w, level)));
  }

  /** Entry x of frame f is a table entry that a walk can take; entries of page tables are leaves. */
  ghost predicate Points(t: Tables, f: nat, x: nat, target: nat) {
    f in t.mem && x < 512 && f in t.owner && t.owner[f].level >= 2
    && IsTable(Read(t.mem, f, x)) && Read(t.mem, f, x).frame == target
  }

  /** No table is shared: at most one entry points to it, and none points to the PML4. */
  lemma NoSharing(t: Tables, f: nat, x: nat, g: nat, y: nat, target: nat)
    requires Shape(t) && Points(t, f, x, target) && Points(t, g, y, target)
    ensures f == g && x == y && target != t.root
  {
    assert FrameOk(t, f) && FrameOk(t, g);
    var p, q := t.owner[f], t.owner[g];
    assert EntryOk(t, p, x) && EntryOk(t, q, y);
    assert NodeOk(t, p) && NodeOk(t, q) && NodeOk(t, Down(p, x)) && NodeOk(t, Down(q, y)) && NodeOk(t, ROOT);
  }

  /** create_mapping leaves every page outside its range alone exactly when no leaf reaches both in and out of it. */
  lemma OutsideIsKeptIff(m: Memory, m': Memory, root: nat, lo: nat, hi: nat, frame: nat, attributes: nat)
    requires Maps(m, m', root, lo, hi, frame, attributes)
    ensures CleanCut(m, root, lo, hi) <==> KeepsOutside(m, m', root, lo, hi)
  {
    forall w: nat | Page(w) && !(lo <= w < hi)
      ensures Translate(m', root, w) == Translate(m, root, w) <==> !Touches(Translate(m, root, w), w, lo, hi)
    {
      assert Mapped(Translate(m, root, w), Translate(m', root, w), w, lo, hi, frame, attributes);
    }
  }

  ghost predicate KeepsOutside(m: Memory, m': Memory, root: nat, lo: nat, hi: nat) {
    forall w: nat {:trigger Page(w)} :: Page(w) ==> lo <= w < hi || Translate(m', root, w) == Translate(m, root, w)
  }

  /** One 2 MiB leaf at page 0. Mapping page 0 anew, to whatever frame, takes page 1 away. */
  lemma LeafIsLostExample(frame: nat, attributes: nat) returns (t: Tables)
    ensures Shape(t) && Translate(t.mem, t.root, LAST) == None
    ensures forall w: nat :: w < 512 ==> Translate(t.mem, t.root, w) == Some(Mapping(512 + w, 3, 2))
    ensures forall m' :: Maps(t.mem, m', t.root, 0, 1, frame, attributes) ==> Translate(m', t.root, 1) == None
  {
    var pml4, pdpt, pd := ZeroTable()[0 := Entry(1, 3, false)], ZeroTable()[0 := Entry(2, 3, false)], ZeroTable()[0 := Entry(512, 3, true)];
    var p, q := Pos(3, 0), Pos(2, 0);
    t := Tables(map[0 := pml4, 1 := pdpt, 2 := pd], 0, false, map[ROOT := 0, p := 1, q := 2], map[0 := ROOT, 1 := p, 2 := q]);
    assert Read(t.mem, 0, 0) == pml4[0] && Read(t.mem, 1, 0) == pdpt[0] && Read(t.mem, 2, 0) == pd[0];
    forall r ensures NodeOk(t, r) && LinkOk(t, r) { }
    forall r, x: nat ensures EntryOk(t, r, x) {
      if r == ROOT && x < 512 { assert Read(t.mem, 0, x) == pml4[x]; }
      if r == p && x < 512 { assert Read(t.mem, 1, x) == pdpt[x]; }
      if r == q && x < 512 { assert Read(t.mem, 2, x) == pd[x]; }
    }
    forall f ensures FrameOk(t, f) { }
    assert Read(t.mem, 0, 511) == pml4[511] && LAST / 512 / 512 / 512 % 512 == 511;
    forall w: nat | w < 512 ensures Translate(t.mem, t.root, w) == Some(Mapping(512 + w, 3, 2)) {
      assert w / 512 == 0;
    }
    forall m' | Maps(t.mem, m', t.root, 0, 1, frame, attributes) ensures Translate(m', t.root, 1) == None {
      assert Page(1);
      assert Mapped(Translate(t.mem, t.root, 1), Translate(m', t.root, 1), 1, 0, 1, frame, attributes);
    }
  }
}
