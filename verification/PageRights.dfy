// What the processor allows on a page: the read/write and user/supervisor bits of all entries of the walk together
// (section 4.6 of the Intel SDM, volume 3A), while create_mapping gives the bits asked for to leaves and to new tables.
module PageRights {
  import opened Options
  import opened PageTree
  import opened PageEffects
  import opened PageNeeds

  datatype Rights = Rights(write: bool, user: bool)

  function RightsOf(attributes: nat): Rights { Rights(attributes / 2 % 2 == 1, attributes / 4 % 2 == 1) }

  function Both(a: Rights, b: Rights): Rights { Rights(a.write && b.write, a.user && b.user) }

  /** The rights on page w: those that every entry of the processor's walk has. */
  function Access(m: Memory, root: nat, w: nat): Rights {
    var e4 := Read(m, root, Prefix(w, 3) % 512);
    var e3 := Read(m, e4.frame, Prefix(w, 2) % 512);
    var r3 := Both(RightsOf(e4.attributes), RightsOf(e3.attributes));
    if e3.huge then r3 else
    var e2 := Read(m, e3.frame, Prefix(w, 1) % 512);
    var r2 := Both(r3, RightsOf(e2.attributes));
    if e2.huge then r2 else
    Both(r2, RightsOf(Read(m, e2.frame, w % 512).attributes))
  }

  /** An entry with these bits does not take a right away that the attributes give. */
  predicate Grants(bits: nat, attributes: nat) {
    Both(RightsOf(bits), RightsOf(attributes)) == RightsOf(attributes)
  }

  /** So it is with the entry that points to the table of level l on the path of w. */
  ghost predicate LinkGrants(t: Tables, w: nat, l: nat, attributes: nat) {
    Grants(LinkBits(t, Pos(l, Prefix(w, l))), attributes)
  }

  ghost predicate PathGrants(t: Tables, w: nat, level: nat, attributes: nat) {
    LinkGrants(t, w, 3, attributes) && (level <= 2 ==> LinkGrants(t, w, 2, attributes)) && (level <= 1 ==> LinkGrants(t, w, 1, attributes))
  }

  lemma LinkIsEntry(t: Tables, w: nat, l: nat)
    requires Shape(t) && Page(w) && 1 <= l <= 3 && Pos(l, Prefix(w, l)) in t.node
    ensures LinkBits(t, Pos(l, Prefix(w, l))) == EntryAt(t, w, l + 1).attributes
  {
    var q := Pos(l, Prefix(w, l));
    assert LinkOk(t, q) && Up(q) == Pos(l + 1, Prefix(w, l + 1));
  }

  /** The walk meets the entries of the tree. */
  lemma AccessInTree(t: Tables, w: nat)
    requires Shape(t) && Page(w) && Translate(t.mem, t.root, w).Some?
    ensures var x, r4 := Translate(t.mem, t.root, w).value, RightsOf(EntryAt(t, w, 4).attributes);
            && 1 <= x.level <= 3 && x.attributes == EntryAt(t, w, x.level).attributes
            && (forall l :: x.level <= l <= 3 ==> Pos(l, Prefix(w, l)) in t.node)
            && Access(t.mem, t.root, w) ==
                 (if x.level == 3 then Both(r4, RightsOf(x.attributes))
                  else if x.level == 2 then Both(Both(r4, RightsOf(EntryAt(t, w, 3).attributes)), RightsOf(x.attributes))
                  else Both(Both(Both(r4, RightsOf(EntryAt(t, w, 3).attributes)), RightsOf(EntryAt(t, w, 2).attributes)),
                            RightsOf(x.attributes)))
  {
    WalkSeesTree(t, w);
    PathStep(t, w, 4);
    PathStep(t, w, 3);
    PathStep(t, w, 2);
    LastStep(t, w);
    assert Pos(4, Prefix(w, 4)) == ROOT;
  }

  /** A page has the rights of its leaf if and only if every table entry on its path has them. */
  lemma AccessIff(t: Tables, w: nat)
    requires Shape(t) && Page(w) && Translate(t.mem, t.root, w).Some?
    ensures var x := Translate(t.mem, t.root, w).value;
            Access(t.mem, t.root, w) == RightsOf(x.attributes) <==> PathGrants(t, w, x.level, x.attributes)
  {
    AccessInTree(t, w);
    var x := Translate(t.mem, t.root, w).value;
    LinkIsEntry(t, w, 3);
    if x.level <= 2 { LinkIsEntry(t, w, 2); }
    if x.level <= 1 { LinkIsEntry(t, w, 1); }
  }

  lemma LowBitsGrant(attributes: nat)
    ensures Grants(attributes % 8, attributes)
  {
    var q, r := attributes / 8, attributes % 8;
    Halves(q, r);
    assert attributes == 8 * q + r;
  }

  lemma Halves(q: nat, r: nat)
    requires r < 8
    ensures (8 * q + r) / 2 % 2 == r / 2 % 2 && (8 * q + r) / 4 % 2 == r / 4 % 2
  {
    assert (8 * q + r) / 2 == 4 * q + r / 2;
    assert (8 * q + r) / 4 == 2 * q + r / 4;
  }

  /** The table of level l on the path of w, if it was there before, has an entry that grants the attributes. */
  ghost predicate OldTableGrants(t: Tables, w: nat, l: nat, attributes: nat) {
    Pos(l, Prefix(w, l)) in t.node ==> LinkGrants(t, w, l, attributes)
  }

  lemma LinkAfter(s: Snapshot, s': Snapshot, lo: nat, hi: nat, attributes: nat, w: nat, l: nat)
    requires Reshapes(s, s', lo, hi) && MadeWith(s.t, s'.t, attributes) && Pos(l, Prefix(w, l)) in s'.t.node
    ensures LinkGrants(s'.t, w, l, attributes) <==> OldTableGrants(s.t, w, l, attributes)
  {
    assert KeepsLink(s.t, s'.t, Pos(l, Prefix(w, l)));
    LowBitsGrant(attributes);
  }

  /** After create_mapping a page of the range has the rights asked for if and only if all tables on its path that were there
      before grant them: tables that exist keep the rights they were made with. */
  lemma MappedAccessIff(s: Snapshot, s': Snapshot, lo: nat, hi: nat, frame: nat, attributes: nat, w: nat)
    requires Shape(s'.t) && Reshapes(s, s', lo, hi) && MadeWith(s.t, s'.t, attributes) && Page(w) && lo <= w < hi
    requires Maps(s.t.mem, s'.t.mem, s'.t.root, lo, hi, frame, attributes)
    ensures var y := Translate(s'.t.mem, s'.t.root, w);
            y.Some? &&
            (Access(s'.t.mem, s'.t.root, w) == RightsOf(attributes) <==>
               OldTableGrants(s.t, w, 3, attributes)
               && (y.value.level <= 2 ==> OldTableGrants(s.t, w, 2, attributes))
               && (y.value.level <= 1 ==> OldTableGrants(s.t, w, 1, attributes)))
  {
    assert Mapped(Translate(s.t.mem, s'.t.root, w), Translate(s'.t.mem, s'.t.root, w), w, lo, hi, frame, attributes);
    var level := Translate(s'.t.mem, s'.t.root, w).value.level;
    AccessInTree(s'.t, w);
    AccessIff(s'.t, w);
    LinkAfter(s, s', lo, hi, attributes, w, 3);
    if level <= 2 { LinkAfter(s, s', lo, hi, attributes, w, 2); }
    if level <= 1 { LinkAfter(s, s', lo, hi, attributes, w, 1); }
  }

  /** An empty page-directory-pointer table that was made for a supervisor mapping. */
  function NarrowTable(): Tables {
    var p := Pos(3, 0);
    Tables(map[0 := ZeroTable()[0 := Entry(1, 3, false)], 1 := ZeroTable()], 0, false, map[ROOT := 0, p := 1], map[0 := ROOT, 1 := p])
  }

  lemma NarrowTableShape()
    ensures Shape(NarrowTable()) && LinkBits(NarrowTable(), Pos(3, 0)) == 3
  {
    var t := NarrowTable();
    assert forall x: nat :: Read(t.mem, 0, x) == (if x == 0 then Entry(1, 3, false) else ZERO) && Read(t.mem, 1, x) == ZERO;
    forall r ensures NodeOk(t, r) && LinkOk(t, r) { }
    forall r, x: nat ensures EntryOk(t, r, x) { }
  }

  /** A page below it that is mapped for user mode is not accessible from there. */
  lemma NarrowTableExample(s: Snapshot, s': Snapshot, frame: nat, w: nat)
    requires s.t == NarrowTable() && w < 0x800_0000
    requires Shape(s'.t) && Reshapes(s, s', w, w + 1) && MadeWith(s.t, s'.t, 7)
    requires Maps(s.t.mem, s'.t.mem, s'.t.root, w, w + 1, frame, 7)
    ensures Shape(s.t) && Access(s'.t.mem, s'.t.root, w) != RightsOf(7)
  {
    NarrowTableShape();
    MappedAccessIff(s, s', w, w + 1, frame, 7, w);
    assert Prefix(w, 3) == 0;
    assert !OldTableGrants(s.t, w, 3, 7);
  }
}
