// Which tables create_mapping makes, and which destroy_mapping makes when it splits a leaf: how many free frames each of
// them needs at most.
module PageNeeds {
  import opened FrameAllocation
  import opened PageTree
  import opened PageEffects
  import opened PageSplits
  import opened PageSupply

  /** With so many pages left from page v on, to be mapped from frame ph on, the loops take a leaf of this level. */
  predicate LeafFits(gb: bool, level: nat, v: nat, ph: nat, pages: nat) {
    if level == 2 then v % 512 == 0 && ph % 512 == 0 && pages >= 512
    else level == 3 && gb && v % 262144 == 0 && ph % 262144 == 0 && pages >= 262144
  }

  /** A table on the path of page v at a level where no leaf fits. */
  predicate OnPath(q: Pos, gb: bool, v: nat, ph: nat, pages: nat) {
    1 <= q.level <= 3 && q.n == Prefix(v, q.level) && !LeafFits(gb, q.level + 1, v, ph, pages)
  }

  /** The tables of t' are those of t and new ones of the set n. */
  ghost predicate AddsOnly(t: Tables, t': Tables, n: set<Pos>) {
    t'.node.Keys <= t.node.Keys + n
  }

  /** Some table of n is missing. */
  ghost predicate Lacking(t: Tables, n: set<Pos>) {
    !(n <= t.node.Keys)
  }

  lemma AddsTwice(t: Tables, t1: Tables, t2: Tables, n: set<Pos>)
    requires AddsOnly(t, t1, n) && AddsOnly(t1, t2, n)
    ensures AddsOnly(t, t2, n)
  {
  }

  ghost predicate AddsOnPath(t: Tables, t': Tables, v: nat, ph: nat, pages: nat) {
    forall q {:trigger q in t'.node} :: q in t'.node && q !in t.node ==> OnPath(q, t.gb, v, ph, pages)
  }

  /** The tables made carry the low three attribute bits of the mapping they were made for. */
  ghost predicate MadeWith(t: Tables, t': Tables, attributes: nat) {
    forall q {:trigger q in t'.node} :: q in t'.node && q !in t.node ==> LinkBits(t', q) == attributes % 8
  }

  lemma MadeAppend(s: Snapshot, s1: Snapshot, s2: Snapshot, lo: nat, hi: nat, attributes: nat)
    requires MadeWith(s.t, s1.t, attributes) && MadeWith(s1.t, s2.t, attributes) && Reshapes(s1, s2, lo, hi)
    ensures MadeWith(s.t, s2.t, attributes)
  {
    forall q | q in s2.t.node && q !in s.t.node ensures LinkBits(s2.t, q) == attributes % 8 {
      assert KeepsLink(s1.t, s2.t, q);
    }
  }

  /** The search has no frame left while a table on the path of v is still to be made. */
  ghost predicate StarvedAt(s: Snapshot, s': Snapshot, v: nat, ph: nat, pages: nat) {
    && Above(s'.free, s'.hint) == {} && Reshapes(s, s', v, v + 1)
    && exists q :: OnPath(q, s.t.gb, v, ph, pages) && q !in s'.t.node
  }

  /** An entry that is no table has none behind it. */
  lemma NoTableHere(t: Tables, p: Pos, x: nat)
    requires Shape(t) && p in t.node && 2 <= p.level && x < 512 && !IsTable(Read(t.mem, t.node[p], x))
    ensures Down(p, x) !in t.node
  {
    var q := Down(p, x);
    assert NodeOk(t, p) && LinkOk(t, q) && Up(q) == p && q.n % 512 == x;
  }

  lemma StarvedHere(s: Snapshot, q: Pos, v: nat, ph: nat, pages: nat)
    requires OnPath(q, s.t.gb, v, ph, pages) && q !in s.t.node && Above(s.free, s.hint) == {}
    ensures StarvedAt(s, s, v, ph, pages)
  {
  }

  lemma StarvedAfter(s: Snapshot, s1: Snapshot, s2: Snapshot, v: nat, ph: nat, pages: nat)
    requires Reshapes(s, s1, v, v + 1) && StarvedAt(s1, s2, v, ph, pages)
    ensures StarvedAt(s, s2, v, ph, pages)
  {
    ReshapesWithin(s, s1, s2, v, v + 1);
  }

  /** First the table at q, then tables on the path. */
  lemma AddsAppend(t: Tables, t1: Tables, t2: Tables, q: Pos, v: nat, ph: nat, pages: nat)
    requires AddsOnly(t, t1, {q}) && OnPath(q, t.gb, v, ph, pages) && t1.gb == t.gb && AddsOnPath(t1, t2, v, ph, pages)
    ensures AddsOnPath(t, t2, v, ph, pages)
  {
  }

  /** Where one round of the outer loop ends. */
  predicate ChunkEnds(gb: bool, v: nat, ph: nat, pages: nat, hi: nat) {
    && v < hi <= v + pages
    && if LeafFits(gb, 3, v, ph, pages) then hi % 262144 == 0
       else if LeafFits(gb, 2, v, ph, pages) then hi % 512 == 0 && hi <= v - v % 262144 + 262144
       else hi <= v - v % 512 + 512
  }

  /** The block of this level at page b lies inside the range [lo, end) that goes to the frames from ph on, and leaves of
      this size are in use and aligned there. */
  predicate Covered(gb: bool, level: nat, b: nat, lo: nat, end: nat, ph: nat) {
    if level == 2 then b % 512 == 0 && lo <= b && b + 512 <= end && (ph + (b - lo)) % 512 == 0
    else level == 3 && gb && b % 262144 == 0 && lo <= b && b + 262144 <= end && (ph + (b - lo)) % 262144 == 0
  }

  /** The rounds up to v did not end in the middle of such a block. */
  predicate Ready(gb: bool, lo: nat, v: nat, end: nat, ph: nat) {
    && (Covered(gb, 2, v - v % 512, lo, end, ph) ==> v % 512 == 0)
    && (Covered(gb, 3, v - v % 262144, lo, end, ph) ==> v % 262144 == 0)
  }

  lemma ReadyStart(gb: bool, lo: nat, end: nat, ph: nat)
    ensures Ready(gb, lo, lo, end, ph)
  {
  }

  lemma ReadyStep2(gb: bool, lo: nat, v: nat, end: nat, ph: nat, hi: nat)
    requires lo <= v < end && Ready(gb, lo, v, end, ph) && ChunkEnds(gb, v, ph + (v - lo), end - v, hi)
    ensures Covered(gb, 2, hi - hi % 512, lo, end, ph) ==> hi % 512 == 0
  {
    if LeafFits(gb, 3, v, ph + (v - lo), end - v) {
      Coarse(hi);
    } else if !LeafFits(gb, 2, v, ph + (v - lo), end - v) && hi % 512 != 0 {
      InBlock512(hi, v / 512);
    }
  }

  lemma ReadyStep3(gb: bool, lo: nat, v: nat, end: nat, ph: nat, hi: nat)
    requires lo <= v < end && Ready(gb, lo, v, end, ph) && ChunkEnds(gb, v, ph + (v - lo), end - v, hi)
    ensures Covered(gb, 3, hi - hi % 262144, lo, end, ph) ==> hi % 262144 == 0
  {
    if !LeafFits(gb, 3, v, ph + (v - lo), end - v) && hi % 262144 != 0 {
      SmallInBig(v);
      InBlock262144(hi, v / 262144);
    }
  }

  lemma SmallInBig(v: nat)
    ensures v - v % 512 + 512 <= v - v % 262144 + 262144
  {
    BlocksNest(v);
    var q := v / 512;
    InBlock512(v, q);
    InBlock262144(v, q / 512);
  }

  /** One more round. */
  lemma ReadyStep(gb: bool, lo: nat, v: nat, end: nat, ph: nat, hi: nat)
    requires lo <= v < end && Ready(gb, lo, v, end, ph) && ChunkEnds(gb, v, ph + (v - lo), end - v, hi)
    ensures Ready(gb, lo, hi, end, ph)
  {
    ReadyStep2(gb, lo, v, end, ph, hi);
    ReadyStep3(gb, lo, v, end, ph, hi);
  }

  /** A table that create_mapping may have to make for the range: no leaf takes the place of the whole table. */
  predicate Wanted(q: Pos, gb: bool, lo: nat, end: nat, ph: nat) {
    1 <= q.level <= 3 && !Covered(gb, q.level + 1, First(q), lo, end, ph)
  }

  /** One that is missing. */
  predicate IsNeeded(t: Tables, q: Pos, lo: nat, end: nat, ph: nat) {
    Lacks(t, q, lo, end) && Wanted(q, t.gb, lo, end, ph)
  }

  ghost function Needed(t: Tables, lo: nat, end: nat, ph: nat): set<Pos> {
    set q | q in Missing(t, lo, end) && Wanted(q, t.gb, lo, end, ph)
  }

  /** The tables made are needed for the range. */
  ghost predicate AddsNeeded(t: Tables, t': Tables, lo: nat, end: nat, ph: nat) {
    forall q {:trigger q in t'.node} :: q in t'.node && q !in t.node ==> IsNeeded(t, q, lo, end, ph)
  }

  /** Some table that the range needs was not made. */
  ghost predicate LacksNeeded(t: Tables, t': Tables, lo: nat, end: nat, ph: nat) {
    exists q :: IsNeeded(t, q, lo, end, ph) && q !in t'.node
  }

  lemma FirstOnPath(q: Pos, v: nat)
    requires 1 <= q.level <= 2 && q.n == Prefix(v, q.level)
    ensures First(q) == if q.level == 1 then v - v % 512 else v - v % 262144
  {
    BlocksNest(v);
  }

  /** What a round wants is wanted for the whole range. */
  lemma OnPathIsWanted(q: Pos, gb: bool, lo: nat, v: nat, end: nat, ph: nat)
    requires lo <= v < end && Ready(gb, lo, v, end, ph) && OnPath(q, gb, v, ph + (v - lo), end - v)
    ensures Wanted(q, gb, lo, end, ph)
  {
    if q.level <= 2 && Covered(gb, q.level + 1, First(q), lo, end, ph) {
      FirstOnPath(q, v);
    }
  }

  /** The tables made so far are among those the range needs. */
  lemma NeededStep(s: Snapshot, s1: Snapshot, s2: Snapshot, lo: nat, v: nat, hi: nat, end: nat, ph: nat)
    requires lo <= v < hi <= end && Ready(s.t.gb, lo, v, end, ph) && s1.t.gb == s.t.gb
    requires Reshapes(s1, s2, v, hi) && AddsNeeded(s.t, s1.t, lo, end, ph)
    requires AddsOnPath(s1.t, s2.t, v, ph + (v - lo), end - v)
    ensures AddsNeeded(s.t, s2.t, lo, end, ph)
  {
    forall q | q in s2.t.node && q !in s.t.node ensures IsNeeded(s.t, q, lo, end, ph) {
      if q !in s1.t.node {
        assert Fate(s1, s2, v, hi, q);
        OnPathIsWanted(q, s.t.gb, lo, v, end, ph);
      }
    }
  }

  /** A table on the path of v is missing when the frames run out. */
  lemma NeededAtEnd(s: Snapshot, s1: Snapshot, s2: Snapshot, lo: nat, v: nat, end: nat, ph: nat)
    requires lo <= v < end && Ready(s.t.gb, lo, v, end, ph) && s1.t.gb == s.t.gb && Shape(s.t) && Shape(s1.t)
    requires Reshapes(s, s1, lo, v) && StarvedAt(s1, s2, v, ph + (v - lo), end - v)
    requires AddsOnPath(s1.t, s2.t, v, ph + (v - lo), end - v) && AddsNeeded(s.t, s1.t, lo, end, ph)
    ensures AddsNeeded(s.t, s2.t, lo, end, ph) && LacksNeeded(s.t, s2.t, lo, end, ph)
  {
    NeededStep(s, s1, s2, lo, v, v + 1, end, ph);
    var q :| OnPath(q, s.t.gb, v, ph + (v - lo), end - v) && q !in s2.t.node;
    PrefixRegion(v, q);
    OnPathIsWanted(q, s.t.gb, lo, v, end, ph);
    assert Fate(s1, s2, v, v + 1, q) && Fate(s, s1, lo, v, q);
    assert IsNeeded(s.t, q, lo, end, ph);
  }

  /** The tables and the frames that hold them are equally many. */
  lemma FramesAndNodes(t: Tables)
    requires Shape(t)
    ensures |t.mem.Keys| == |t.node.Keys|
  {
    forall f | f in t.mem.Keys ensures f in t.owner && t.owner[f] in t.node.Keys && t.node[t.owner[f]] == f {
      assert FrameOk(t, f);
    }
    Injection(t.mem.Keys, t.node.Keys, t.owner);
    forall q | q in t.node.Keys ensures t.node[q] in t.mem.Keys { assert NodeOk(t, q); }
    InjectionBack(t.node.Keys, t.mem.Keys, t);
  }

  lemma {:induction false} InjectionBack(a: set<Pos>, b: set<nat>, t: Tables)
    requires Shape(t) && forall q :: q in a ==> q in t.node && t.node[q] in b
    ensures |a| <= |b|
  {
    if a != {} {
      var q :| q in a;
      forall r | r in a - {q} ensures t.node[r] in b - {t.node[q]} { assert NodeOk(t, r) && NodeOk(t, q); }
      InjectionBack(a - {q}, b - {t.node[q]}, t);
    }
  }

  /** Whoever makes only tables of n and finds no frame for one of them started with fewer frames than n lacks tables. */
  lemma TooFewFrames(s: Snapshot, s': Snapshot, n: set<Pos>)
    requires Shape(s.t) && Shape(s'.t) && Conserves(s, s') && Above(s'.free, s'.hint) == {}
    requires forall f :: f in s.free ==> f !in s.t.mem
    requires AddsOnly(s.t, s'.t, n) && Lacking(s'.t, n)
    ensures |Supply(s)| < |n - s.t.node.Keys|
  {
    ConservesPool(s, s');
    FramesAndNodes(s.t);
    FramesAndNodes(s'.t);
    assert |Supply(s) + s.t.mem.Keys| == |Supply(s)| + |s.t.mem.Keys| by {
      assert Supply(s) !! s.t.mem.Keys;
    }
    SubsetCard(Supply(s) + s.t.mem.Keys, s'.t.mem.Keys);
    var q :| q in n && q !in s'.t.node.Keys;
    if q in s.t.node {
      SubsetCard(s'.t.node.Keys, (s.t.node.Keys - {q}) + (n - s.t.node.Keys));
    } else {
      SubsetCard(s'.t.node.Keys, s.t.node.Keys + (n - s.t.node.Keys - {q}));
    }
  }

  /** create_mapping cannot starve while the search can reach as many frames as it needs tables. */
  lemma EnoughSupply(s: Snapshot, s': Snapshot, lo: nat, end: nat, ph: nat)
    requires Shape(s.t) && Shape(s'.t) && Conserves(s, s') && Above(s'.free, s'.hint) == {}
    requires forall f :: f in s.free ==> f !in s.t.mem
    requires AddsNeeded(s.t, s'.t, lo, end, ph) && LacksNeeded(s.t, s'.t, lo, end, ph)
    ensures |Supply(s)| < |Needed(s.t, lo, end, ph)|
  {
    var n := Needed(s.t, lo, end, ph);
    forall q | q in s'.t.node && q !in s.t.node ensures q in n { InMissing(s.t, lo, end, q); }
    var q :| IsNeeded(s.t, q, lo, end, ph) && q !in s'.t.node;
    InMissing(s.t, lo, end, q);
    assert q in n;
    TooFewFrames(s, s', n);
    SubsetCard(n - s.t.node.Keys, n);
  }

  // ----- splitting -----

  /** Page x lies in the region of the table, but not at its start. */
  predicate Straddled(q: Pos, x: nat) {
    First(q) < x < First(q) + Region(q)
  }

  /** A table through whose region an end of the range goes, and which may take the place of a huge leaf. */
  predicate Cut(gb: bool, q: Pos, lo: nat, end: nat) {
    (q.level == 1 || (gb && q.level == 2)) && (Straddled(q, lo) || Straddled(q, end))
  }

  ghost function Cuts(gb: bool, lo: nat, end: nat): set<Pos> {
    set q | q in {Pos(1, lo / 512), Pos(1, end / 512), Pos(2, lo / 262144), Pos(2, end / 262144)} && Cut(gb, q, lo, end)
  }

  /** The tables destroy_mapping may have to make. */
  ghost function MissingCuts(t: Tables, lo: nat, end: nat): set<Pos> {
    Cuts(t.gb, lo, end) - t.node.Keys
  }

  lemma InCuts(gb: bool, lo: nat, end: nat, q: Pos)
    ensures q in Cuts(gb, lo, end) <==> Cut(gb, q, lo, end)
  {
    if Cut(gb, q, lo, end) {
      var x := if Straddled(q, lo) then lo else end;
      StraddledIs(q, x);
      assert q == Pos(q.level, q.n);
    }
  }

  lemma StraddledIs(q: Pos, x: nat)
    requires 1 <= q.level <= 2 && Straddled(q, x)
    ensures q.n == if q.level == 1 then x / 512 else x / 262144
  {
    if q.level == 1 { InBlock512(x, q.n); } else { InBlock262144(x, q.n); }
  }

  /** At most two tables at each end. */
  lemma FewCuts(t: Tables, lo: nat, end: nat)
    ensures |MissingCuts(t, lo, end)| <= 4
  {
    FourPlaces(MissingCuts(t, lo, end), Pos(1, lo / 512), Pos(1, end / 512), Pos(2, lo / 262144), Pos(2, end / 262144));
  }

  lemma FourPlaces(n: set<Pos>, a: Pos, b: Pos, c: Pos, d: Pos)
    requires n <= {a, b, c, d}
    ensures |n| <= 4
  {
    SubsetCard(n, {a, b, c, d});
    assert |{a, b}| <= 2 && |{a, b, c}| <= 3;
  }

  /** destroy_mapping cannot starve while the search can reach as many frames as it has to make tables. */
  lemma EnoughForCuts(s: Snapshot, s': Snapshot, lo: nat, end: nat)
    requires Shape(s.t) && Shape(s'.t) && Conserves(s, s') && Above(s'.free, s'.hint) == {}
    requires forall f :: f in s.free ==> f !in s.t.mem
    requires AddsOnly(s.t, s'.t, Cuts(s.t.gb, lo, end)) && Lacking(s'.t, Cuts(s.t.gb, lo, end))
    ensures |Supply(s)| < |MissingCuts(s.t, lo, end)|
  {
    TooFewFrames(s, s', Cuts(s.t.gb, lo, end));
  }

  lemma InBlocks(v: nat)
    ensures v - v % 512 == 512 * (v / 512) && v - v % 262144 == 262144 * (v / 262144)
    ensures (v - v % 512) % 512 == 0 && (v - v % 262144) % 262144 == 0
  {
  }

  /** A later round cuts through no table that the range does not cut through. */
  lemma CutFromHere(gb: bool, lo: nat, v: nat, end: nat, q: Pos)
    requires lo <= v < end && Ready(gb, lo, v, end, lo) && Cut(gb, q, v, end)
    ensures Cut(gb, q, lo, end)
  {
    if Straddled(q, v) && !Straddled(q, end) && !Straddled(q, lo) {
      StraddledIs(q, v);
      InBlocks(v);
      assert false;
    }
  }

  lemma CutsFromHere(gb: bool, lo: nat, v: nat, end: nat)
    requires lo <= v < end && Ready(gb, lo, v, end, lo)
    ensures Cuts(gb, v, end) <= Cuts(gb, lo, end)
  {
    forall q | q in Cuts(gb, v, end) ensures q in Cuts(gb, lo, end) {
      InCuts(gb, v, end, q);
      CutFromHere(gb, lo, v, end, q);
      InCuts(gb, lo, end, q);
    }
  }

  /** A leaf of this level at page v that starts at frame hphys and is not cleared as a whole. */
  predicate SplitOf(gb: bool, level: nat, v: nat, pages: nat, hphys: nat) {
    && 2 <= level <= 3 && (level == 3 ==> gb) && Aligned(hphys, level) && Page(v) && pages > 0
    && (BlockStart(level, v) < v || pages < Span(level))
  }

  /** Where the part to be cleared ends. */
  function SplitEnd(level: nat, v: nat, pages: nat): nat {
    var e := BlockStart(level, v) + Span(level);
    if v + pages < e then v + pages else e
  }

  /** One of the three parts of the leaf, with the frame it starts at. */
  predicate PartOf(level: nat, v: nat, pages: nat, hphys: nat, lo: nat, hi: nat, phys: nat) {
    var h, c := BlockStart(level, v), SplitEnd(level, v, pages);
    && phys == hphys + (lo - h)
    && ((lo == h && hi == v) || (lo == v && hi == c) || (lo == c && hi == h + Span(level)))
  }

  lemma PartInBlock(level: nat, v: nat, pages: nat, hphys: nat, lo: nat, hi: nat, phys: nat)
    requires 2 <= level <= 3 && PartOf(level, v, pages, hphys, lo, hi, phys)
    ensures BlockStart(level, v) <= lo <= hi <= BlockStart(level, v) + Span(level)
  {
    BlockShape(level, v, v);
  }

  /** A page table that a part of a 1 GiB leaf needs is cut through by an end of the part. */
  lemma PartCutsSmall(q: Pos, gb: bool, v: nat, pages: nat, hphys: nat, lo: nat, hi: nat, phys: nat)
    requires SplitOf(gb, 3, v, pages, hphys) && PartOf(3, v, pages, hphys, lo, hi, phys)
    requires q.level == 1 && Covers(q, lo, hi) && Wanted(q, gb, lo, hi, phys)
    ensures Straddled(q, v) || Straddled(q, v + pages)
  {
    BlockShape(3, v, v);
    var h := BlockStart(3, v);
    Coarse(h);
    Coarse(hphys);
    Coarse(h + 262144);
    Congruent(hphys, h, q.n);
    NotInside(q.n, lo);
    NotInside(q.n, hi);
  }

  lemma Congruent(hphys: nat, h: nat, n: nat)
    requires hphys % 512 == 0 && h % 512 == 0
    ensures (hphys + (512 * n - h)) % 512 == 0
  {
    assert hphys == 512 * (hphys / 512) && h == 512 * (h / 512);
    assert hphys + (512 * n - h) == 512 * (hphys / 512 + n - h / 512);
    Multiple512(hphys / 512 + n - h / 512);
  }

  lemma Multiple512(k: int)
    ensures (512 * k) % 512 == 0
  {
  }

  lemma NotInside(n: nat, x: nat)
    ensures x % 512 == 0 ==> !(512 * n < x < 512 * n + 512)
  {
    if 512 * n < x < 512 * n + 512 { InBlock512(x, n); }
  }

  /** The table that takes the place of the leaf itself. */
  lemma PartCutsWhole(q: Pos, gb: bool, level: nat, v: nat, pages: nat, hphys: nat, w: nat)
    requires SplitOf(gb, level, v, pages, hphys) && q.level + 1 == level
    requires First(q) <= w < First(q) + Region(q) && BlockStart(level, w) == BlockStart(level, v)
    ensures Straddled(q, v) || Straddled(q, v + pages)
  {
    BlockShape(level, v, v);
    if level == 2 { InBlock512(w, q.n); } else { InBlock262144(w, q.n); }
  }

  /** What mapping a part of a leaf may need below the level of the leaf is cut through by the range. */
  lemma PartCuts(q: Pos, gb: bool, level: nat, v: nat, pages: nat, hphys: nat, lo: nat, hi: nat, phys: nat)
    requires SplitOf(gb, level, v, pages, hphys) && PartOf(level, v, pages, hphys, lo, hi, phys)
    requires 1 <= q.level < level && Covers(q, lo, hi) && Wanted(q, gb, lo, hi, phys)
    ensures q in Cuts(gb, v, v + pages)
  {
    InCuts(gb, v, v + pages, q);
    PartInBlock(level, v, pages, hphys, lo, hi, phys);
    if q.level + 1 == level {
      var w := if First(q) < lo then lo else First(q);
      BlockShape(level, v, w);
      PartCutsWhole(q, gb, level, v, pages, hphys, w);
    } else {
      PartCutsSmall(q, gb, v, pages, hphys, lo, hi, phys);
    }
  }

  /** The tables above a leaf are on the path of its pages. */
  ghost predicate OnTop(t: Tables, v: nat, level: nat) {
    && (level <= 2 ==> Pos(2, Prefix(v, 2)) in t.node) && Pos(3, Prefix(v, 3)) in t.node
  }

  lemma TopOfLeaf(t: Tables, v: nat, level: nat)
    requires Shape(t) && Page(v) && 2 <= level <= 3 && Pos(level, Prefix(v, level)) in t.node
    ensures OnTop(t, v, level)
  {
    PathStep(t, v, 4);
    PathStep(t, v, 3);
    if level == 2 { AboveTable(t, v, 2); }
  }

  lemma TopKept(t: Tables, t': Tables, v: nat, level: nat)
    requires OnTop(t, v, level) && KeepsTables(t, t', level) && 2 <= level <= 3
    ensures OnTop(t', v, level)
  {
    assert Kept(t, t', level, Pos(2, Prefix(v, 2))) && Kept(t, t', level, Pos(3, Prefix(v, 3)));
  }

  /** A table of the level of the leaf or above that covers a part of the leaf is on top of it. */
  lemma CoversTop(q: Pos, t: Tables, level: nat, v: nat, lo: nat, hi: nat)
    requires 2 <= level <= q.level <= 3 && OnTop(t, v, level) && Covers(q, lo, hi)
    requires BlockStart(level, v) <= lo <= hi <= BlockStart(level, v) + Span(level)
    ensures q in t.node
  {
    var w := if First(q) < lo then lo else First(q);
    BlockShape(level, v, w);
    PrefixRegion(w, q);
    SameTable(level, w, v);
    assert Prefix(w, q.level) == Prefix(v, q.level);
    assert q == Pos(q.level, q.n);
  }

  /** Whatever the tables are, as long as they lead to the leaf at v: mapping these pages needs only tables of n. */
  ghost predicate NeedsOnly(gb: bool, v: nat, level: nat, lo: nat, count: nat, phys: nat, n: set<Pos>) {
    && count <= Span(level)
    && forall t: Tables, q {:trigger OnTop(t, v, level), IsNeeded(t, q, lo, lo + count, phys)} ::
         t.gb == gb && OnTop(t, v, level) && IsNeeded(t, q, lo, lo + count, phys) ==> q in n
  }

  /** So it is with the parts: they need no tables but those that the range cuts through. */
  lemma PartNeedsOnly(gb: bool, level: nat, v: nat, pages: nat, hphys: nat, lo: nat, hi: nat, phys: nat, count: nat)
    requires SplitOf(gb, level, v, pages, hphys) && PartOf(level, v, pages, hphys, lo, hi, phys) && lo + count == hi
    ensures NeedsOnly(gb, v, level, lo, count, phys, Cuts(gb, v, v + pages))
  {
    PartInBlock(level, v, pages, hphys, lo, hi, phys);
    forall t: Tables, q | t.gb == gb && OnTop(t, v, level) && IsNeeded(t, q, lo, hi, phys)
      ensures q in Cuts(gb, v, v + pages)
    {
      if q.level < level {
        PartCuts(q, gb, level, v, pages, hphys, lo, hi, phys);
      } else {
        CoversTop(q, t, level, v, lo, hi);
        assert false;
      }
    }
  }

  lemma NeedsOnlyAdds(t: Tables, t': Tables, v: nat, level: nat, lo: nat, count: nat, phys: nat, n: set<Pos>)
    requires NeedsOnly(t.gb, v, level, lo, count, phys, n) && OnTop(t, v, level) && AddsNeeded(t, t', lo, lo + count, phys)
    ensures AddsOnly(t, t', n) && (LacksNeeded(t, t', lo, lo + count, phys) ==> Lacking(t', n))
  {
  }

  lemma PartsInOrder(level: nat, v: nat, pages: nat)
    requires 2 <= level <= 3 && pages > 0
    ensures BlockStart(level, v) <= v < SplitEnd(level, v, pages) <= BlockStart(level, v) + Span(level)
  {
    BlockShape(level, v, v);
  }

  /** All three parts. */
  lemma SplitNeedsOnly(gb: bool, level: nat, v: nat, pages: nat, hphys: nat, h: nat, c: nat, e: nat, n: set<Pos>)
    requires SplitOf(gb, level, v, pages, hphys) && h == BlockStart(level, v) && c == SplitEnd(level, v, pages) && e == h + Span(level)
    requires h <= v < c <= e && n == Cuts(gb, v, v + pages)
    ensures NeedsOnly(gb, v, level, h, v - h, hphys, n)
    ensures NeedsOnly(gb, v, level, v, c - v, hphys + (v - h), n)
    ensures NeedsOnly(gb, v, level, c, e - c, hphys + (c - h), n)
  {
    PartNeedsOnly(gb, level, v, pages, hphys, h, v, hphys, v - h);
    PartNeedsOnly(gb, level, v, pages, hphys, v, c, hphys + (v - h), c - v);
    PartNeedsOnly(gb, level, v, pages, hphys, c, e, hphys + (c - h), e - c);
  }

  lemma PartKeeps(s: Snapshot, s': Snapshot, level: nat, v: nat, lo: nat, count: nat)
    requires 2 <= level <= 3 && count <= Span(level) && OnTop(s.t, v, level) && Reshapes(s, s', lo, lo + count)
    ensures OnTop(s'.t, v, level) && KeepsTables(s.t, s'.t, level)
  {
    ReshapesKeeps(s, s', level, lo, lo + count);
    TopKept(s.t, s'.t, v, level);
  }

  /** A round of single pages. */
  lemma SmallChunk(gb: bool, v: nat, pages: nat, hi: nat)
    requires v < hi <= v + pages && hi <= v - v % 512 + 512 && !(v % 512 == 0 && pages >= 512)
    ensures ChunkEnds(gb, v, v, pages, hi)
  {
    if LeafFits(gb, 3, v, v, pages) { Coarse(v); }
  }
}
