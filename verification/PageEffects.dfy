// What create_mapping and destroy_mapping mean: effects on the translation of every page, how the effects
// of consecutive chunks add up, and what happens to the tables and to the pool of frames meanwhile.
module PageEffects {
  import opened Options
  import opened FrameAllocation
  import opened PageTree

  /** First page of the block of a leaf of this level that holds page w. */
  function BlockStart(level: nat, w: nat): nat {
    w - w % Span(level)
  }

  /** The leaf that translates w reaches into [lo, hi). */
  predicate Touches(x: Option<Mapping>, w: nat, lo: nat, hi: nat) {
    x.Some? && lo < hi && BlockStart(x.value.level, w) < hi && lo < BlockStart(x.value.level, w) + Span(x.value.level)
  }

  predicate Within(y: Mapping, w: nat, lo: nat, hi: nat) {
    lo <= BlockStart(y.level, w) && BlockStart(y.level, w) + Span(y.level) <= hi
  }

  /** Page w after [lo, hi) has been mapped to consecutive frames: x is its old translation and y its new one. */
  predicate Mapped(x: Option<Mapping>, y: Option<Mapping>, w: nat, lo: nat, hi: nat, frame: nat, attributes: nat) {
    if lo <= w < hi then
      y.Some? && y.value.frame == frame + (w - lo) && y.value.attributes == attributes && Within(y.value, w, lo, hi)
    else
      y == if Touches(x, w, lo, hi) then None else x
  }

  /** The effect of create_mapping: the range is mapped by leaves inside it; a page outside loses its
      translation exactly when its old leaf reaches into the range, and keeps it otherwise. */
  ghost predicate Maps(m: Memory, m': Memory, root: nat, lo: nat, hi: nat, frame: nat, attributes: nat) {
    forall w: nat {:trigger Page(w)} :: Page(w) ==> Mapped(Translate(m, root, w), Translate(m', root, w), w, lo, hi, frame, attributes)
  }

  lemma MapsNothing(m: Memory, root: nat, lo: nat, frame: nat, attributes: nat)
    ensures Maps(m, m, root, lo, lo, frame, attributes)
  {
  }

  /** Two adjacent chunks with consecutive frames make one larger effect. */
  lemma MapsAppend(m: Memory, m1: Memory, m2: Memory, root: nat, lo: nat, mid: nat, hi: nat, frame: nat, attributes: nat)
    requires lo <= mid <= hi
    requires Maps(m, m1, root, lo, mid, frame, attributes)
    requires Maps(m1, m2, root, mid, hi, frame + (mid - lo), attributes)
    ensures Maps(m, m2, root, lo, hi, frame, attributes)
  {
    forall w: nat | Page(w)
      ensures Mapped(Translate(m, root, w), Translate(m2, root, w), w, lo, hi, frame, attributes)
    {
      var x, y, z := Translate(m, root, w), Translate(m1, root, w), Translate(m2, root, w);
      assert Mapped(x, y, w, lo, mid, frame, attributes);
      assert Mapped(y, z, w, mid, hi, frame + (mid - lo), attributes);
    }
  }

  /** A run of count leaves of one level, written into one table. */
  ghost predicate Filled(m: Memory, m': Memory, root: nat, lo: nat, hi: nat, frame: nat, attributes: nat, level: nat) {
    forall w: nat {:trigger Page(w)} :: Page(w) ==>
      Translate(m', root, w) == if lo <= w < hi then Some(Mapping(frame + (w - lo), attributes, level)) else Translate(m, root, w)
  }

  /** A run of entries cleared in one table. */
  ghost predicate Cleared(m: Memory, m': Memory, root: nat, lo: nat, hi: nat) {
    forall w: nat {:trigger Page(w)} :: Page(w) ==>
      Translate(m', root, w) == if lo <= w < hi then None else Translate(m, root, w)
  }

  lemma LevelsSeen(m: Memory, root: nat, w: nat)
    ensures var x := Translate(m, root, w); x.Some? ==> 1 <= x.value.level <= 3
  {
  }

  /** No leaf above this level translates the surroundings of page cur. */
  ghost predicate NoLeafAbove(m: Memory, root: nat, cur: nat, level: nat) {
    forall w: nat {:trigger Page(w)} :: Page(w) ==>
      var x := Translate(m, root, w);
      x.Some? ==>
        && 1 <= x.value.level <= 3
        && (x.value.level > level ==> BlockStart(x.value.level, w) != BlockStart(x.value.level, cur))
  }

  lemma SamePrefix(level: nat, w: nat, cur: nat)
    requires 1 <= level <= 3
    ensures Prefix(w, level - 1) == Prefix(cur, level - 1) <==> BlockStart(level, w) == BlockStart(level, cur)
  {
  }

  /** Where there is a table there is no leaf above it. */
  lemma TableExcludesLeaf(t: Tables, level: nat, cur: nat)
    requires Shape(t) && Page(cur) && 1 <= level <= 3 && Pos(level, Prefix(cur, level)) in t.node
    ensures NoLeafAbove(t.mem, t.root, cur, level)
  {
    if level < 3 { AboveTable(t, cur, level); }
    forall w: nat | Page(w)
      ensures var x := Translate(t.mem, t.root, w);
              x.Some? ==>
                && 1 <= x.value.level <= 3
                && (x.value.level > level ==> BlockStart(x.value.level, w) != BlockStart(x.value.level, cur))
    {
      WalkSeesTree(t, w);
      SamePrefix(2, w, cur);
      SamePrefix(3, w, cur);
    }
  }

  /** A run of leaves written into one table maps its range. */
  lemma RunMaps(m: Memory, m': Memory, root: nat, lo: nat, hi: nat, frame: nat, attributes: nat, level: nat)
    requires 1 <= level <= 3 && lo < hi
    requires NoLeafAbove(m, root, lo, level) && Filled(m, m', root, lo, hi, frame, attributes, level)
    requires lo % Span(level) == 0 && hi % Span(level) == 0
    requires level < 3 ==> BlockStart(level + 1, lo) == BlockStart(level + 1, hi - 1)
    ensures Maps(m, m', root, lo, hi, frame, attributes)
  {
    forall w: nat | Page(w)
      ensures Mapped(Translate(m, root, w), Translate(m', root, w), w, lo, hi, frame, attributes)
    {
      var x := Translate(m, root, w);
      if lo <= w < hi {
        BlocksAligned(level, w, lo, hi);
      } else if x.Some? && x.value.level <= level {
        LowBlocks(x.value.level, level, w, lo, hi);
      } else if x.Some? {
        HighBlocks(x.value.level, level, w, lo, hi);
      }
    }
  }

  lemma BlocksAligned(level: nat, w: nat, lo: nat, hi: nat)
    requires lo <= w < hi && lo % Span(level) == 0 && hi % Span(level) == 0
    ensures lo <= BlockStart(level, w) && BlockStart(level, w) + Span(level) <= hi
  {
  }

  /** A block no larger than the leaves written is either inside the chunk or outside of it. */
  lemma LowBlocks(small: nat, level: nat, w: nat, lo: nat, hi: nat)
    requires 1 <= small <= level <= 3 && lo < hi && lo % Span(level) == 0 && hi % Span(level) == 0
    requires !(lo <= w < hi)
    ensures BlockStart(small, w) >= hi || lo >= BlockStart(small, w) + Span(small)
  {
    if small == 2 {
      if level == 3 {
        Coarse(lo);
        Coarse(hi);
      }
      Outside512(w, lo, hi);
    } else if small == 3 {
      Outside262144(w, lo, hi);
    }
  }

  lemma Outside512(w: nat, lo: nat, hi: nat)
    requires lo % 512 == 0 && hi % 512 == 0 && lo < hi && !(lo <= w < hi)
    ensures w - w % 512 >= hi || lo >= w - w % 512 + 512
  {
    var q, a, b := w / 512, lo / 512, hi / 512;
    assert lo == 512 * a && hi == 512 * b && w - w % 512 == 512 * q;
  }

  lemma Outside262144(w: nat, lo: nat, hi: nat)
    requires lo % 262144 == 0 && hi % 262144 == 0 && lo < hi && !(lo <= w < hi)
    ensures w - w % 262144 >= hi || lo >= w - w % 262144 + 262144
  {
    var q, a, b := w / 262144, lo / 262144, hi / 262144;
    assert lo == 262144 * a && hi == 262144 * b && w - w % 262144 == 262144 * q;
  }

  /** A larger block reaches into the chunk only when it is the block of lo. */
  lemma HighBlocks(large: nat, level: nat, w: nat, lo: nat, hi: nat)
    requires 1 <= level < large <= 3 && lo < hi && BlockStart(level + 1, lo) == BlockStart(level + 1, hi - 1)
    ensures (BlockStart(large, w) < hi && lo < BlockStart(large, w) + Span(large)) <==> BlockStart(large, w) == BlockStart(large, lo)
  {
    if large == 2 {
      Meets512(w, lo, hi);
    } else {
      if level == 1 { SameBlocks(lo, hi - 1); }
      Meets262144(w, lo, hi);
    }
  }

  lemma SameBlocks(x: nat, y: nat)
    requires x - x % 512 == y - y % 512
    ensures x - x % 262144 == y - y % 262144
  {
    assert x / 512 == y / 512;
    BlocksNest(x);
    BlocksNest(y);
  }

  lemma Meets512(w: nat, lo: nat, hi: nat)
    requires lo < hi && lo - lo % 512 == hi - 1 - (hi - 1) % 512
    ensures (w - w % 512 < hi && lo < w - w % 512 + 512) <==> w - w % 512 == lo - lo % 512
  {
    var a, q := w / 512, lo / 512;
    assert w - w % 512 == 512 * a && lo - lo % 512 == 512 * q;
  }

  lemma Meets262144(w: nat, lo: nat, hi: nat)
    requires lo < hi && lo - lo % 262144 == hi - 1 - (hi - 1) % 262144
    ensures (w - w % 262144 < hi && lo < w - w % 262144 + 262144) <==> w - w % 262144 == lo - lo % 262144
  {
    var a, q := w / 262144, lo / 262144;
    assert w - w % 262144 == 262144 * a && lo - lo % 262144 == 262144 * q;
  }

  /** Page w after [lo, hi) has been unmapped. Outside, frame and attributes stay; a leaf may have been split,
      but only when it reaches into the range. */
  predicate Unmapped(x: Option<Mapping>, z: Option<Mapping>, w: nat, lo: nat, hi: nat) {
    if lo <= w < hi then z == None
    else
      && (x.Some? <==> z.Some?)
      && (x.Some? ==> x.value.frame == z.value.frame && x.value.attributes == z.value.attributes)
      && (!Touches(x, w, lo, hi) ==> z == x)
      && (x.Some? && z.Some? && z != x ==> z.value.level < x.value.level)
  }

  /** The effect of destroy_mapping. */
  ghost predicate Unmaps(m: Memory, m': Memory, root: nat, lo: nat, hi: nat) {
    forall w: nat {:trigger Page(w)} :: Page(w) ==> Unmapped(Translate(m, root, w), Translate(m', root, w), w, lo, hi)
  }

  lemma UnmapsNothing(m: Memory, root: nat, lo: nat)
    ensures Unmaps(m, m, root, lo, lo)
  {
  }

  /** Two adjacent chunks. */
  lemma UnmapsAppend(m: Memory, m1: Memory, m2: Memory, root: nat, lo: nat, mid: nat, hi: nat)
    requires lo <= mid <= hi && Unmaps(m, m1, root, lo, mid) && Unmaps(m1, m2, root, mid, hi)
    ensures Unmaps(m, m2, root, lo, hi)
  {
    forall w: nat | Page(w)
      ensures Unmapped(Translate(m, root, w), Translate(m2, root, w), w, lo, hi)
    {
      var x, y, z := Translate(m, root, w), Translate(m1, root, w), Translate(m2, root, w);
      assert Unmapped(x, y, w, lo, mid) && Unmapped(y, z, w, mid, hi);
    }
  }

  /** The tables together with the bitmap: the frames whose bit is clear and the search hint. */
  datatype Snapshot = Snapshot(t: Tables, free: set<nat>, hint: nat)

  function Supply(s: Snapshot): set<nat> {
    Above(s.free, s.hint)
  }

  /** Every frame that is free or holds a table. */
  function Pool(s: Snapshot): set<nat> {
    s.free + s.t.mem.Keys
  }

  /** The pages translated through the table at q are [First(q), First(q) + Region(q)). */
  function Region(q: Pos): nat {
    if q.level <= 1 then 512 else if q.level == 2 then 262144 else 134217728
  }

  function First(q: Pos): nat {
    if q.level <= 1 then 512 * q.n else if q.level == 2 then 262144 * q.n else 134217728 * q.n
  }

  predicate Covers(q: Pos, lo: nat, hi: nat) {
    lo < hi && First(q) < hi && lo < First(q) + Region(q)
  }

  predicate Inside(q: Pos, lo: nat, hi: nat) {
    lo <= First(q) && First(q) + Region(q) <= hi
  }

  /** The fate of one frame: held by the bitmap or by a table before exactly when afterwards, and if the search
      could still reach it, or a table held it, then so it is afterwards. */
  ghost predicate FrameFate(s: Snapshot, s': Snapshot, f: nat) {
    && (f in s.free || f in s.t.mem <==> f in s'.free || f in s'.t.mem)
    && ((f in s.free && s.hint <= f) || f in s.t.mem ==> (f in s'.free && s'.hint <= f) || f in s'.t.mem)
  }

  /** No frame is lost or invented, and none becomes unreachable for the search. */
  ghost predicate Conserves(s: Snapshot, s': Snapshot) {
    && s'.t.root == s.t.root && s'.t.gb == s.t.gb
    && forall f {:trigger FrameFate(s, s', f)} :: FrameFate(s, s', f)
  }

  lemma ConservesPool(s: Snapshot, s': Snapshot)
    requires Conserves(s, s')
    ensures Pool(s') == Pool(s) && Supply(s) + s.t.mem.Keys <= Supply(s') + s'.t.mem.Keys
  {
    forall f ensures (f in Pool(s) <==> f in Pool(s')) && (f in Supply(s) + s.t.mem.Keys ==> f in Supply(s') + s'.t.mem.Keys) {
      assert FrameFate(s, s', f);
    }
  }

  lemma ConservesAppend(s: Snapshot, s1: Snapshot, s2: Snapshot)
    requires Conserves(s, s1) && Conserves(s1, s2)
    ensures Conserves(s, s2)
  {
    forall f ensures FrameFate(s, s2, f) {
      assert FrameFate(s, s1, f) && FrameFate(s1, s2, f);
    }
  }

  /** The fate of one table while [lo, hi) is worked on: a new table is on the path of the range, a table is
      given up only when its whole region lies in the range, and no other table moves. */
  ghost predicate Fate(s: Snapshot, s': Snapshot, lo: nat, hi: nat, q: Pos) {
    && (q in s.t.node && q in s'.t.node ==> s'.t.node[q] == s.t.node[q])
    && (q in s'.t.node && q !in s.t.node ==> Covers(q, lo, hi))
    && (q in s.t.node && q !in s'.t.node ==> Inside(q, lo, hi))
  }

  /** No aligned block of 512 pages lies inside the range, so no table does either. */
  predicate NoWholeBlock(lo: nat, hi: nat) { (lo + 511) / 512 * 512 + 512 > hi }

  lemma NoBlockInside(lo: nat, hi: nat, n: nat)
    requires NoWholeBlock(lo, hi)
    ensures !(lo <= 512 * n && 512 * n + 512 <= hi)
  {
    if lo <= 512 * n {
      assert (lo + 511) / 512 <= n;
    }
  }

  lemma NoBlockInPart(lo: nat, hi: nat, v: nat, w: nat)
    requires NoWholeBlock(lo, hi) && lo <= v && w <= hi
    ensures NoWholeBlock(v, w)
  {
    assert (lo + 511) / 512 <= (v + 511) / 512;
  }

  /** While no table can be given up, frames are only taken from those the search reaches. */
  ghost predicate Draws(s: Snapshot, s': Snapshot, lo: nat, hi: nat) {
    NoWholeBlock(lo, hi) ==> s.hint <= s'.hint && forall f: nat {:trigger f in s'.free} :: f in s.free && f !in s'.free ==> s.hint <= f
  }

  /** The tables and frames after work on [lo, hi). */
  ghost predicate Reshapes(s: Snapshot, s': Snapshot, lo: nat, hi: nat) {
    && Conserves(s, s') && Draws(s, s', lo, hi)
    && (forall q {:trigger Fate(s, s', lo, hi, q)} :: Fate(s, s', lo, hi, q))
    && (forall q {:trigger KeepsLink(s.t, s'.t, q)} :: KeepsLink(s.t, s'.t, q))
  }

  lemma ReshapesAppend(s: Snapshot, s1: Snapshot, s2: Snapshot, lo: nat, mid: nat, hi: nat)
    requires lo <= mid <= hi && Reshapes(s, s1, lo, mid) && Reshapes(s1, s2, mid, hi)
    ensures Reshapes(s, s2, lo, hi)
  {
    forall q ensures Fate(s, s2, lo, hi, q) {
      assert Fate(s, s1, lo, mid, q) && Fate(s1, s2, mid, hi, q);
    }
    forall q ensures KeepsLink(s.t, s2.t, q) {
      assert Fate(s, s1, lo, mid, q) && Fate(s1, s2, mid, hi, q) && KeepsLink(s.t, s1.t, q) && KeepsLink(s1.t, s2.t, q);
    }
    if NoWholeBlock(lo, hi) {
      NoBlockInPart(lo, hi, lo, mid);
      NoBlockInPart(lo, hi, mid, hi);
    }
    ConservesAppend(s, s1, s2);
  }

  /** Preparing the path of lo and then working on [lo, hi) is work on [lo, hi). */
  lemma ReshapesWithin(s: Snapshot, s1: Snapshot, s2: Snapshot, lo: nat, hi: nat)
    requires lo < hi && Reshapes(s, s1, lo, lo + 1) && Reshapes(s1, s2, lo, hi)
    ensures Reshapes(s, s2, lo, hi)
  {
    forall q ensures Fate(s, s2, lo, hi, q) {
      assert Fate(s, s1, lo, lo + 1, q) && Fate(s1, s2, lo, hi, q);
    }
    forall q ensures KeepsLink(s.t, s2.t, q) {
      assert Fate(s, s1, lo, lo + 1, q) && Fate(s1, s2, lo, hi, q) && KeepsLink(s.t, s1.t, q) && KeepsLink(s1.t, s2.t, q);
    }
    if NoWholeBlock(lo, hi) {
      NoBlockInPart(lo, hi, lo, lo + 1);
    }
    ConservesAppend(s, s1, s2);
  }

  /** A table that page walks into [lo, hi) need and that does not exist. */
  predicate Lacks(t: Tables, q: Pos, lo: nat, hi: nat) {
    1 <= q.level <= 3 && Covers(q, lo, hi) && q !in t.node
  }

  lemma PrefixRegion(w: nat, q: Pos)
    requires 1 <= q.level <= 3
    ensures Prefix(w, q.level) == q.n <==> First(q) <= w < First(q) + Region(q)
  {
  }

  /** Page w lost its leaf of this level to an empty table. */
  ghost predicate Displaces(m: Memory, m': Memory, root: nat, p: Pos, x: nat) {
    forall w: nat {:trigger Page(w)} :: Page(w) ==>
      Translate(m', root, w) == Displaced(Translate(m, root, w), w, p, x)
  }

  function Displaced(y: Option<Mapping>, w: nat, p: Pos, x: nat): Option<Mapping> {
    if y.Some? && y.value.level == p.level && Under(w, p, x) then None else y
  }

  /** Making room on the path of lo first does not change what a chunk means. */
  lemma DisplacedMaps(m: Memory, m1: Memory, m2: Memory, root: nat, p: Pos, x: nat, lo: nat, hi: nat, frame: nat, attributes: nat)
    requires 1 <= p.level <= 4 && Under(lo, p, x) && lo < hi
    requires Displaces(m, m1, root, p, x) && Maps(m1, m2, root, lo, hi, frame, attributes)
    ensures Maps(m, m2, root, lo, hi, frame, attributes)
  {
    forall w: nat | Page(w)
      ensures Mapped(Translate(m, root, w), Translate(m2, root, w), w, lo, hi, frame, attributes)
    {
      assert Mapped(Translate(m1, root, w), Translate(m2, root, w), w, lo, hi, frame, attributes);
      LevelsSeen(m, root, w);
      if p.level <= 3 {
        SamePrefix(p.level, w, lo);
      }
    }
  }

  /** A table entry leads to leaves of lower levels only. */
  lemma TableDisplacesNothing(t: Tables, p: Pos, x: nat)
    requires Shape(t) && p in t.node && x < 512 && 2 <= p.level && IsTable(Read(t.mem, t.node[p], x))
    ensures Displaces(t.mem, t.mem, t.root, p, x)
  {
    assert NodeOk(t, p);
    forall w: nat | Page(w)
      ensures Translate(t.mem, t.root, w) == Displaced(Translate(t.mem, t.root, w), w, p, x)
    {
      if Under(w, p, x) {
        TableLeadsLower(t, p, x, w);
      }
    }
  }

  lemma TableLeadsLower(t: Tables, p: Pos, x: nat, w: nat)
    requires Shape(t) && p in t.node && x < 512 && 2 <= p.level <= 4 && IsTable(Read(t.mem, t.node[p], x))
    requires Page(w) && Under(w, p, x)
    ensures var y := Translate(t.mem, t.root, w); y.Some? ==> y.value.level != p.level
  {
    WalkSeesTree(t, w);
    assert p == Pos(p.level, Prefix(w, p.level)) && EntryAt(t, w, p.level) == Read(t.mem, t.node[p], x);
    if p.level == 2 {
      PathStep(t, w, 3);
    }
  }

  /** A new table displaces the leaf in whose place it comes, if there was one. */
  lemma LinkDisplaces(t: Tables, p: Pos, x: nat, f: nat, attributes: nat)
    requires Shape(t) && p in t.node && 2 <= p.level <= 4 && x < 512 && f !in t.mem && attributes % 2 == 1
    requires t.node[p] in t.mem && |t.mem[t.node[p]]| == 512
    requires !IsTable(Read(t.mem, t.node[p], x))
    ensures Displaces(t.mem, Linked(t, p, x, f, attributes).mem, t.root, p, x)
  {
    var t' := Linked(t, p, x, f, attributes);
    LinkTable(t, p, x, f, attributes);
    assert NodeOk(t, p);
    forall w: nat | Page(w)
      ensures Translate(t'.mem, t.root, w) == Displaced(Translate(t.mem, t.root, w), w, p, x)
    {
      if Under(w, p, x) {
        if p.level == 4 {
          WalkSeesTree(t, w);
          PathStep(t, w, 4);
          PathStep(t, w, 3);
          PathStep(t, w, 2);
          assert EntryAt(t, w, 4) == Read(t.mem, t.node[p], x);
        } else {
          assert p == Pos(p.level, Prefix(w, p.level));
          SeesLeaf(t, w, p.level);
        }
      }
    }
  }

  lemma LinkReshapes(s: Snapshot, p: Pos, x: nat, f: nat, attributes: nat, cur: nat, s': Snapshot)
    requires Shape(s.t) && p in s.t.node && 2 <= p.level <= 4 && x < 512
    requires s.t.node[p] in s.t.mem && |s.t.mem[s.t.node[p]]| == 512 && Down(p, x) !in s.t.node && s.hint <= s'.hint
    requires f in Supply(s) && f !in s.t.mem && s'.t == Linked(s.t, p, x, f, attributes)
    requires s'.free == s.free - {f} && Above(s'.free, s'.hint) == Above(s.free, s.hint) - {f}
    requires Under(cur, p, x)
    ensures Reshapes(s, s', cur, cur + 1)
  {
    PrefixRegion(cur, Down(p, x));
    forall g ensures FrameFate(s, s', g) {
      assert g in Above(s.free, s.hint) && g != f ==> g in Above(s'.free, s'.hint);
    }
    forall q ensures KeepsLink(s.t, s'.t, q) { LinkKeepsLink(s.t, p, x, f, attributes, q); }
  }

  /** The walk can go on from entry x of the table at p. */
  ghost predicate Entered(t: Tables, p: Pos, x: nat) {
    && p.level > 0 && p in t.node && t.node[p] in t.mem && x < |t.mem[t.node[p]]|
    && Down(p, x) in t.node && t.node[Down(p, x)] == t.mem[t.node[p]][x].frame
  }

  /** All there is to say about T[x] = alloc_pages(1). */
  lemma LinkStep(s: Snapshot, p: Pos, x: nat, f: nat, attributes: nat, cur: nat, s': Snapshot)
    requires Shape(s.t) && p in s.t.node && 2 <= p.level <= 4 && x < 512
    requires !IsTable(Read(s.t.mem, s.t.node[p], x)) && attributes % 2 == 1
    requires s.t.node[p] in s.t.mem && |s.t.mem[s.t.node[p]]| == 512
    requires f in s.free && s.hint <= f && f !in s.t.mem && s'.t == Linked(s.t, p, x, f, attributes)
    requires s'.free == s.free - {f} && Above(s'.free, s'.hint) == Above(s.free, s.hint) - {f} && s.hint <= s'.hint
    requires Under(cur, p, x)
    ensures LinkBits(s'.t, Down(p, x)) == attributes
    ensures Shape(s'.t) && Reshapes(s, s', cur, cur + 1) && Displaces(s.t.mem, s'.t.mem, s.t.root, p, x)
    ensures s'.t.mem.Keys == s.t.mem.Keys + {f} && |s'.t.mem.Keys| == |s.t.mem.Keys| + 1
    ensures Entered(s'.t, p, x) && s'.t.node[p] == s.t.node[p]
  {
    var q := Down(p, x);
    assert NodeOk(s.t, p) && LinkOk(s.t, q) && Up(q) == p && q.n % 512 == x;
    assert s'.t.mem.Keys == s.t.mem.Keys + {f};
    LinkTable(s.t, p, x, f, attributes);
    LinkDisplaces(s.t, p, x, f, attributes);
    LinkKeepsLink(s.t, p, x, f, attributes, q);
    LinkReshapes(s, p, x, f, attributes, cur, s');
  }

  /** The first page translated through entry x of the table at p. */
  function FirstOf(p: Pos, x: nat): nat {
    if p.level <= 1 then p.n * 512 + x else if p.level == 2 then (p.n * 512 + x) * 512 else (p.n * 512 + x) * 262144
  }

  lemma UnderSpan(w: nat, p: Pos, x: nat)
    requires 1 <= p.level <= 3
    ensures Under(w, p, x) <==> FirstOf(p, x) <= w < FirstOf(p, x) + Span(p.level)
    ensures Under(w, p, x) ==> w % Span(p.level) == w - FirstOf(p, x)
  {
    var r := p.n * 512 + x;
    if p.level == 2 {
      if 512 * r <= w < 512 * r + 512 { InBlock512(w, r); }
    } else if p.level == 3 {
      BlocksNest(w);
      if 262144 * r <= w < 262144 * r + 262144 { InBlock262144(w, r); }
    }
  }

  /** The pages [lo, hi) are now translated by one entry of a table of the given level, the others as before. */
  ghost predicate Sets(m: Memory, m': Memory, root: nat, lo: nat, hi: nat, e: Entry, level: nat) {
    forall w: nat {:trigger Page(w)} :: Page(w) ==>
      Translate(m', root, w) ==
        if !(lo <= w < hi) then Translate(m, root, w)
        else if Present(e) then Some(Mapping(e.frame + (w - lo), e.attributes, level)) else None
  }

  lemma OverwrittenSets(t: Tables, p: Pos, x: nat, e: Entry, t': Tables, lo: nat, hi: nat)
    requires 1 <= p.level <= 3 && lo == FirstOf(p, x) && hi == lo + Span(p.level) && t'.root == t.root
    requires Overwritten(t, p, x, e, t')
    ensures Sets(t.mem, t'.mem, t.root, lo, hi, e, p.level)
  {
    forall w: nat | Page(w)
      ensures Translate(t'.mem, t.root, w) ==
        if !(lo <= w < hi) then Translate(t.mem, t.root, w)
        else if Present(e) then Some(Mapping(e.frame + (w - lo), e.attributes, p.level)) else None
    {
      OverwrittenAt(t, p, x, e, t', lo, w);
    }
  }

  lemma OverwrittenAt(t: Tables, p: Pos, x: nat, e: Entry, t': Tables, lo: nat, w: nat)
    requires 1 <= p.level <= 3 && lo == FirstOf(p, x) && t'.root == t.root && Page(w) && Overwritten(t, p, x, e, t')
    ensures Translate(t'.mem, t.root, w) ==
      if !(lo <= w < lo + Span(p.level)) then Translate(t.mem, t.root, w)
      else if Present(e) then Some(Mapping(e.frame + (w - lo), e.attributes, p.level)) else None
  {
    UnderSpan(w, p, x);
  }

  lemma EntryInside(p: Pos, x: nat)
    requires 2 <= p.level <= 3
    ensures Inside(Down(p, x), FirstOf(p, x), FirstOf(p, x) + Span(p.level))
  {
  }

  /** All there is to say about freeing the tables behind T[x] and overwriting it. */
  lemma UnlinkStep(s: Snapshot, p: Pos, x: nat, e: Entry, s': Snapshot, lo: nat, hi: nat)
    requires Shape(s.t) && Slot(s.t, p, x) && p.level >= 2 && LeafOk(e, p.level, s.t.gb)
    requires s.t.mem.Keys <= s.t.owner.Keys && s.t.owner[s.t.node[p]] == p
    requires s'.t == Unlinked(s.t, p, x, e) && s'.free == s.free + GoneFrames(s.t, Down(p, x))
    requires s'.hint <= s.hint && forall f :: f in GoneFrames(s.t, Down(p, x)) ==> s'.hint <= f
    requires lo == FirstOf(p, x) && hi == lo + Span(p.level)
    ensures Shape(s'.t) && Reshapes(s, s', lo, hi) && Sets(s.t.mem, s'.t.mem, s.t.root, lo, hi, e, p.level)
    ensures p in s'.t.node && s'.t.node[p] == s.t.node[p]
    ensures s'.t.mem.Keys == s.t.mem.Keys - GoneFrames(s.t, Down(p, x))
    ensures |s'.t.mem.Keys| == |s.t.mem.Keys| - |GoneFrames(s.t, Down(p, x))|
  {
    var q := Down(p, x);
    UnlinkTable(s.t, p, x, e);
    OverwrittenSets(s.t, p, x, e, s'.t, lo, hi);
    EntryInside(p, x);
    assert NodeOk(s.t, p);
    var gone := GoneFrames(s.t, q);
    assert s'.t.mem.Keys == s.t.mem.Keys - gone;
    forall r ensures Fate(s, s', lo, hi, r) {
      assert NodeOk(s.t, r);
      if r in s.t.node && Gone(q, r) && r != q {
        BelowInside(r, q);
      }
    }
    forall r ensures KeepsLink(s.t, s'.t, r) { UnlinkKeepsLink(s.t, p, x, e, r); }
    EntryIsBlock(p, x);
  }

  lemma EntryIsBlock(p: Pos, x: nat)
    requires 2 <= p.level <= 3
    ensures !NoWholeBlock(FirstOf(p, x), FirstOf(p, x) + Span(p.level))
  {
  }

  lemma BelowInside(r: Pos, q: Pos)
    requires q.level == 2 && r.level == 1 && Up(r) == q
    ensures First(q) <= First(r) && First(r) + Region(r) <= First(q) + Region(q)
  {
  }

  /** Overwriting a leaf, an empty entry or a page-table entry leaves the tables alone. */
  lemma WriteStep(s: Snapshot, p: Pos, x: nat, e: Entry, s': Snapshot, lo: nat, hi: nat)
    requires Shape(s.t) && Slot(s.t, p, x) && LeafOk(e, p.level, s.t.gb)
    requires p.level == 1 || !IsTable(Read(s.t.mem, s.t.node[p], x))
    requires s' == s.(t := s.t.(mem := Put(s.t.mem, s.t.node[p], x, e)))
    requires lo == FirstOf(p, x) && hi == lo + Span(p.level)
    ensures Shape(s'.t) && Reshapes(s, s', lo, hi) && Sets(s.t.mem, s'.t.mem, s.t.root, lo, hi, e, p.level)
    ensures s'.t.mem.Keys == s.t.mem.Keys
  {
    WriteLeaf(s.t, p, x, e, s'.t);
    OverwrittenSets(s.t, p, x, e, s'.t, lo, hi);
    forall q ensures KeepsLink(s.t, s'.t, q) { WriteKeepsLink(s.t, p, x, e, s'.t, q); }
    assert s'.t.mem.Keys == s.t.mem.Keys;
  }

  /** One more leaf at the end of a run. */
  lemma FilledStep(m: Memory, m1: Memory, m2: Memory, root: nat, lo: nat, mid: nat, hi: nat, frame: nat, e: Entry, level: nat)
    requires lo <= mid <= hi && Present(e) && e.frame == frame + (mid - lo)
    requires Filled(m, m1, root, lo, mid, frame, e.attributes, level) && Sets(m1, m2, root, mid, hi, e, level)
    ensures Filled(m, m2, root, lo, hi, frame, e.attributes, level)
  {
    forall w: nat | Page(w)
      ensures Translate(m2, root, w) ==
        if lo <= w < hi then Some(Mapping(frame + (w - lo), e.attributes, level)) else Translate(m, root, w)
    {
    }
  }

  lemma ClearedStep(m: Memory, m1: Memory, m2: Memory, root: nat, lo: nat, mid: nat, hi: nat, level: nat)
    requires lo <= mid <= hi && Cleared(m, m1, root, lo, mid) && Sets(m1, m2, root, mid, hi, ZERO, level)
    ensures Cleared(m, m2, root, lo, hi)
  {
    forall w: nat | Page(w)
      ensures Translate(m2, root, w) == if lo <= w < hi then None else Translate(m, root, w)
    {
    }
  }

  // Where the leaves of one chunk lie.

  lemma MbChunk(v: nat, count: nat, hi: nat)
    requires v % 512 == 0 && 0 < count && v / 512 % 512 + count <= 512 && hi == v + count * 512
    ensures v == (Prefix(v, 2) * 512 + v / 512 % 512) * 512
    ensures hi == (Prefix(v, 2) * 512 + v / 512 % 512 + count) * 512
    ensures v % Span(2) == 0 && hi % Span(2) == 0 && BlockStart(3, v) == BlockStart(3, hi - 1)
  {
    var q := v / 512;
    var r, x := q / 512, q % 512;
    assert v == 512 * q && q == 512 * r + x;
    InBlock512(hi, q + count);
    InBlock262144(v, r);
    InBlock262144(hi - 1, r);
  }

  lemma KbChunk(v: nat, count: nat, hi: nat)
    requires 0 < count && v % 512 + count <= 512 && hi == v + count
    ensures v == Prefix(v, 1) * 512 + v % 512
    ensures hi == Prefix(v, 1) * 512 + v % 512 + count
    ensures BlockStart(2, v) == BlockStart(2, hi - 1)
  {
  }

  lemma GbChunk(v: nat, count: nat, hi: nat)
    requires v % 262144 == 0 && 0 < count && v / 512 / 512 % 512 + count <= 512 && hi == v + count * 262144
    ensures v == (Prefix(v, 3) * 512 + v / 512 / 512 % 512) * 262144
    ensures hi == (Prefix(v, 3) * 512 + v / 512 / 512 % 512 + count) * 262144
    ensures v % Span(3) == 0 && hi % Span(3) == 0
  {
  }
}
