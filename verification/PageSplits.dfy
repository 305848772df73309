// Splitting a huge leaf by mapping its parts again, as destroy_mapping does, and the addresses it uses.
module PageSplits {
  import opened Options
  import opened FrameAllocation
  import opened PageTree
  import opened PageEffects

  /** find_address without the sign extension: the page with these four table indices. */
  function FindAddress(ptIndex: nat, pdIndex: nat, pdptIndex: nat, pml4Index: nat): nat {
    ((pml4Index % 512 * 512 + pdptIndex % 512) * 512 + pdIndex % 512) * 512 + ptIndex % 512
  }

  /** The canonical 64-bit address of a page: bits 63..48 repeat bit 47. */
  function Canonical(w: nat): nat {
    if w >= 0x8_0000_0000 then w * 4096 + 0xffff_0000_0000_0000 else w * 4096
  }

  /** The indices a walk takes from an address. */
  function Index(address: nat, level: nat): nat
    requires 1 <= level <= 4
  {
    (if level == 1 then address / 0x1000 else if level == 2 then address / 0x20_0000
     else if level == 3 then address / 0x4000_0000 else address / 0x80_0000_0000) % 512
  }

  lemma Shifts(a: nat, x: nat)
    requires a == x * 4096
    ensures a / 0x1000 == x && a / 0x20_0000 == x / 512
    ensures a / 0x4000_0000 == x / 512 / 512 && a / 0x80_0000_0000 == x / 512 / 512 / 512
  {
  }

  /** The sign extension does not reach the indices. */
  lemma SignBits(w: nat)
    ensures var x := w + 0xf_fff0_0000_0000;
            x % 512 == w % 512 && x / 512 % 512 == w / 512 % 512 && x / 512 / 512 % 512 == w / 512 / 512 % 512
            && x / 512 / 512 / 512 % 512 == w / 512 / 512 / 512 % 512
  {
    assert (w + 0xf_fff0_0000_0000) / 512 == w / 512 + 0x7ff_f800_0000;
    assert (w / 512 + 0x7ff_f800_0000) / 512 == w / 512 / 512 + 0x3_fffc_0000;
    assert (w / 512 / 512 + 0x3_fffc_0000) / 512 == w / 512 / 512 / 512 + 0x1ff_fe00;
  }

  lemma IndicesOfPage(w: nat, level: nat)
    requires Page(w) && 1 <= level <= 4
    ensures Index(Canonical(w), level) == Prefix(w, level - 1) % 512
  {
    if w >= 0x8_0000_0000 {
      Shifts(Canonical(w), w + 0xf_fff0_0000_0000);
      SignBits(w);
    } else {
      Shifts(Canonical(w), w);
    }
  }

  lemma PageOfIndices(w: nat)
    requires Page(w)
    ensures FindAddress(w % 512, w / 512 % 512, w / 512 / 512 % 512, w / 512 / 512 / 512 % 512) == w
  {
  }

  /** find_address inverts the index extraction, on both halves of the address space. */
  lemma FindAddressInverts(w: nat)
    requires Page(w)
    ensures var a := Canonical(w); FindAddress(Index(a, 1), Index(a, 2), Index(a, 3), Index(a, 4)) == w
  {
    PageOfIndices(w);
    var a := Canonical(w);
    assert Index(a, 1) == w % 512 by { IndicesOfPage(w, 1); }
    assert Index(a, 2) == w / 512 % 512 by { IndicesOfPage(w, 2); }
    assert Index(a, 3) == w / 512 / 512 % 512 by { IndicesOfPage(w, 3); }
    assert Index(a, 4) == w / 512 / 512 / 512 % 512 by { IndicesOfPage(w, 4); }
  }

  lemma BlockAddress3(v: nat)
    requires Page(v)
    ensures FindAddress(0, 0, v / 512 / 512 % 512, v / 512 / 512 / 512 % 512) == BlockStart(3, v)
  {
  }

  lemma BlockAddress2(v: nat)
    requires Page(v)
    ensures FindAddress(0, v / 512 % 512, v / 512 / 512 % 512, v / 512 / 512 / 512 % 512) == BlockStart(2, v)
  {
  }

  /** Same frame and attributes; a leaf may only have become smaller, and only when it holds page v. */
  predicate Refined(x: Option<Mapping>, y: Option<Mapping>, w: nat, v: nat) {
    y == x ||
    (x.Some? && y.Some? && y.value.frame == x.value.frame && y.value.attributes == x.value.attributes
     && y.value.level < x.value.level && BlockStart(x.value.level, w) == BlockStart(x.value.level, v))
  }

  ghost predicate Refines(m: Memory, m': Memory, root: nat, v: nat) {
    forall w: nat {:trigger Page(w)} :: Page(w) ==> Refined(Translate(m, root, w), Translate(m', root, w), w, v)
  }

  const LAST := PAGES - 1

  /** The last page of all. A range that contains it has an end address that wraps, so it is never mapped. */
  ghost predicate KeepsLast(m: Memory, m': Memory, root: nat) {
    Translate(m, root, LAST) == None ==> Translate(m', root, LAST) == None
  }

  lemma MapsKeepLast(m: Memory, m': Memory, root: nat, lo: nat, hi: nat, frame: nat, attributes: nat)
    requires lo <= hi < PAGES && Maps(m, m', root, lo, hi, frame, attributes)
    ensures KeepsLast(m, m', root)
  {
    assert Page(LAST);
  }

  lemma DisplacesKeepLast(m: Memory, m': Memory, root: nat, p: Pos, x: nat)
    requires Displaces(m, m', root, p, x)
    ensures KeepsLast(m, m', root)
  {
    assert Page(LAST);
  }

  lemma UnmapsKeepLast(m: Memory, m': Memory, root: nat, lo: nat, hi: nat)
    requires lo <= hi < PAGES && Unmaps(m, m', root, lo, hi)
    ensures KeepsLast(m, m', root)
  {
    assert Page(LAST);
  }

  ghost predicate AllMapped(m: Memory, root: nat, lo: nat, hi: nat) {
    forall w: nat {:trigger Page(w)} :: Page(w) && lo <= w < hi ==> Translate(m, root, w).Some?
  }

  /** On a fully mapped range destroy_mapping does not end at a hole. */
  lemma NoHoleInMapped(m: Memory, m': Memory, root: nat, lo: nat, hi: nat, stop: nat)
    requires lo <= stop <= hi <= PAGES && Unmaps(m, m', root, lo, stop)
    requires stop < hi ==> Translate(m', root, stop) == None
    ensures AllMapped(m, root, lo, hi) ==> Unmaps(m, m', root, lo, hi)
  {
    if stop < hi { assert Page(stop); }
  }

  /** And such a range does not go on to the end of the address space. */
  lemma LastNotMapped(m: Memory, root: nat, lo: nat, hi: nat)
    requires Translate(m, root, LAST) == None
    ensures AllMapped(m, root, lo, hi) && lo < hi <= PAGES ==> hi <= LAST
  {
    assert Page(LAST);
  }

  /** No leaf reaches both into the range and out of it: seen from outside, and seen from inside. */
  ghost predicate CleanCut(m: Memory, root: nat, lo: nat, hi: nat) {
    forall w: nat {:trigger Page(w)} :: Page(w) ==> lo <= w < hi || !Touches(Translate(m, root, w), w, lo, hi)
  }

  ghost predicate Whole(m: Memory, root: nat, lo: nat, hi: nat) {
    forall w: nat {:trigger Page(w)} :: Page(w) && lo <= w < hi ==>
      var x := Translate(m, root, w); x.Some? ==> Within(x.value, w, lo, hi)
  }

  /** One more round on a range whose leaves lie inside it. */
  lemma WholeStep(m: Memory, m1: Memory, m2: Memory, root: nat, lo: nat, v: nat, hi: nat, end: nat)
    requires lo <= v < hi <= end < PAGES
    requires CleanCut(m, root, lo, v) && Unmaps(m, m1, root, lo, v) && Whole(m1, root, v, end)
    requires CleanCut(m1, root, v, hi) && Unmaps(m1, m2, root, v, hi)
    ensures CleanCut(m, root, lo, hi) && Whole(m2, root, hi, end)
  {
    forall w: nat | Page(w) ensures lo <= w < hi || !Touches(Translate(m, root, w), w, lo, hi) {
      assert Unmapped(Translate(m, root, w), Translate(m1, root, w), w, lo, v);
    }
    forall w: nat | Page(w) && hi <= w < end
      ensures var x := Translate(m2, root, w); x.Some? ==> Within(x.value, w, hi, end)
    {
      assert Unmapped(Translate(m1, root, w), Translate(m2, root, w), w, v, hi);
    }
  }

  /** A range whose leaves lie inside it does not start in the middle of a leaf. */
  lemma SplitNotWhole(m: Memory, root: nat, level: nat, v: nat, hi: nat, frame: nat, attributes: nat)
    requires Page(v) && v < hi && LeafAt(m, root, v, level, frame, attributes)
    requires BlockStart(level, v) < v || hi < BlockStart(level, v) + Span(level)
    ensures !Whole(m, root, v, hi)
  {
    assert Translate(m, root, v).value.level == level;
  }

  /** Clearing whole entries of one table. */
  lemma ClearedUnmaps(m: Memory, m': Memory, root: nat, lo: nat, hi: nat, level: nat)
    requires 1 <= level <= 3 && lo < hi < PAGES
    requires NoLeafAbove(m, root, lo, level) && Cleared(m, m', root, lo, hi)
    requires lo % Span(level) == 0 && hi % Span(level) == 0
    requires level < 3 ==> BlockStart(level + 1, lo) == BlockStart(level + 1, hi - 1)
    ensures CleanCut(m, root, lo, hi) && Unmaps(m, m', root, lo, hi)
  {
    forall w: nat | Page(w) ensures lo <= w < hi || !Touches(Translate(m, root, w), w, lo, hi) {
      var x := Translate(m, root, w);
      if x.Some? && !(lo <= w < hi) {
        if x.value.level <= level {
          LowBlocks(x.value.level, level, w, lo, hi);
        } else {
          HighBlocks(x.value.level, level, w, lo, hi);
        }
      }
    }
    forall w: nat | Page(w) ensures Unmapped(Translate(m, root, w), Translate(m', root, w), w, lo, hi) { }
  }

  /** Splitting the leaf at v first does not change what unmapping [v, hi) means. */
  lemma SplitUnmaps(m: Memory, m1: Memory, m2: Memory, root: nat, v: nat, hi: nat)
    requires Page(v) && v < hi && Refines(m, m1, root, v) && Unmaps(m1, m2, root, v, hi)
    ensures Unmaps(m, m2, root, v, hi)
  {
    forall w: nat | Page(w) ensures Unmapped(Translate(m, root, w), Translate(m2, root, w), w, v, hi) {
      assert Refined(Translate(m, root, w), Translate(m1, root, w), w, v);
      assert Unmapped(Translate(m1, root, w), Translate(m2, root, w), w, v, hi);
      LevelsSeen(m, root, w);
    }
  }

  /** The leaf of this level that translates v, as the code reads it from the table entry. */
  ghost predicate LeafAt(m: Memory, root: nat, v: nat, level: nat, frame: nat, attributes: nat) {
    forall w: nat {:trigger Page(w)} :: Page(w) ==>
      BlockStart(level, w) == BlockStart(level, v) ==>
        Translate(m, root, w) == Some(Mapping(frame + (w - BlockStart(level, v)), attributes, level))
  }

  lemma BlockShape(level: nat, v: nat, w: nat)
    requires 2 <= level <= 3
    ensures var h := BlockStart(level, v);
            && h % Span(level) == 0 && h <= v < h + Span(level)
            && (h <= w < h + Span(level) <==> BlockStart(level, w) == h)
  {
    if level == 2 { Shape512(v, w); } else { Shape262144(v, w); }
  }

  lemma Shape512(v: nat, w: nat)
    ensures var h := v - v % 512; h % 512 == 0 && h <= v < h + 512 && (h <= w < h + 512 <==> w - w % 512 == h)
  {
    var q, r := v / 512, w / 512;
    InBlock512(v, q);
    InBlock512(w, r);
    InBlock512(512 * q, q);
  }

  lemma Shape262144(v: nat, w: nat)
    ensures var h := v - v % 262144;
            h % 262144 == 0 && h <= v < h + 262144 && (h <= w < h + 262144 <==> w - w % 262144 == h)
  {
    var q, r := v / 262144, w / 262144;
    InBlock262144(v, q);
    InBlock262144(w, r);
    InBlock262144(262144 * q, q);
  }

  /** A leaf that does not translate the last page ends before it. */
  lemma LeafBeforeLast(m: Memory, root: nat, level: nat, v: nat, frame: nat, attributes: nat)
    requires 2 <= level <= 3 && Page(v) && LeafAt(m, root, v, level, frame, attributes) && Translate(m, root, LAST) == None
    ensures BlockStart(level, v) + Span(level) < PAGES
  {
    assert Page(LAST);
    BlockEnd(level, v);
    BlockShape(level, v, LAST);
  }

  lemma BlockEnd(level: nat, v: nat)
    requires 2 <= level <= 3 && Page(v)
    ensures BlockStart(level, v) + Span(level) <= PAGES
  {
  }

  lemma BlockInOneHalf(level: nat, v: nat)
    requires 2 <= level <= 3
    ensures BlockStart(level, v) + Span(level) <= HALF || HALF <= BlockStart(level, v)
  {
    if level == 2 { assert HALF == 512 * 0x400_0000; } else { assert HALF == 262144 * 0x2_0000; }
    BlockShape(level, v, HALF);
  }

  lemma BlockInBlock(v: nat)
    ensures var h := BlockStart(2, v); BlockStart(3, h) == BlockStart(3, v) && BlockStart(3, h + 511) == BlockStart(3, v)
  {
    var q, r := v / 512, v / 262144;
    BlocksNest(v);
    InBlock512(v, q);
    assert 512 * r <= q < 512 * r + 512;
    InBlock262144(v, r);
    InBlock262144(512 * q, r);
    InBlock262144(512 * q + 511, r);
  }

  lemma BlocksApart(xl: nat, level: nat, v: nat, w: nat)
    requires 2 <= level <= 3 && 1 <= xl <= 3 && BlockStart(level, w) != BlockStart(level, v)
    requires xl > level ==> BlockStart(xl, w) != BlockStart(xl, v)
    ensures BlockStart(xl, w) >= BlockStart(level, v) + Span(level) || BlockStart(level, v) >= BlockStart(xl, w) + Span(xl)
  {
    var h := BlockStart(level, v);
    BlockShape(level, v, w);
    if xl <= level {
      LowBlocks(xl, level, w, h, h + Span(level));
    } else {
      BlockInBlock(v);
      HighBlocks(xl, level, w, h, h + Span(level));
    }
  }

  /** A leaf that holds no page of the block of v does not reach into that block. */
  lemma OtherBlocks(m: Memory, root: nat, level: nat, v: nat, w: nat)
    requires 2 <= level <= 3 && Page(v) && Page(w) && NoLeafAbove(m, root, v, level)
    requires BlockStart(level, w) != BlockStart(level, v)
    ensures var x, h := Translate(m, root, w), BlockStart(level, v);
            x.Some? ==> BlockStart(x.value.level, w) >= h + Span(level) || h >= BlockStart(x.value.level, w) + Span(x.value.level)
  {
    var x := Translate(m, root, w);
    if x.Some? {
      BlocksApart(x.value.level, level, v, w);
    }
  }

  /** Mapping the three parts of a leaf again, [h, v), [v, c) and [c, e), page by page. */
  lemma SplitInside(x: Option<Mapping>, y: Option<Mapping>, z: Option<Mapping>, r: Option<Mapping>,
                    w: nat, level: nat, h: nat, v: nat, c: nat, e: nat, frame: nat, attributes: nat)
    requires 2 <= level <= 3 && h <= w < e && h <= v < c <= e == h + Span(level) && (h < v || c < e)
    requires x == Some(Mapping(frame + (w - h), attributes, level)) && BlockStart(level, w) == h
    requires Mapped(x, y, w, h, v, frame, attributes) && Mapped(y, z, w, v, c, frame + (v - h), attributes)
    requires Mapped(z, r, w, c, e, frame + (c - h), attributes)
    ensures r.Some? && r.value.frame == x.value.frame && r.value.attributes == attributes && r.value.level < level
  {
  }

  lemma SplitOutside(x: Option<Mapping>, y: Option<Mapping>, z: Option<Mapping>, r: Option<Mapping>,
                     w: nat, h: nat, v: nat, c: nat, e: nat, frame: nat, attributes: nat)
    requires !(h <= w < e) && h <= v < c <= e
    requires x.Some? ==> BlockStart(x.value.level, w) >= e || h >= BlockStart(x.value.level, w) + Span(x.value.level)
    requires Mapped(x, y, w, h, v, frame, attributes) && Mapped(y, z, w, v, c, frame + (v - h), attributes)
    requires Mapped(z, r, w, c, e, frame + (c - h), attributes)
    ensures r == x
  {
  }

  /** Mapping the parts of a leaf again. */
  lemma SplitParts(m: Memory, m1: Memory, m2: Memory, m3: Memory, root: nat, level: nat, v: nat, c: nat, h: nat, e: nat, frame: nat, attributes: nat)
    requires 2 <= level <= 3 && Page(v) && NoLeafAbove(m, root, v, level) && LeafAt(m, root, v, level, frame, attributes)
    requires h == BlockStart(level, v) && e == h + Span(level) && v < c <= e && (h < v || c < e)
    requires Maps(m, m1, root, h, v, frame, attributes)
    requires Maps(m1, m2, root, v, c, frame + (v - h), attributes)
    requires Maps(m2, m3, root, c, e, frame + (c - h), attributes)
    ensures Refines(m, m3, root, v) && SmallerLeaf(Translate(m3, root, v), level)
  {
    forall w: nat | Page(w)
      ensures Refined(Translate(m, root, w), Translate(m3, root, w), w, v)
      ensures w == v ==> SmallerLeaf(Translate(m3, root, w), level)
    {
      var x, y, z, r := Translate(m, root, w), Translate(m1, root, w), Translate(m2, root, w), Translate(m3, root, w);
      BlockShape(level, v, w);
      if h <= w < e {
        SplitInside(x, y, z, r, w, level, h, v, c, e, frame, attributes);
      } else {
        OtherBlocks(m, root, level, v, w);
        SplitOutside(x, y, z, r, w, h, v, c, e, frame, attributes);
      }
    }
  }

  predicate SmallerLeaf(y: Option<Mapping>, level: nat) { y.Some? && y.value.level < level }

  /** A huge entry on the path of v is a leaf for its whole block. */
  lemma HugeEntry(t: Tables, level: nat, v: nat)
    requires Shape(t) && Page(v) && 2 <= level <= 3 && EntryAt(t, v, level).huge
    ensures var e := EntryAt(t, v, level);
            Present(e) && LeafAt(t.mem, t.root, v, level, e.frame, e.attributes) && NoLeafAbove(t.mem, t.root, v, level)
            && Aligned(e.frame, level) && (level == 3 ==> t.gb)
  {
    var e := EntryAt(t, v, level);
    assert EntryOk(t, Pos(level, Prefix(v, level)), Prefix(v, level - 1) % 512);
    PathStep(t, v, level);
    TableExcludesLeaf(t, level, v);
    forall w: nat | Page(w) && BlockStart(level, w) == BlockStart(level, v)
      ensures Translate(t.mem, t.root, w) == Some(Mapping(e.frame + (w - BlockStart(level, v)), e.attributes, level))
    {
      SameTable(level, w, v);
      SeesLeaf(t, w, level);
    }
  }

  lemma SameTable(level: nat, w: nat, v: nat)
    requires 2 <= level <= 3 && BlockStart(level, w) == BlockStart(level, v)
    ensures Prefix(w, level - 1) == Prefix(v, level - 1) && Prefix(w, level) == Prefix(v, level)
    ensures w % Span(level) == w - BlockStart(level, v)
  {
    SamePrefix(level, w, v);
  }

  /** The table at q, if its level is at least this one, is where it was. */
  ghost predicate Kept(t: Tables, t': Tables, level: nat, q: Pos) {
    q in t.node && q.level >= level ==> q in t'.node && t'.node[q] == t.node[q]
  }

  ghost predicate KeepsTables(t: Tables, t': Tables, level: nat) {
    forall q {:trigger Kept(t, t', level, q)} :: Kept(t, t', level, q)
  }

  /** Work on a range no larger than a leaf leaves the tables above the leaf in place. */
  lemma ReshapesKeeps(s: Snapshot, s': Snapshot, level: nat, lo: nat, hi: nat)
    requires 2 <= level <= 3 && Reshapes(s, s', lo, hi) && hi <= lo + Span(level)
    ensures KeepsTables(s.t, s'.t, level)
  {
    forall q ensures Kept(s.t, s'.t, level, q) {
      assert Fate(s, s', lo, hi, q);
    }
  }

  lemma KeepsAppend(t: Tables, t1: Tables, t2: Tables, level: nat)
    requires KeepsTables(t, t1, level) && KeepsTables(t1, t2, level)
    ensures KeepsTables(t, t2, level)
  {
    forall q ensures Kept(t, t2, level, q) {
      assert Kept(t, t1, level, q) && Kept(t1, t2, level, q);
    }
  }

  /** Below the level of its leaf, the path of v consists of tables. */
  lemma PathOfLeaf(t: Tables, v: nat, level: nat)
    requires Shape(t) && Page(v) && 2 <= level <= 3 && SmallerLeaf(Translate(t.mem, t.root, v), level)
    ensures IsTable(EntryAt(t, v, level)) && Entered(t, Pos(level, Prefix(v, level)), Prefix(v, level - 1) % 512)
  {
    WalkSeesTree(t, v);
    PathStep(t, v, 4);
    PathStep(t, v, 3);
    PathStep(t, v, 2);
    LastStep(t, v);
    assert NodeOk(t, Pos(3, Prefix(v, 3))) && NodeOk(t, Pos(2, Prefix(v, 2)));
  }

  /** An empty entry on the path means that nothing is translated. */
  lemma EmptyPath(t: Tables, v: nat, level: nat)
    requires Shape(t) && Page(v) && 2 <= level <= 4 && EntryAt(t, v, level) == ZERO && Pos(level, Prefix(v, level)) in t.node
    ensures Translate(t.mem, t.root, v) == None
  {
    WalkSeesTree(t, v);
    if level == 2 { AboveTable(t, v, 2); }
    PathStep(t, v, 4);
    PathStep(t, v, 3);
    PathStep(t, v, 2);
    LastStep(t, v);
  }
}
