// valloc.c: backing a virtual range with whatever free frames the bitmap has, and giving them back.
module Vmalloc {
  import opened Options
  import opened FrameAllocation
  import opened PageTree
  import opened PageEffects
  import opened PageSplits
  import opened PageSupply
  import opened PageNeeds
  import opened PageRights
  import opened Paging

  /** Page w of a range that is backed by the frames F. */
  predicate Backed(x: Option<Mapping>, y: Option<Mapping>, w: nat, lo: nat, hi: nat, F: map<nat, nat>, attributes: nat) {
    if lo <= w < hi then
      w in F && y.Some? && y.value.frame == F[w] && y.value.attributes == attributes && Within(y.value, w, lo, hi)
    else
      y == if Touches(x, w, lo, hi) then None else x
  }

  ghost predicate Backs(m: Memory, m': Memory, root: nat, lo: nat, hi: nat, F: map<nat, nat>, attributes: nat) {
    forall w: nat {:trigger Page(w)} :: Page(w) ==>
      Backed(Translate(m, root, w), Translate(m', root, w), w, lo, hi, F, attributes)
  }

  /** Page lo + i on frame + i, for i < n. */
  function Consecutive(lo: nat, n: nat, frame: nat): map<nat, nat> {
    map w | w in Interval(lo, n) :: frame + (w - lo)
  }

  lemma BacksAppend(m: Memory, m1: Memory, m2: Memory, root: nat, lo: nat, mid: nat, count: nat,
                    F: map<nat, nat>, frame: nat, attributes: nat)
    requires lo <= mid && Backs(m, m1, root, lo, mid, F, attributes) && Maps(m1, m2, root, mid, mid + count, frame, attributes)
    ensures Backs(m, m2, root, lo, mid + count, F + Consecutive(mid, count, frame), attributes)
  {
    var G := F + Consecutive(mid, count, frame);
    forall w: nat | Page(w)
      ensures Backed(Translate(m, root, w), Translate(m2, root, w), w, lo, mid + count, G, attributes)
    {
      var x, y, z := Translate(m, root, w), Translate(m1, root, w), Translate(m2, root, w);
      assert Backed(x, y, w, lo, mid, F, attributes);
      assert Mapped(y, z, w, mid, mid + count, frame, attributes);
    }
  }

  /** The data frames chosen so far: one for each page of [lo, v), pairwise distinct, below tar, neither free nor a
      table; and together with them every frame of the pool is still accounted for. */
  ghost predicate Chosen(s: Snapshot, s': Snapshot, lo: nat, v: nat, F: map<nat, nat>, tar: nat) {
    && (forall w: nat {:trigger w in F} :: w in F <==> lo <= w < v)
    && (forall w, u {:trigger F[w], F[u]} :: w in F && u in F && w < u ==> F[w] < F[u])
    && (forall w {:trigger F[w]} :: w in F ==> F[w] < tar && F[w] !in s'.free && F[w] !in s'.t.mem && (F[w] in s.free || F[w] in s.t.mem))
    && (forall f: nat {:trigger Owned(s, f)} :: Owned(s, f) <==> Owned(s', f) || f in F.Values)
  }

  ghost predicate Owned(s: Snapshot, f: nat) { f in s.free || f in s.t.mem }

  /** No table frame is free. */
  ghost predicate Separate(s: Snapshot) {
    forall f :: f in s.free ==> f !in s.t.mem
  }

  lemma ValidSeparates(a: AddressSpace)
    requires a.Valid()
    ensures Separate(a.State())
  {
    a.AllMarked();
  }

  /** Enough frames can still be found from c on: left data frames and the missing tables of [v, end). */
  ghost predicate Enough(s: Snapshot, c: nat, left: nat, v: nat, end: nat) {
    && |Above(s.free, c)| >= left + |Missing(s.t, v, end)|
    && forall f :: f in Above(s.free, c) ==> s.hint <= f
  }

  /** The same, if it was so at the start. */
  ghost predicate Ample(rich: bool, s: Snapshot, c: nat, left: nat, v: nat, end: nat) {
    rich ==> Enough(s, c, left, v, end)
  }

  /** Where the part of a range ends that create_mapping maps for vmalloc: a last run that ends with the address space is not
      mapped at all, so at least the last page is not. */
  function MapEnd(end: nat): nat { if end == PAGES then LAST else end }

  /** No table has been given up and no frame below the first one searched has been taken, if no table can lie in the range. */
  ghost predicate Grown(s: Snapshot, now: Snapshot, lo: nat, end: nat) {
    NoWholeBlock(lo, end) ==>
      && (forall q {:trigger q in s.t.node} :: q in s.t.node ==> q in now.t.node && now.t.node[q] == s.t.node[q])
      && s.hint <= now.hint && forall f: nat {:trigger f in now.free} :: f in s.free && f !in now.free ==> s.hint <= f
  }

  lemma GrownRun(s: Snapshot, s1: Snapshot, s2: Snapshot, lo: nat, v: nat, end: nat, tar: nat, count: nat)
    requires Grown(s, s1, lo, end) && lo <= v && v + count <= end && s.hint <= tar
    requires Reshapes(s1.(free := s1.free - Interval(tar, count)), s2, v, v + count)
    ensures Grown(s, s2, lo, end)
  {
    if NoWholeBlock(lo, end) {
      NoBlockInPart(lo, end, v, v + count);
      var t1 := s1.(free := s1.free - Interval(tar, count));
      forall q | q in s.t.node ensures q in s2.t.node && s2.t.node[q] == s.t.node[q] {
        assert Fate(t1, s2, v, v + count, q);
        NotInsidePart(v, v + count, q);
      }
      forall f: nat | f in s.free && f !in s2.free ensures s.hint <= f {
        assert f in s1.free && f !in t1.free ==> tar <= f;
      }
    }
  }

  lemma NotInsidePart(lo: nat, hi: nat, q: Pos)
    requires NoWholeBlock(lo, hi)
    ensures !Inside(q, lo, hi)
  {
    NoBlockInside(lo, hi, if q.level <= 1 then q.n else if q.level == 2 then 512 * q.n else 262144 * q.n);
  }

  /** EFI_MEMORY_DESCRIPTOR as vmalloc fills it: attribute 0 success, 1 not enough memory, 2 no pages. */
  datatype Descriptor = Descriptor(physical: nat, virtual: nat, pages: nat, attribute: nat)

  /** fill_bitmap(count_tar, match_count). */
  method FillRun(a: AddressSpace, tar: nat, count: nat)
    requires a.Valid() && tar + count <= 8 * a.frames.bitmapSize
    modifies a.frames`free, a.frames.bitmap
    ensures a.Valid() && a.State() == old(a.State()).(free := old(a.frames.free) - Interval(tar, count))
  {
    a.AllMarked();
    a.frames.MarkUsed(tar, count);
    forall f: nat ensures a.Marked(f) { assert old(a.Marked(f)); }
  }

  /** fill_bitmap(count_tar, match_count) and create_mapping(count_virt, count_tar, match_count). */
  method MapRun(a: AddressSpace, v: nat, tar: nat, count: nat, attributes: nat, ghost c: nat, ghost left: nat, ghost end: nat,
                ghost rich: bool)
    returns (ok: bool)
    requires a.Valid() && v + count <= end && v + count < PAGES && attributes % 2 == 1 && c == tar + count <= 8 * a.frames.bitmapSize
    requires InOneHalf(v, count)
    requires Ample(rich, a.State(), c, left, v, end)
    modifies a`mem, a`allocatedPages, a`node, a`owner, a.frames`formerCount, a.frames`free, a.frames.bitmap
    ensures a.Valid() && (rich ==> ok)
    ensures ok ==> Maps(old(a.mem), a.mem, a.pml4, v, v + count, tar, attributes)
    ensures ok ==> Ample(rich, a.State(), c, left, v + count, end)
    ensures ok ==> Reshapes(old(a.State()).(free := old(a.State()).free - Interval(tar, count)), a.State(), v, v + count)
  {
    ghost var s := a.State();
    FillRun(a, tar, count);
    ghost var s1 := a.State();
    ValidSeparates(a);
    assert Above(s1.free, c) == Above(s.free, c);
    if rich { RunStarts(s1, c, left, v, v + count, end, tar); }
    ok := a.CreateMapping(v, tar, count, attributes);
    if rich { ValidSeparates(a); RunEnds(s1, a.State(), c, left, v, v + count, end); }
  }

  lemma RunStarts(s: Snapshot, c: nat, left: nat, v: nat, mid: nat, end: nat, ph: nat)
    requires Enough(s, c, left, v, end) && v <= mid <= end
    ensures |Supply(s)| >= |Needed(s.t, v, mid, ph)|
  {
    SubsetCard(Needed(s.t, v, mid, ph), Missing(s.t, v, mid));
    SubsetCard(Above(s.free, c), Supply(s));
    forall q | q in Missing(s.t, v, mid) ensures q in Missing(s.t, v, end) {
      InMissing(s.t, v, mid, q);
      InMissing(s.t, v, end, q);
    }
    SubsetCard(Missing(s.t, v, mid), Missing(s.t, v, end));
  }

  /** The tables a run makes are no longer missing, and none it gives up is missing further on. */
  lemma RunEnds(s: Snapshot, s': Snapshot, c: nat, left: nat, v: nat, mid: nat, end: nat)
    requires Shape(s.t) && Shape(s'.t) && Reshapes(s, s', v, mid) && v <= mid <= end
    requires Enough(s, c, left, v, end)
    requires (forall f :: f in s.free ==> f !in s.t.mem) && forall f :: f in s'.free ==> f !in s'.t.mem
    ensures Enough(s', c, left, mid, end)
  {
    SupplyAfter(s, s', v, mid, c);
    var made, rest := Made(s.t, s'.t), Missing(s'.t, mid, end);
    forall q | q in made + rest ensures q in Missing(s.t, v, end) && !(q in made && q in rest) {
      assert Fate(s, s', v, mid, q) && NodeOk(s'.t, q);
      InMissing(s.t, v, end, q);
      InMissing(s'.t, mid, end, q);
    }
    assert made !! rest;
    SubsetCard(made + rest, Missing(s.t, v, end));
  }

  lemma ChosenRun(s: Snapshot, s1: Snapshot, s2: Snapshot, lo: nat, v: nat, F: map<nat, nat>, tar: nat, count: nat, w: nat)
    requires lo <= v && Chosen(s, s1, lo, v, F, tar) && Run(s1.free, tar, count)
    requires Separate(s1) && Separate(s2)
    requires Conserves(s1.(free := s1.free - Interval(tar, count)), s2)
    requires lo <= w < v + count
    ensures var f := (F + Consecutive(v, count, tar))[w];
            f < tar + count && f !in s2.free && f !in s2.t.mem && (f in s.free || f in s.t.mem) && (f < tar <==> w < v)
  {
    var f := (F + Consecutive(v, count, tar))[w];
    assert FrameFate(s1.(free := s1.free - Interval(tar, count)), s2, f);
    if w >= v {
      assert Owned(s1, f);
      assert Owned(s, f);
    }
  }

  lemma ChosenOwned(s: Snapshot, s1: Snapshot, s2: Snapshot, lo: nat, v: nat, F: map<nat, nat>, tar: nat, count: nat, f: nat)
    requires lo <= v && Chosen(s, s1, lo, v, F, tar) && Run(s1.free, tar, count)
    requires Conserves(s1.(free := s1.free - Interval(tar, count)), s2)
    requires Separate(s1)
    ensures Owned(s, f) <==> Owned(s2, f) || f in (F + Consecutive(v, count, tar)).Values
  {
    var C := Consecutive(v, count, tar);
    var G := F + C;
    assert FrameFate(s1.(free := s1.free - Interval(tar, count)), s2, f);
    assert Owned(s, f) <==> Owned(s1, f) || f in F.Values;
    if f in G.Values {
      var w :| w in G && G[w] == f;
      if w in C { assert f in s1.free; } else { assert F[w] in F.Values; }
    }
    if f in F.Values {
      var w :| w in F && F[w] == f;
      assert G[w] == f;
    }
    if tar <= f < tar + count {
      assert v + (f - tar) in C;
      assert G[v + (f - tar)] == f;
    }
  }

  lemma ChosenAppend(s: Snapshot, s1: Snapshot, s2: Snapshot, lo: nat, v: nat, F: map<nat, nat>, tar: nat, count: nat)
    requires lo <= v && Chosen(s, s1, lo, v, F, tar) && Run(s1.free, tar, count)
    requires Separate(s1) && Separate(s2)
    requires Conserves(s1.(free := s1.free - Interval(tar, count)), s2)
    ensures Chosen(s, s2, lo, v + count, F + Consecutive(v, count, tar), tar + count)
  {
    var G := F + Consecutive(v, count, tar);
    forall w: nat ensures w in G <==> lo <= w < v + count { assert w in F <==> lo <= w < v; }
    forall w | w in G
      ensures G[w] < tar + count && G[w] !in s2.free && G[w] !in s2.t.mem && (G[w] in s.free || G[w] in s.t.mem)
      ensures G[w] < tar <==> w < v
    {
      ChosenRun(s, s1, s2, lo, v, F, tar, count, w);
    }
    forall f: nat ensures Owned(s, f) <==> Owned(s2, f) || f in G.Values {
      ChosenOwned(s, s1, s2, lo, v, F, tar, count, f);
    }
  }

  lemma RunAdds(s: Snapshot, s1: Snapshot, s2: Snapshot, root: nat, lo: nat, v: nat, F: map<nat, nat>, tar: nat, count: nat,
                attributes: nat)
    requires lo <= v && Chosen(s, s1, lo, v, F, tar) && Run(s1.free, tar, count) && Separate(s1) && Separate(s2)
    requires Conserves(s1.(free := s1.free - Interval(tar, count)), s2)
    requires Backs(s.t.mem, s1.t.mem, root, lo, v, F, attributes)
    requires Maps(s1.t.mem, s2.t.mem, root, v, v + count, tar, attributes)
    ensures var G := F + Consecutive(v, count, tar);
            && Backs(s.t.mem, s2.t.mem, root, lo, v + count, G, attributes)
            && Chosen(s, s2, lo, v + count, G, tar + count)
  {
    BacksAppend(s.t.mem, s1.t.mem, s2.t.mem, root, lo, v, count, F, tar, attributes);
    ChosenAppend(s, s1, s2, lo, v, F, tar, count);
  }

  /** A run with what it adds to the choice of frames. */
  method BackRun(a: AddressSpace, ghost s: Snapshot, ghost lo: nat, ghost F: map<nat, nat>,
                 v: nat, tar: nat, count: nat, attributes: nat, ghost c: nat, ghost left: nat, ghost end: nat, ghost rich: bool)
    returns (ok: bool, ghost G: map<nat, nat>)
    requires a.Valid() && lo <= v && v + count <= end && v + count < PAGES && attributes % 2 == 1 && InOneHalf(v, count)
    requires c == tar + count <= 8 * a.frames.bitmapSize
    requires Ample(rich, a.State(), c, left, v, end) && Run(a.frames.free, tar, count)
    requires Backs(s.t.mem, a.mem, a.pml4, lo, v, F, attributes) && Chosen(s, a.State(), lo, v, F, tar)
    requires Grown(s, a.State(), lo, end) && s.hint <= tar
    modifies a`mem, a`allocatedPages, a`node, a`owner, a.frames`formerCount, a.frames`free, a.frames.bitmap
    ensures a.Valid() && (rich ==> ok)
    ensures ok ==> Ample(rich, a.State(), c, left, v + count, end)
    ensures ok ==> Backs(s.t.mem, a.mem, a.pml4, lo, v + count, G, attributes) && Chosen(s, a.State(), lo, v + count, G, c)
    ensures ok ==> Grown(s, a.State(), lo, end)
  {
    ghost var s1 := a.State();
    ValidSeparates(a);
    ok := MapRun(a, v, tar, count, attributes, c, left, end, rich);
    G := F + Consecutive(v, count, tar);
    if ok {
      ValidSeparates(a);
      RunAdds(s, s1, a.State(), a.pml4, lo, v, F, tar, count, attributes);
      GrownRun(s, s1, a.State(), lo, v, end, tar, count);
    }
  }

  /** The state of the scan of vmalloc: [lo, v) is backed, [tar, c) are free frames found for the next pages, and
      left pages are still to be found a frame for. */
  ghost predicate Scanning(now: Snapshot, limit: nat, s: Snapshot, lo: nat, v: nat, tar: nat, count: nat, c: nat, left: nat,
                           end: nat, F: map<nat, nat>, attributes: nat, rich: bool) {
    && lo <= v && v + count + left == end <= PAGES && InOneHalf(lo, end - lo) && attributes % 2 == 1
    && c == tar + count <= limit && Run(now.free, tar, count)
    && Ample(rich, now, c, left, v, MapEnd(end)) && s.hint <= tar && Grown(s, now, lo, MapEnd(end))
    && Backs(s.t.mem, now.t.mem, now.t.root, lo, v, F, attributes) && Chosen(s, now, lo, v, F, tar)
  }

  lemma EnoughFree(s: Snapshot, c: nat, left: nat, v: nat, end: nat)
    requires Enough(s, c, left, v, end) && left > 0 && c in s.free
    ensures Enough(s, c + 1, left - 1, v, end)
  {
    AboveStep(s.free, c);
  }

  /** One more free frame. */
  lemma ScanFree(now: Snapshot, limit: nat, s: Snapshot, lo: nat, v: nat, tar: nat, count: nat, c: nat, left: nat, end: nat,
                 F: map<nat, nat>, attributes: nat, rich: bool)
    requires Scanning(now, limit, s, lo, v, tar, count, c, left, end, F, attributes, rich) && left > 0 && c in now.free && c < limit
    ensures Scanning(now, limit, s, lo, v, tar, count + 1, c + 1, left - 1, end, F, attributes, rich)
  {
    if rich { EnoughFree(now, c, left, v, MapEnd(end)); }
  }

  /** Enough frames are some frame. */
  lemma EnoughIsSome(s: Snapshot, c: nat, left: nat, v: nat, end: nat)
    requires Enough(s, c, left, v, end) && left > 0
    ensures Above(s.free, c) != {}
  {
  }

  /** A used frame ends a run of free frames: the run is mapped, and the scan moves to the next free frame. */
  method EndRun(a: AddressSpace, ghost s: Snapshot, ghost lo: nat, v: nat, tar: nat, count: nat, c: nat, ghost left: nat, ghost end: nat,
                ghost F: map<nat, nat>, attributes: nat, ghost rich: bool)
    returns (ok: bool, ghost G: map<nat, nat>, next: nat)
    requires a.Valid()
    requires Scanning(a.State(), 8 * a.frames.bitmapSize, s, lo, v, tar, count, c, left, end, F, attributes, rich)
    requires left > 0 && c !in a.frames.free
    modifies a`mem, a`allocatedPages, a`node, a`owner, a.frames`formerCount, a.frames`free, a.frames.bitmap
    ensures a.Valid() && (rich ==> ok)
    ensures ok ==> next in a.frames.free
    ensures ok ==>
      Scanning(a.State(), 8 * a.frames.bitmapSize, s, lo, v + count, next, 0, next, left, end, G, attributes, rich)
  {
    next := c;
    ok, G := BackRun(a, s, lo, F, v, tar, count, attributes, c, left, MapEnd(end), rich);
    if ok {
      if rich { EnoughIsSome(a.State(), c, left, v + count, MapEnd(end)); }
      ok, next := a.frames.SkipUsed(c);
    }
  }

  /** One step of the scan loop of vmalloc. Reading a bit behind the bitmap stops the model. */
  method ScanStep(a: AddressSpace, ghost s: Snapshot, ghost lo: nat, v: nat, tar: nat, count: nat, c: nat, left: nat, ghost end: nat,
                  ghost F: map<nat, nat>, attributes: nat, ghost rich: bool)
    returns (ok: bool, ghost G: map<nat, nat>, v': nat, tar': nat, count': nat, c': nat, left': nat)
    requires a.Valid()
    requires Scanning(a.State(), 8 * a.frames.bitmapSize, s, lo, v, tar, count, c, left, end, F, attributes, rich)
    requires left > 0
    modifies a`mem, a`allocatedPages, a`node, a`owner, a.frames`formerCount, a.frames`free, a.frames.bitmap
    ensures a.Valid() && (rich ==> ok)
    ensures ok ==>
      Scanning(a.State(), 8 * a.frames.bitmapSize, s, lo, v', tar', count', c', left', end, G, attributes, rich)
    ensures ok ==> left' < left || (left' == left && old(c !in a.frames.free) && c' in a.frames.free)
  {
    ok, G, v', tar', count', c', left' := true, F, v, tar, count + 1, c + 1, left - 1;
    if c / 8 >= a.frames.bitmapSize {
      if rich { OutOfBitmap(a, c, left, v, MapEnd(end)); }
      ok := false;
      return;
    }
    var used := a.frames.IsUsed(c);
    if !used {
      ScanFree(a.State(), 8 * a.frames.bitmapSize, s, lo, v, tar, count, c, left, end, F, attributes, rich);
      return;
    }
    var next;
    ok, G, next := EndRun(a, s, lo, v, tar, count, c, left, end, F, attributes, rich);
    v', tar', count', c', left' := v + count, next, 0, next, left;
  }

  lemma OutOfBitmap(a: AddressSpace, c: nat, left: nat, v: nat, end: nat)
    requires a.Valid() && left > 0 && c / 8 >= a.frames.bitmapSize
    ensures !Enough(a.State(), c, left, v, end)
  {
    a.frames.NothingPastTheEnd();
    assert Above(a.frames.free, c) == {};
  }

  /** The scan loop of vmalloc. */
  method ScanFrames(a: AddressSpace, virtual: nat, pages: nat, attributes: nat, start: nat, ghost rich: bool)
    returns (ok: bool, ghost F: map<nat, nat>, countVirt: nat, countTar: nat, matchCount: nat, count: nat)
    requires a.Valid() && InOneHalf(virtual, pages) && attributes % 2 == 1 && start <= 8 * a.frames.bitmapSize
    requires Ample(rich, a.State(), start, pages, virtual, MapEnd(virtual + pages)) && start == a.frames.formerCount
    modifies a`mem, a`allocatedPages, a`node, a`owner, a.frames`formerCount, a.frames`free, a.frames.bitmap
    ensures a.Valid() && (rich ==> ok)
    ensures ok ==>
      Scanning(a.State(), 8 * a.frames.bitmapSize, old(a.State()), virtual, countVirt, countTar, matchCount, count, 0, virtual + pages, F,
               attributes, rich)
  {
    ghost var s, end := a.State(), virtual + pages;
    F, ok := map[], true;
    countTar, countVirt, matchCount, count := start, virtual, 0, start;
    var pageCount: nat := pages;
    while pageCount > 0
      invariant a.Valid()
      invariant Scanning(a.State(), 8 * a.frames.bitmapSize, s, virtual, countVirt, countTar, matchCount, count, pageCount, end, F, attributes, rich)
      decreases pageCount, if count in a.frames.free then 0 else 1
    {
      ok, F, countVirt, countTar, matchCount, count, pageCount :=
        ScanStep(a, s, virtual, countVirt, countTar, matchCount, count, pageCount, end, F, attributes, rich);
      if !ok {
        return;
      }
    }
  }

  /** The scan with its last run. */
  method Scan(a: AddressSpace, virtual: nat, pages: nat, attributes: nat, start: nat, ghost rich: bool)
    returns (ok: bool, ghost F: map<nat, nat>, count: nat)
    requires a.Valid() && 0 < pages && InOneHalf(virtual, pages) && attributes % 2 == 1 && start <= 8 * a.frames.bitmapSize
    requires Ample(rich, a.State(), start, pages, virtual, MapEnd(virtual + pages)) && start == a.frames.formerCount
    modifies a`mem, a`allocatedPages, a`node, a`owner, a.frames`formerCount, a.frames`free, a.frames.bitmap
    ensures a.Valid() && (rich ==> ok)
    ensures ok ==> count <= 8 * a.frames.bitmapSize
    ensures ok && virtual + pages < PAGES ==>
      && Backs(old(a.mem), a.mem, a.pml4, virtual, virtual + pages, F, attributes)
      && Chosen(old(a.State()), a.State(), virtual, virtual + pages, F, count)
      && Grown(old(a.State()), a.State(), virtual, virtual + pages)
  {
    ghost var s := a.State();
    var countVirt, countTar, matchCount;
    ok, F, countVirt, countTar, matchCount, count := ScanFrames(a, virtual, pages, attributes, start, rich);
    if !ok {
      return;
    }
    if countVirt + matchCount == PAGES {
      ok := LastRun(a, countVirt, countTar, matchCount, attributes);
    } else {
      ok, F := BackRun(a, s, virtual, F, countVirt, countTar, matchCount, attributes, count, 0, MapEnd(virtual + pages), rich);
    }
  }

  /** A run up to the end of the address space takes its frames, but create_mapping does nothing. */
  method LastRun(a: AddressSpace, v: nat, tar: nat, count: nat, attributes: nat) returns (ok: bool)
    requires a.Valid() && v + count == PAGES && InOneHalf(v, count) && attributes % 2 == 1 && tar + count <= 8 * a.frames.bitmapSize
    modifies a`mem, a`allocatedPages, a`node, a`owner, a.frames`formerCount, a.frames`free, a.frames.bitmap
    ensures a.Valid() && ok
    ensures a.State() == old(a.State()).(free := old(a.frames.free) - Interval(tar, count))
  {
    FillRun(a, tar, count);
    ok := a.CreateMapping(v, tar, count, attributes);
  }

  // ----- how many frames vmalloc uses -----

  /** A page of a range without a whole block is backed through three tables. */
  lemma BackedThroughTables(s: Snapshot, t': Tables, lo: nat, hi: nat, F: map<nat, nat>, attributes: nat, w: nat)
    requires Shape(t') && t'.root == s.t.root && NoWholeBlock(lo, hi) && lo <= w < hi < PAGES
    requires Backs(s.t.mem, t'.mem, s.t.root, lo, hi, F, attributes)
    ensures forall l :: 1 <= l <= 3 ==> Pos(l, Prefix(w, l)) in t'.node
  {
    assert Page(w);
    var y := Translate(t'.mem, s.t.root, w);
    assert Backed(Translate(s.t.mem, s.t.root, w), y, w, lo, hi, F, attributes);
    AccessInTree(t', w);
    if y.value.level >= 2 {
      OnlySmallLeaves(lo, hi, y.value.level, w);
      assert false;
    }
  }

  lemma OnlySmallLeaves(lo: nat, hi: nat, level: nat, w: nat)
    requires NoWholeBlock(lo, hi) && 2 <= level <= 3
    ensures !(lo <= BlockStart(level, w) && BlockStart(level, w) + Span(level) <= hi)
  {
    InBlocks(w);
    NoBlockInside(lo, hi, if level == 2 then w / 512 else 512 * (w / 262144));
  }

  lemma MissingAreMade(s: Snapshot, t': Tables, lo: nat, hi: nat, F: map<nat, nat>, attributes: nat)
    requires Shape(t') && t'.root == s.t.root && NoWholeBlock(lo, hi) && hi < PAGES
    requires Backs(s.t.mem, t'.mem, s.t.root, lo, hi, F, attributes)
    ensures Missing(s.t, lo, hi) <= t'.node.Keys
  {
    forall q | q in Missing(s.t, lo, hi) ensures q in t'.node {
      InMissing(s.t, lo, hi, q);
      var w := if First(q) < lo then lo else First(q);
      BackedThroughTables(s, t', lo, hi, F, attributes, w);
      PrefixRegion(w, q);
      assert q == Pos(q.level, Prefix(w, q.level));
    }
  }

  lemma {:induction false} DistinctValues(n: set<nat>, v: set<nat>, F: map<nat, nat>)
    requires forall w :: w in n ==> w in F && F[w] in v
    requires forall w, u :: w in n && u in n && F[w] == F[u] ==> w == u
    ensures |n| <= |v|
  {
    if n != {} {
      var w :| w in n;
      DistinctValues(n - {w}, v - {F[w]}, F);
    }
  }

  /** Tables that were not given up are in the same frames. */
  lemma TablesStay(s: Snapshot, s': Snapshot, lo: nat, hi: nat)
    requires Shape(s.t) && Shape(s'.t) && NoWholeBlock(lo, hi) && Grown(s, s', lo, hi)
    ensures s.t.mem.Keys <= s'.t.mem.Keys
  {
    forall f | f in s.t.mem ensures f in s'.t.mem {
      assert FrameOk(s.t, f);
      assert s.t.owner[f] in s.t.node;
      assert NodeOk(s'.t, s.t.owner[f]);
    }
  }

  /** The frames of the pages and of the new tables all came from those the search reached at the start. */
  lemma FramesUsed(s: Snapshot, s': Snapshot, lo: nat, hi: nat, F: map<nat, nat>, limit: nat, f: nat)
    requires Separate(s) && Separate(s') && NoWholeBlock(lo, hi) && Grown(s, s', lo, hi) && s.t.mem.Keys <= s'.t.mem.Keys
    requires Chosen(s, s', lo, hi, F, limit) && (f in F.Values || (f in s'.t.mem && f !in s.t.mem))
    ensures f in Supply(s) && !(f in F.Values && f in s'.t.mem)
  {
    if f in F.Values {
      var w :| w in F && F[w] == f;
      assert F[w] !in s'.free;
    } else {
      assert Owned(s', f);
      assert Owned(s, f);
      assert f !in s'.free;
    }
  }

  lemma OnePerPage(s: Snapshot, s': Snapshot, lo: nat, hi: nat, F: map<nat, nat>, limit: nat)
    requires lo <= hi && Chosen(s, s', lo, hi, F, limit)
    ensures hi - lo <= |F.Values|
  {
    var n := Interval(lo, hi - lo);
    forall w | w in n ensures w in F && F[w] in F.Values {}
    DistinctValues(n, F.Values, F);
    IntervalCard(lo, hi - lo);
  }

  /** So a backed range without a whole block took a frame for each page and for each table that was missing. */
  lemma EnoughIsNeeded(s: Snapshot, s': Snapshot, lo: nat, hi: nat, F: map<nat, nat>, attributes: nat, limit: nat)
    requires Shape(s.t) && Shape(s'.t) && Separate(s) && s'.t.root == s.t.root && NoWholeBlock(lo, hi) && lo <= hi < PAGES
    requires Backs(s.t.mem, s'.t.mem, s.t.root, lo, hi, F, attributes) && Chosen(s, s', lo, hi, F, limit) && Grown(s, s', lo, hi)
    requires Separate(s')
    ensures |Supply(s)| >= hi - lo + |Missing(s.t, lo, hi)|
  {
    TablesStay(s, s', lo, hi);
    OnePerPage(s, s', lo, hi, F, limit);
    MissingAreMade(s, s'.t, lo, hi, F, attributes);
    FramesAndNodes(s.t);
    FramesAndNodes(s'.t);
    forall q | q in Missing(s.t, lo, hi) ensures q !in s.t.node { InMissing(s.t, lo, hi, q); }
    forall q | q in s.t.node ensures q in s'.t.node {}
    DisjointCard(s.t.node.Keys, Missing(s.t, lo, hi), s'.t.node.Keys);
    var made := s'.t.mem.Keys - s.t.mem.Keys;
    assert s'.t.mem.Keys == s.t.mem.Keys + made;
    forall f | f in made || f in F.Values ensures f in Supply(s) && !(f in made && f in F.Values) {
      FramesUsed(s, s', lo, hi, F, limit, f);
    }
    DisjointCard(made, F.Values, Supply(s));
  }

  lemma DisjointCard<T>(a: set<T>, b: set<T>, c: set<T>)
    requires a !! b && a <= c && b <= c
    ensures |a| + |b| <= |c|
  {
    SubsetCard(a + b, c);
  }

  /** vmalloc. It counts the free frames for the pages beforehand but not those for page tables. Where create_mapping then
      finds none, or the scan comes to the end of the bitmap, the C code goes on with what is not a frame; the model stops
      there, with `stopped` true. One free frame more for each table that the range lacks rules that out, and on a range
      without a whole 2 MiB block that many are also needed. On a range that
      ends with the address space it reports success although the last page has no translation. */
  method Vmalloc(a: AddressSpace, virtual: nat, pages: nat, attributes: nat)
    returns (ret: Descriptor, stopped: bool, ghost F: map<nat, nat>)
    requires a.Valid() && InOneHalf(virtual, pages) && Page(virtual) && attributes % 2 == 1
    modifies a`mem, a`allocatedPages, a`node, a`owner, a.frames`formerCount, a.frames`free, a.frames.bitmap
    ensures a.Valid()
    ensures |old(Supply(a.State()))| >= pages + |old(Missing(a.View(), virtual, MapEnd(virtual + pages)))| ==> !stopped
    ensures !stopped && pages <= |old(Supply(a.State()))| && NoWholeBlock(virtual, virtual + pages) && 0 < pages && virtual + pages < PAGES ==>
      |old(Supply(a.State()))| >= pages + |old(Missing(a.View(), virtual, virtual + pages))|
    ensures pages == 0 || |old(Supply(a.State()))| < pages ==> !stopped
    ensures !stopped ==> ret.attribute == if pages == 0 then 2 else if |old(Supply(a.State()))| < pages then 1 else 0
    ensures !stopped && ret.attribute != 0 ==> a.State() == old(a.State()) && a.allocatedPages == old(a.allocatedPages)
    ensures !stopped && ret.attribute == 0 ==> ret.virtual == virtual && ret.pages == pages
    ensures virtual + pages == PAGES ==> Translate(a.mem, a.pml4, LAST) == None
    ensures !stopped && ret.attribute == 0 && virtual + pages < PAGES ==>
      && virtual in F && ret.physical == F[virtual]
      && Backs(old(a.mem), a.mem, a.pml4, virtual, virtual + pages, F, attributes)
      && Chosen(old(a.State()), a.State(), virtual, virtual + pages, F, 8 * a.frames.bitmapSize)
  {
    F := map[];
    stopped := false;
    if pages == 0 {
      ret := Descriptor(0, 0, 0, 2);
      return;
    }
    var count := a.frames.formerCount;
    var simulated := a.frames.RunSimulation(count, pages);
    if simulated == 1 {
      ret := Descriptor(0, 0, 0, 1);
      return;
    }
    var physical;
    physical, stopped, F := BackRange(a, virtual, pages, attributes);
    ret := Descriptor(physical, virtual, pages, 0);
  }

  /** vmalloc once enough frames have been counted: the scan, the first frame, and where the next search starts. */
  method BackRange(a: AddressSpace, virtual: nat, pages: nat, attributes: nat)
    returns (physical: nat, stopped: bool, ghost F: map<nat, nat>)
    requires a.Valid() && 0 < pages <= |Supply(a.State())| && InOneHalf(virtual, pages) && attributes % 2 == 1
    modifies a`mem, a`allocatedPages, a`node, a`owner, a.frames`formerCount, a.frames`free, a.frames.bitmap
    ensures a.Valid()
    ensures |old(Supply(a.State()))| >= pages + |old(Missing(a.View(), virtual, MapEnd(virtual + pages)))| ==> !stopped
    ensures !stopped && pages <= |old(Supply(a.State()))| && NoWholeBlock(virtual, virtual + pages) && 0 < pages && virtual + pages < PAGES ==>
      |old(Supply(a.State()))| >= pages + |old(Missing(a.View(), virtual, virtual + pages))|
    ensures !stopped && virtual + pages < PAGES ==>
      && virtual in F && physical == F[virtual]
      && Backs(old(a.mem), a.mem, a.pml4, virtual, virtual + pages, F, attributes)
      && Chosen(old(a.State()), a.State(), virtual, virtual + pages, F, 8 * a.frames.bitmapSize)
  {
    var count := a.frames.formerCount;
    a.frames.SomeAbove(count);
    ghost var s := a.State();
    ValidSeparates(a);
    ghost var rich := |Supply(s)| >= pages + |Missing(s.t, virtual, MapEnd(virtual + pages))|;
    var ok;
    ok, F, count := Scan(a, virtual, pages, attributes, count, rich);
    physical, stopped := 0, !ok;
    if ok {
      if NoWholeBlock(virtual, virtual + pages) && virtual + pages < PAGES {
        SpareFrames(a, s, virtual, pages, F, attributes, count);
      }
      physical := FirstFrame(a, s.t.mem, virtual, virtual + pages, F, attributes);
      StoreHint(a, count);
    }
  }

  lemma SpareFrames(a: AddressSpace, s: Snapshot, virtual: nat, pages: nat, F: map<nat, nat>, attributes: nat, count: nat)
    requires a.Valid() && Shape(s.t) && Separate(s) && s.t.root == a.pml4 && virtual + pages < PAGES
    requires NoWholeBlock(virtual, virtual + pages) && Grown(s, a.State(), virtual, virtual + pages)
    requires Backs(s.t.mem, a.mem, a.pml4, virtual, virtual + pages, F, attributes)
    requires Chosen(s, a.State(), virtual, virtual + pages, F, count)
    ensures |Supply(s)| >= pages + |Missing(s.t, virtual, virtual + pages)|
  {
    ValidSeparates(a);
    EnoughIsNeeded(s, a.State(), virtual, virtual + pages, F, attributes, count);
  }

  /** paging_lookup of the first page: its leaf starts there, so what is reported is its frame. */
  method FirstFrame(a: AddressSpace, ghost m: Memory, virtual: nat, ghost hi: nat, ghost F: map<nat, nat>, ghost attributes: nat)
    returns (physical: nat)
    requires a.Valid() && virtual < hi <= PAGES && (hi < PAGES ==> Backs(m, a.mem, a.pml4, virtual, hi, F, attributes))
    ensures hi < PAGES ==> virtual in F && physical == F[virtual]
  {
    assert Page(virtual);
    var lookup := a.PagingLookup(virtual);
    LevelsSeen(a.mem, a.pml4, virtual);
    physical := lookup.physical;
  }

  method StoreHint(a: AddressSpace, count: nat)
    requires a.Valid()
    modifies a.frames`formerCount
    ensures a.Valid() && a.frames.formerCount == count
  {
    a.frames.formerCount := count;
    forall p: nat ensures a.frames.Tracks(p) { assert old(a.frames.Tracks(p)); }
    forall f: nat ensures a.Marked(f) { assert old(a.Marked(f)); }
  }

  /** A live allocation of vmalloc: every page of [lo, hi) is backed by its own frame of F, which is neither free nor
      a table, through leaves inside the range. */
  ghost predicate Holds(s: Snapshot, lo: nat, hi: nat, F: map<nat, nat>, limit: nat) {
    && lo <= hi < PAGES
    && (forall w: nat {:trigger w in F} :: w in F <==> lo <= w < hi)
    && (forall w: nat {:trigger Page(w)} :: Page(w) && lo <= w < hi ==>
          var x := Translate(s.t.mem, s.t.root, w); x.Some? && x.value.frame == F[w] && Within(x.value, w, lo, hi))
    && (forall w, u {:trigger F[w], F[u]} :: w in F && u in F && w != u ==> F[w] != F[u])
    && (forall w {:trigger F[w]} :: w in F ==> F[w] < limit && F[w] !in s.free && F[w] !in s.t.mem)
  }

  /** What vmalloc returns is a live allocation. */
  lemma BackedHolds(s: Snapshot, s': Snapshot, lo: nat, hi: nat, F: map<nat, nat>, attributes: nat, limit: nat)
    requires s'.t.root == s.t.root && lo <= hi < PAGES
    requires Backs(s.t.mem, s'.t.mem, s.t.root, lo, hi, F, attributes) && Chosen(s, s', lo, hi, F, limit)
    ensures Holds(s', lo, hi, F, limit)
  {
    forall w: nat | Page(w) && lo <= w < hi
      ensures var x := Translate(s'.t.mem, s.t.root, w); x.Some? && x.value.frame == F[w] && Within(x.value, w, lo, hi)
    {
      assert Backed(Translate(s.t.mem, s.t.root, w), Translate(s'.t.mem, s.t.root, w), w, lo, hi, F, attributes);
    }
    forall w, u | w in F && u in F && w != u ensures F[w] != F[u] {
      if w < u { assert F[w] < F[u]; } else { assert F[u] < F[w]; }
    }
  }

  /** All pages of the block of a leaf see that leaf. */
  lemma LeafCoherent(t: Tables, v: nat, w: nat)
    requires Shape(t) && Page(v) && Page(w)
    requires var x := Translate(t.mem, t.root, v); x.Some? && BlockStart(x.value.level, w) == BlockStart(x.value.level, v)
    ensures var x, y := Translate(t.mem, t.root, v), Translate(t.mem, t.root, w);
            y.Some? && y.value.level == x.value.level && y.value.attributes == x.value.attributes
            && y.value.frame - w == x.value.frame - v
  {
    var level := Translate(t.mem, t.root, v).value.level;
    WalkSeesTree(t, v);
    if level >= 2 {
      PathStep(t, v, 4);
      PathStep(t, v, 3);
      PathStep(t, v, 2);
      HugeEntry(t, level, v);
    }
  }

  /** Every leaf that translates a page of [lo, v) ends at or before v. */
  ghost predicate Ends(m: Memory, root: nat, lo: nat, v: nat) {
    forall w: nat {:trigger Page(w)} :: Page(w) && lo <= w < v ==>
      var x := Translate(m, root, w); x.Some? ==> BlockStart(x.value.level, w) + Span(x.value.level) <= v
  }

  lemma SpanAt(level: nat, v: nat)
    requires 1 <= level <= 3
    ensures v < BlockStart(level, v) + Span(level)
    ensures forall w: nat :: BlockStart(level, v) <= w < BlockStart(level, v) + Span(level) ==> BlockStart(level, w) == BlockStart(level, v)
  {
  }

  /** So the next leaf starts at v, its frames are those of F, and the leaves up to its end still end in time. */
  lemma NextLeaf(s: Snapshot, lo: nat, v: nat, hi: nat, F: map<nat, nat>, limit: nat, base: nat, span: nat)
    requires Shape(s.t) && Holds(s, lo, hi, F, limit) && lo <= v < hi && Ends(s.t.mem, s.t.root, lo, v)
    requires var x := Translate(s.t.mem, s.t.root, v);
             x.Some? && span == Span(x.value.level) && base + v % span == x.value.frame
    ensures v + span <= hi && v % span == 0 && base + span <= limit
    ensures forall f :: base <= f < base + span ==> f !in s.t.mem
    ensures forall w: nat :: v <= w < v + span ==> F[w] == base + (w - v)
    ensures Ends(s.t.mem, s.t.root, lo, v + span)
  {
    assert Page(v);
    LevelsSeen(s.t.mem, s.t.root, v);
    var level := Translate(s.t.mem, s.t.root, v).value.level;
    var b := BlockStart(level, v);
    SpanAt(level, v);
    if b < v {
      assert Page(v - 1);
      LeafCoherent(s.t, v, v - 1);
      assert false;
    }
    forall w: nat | v <= w < v + span
      ensures Page(w) && F[w] == base + (w - v) && Translate(s.t.mem, s.t.root, w).Some?
      ensures var x := Translate(s.t.mem, s.t.root, w); BlockStart(x.value.level, w) + Span(x.value.level) <= v + span
    {
      assert Page(w);
      LeafCoherent(s.t, v, w);
    }
    assert F[v + span - 1] < limit;
    forall f | base <= f < base + span ensures f !in s.t.mem {
      assert F[v + (f - base)] == f;
    }
  }

  /** The data frames of the pages below v. */
  ghost function FramesBelow(F: map<nat, nat>, v: nat): set<nat> {
    set w | w in F && w < v :: F[w]
  }

  lemma NextFrames(F: map<nat, nat>, lo: nat, v: nat, hi: nat, span: nat, base: nat)
    requires (forall w: nat {:trigger w in F} :: w in F <==> lo <= w < hi) && lo <= v && v + span <= hi
    requires forall w: nat :: v <= w < v + span ==> w in F && F[w] == base + (w - v)
    ensures FramesBelow(F, v + span) == FramesBelow(F, v) + Interval(base, span)
  {
    forall f | f in Interval(base, span) ensures f in FramesBelow(F, v + span) {
      assert F[v + (f - base)] == f;
    }
  }

  method FreeLeaf(a: AddressSpace, base: nat, span: nat)
    requires a.Valid() && base + span <= 8 * a.frames.bitmapSize
    requires forall f :: base <= f < base + span ==> f !in a.mem
    modifies a.frames`formerCount, a.frames`free, a.frames.bitmap
    ensures a.Valid() && a.frames.free == old(a.frames.free) + Interval(base, span)
  {
    a.frames.FreeFrame(FrameAllocation.Block(base, span, Success));
    forall f: nat ensures a.Marked(f) { assert old(a.Marked(f)); }
  }

  /** One turn of the loop of vfree: the leaf that starts at v. */
  method FreeNext(a: AddressSpace, ghost s: Snapshot, ghost lo: nat, v: nat, ghost hi: nat, ghost F: map<nat, nat>, ghost limit: nat)
    returns (span: nat)
    requires a.Valid() && Holds(s, lo, hi, F, limit) && lo <= v < hi && Ends(s.t.mem, s.t.root, lo, v)
    requires limit == 8 * a.frames.bitmapSize && a.View() == s.t && Shape(s.t) && a.frames.free == s.free + FramesBelow(F, v)
    modifies a.frames`formerCount, a.frames`free, a.frames.bitmap
    ensures a.Valid() && v + span <= hi && span > 0
    ensures a.frames.free == s.free + FramesBelow(F, v + span) && Ends(s.t.mem, s.t.root, lo, v + span)
  {
    assert Page(v);
    var lookup := a.PagingLookup(v);
    span := if lookup.pageType == 0 then 1 else if lookup.pageType == 1 then 512 else 262144;
    NextLeaf(s, lo, v, hi, F, limit, lookup.physical, span);
    NextFrames(F, lo, v, hi, span, lookup.physical);
    FreeLeaf(a, lookup.physical, span);
  }

  lemma FreedPool(s: Snapshot, s': Snapshot, lo: nat, hi: nat, F: map<nat, nat>, limit: nat)
    requires Holds(s, lo, hi, F, limit) && s'.t == s.t && s'.free == s.free + FramesBelow(F, hi)
    ensures forall f: nat {:trigger Owned(s', f)} :: Owned(s', f) <==> Owned(s, f) || f in F.Values
    ensures Whole(s.t.mem, s.t.root, lo, hi)
  {
    forall f: nat ensures f in FramesBelow(F, hi) <==> f in F.Values {
      if f in F.Values {
        var w :| w in F && F[w] == f;
        assert w < hi;
      }
    }
  }

  lemma DestroyedAll(m: Memory, m': Memory, root: nat, lo: nat, hi: nat, stop: nat)
    requires lo <= stop <= hi < PAGES && CleanCut(m, root, lo, stop) && Unmaps(m, m', root, lo, stop)
    requires stop < hi ==> Translate(m', root, stop) == None
    requires forall w: nat {:trigger Page(w)} :: Page(w) && lo <= w < hi ==> Translate(m, root, w).Some?
    ensures stop == hi && Unmaps(m, m', root, lo, hi)
  {
    assert Page(stop);
  }

  /** The loop of vfree: the frames of the leaves of the range go back to the bitmap, leaf by leaf. */
  method FreeLeaves(a: AddressSpace, virtual: nat, pages: nat, ghost F: map<nat, nat>)
    requires a.Valid() && Holds(a.State(), virtual, virtual + pages, F, 8 * a.frames.bitmapSize)
    modifies a.frames`formerCount, a.frames`free, a.frames.bitmap
    ensures a.Valid()
    ensures forall f: nat {:trigger Owned(a.State(), f)} :: Owned(a.State(), f) <==> Owned(old(a.State()), f) || f in F.Values
    ensures Whole(a.mem, a.pml4, virtual, virtual + pages)
  {
    ghost var s, hi, limit := a.State(), virtual + pages, 8 * a.frames.bitmapSize;
    var v: nat, left: nat := virtual, pages;
    while left > 0
      invariant a.Valid() && virtual <= v && v + left == hi
      invariant a.frames.free == s.free + FramesBelow(F, v)
      invariant Ends(s.t.mem, s.t.root, virtual, v)
    {
      var span := FreeNext(a, s, virtual, v, hi, F, limit);
      left, v := left - span, v + span;
    }
    FreedPool(s, a.State(), virtual, hi, F, limit);
  }

  /** vfree: exactly the data frames are given back, and exactly the range is unmapped. */
  method Vfree(a: AddressSpace, virtual: nat, pages: nat, ghost F: map<nat, nat>)
    requires a.Valid() && InOneHalf(virtual, pages) && Holds(a.State(), virtual, virtual + pages, F, 8 * a.frames.bitmapSize)
    modifies a`mem, a`allocatedPages, a`node, a`owner, a.frames`formerCount, a.frames`free, a.frames.bitmap
    ensures a.Valid()
    ensures Unmaps(old(a.mem), a.mem, a.pml4, virtual, virtual + pages) && CleanCut(old(a.mem), a.pml4, virtual, virtual + pages)
    ensures a.mem.Keys <= old(a.mem).Keys
    ensures forall f: nat {:trigger Owned(a.State(), f)} :: Owned(a.State(), f) <==> Owned(old(a.State()), f) || f in F.Values
  {
    ghost var s := a.State();
    FreeLeaves(a, virtual, pages, F);
    ghost var s1 := a.State();
    var ok;
    ghost var stop;
    ok, stop := a.DestroyMapping(virtual, pages);
    DestroyedAll(s.t.mem, a.mem, a.pml4, virtual, virtual + pages, stop);
    forall f: nat ensures Owned(a.State(), f) <==> Owned(s, f) || f in F.Values {
      assert FrameFate(s1, a.State(), f) && (Owned(s1, f) <==> Owned(s, f) || f in F.Values);
    }
  }

  /** No leaf reaches into a range that is not mapped. */
  lemma UnmappedNotTouched(t: Tables, lo: nat, hi: nat, w: nat)
    requires Shape(t) && lo <= hi <= PAGES && Page(w)
    requires forall u: nat {:trigger Page(u)} :: Page(u) && lo <= u < hi ==> Translate(t.mem, t.root, u) == None
    ensures !Touches(Translate(t.mem, t.root, w), w, lo, hi)
  {
    var x := Translate(t.mem, t.root, w);
    if Touches(x, w, lo, hi) {
      LevelsSeen(t.mem, t.root, w);
      var b := BlockStart(x.value.level, w);
      var u := if b < lo then lo else b;
      assert Page(u);
      SpanAt(x.value.level, w);
      LeafCoherent(t, w, u);
    }
  }

  /** Backing an unmapped range and freeing it again leaves every translation as it was. */
  lemma RoundTrip(t: Tables, m1: Memory, m2: Memory, lo: nat, hi: nat, F: map<nat, nat>, attributes: nat, w: nat)
    requires Shape(t) && lo <= hi < PAGES && Page(w)
    requires forall u: nat {:trigger Page(u)} :: Page(u) && lo <= u < hi ==> Translate(t.mem, t.root, u) == None
    requires Backs(t.mem, m1, t.root, lo, hi, F, attributes)
    requires Unmaps(m1, m2, t.root, lo, hi) && CleanCut(m1, t.root, lo, hi)
    ensures Translate(m2, t.root, w) == Translate(t.mem, t.root, w)
  {
    var x, y, z := Translate(t.mem, t.root, w), Translate(m1, t.root, w), Translate(m2, t.root, w);
    assert Backed(x, y, w, lo, hi, F, attributes) && Unmapped(y, z, w, lo, hi);
    UnmappedNotTouched(t, lo, hi, w);
  }

  /** vmalloc and vfree together, on a range that is not mapped. */
  method BackAndFree(a: AddressSpace, virtual: nat, pages: nat, attributes: nat) returns (ok: bool)
    requires a.Valid() && pages > 0 && virtual + pages < PAGES && InOneHalf(virtual, pages) && attributes % 2 == 1
    requires |Supply(a.State())| >= pages + |Missing(a.View(), virtual, virtual + pages)|
    requires forall u: nat {:trigger Page(u)} :: Page(u) && virtual <= u < virtual + pages ==> Translate(a.mem, a.pml4, u) == None
    modifies a`mem, a`allocatedPages, a`node, a`owner, a.frames`formerCount, a.frames`free, a.frames.bitmap
    ensures a.Valid() && ok
    ensures forall w: nat {:trigger Page(w)} :: Page(w) ==> Translate(a.mem, a.pml4, w) == old(Translate(a.mem, a.pml4, w))
    ensures Pool(a.State()) == old(Pool(a.State()))
  {
    ghost var s, hi := a.State(), virtual + pages;
    var ret;
    ghost var F;
    var stopped;
    ret, stopped, F := Vmalloc(a, virtual, pages, attributes);
    ok := !stopped && ret.attribute == 0;
    ghost var s1 := a.State();
    BackedHolds(s, s1, virtual, hi, F, attributes, 8 * a.frames.bitmapSize);
    Vfree(a, virtual, pages, F);
    forall w: nat | Page(w) ensures Translate(a.mem, a.pml4, w) == Translate(s.t.mem, a.pml4, w) {
      RoundTrip(s.t, s1.t.mem, a.mem, virtual, hi, F, attributes, w);
    }
    forall f: nat ensures f in Pool(a.State()) <==> f in Pool(s) {
      assert (Owned(s, f) <==> Owned(s1, f) || f in F.Values) && (Owned(a.State(), f) <==> Owned(s1, f) || f in F.Values);
    }
  }

  /** A page without a page table, and one free frame: it is counted as enough and then missing for the table. */
  method OneFrameExample(a: AddressSpace, virtual: nat, attributes: nat) returns (stopped: bool)
    requires a.Valid() && virtual < LAST && attributes % 2 == 1
    requires |Supply(a.State())| == 1 && Pos(1, Prefix(virtual, 1)) !in a.node
    modifies a`mem, a`allocatedPages, a`node, a`owner, a.frames`formerCount, a.frames`free, a.frames.bitmap
    ensures a.Valid() && stopped
  {
    ghost var t, q := a.View(), Pos(1, Prefix(virtual, 1));
    PrefixRegion(virtual, q);
    InMissing(t, virtual, virtual + 1, q);
    SubsetCard({q}, Missing(t, virtual, virtual + 1));
    assert NoWholeBlock(virtual, virtual + 1);
    var ret;
    ghost var F;
    ret, stopped, F := Vmalloc(a, virtual, 1, attributes);
  }

  /** The last page of all: vmalloc reports success and nothing is mapped. */
  method LastPageExample(a: AddressSpace, attributes: nat) returns (ret: Descriptor)
    requires a.Valid() && Supply(a.State()) != {} && attributes % 2 == 1
    modifies a`mem, a`allocatedPages, a`node, a`owner, a.frames`formerCount, a.frames`free, a.frames.bitmap
    ensures a.Valid() && ret.attribute == 0 && Translate(a.mem, a.pml4, LAST) == None
  {
    assert Missing(a.View(), LAST, LAST) == {};
    var stopped;
    ghost var F;
    ret, stopped, F := Vmalloc(a, LAST, 1, attributes);
  }
}
