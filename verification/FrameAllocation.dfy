// The physical frame allocator (alloc.c, maphlp.c): one bit per 4 KiB frame, a search hint,
// and byte-at-a-time fills. Frames are numbered by physical address / 4096.
module FrameAllocation {
  import opened Words
  import opened Bits
  import opened MemoryMap

  /** fill_bitmap: mark [start, start + pages) used, eight frames at a time where a whole byte is covered. */
  method FillBitmap(start: nat, pages: nat, bitmap: array<Byte>)
    requires (start + pages) / 8 < bitmap.Length
    modifies bitmap
    ensures Written(old(bitmap[..]), bitmap[..], start, start + pages, true)
    ensures bitmap[..] == SetBits(old(bitmap[..]), start, pages, true)
  {
    var count, pageCount := start, pages;
    if count % 8 > 0 {
      var bitsLeft := 8 - count % 8;
      if bitsLeft <= pageCount {
        TailWrites(bitmap[..], count);
        bitmap[count / 8] := SetTail(bitmap[count / 8], count % 8);
        pageCount := pageCount - bitsLeft;
        count := count + bitsLeft;
      } else {
        for i := 0 to pageCount
          invariant count == start + i
          invariant Written(old(bitmap[..]), bitmap[..], start, count, true)
        {
          PutBitWrites(bitmap[..], count, true);
          bitmap[count / 8] := SetBit(bitmap[count / 8], count % 8, true, 1);
          count := count + 1;
        }
        pageCount := 0;
      }
    }
    var eightPageCount, onePageCount := pageCount / 8, pageCount % 8;
    ghost var aligned := count;
    for j := 0 to eightPageCount
      invariant count == aligned + 8 * j
      invariant Written(old(bitmap[..]), bitmap[..], start, count, true)
    {
      WholeWrites(bitmap[..], count);
      bitmap[count / 8] := Ones(8);
      count := count + 8;
    }
    HeadWrites(bitmap[..], count, onePageCount);
    bitmap[count / 8] := SetHead(bitmap[count / 8], onePageCount);
    WrittenIsSetBits(old(bitmap[..]), bitmap[..], start, pages, true);
  }

  /** The same code inlined in free_frame and allocator_init with the complemented masks. */
  method ClearBitmap(start: nat, pages: nat, bitmap: array<Byte>)
    requires (start + pages) / 8 < bitmap.Length
    modifies bitmap
    ensures Written(old(bitmap[..]), bitmap[..], start, start + pages, false)
    ensures bitmap[..] == SetBits(old(bitmap[..]), start, pages, false)
  {
    var count, pageCount := start, pages;
    if count % 8 > 0 {
      var bitsLeft := 8 - count % 8;
      if bitsLeft <= pageCount {
        TailWrites(bitmap[..], count);
        bitmap[count / 8] := ClearTail(bitmap[count / 8], count % 8);
        pageCount := pageCount - bitsLeft;
        count := count + bitsLeft;
      } else {
        for i := 0 to pageCount
          invariant count == start + i
          invariant Written(old(bitmap[..]), bitmap[..], start, count, false)
        {
          PutBitWrites(bitmap[..], count, false);
          bitmap[count / 8] := SetBit(bitmap[count / 8], count % 8, false, 1);
          count := count + 1;
        }
        pageCount := 0;
      }
    }
    var eightPageCount, onePageCount := pageCount / 8, pageCount % 8;
    ghost var aligned := count;
    for j := 0 to eightPageCount
      invariant count == aligned + 8 * j
      invariant Written(old(bitmap[..]), bitmap[..], start, count, false)
    {
      WholeWrites(bitmap[..], count);
      bitmap[count / 8] := Zeros(8);
      count := count + 8;
    }
    HeadWrites(bitmap[..], count, onePageCount);
    bitmap[count / 8] := ClearHead(bitmap[count / 8], onePageCount);
    WrittenIsSetBits(old(bitmap[..]), bitmap[..], start, pages, false);
  }

  /** Attribute 0, 1 and 2 of the descriptor alloc_frame returns. */
  datatype Status = Success | NotEnoughMemory | InvalidParameter

  datatype Block = Block(start: nat, pages: nat, status: Status)

  /** The frames [start, start + pages). */
  function Interval(start: nat, pages: nat): set<nat> {
    set p: nat | p < start + pages && InInterval(p, start, pages)
  }

  predicate InInterval(p: nat, start: nat, pages: nat) {
    start <= p < start + pages
  }

  lemma {:induction false} IntervalCard(start: nat, pages: nat)
    ensures |Interval(start, pages)| == pages
  {
    if pages > 0 {
      IntervalCard(start, pages - 1);
      assert Interval(start, pages) == Interval(start, pages - 1) + {start + pages - 1};
    } else {
      assert Interval(start, pages) == {};
    }
  }

  function Above(free: set<nat>, hint: nat): set<nat> {
    set p | p in free && hint <= p
  }

  lemma AboveStep(free: set<nat>, c: nat)
    ensures Above(free, c) == Above(free, c + 1) + if c in free then {c} else {}
    ensures |Above(free, c)| == |Above(free, c + 1)| + if c in free then 1 else 0
  {
    assert Above(free, c) == Above(free, c + 1) + if c in free then {c} else {};
  }

  predicate Run(free: set<nat>, start: nat, pages: nat) {
    forall p: nat :: start <= p < start + pages ==> p in free
  }

  /** A run of pages free frames exists at or above the hint. */
  ghost predicate Fits(free: set<nat>, hint: nat, pages: nat) {
    exists s: nat :: hint <= s && Run(free, s, pages)
  }

  /** The number of pages allocator_init reserves for the kernel. */
  function KernelPages(kernelStart: nat, kernelEnd: nat): nat
    requires kernelStart <= kernelEnd
  {
    (kernelEnd - kernelStart + 4095) / 4096
  }

  /** A kernel loaded at a page boundary lies in exactly these pages. */
  lemma KernelPagesCover(kernelStart: nat, kernelEnd: nat, p: nat)
    requires kernelStart <= kernelEnd && kernelStart % 4096 == 0
    ensures p in Interval(kernelStart / 4096, KernelPages(kernelStart, kernelEnd)) <==>
            exists x: nat :: kernelStart <= x < kernelEnd && x / 4096 == p
  {
    if kernelStart / 4096 <= p && p * 4096 < kernelEnd {
      assert (4096 * p) / 4096 == p;
    }
  }

  /** The pages a memory map releases, the last descriptor for a page deciding. */
  ghost function ReleasedPages(memoryMap: seq<Descriptor>, bitmapSize: nat): set<nat> {
    set p: nat | p < 8 * bitmapSize && Released(memoryMap, p)
  }

  /** The clear bits among the first n. */
  function ClearBits(bitmap: seq<Byte>, n: nat): set<nat>
    requires n <= 8 * |bitmap|
  {
    set p: nat | p < n && !BitAt(bitmap, p)
  }

  lemma ReleaseStep(memoryMap: seq<Descriptor>, i: nat, a: seq<Byte>, b: seq<Byte>, bitmapSize: nat)
    requires i < |memoryMap| && bitmapSize < |a|
    requires var first := memoryMap[i].physicalStart / 4096;
             Written(a, b, first, first + memoryMap[i].pages, !Usable(memoryMap[i]))
    requires forall p: nat :: p < 8 * bitmapSize ==> (BitAt(a, p) <==> !Released(memoryMap[..i], p))
    ensures forall p: nat :: p < 8 * bitmapSize ==> (BitAt(b, p) <==> !Released(memoryMap[..i + 1], p))
  {
    var longer := memoryMap[..i + 1];
    assert longer[..i] == memoryMap[..i] && longer[i] == memoryMap[i];
  }

  /** The clear bits of a byte among positions [lo, hi). */
  function ClearIn(byte: Byte, lo: nat, hi: nat): nat
    requires lo <= hi <= 8
  {
    if lo == hi then 0 else ClearIn(byte, lo, hi - 1) + if byte[hi - 1] then 0 else 1
  }

  lemma {:induction false} ClearInFirst(byte: Byte, lo: nat, hi: nat)
    requires lo < hi <= 8
    ensures ClearIn(byte, lo, hi) == ClearIn(byte, lo + 1, hi) + if byte[lo] then 0 else 1
    decreases hi
  {
    if lo + 1 < hi {
      ClearInFirst(byte, lo, hi - 1);
    }
  }

  lemma {:induction false} ClearInByte(bitmap: seq<Byte>, i: nat, k: nat)
    requires i < |bitmap| && k <= 8
    ensures |ClearBits(bitmap, 8 * i + k)| == |ClearBits(bitmap, 8 * i)| + ClearIn(bitmap[i], 8 - k, 8)
    decreases k
  {
    if k > 0 {
      ClearInByte(bitmap, i, k - 1);
      ClearInFirst(bitmap[i], 8 - k, 8);
      var p := 8 * i + (k - 1);
      assert p / 8 == i && p % 8 == k - 1;
      assert ClearBits(bitmap, p + 1) == ClearBits(bitmap, p) + if BitAt(bitmap, p) then {} else {p};
    }
  }

  /** The loop at the end of allocator_init counts clear bits, lowest bit of each byte first. */
  method CountClear(bitmap: array<Byte>, bitmapSize: nat) returns (n: nat)
    requires bitmapSize < bitmap.Length
    ensures n == |ClearBits(bitmap[..], 8 * bitmapSize)|
  {
    n := 0;
    assert ClearBits(bitmap[..], 0) == {};
    for i := 0 to bitmapSize
      invariant n == |ClearBits(bitmap[..], 8 * i)|
    {
      ghost var before := n;
      for bit := 0 to 8
        invariant n == before + ClearIn(bitmap[i], 0, bit)
      {
        TestBit(bitmap[i], bit);
        if And(bitmap[i], Shl(One(8), bit)) == Zeros(8) {
          n := n + 1;
        }
      }
      ClearInByte(bitmap[..], i, 8);
    }
  }

  /** value & (1 << bit) looks at one bit. */
  lemma TestBit(value: Byte, bit: nat)
    requires bit < 8
    ensures And(value, Shl(One(8), bit)) == Zeros(8) <==> !value[bit]
  {
    var w := And(value, Shl(One(8), bit));
    assert w[bit] == value[bit];
    if !value[bit] {
      assert forall j :: 0 <= j < 8 ==> w[j] == Zeros(8)[j];
    }
  }

  class FrameAllocator {
    const bitmap: array<Byte>
    const bitmapSize: nat
    var formerCount: nat
    /** allocator_usable_pages: counted before the kernel's own pages are taken. */
    var usablePages: nat
    /** The frames whose bit is clear. */
    ghost var free: set<nat>

    /** One guard byte follows the bitmap, because the last masked write of a fill may touch it. */
    ghost predicate Valid()
      reads this, bitmap
    {
      && bitmapSize < bitmap.Length
      && forall p: nat {:trigger Tracks(p)} :: Tracks(p)
    }

    /** Frame p is in the ghost set exactly when the bitmap has it and its bit is clear. */
    ghost predicate Tracks(p: nat)
      reads this, bitmap
    {
      p in free <==> p < 8 * bitmapSize && p / 8 < bitmap.Length && !BitAt(bitmap[..], p)
    }

    /** The free frames the next search can still reach. */
    ghost function Supply(): set<nat>
      reads this
    {
      Above(free, formerCount)
    }

    /** allocator_init: everything is used, then each descriptor releases or takes its pages in turn, then the kernel's
        pages are taken. */
    constructor (bitmap: array<Byte>, memoryMap: seq<Descriptor>, kernelStart: nat, kernelEnd: nat, bitmapSize: nat)
      requires bitmapSize < bitmap.Length && kernelStart <= kernelEnd
      requires forall d :: d in memoryMap ==> d.physicalStart / 4096 + d.pages <= 8 * bitmapSize
      requires kernelStart / 4096 + KernelPages(kernelStart, kernelEnd) <= 8 * bitmapSize
      modifies bitmap
      ensures Valid() && this.bitmap == bitmap && this.bitmapSize == bitmapSize && formerCount == 0
      ensures free == ReleasedPages(memoryMap, bitmapSize) -
                      Interval(kernelStart / 4096, KernelPages(kernelStart, kernelEnd))
      ensures usablePages == |ReleasedPages(memoryMap, bitmapSize)|
    {
      this.bitmap, this.bitmapSize, formerCount, usablePages := bitmap, bitmapSize, 0, 0;
      new;
      for i := 0 to bitmapSize
        modifies bitmap
        invariant forall q :: 0 <= q < i ==> bitmap[q] == Ones(8)
      {
        bitmap[i] := Ones(8);
      }
      for i := 0 to |memoryMap|
        modifies bitmap
        invariant forall p: nat :: p < 8 * bitmapSize ==> (BitAt(bitmap[..], p) <==> !Released(memoryMap[..i], p))
      {
        var d := memoryMap[i];
        ghost var was := bitmap[..];
        if d.kind == ConventionalMemory && d.physicalStart >= ONE_MIB {
          ClearBitmap(d.physicalStart / 4096, d.pages, bitmap);
        } else {
          FillBitmap(d.physicalStart / 4096, d.pages, bitmap);
        }
        ReleaseStep(memoryMap, i, was, bitmap[..], bitmapSize);
      }
      assert memoryMap[..|memoryMap|] == memoryMap;
      usablePages := CountClear(bitmap, bitmapSize);
      ghost var was := bitmap[..];
      assert ClearBits(was, 8 * bitmapSize) == ReleasedPages(memoryMap, bitmapSize);
      FillBitmap(kernelStart / 4096, KernelPages(kernelStart, kernelEnd), bitmap);
      free := ReleasedPages(memoryMap, bitmapSize) - Interval(kernelStart / 4096, KernelPages(kernelStart, kernelEnd));
      forall p: nat ensures Tracks(p) {
        assert p in ReleasedPages(memoryMap, bitmapSize) <==> p < 8 * bitmapSize && Released(memoryMap, p);
      }
    }

    lemma NothingPastTheEnd()
      requires Valid()
      ensures forall p :: p in free ==> 0 <= p < 8 * bitmapSize
    {
      forall p | p in free ensures 0 <= p < 8 * bitmapSize { assert Tracks(p); }
    }

    /** The search loop of alloc_frame: the lowest run of free frames at or above the hint. */
    method FindRun(pages: nat) returns (found: bool, start: nat)
      requires Valid()
      ensures found == Fits(free, formerCount, pages)
      ensures found ==>
        && formerCount <= start && Run(free, start, pages)
        && (pages > 0 ==> start + pages <= 8 * bitmapSize)
        && forall s: nat :: formerCount <= s < start ==> !Run(free, s, pages)
    {
      var count := formerCount;
      var countTar := count;
      var matchCount := 0;
      while matchCount < pages
        invariant formerCount <= countTar && count == countTar + matchCount && matchCount <= pages
        invariant count <= 8 * bitmapSize || count == formerCount
        invariant Run(free, countTar, matchCount)
        invariant forall s: nat :: formerCount <= s < countTar ==> !Run(free, s, pages)
        decreases 8 * bitmapSize + 1 - count
      {
        if count / 8 >= bitmapSize {
          NothingPastTheEnd();
          NoRunPast(free, formerCount, countTar, count, pages);
          return false, 0;
        }
        assert Tracks(count);
        if !CheckByte(bitmap[count / 8], count % 8, 1) {
          matchCount := matchCount + 1;
          count := count + 1;
        } else {
          matchCount := 0;
          UsedFrameBlocks(free, countTar, count, pages);
          while CheckByte(bitmap[count / 8], count % 8, 1)
            invariant countTar <= count < 8 * bitmapSize
            invariant forall s: nat :: formerCount <= s < count ==> !Run(free, s, pages)
            decreases 8 * bitmapSize - count
          {
            assert Tracks(count);
            UsedFrameBlocks(free, count, count, pages);
            count := count + 1;
            if count / 8 >= bitmapSize {
              NothingPastTheEnd();
              NoRunPast(free, formerCount, count, count, pages);
              return false, 0;
            }
          }
          countTar := count;
        }
      }
      return true, countTar;
    }

    method AllocFrame(pages: nat) returns (ret: Block)
      requires Valid()
      modifies this`formerCount, this`free, bitmap
      ensures Valid()
      ensures ret.status == if pages == 0 then InvalidParameter
                            else if Fits(old(free), old(formerCount), pages) then Success else NotEnoughMemory
      ensures ret.status != Success ==> free == old(free) && formerCount == old(formerCount) && bitmap[..] == old(bitmap[..])
      ensures ret.status == Success ==>
        && ret.pages == pages
        && old(formerCount) <= ret.start && ret.start + pages <= 8 * bitmapSize
        && Run(old(free), ret.start, pages)
        && (forall s: nat :: old(formerCount) <= s < ret.start ==> !Run(old(free), s, pages))
        && free == old(free) - Interval(ret.start, pages)
        && formerCount == ret.start + pages
        && bitmap[..] == SetBits(old(bitmap[..]), ret.start, pages, true)
    {
      if pages == 0 {
        return Block(0, 0, InvalidParameter);
      }
      var found, start := FindRun(pages);
      if !found {
        return Block(0, 0, NotEnoughMemory);
      }
      formerCount := start + pages;
      FillBitmap(start, pages, bitmap);
      free := free - Interval(start, pages);
      forall p: nat ensures Tracks(p) { assert old(Tracks(p)); }
      ret := Block(start, pages, Success);
    }

    /** alloc_frame(1): the lowest free frame at or above the hint. */
    method AllocOne() returns (ok: bool, f: nat)
      requires Valid()
      modifies this`formerCount, this`free, bitmap
      ensures Valid()
      ensures ok <==> old(Supply()) != {}
      ensures !ok ==> free == old(free) && formerCount == old(formerCount)
      ensures ok ==>
        && f in old(Supply()) && f < 8 * bitmapSize && formerCount == f + 1
        && free == old(free) - {f} && Supply() == old(Supply()) - {f}
    {
      ghost var supply := Supply();
      forall g | g in supply ensures Run(free, g, 1) { }
      var ret := AllocFrame(1);
      ok, f := ret.status == Success, ret.start;
      if ok {
        assert Interval(f, 1) == {f};
        assert f in supply;
      }
    }

    /** fill_bitmap on frames that were found free, as vmalloc calls it. */
    method MarkUsed(start: nat, pages: nat)
      requires Valid() && start + pages <= 8 * bitmapSize
      modifies this`free, bitmap
      ensures Valid()
      ensures free == old(free) - Interval(start, pages)
    {
      FillBitmap(start, pages, bitmap);
      free := free - Interval(start, pages);
      forall p: nat ensures Tracks(p) { assert old(Tracks(p)); }
    }

    /** run_simulation: 0 when at least pages frames are free from start on, 1 when not, 2 for no pages. */
    method RunSimulation(start: nat, pages: nat) returns (status: nat)
      requires Valid()
      ensures status == if pages == 0 then 2 else if |Above(free, start)| >= pages then 0 else 1
    {
      if pages == 0 {
        return 2;
      }
      var count, left := start, pages;
      while left > 0
        invariant |Above(free, start)| - |Above(free, count)| == pages - left && 0 <= left
        decreases 8 * bitmapSize - count
      {
        if count / 8 >= bitmapSize {
          NothingPastTheEnd();
          assert Above(free, count) == {};
          return 1;
        }
        assert Tracks(count);
        AboveStep(free, count);
        if !CheckByte(bitmap[count / 8], count % 8, 1) {
          left := left - 1;
        }
        count := count + 1;
      }
      return 0;
    }

    lemma SomeAbove(c: nat)
      requires Valid() && |Above(free, c)| > 0
      ensures c < 8 * bitmapSize && Above(free, c) != {}
    {
      NothingPastTheEnd();
      var f :| f in Above(free, c);
    }

    /** check_byte on the bit of a frame. */
    method IsUsed(p: nat) returns (used: bool)
      requires Valid() && p < 8 * bitmapSize
      ensures used <==> p !in free
    {
      assert Tracks(p);
      used := CheckByte(bitmap[p / 8], p % 8, 1);
    }

    /** The inner loop of vmalloc: skip used frames. It has no bound, so where no free frame follows it would read on
        behind the bitmap; here it then ends with ok false. */
    method SkipUsed(start: nat) returns (ok: bool, count: nat)
      requires Valid()
      ensures ok <==> Above(free, start) != {}
      ensures ok ==> start <= count < 8 * bitmapSize && count in free && Above(free, count) == Above(free, start)
    {
      NothingPastTheEnd();
      count := start;
      while count / 8 < bitmapSize
        invariant start <= count && Above(free, count) == Above(free, start)
        decreases 8 * bitmapSize - count
      {
        assert Tracks(count);
        if !CheckByte(bitmap[count / 8], count % 8, 1) {
          assert count in Above(free, start);
          return true, count;
        }
        AboveStep(free, count);
        count := count + 1;
      }
      assert Above(free, count) == {};
      ok := false;
    }

    method FreeFrame(frame: Block)
      requires Valid() && frame.start + frame.pages <= 8 * bitmapSize
      modifies this`formerCount, this`free, bitmap
      ensures Valid()
      ensures free == old(free) + Interval(frame.start, frame.pages)
      ensures formerCount == if frame.start < old(formerCount) then frame.start else old(formerCount)
      ensures bitmap[..] == SetBits(old(bitmap[..]), frame.start, frame.pages, false)
    {
      if frame.start < formerCount {
        formerCount := frame.start;
      }
      ClearBitmap(frame.start, frame.pages, bitmap);
      free := free + Interval(frame.start, frame.pages);
      forall p: nat ensures Tracks(p) { assert old(Tracks(p)); }
    }
  }

  /** No run of pages frames that covers a used frame is free. */
  lemma UsedFrameBlocks(free: set<nat>, start: nat, used: nat, pages: nat)
    requires used !in free && start <= used < start + pages
    ensures forall s: nat :: start <= s <= used ==> !Run(free, s, pages)
  {
    forall s: nat | start <= s <= used ensures !Run(free, s, pages) {
      assert s <= used < s + pages;
    }
  }

  lemma NoRunPast(free: set<nat>, hint: nat, start: nat, used: nat, pages: nat)
    requires hint <= start <= used < start + pages
    requires forall p | p >= used :: p !in free
    requires forall s: nat :: hint <= s < start ==> !Run(free, s, pages)
    ensures !Fits(free, hint, pages)
  {
    forall s: nat | hint <= s ensures !Run(free, s, pages) {
      if start <= s {
        var p := if s <= used then used else s;
        assert p !in free;
      }
    }
  }
}
