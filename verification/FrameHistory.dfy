// What alloc_frame and free_frame promise over whole histories: who holds which frames, and which base comes next.
module FrameHistory {
  import opened Bits
  import opened FrameAllocation

  /** The free frames, the search hint and the blocks handed out and not yet freed. */
  datatype Ledger = Ledger(free: set<nat>, hint: nat, live: set<Block>)

  function Frames(b: Block): set<nat> { Interval(b.start, b.pages) }

  /** No frame has two holders, and none that is held is free. */
  ghost predicate Exclusive(l: Ledger) {
    && (forall b :: b in l.live ==> Frames(b) !! l.free)
    && (forall b, c :: b in l.live && c in l.live && b != c ==> Frames(b) !! Frames(c))
  }

  /** alloc_frame handed out b: the lowest run above the hint. */
  ghost predicate Allocates(l: Ledger, b: Block, l': Ledger) {
    && b.pages > 0 && l.hint <= b.start && Run(l.free, b.start, b.pages)
    && (forall s: nat :: l.hint <= s < b.start ==> !Run(l.free, s, b.pages))
    && l' == Ledger(l.free - Frames(b), b.start + b.pages, l.live + {b})
  }

  /** free_frame took back a block that was handed out. */
  ghost predicate Frees(l: Ledger, b: Block, l': Ledger) {
    && b in l.live
    && l' == Ledger(l.free + Frames(b), if b.start < l.hint then b.start else l.hint, l.live - {b})
  }

  ghost predicate Step(l: Ledger, l': Ledger) {
    l' == l || exists b :: Allocates(l, b, l') || Frees(l, b, l')
  }

  lemma StepKeepsExclusive(l: Ledger, l': Ledger)
    requires Exclusive(l) && Step(l, l')
    ensures Exclusive(l')
  {
    if l' != l {
      var b :| Allocates(l, b, l') || Frees(l, b, l');
      assert Allocates(l, b, l') ==> Frames(b) <= l.free;
    }
  }

  /** In every history, live blocks are disjoint and not free. */
  lemma {:induction false} HistoriesAreExclusive(history: seq<Ledger>, i: nat)
    requires i < |history| && Exclusive(history[0])
    requires forall k :: 0 <= k < |history| - 1 ==> Step(history[k], history[k + 1])
    ensures Exclusive(history[i])
  {
    if i > 0 {
      HistoriesAreExclusive(history, i - 1);
      assert Step(history[i - 1], history[(i - 1) + 1]);
      StepKeepsExclusive(history[i - 1], history[i]);
    }
  }

  /** The calls are steps of such histories. */
  method Alloc(frames: FrameAllocator, pages: nat, ghost live: set<Block>) returns (b: Block, ghost live': set<Block>)
    requires frames.Valid()
    modifies frames`formerCount, frames`free, frames.bitmap
    ensures frames.Valid()
    ensures live' == if b.status == Success then live + {b} else live
    ensures Step(Ledger(old(frames.free), old(frames.formerCount), live), Ledger(frames.free, frames.formerCount, live'))
  {
    b := frames.AllocFrame(pages);
    live' := if b.status == Success then live + {b} else live;
    if b.status == Success {
      assert Allocates(Ledger(old(frames.free), old(frames.formerCount), live), b,
                       Ledger(frames.free, frames.formerCount, live'));
    }
  }

  method Free(frames: FrameAllocator, b: Block, ghost live: set<Block>) returns (ghost live': set<Block>)
    requires frames.Valid() && b in live && b.start + b.pages <= 8 * frames.bitmapSize
    modifies frames`formerCount, frames`free, frames.bitmap
    ensures frames.Valid() && live' == live - {b}
    ensures Step(Ledger(old(frames.free), old(frames.formerCount), live), Ledger(frames.free, frames.formerCount, live'))
  {
    frames.FreeFrame(b);
    live' := live - {b};
    assert Frees(Ledger(old(frames.free), old(frames.formerCount), live), b,
                 Ledger(frames.free, frames.formerCount, live'));
  }

  /** Freeing a block and allocating no more pages than it had always succeeds. It returns the same base exactly when
      no run of that many frames starts between the hint and the block: always, if the hint is not below the block. */
  method FreeThenAlloc(frames: FrameAllocator, b: Block, pages: nat) returns (again: Block)
    requires frames.Valid() && 0 < pages <= b.pages && b.start + b.pages <= 8 * frames.bitmapSize
    modifies frames`formerCount, frames`free, frames.bitmap
    ensures frames.Valid() && again.status == Success && again.pages == pages && again.start <= b.start
    ensures again.start == b.start <==>
      forall s: nat :: old(frames.formerCount) <= s < b.start ==> !Run(old(frames.free) + Frames(b), s, pages)
    ensures b.start <= old(frames.formerCount) ==> again.start == b.start
  {
    frames.FreeFrame(b);
    ghost var free, hint := frames.free, frames.formerCount;
    assert free == old(frames.free) + Frames(b) && Run(free, b.start, pages);
    again := frames.AllocFrame(pages);
  }

  /** The kernel's own check: allocate, free, allocate no more than before. The second base is the first one. */
  method AllocFreeAlloc(frames: FrameAllocator, pages: nat, fewer: nat) returns (first: Block, second: Block)
    requires frames.Valid() && Fits(frames.free, frames.formerCount, pages) && 0 < fewer <= pages
    modifies frames`formerCount, frames`free, frames.bitmap
    ensures frames.Valid() && first.status == Success && second == first.(pages := fewer)
  {
    first := frames.AllocFrame(pages);
    second := FreeThenAlloc(frames, first, fewer);
  }

  /** That condition can fail: of two frames handed out one after the other both are freed, the first one first. The next
      allocation gets the first one, not the one freed last. */
  lemma OtherBaseExample() returns (history: seq<Ledger>, b: Block)
    ensures |history| == 5 && Exclusive(history[0]) && forall k :: 0 <= k < 4 ==> Step(history[k], history[k + 1])
    ensures Frees(history[3], b, history[4])
    ensures forall again, l :: Allocates(history[4], again, l) && again.pages == b.pages ==> again.start != b.start
  {
    var a: Block;
    a, b := Block(0, 1, Success), Block(1, 1, Success);
    assert Frames(a) == {0} && Frames(b) == {1};
    history := [Ledger({0, 1}, 0, {}), Ledger({1}, 1, {a}), Ledger({}, 2, {a, b}), Ledger({0}, 0, {b}), Ledger({0, 1}, 0, {})];
    assert {0, 1} - {0} == {1} && {1} - {1} == {} && {a} + {b} == {a, b} && {a, b} - {a} == {b} && {b} - {b} == {};
    assert Allocates(history[0], a, history[1]);
    assert Allocates(history[1], b, history[2]);
    assert Frees(history[2], a, history[3]);
    assert Frees(history[3], b, history[4]);
    forall again, l | Allocates(history[4], again, l) && again.pages == b.pages ensures again.start != b.start {
      assert Run(history[4].free, 0, 1);
    }
  }
}
