// The slot bitmap of a kmalloc slab (kmalloc.c): 128 slots of 32 bytes as two 64-bit words, searched with bit scans and
// marked with writes of mixed width. It must behave as a first-fit allocator over 128 booleans.
module Slab {
  import opened Options
  import opened Words

  const SLOTS := 128

  /** Cache_2048 as its bits in memory order: the low word first, each byte from its least significant bit. */
  type Cache = c: seq<bool> | |c| == SLOTS witness Zeros(SLOTS)

  type Quad = w: Word | |w| == 64 witness Zeros(64)

  function Low(c: Cache): Quad { c[..64] }

  function High(c: Cache): Quad { c[64..] }

  function Join(low: Quad, high: Quad): Cache { low + high }

  // ----- bit scans -----

  /** The lowest set bit at or above `from`, or the width. */
  function LowestFrom(w: Word, from: nat): (i: nat)
    requires from <= |w|
    ensures from <= i <= |w| && (i < |w| ==> w[i]) && forall j :: from <= j < i ==> !w[j]
    decreases |w| - from
  {
    if from == |w| || w[from] then from else LowestFrom(w, from + 1)
  }

  /** The processor's bit scan: 64 if no bit is set. */
  function Bsf(w: Quad): (i: nat)
    ensures i <= 64
  {
    LowestFrom(w, 0)
  }

  function Bsf128(low: Quad, high: Quad): nat {
    var ind := Bsf(low);
    if ind == 64 then ind + Bsf(high) else ind
  }

  function Mask128(low: Quad, high: Quad, ind: nat): (Quad, Quad)
    requires ind <= 128
  {
    if ind == 128 then (And(low, Not(Ones(64))), And(high, Not(Ones(64))))
    else (And(low, if ind / 64 != 0 then Not(Ones(64)) else Shl(Ones(64), ind % 64)),
          And(high, Shl(Ones(64), if ind / 64 != 0 then ind - 64 else 0)))
  }

  /** The shift count of the low word would be 64 for ind 0, which C leaves undefined: callers pass at least 1. */
  function Or128(low: Quad, high: Quad, ind: nat): (Quad, Quad)
    requires 0 < ind <= 128
  {
    if ind == 128 then (Ones(64), Ones(64))
    else (Or(low, if ind / 64 != 0 then Ones(64) else Shr(Ones(64), 64 - ind % 64)),
          Or(high, if ind / 64 != 0 then (if ind % 64 != 0 then Shr(Ones(64), 64 - (ind - 64)) else Zeros(64)) else Zeros(64)))
  }

  function Put64(w: Quad, ind: nat, value: bool): Quad {
    if ind > 63 then w
    else if value then Or(w, Shl(One(64), ind)) else And(w, Not(Shl(One(64), ind)))
  }

  /** set128 and clean128: a bit above 63 is left alone in the low word. */
  function Put128(c: Cache, ind: nat, value: bool): Cache {
    if ind > 127 then c
    else Put64(Low(c), ind, value) + if ind / 64 != 0 then Put64(High(c), ind - 64, value) else High(c)
  }

  /** Bsf128 is the scan of all 128 bits. */
  lemma Bsf128Scans(low: Quad, high: Quad)
    ensures Bsf128(low, high) == LowestFrom(Join(low, high), 0)
  {
    var both := Join(low, high);
    var i, j := Bsf128(low, high), LowestFrom(both, 0);
    assert i < 128 ==> both[i];
    assert forall k :: 0 <= k < 64 ==> both[k] == low[k];
    assert forall k :: 64 <= k < 128 ==> both[k] == high[k - 64];
    assert forall k :: 0 <= k < i ==> !both[k];
  }

  /** mask128 drops the bits below ind and keeps the others. */
  lemma Mask128Drops(low: Quad, high: Quad, ind: nat, i: nat)
    requires ind <= 128 && i < 128
    ensures var (l, h) := Mask128(low, high, ind); Join(l, h)[i] == (ind <= i && Join(low, high)[i])
  {
  }

  /** Or128 sets the bits below ind and keeps the others. */
  lemma Or128Sets(low: Quad, high: Quad, ind: nat, i: nat)
    requires 0 < ind <= 128 && i < 128
    ensures var (l, h) := Or128(low, high, ind); Join(l, h)[i] == (i < ind || Join(low, high)[i])
  {
  }

  /** set128 and clean128 write one bit. */
  lemma Put128Puts(c: Cache, ind: nat, value: bool)
    requires ind < 128
    ensures Put128(c, ind, value) == c[ind := value]
  {
    var r := Put128(c, ind, value);
    assert forall i :: 0 <= i < 64 ==> r[i] == Put64(Low(c), ind, value)[i];
  }

  // ----- runs of slots -----

  /** Slots [lo, lo + n) overwritten. */
  function Fill(c: seq<bool>, lo: nat, n: nat, value: bool): (r: seq<bool>)
    requires lo + n <= |c|
    ensures |r| == |c|
  {
    seq(|c|, i requires 0 <= i < |c| => if lo <= i < lo + n then value else c[i])
  }

  lemma FillAppend(c: seq<bool>, lo: nat, n: nat, m: nat, value: bool)
    requires lo + n + m <= |c|
    ensures Fill(Fill(c, lo, n, value), lo + n, m, value) == Fill(c, lo, n + m, value)
  {
  }

  lemma FillOne(c: seq<bool>, lo: nat, value: bool)
    requires lo < |c|
    ensures Fill(c, lo, 1, value) == c[lo := value]
  {
  }

  predicate Clear(c: seq<bool>, lo: nat, n: nat) {
    lo + n <= |c| && forall i :: lo <= i < lo + n ==> !c[i]
  }

  /** Giving slots back undoes taking them. */
  lemma FillUndone(c: seq<bool>, lo: nat, n: nat)
    requires Clear(c, lo, n)
    ensures Fill(Fill(c, lo, n, true), lo, n, false) == c
  {
  }

  /** What find_objs looks for. */
  ghost predicate FirstRun(c: Cache, req: nat, r: Option<nat>) {
    match r
    case Some(sc) => Clear(c, sc, req) && forall s: nat :: s < sc ==> !Clear(c, s, req)
    case None => forall s: nat :: !Clear(c, s, req)
  }

  /** One turn of the scan: everything below k is known to start no run, ind is the next clear bit, ind2 the next set
      bit after it. */
  lemma ScanStep(c: Cache, req: nat, k: nat, ind: nat, ind2: nat)
    requires k <= ind < ind2 <= 128 && req > 0
    requires forall s: nat :: s < k ==> !Clear(c, s, req)
    requires forall i :: k <= i < ind ==> c[i]
    requires forall i :: ind <= i < ind2 ==> !c[i]
    requires ind2 < 128 ==> c[ind2]
    ensures ind2 - ind >= req ==> FirstRun(c, req, Some(ind))
    ensures ind2 - ind < req ==> forall s: nat :: s < ind2 ==> !Clear(c, s, req)
  {
    forall s: nat | k <= s < ind ensures !Clear(c, s, req) { assert c[s]; }
    if ind2 - ind < req {
      forall s: nat | ind <= s < ind2 ensures !Clear(c, s, req) {
        if ind2 < 128 { assert c[ind2]; }
      }
    }
  }

  /** The scan's copies of the words: the cache with everything below k set. */
  ghost predicate RuledOut(c: Cache, low: Quad, high: Quad, k: nat) {
    forall i :: 0 <= i < 128 ==> Join(low, high)[i] == (i < k || c[i])
  }

  lemma FindClear(c: Cache, low: Quad, high: Quad, k: nat)
    requires RuledOut(c, low, high, k) && k <= 128
    ensures var ind := Bsf128(Not(low), Not(high));
            && k <= ind <= 128 && (ind < 128 ==> !c[ind]) && forall i :: k <= i < ind ==> c[i]
  {
    var l, h := Not(low), Not(high);
    Bsf128Scans(l, h);
    assert forall i :: 0 <= i < 128 ==> Join(l, h)[i] == !Join(low, high)[i];
    assert forall i :: k <= i < Bsf128(l, h) ==> !Join(l, h)[i];
  }

  /** The copies after mask128: everything below ind cleared. */
  ghost predicate Masked(c: Cache, low: Quad, high: Quad, ind: nat) {
    forall i :: 0 <= i < 128 ==> Join(low, high)[i] == (ind <= i && c[i])
  }

  lemma MaskStep(c: Cache, low: Quad, high: Quad, k: nat, ind: nat)
    requires RuledOut(c, low, high, k) && k <= ind < 128
    ensures Masked(c, Mask128(low, high, ind).0, Mask128(low, high, ind).1, ind)
  {
    forall i: nat | i < 128
      ensures Join(Mask128(low, high, ind).0, Mask128(low, high, ind).1)[i] == (ind <= i && c[i])
    {
      Mask128Drops(low, high, ind, i);
    }
  }

  lemma FindSet(c: Cache, low: Quad, high: Quad, ind: nat)
    requires Masked(c, low, high, ind) && ind < 128 && !c[ind]
    ensures var ind2 := Bsf128(low, high);
            && ind < ind2 <= 128 && (ind2 < 128 ==> c[ind2]) && forall i :: ind <= i < ind2 ==> !c[i]
  {
    Bsf128Scans(low, high);
    var both := Join(low, high);
    assert forall i :: 0 <= i < Bsf128(low, high) ==> !both[i];
  }

  lemma OrStep(c: Cache, low: Quad, high: Quad, ind: nat, ind2: nat)
    requires Masked(c, low, high, ind) && ind < ind2 <= 128
    ensures RuledOut(c, Or128(low, high, ind2).0, Or128(low, high, ind2).1, ind2)
  {
    forall i: nat | i < 128
      ensures Join(Or128(low, high, ind2).0, Or128(low, high, ind2).1)[i] == (i < ind2 || c[i])
    {
      Or128Sets(low, high, ind2, i);
    }
  }

  // ----- live requests -----

  /** The request at sc holds slot i. */
  predicate Covers(live: map<nat, nat>, sc: nat, i: nat) { sc in live && sc <= i < sc + live[sc] }

  /** A slot is set exactly when a live request holds it, and no two requests do. */
  ghost predicate Held(c: Cache, live: map<nat, nat>, i: nat) {
    i < 128 ==>
      && (c[i] <==> exists sc: nat :: Covers(live, sc, i))
      && forall a: nat, b: nat :: Covers(live, a, i) && Covers(live, b, i) ==> a == b
  }

  ghost predicate Ledger(c: Cache, live: map<nat, nat>) {
    && (forall sc :: sc in live ==> live[sc] > 0 && sc + live[sc] <= 128)
    && forall i: nat {:trigger Held(c, live, i)} :: Held(c, live, i)
  }

  ghost function SizeSum(live: map<nat, nat>): nat {
    if live == map[] then 0 else
      var sc: nat :| sc in live;
      live[sc] + SizeSum(live - {sc})
  }

  lemma {:induction false} SizeSumAdd(live: map<nat, nat>, sc: nat, n: nat)
    requires sc !in live
    ensures SizeSum(live[sc := n]) == SizeSum(live) + n
    decreases |live|
  {
    var all := live[sc := n];
    assert sc in all;
    var k: nat :| k in all && SizeSum(all) == all[k] + SizeSum(all - {k});
    if k == sc {
      assert all - {k} == live;
    } else {
      assert all - {k} == (live - {k})[sc := n] && (live - {k})[k := live[k]] == live;
      SizeSumAdd(live - {k}, sc, n);
      SizeSumAdd(live - {k}, k, live[k]);
    }
  }

  /** The number of set slots. */
  function Count(c: seq<bool>): nat {
    if c == [] then 0 else Count(c[..|c| - 1]) + if c[|c| - 1] then 1 else 0
  }

  lemma {:induction false} CountPut(c: seq<bool>, i: nat, value: bool)
    requires i < |c|
    ensures Count(c[i := value]) == Count(c) - (if c[i] then 1 else 0) + if value then 1 else 0
  {
    var m := |c| - 1;
    if i < m {
      CountPut(c[..m], i, value);
      assert c[i := value][..m] == c[..m][i := value];
    } else {
      assert c[i := value][..m] == c[..m];
    }
  }

  lemma {:induction false} CountFill(c: seq<bool>, lo: nat, n: nat)
    requires Clear(c, lo, n)
    ensures Count(Fill(c, lo, n, true)) == Count(c) + n
    decreases n
  {
    if n == 0 {
      assert Fill(c, lo, n, true) == c;
    } else {
      CountFill(c, lo, n - 1);
      FillAppend(c, lo, n - 1, 1, true);
      FillOne(Fill(c, lo, n - 1, true), lo + n - 1, true);
      CountPut(Fill(c, lo, n - 1, true), lo + n - 1, true);
    }
  }

  lemma TakeHeld(c: Cache, live: map<nat, nat>, sc: nat, req: nat, i: nat)
    requires Ledger(c, live) && Clear(c, sc, req) && req > 0
    ensures sc !in live && Held(Fill(c, sc, req, true), live[sc := req], i)
  {
    var c', live' := Fill(c, sc, req, true), live[sc := req];
    assert Held(c, live, sc) && Held(c, live, i);
    assert sc in live ==> Covers(live, sc, sc);
    if i < 128 {
      forall a: nat ensures Covers(live', a, i) <==> Covers(live, a, i) || (a == sc && sc <= i < sc + req) {}
      if c'[i] {
        if sc <= i < sc + req {
          assert Covers(live', sc, i);
        } else {
          var a: nat :| Covers(live, a, i);
          assert Covers(live', a, i);
        }
      }
    }
  }

  lemma TakeKeeps(c: Cache, live: map<nat, nat>, sc: nat, req: nat)
    requires Ledger(c, live) && Clear(c, sc, req) && req > 0
    ensures sc !in live && Ledger(Fill(c, sc, req, true), live[sc := req])
    ensures SizeSum(live[sc := req]) == SizeSum(live) + req
    ensures Count(Fill(c, sc, req, true)) == Count(c) + req
  {
    TakeHeld(c, live, sc, req, sc);
    var c', live' := Fill(c, sc, req, true), live[sc := req];
    forall i: nat ensures Held(c', live', i) { TakeHeld(c, live, sc, req, i); }
    SizeSumAdd(live, sc, req);
    CountFill(c, sc, req);
  }

  lemma GiveHeld(c: Cache, live: map<nat, nat>, sc: nat, i: nat)
    requires Ledger(c, live) && sc in live
    ensures Held(Fill(c, sc, live[sc], false), live - {sc}, i)
    ensures sc <= i < sc + live[sc] ==> c[i]
  {
    var c', live' := Fill(c, sc, live[sc], false), live - {sc};
    assert Held(c, live, i);
    if i < 128 {
      forall a: nat ensures Covers(live', a, i) <==> Covers(live, a, i) && a != sc {}
      if sc <= i < sc + live[sc] { assert Covers(live, sc, i); }
      if c'[i] {
        var a: nat :| Covers(live, a, i);
        assert Covers(live', a, i);
      }
    }
  }

  lemma GiveKeeps(c: Cache, live: map<nat, nat>, sc: nat)
    requires Ledger(c, live) && sc in live
    ensures Ledger(Fill(c, sc, live[sc], false), live - {sc})
    ensures SizeSum(live) == SizeSum(live - {sc}) + live[sc]
    ensures Count(c) == Count(Fill(c, sc, live[sc], false)) + live[sc]
  {
    var n := live[sc];
    var c', live' := Fill(c, sc, n, false), live - {sc};
    forall i: nat ensures Held(c', live', i) && (sc <= i < sc + n ==> c[i]) { GiveHeld(c, live, sc, i); }
    assert (live - {sc})[sc := n] == live;
    SizeSumAdd(live - {sc}, sc, n);
    assert Fill(Fill(c, sc, n, false), sc, n, true) == c;
    CountFill(Fill(c, sc, n, false), sc, n);
  }

  lemma {:induction false} CountNone(c: seq<bool>)
    requires forall i :: 0 <= i < |c| ==> !c[i]
    ensures Count(c) == 0
  {
    if c != [] {
      CountNone(c[..|c| - 1]);
    }
  }

  lemma {:induction false} CountAtMost(c: seq<bool>)
    ensures Count(c) <= |c|
  {
    if c != [] {
      CountAtMost(c[..|c| - 1]);
    }
  }

  /** With fewer clear slots than asked for there is no run of them. */
  lemma NoRoom(c: Cache, req: nat)
    requires 128 - Count(c) < req
    ensures forall s: nat :: !Clear(c, s, req)
  {
    forall s: nat ensures !Clear(c, s, req) {
      if Clear(c, s, req) {
        CountFill(c, s, req);
        CountAtMost(Fill(c, s, req, true));
      }
    }
  }

  /** What find_objs reports: the first slot and its address. */
  datatype Found = Found(sc: nat, addr: nat)

  class SlabObject {
    var cache: Cache
    var freeObs: int
    ghost var live: map<nat, nat>

    /** The set slots are those of the live requests, which do not overlap, and FreeObs counts the others. */
    ghost predicate Valid()
      reads this
    {
      && Ledger(cache, live)
      && Count(cache) == SizeSum(live) == 128 - freeObs
    }

    constructor ()
      ensures Valid() && live == map[] && freeObs == 128
    {
      cache, freeObs, live := Zeros(128), 128, map[];
      new;
      CountNone(cache);
    }

    /** The scan loop of find_objs, on copies of the two words in which what is ruled out gets set. */
    method FindRun(req: nat) returns (r: Option<nat>)
      requires req > 0
      ensures FirstRun(cache, req, r)
    {
      var low: Quad, high: Quad := Low(cache), High(cache);
      ghost var k: nat := 0;
      assert Join(low, high) == cache;
      var ind := Bsf128(Not(low), Not(high));
      FindClear(cache, low, high, k);
      while ind < 128
        invariant k <= 128 && RuledOut(cache, low, high, k)
        invariant forall s: nat :: s < k ==> !Clear(cache, s, req)
        invariant k <= ind <= 128 && (ind < 128 ==> !cache[ind]) && forall i :: k <= i < ind ==> cache[i]
        decreases 128 - k
      {
        MaskStep(cache, low, high, k, ind);
        var masked := Mask128(low, high, ind);
        FindSet(cache, masked.0, masked.1, ind);
        var ind2 := Bsf128(masked.0, masked.1);
        ScanStep(cache, req, k, ind, ind2);
        if ind2 - ind >= req {
          return Some(ind);
        }
        OrStep(cache, masked.0, masked.1, ind, ind2);
        var raised := Or128(masked.0, masked.1, ind2);
        low, high := raised.0, raised.1;
        k := ind2;
        ind := Bsf128(Not(low), Not(high));
        FindClear(cache, low, high, k);
      }
      forall s: nat ensures !Clear(cache, s, req) {
        if k <= s < 128 { assert cache[s]; }
      }
      return None;
    }

    /** One store of `width` bits through a pointer to the byte that holds slot `sc`. */
    method Store(sc: nat, width: nat, value: bool)
      requires sc / 8 * 8 + width <= 128
      modifies this`cache
      ensures cache == Fill(old(cache), sc / 8 * 8, width, value)
    {
      cache := Fill(cache, sc / 8 * 8, width, value);
    }

    /** `count` stores side by side, as one for loop over a pointer of that width does them. */
    method StoreMany(sc: nat, width: nat, count: nat, value: bool)
      requires sc % 8 == 0 && width in {8, 16, 32, 64} && sc + Times(width, count) <= 128
      modifies this`cache
      ensures cache == Fill(old(cache), sc, Times(width, count), value)
    {
      assert cache == Fill(cache, sc, 0, value);
      ghost var was := cache;
      for i := 0 to count
        invariant cache == Fill(was, sc, Times(width, i), value)
      {
        TimesStep(sc, width, i, count);
        Store(sc + Times(width, i), width, value);
        FillAppend(was, sc, Times(width, i), width, value);
      }
    }

    /** Bit by bit. */
    method PutMany(sc: nat, count: nat, value: bool)
      requires sc + count <= 128
      modifies this`cache
      ensures cache == Fill(old(cache), sc, count, value)
    {
      assert cache == Fill(cache, sc, 0, value);
      ghost var was := cache;
      for i := sc to sc + count
        invariant cache == Fill(was, sc, i - sc, value)
      {
        Put128Puts(cache, i, value);
        FillOne(cache, i, value);
        FillAppend(was, sc, i - sc, 1, value);
        cache := Put128(cache, i, value);
      }
    }

    /** The marking half of find_objs (value true) and clean_cache (value false): whatever the alignment and the
        widths used, exactly the slots [sc, sc + req) are written. */
    method Mark(sc: nat, req: nat, value: bool)
      requires sc + req <= 128
      modifies this`cache
      ensures cache == Fill(old(cache), sc, req, value)
    {
      if sc % 8 != 0 && req / 8 == 0 {
        PutMany(sc, req, value);
        return;
      }
      var at: nat, left: nat := sc, req;
      ghost var was := cache;
      assert cache == Fill(was, sc, 0, value);
      while at % 8 != 0 && left > 0
        invariant sc <= at && at + left == sc + req
        invariant cache == Fill(was, sc, at - sc, value)
        decreases left
      {
        PutMany(at, 1, value);
        FillAppend(was, sc, at - sc, 1, value);
        at, left := at + 1, left - 1;
      }
      if left > 0 {
        MarkAligned(at, left, value);
        FillAppend(was, sc, at - sc, left, value);
      }
    }

    /** The widest stores first; single bits for the rest. */
    method MarkAligned(sc: nat, req: nat, value: bool)
      requires sc % 8 == 0 && sc + req <= 128
      modifies this`cache
      ensures cache == Fill(old(cache), sc, req, value)
    {
      var at: nat, left: nat := sc, req;
      ghost var was := cache;
      assert cache == Fill(was, sc, 0, value);
      while left > 0
        invariant sc <= at && at + left == sc + req && (left > 0 ==> at % 8 == 0)
        invariant cache == Fill(was, sc, at - sc, value)
        decreases left
      {
        var width, count := Chunk(left);
        var bits := Times(width, count);
        FillAppend(was, sc, at - sc, bits, value);
        if width == 1 {
          PutMany(at, count, value);
        } else {
          StoreMany(at, width, count, value);
          TimesAligned(at, width, count);
        }
        at, left := at + bits, left - bits;
      }
    }

    /** find_objs: the lowest run of `req` clear slots is taken; without `creq` only an untouched slab will do. */
    method FindObjs(req: nat, base: nat, creq: bool) returns (r: Option<Found>)
      modifies this`cache
      ensures r.Some? <==> req != 0 && (creq || Clear(old(cache), 0, 128)) &&
                           exists s: nat :: Clear(old(cache), s, req)
      ensures r.Some? ==> FirstRun(old(cache), req, Some(r.value.sc)) && r.value.addr == base + 32 * r.value.sc
      ensures cache == if r.Some? then Fill(old(cache), r.value.sc, req, true) else old(cache)
    {
      if req == 0 {
        return None;
      }
      if !creq && !(Low(cache) == Zeros(64) && High(cache) == Zeros(64)) {
        assert cache == Low(cache) + High(cache);
        return None;
      }
      assert cache == Low(cache) + High(cache);
      var sc := FindRun(req);
      if sc.None? {
        return None;
      }
      r := Some(Found(sc.value, base + 32 * sc.value));
      Mark(sc.value, req, true);
    }

    /** clean_cache. */
    method CleanCache(req: nat, sc: nat)
      requires sc + req <= 128
      modifies this`cache
      ensures cache == Fill(old(cache), sc, req, false)
    {
      Mark(sc, req, false);
    }

    /** kmalloc's use of a slab: taken from FreeObs if it may fit, then searched for. */
    method Take(req: nat, base: nat) returns (r: Option<Found>)
      requires Valid() && req > 0
      modifies this
      ensures Valid()
      ensures r.Some? <==> exists s: nat :: Clear(old(cache), s, req)
      ensures r.Some? ==> FirstRun(old(cache), req, Some(r.value.sc)) && r.value.addr == base + 32 * r.value.sc
      ensures r.Some? ==> r.value.sc !in old(live) && live == old(live)[r.value.sc := req] && freeObs == old(freeObs) - req
      ensures r.None? ==> live == old(live) && cache == old(cache) && freeObs == old(freeObs)
    {
      if freeObs - req < 0 {
        NoRoom(cache, req);
        return None;
      }
      ghost var was := cache;
      r := FindObjs(req, base, true);
      if r.Some? {
        TakeKeeps(was, live, r.value.sc, req);
        freeObs := freeObs - req;
        live := live[r.value.sc := req];
      }
    }

    /** And its way back. */
    method Give(sc: nat, req: nat)
      requires Valid() && sc in live && live[sc] == req
      modifies this
      ensures Valid() && live == old(live) - {sc} && freeObs == old(freeObs) + req
      ensures cache == Fill(old(cache), sc, req, false)
    {
      GiveKeeps(cache, live, sc);
      CleanCache(req, sc);
      freeObs := freeObs + req;
      live := live - {sc};
    }
  }

  /** width * count, for the widths that occur. */
  function Times(width: nat, count: nat): nat {
    if width == 64 then 64 * count else if width == 32 then 32 * count
    else if width == 16 then 16 * count else if width == 8 then 8 * count else count
  }

  lemma TimesAligned(at: nat, width: nat, count: nat)
    requires at % 8 == 0 && width in {8, 16, 32, 64}
    ensures (at + Times(width, count)) % 8 == 0
  {
    Multiple(at, if width == 64 then 8 * count else if width == 32 then 4 * count else if width == 16 then 2 * count else count);
  }

  lemma Multiple(at: nat, q: nat)
    requires at % 8 == 0
    ensures (at + 8 * q) % 8 == 0
  {
    var k := at / 8 + q;
    assert at + 8 * q == 8 * k;
    MultipleOfEight(k);
  }

  lemma MultipleOfEight(k: nat)
    ensures 8 * k % 8 == 0
  {}

  lemma TimesStep(sc: nat, width: nat, i: nat, count: nat)
    requires sc % 8 == 0 && width in {8, 16, 32, 64} && i < count
    ensures (sc + Times(width, i)) / 8 * 8 == sc + Times(width, i)
    ensures Times(width, i + 1) == Times(width, i) + width <= Times(width, count)
  {
    TimesAligned(sc, width, i);
  }

  /** The widest store that fits, and how many of them: 64, 32, 16 or 8 bits, else single bits. */
  method Chunk(left: nat) returns (width: nat, count: nat)
    requires left > 0
    ensures width in {1, 8, 16, 32, 64} && 0 < Times(width, count) <= left && left - Times(width, count) < width
    ensures width == 1 ==> left < 8
  {
    if left / 64 > 0 {
      width, count := 64, left / 64;
    } else if left / 32 > 0 {
      width, count := 32, left / 32;
    } else if left / 16 > 0 {
      width, count := 16, left / 16;
    } else if left / 8 > 0 {
      width, count := 8, left / 8;
    } else {
      width, count := 1, left % 8;
    }
  }
}
