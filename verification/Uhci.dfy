// The control transfers of uhci.cpp: the chain of data transfer descriptors (UHCI Design Guide 1.1, section 3.2) and
// the loop that waits for a controller working on it.
module Uhci {
  const BIT17 := 0x2_0000
  const BIT21 := 0x20_0000
  const ACTIVE := 0x80_0000
  const SPD := 0x2000_0000
  const TD_SIZE := 32
  const PTR_DEPTH := 4

  /** The words of a transfer descriptor the controller reads; it rewrites status. */
  datatype Td = Td(link: nat, status: nat, token: nat, buffer: nat)

  // ----- lengths -----

  /** Lengths are stored less one, and 0 as 0x7FF. */
  function EncodeLength(length: nat): nat { if length == 0 then 0x7FF else length - 1 }

  function ActualLength(status: nat): nat { (status % 0x800 + 1) % 0x800 }

  function MaxLength(token: nat): nat { (token / BIT21 % 0x800 + 1) % 0x800 }

  predicate Active(status: nat) { status / ACTIVE % 2 == 1 }

  predicate ShortPacketDetect(status: nat) { status / SPD % 2 == 1 }

  /** uhci_td_failed: retired with one of the six error bits. */
  predicate Failed(status: nat) { !Active(status) && status / BIT17 % 64 != 0 }

  function Token(pid: nat, address: nat, toggle: nat, length: nat): nat {
    pid + address * 0x100 + toggle * 0x8_0000 + EncodeLength(length) * BIT21
  }

  /** The token's length and toggle can be read back. */
  lemma TokenFields(pid: nat, address: nat, toggle: nat, length: nat)
    requires pid < 0x100 && address < 0x80 && toggle < 2 && length < 0x800
    ensures MaxLength(Token(pid, address, toggle, length)) == length
    ensures Token(pid, address, toggle, length) / 0x8_0000 % 2 == toggle
  {
    var low := pid + address * 0x100;
    var e := EncodeLength(length);
    assert Token(pid, address, toggle, length) == (low + toggle * 0x8_0000) + e * BIT21;
    assert Token(pid, address, toggle, length) / BIT21 == e;
    assert Token(pid, address, toggle, length) / 0x8_0000 == toggle + 4 * e;
  }

  // ----- the data stage -----

  function Min(a: nat, b: nat): nat { if a < b then a else b }

  /** The number of data descriptors. */
  function Count(length: nat, mps: nat): nat
    requires mps > 0
  {
    (length + mps - 1) / mps
  }

  /** What the i-th one moves: [i * mps, i * mps + Chunk) of the buffer. */
  function Chunk(length: nat, mps: nat, i: nat): nat {
    if i * mps <= length then Min(length - i * mps, mps) else 0
  }

  /** Where it starts, or the end of the buffer. */
  function Offset(length: nat, mps: nat, i: nat): nat { Min(i * mps, length) }

  lemma CountCovers(length: nat, mps: nat)
    requires mps > 0
    ensures length <= Count(length, mps) * mps
    ensures Count(length, mps) > 0 ==> (Count(length, mps) - 1) * mps < length
  {
    var x := length + mps - 1;
    assert x == x / mps * mps + x % mps;
    assert (x / mps - 1) * mps == x / mps * mps - mps;
  }

  lemma Less(i: nat, j: nat, mps: nat)
    requires i <= j
    ensures i * mps <= j * mps
  {}

  /** The chunks are not empty, at most one packet long, and each ends where the next one starts or at the end. */
  lemma ChunksPartition(length: nat, mps: nat, i: nat)
    requires mps > 0 && i < Count(length, mps)
    ensures i * mps < length && 0 < Chunk(length, mps, i) <= mps
    ensures i * mps + Chunk(length, mps, i) == if i + 1 < Count(length, mps) then (i + 1) * mps else length
  {
    var n := Count(length, mps);
    CountCovers(length, mps);
    Less(i, n - 1, mps);
    assert (i + 1) * mps == i * mps + mps;
    if i + 1 < n {
      Less(i + 1, n - 1, mps);
    }
  }

  lemma ChunkEnds(length: nat, mps: nat, i: nat)
    requires mps > 0 && i < Count(length, mps)
    ensures Min(i * mps, length) + Chunk(length, mps, i) == Min((i + 1) * mps, length)
  {
    ChunksPartition(length, mps, i);
    if i + 1 < Count(length, mps) {
      ChunksPartition(length, mps, i + 1);
    } else {
      CountCovers(length, mps);
    }
  }

  /** The loop's variables at the i-th chunk. */
  lemma NextChunk(length: nat, mps: nat, i: nat, offset: nat)
    requires mps > 0 && i < Count(length, mps) && offset == Offset(length, mps, i)
    ensures offset == i * mps < length && offset + Chunk(length, mps, i) == Offset(length, mps, i + 1)
    ensures Chunk(length, mps, i) == if length - offset < mps then length - offset else mps
  {
    ChunksPartition(length, mps, i);
    ChunkEnds(length, mps, i);
  }

  function Sum(s: seq<nat>): nat {
    if s == [] then 0 else Sum(s[..|s| - 1]) + s[|s| - 1]
  }

  /** Together they move the whole buffer. */
  lemma {:induction false} ChunksAddUp(length: nat, mps: nat, requested: seq<nat>)
    requires mps > 0 && |requested| <= Count(length, mps)
    requires forall i :: 0 <= i < |requested| ==> requested[i] == Chunk(length, mps, i)
    ensures Sum(requested) == Min(|requested| * mps, length)
    decreases |requested|
  {
    if requested != [] {
      var m := |requested| - 1;
      ChunksAddUp(length, mps, requested[..m]);
      ChunkEnds(length, mps, m);
    }
  }

  /** What a data descriptor says: where its chunk lies, how long it is, the toggle, and the next descriptor. All but
      the last one ask for short packets to be detected. */
  predicate DataTd(td: Td, i: nat, length: nat, mps: nat, dataPhys: nat, statusPhys: nat, descPhys: nat)
    requires mps > 0
  {
    var last := i + 1 == Count(length, mps);
    && td.buffer == descPhys + i * mps && MaxLength(td.token) == Chunk(length, mps, i)
    && td.token / 0x8_0000 % 2 == (i + 1) % 2
    && td.link == (if last then statusPhys else dataPhys + (i + 1) * TD_SIZE) + PTR_DEPTH
    && Active(td.status) && (ShortPacketDetect(td.status) <==> !last)
  }

  lemma StatusOf(lowSpeed: nat, last: bool)
    requires lowSpeed == 0 || lowSpeed == 0x400_0000
    ensures var s := ACTIVE + 3 * 0x800_0000 + lowSpeed + if last then 0 else SPD;
            Active(s) && (ShortPacketDetect(s) <==> !last)
  {}

  /** One data descriptor. */
  method FillTd(i: nat, last: bool, chunk: nat, offset: nat, toggle: nat, dataPhys: nat, statusPhys: nat, descPhys: nat,
                address: nat, lowSpeed: nat, ghost length: nat, ghost mps: nat)
    returns (td: Td)
    requires 0 < mps < 0x800 && address < 0x80 && (lowSpeed == 0 || lowSpeed == 0x400_0000)
    requires last == (i + 1 == Count(length, mps)) && toggle == (i + 1) % 2
    requires offset == i * mps && chunk == Chunk(length, mps, i)
    ensures DataTd(td, i, length, mps, dataPhys, statusPhys, descPhys)
  {
    TokenFields(0x69, address, toggle, chunk);
    StatusOf(lowSpeed, last);
    td := Td(if last then statusPhys + PTR_DEPTH else dataPhys + (i + 1) * TD_SIZE + PTR_DEPTH,
             ACTIVE + 3 * 0x800_0000 + lowSpeed + if last then 0 else SPD,
             Token(0x69, address, toggle, chunk), descPhys + offset);
  }

  /** The loop that fills the data descriptors. Link addresses have their low four bits clear. */
  method BuildDataTds(length: nat, mps: nat, dataPhys: nat, statusPhys: nat, descPhys: nat, address: nat, lowSpeed: nat)
    returns (tds: seq<Td>)
    requires 0 < mps < 0x800 && address < 0x80 && (lowSpeed == 0 || lowSpeed == 0x400_0000)
    ensures |tds| == Count(length, mps)
    ensures forall i :: 0 <= i < |tds| ==> DataTd(tds[i], i, length, mps, dataPhys, statusPhys, descPhys)
  {
    var count := (length + mps - 1) / mps;
    var offset, toggle: nat := 0, 1;
    tds := [];
    for i := 0 to count
      invariant |tds| == i && offset == Offset(length, mps, i) && toggle == (i + 1) % 2
      invariant forall j {:trigger DataTd(tds[j], j, length, mps, dataPhys, statusPhys, descPhys)} ::
        0 <= j < i ==> DataTd(tds[j], j, length, mps, dataPhys, statusPhys, descPhys)
    {
      var td, chunk := NextTd(i, count, offset, toggle, length, mps, dataPhys, statusPhys, descPhys, address, lowSpeed);
      tds := tds + [td];
      Alternates(i, toggle);
      offset, toggle := offset + chunk, 1 - toggle;
    }
  }

  lemma Alternates(i: nat, toggle: nat)
    requires toggle == (i + 1) % 2
    ensures 0 <= 1 - toggle == (i + 1 + 1) % 2
  {
  }

  /** One turn: the descriptor and the length of its chunk. */
  method NextTd(i: nat, count: nat, offset: nat, toggle: nat, length: nat, mps: nat, dataPhys: nat, statusPhys: nat, descPhys: nat,
                address: nat, lowSpeed: nat)
    returns (td: Td, chunk: nat)
    requires 0 < mps < 0x800 && address < 0x80 && (lowSpeed == 0 || lowSpeed == 0x400_0000)
    requires i < count == Count(length, mps) && offset == Offset(length, mps, i) && toggle == (i + 1) % 2
    ensures DataTd(td, i, length, mps, dataPhys, statusPhys, descPhys) && offset + chunk == Offset(length, mps, i + 1)
  {
    NextChunk(length, mps, i, offset);
    var remaining := length - offset;
    chunk := if remaining < mps then remaining else mps;
    td := FillTd(i, i == count - 1, chunk, offset, toggle, dataPhys, statusPhys, descPhys, address, lowSpeed, length, mps);
  }

  // ----- the controller -----

  /** What the controller will do: the bytes each data descriptor moves, the first of its descriptors that fails
      (counting set-up as 0), and how many it has retired at each moment, in order. */
  datatype Controller = Controller(actual: seq<nat>, fails: nat, retired: seq<nat>)

  /** The data descriptors it executes: up to the first that comes short and detects it. */
  function Executed(actual: seq<nat>, requested: seq<nat>, from: nat): (m: nat)
    requires |actual| == |requested| && from <= |actual|
    ensures from <= m <= |actual|
    decreases |actual| - from
  {
    if from == |actual| then from
    else if from + 1 < |actual| && actual[from] < requested[from] then from + 1
    else Executed(actual, requested, from + 1)
  }

  /** Descriptors are retired in order, none after one that failed, and none with more bytes than it asked for. */
  ghost predicate InOrder(c: Controller, requested: seq<nat>) {
    && |c.actual| == |requested|
    && (forall i :: 0 <= i < |requested| ==> c.actual[i] <= requested[i] < 0x800)
    && (forall s, t :: 0 <= s <= t < |c.retired| ==> c.retired[s] <= c.retired[t])
    && (forall t :: 0 <= t < |c.retired| ==>
          c.retired[t] <= Executed(c.actual, requested, 0) + 2 && c.retired[t] <= c.fails + 1)
  }

  /** The status word of the descriptor that is the k-th to be executed. */
  function StatusWord(c: Controller, t: nat, k: nat, spd: bool, actual: nat): nat
    requires t < |c.retired|
  {
    EncodeLength(actual)
    + (if c.retired[t] <= k then ACTIVE else if c.fails == k then BIT17 else 0) + if spd then SPD else 0
  }

  lemma StatusFields(c: Controller, t: nat, k: nat, spd: bool, actual: nat)
    requires t < |c.retired| && actual < 0x800
    ensures var s := StatusWord(c, t, k, spd, actual);
            && ActualLength(s) == actual && (Active(s) <==> c.retired[t] <= k)
            && (Failed(s) <==> c.retired[t] > k && c.fails == k) && (ShortPacketDetect(s) <==> spd)
  {
    var n := EncodeLength(actual);
    if c.retired[t] <= k {
      StatusBits(n, ACTIVE, spd);
    } else if c.fails == k {
      StatusBits(n, BIT17, spd);
    } else {
      StatusBits(n, 0, spd);
    }
  }

  lemma StatusBits(n: nat, flag: nat, spd: bool)
    requires n < 0x800 && (flag == 0 || flag == ACTIVE || flag == BIT17)
    ensures var s := n + flag + if spd then SPD else 0;
            && s % 0x800 == n && (Active(s) <==> flag == ACTIVE) && (Failed(s) <==> flag == BIT17)
            && (ShortPacketDetect(s) <==> spd)
  {
  }

  /** A read of the i-th data descriptor's status: beyond a detected short packet it stays active. */
  function DataStatus(c: Controller, requested: seq<nat>, t: nat, i: nat): nat
    requires t < |c.retired| && i < |c.actual| == |requested|
  {
    if i < Executed(c.actual, requested, 0)
    then StatusWord(c, t, i + 1, i + 1 < |c.actual|, c.actual[i])
    else EncodeLength(0) + ACTIVE + if i + 1 < |c.actual| then SPD else 0
  }

  lemma {:induction false} ExecutedFrom(actual: seq<nat>, requested: seq<nat>, i: nat)
    requires |actual| == |requested| && i <= |actual|
    requires forall j :: 0 <= j < i && j + 1 < |actual| ==> actual[j] >= requested[j]
    ensures Executed(actual, requested, 0) == Executed(actual, requested, i)
    decreases i
  {
    if i > 0 {
      ExecutedFrom(actual, requested, i - 1);
    }
  }

  datatype Result = Success | Timeout | TransferError

  /** One pass over the data descriptors. */
  method PollData(c: Controller, requested: seq<nat>, t: nat) returns (failed: bool, short: bool, done: bool, total: nat)
    requires InOrder(c, requested) && t + |requested| < |c.retired|
    ensures failed ==> 1 <= c.fails <= Executed(c.actual, requested, 0)
    ensures !failed && (short || done) ==> total == Sum(c.actual[..Executed(c.actual, requested, 0)])
    ensures short ==> 0 < Executed(c.actual, requested, 0) < |requested|
    ensures !failed && c.retired[t] > Executed(c.actual, requested, 0) ==> short || done
    ensures c.fails > Executed(c.actual, requested, 0) + 1 ==> !failed
  {
    ghost var m := Executed(c.actual, requested, 0);
    total := 0;
    assert c.actual[..0] == [];
    for i := 0 to |requested|
      invariant i <= m && total == Sum(c.actual[..i])
      invariant forall j :: 0 <= j < i && j + 1 < |requested| ==> c.actual[j] >= requested[j]
    {
      ExecutedFrom(c.actual, requested, i);
      var status := DataStatus(c, requested, t + i, i);
      if i < m {
        StatusFields(c, t + i, i + 1, i + 1 < |c.actual|, c.actual[i]);
      }
      if Failed(status) {
        return true, false, false, total;
      }
      if Active(status) {
        return false, false, false, total;
      }
      assert c.actual[..i + 1][..i] == c.actual[..i];
      total := total + ActualLength(status);
      if ShortPacketDetect(status) && ActualLength(status) < requested[i] {
        return false, true, false, total;
      }
    }
    return false, false, true, total;
  }

  /** wait_for_control_transfer: a hundred polls, a millisecond apart. `c.retired` has a moment for every read. The queue
      is restarted at the status descriptor after a short packet. */
  method WaitForControlTransfer(c: Controller, requested: seq<nat>) returns (result: Result, received: nat, restarted: bool)
    requires InOrder(c, requested) && |c.retired| == 100 * (|requested| + 2)
    ensures result == Success ==> received == Sum(c.actual[..Executed(c.actual, requested, 0)])
    ensures result == TransferError ==> c.fails <= Executed(c.actual, requested, 0) + 1
    ensures restarted ==> Executed(c.actual, requested, 0) < |requested|
    ensures c.retired[99 * (|requested| + 2)] == Executed(c.actual, requested, 0) + 2 <= c.fails ==> result == Success
  {
    ghost var m := Executed(c.actual, requested, 0);
    var n := |requested| + 2;
    received, restarted := 0, false;
    var shortPacket := false;
    for elapsed := 0 to 100
      invariant shortPacket ==> received == Sum(c.actual[..m]) && m < |requested|
      invariant restarted == shortPacket
      invariant elapsed == 100 ==> !(c.retired[99 * n] == m + 2 <= c.fails)
    {
      var t := elapsed * n;
      Moments(elapsed, n);
      StatusFields(c, t, 0, false, 7);
      var setup := StatusWord(c, t, 0, false, 7);
      if Failed(setup) {
        return TransferError, received, restarted;
      }
      if Active(setup) {
        continue;
      }
      if !shortPacket {
        var failed, short, done, total := PollData(c, requested, t + 1);
        if failed {
          return TransferError, received, restarted;
        }
        received := total;
        if short {
          restarted, shortPacket := true, true;
        } else if !done {
          continue;
        }
      }
      StatusFields(c, t + n - 1, m + 1, false, 0);
      var status := StatusWord(c, t + n - 1, Executed(c.actual, requested, 0) + 1, false, 0);
      if Failed(status) {
        return TransferError, received, restarted;
      }
      if !Active(status) {
        return Success, received, restarted;
      }
    }
    result := Timeout;
  }

  lemma Moments(elapsed: nat, n: nat)
    requires elapsed < 100 && n > 0
    ensures elapsed * n + n <= 100 * n && (elapsed == 99 ==> elapsed * n == 99 * n)
  {
    Less(elapsed + 1, 100, n);
  }

  lemma {:induction false} SumAtMost(a: seq<nat>, b: seq<nat>)
    requires |a| <= |b| && forall i :: 0 <= i < |a| ==> a[i] <= b[i]
    ensures Sum(a) <= Sum(b)
    decreases |b|
  {
    if b != [] {
      var m := |b| - 1;
      if |a| == |b| {
        SumAtMost(a[..m], b[..m]);
      } else {
        SumAtMost(a, b[..m]);
      }
    }
  }

  /** A whole control transfer with an IN data stage: on success the bytes reported are those moved up to the first short
      packet, and no more than asked for. */
  method ControlTransfer(length: nat, mps: nat, dataPhys: nat, statusPhys: nat, descPhys: nat, address: nat, lowSpeed: nat,
                         c: Controller)
    returns (result: Result, received: nat)
    requires 0 < mps < 0x800 && address < 0x80 && (lowSpeed == 0 || lowSpeed == 0x400_0000)
    requires |c.actual| == Count(length, mps) && |c.retired| == 100 * (Count(length, mps) + 2)
    requires InOrder(c, seq(Count(length, mps), i requires 0 <= i => Chunk(length, mps, i)))
    ensures result == Success ==>
      received == Sum(c.actual[..Executed(c.actual, seq(Count(length, mps), i requires 0 <= i => Chunk(length, mps, i)), 0)])
    ensures result == Success ==> received <= length
  {
    var tds := BuildDataTds(length, mps, dataPhys, statusPhys, descPhys, address, lowSpeed);
    var requested: seq<nat> := seq(|tds|, i requires 0 <= i < |tds| => MaxLength(tds[i].token));
    ghost var chunks := seq(Count(length, mps), i requires 0 <= i => Chunk(length, mps, i));
    assert requested == chunks by {
      forall i | 0 <= i < |tds| ensures requested[i] == chunks[i] {
        assert DataTd(tds[i], i, length, mps, dataPhys, statusPhys, descPhys);
      }
    }
    var restarted;
    result, received, restarted := WaitForControlTransfer(c, requested);
    ChunksAddUp(length, mps, requested);
    CountCovers(length, mps);
    SumAtMost(c.actual[..Executed(c.actual, requested, 0)], requested);
  }
}
