// The event ring of xhci.cpp: the controller produces into 256 TRBs, software polls them and publishes how far it got.
module XhciEventRing {
  import opened XhciTrbs

  const SIZE := 256

  /** The ring, the producer's and the consumer's position, the dequeue pointer register (ERDP), and what was produced,
      polled and published so far. */
  datatype Ring = Ring(base: nat, trbs: seq<Trb>, enqueue: nat, producerCycle: nat, erdp: nat,
                       index: nat, cycle: nat, produced: seq<Trb>, polled: seq<Trb>, published: nat)

  function Init(base: nat): Ring {
    Ring(base, seq(SIZE, i => Trb(0, 0, 0, 0)), 0, 1, base, 0, 1, [], [], 0)
  }

  /** The controller writes an event, software polls, software writes ERDP. */
  datatype Step = Produce(event: Trb) | Poll | PublishDequeue

  predicate WellFormed(r: Ring) {
    |r.trbs| == SIZE && r.enqueue < SIZE && r.index < SIZE && r.producerCycle < 2 && r.cycle < 2
  }

  /** The producer stops one TRB short of the one ERDP names. */
  predicate Room(r: Ring) {
    r.erdp != r.base + (r.enqueue + 1) % SIZE * TRB_SIZE
  }

  predicate Enabled(r: Ring, s: Step) { s.Produce? ==> Room(r) }

  predicate Available(r: Ring)
    requires WellFormed(r)
  {
    CycleBit(r.trbs[r.index]) == r.cycle
  }

  function Next(r: Ring, s: Step): Ring
    requires WellFormed(r) && Enabled(r, s)
  {
    match s
    case Produce(e) =>
      r.(trbs := r.trbs[r.enqueue := Stamp(e, r.producerCycle)], enqueue := (r.enqueue + 1) % SIZE,
         producerCycle := if r.enqueue + 1 == SIZE then 1 - r.producerCycle else r.producerCycle,
         produced := r.produced + [e])
    case Poll =>
      if !Available(r) then r else
        r.(index := if r.index + 1 == SIZE then 0 else r.index + 1,
           cycle := if r.index + 1 == SIZE then 1 - r.cycle else r.cycle, polled := r.polled + [r.trbs[r.index]])
    case PublishDequeue =>
      r.(erdp := r.base + r.index * TRB_SIZE, published := |r.polled|)
  }

  function Cycle(n: nat): nat { LapCycle(n / SIZE) }

  /** Slot n % 256 still carries event n. */
  ghost predicate Slot(r: Ring, n: nat) {
    |r.trbs| == SIZE && n < |r.produced| <= n + SIZE ==> r.trbs[n % SIZE] == Stamp(r.produced[n], Cycle(n))
  }

  /** What was polled is what was produced. */
  ghost predicate InOrder(r: Ring) {
    && |r.polled| <= |r.produced|
    && forall n :: 0 <= n < |r.polled| ==> r.polled[n] == Stamp(r.produced[n], Cycle(n))
  }

  ghost predicate Inv(r: Ring) {
    && WellFormed(r) && InOrder(r)
    && r.enqueue == |r.produced| % SIZE && r.producerCycle == Cycle(|r.produced|)
    && r.index == |r.polled| % SIZE && r.cycle == Cycle(|r.polled|)
    && r.published <= |r.polled| && |r.produced| <= r.published + (SIZE - 1)
    && r.erdp == r.base + r.published % SIZE * TRB_SIZE
    && (forall n: nat {:trigger Slot(r, n)} :: Slot(r, n))
    && (forall i :: |r.produced| <= i < SIZE ==> CycleBit(r.trbs[i]) == 0)
  }

  lemma CycleTurns(n: nat)
    ensures Cycle(n + SIZE) == 1 - Cycle(n)
    ensures n % SIZE == SIZE - 1 ==> Cycle(n + 1) == 1 - Cycle(n)
    ensures n % SIZE < SIZE - 1 ==> Cycle(n + 1) == Cycle(n)
    ensures (n + 1) % SIZE == if n % SIZE == SIZE - 1 then 0 else n % SIZE + 1
  {
    assert (n + SIZE) / SIZE == n / SIZE + 1;
  }

  lemma FullRing(e: nat, p: nat)
    requires p <= e < p + SIZE
    ensures (e + 1) % SIZE == p % SIZE <==> e + 1 == p + SIZE
  {}

  /** The producer's test against the register is the test that 255 events are not yet published as read. */
  lemma RoomMeansRoom(r: Ring)
    requires Inv(r)
    ensures Room(r) <==> |r.produced| - r.published < SIZE - 1
  {
    var e, p := |r.produced|, r.published;
    FullRing(e, p);
    assert (r.enqueue + 1) % SIZE == (e + 1) % SIZE by { CycleTurns(e); }
  }

  /** With nothing unread the slot ahead still carries the cycle bit of the lap before. */
  lemma NothingUnread(r: Ring)
    requires Inv(r) && |r.polled| == |r.produced|
    ensures !Available(r)
  {
    var c := |r.polled|;
    if c >= SIZE {
      var n: nat := c - SIZE;
      assert Slot(r, n) && n % SIZE == c % SIZE;
      CycleTurns(n);
      StampChangesTheCycleOnly(r.produced[n], Cycle(n));
    }
  }

  /** poll_event finds an event exactly when one was produced and not yet read, and then it is the oldest one. */
  lemma AvailableMeansUnread(r: Ring)
    requires Inv(r)
    ensures Available(r) <==> |r.polled| < |r.produced|
    ensures Available(r) ==> r.trbs[r.index] == Stamp(r.produced[|r.polled|], Cycle(|r.polled|))
  {
    var c := |r.polled|;
    if c < |r.produced| {
      assert Slot(r, c);
      StampChangesTheCycleOnly(r.produced[c], Cycle(c));
    } else {
      NothingUnread(r);
    }
  }

  lemma Apart(n: nat, m: nat)
    requires n < m < n + SIZE
    ensures n % SIZE != m % SIZE
  {}

  lemma ProduceInv(r: Ring, e: Trb)
    requires Inv(r) && Enabled(r, Produce(e))
    ensures Inv(Next(r, Produce(e)))
  {
    var r', k := Next(r, Produce(e)), |r.produced|;
    RoomMeansRoom(r);
    CycleTurns(k);
    forall n: nat ensures Slot(r', n) {
      assert Slot(r, n);
      if n < k < n + SIZE { Apart(n, k); }
    }
  }

  lemma StepInv(r: Ring, s: Step)
    requires Inv(r) && Enabled(r, s)
    ensures Inv(Next(r, s))
  {
    match s
    case Produce(e) => ProduceInv(r, e);
    case Poll =>
      AvailableMeansUnread(r);
      CycleTurns(|r.polled|);
      forall n: nat ensures Slot(Next(r, s), n) { assert Slot(r, n); }
    case PublishDequeue =>
      forall n: nat ensures Slot(Next(r, s), n) { assert Slot(r, n); }
  }

  // ----- runs -----

  predicate Run(r: Ring, steps: seq<Step>)
    requires WellFormed(r)
    decreases |steps|
  {
    steps == [] || (Enabled(r, steps[0]) && WellFormed(Next(r, steps[0])) && Run(Next(r, steps[0]), steps[1..]))
  }

  function Final(r: Ring, steps: seq<Step>): (r': Ring)
    requires WellFormed(r) && Run(r, steps)
    ensures WellFormed(r')
    decreases |steps|
  {
    if steps == [] then r else Final(Next(r, steps[0]), steps[1..])
  }

  lemma {:induction false} RunInv(r: Ring, steps: seq<Step>)
    requires Inv(r) && Run(r, steps)
    ensures Inv(Final(r, steps))
    decreases |steps|
  {
    if steps != [] {
      StepInv(r, steps[0]);
      RunInv(Next(r, steps[0]), steps[1..]);
    }
  }

  /** However the controller and software interleave, software polls the events produced first, in order, each once. */
  lemma PollsWhatWasProduced(base: nat, steps: seq<Step>)
    requires Run(Init(base), steps)
    ensures InOrder(Final(Init(base), steps))
    ensures var r := Final(Init(base), steps); Available(r) <==> |r.polled| < |r.produced|
    ensures var r := Final(Init(base), steps);
            Next(r, PublishDequeue).erdp == base + |r.polled| % SIZE * TRB_SIZE
  {
    RunInv(Init(base), steps);
    BaseStays(Init(base), steps);
    AvailableMeansUnread(Final(Init(base), steps));
  }

  lemma {:induction false} BaseStays(r: Ring, steps: seq<Step>)
    requires WellFormed(r) && Run(r, steps)
    ensures Final(r, steps).base == r.base
    decreases |steps|
  {
    if steps != [] {
      BaseStays(Next(r, steps[0]), steps[1..]);
    }
  }
}
