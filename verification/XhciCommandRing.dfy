// The command ring of xhci.cpp: 255 command TRBs and a Link TRB. Software publishes a TRB by writing its last word
// with the current cycle bit; the controller runs concurrently and consumes TRBs whose cycle bit is the one it expects.
module XhciTrbs {
  datatype Trb = Trb(d0: nat, d1: nat, d2: nat, d3: nat)

  const LINK := 6
  const TRB_SIZE := 16

  function TrbType(t: Trb): nat { t.d3 / 1024 % 64 }

  function CycleBit(t: Trb): nat { t.d3 % 2 }

  /** A TRB with its cycle bit replaced. */
  function Stamp(t: Trb, cycle: nat): Trb
  {
    t.(d3 := t.d3 - t.d3 % 2 + cycle)
  }

  lemma StampChangesTheCycleOnly(t: Trb, cycle: nat)
    requires cycle < 2
    ensures CycleBit(Stamp(t, cycle)) == cycle && TrbType(Stamp(t, cycle)) == TrbType(t)
    ensures Stamp(t, cycle).d3 / 2 == t.d3 / 2
  {
    assert (t.d3 - t.d3 % 2 + cycle) / 2 == t.d3 / 2;
    assert (t.d3 - t.d3 % 2 + cycle) / 1024 == t.d3 / 2 / 512 == t.d3 / 1024;
  }

  /** The cycle bit of the given lap around a ring. */
  function LapCycle(lap: nat): nat { if lap % 2 == 0 then 1 else 0 }
}

module XhciCommandRing {
  import opened XhciTrbs

  const LAP := 255

  /** The Link TRB at the end of the ring: Toggle Cycle set. */
  function LinkTrb(base: nat, cycle: nat): Trb {
    Trb(base % 0x1_0000_0000, base / 0x1_0000_0000, 0, 6 * 1024 + 2 + cycle)
  }

  /** Where software is inside submit_command. */
  datatype Phase = Idle | Filled(command: Trb) | AtLink

  /** The ring, what software and controller know about it, and what went in and came out so far. */
  datatype Ring = Ring(base: nat, trbs: seq<Trb>, index: nat, cycle: nat, phase: Phase,
                       dequeue: nat, consumerCycle: nat, submitted: seq<Trb>, consumed: seq<Trb>)

  function Init(base: nat): Ring {
    Ring(base, seq(LAP, i => Trb(0, 0, 0, 0)) + [LinkTrb(base, 1)], 0, 1, Idle, 0, 1, [], [])
  }

  /** Software writes the first three words, then the last one, then, at the end of the ring, the Link TRB; the
      controller looks at the TRB it expects next. */
  datatype Step = Fill(command: Trb) | Publish | RewriteLink | Controller

  predicate Enabled(r: Ring, s: Step) {
    match s
    case Fill(c) => r.phase == Idle && TrbType(c) != LINK
    case Publish => r.phase.Filled?
    case RewriteLink => r.phase == AtLink
    case Controller => true
  }

  predicate WellFormed(r: Ring) {
    && |r.trbs| == LAP + 1 && r.dequeue <= LAP && r.cycle < 2 && r.consumerCycle < 2
    && r.index <= LAP && (r.phase == AtLink <==> r.index == LAP)
  }

  function Next(r: Ring, s: Step): Ring
    requires WellFormed(r) && Enabled(r, s)
  {
    match s
    case Fill(c) =>
      r.(trbs := r.trbs[r.index := Trb(c.d0, c.d1, c.d2, r.trbs[r.index].d3)], phase := Filled(c))
    case Publish =>
      var c := r.phase.command;
      r.(trbs := r.trbs[r.index := r.trbs[r.index].(d3 := Stamp(c, r.cycle).d3)],
         index := r.index + 1, phase := if r.index + 1 == LAP then AtLink else Idle, submitted := r.submitted + [c])
    case RewriteLink =>
      r.(trbs := r.trbs[LAP := r.trbs[LAP].(d3 := 6 * 1024 + 2 + r.cycle)], index := 0, cycle := 1 - r.cycle, phase := Idle)
    case Controller => Consume(r)
  }

  /** The controller: a TRB with another cycle bit is not its to read; a Link TRB is followed to the address it holds. */
  function Consume(r: Ring): Ring
    requires WellFormed(r)
  {
    var t := r.trbs[r.dequeue];
    if CycleBit(t) != r.consumerCycle then r
    else if TrbType(t) == LINK then
      var target := t.d1 * 0x1_0000_0000 + t.d0 - r.base;
      r.(dequeue := if 0 <= target <= LAP * TRB_SIZE then target / TRB_SIZE else 0,
         consumerCycle := if t.d3 / 2 % 2 == 1 then 1 - r.consumerCycle else r.consumerCycle)
    else
      r.(dequeue := if r.dequeue < LAP then r.dequeue + 1 else 0, consumed := r.consumed + [t])
  }

  /** The cycle bit of the n-th command. */
  function Cycle(n: nat): nat { LapCycle(n / LAP) }

  /** Slot n % 255 still carries the cycle bit of command n, and all of it while the controller has not read it. */
  ghost predicate Slot(r: Ring, n: nat) {
    |r.trbs| == LAP + 1 && n < |r.submitted| <= n + LAP ==>
      && CycleBit(r.trbs[n % LAP]) == Cycle(n)
      && (|r.consumed| <= n ==> r.trbs[n % LAP] == Stamp(r.submitted[n], Cycle(n)))
  }

  /** How often the Link TRB was rewritten. */
  function Rewrites(r: Ring): int { if r.phase == AtLink then |r.submitted| / LAP - 1 else |r.submitted| / LAP }

  /** What the controller has read is what was submitted. */
  ghost predicate InOrder(r: Ring) {
    && |r.consumed| <= |r.submitted|
    && forall n :: 0 <= n < |r.consumed| ==> r.consumed[n] == Stamp(r.submitted[n], Cycle(n))
  }

  ghost predicate SoftwareAt(r: Ring)
    requires WellFormed(r)
  {
    var s := |r.submitted|;
    && (r.phase == AtLink ==> s > 0 && s % LAP == 0 && r.cycle == Cycle(s - 1))
    && (r.phase != AtLink ==> r.index == s % LAP && r.cycle == Cycle(s))
    && r.trbs[LAP] == LinkTrb(r.base, if Rewrites(r) <= 0 then 1 else LapCycle(Rewrites(r) - 1))
    && (r.phase.Filled? ==> var t := r.trbs[r.index]; var c := r.phase.command;
         TrbType(c) != LINK && t.d0 == c.d0 && t.d1 == c.d1 && t.d2 == c.d2)
  }

  ghost predicate ControllerAt(r: Ring) {
    var c := |r.consumed|;
    if r.dequeue == LAP then c > 0 && c % LAP == 0 && r.consumerCycle == Cycle(c - 1)
    else r.dequeue == c % LAP && r.consumerCycle == Cycle(c)
  }

  ghost predicate Inv(r: Ring) {
    && WellFormed(r) && InOrder(r) && SoftwareAt(r) && ControllerAt(r)
    && |r.submitted| <= |r.consumed| + (LAP - 1)
    && (forall n: nat {:trigger Slot(r, n)} :: Slot(r, n))
    && (forall i :: |r.submitted| <= i < LAP ==> CycleBit(r.trbs[i]) == 0)
    && (forall n :: 0 <= n < |r.submitted| ==> TrbType(r.submitted[n]) != LINK)
  }

  lemma InitInv(base: nat)
    ensures Inv(Init(base))
  {}

  lemma LinkIsALink(base: nat, cycle: nat)
    requires cycle < 2
    ensures TrbType(LinkTrb(base, cycle)) == LINK && CycleBit(LinkTrb(base, cycle)) == cycle
    ensures LinkTrb(base, cycle).d3 / 2 % 2 == 1
    ensures LinkTrb(base, cycle).d1 * 0x1_0000_0000 + LinkTrb(base, cycle).d0 == base
  {}

  lemma Apart(n: nat, m: nat)
    requires n < m < n + LAP
    ensures n % LAP != m % LAP
  {}

  lemma FillInv(r: Ring, c: Trb)
    requires Inv(r) && Enabled(r, Fill(c))
    ensures Inv(Next(r, Fill(c)))
  {
    var r' := Next(r, Fill(c));
    forall n: nat ensures Slot(r', n) {
      assert Slot(r, n);
      if |r.consumed| <= n < |r.submitted| { Apart(n, |r.submitted|); }
    }
  }

  lemma PublishInv(r: Ring)
    requires Inv(r) && Enabled(r, Publish) && |r.submitted| < |r.consumed| + (LAP - 1)
    ensures Inv(Next(r, Publish))
  {
    var r', s := Next(r, Publish), |r.submitted|;
    StampChangesTheCycleOnly(r.phase.command, r.cycle);
    PublishSoftware(r);
    forall n: nat ensures Slot(r', n) {
      assert Slot(r, n);
      if n < s < n + LAP { Apart(n, s); }
    }
  }

  lemma PublishSoftware(r: Ring)
    requires Inv(r) && Enabled(r, Publish)
    ensures SoftwareAt(Next(r, Publish))
  {
    CycleTurns(|r.submitted|);
    LapTurns(|r.submitted|);
  }

  lemma LapTurns(n: nat)
    ensures (n + 1) / LAP == if n % LAP == LAP - 1 then n / LAP + 1 else n / LAP
  {}

  lemma RewriteInv(r: Ring)
    requires Inv(r) && Enabled(r, RewriteLink)
    ensures Inv(Next(r, RewriteLink))
  {
    var r' := Next(r, RewriteLink);
    forall n: nat ensures Slot(r', n) { assert Slot(r, n); }
  }

  lemma CycleTurns(n: nat)
    ensures Cycle(n + LAP) == 1 - Cycle(n)
    ensures n % LAP == LAP - 1 ==> Cycle(n + 1) == 1 - Cycle(n)
    ensures n % LAP < LAP - 1 ==> Cycle(n + 1) == Cycle(n) && (n + 1) % LAP == n % LAP + 1
    ensures n % LAP == LAP - 1 ==> (n + 1) % LAP == 0
  {
    assert (n + LAP) / LAP == n / LAP + 1;
  }

  /** At the Link TRB the controller goes on to entry 0 with the other cycle, or waits. */
  lemma ConsumeLink(r: Ring)
    requires Inv(r) && r.dequeue == LAP
    ensures Consume(r) == r || Consume(r) == r.(dequeue := 0, consumerCycle := Cycle(|r.consumed|))
  {
    LinkIsALink(r.base, CycleBit(r.trbs[LAP]));
    CycleTurns(|r.consumed| - 1);
  }

  /** With nothing outstanding the slot ahead still carries the cycle bit of the lap before. */
  lemma NothingAhead(r: Ring)
    requires Inv(r) && r.dequeue < LAP && |r.consumed| == |r.submitted|
    ensures CycleBit(r.trbs[r.dequeue]) != r.consumerCycle
  {
    var c := |r.consumed|;
    if c >= LAP {
      var n: nat := c - LAP;
      assert Slot(r, n) && n % LAP == c % LAP;
      CycleTurns(n);
    }
  }

  /** Elsewhere it reads the next command if there is one, and otherwise waits. */
  lemma ConsumeCommand(r: Ring)
    requires Inv(r) && r.dequeue < LAP
    ensures var c := |r.consumed|;
            Consume(r) == if c == |r.submitted| then r
                          else r.(dequeue := r.dequeue + 1, consumed := r.consumed + [Stamp(r.submitted[c], Cycle(c))])
  {
    var c := |r.consumed|;
    if c == |r.submitted| {
      NothingAhead(r);
    } else {
      assert Slot(r, c);
      StampChangesTheCycleOnly(r.submitted[c], Cycle(c));
    }
  }

  lemma ConsumeInv(r: Ring)
    requires Inv(r)
    ensures Inv(Consume(r))
  {
    var r', c := Consume(r), |r.consumed|;
    if r.dequeue == LAP { ConsumeLink(r); } else { ConsumeCommand(r); CycleTurns(c); }
    forall n: nat ensures Slot(r', n) { assert Slot(r, n); }
  }

  /** Every step keeps the invariant; publishing while 254 commands are outstanding is excluded. */
  lemma StepInv(r: Ring, s: Step)
    requires Inv(r) && Enabled(r, s) && (s == Publish ==> |r.submitted| < |r.consumed| + (LAP - 1))
    ensures Inv(Next(r, s))
  {
    match s
    case Fill(c) => FillInv(r, c);
    case Publish => PublishInv(r);
    case RewriteLink => RewriteInv(r);
    case Controller => ConsumeInv(r);
  }

  // ----- runs -----

  /** The steps can be taken one after the other, and no submission leaves more than `limit` commands outstanding. */
  predicate Run(r: Ring, steps: seq<Step>, limit: nat)
    requires WellFormed(r)
    decreases |steps|
  {
    steps == [] ||
    (&& Enabled(r, steps[0])
     && (steps[0] == Publish ==> |r.submitted| + 1 <= |r.consumed| + limit)
     && WellFormed(Next(r, steps[0])) && Run(Next(r, steps[0]), steps[1..], limit))
  }

  function Final(r: Ring, steps: seq<Step>, limit: nat): (r': Ring)
    requires WellFormed(r) && Run(r, steps, limit)
    ensures WellFormed(r')
    decreases |steps|
  {
    if steps == [] then r else Final(Next(r, steps[0]), steps[1..], limit)
  }

  lemma {:induction false} RunInv(r: Ring, steps: seq<Step>)
    requires Inv(r) && Run(r, steps, LAP - 1)
    ensures Inv(Final(r, steps, LAP - 1))
    decreases |steps|
  {
    if steps != [] {
      StepInv(r, steps[0]);
      RunInv(Next(r, steps[0]), steps[1..]);
    }
  }

  /** However software and controller steps interleave, with at most 254 commands outstanding the controller has read
      the commands submitted first, in order, each once and complete. */
  lemma ExactlyOnceInOrder(base: nat, steps: seq<Step>)
    requires Run(Init(base), steps, LAP - 1)
    ensures InOrder(Final(Init(base), steps, LAP - 1))
  {
    InitInv(base);
    RunInv(Init(base), steps);
  }

  /** And it never gets stuck: unless software is about to rewrite the Link TRB, two controller steps read the next
      outstanding command. */
  lemma NeverStuck(base: nat, steps: seq<Step>)
    requires Run(Init(base), steps, LAP - 1)
    ensures var r := Final(Init(base), steps, LAP - 1);
            r.phase != AtLink && |r.consumed| < |r.submitted| ==>
              var r' := Consume(r);
              |r'.consumed| > |r.consumed| || |Consume(r').consumed| > |r.consumed|
  {
    InitInv(base);
    RunInv(Init(base), steps);
    var r := Final(Init(base), steps, LAP - 1);
    if r.phase != AtLink && |r.consumed| < |r.submitted| {
      Progress(r);
    }
  }

  lemma Progress(r: Ring)
    requires Inv(r) && r.phase != AtLink && |r.consumed| < |r.submitted|
    ensures WellFormed(Consume(r))
    ensures |Consume(r).consumed| > |r.consumed| || |Consume(Consume(r)).consumed| > |r.consumed|
  {
    var r', c := Consume(r), |r.consumed|;
    ConsumeInv(r);
    if r.dequeue < LAP {
      ConsumeCommand(r);
    } else {
      assert |r.submitted| / LAP == c / LAP;
      LinkIsALink(r.base, Cycle(c - 1));
      ConsumeLink(r);
      ConsumeCommand(r');
    }
  }

  // ----- why not 255 -----

  /** The controller waits at a Link TRB that was rewritten under its feet. */
  predicate Stuck(r: Ring) {
    && WellFormed(r) && r.phase != AtLink && r.dequeue == LAP && |r.submitted| == |r.consumed| + LAP
    && CycleBit(r.trbs[LAP]) != r.consumerCycle
  }

  /** Once there, no run with a limit of 255 makes the controller read anything again. */
  lemma {:induction false} StuckForever(r: Ring, steps: seq<Step>)
    requires Stuck(r) && Run(r, steps, LAP)
    ensures Stuck(Final(r, steps, LAP)) && Final(r, steps, LAP).consumed == r.consumed
    decreases |steps|
  {
    if steps != [] {
      StuckForever(Next(r, steps[0]), steps[1..]);
    }
  }

  lemma {:induction false} RunThen(r: Ring, steps: seq<Step>, more: seq<Step>, limit: nat)
    requires WellFormed(r) && Run(r, steps, limit) && Run(Final(r, steps, limit), more, limit)
    ensures Run(r, steps + more, limit) && Final(r, steps + more, limit) == Final(Final(r, steps, limit), more, limit)
    decreases |steps|
  {
    if steps == [] {
      assert steps + more == more;
    } else {
      assert (steps + more)[0] == steps[0] && (steps + more)[1..] == steps[1..] + more;
      RunThen(Next(r, steps[0]), steps[1..], more, limit);
    }
  }

  /** submit_command as a whole. */
  function Submit(r: Ring, c: Trb): Ring
    requires WellFormed(r) && Enabled(r, Fill(c))
  {
    var r' := Next(Next(r, Fill(c)), Publish);
    if r'.phase == AtLink then Next(r', RewriteLink) else r'
  }

  function SubmitSteps(r: Ring, c: Trb): seq<Step> {
    if r.index + 1 == LAP then [Fill(c), Publish, RewriteLink] else [Fill(c), Publish]
  }

  lemma SubmitRuns(r: Ring, c: Trb, limit: nat)
    requires WellFormed(r) && Enabled(r, Fill(c)) && |r.submitted| < |r.consumed| + limit
    ensures Run(r, SubmitSteps(r, c), limit) && Final(r, SubmitSteps(r, c), limit) == Submit(r, c)
    ensures WellFormed(Submit(r, c)) && Submit(r, c).phase == Idle
  {
    var steps := SubmitSteps(r, c);
    var r1 := Next(r, Fill(c));
    var r2 := Next(r1, Publish);
    assert Run(r2, steps[2..], limit) && Final(r2, steps[2..], limit) == Submit(r, c) by {
      if r2.phase == AtLink {
        assert steps[2..] == [RewriteLink] && [RewriteLink][1..] == [];
      }
    }
    assert steps[1..][1..] == steps[2..] && steps[1..][0] == Publish;
    assert Run(r1, steps[1..], limit) && Final(r1, steps[1..], limit) == Submit(r, c);
  }

  lemma SubmitInv(r: Ring, c: Trb)
    requires Inv(r) && Enabled(r, Fill(c)) && |r.submitted| < |r.consumed| + (LAP - 1)
    ensures Inv(Submit(r, c)) && Submit(r, c).phase == Idle
  {
    FillInv(r, c);
    PublishInv(Next(r, Fill(c)));
    var r' := Next(Next(r, Fill(c)), Publish);
    if r'.phase == AtLink { RewriteInv(r'); }
  }

  const NO_OP := Trb(0, 0, 0, 23 * 1024)

  /** A command that is read as soon as it is submitted. */
  lemma SubmitAndRead(r: Ring, limit: nat)
    requires Inv(r) && r.phase == Idle && |r.submitted| == |r.consumed| == r.dequeue < LAP && limit > 0
    ensures var steps := SubmitSteps(r, NO_OP) + [Controller];
            Run(r, steps, limit) && Final(r, steps, limit) == Consume(Submit(r, NO_OP))
    ensures var r' := Consume(Submit(r, NO_OP));
            Inv(r') && r'.phase == Idle && |r'.submitted| == |r'.consumed| == r'.dequeue == |r.submitted| + 1
  {
    SubmitRuns(r, NO_OP, limit);
    SubmitInv(r, NO_OP);
    var r' := Submit(r, NO_OP);
    ConsumeInv(r');
    ConsumeCommand(r');
    assert Run(Consume(r'), [], limit) && [Controller][1..] == [];
    RunThen(r, SubmitSteps(r, NO_OP), [Controller], limit);
  }

  /** Each command is read as soon as it is submitted: up to the end of the first lap. */
  lemma {:induction false} InStep(base: nat, n: nat) returns (steps: seq<Step>)
    requires n <= LAP
    ensures Run(Init(base), steps, LAP)
    ensures var r := Final(Init(base), steps, LAP);
            Inv(r) && r.phase == Idle && |r.submitted| == |r.consumed| == r.dequeue == n
  {
    if n == 0 {
      InitInv(base);
      return [];
    }
    steps := InStep(base, n - 1);
    var r := Final(Init(base), steps, LAP);
    SubmitAndRead(r, LAP);
    RunThen(Init(base), steps, SubmitSteps(r, NO_OP) + [Controller], LAP);
    steps := steps + (SubmitSteps(r, NO_OP) + [Controller]);
  }

  /** Then the controller stands at the Link TRB while software runs ahead. */
  lemma {:induction false} RunAhead(base: nat, n: nat) returns (steps: seq<Step>)
    requires n < LAP
    ensures Run(Init(base), steps, LAP)
    ensures var r := Final(Init(base), steps, LAP);
            && Inv(r) && r.phase == Idle && |r.consumed| == r.dequeue == LAP && |r.submitted| == LAP + n
  {
    if n == 0 {
      steps := InStep(base, LAP);
      return;
    }
    steps := RunAhead(base, n - 1);
    var r := Final(Init(base), steps, LAP);
    SubmitRuns(r, NO_OP, LAP);
    SubmitInv(r, NO_OP);
    RunThen(Init(base), steps, SubmitSteps(r, NO_OP), LAP);
    steps := steps + SubmitSteps(r, NO_OP);
  }

  /** With 255 commands outstanding allowed, some run leaves the controller stuck for good. */
  lemma LimitOf255Deadlocks(base: nat) returns (steps: seq<Step>)
    ensures Run(Init(base), steps, LAP) && Stuck(Final(Init(base), steps, LAP))
  {
    steps := RunAhead(base, LAP - 1);
    var r := Final(Init(base), steps, LAP);
    SubmitRuns(r, NO_OP, LAP);
    RunThen(Init(base), steps, SubmitSteps(r, NO_OP), LAP);
    LastSubmitSticks(r);
    steps := steps + SubmitSteps(r, NO_OP);
  }

  lemma LastSubmitSticks(r: Ring)
    requires Inv(r) && r.phase == Idle && |r.consumed| == r.dequeue == LAP && |r.submitted| == LAP + (LAP - 1)
    ensures Stuck(Submit(r, NO_OP))
  {
    assert SoftwareAt(r) && ControllerAt(r) && LapCycle(0) != LapCycle(1);
    LinkLeftBehind(r);
  }

  /** The submission that fills slot 254 while the controller waits at the Link TRB one lap behind. */
  lemma LinkLeftBehind(r: Ring)
    requires WellFormed(r) && r.phase == Idle && r.index == LAP - 1 && r.dequeue == LAP && r.cycle != r.consumerCycle
    requires |r.submitted| + 1 == |r.consumed| + LAP
    ensures Stuck(Submit(r, NO_OP))
  {
    LinkIsALink(r.base, r.cycle);
    var r2 := Next(Next(r, Fill(NO_OP)), Publish);
    assert r2.phase == AtLink && r2.cycle == r.cycle;
  }
}
