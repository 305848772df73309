// The driver side of both rings (xhci.cpp): set-up, submit_command, poll_event and xhci_process_events, over the ring
// memory the controller shares.
module Xhci {
  import opened XhciTrbs
  import C = XhciCommandRing
  import E = XhciEventRing

  /** What waiters look at: the pending command, the changed ports, and the transfer that is waited for. */
  datatype Inbox = Inbox(commandPhysical: nat, commandDone: bool, commandCompletion: Trb, ports: set<nat>,
                         waiting: bool, completed: bool, slot: nat, endpoint: nat, transferPointer: nat,
                         transferCompletion: Trb)

  function EventPointer(e: Trb): nat { e.d1 * 0x1_0000_0000 + e.d0 }

  /** A Command Completion Event for the pending command. */
  predicate CompletesCommand(i: Inbox, e: Trb) { TrbType(e) == 33 && EventPointer(e) == i.commandPhysical }

  /** The port of a Port Status Change Event. */
  function PortOf(e: Trb): nat { e.d0 / 0x100_0000 }

  predicate ChangesPort(e: Trb) { TrbType(e) == 34 && 0 < PortOf(e) < 256 }

  /** A Transfer Event for the endpoint waited for: of the TRB waited for, or of any TRB if it reports an error. */
  predicate CompletesTransfer(i: Inbox, e: Trb) {
    && TrbType(e) == 32 && i.waiting && e.d3 / 4 % 2 == 0
    && e.d3 / 0x100_0000 % 256 == i.slot && e.d3 / 0x1_0000 % 32 == i.endpoint
    && (EventPointer(e) == i.transferPointer || (e.d2 / 0x100_0000 % 256 != 1 && e.d2 / 0x100_0000 % 256 != 13))
  }

  /** What one event does to the inbox. */
  function Deliver(i: Inbox, e: Trb): Inbox {
    var kind := TrbType(e);
    if kind == 33 then
      if EventPointer(e) == i.commandPhysical then i.(commandDone := true, commandCompletion := e) else i
    else if kind == 34 then
      if PortOf(e) != 0 && PortOf(e) < 256 then i.(ports := i.ports + {PortOf(e)}) else i
    else if kind == 32 then
      if i.waiting && !i.completed && CompletesTransfer(i, e) then i.(completed := true, transferCompletion := e) else i
    else i
  }

  function DeliverAll(i: Inbox, events: seq<Trb>): Inbox
    decreases |events|
  {
    if events == [] then i else Deliver(DeliverAll(i, events[..|events| - 1]), events[|events| - 1])
  }

  /** The parts of an inbox that events do not touch. */
  predicate SameWaits(i: Inbox, j: Inbox) {
    && i.commandPhysical == j.commandPhysical && i.waiting == j.waiting && i.slot == j.slot
    && i.endpoint == j.endpoint && i.transferPointer == j.transferPointer
  }

  /** No port change is lost and none is made up. */
  lemma {:induction false} PortsReported(i: Inbox, events: seq<Trb>, p: nat)
    ensures p in DeliverAll(i, events).ports <==>
            p in i.ports || exists k :: 0 <= k < |events| && ChangesPort(events[k]) && PortOf(events[k]) == p
    decreases |events|
  {
    if events != [] {
      var m := |events| - 1;
      PortsReported(i, events[..m], p);
      if p in DeliverAll(i, events[..m]).ports && p !in i.ports {
        var k :| 0 <= k < m && ChangesPort(events[..m][k]) && PortOf(events[..m][k]) == p;
        assert ChangesPort(events[k]);
      }
      if exists k :: 0 <= k < m && ChangesPort(events[k]) && PortOf(events[k]) == p {
        var k :| 0 <= k < m && ChangesPort(events[k]) && PortOf(events[k]) == p;
        assert events[..m][k] == events[k];
      }
    }
  }

  lemma {:induction false} WaitsStay(i: Inbox, events: seq<Trb>)
    ensures SameWaits(i, DeliverAll(i, events))
    decreases |events|
  {
    if events != [] {
      WaitsStay(i, events[..|events| - 1]);
    }
  }

  /** The completion of the pending command is noticed, and if there are several the last one is kept. */
  lemma {:induction false} CommandReported(i: Inbox, events: seq<Trb>, k: nat)
    requires k < |events| && CompletesCommand(i, events[k])
    requires forall l :: k < l < |events| ==> !CompletesCommand(i, events[l])
    ensures DeliverAll(i, events).commandDone && DeliverAll(i, events).commandCompletion == events[k]
    decreases |events|
  {
    var m := |events| - 1;
    WaitsStay(i, events[..m]);
    if k < m {
      CommandReported(i, events[..m], k);
      assert !CompletesCommand(i, events[m]);
    }
  }

  /** Without one, nothing is reported. */
  lemma {:induction false} NoCommandReported(i: Inbox, events: seq<Trb>)
    requires forall l :: 0 <= l < |events| ==> !CompletesCommand(i, events[l])
    ensures DeliverAll(i, events).commandDone == i.commandDone
    ensures DeliverAll(i, events).commandCompletion == i.commandCompletion
    decreases |events|
  {
    if events != [] {
      var m := |events| - 1;
      WaitsStay(i, events[..m]);
      NoCommandReported(i, events[..m]);
      assert !CompletesCommand(i, events[m]);
    }
  }

  /** An event for the transfer waited for is noticed, and of several the first one is kept. */
  lemma {:induction false} TransferReported(i: Inbox, events: seq<Trb>, k: nat)
    requires !i.completed && k < |events| && CompletesTransfer(i, events[k])
    requires forall l :: 0 <= l < k ==> !CompletesTransfer(i, events[l])
    ensures DeliverAll(i, events).completed && DeliverAll(i, events).transferCompletion == events[k]
    decreases |events|
  {
    var m := |events| - 1;
    WaitsStay(i, events[..m]);
    if k < m {
      TransferReported(i, events[..m], k);
    } else {
      NoTransferReported(i, events[..m]);
    }
  }

  lemma {:induction false} NoTransferReported(i: Inbox, events: seq<Trb>)
    requires forall l :: 0 <= l < |events| ==> !CompletesTransfer(i, events[l])
    ensures DeliverAll(i, events).completed == i.completed
    ensures DeliverAll(i, events).transferCompletion == i.transferCompletion
    decreases |events|
  {
    if events != [] {
      var m := |events| - 1;
      WaitsStay(i, events[..m]);
      NoTransferReported(i, events[..m]);
      assert !CompletesTransfer(i, events[m]);
    }
  }

  lemma DeliverNext(i: Inbox, polled: seq<Trb>, e: Trb, first: nat)
    requires first <= |polled|
    ensures DeliverAll(i, (polled + [e])[first..]) == Deliver(DeliverAll(i, polled[first..]), e)
  {
    var all := (polled + [e])[first..];
    assert all[..|all| - 1] == polled[first..];
  }

  class XhciController {
    const commandPhysical: nat
    const eventPhysical: nat
    const command: array<Trb>
    const event: array<Trb>
    var commandIndex: nat
    var commandCycle: nat
    var eventIndex: nat
    var eventCycle: nat
    var erdp: nat
    var inbox: Inbox
    // the states of the protocols: the fields above are the driver's part, the rest is the controller's
    ghost var commands: C.Ring
    var events: E.Ring

    /** The fields and the ring memory are those of the protocols, which are in a state some run leads to. */
    ghost predicate Valid()
      reads this, command, event
    {
      && command != event
      && C.Inv(commands) && E.Inv(events) && commands.phase == C.Idle
      && commands.base == commandPhysical && events.base == eventPhysical
      && command[..] == commands.trbs && commandIndex == commands.index && commandCycle == commands.cycle
      && event[..] == events.trbs && eventIndex == events.index && eventCycle == events.cycle && erdp == events.erdp
    }

    /** ERDP names the next unread TRB. */
    ghost predicate NextUnreadPublished()
      reads this
    {
      events.published == |events.polled| && erdp == eventPhysical + |events.polled| % 256 * TRB_SIZE
    }

    /** setup_rings: DMA memory comes zeroed. */
    constructor (commandPhysical: nat, eventPhysical: nat, inbox: Inbox)
      ensures Valid() && fresh(command) && fresh(event)
      ensures commands == C.Init(commandPhysical) && events == E.Init(eventPhysical)
      ensures this.inbox == inbox.(commandDone := false) && NextUnreadPublished()
    {
      this.commandPhysical, this.eventPhysical := commandPhysical, eventPhysical;
      var zero := Trb(0, 0, 0, 0);
      var ring := new Trb[256](_ => zero);
      ring[255] := Trb(commandPhysical % 0x1_0000_0000, commandPhysical / 0x1_0000_0000, 0, 6 * 1024 + 2 + 1);
      command := ring;
      event := new Trb[256](_ => zero);
      erdp := eventPhysical;
      commandIndex, commandCycle, eventIndex, eventCycle := 0, 1, 0, 1;
      this.inbox := inbox.(commandDone := false);
      commands, events := C.Init(commandPhysical), E.Init(eventPhysical);
      new;
      C.InitInv(commandPhysical);
      assert command[..] == commands.trbs;
      assert event[..] == events.trbs;
    }

    /** submit_command is the protocol's three steps: the TRB's body, its last word, and the Link TRB after entry 254.
        Its effect is a submission, for fewer than 254 commands outstanding before it. */
    method SubmitCommand(c: Trb) returns (physical: nat)
      requires Valid() && TrbType(c) != LINK && |commands.submitted| < |commands.consumed| + 254
      modifies this, command
      ensures Valid() && commands == C.Submit(old(commands), c) && commands.submitted == old(commands).submitted + [c]
      ensures physical == commandPhysical + |old(commands).submitted| % 255 * TRB_SIZE
      ensures inbox == old(inbox).(commandPhysical := physical, commandDone := false)
      ensures events == old(events) && event[..] == old(event[..])
    {
      C.SubmitInv(commands, c);
      ghost var r := commands;
      var index := commandIndex;
      physical := commandPhysical + index * TRB_SIZE;
      command[index] := Trb(c.d0, c.d1, c.d2, command[index].d3);
      command[index] := command[index].(d3 := c.d3 - c.d3 % 2 + commandCycle);
      assert command[..] == C.Next(C.Next(r, C.Fill(c)), C.Publish).trbs;
      inbox := inbox.(commandPhysical := physical, commandDone := false);
      commandIndex := commandIndex + 1;
      if commandIndex == 255 {
        command[255] := command[255].(d3 := 6 * 1024 + 2 + commandCycle);
        commandIndex := 0;
        commandCycle := 1 - commandCycle;
      }
      commands := C.Submit(r, c);
      assert command[..] == commands.trbs;
    }

    /** poll_event finds the oldest event not yet read, if there is one. */
    method PollEvent() returns (found: bool, e: Trb)
      requires Valid()
      modifies this`eventIndex, this`eventCycle, this`events
      ensures Valid() && events == E.Next(old(events), E.Poll)
      ensures found <==> |old(events).polled| < |old(events).produced|
      ensures found ==> events.polled == old(events).polled + [e]
      ensures found ==> e == Stamp(events.produced[|old(events).polled|], E.Cycle(|old(events).polled|))
    {
      E.AvailableMeansUnread(events);
      E.StepInv(events, E.Poll);
      events := E.Next(events, E.Poll);
      if event[eventIndex].d3 % 2 != eventCycle {
        return false, event[eventIndex];
      }
      e := event[eventIndex];
      found := true;
      eventIndex := eventIndex + 1;
      if eventIndex == 256 {
        eventIndex := 0;
        eventCycle := 1 - eventCycle;
      }
    }

    /** xhci_process_events: reads everything there is, delivers it in order, and publishes the next unread TRB. Before the
        k-th poll the controller posts the events arriving[k], as far as there is room. `pending` is an interrupt flagged
        on entry, `busy` the handler-busy bit read after the drain. */
    method ProcessEvents(arriving: seq<seq<Trb>>, pending: bool, busy: bool) returns (processed: nat)
      requires Valid()
      modifies this`eventIndex, this`eventCycle, this`events, this`erdp, this`inbox, event
      ensures Valid() && command[..] == old(command[..])
      ensures old(events).produced <= events.produced && old(events).polled <= events.polled
      ensures |events.polled| == |events.produced| && processed == |events.polled| - |old(events).polled|
      ensures inbox == DeliverAll(old(inbox), events.polled[|old(events).polled|..])
      ensures old(NextUnreadPublished()) || processed > 0 || pending || busy ==> NextUnreadPublished()
    {
      processed := 0;
      ghost var first, was := |events.polled|, events;
      var more := true;
      assert events.polled[first..] == [];
      while processed < 256 && more
        invariant Valid() && command[..] == old(command[..]) && Drained(was, events, old(inbox), inbox, processed)
        invariant !more ==> |events.polled| == |events.produced|
        decreases 256 - processed, more
      {
        more := ProcessNext(if processed < |arriving| then arriving[processed] else [], was, old(inbox), processed);
        processed := if more then processed + 1 else processed;
      }
      if processed != 0 || pending || busy {
        PublishDequeue();
      }
    }

    /** The controller posts these events as far as there is room. */
    method Arrive(arriving: seq<Trb>, ghost was: E.Ring)
      requires Valid() && was.produced <= events.produced
      modifies this`events, event
      ensures Valid() && command[..] == old(command[..]) && events.polled == old(events).polled
      ensures events.published == old(events).published && events.erdp == old(events).erdp && was.produced <= events.produced
    {
      for i := 0 to |arriving|
        invariant Valid() && command[..] == old(command[..]) && events.polled == old(events).polled
        invariant events.published == old(events).published && events.erdp == old(events).erdp && was.produced <= events.produced
      {
        if E.Room(events) {
          ControllerPosts(arriving[i]);
        }
      }
    }

    /** One turn: what arrives is posted, then one event is polled and delivered. */
    method ProcessNext(arriving: seq<Trb>, ghost was: E.Ring, ghost inboxWas: Inbox, ghost processed: nat) returns (found: bool)
      requires Valid() && Drained(was, events, inboxWas, inbox, processed)
      modifies this`eventIndex, this`eventCycle, this`events, this`inbox, event
      ensures Valid() && command[..] == old(command[..]) && erdp == old(erdp)
      ensures Drained(was, events, inboxWas, inbox, if found then processed + 1 else processed)
      ensures !found ==> |events.polled| == |events.produced|
    {
      Arrive(arriving, was);
      ghost var polled := events.polled;
      var e;
      found, e := PollEvent();
      if found {
        DeliverNext(inboxWas, polled, e, |was.polled|);
        inbox := Deliver(inbox, e);
      }
    }

    /** ERDP is written with the next TRB to read. */
    method PublishDequeue()
      requires Valid()
      modifies this`erdp, this`events
      ensures Valid() && NextUnreadPublished() && events == old(events).(erdp := erdp, published := |events.polled|)
    {
      E.StepInv(events, E.PublishDequeue);
      events := E.Next(events, E.PublishDequeue);
      erdp := eventPhysical + eventIndex * TRB_SIZE;
    }

    /** xhci_take_port_change: a change is reported once. */
    method TakePortChange(port: nat) returns (changed: bool)
      requires Valid() && port < 256
      modifies this`inbox
      ensures Valid() && changed == (port != 0 && port in old(inbox).ports)
      ensures inbox == old(inbox).(ports := if port == 0 then old(inbox).ports else old(inbox).ports - {port})
    {
      if port == 0 {
        return false;
      }
      changed := port in inbox.ports;
      inbox := inbox.(ports := inbox.ports - {port});
    }

    /** The controller reads what it finds next in the command ring. */
    ghost method ControllerConsumes()
      requires Valid()
      modifies this`commands
      ensures Valid() && commands == C.Consume(old(commands))
    {
      C.ConsumeInv(commands);
      assert C.Consume(commands).trbs == commands.trbs;
      commands := C.Consume(commands);
    }

    /** The controller posts an event where there is room. */
    method ControllerPosts(e: Trb)
      requires Valid() && E.Room(events)
      modifies this`events, event
      ensures Valid() && events == E.Next(old(events), E.Produce(e)) && command[..] == old(command[..])
    {
      E.ProduceInv(events, e);
      event[events.enqueue] := Stamp(e, events.producerCycle);
      events := E.Next(events, E.Produce(e));
      assert event[..] == events.trbs;
    }
  }

  /** While events are drained: what was polled since then has been delivered, nothing is published yet. */
  ghost predicate Drained(was: E.Ring, now: E.Ring, inboxWas: Inbox, inbox: Inbox, processed: nat) {
    && was.produced <= now.produced && was.polled <= now.polled && was.published == now.published && was.erdp == now.erdp
    && processed == |now.polled| - |was.polled| && |was.polled| >= was.published
    && inbox == DeliverAll(inboxWas, now.polled[|was.polled|..])
  }
}
