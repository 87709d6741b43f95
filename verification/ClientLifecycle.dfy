/** Handing out events and closing (internal/signal/meow.go): handlers, operations, the supervisor,
    the consumer and Close as interleaved atomic steps. */
module ClientLifecycle {

  /** A server event, by the ID of its envelope. */
  type EventId = nat

  /** A running handler of an event: entered, blocked in emit with some identity reports still to hand
      out before the event, or about to return whether the envelope is acked. */
  datatype Handler =
    | Entered(event: EventId, reports: nat)
    | Emitting(event: EventId, reports: nat)
    | Returning(event: EventId, ack: bool)

  datatype Supervisor = Watching | Announcing | Ended

  /** Where Close stands; each name says what it does or waits for next. */
  datatype ClosePc =
    | NotClosing | DrainSends | WaitHandlers | StopSupervisor | WaitSupervisor | FlushAcks | StopLoops
    | CloseEvents | WaitSends | Release | Closed

  datatype State = State(
    closing: bool, done: bool, eventsClosed: bool, stopped: bool, released: bool,
    handling: nat, sending: nat,              // the WaitGroup counters
    handlers: seq<Handler>, operations: nat,  // what really runs
    supervisor: Supervisor, pc: ClosePc, sendOnly: bool,
    arrived: set<EventId>, server: set<EventId>,
    queued: set<EventId>, losses: multiset<EventId>, gaveUp: bool,  // acks not yet written, lost ones, and flushAcks
    consumed: multiset<EventId>)

  /** The state after Connect returned. */
  predicate Init(s: State) {
    && !s.closing && !s.done && !s.eventsClosed && !s.stopped && !s.released
    && s.handling == 0 && s.sending == 0 && s.handlers == [] && s.operations == 0
    && s.supervisor == Watching && s.pc == NotClosing
    && s.arrived == {} && s.server == {} && s.queued == {} && s.losses == multiset{} && !s.gaveUp && s.consumed == multiset{}
  }

  datatype Step =
    | Arrive(event: EventId)                      // a new envelope on the server
    | BeginHandler(event: EventId, reports: nat)  // begin(&handling), for an envelope whose ack isn't on its way
    | HandlerFails(i: nat)                        // the event can't be recorded, or is left in send-only mode
    | HandlerEmits(i: nat)                        // goes on to emit
    | ConsumerTakes(i: nat)                       // the consumer takes what the handler sends
    | EmitAborts(i: nat)                          // emit sees done closed
    | HandlerReturns(i: nat)                      // handling.Done(); signalmeow goes on to the ack, or not
    | AckWritten(event: EventId)                  // the server drops the envelope
    | AckLost(event: EventId)                     // the connection breaks; the server may deliver it again
    | BeginOperation                              // begin(&sending)
    | OperationReturns                            // sending.Done()
    | SupervisorAnnounces | SupervisorTaken | SupervisorAborts | SupervisorEnds
    | CloseStep(timedOut: bool)                   // the next step of Close; draining and flushing can time out

  predicate Enabled(s: State, step: Step) {
    match step
    case Arrive(e) => e !in s.arrived
    case BeginHandler(e, _) =>
      !s.closing && e in s.server && e !in s.queued && forall i :: 0 <= i < |s.handlers| ==> s.handlers[i].event != e
    case HandlerFails(i) => i < |s.handlers| && s.handlers[i].Entered?
    case HandlerEmits(i) => i < |s.handlers| && s.handlers[i].Entered? && !s.sendOnly
    case ConsumerTakes(i) => i < |s.handlers| && s.handlers[i].Emitting?
    case EmitAborts(i) => i < |s.handlers| && s.handlers[i].Emitting? && s.done
    case HandlerReturns(i) => i < |s.handlers| && s.handlers[i].Returning?
    case AckWritten(e) => e in s.queued && Stage(s.pc) <= 6
    case AckLost(e) => e in s.queued
    case BeginOperation => !s.closing
    case OperationReturns => s.operations > 0
    case SupervisorAnnounces => s.supervisor == Watching && !s.stopped && !s.sendOnly
    case SupervisorTaken => s.supervisor == Announcing
    case SupervisorAborts => s.supervisor == Announcing && s.done
    case SupervisorEnds => s.supervisor == Watching
    case CloseStep(timedOut) =>
      match s.pc
      case DrainSends => s.sending == 0 || timedOut
      case WaitHandlers => s.handling == 0
      case WaitSupervisor => s.supervisor == Ended
      case FlushAcks => s.queued == {} || timedOut
      case WaitSends => s.sending == 0
      case Closed => false
      case _ => true
  }

  /** Neither handlers nor events change. */
  predicate SameEvents(s: State, next: State) {
    && next.handlers == s.handlers && next.server == s.server && next.arrived == s.arrived && next.consumed == s.consumed
    && next.queued == s.queued && next.losses == s.losses
  }

  function Close(s: State): (next: State)
    ensures SameEvents(s, next) && (s.closing ==> next.closing) && (s.stopped ==> next.stopped)
  {
    match s.pc
    case NotClosing => s.(closing := true, pc := DrainSends)
    case DrainSends => s.(done := true, pc := WaitHandlers)
    case WaitHandlers => s.(pc := StopSupervisor)
    case StopSupervisor => s.(stopped := true, pc := WaitSupervisor)
    case WaitSupervisor => s.(pc := FlushAcks)
    case FlushAcks => s.(pc := StopLoops, gaveUp := s.queued != {})
    case StopLoops => s.(pc := CloseEvents)
    case CloseEvents => s.(eventsClosed := true, pc := WaitSends)
    case WaitSends => s.(pc := Release)
    case Release => s.(released := true, pc := Closed)
    case Closed => s
  }

  /** A step with which a handler goes on, before it returns. */
  predicate HandlerStep(step: Step) {
    step.HandlerFails? || step.HandlerEmits? || step.ConsumerTakes? || step.EmitAborts?
  }

  function After(h: Handler, step: Step): Handler
    requires HandlerStep(step) && (step.ConsumerTakes? ==> h.Emitting?) && (step.HandlerEmits? ==> h.Entered?)
  {
    match step
    case HandlerEmits(_) => Emitting(h.event, h.reports)
    case ConsumerTakes(_) => if h.reports > 0 then Emitting(h.event, h.reports - 1) else Returning(h.event, true)
    case _ => Returning(h.event, false)
  }

  function Moved(s: State, step: Step): State
    requires HandlerStep(step) && Enabled(s, step)
  {
    var h := s.handlers[step.i];
    var after := After(h, step);
    s.(handlers := s.handlers[step.i := after],
       consumed := s.consumed + if after.Returning? && after.ack then multiset{h.event} else multiset{})
  }

  /** The state after a step. Sending hands an event over in one step, as the channel is unbuffered. */
  function Next(s: State, step: Step): (next: State)
    requires Enabled(s, step)
    ensures (s.closing ==> next.closing) && (s.stopped ==> next.stopped)
  {
    match step
    case Arrive(e) => s.(arrived := s.arrived + {e}, server := s.server + {e})
    case BeginHandler(e, reports) => s.(handling := s.handling + 1, handlers := s.handlers + [Entered(e, reports)])
    case HandlerFails(_) => Moved(s, step)
    case HandlerEmits(_) => Moved(s, step)
    case ConsumerTakes(_) => Moved(s, step)
    case EmitAborts(_) => Moved(s, step)
    case HandlerReturns(i) =>
      var h := s.handlers[i];
      s.(handlers := s.handlers[..i] + s.handlers[i + 1..],
         handling := if s.handling > 0 then s.handling - 1 else 0,
         queued := if h.ack then s.queued + {h.event} else s.queued)
    case AckWritten(e) => s.(queued := s.queued - {e}, server := s.server - {e})
    case AckLost(e) => s.(queued := s.queued - {e}, losses := s.losses + multiset{e})
    case BeginOperation => s.(sending := s.sending + 1, operations := s.operations + 1)
    case OperationReturns => s.(sending := if s.sending > 0 then s.sending - 1 else 0, operations := s.operations - 1)
    case SupervisorAnnounces => s.(supervisor := Announcing)
    case SupervisorTaken => s.(supervisor := Watching)
    case SupervisorAborts => s.(supervisor := Watching)
    case SupervisorEnds => s.(supervisor := Ended)
    case CloseStep(_) => Close(s)
  }

  /** Some steps from any state. */
  predicate IsPath(states: seq<State>, steps: seq<Step>) {
    && |states| == |steps| + 1
    && forall k :: 0 <= k < |steps| ==> Enabled(states[k], steps[k]) && states[k + 1] == Next(states[k], steps[k])
  }

  predicate IsRun(states: seq<State>, steps: seq<Step>) {
    IsPath(states, steps) && Init(states[0])
  }

  ghost predicate Reachable(s: State) {
    exists states: seq<State>, steps: seq<Step> :: IsRun(states, steps) && states[|states| - 1] == s
  }

  // ----- The invariant -----

  function Stage(pc: ClosePc): nat {
    match pc
    case NotClosing => 0 case DrainSends => 1 case WaitHandlers => 2 case StopSupervisor => 3 case WaitSupervisor => 4
    case FlushAcks => 5 case StopLoops => 6 case CloseEvents => 7 case WaitSends => 8 case Release => 9 case Closed => 10
  }

  predicate Phases(s: State) {
    && (s.closing <==> Stage(s.pc) >= 1) && (s.done <==> Stage(s.pc) >= 2)
    && (s.stopped <==> Stage(s.pc) >= 4) && (s.eventsClosed <==> Stage(s.pc) >= 8) && (s.released <==> s.pc == Closed)
    && s.handling == |s.handlers| && s.sending == s.operations
    && (Stage(s.pc) >= 3 ==> s.handlers == [])
    && (Stage(s.pc) >= 5 ==> s.supervisor == Ended)
    && (Stage(s.pc) >= 6 && !s.gaveUp ==> s.queued == {})
    && (Stage(s.pc) >= 9 ==> s.operations == 0)
  }

  /** The events whose handler is about to return an ack. */
  function Acks(handlers: seq<Handler>): set<EventId> {
    set i | 0 <= i < |handlers| && handlers[i].Returning? && handlers[i].ack :: handlers[i].event
  }

  /** Each handler works on its own event, which the server still has and whose ack isn't on its way. */
  predicate OwnEvents(handlers: seq<Handler>, server: set<EventId>, queued: set<EventId>) {
    && (forall i :: 0 <= i < |handlers| ==> handlers[i].event in server && handlers[i].event !in queued)
    && forall i, j :: 0 <= i < j < |handlers| ==> handlers[i].event != handlers[j].event
  }

  /** The consumer's last taking of the event isn't undone: its ack is about to be returned, on its way or written. */
  predicate Acked(s: State, e: EventId) {
    e in Acks(s.handlers) || e in s.queued || (e in s.arrived && e !in s.server)
  }

  /** Each time the consumer took an event, its ack was lost or still counts. */
  ghost predicate Balanced(s: State) {
    forall e :: s.consumed[e] == s.losses[e] + if Acked(s, e) then 1 else 0
  }

  ghost predicate Accounted(s: State) {
    && s.queued <= s.server <= s.arrived && OwnEvents(s.handlers, s.server, s.queued) && Balanced(s)
    && forall e :: e in s.losses ==> e in s.arrived
  }

  ghost predicate Invariant(s: State) {
    Phases(s) && Accounted(s)
  }

  predicate SupervisorStep(step: Step) {
    step.SupervisorAnnounces? || step.SupervisorTaken? || step.SupervisorAborts? || step.SupervisorEnds?
  }

  /** A step that touches neither handlers nor events. */
  predicate QuietStep(step: Step) {
    step.BeginOperation? || step.OperationReturns? || SupervisorStep(step) || step.CloseStep?
  }

  lemma ClosePhases(s: State)
    requires Phases(s) && exists timedOut :: Enabled(s, CloseStep(timedOut))
    ensures Phases(Close(s))
  {
  }

  lemma MovedPhases(s: State, step: Step)
    requires Phases(s) && HandlerStep(step) && Enabled(s, step)
    ensures Phases(Moved(s, step))
  {
  }

  lemma OwnPhases(s: State, step: Step)
    requires Phases(s) && Enabled(s, step) && (SupervisorStep(step) || step.BeginOperation? || step.OperationReturns?)
    ensures Phases(Next(s, step))
  {
  }

  lemma EventPhases(s: State, step: Step)
    requires Phases(s) && Enabled(s, step) && (step.Arrive? || step.BeginHandler? || step.AckWritten? || step.AckLost?)
    ensures Phases(Next(s, step))
  {
  }

  lemma ReturnPhases(s: State, i: nat)
    requires Phases(s) && Enabled(s, HandlerReturns(i))
    ensures Phases(Next(s, HandlerReturns(i)))
  {
  }

  lemma PhasesKept(s: State, step: Step)
    requires Phases(s) && Enabled(s, step)
    ensures Phases(Next(s, step))
  {
    if HandlerStep(step) {
      MovedPhases(s, step);
    } else if step.HandlerReturns? {
      ReturnPhases(s, step.i);
    } else if step.CloseStep? {
      ClosePhases(s);
    } else if SupervisorStep(step) || step.BeginOperation? || step.OperationReturns? {
      OwnPhases(s, step);
    } else {
      EventPhases(s, step);
    }
  }

  // ----- What a step does to the events -----

  lemma AcksUpdate(handlers: seq<Handler>, i: nat, h: Handler)
    requires i < |handlers| && h.event == handlers[i].event
    requires forall j, k :: 0 <= j < k < |handlers| ==> handlers[j].event != handlers[k].event
    ensures Acks(handlers[i := h]) == Acks(handlers) - {h.event} + if h.Returning? && h.ack then {h.event} else {}
  {
    var next := handlers[i := h];
    forall e ensures e in Acks(next) <==> e in Acks(handlers) - {h.event} + if h.Returning? && h.ack then {h.event} else {} {
      if e in Acks(handlers) && e != h.event {
        var k :| 0 <= k < |handlers| && handlers[k].Returning? && handlers[k].ack && handlers[k].event == e;
        assert next[k] == handlers[k];
      }
      if h.Returning? && h.ack { assert next[i] == h; }
    }
  }

  lemma AcksWithout(handlers: seq<Handler>, i: nat, left: seq<Handler>)
    requires i < |handlers| && left == handlers[..i] + handlers[i + 1..]
    requires forall j, k :: 0 <= j < k < |handlers| ==> handlers[j].event != handlers[k].event
    ensures Acks(left) == Acks(handlers) - {handlers[i].event}
    ensures forall k :: 0 <= k < |left| ==> left[k] in handlers && left[k].event != handlers[i].event
    ensures forall j, k :: 0 <= j < k < |left| ==> left[j].event != left[k].event
  {
    assert forall k :: 0 <= k < |left| ==> left[k] == handlers[if k < i then k else k + 1];
    forall e | e in Acks(handlers) && e != handlers[i].event ensures e in Acks(left) {
      var k :| 0 <= k < |handlers| && handlers[k].Returning? && handlers[k].ack && handlers[k].event == e;
      assert left[if k < i then k else k - 1] == handlers[k];
    }
  }

  /** A handler goes on with its event. */
  lemma HandlerGoesOn(s: State, i: nat, h: Handler, taken: bool)
    requires Accounted(s) && i < |s.handlers| && h.event == s.handlers[i].event && h.event !in Acks(s.handlers)
    requires taken <==> h.Returning? && h.ack
    ensures Accounted(s.(handlers := s.handlers[i := h], consumed := s.consumed + if taken then multiset{h.event} else multiset{}))
  {
    var next := s.(handlers := s.handlers[i := h], consumed := s.consumed + if taken then multiset{h.event} else multiset{});
    AcksUpdate(s.handlers, i, h);
    assert forall k :: 0 <= k < |next.handlers| ==> next.handlers[k].event == s.handlers[k].event;
    assert forall e :: Acked(next, e) == (Acked(s, e) || (taken && e == h.event));
  }

  lemma NotYetAcked(s: State, i: nat)
    requires Accounted(s) && i < |s.handlers| && (!s.handlers[i].Returning? || !s.handlers[i].ack)
    ensures s.handlers[i].event !in Acks(s.handlers)
  {
    if s.handlers[i].event in Acks(s.handlers) {
      var k :| 0 <= k < |s.handlers| && s.handlers[k].Returning? && s.handlers[k].ack && s.handlers[k].event == s.handlers[i].event;
    }
  }

  lemma MovedAccounted(s: State, step: Step)
    requires Accounted(s) && HandlerStep(step) && Enabled(s, step)
    ensures Accounted(Moved(s, step))
  {
    NotYetAcked(s, step.i);
    var after := After(s.handlers[step.i], step);
    HandlerGoesOn(s, step.i, after, after.Returning? && after.ack);
  }

  lemma ReturnAccounted(s: State, i: nat)
    requires Accounted(s) && Enabled(s, HandlerReturns(i))
    ensures Accounted(Next(s, HandlerReturns(i)))
  {
    var next, h := Next(s, HandlerReturns(i)), s.handlers[i];
    AcksWithout(s.handlers, i, next.handlers);
    if h.ack {
      assert h.event in Acks(s.handlers);
    } else {
      NotYetAcked(s, i);
    }
    assert forall e :: Acked(next, e) == Acked(s, e);
  }

  lemma BeginAccounted(s: State, e: EventId, reports: nat)
    requires Accounted(s) && Enabled(s, BeginHandler(e, reports))
    ensures Accounted(Next(s, BeginHandler(e, reports)))
  {
    var next := Next(s, BeginHandler(e, reports));
    assert forall k :: 0 <= k < |s.handlers| ==> next.handlers[k] == s.handlers[k];
    assert Acks(next.handlers) == Acks(s.handlers);
    assert forall x :: Acked(next, x) == Acked(s, x);
  }

  lemma AckAccounted(s: State, step: Step)
    requires Accounted(s) && Enabled(s, step) && (step.AckWritten? || step.AckLost? || step.Arrive?)
    ensures Accounted(Next(s, step))
  {
    var next, event := Next(s, step), step.event;
    assert next.handlers == s.handlers;
    forall k | 0 <= k < |s.handlers| ensures s.handlers[k].event in next.server && s.handlers[k].event !in next.queued {
      assert s.handlers[k].event in s.server && s.handlers[k].event !in s.queued;
    }
    assert event !in Acks(s.handlers) by {
      assert forall k :: 0 <= k < |s.handlers| ==> s.handlers[k].event in s.server && s.handlers[k].event !in s.queued;
    }
    assert forall x :: x != event ==> Acked(next, x) == Acked(s, x);
    if step.Arrive? { assert s.losses[event] == 0; }
  }

  lemma QuietStepKeepsEvents(s: State, step: Step)
    requires Enabled(s, step) && QuietStep(step)
    ensures SameEvents(s, Next(s, step))
  {
    match step
    case CloseStep(_) =>
    case _ =>
  }

  lemma SameEventsAccounted(s: State, next: State)
    requires Accounted(s) && SameEvents(s, next)
    ensures Accounted(next)
  {
    assert forall e :: Acked(next, e) == Acked(s, e);
  }

  lemma AccountedKept(s: State, step: Step)
    requires Accounted(s) && Enabled(s, step)
    ensures Accounted(Next(s, step))
  {
    match step
    case Arrive(_) => AckAccounted(s, step);
    case AckWritten(_) => AckAccounted(s, step);
    case AckLost(_) => AckAccounted(s, step);
    case BeginHandler(e, reports) => BeginAccounted(s, e, reports);
    case HandlerFails(_) => MovedAccounted(s, step);
    case HandlerEmits(_) => MovedAccounted(s, step);
    case ConsumerTakes(_) => MovedAccounted(s, step);
    case EmitAborts(_) => MovedAccounted(s, step);
    case HandlerReturns(i) => ReturnAccounted(s, i);
    case _ =>
      QuietStepKeepsEvents(s, step);
      SameEventsAccounted(s, Next(s, step));
  }

  lemma StepKeepsInvariant(s: State, step: Step)
    requires Invariant(s) && Enabled(s, step)
    ensures Invariant(Next(s, step))
  {
    PhasesKept(s, step);
    AccountedKept(s, step);
  }

  lemma {:induction false} RunKeepsInvariant(states: seq<State>, steps: seq<Step>)
    requires IsRun(states, steps)
    ensures Invariant(states[|states| - 1])
    decreases |steps|
  {
    if steps != [] {
      var n := |steps|;
      assert IsRun(states[..n], steps[..n - 1]);
      RunKeepsInvariant(states[..n], steps[..n - 1]);
      StepKeepsInvariant(states[n - 1], steps[n - 1]);
    }
  }

  lemma ReachableInvariant(s: State)
    requires Reachable(s)
    ensures Invariant(s)
  {
    var states: seq<State>, steps: seq<Step> :| IsRun(states, steps) && states[|states| - 1] == s;
    RunKeepsInvariant(states, steps);
  }

  // ----- Safety -----

  /** Once the events channel is closed, nobody is at sending on it: no handler runs, and the supervisor
      has ended. */
  lemma NothingSentAfterClose(s: State)
    requires Reachable(s) && s.eventsClosed
    ensures forall i :: 0 <= i < |s.handlers| ==> !s.handlers[i].Emitting?
    ensures s.supervisor != Announcing
  {
    ReachableInvariant(s);
  }

  /** When the store is released, no handler and no operation runs, and none can begin. */
  lemma ReleasedWhenIdle(s: State)
    requires Reachable(s) && s.released
    ensures s.handlers == [] && s.operations == 0
    ensures !Enabled(s, BeginOperation) && forall e, reports :: !Enabled(s, BeginHandler(e, reports))
  {
    ReachableInvariant(s);
  }

  /** No event is lost: each one that arrived is on the server or was taken by the consumer. Each time the
      consumer took it, but the last, the ack was lost; the last one is about to be returned, on its way or
      written, unless it was lost, too. */
  lemma EventsConserved(s: State, e: EventId)
    requires Reachable(s)
    ensures e in s.arrived <==> e in s.server || e in s.consumed
    ensures s.consumed[e] == s.losses[e] + if Acked(s, e) then 1 else 0
  {
    ReachableInvariant(s);
    assert e in s.consumed ==> s.consumed[e] > 0;
    if Acked(s, e) && e in Acks(s.handlers) {
      var k :| 0 <= k < |s.handlers| && s.handlers[k].Returning? && s.handlers[k].ack && s.handlers[k].event == e;
      assert s.handlers[k].event in s.server;
    }
  }

  /** After Close, each event is consumed or still on the server for the next run; it is both exactly when
      its ack was on its way and never written. */
  lemma ClosedPartition(s: State, e: EventId)
    requires Reachable(s) && s.pc == Closed && e in s.arrived
    ensures e in s.server || e in s.consumed
    ensures e in s.server && e in s.consumed <==> e in s.server && (e in s.queued || e in s.losses)
  {
    ReachableInvariant(s);
    EventsConserved(s, e);
    assert Acks(s.handlers) == {};
  }

  lemma Extend(states: seq<State>, steps: seq<Step>, step: Step) returns (more: seq<State>, moreSteps: seq<Step>)
    requires IsRun(states, steps) && Enabled(states[|states| - 1], step)
    ensures IsRun(more, moreSteps) && more[|more| - 1] == Next(states[|states| - 1], step)
  {
    more, moreSteps := states + [Next(states[|states| - 1], step)], steps + [step];
  }

  predicate Idle(s: State) {
    s.handling == 0 && s.sending == 0 && s.supervisor == Ended
  }

  lemma IdleCloses(s: State)
    requires Idle(s) && s.pc != Closed
    ensures Enabled(s, CloseStep(true)) && Idle(Close(s)) && Stage(Close(s).pc) == Stage(s.pc) + 1
  {
  }

  /** Close goes through its stages, giving up the flushing, while nothing else has to be waited for. */
  lemma {:induction false} CloseAlone(states: seq<State>, steps: seq<Step>) returns (more: seq<State>, moreSteps: seq<Step>)
    requires IsRun(states, steps) && Idle(states[|states| - 1])
    ensures IsRun(more, moreSteps) && more[|more| - 1].pc == Closed
    ensures SameEvents(states[|states| - 1], more[|more| - 1])
    decreases 10 - Stage(states[|states| - 1].pc)
  {
    more, moreSteps := states, steps;
    var s := states[|states| - 1];
    if s.pc != Closed {
      IdleCloses(s);
      more, moreSteps := Extend(states, steps, CloseStep(true));
      assert more[|more| - 1] == Close(s);
      more, moreSteps := CloseAlone(more, moreSteps);
    }
  }

  lemma TakenOnce(e: EventId) returns (states: seq<State>, steps: seq<Step>)
    ensures IsRun(states, steps)
    ensures var s := states[|states| - 1];
            && s.handlers == [Returning(e, true)] && s.handling == 1 && s.sending == 0 && s.supervisor == Watching
            && s.server == {e} && s.consumed == multiset{e} && s.losses == multiset{}
  {
    states := [State(false, false, false, false, false, 0, 0, [], 0, Watching, NotClosing, false,
                     {}, {}, {}, multiset{}, false, multiset{})];
    steps := [];
    states, steps := Extend(states, steps, Arrive(e));
    states, steps := Extend(states, steps, BeginHandler(e, 0));
    states, steps := Extend(states, steps, HandlerEmits(0));
    states, steps := Extend(states, steps, ConsumerTakes(0));
  }

  /** It can be both: the consumer takes an event, and flushing is given up before the ack is written. */
  lemma ConsumedAndKept() returns (states: seq<State>, steps: seq<Step>, e: EventId)
    ensures IsRun(states, steps)
    ensures var s := states[|states| - 1]; s.pc == Closed && e in s.server && e in s.consumed && s.losses == multiset{}
  {
    e := 1;
    states, steps := TakenOnce(e);
    states, steps := Extend(states, steps, HandlerReturns(0));
    states, steps := Extend(states, steps, SupervisorEnds);
    states, steps := CloseAlone(states, steps);
  }

  /** If no ack was lost and Close flushed them all, no event is both. */
  lemma FlushedPartition(s: State, e: EventId)
    requires Reachable(s) && s.pc == Closed && e in s.arrived && !s.gaveUp && s.losses == multiset{}
    ensures e in s.server <==> e !in s.consumed
    ensures s.consumed[e] <= 1
  {
    ReachableInvariant(s);
    EventsConserved(s, e);
    assert Acks(s.handlers) == {};
  }

  // ----- Progress of Close -----

  function Weight(h: Handler): nat {
    match h
    case Entered(_, reports) => reports + 4
    case Emitting(_, reports) => reports + 3
    case Returning(_, _) => 2
  }

  function Weights(handlers: seq<Handler>): nat {
    if handlers == [] then 0 else Weights(handlers[..|handlers| - 1]) + Weight(handlers[|handlers| - 1])
  }

  function SupervisorWeight(s: State): nat {
    if !s.stopped || s.supervisor == Announcing then 2 else if s.supervisor == Watching then 1 else 0
  }

  /** What is left to do before Close has returned. */
  function Remaining(s: State): nat {
    Weights(s.handlers) + |s.queued| + s.operations + SupervisorWeight(s) + (10 - Stage(s.pc))
  }

  lemma {:induction false} WeightsUpdate(handlers: seq<Handler>, i: nat, h: Handler)
    requires i < |handlers|
    ensures Weights(handlers[i := h]) == Weights(handlers) - Weight(handlers[i]) + Weight(h)
  {
    var front := handlers[..|handlers| - 1];
    if i == |handlers| - 1 {
      assert handlers[i := h][..|handlers| - 1] == front;
    } else {
      assert handlers[i := h][..|handlers| - 1] == front[i := h];
      WeightsUpdate(front, i, h);
    }
  }

  lemma {:induction false} WeightsRemove(handlers: seq<Handler>, i: nat)
    requires i < |handlers|
    ensures Weights(handlers[..i] + handlers[i + 1..]) == Weights(handlers) - Weight(handlers[i])
  {
    var front := handlers[..|handlers| - 1];
    if i == |handlers| - 1 {
      assert handlers[..i] + handlers[i + 1..] == front;
    } else {
      var without := handlers[..i] + handlers[i + 1..];
      assert without[..|without| - 1] == front[..i] + front[i + 1..];
      assert without[|without| - 1] == handlers[|handlers| - 1];
      WeightsRemove(front, i);
    }
  }

  /** Once Close has begun, no step adds work, and every step of a handler, an operation or Close itself
      reduces it, as do the supervisor's once it is stopped. */
  lemma StepsReduceWork(s: State, step: Step)
    requires Phases(s) && s.closing && Enabled(s, step)
    ensures Remaining(Next(s, step)) <= Remaining(s)
    ensures !step.Arrive? && (!SupervisorStep(step) || s.stopped) ==> Remaining(Next(s, step)) < Remaining(s)
  {
    if step.CloseStep? {
      CloseReducesWork(s);
    } else if SupervisorStep(step) || step.OperationReturns? {
      OwnStepsReduceWork(s, step);
    } else if HandlerStep(step) {
      MovedReduces(s, step);
    } else if step.HandlerReturns? {
      ReturnReduces(s, step.i);
    } else if step.AckWritten? || step.AckLost? {
      AckReduces(s, step);
    }
  }

  lemma CloseReducesWork(s: State)
    requires Phases(s) && s.pc != Closed
    ensures Remaining(Close(s)) < Remaining(s)
  {
    var next := Close(s);
    assert Stage(next.pc) == Stage(s.pc) + 1;
    assert SupervisorWeight(next) <= SupervisorWeight(s);
  }

  lemma OwnStepsReduceWork(s: State, step: Step)
    requires Phases(s) && s.closing && Enabled(s, step) && (SupervisorStep(step) || step.OperationReturns?)
    ensures Remaining(Next(s, step)) <= Remaining(s)
    ensures !SupervisorStep(step) || s.stopped ==> Remaining(Next(s, step)) < Remaining(s)
  {
  }

  lemma AfterIsLighter(s: State, step: Step)
    requires HandlerStep(step) && Enabled(s, step)
    ensures Weight(After(s.handlers[step.i], step)) < Weight(s.handlers[step.i])
  {
  }

  lemma MovedReduces(s: State, step: Step)
    requires HandlerStep(step) && Enabled(s, step)
    ensures Remaining(Moved(s, step)) < Remaining(s)
  {
    AfterIsLighter(s, step);
    WeightsUpdate(s.handlers, step.i, After(s.handlers[step.i], step));
  }

  lemma OneMore(events: set<EventId>, e: EventId)
    ensures |events + {e}| <= |events| + 1
  {
    if e in events { assert events + {e} == events; }
  }

  lemma ReturnReduces(s: State, i: nat)
    requires Enabled(s, HandlerReturns(i))
    ensures Remaining(Next(s, HandlerReturns(i))) < Remaining(s)
  {
    WeightsRemove(s.handlers, i);
    OneMore(s.queued, s.handlers[i].event);
  }

  lemma AckReduces(s: State, step: Step)
    requires Enabled(s, step) && (step.AckWritten? || step.AckLost?)
    ensures Remaining(Next(s, step)) < Remaining(s)
  {
  }

  /** Close is never stuck: while it hasn't returned, some step of what it waits for, which needs neither
      the consumer nor the server, reduces the work left. */
  lemma CloseNotStuck(s: State) returns (step: Step)
    requires Invariant(s) && s.closing && s.pc != Closed
    ensures Enabled(s, step) && Remaining(Next(s, step)) < Remaining(s)
    ensures !step.ConsumerTakes? && !step.SupervisorTaken? && !step.AckWritten? && !step.Arrive?
  {
    if s.pc == WaitHandlers && s.handlers != [] {
      step := match s.handlers[0]
              case Entered(_, _) => HandlerFails(0)
              case Emitting(_, _) => EmitAborts(0)
              case Returning(_, _) => HandlerReturns(0);
    } else if s.pc == WaitSupervisor && s.supervisor == Announcing {
      step := SupervisorAborts;
    } else if s.pc == WaitSupervisor && s.supervisor == Watching {
      step := SupervisorEnds;
    } else if s.pc == WaitSends && s.operations > 0 {
      step := OperationReturns;
    } else {
      step := CloseStep(true);
    }
    StepsReduceWork(s, step);
  }

  /** The steps that reduce the work left: all but arrivals and what the supervisor does before it is stopped. */
  function Reducing(states: seq<State>, steps: seq<Step>): nat
    requires |states| == |steps| + 1
  {
    if steps == [] then 0
    else
      var n := |steps| - 1;
      Reducing(states[..n + 1], steps[..n])
      + if !steps[n].Arrive? && (!SupervisorStep(steps[n]) || states[n].stopped) then 1 else 0
  }

  lemma PathFront(states: seq<State>, steps: seq<Step>)
    requires IsPath(states, steps) && steps != []
    ensures var n := |steps| - 1;
            IsPath(states[..n + 1], steps[..n]) && Enabled(states[n], steps[n]) && states[n + 1] == Next(states[n], steps[n])
  {
  }

  /** Whatever the schedule: once Close has begun, as many of these steps as there is work left are possible. */
  lemma {:induction false} RunsAreBounded(states: seq<State>, steps: seq<Step>)
    requires IsPath(states, steps) && Invariant(states[0]) && states[0].closing
    ensures Invariant(states[|steps|]) && states[|steps|].closing
    ensures Reducing(states, steps) + Remaining(states[|steps|]) <= Remaining(states[0])
    decreases |steps|
  {
    if steps != [] {
      var n := |steps| - 1;
      PathFront(states, steps);
      RunsAreBounded(states[..n + 1], steps[..n]);
      StepKeepsInvariant(states[n], steps[n]);
      StepsReduceWork(states[n], steps[n]);
    }
  }

  lemma {:induction false} AllReduce(states: seq<State>, steps: seq<Step>)
    requires IsPath(states, steps) && states[0].stopped && forall k :: 0 <= k < |steps| ==> !steps[k].Arrive?
    ensures Reducing(states, steps) == |steps| && states[|steps|].stopped
    decreases |steps|
  {
    if steps != [] {
      var n := |steps| - 1;
      PathFront(states, steps);
      AllReduce(states[..n + 1], steps[..n]);
    }
  }

  /** So every run without arrivals ends once the supervisor is stopped, after at most as many steps as there
      is work left; and if nothing else can happen, Close has returned. */
  lemma MaximalRunsClose(states: seq<State>, steps: seq<Step>)
    requires IsPath(states, steps) && Invariant(states[0]) && states[0].closing
    ensures states[0].stopped && (forall k :: 0 <= k < |steps| ==> !steps[k].Arrive?) ==> |steps| <= Remaining(states[0])
    ensures (forall step :: Enabled(states[|steps|], step) ==> step.Arrive?) ==> states[|steps|].pc == Closed
  {
    RunsAreBounded(states, steps);
    if states[0].stopped && forall k :: 0 <= k < |steps| ==> !steps[k].Arrive? {
      AllReduce(states, steps);
    }
    if states[|steps|].pc != Closed {
      var step := CloseNotStuck(states[|steps|]);
    }
  }

  /** From every reachable state in which Close has begun, it can be completed in as many steps as there
      is work left, without the consumer taking anything or the server receiving an ack; no handler stays
      blocked. */
  lemma {:induction false} CloseCompletes(s: State) returns (states: seq<State>, steps: seq<Step>)
    requires Invariant(s) && s.closing
    ensures IsPath(states, steps) && states[0] == s && states[|steps|].pc == Closed && |steps| <= Remaining(s)
    ensures forall k :: 0 <= k < |steps| ==> !steps[k].ConsumerTakes? && !steps[k].SupervisorTaken? && !steps[k].AckWritten?
    ensures states[|steps|].handlers == [] && states[|steps|].operations == 0
    decreases Remaining(s)
  {
    if s.pc == Closed {
      return [s], [];
    }
    var first := CloseNotStuck(s);
    StepKeepsInvariant(s, first);
    var laterStates, laterSteps := CloseCompletes(Next(s, first));
    states, steps := [s] + laterStates, [first] + laterSteps;
  }
}
