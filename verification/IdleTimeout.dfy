/** The idle-timeout middleware as interleaved steps: an atomic counter, a one-slot event
    channel, the timer goroutine with its timer, and a one-slot notification channel.

    The atomic add of a request and the channel send that may follow it are separate steps,
    so another request can run in between. */
module IdleTimeout {
  import opened Wrappers

  const WORDS := 0x1_0000_0000_0000_0000

  datatype Event = ResetTimer | StartTimer | StopTimer

  /** `time.Timer`: running, and with which of the two durations; `tick` is its one-slot channel.
      The infinite duration never fires. */
  datatype Timer = Timer(active: bool, finite: bool, tick: bool)

  /** Where the timer goroutine is. */
  datatype Pc =
    | Head                  // in the outer select
    | Ticked                // received from t.C, about to notify
    | Notified              // about to re-arm
    | Received(ev: Event)   // about to stop the timer
    | Draining(ev: Event)   // Stop returned false, about to receive from t.C
    | Setting(ev: Event)    // in the switch over the event
    | Stopped

  /** The counter, and the requests that are between two of their steps. */
  datatype Requests = Requests(
    counter: nat,
    resetting: set<nat>,   // made the counter 1 and have not sent ResetTimer yet
    serving: set<nat>,     // past startRequest and before the decrement
    starting: set<nat>,    // made the counter 0 and have not sent StartTimer yet
    resetsIssued: nat,     // 0-to-1 transitions so far
    startsIssued: nat)     // 1-to-0 transitions so far

  /** The timer goroutine with its timer and notifyCh, and the events it has received. */
  datatype Loop = Loop(pc: Pc, timer: Timer, notifications: nat, received: seq<Event>)

  /** `slot` is eventCh; `cancels` counts the calls of Cancel that have not sent StopTimer yet. */
  datatype State = State(reqs: Requests, cancels: nat, slot: Option<Event>, sent: seq<Event>, loop: Loop)

  datatype Step =
    | Begin(r: nat) | SendReset(r: nat) | End(r: nat) | SendStart(r: nat)
    | Cancel | SendStop
    | ReceiveEvent
    | InLoop(move: Move)

  /** Steps of the goroutine that leave eventCh alone, the clock, and a caller of Wait. */
  datatype Move = Fire | ReceiveTick | Notify | Rearm | StopTheTimer | Drain | SetTimer | Wait

  function Init(): State {
    State(Requests(0, {}, {}, {}, 0, 0), 0, None, [], Loop(Head, Timer(true, true, false), 0, []))
  }

  // Requests

  function InFlight(q: Requests): set<nat> {
    q.resetting + q.serving
  }

  /** `AddUint64(&counter, 1)`, and with `^uint64(0)` the decrement. */
  function AddUint64(counter: nat, delta: nat): nat {
    (counter + delta) % WORDS
  }

  /** Fewer than 2^64 requests are in flight at once. */
  predicate CanBegin(q: Requests, r: nat) {
    r !in InFlight(q) + q.starting && |InFlight(q)| + 1 < WORDS
  }

  function Begun(q: Requests, r: nat): Requests {
    var c := AddUint64(q.counter, 1);
    if c == 1
    then q.(counter := c, resetting := q.resetting + {r}, resetsIssued := q.resetsIssued + 1)
    else q.(counter := c, serving := q.serving + {r})
  }

  function ResetSent(q: Requests, r: nat): Requests {
    q.(resetting := q.resetting - {r}, serving := q.serving + {r})
  }

  function Ended(q: Requests, r: nat): Requests {
    var c := AddUint64(q.counter, WORDS - 1);
    if c == 0
    then q.(counter := c, serving := q.serving - {r}, starting := q.starting + {r},
            startsIssued := q.startsIssued + 1)
    else q.(counter := c, serving := q.serving - {r})
  }

  function StartSent(q: Requests, r: nat): Requests {
    q.(starting := q.starting - {r})
  }

  // The goroutine

  predicate CanMove(l: Loop, m: Move) {
    match m
    case Fire => l.timer.active && l.timer.finite
    case ReceiveTick => l.pc.Head? && l.timer.tick
    case Notify => l.pc.Ticked?
    case Rearm => l.pc.Notified?
    case StopTheTimer => l.pc.Received?
    case Drain => l.pc.Draining? && l.timer.tick
    case SetTimer => l.pc.Setting?
    case Wait => l.notifications > 0
  }

  function Moved(l: Loop, m: Move): Loop
    requires CanMove(l, m)
  {
    match m
    case Fire => l.(timer := l.timer.(active := false, tick := true))
    case ReceiveTick => l.(pc := Ticked, timer := l.timer.(tick := false))
    case Notify =>
      l.(pc := Notified, notifications := if l.notifications < 1 then l.notifications + 1 else l.notifications)
    case Rearm => l.(pc := Head, timer := l.timer.(active := true, finite := true))
    case StopTheTimer =>
      if l.timer.active
      then l.(pc := Setting(l.pc.ev), timer := l.timer.(active := false))
      else l.(pc := Draining(l.pc.ev))
    case Drain => l.(pc := Setting(l.pc.ev), timer := l.timer.(tick := false))
    case SetTimer =>
      (match l.pc.ev
       case ResetTimer => l.(pc := Head, timer := l.timer.(active := true, finite := false))
       case StartTimer => l.(pc := Head, timer := l.timer.(active := true, finite := true))
       case StopTimer => l.(pc := Stopped))
    case Wait => l.(notifications := l.notifications - 1)
  }

  function EventReceived(l: Loop, e: Event): Loop {
    l.(pc := Received(e), received := l.received + [e])
  }

  // Together

  /** A send needs a free slot. */
  predicate Enabled(s: State, step: Step) {
    match step
    case Begin(r) => CanBegin(s.reqs, r)
    case SendReset(r) => r in s.reqs.resetting && s.slot.None?
    case End(r) => r in s.reqs.serving
    case SendStart(r) => r in s.reqs.starting && s.slot.None?
    case Cancel => true
    case SendStop => s.cancels > 0 && s.slot.None?
    case ReceiveEvent => s.loop.pc.Head? && s.slot.Some?
    case InLoop(m) => CanMove(s.loop, m)
  }

  function Send(s: State, e: Event): State {
    s.(slot := Some(e), sent := s.sent + [e])
  }

  function Apply(s: State, step: Step): State
    requires Enabled(s, step)
  {
    match step
    case Begin(r) => s.(reqs := Begun(s.reqs, r))
    case SendReset(r) => Send(s, ResetTimer).(reqs := ResetSent(s.reqs, r))
    case End(r) => s.(reqs := Ended(s.reqs, r))
    case SendStart(r) => Send(s, StartTimer).(reqs := StartSent(s.reqs, r))
    case Cancel => s.(cancels := s.cancels + 1)
    case SendStop => Send(s, StopTimer).(cancels := s.cancels - 1)
    case ReceiveEvent => s.(slot := None, loop := EventReceived(s.loop, s.slot.value))
    case InLoop(m) => s.(loop := Moved(s.loop, m))
  }

  // Runs

  predicate Valid(s: State, steps: seq<Step>)
    decreases steps
  {
    steps == [] || (Enabled(s, steps[0]) && Valid(Apply(s, steps[0]), steps[1..]))
  }

  function Run(s: State, steps: seq<Step>): State
    requires Valid(s, steps)
    decreases steps
  {
    if steps == [] then s else Run(Apply(s, steps[0]), steps[1..])
  }

  ghost predicate Reachable(s: State) {
    exists steps :: Valid(Init(), steps) && Run(Init(), steps) == s
  }

  // The counter and the events issued

  ghost predicate Counts(q: Requests) {
    && q.resetting !! q.serving
    && q.counter == |q.resetting| + |q.serving| == |InFlight(q)| < WORDS
    && |q.resetting| <= 1
    && q.resetsIssued == q.startsIssued + (if q.counter > 0 then 1 else 0)
    && q.starting !! InFlight(q)
  }

  lemma Increment(counter: nat)
    requires counter + 1 < WORDS
    ensures AddUint64(counter, 1) == counter + 1
  {
  }

  lemma BegunCounts(q: Requests, r: nat)
    requires Counts(q) && CanBegin(q, r)
    ensures Counts(Begun(q, r)) && Begun(q, r).counter == q.counter + 1
  {
    Increment(q.counter);
    var t := Begun(q, r);
    assert InFlight(t) == InFlight(q) + {r};
    if q.counter == 0 {
      assert q.resetting == {} && t.resetting == {r};
    }
  }

  lemma ResetSentCounts(q: Requests, r: nat)
    requires Counts(q) && r in q.resetting
    ensures Counts(ResetSent(q, r)) && ResetSent(q, r).resetting == {}
  {
    assert InFlight(ResetSent(q, r)) == InFlight(q);
    OnlyMember(q.resetting, r);
  }

  lemma OnlyMember(rs: set<nat>, r: nat)
    requires r in rs && |rs| <= 1
    ensures rs == {r}
  {
    assert |rs - {r}| == 0;
    assert rs == (rs - {r}) + {r};
  }

  lemma EndedCounts(q: Requests, r: nat)
    requires Counts(q) && r in q.serving
    ensures Counts(Ended(q, r)) && q.counter > 0 && Ended(q, r).counter == q.counter - 1
  {
    assert r in InFlight(q);
    assert InFlight(Ended(q, r)) == InFlight(q) - {r};
    Decrement(q.counter);
  }

  lemma Decrement(counter: nat)
    requires 0 < counter < WORDS
    ensures AddUint64(counter, WORDS - 1) == counter - 1
  {
    assert counter + (WORDS - 1) == WORDS + (counter - 1);
  }

  lemma StartSentCounts(q: Requests, r: nat)
    requires Counts(q)
    ensures Counts(StartSent(q, r))
  {
    assert InFlight(StartSent(q, r)) == InFlight(q);
  }

  lemma CountsKept(s: State, step: Step)
    requires Counts(s.reqs) && Enabled(s, step)
    ensures Counts(Apply(s, step).reqs)
  {
    match step
    case Begin(r) => BegunCounts(s.reqs, r);
    case SendReset(r) => ResetSentCounts(s.reqs, r);
    case End(r) => EndedCounts(s.reqs, r);
    case SendStart(r) => StartSentCounts(s.reqs, r);
    case _ =>
  }

  // The timer

  predicate Busy(pc: Pc) {
    pc.Received? || pc.Draining? || pc.Setting?
  }

  /** The timer at each point of the loop; a tick can only come from the finite duration. */
  ghost predicate TimerFits(l: Loop) {
    && (l.timer.tick || l.pc.Ticked? || l.pc.Notified? ==> l.timer.finite)
    && l.notifications <= 1
    && match l.pc
       case Head => l.timer.active != l.timer.tick
       case Received(_) => l.timer.active != l.timer.tick
       case Draining(_) => !l.timer.active && l.timer.tick
       case _ => !l.timer.active && !l.timer.tick
  }

  /** The events whose effect on the timer is complete. */
  function Handled(l: Loop): seq<Event> {
    if Busy(l.pc) && l.received != [] then l.received[..|l.received| - 1] else l.received
  }

  predicate LastIs(events: seq<Event>, e: Event) {
    events != [] && events[|events| - 1] == e
  }

  /** The duration follows the last event handled, and a Stop is the last event of all. */
  ghost predicate DurationFits(l: Loop) {
    && (Busy(l.pc) ==> LastIs(l.received, l.pc.ev))
    && (l.pc.Stopped? ==> LastIs(l.received, StopTimer))
    && (!l.pc.Stopped? ==> (l.timer.finite <==> !LastIs(Handled(l), ResetTimer)))
  }

  lemma MovedFits(l: Loop, m: Move)
    requires TimerFits(l) && CanMove(l, m)
    ensures TimerFits(Moved(l, m))
  {
  }

  lemma MovedDuration(l: Loop, m: Move)
    requires TimerFits(l) && DurationFits(l) && CanMove(l, m)
    ensures DurationFits(Moved(l, m)) && Moved(l, m).received == l.received
  {
  }

  lemma ReceivedFits(l: Loop, e: Event)
    requires TimerFits(l) && DurationFits(l) && l.pc.Head?
    ensures TimerFits(EventReceived(l, e)) && DurationFits(EventReceived(l, e))
  {
    assert EventReceived(l, e).received[..|l.received|] == l.received;
  }

  function SlotEvents(slot: Option<Event>): seq<Event> {
    if slot.Some? then [slot.value] else []
  }

  ghost predicate Inv(s: State) {
    && Counts(s.reqs) && TimerFits(s.loop) && DurationFits(s.loop)
    && s.sent == s.loop.received + SlotEvents(s.slot)
  }

  lemma InvKept(s: State, step: Step)
    requires Inv(s) && Enabled(s, step)
    ensures Inv(Apply(s, step))
  {
    CountsKept(s, step);
    match step
    case ReceiveEvent => ReceivedFits(s.loop, s.slot.value);
    case InLoop(m) =>
      MovedFits(s.loop, m);
      MovedDuration(s.loop, m);
    case _ =>
  }

  lemma {:induction false} InvRun(s: State, steps: seq<Step>)
    requires Inv(s) && Valid(s, steps)
    ensures Inv(Run(s, steps))
    decreases steps
  {
    if steps != [] {
      InvKept(s, steps[0]);
      InvRun(Apply(s, steps[0]), steps[1..]);
    }
  }

  lemma ReachableInv(s: State)
    requires Reachable(s)
    ensures Inv(s)
  {
    var steps :| Valid(Init(), steps) && Run(Init(), steps) == s;
    InvRun(Init(), steps);
  }

  /** In every reachable state the counter is the number of requests in flight, the decrement
      does not wrap, and the Resets issued exceed the Starts by one exactly while it is positive. */
  lemma CounterExact(s: State)
    requires Reachable(s)
    ensures s.reqs.counter == |InFlight(s.reqs)|
    ensures forall r :: r in s.reqs.serving ==>
      s.reqs.counter > 0 && Apply(s, End(r)).reqs.counter == s.reqs.counter - 1
    ensures s.reqs.resetsIssued - s.reqs.startsIssued == if InFlight(s.reqs) != {} then 1 else 0
  {
    ReachableInv(s);
    forall r | r in s.reqs.serving
      ensures s.reqs.counter > 0 && Apply(s, End(r)).reqs.counter == s.reqs.counter - 1
    {
      EndedCounts(s.reqs, r);
    }
  }

  // Progress of the goroutine

  predicate OfGoroutine(step: Step) {
    step.ReceiveEvent? || (step.InLoop? && !step.move.Fire? && !step.move.Wait?)
  }

  predicate ConsumedStop(l: Loop) {
    l.pc.Stopped? || (Busy(l.pc) && l.pc.ev == StopTimer)
  }

  /** At the select the timer is running or has left exactly one tick behind, the receive that
      follows a failed Stop always finds that tick, and at most one notification is buffered. */
  lemma TimerAtHead(s: State)
    requires Reachable(s)
    ensures s.loop.pc.Head? ==> s.loop.timer.active != s.loop.timer.tick
    ensures s.loop.pc.Draining? ==> Enabled(s, InLoop(Drain))
    ensures s.loop.notifications <= 1
  {
    ReachableInv(s);
  }

  function Distance(pc: Pc): nat {
    match pc
    case Ticked => 2
    case Notified => 1
    case Received(_) => 3
    case Draining(_) => 2
    case Setting(_) => 1
    case _ => 0
  }

  lemma {:induction false} SlotFreed(s: State) returns (steps: seq<Step>)
    requires TimerFits(s.loop) && s.slot.Some? && !ConsumedStop(s.loop)
    ensures |steps| <= Distance(s.loop.pc) + 1 && (forall i :: 0 <= i < |steps| ==> OfGoroutine(steps[i]))
    ensures Valid(s, steps) && Run(s, steps).slot.None? && Run(s, steps).sent == s.sent
    decreases Distance(s.loop.pc)
  {
    if s.loop.pc.Head? {
      steps := Prepend(s, ReceiveEvent, []);
    } else {
      var m :=
        match s.loop.pc
        case Ticked => Notify
        case Notified => Rearm
        case Received(_) => StopTheTimer
        case Draining(_) => Drain
        case _ => SetTimer;
      MovedFits(s.loop, m);
      var rest := SlotFreed(Apply(s, InLoop(m)));
      steps := Prepend(s, InLoop(m), rest);
    }
  }

  lemma Prepend(s: State, step: Step, rest: seq<Step>) returns (steps: seq<Step>)
    requires Enabled(s, step) && Valid(Apply(s, step), rest)
    ensures steps == [step] + rest && Valid(s, steps) && Run(s, steps) == Run(Apply(s, step), rest)
  {
    steps := [step] + rest;
    assert steps[1..] == rest;
  }

  /** Until it has consumed Stop, the goroutine on its own can free the event slot in a few steps:
      no state leaves a sender stuck.  (The select may prefer a tick, but after it the slot can
      still be freed.) */
  lemma FreesTheSlot(s: State) returns (steps: seq<Step>)
    requires Reachable(s) && s.slot.Some? && !ConsumedStop(s.loop)
    ensures |steps| <= 4 && (forall i :: 0 <= i < |steps| ==> OfGoroutine(steps[i]))
    ensures Valid(s, steps) && Run(s, steps).slot.None? && Run(s, steps).sent == s.sent
  {
    ReachableInv(s);
    steps := SlotFreed(s);
  }

  // Quiescence

  /** No call of Cancel so far. */
  predicate Uncancelled(steps: seq<Step>) {
    Cancel !in steps
  }

  ghost predicate NoStop(s: State) {
    s.cancels == 0 && StopTimer !in s.sent
  }

  /** Every event issued has been sent, received and handled. */
  ghost predicate Drained(s: State) {
    s.reqs.resetting == {} && s.reqs.starting == {} && s.slot.None? && !Busy(s.loop.pc)
  }

  /** ... and every request is over. */
  ghost predicate Quiescent(s: State) {
    InFlight(s.reqs) == {} && Drained(s)
  }

  /** Once nothing is in flight and no Start is waiting to be sent, a Start was sent last:
      a Reset is always sent before the request that owes it can end. */
  ghost predicate StartIsLast(s: State) {
    s.reqs.counter == 0 && s.reqs.starting == {} ==> s.sent == [] || LastIs(s.sent, StartTimer)
  }

  lemma StartIsLastKept(s: State, step: Step)
    requires Counts(s.reqs) && NoStop(s) && StartIsLast(s) && Enabled(s, step) && !step.Cancel?
    ensures NoStop(Apply(s, step)) && StartIsLast(Apply(s, step))
  {
    match step
    case Begin(r) => BegunCounts(s.reqs, r);
    case SendReset(r) => assert r in InFlight(s.reqs);
    case End(r) => assert r in Ended(s.reqs, r).starting || Ended(s.reqs, r).counter != 0;
    case _ =>
  }

  lemma {:induction false} StartIsLastRun(s: State, steps: seq<Step>)
    requires Counts(s.reqs) && NoStop(s) && StartIsLast(s) && Valid(s, steps) && Uncancelled(steps)
    ensures NoStop(Run(s, steps)) && StartIsLast(Run(s, steps))
    decreases steps
  {
    if steps != [] {
      CountsKept(s, steps[0]);
      StartIsLastKept(s, steps[0]);
      assert Uncancelled(steps[1..]);
      StartIsLastRun(Apply(s, steps[0]), steps[1..]);
    }
  }

  lemma UncancelledRun(steps: seq<Step>)
    requires Valid(Init(), steps) && Uncancelled(steps)
    ensures var s := Run(Init(), steps); Inv(s) && NoStop(s) && StartIsLast(s) && !s.loop.pc.Stopped?
  {
    InvRun(Init(), steps);
    StartIsLastRun(Init(), steps);
  }

  /** Over all interleavings without Cancel: at quiescence the last event consumed is Start, or
      there was none, and the timer is set to the timeout: running, or expired a moment ago. */
  lemma QuiescentIsArmed(steps: seq<Step>)
    requires Valid(Init(), steps) && Uncancelled(steps) && Quiescent(Run(Init(), steps))
    ensures var s := Run(Init(), steps);
      && s.loop.received == s.sent && (s.sent == [] || LastIs(s.sent, StartTimer))
      && s.loop.timer.finite && (s.loop.pc.Head? ==> s.loop.timer.active || s.loop.timer.tick)
  {
    UncancelledRun(steps);
  }

  /** So the timeout triggers: the clock and the goroutine alone produce a notification. */
  lemma QuiescentNotifies(steps: seq<Step>) returns (more: seq<Step>)
    requires Valid(Init(), steps) && Uncancelled(steps) && Quiescent(Run(Init(), steps))
    ensures forall i :: 0 <= i < |more| ==> OfGoroutine(more[i]) || more[i] == InLoop(Fire)
    ensures Valid(Run(Init(), steps), more) && Run(Run(Init(), steps), more).loop.notifications == 1
  {
    UncancelledRun(steps);
    var s := Run(Init(), steps);
    if s.loop.pc.Ticked? {
      more := Prepend(s, InLoop(Notify), []);
    } else if s.loop.pc.Notified? {
      more := NotifiesFromHead(Apply(s, InLoop(Rearm)));
      more := Prepend(s, InLoop(Rearm), more);
    } else {
      more := NotifiesFromHead(s);
    }
  }

  lemma NotifiesFromHead(s: State) returns (more: seq<Step>)
    requires s.loop.pc.Head? && s.loop.timer.finite && s.loop.timer.active != s.loop.timer.tick
    requires s.loop.notifications <= 1
    ensures forall i :: 0 <= i < |more| ==> OfGoroutine(more[i]) || more[i] == InLoop(Fire)
    ensures Valid(s, more) && Run(s, more).loop.notifications == 1
  {
    var ticked := if s.loop.timer.tick then s else Apply(s, InLoop(Fire));
    var received := Apply(ticked, InLoop(ReceiveTick));
    more := Prepend(received, InLoop(Notify), []);
    more := Prepend(ticked, InLoop(ReceiveTick), more);
    if !s.loop.timer.tick {
      more := Prepend(s, InLoop(Fire), more);
    }
  }

  // Notifications

  function Count(steps: seq<Step>, step: Step): nat {
    if steps == [] then 0 else (if steps[0] == step then 1 else 0) + Count(steps[1..], step)
  }

  /** The notifications put into notifyCh: those of `Notify` steps that found it empty. */
  function Produced(s: State, steps: seq<Step>): nat
    requires Valid(s, steps)
    decreases steps
  {
    if steps == [] then 0
    else
      (if steps[0] == InLoop(Notify) && s.loop.notifications == 0 then 1 else 0)
      + Produced(Apply(s, steps[0]), steps[1..])
  }

  /** Over every run from every state: each notification produced is taken by one call of Wait, or
      is still there. */
  lemma {:induction false} EachWaitTakesOne(s: State, steps: seq<Step>)
    requires Valid(s, steps)
    ensures s.loop.notifications + Produced(s, steps)
         == Run(s, steps).loop.notifications + Count(steps, InLoop(Wait))
    decreases steps
  {
    if steps != [] {
      EachWaitTakesOne(Apply(s, steps[0]), steps[1..]);
    }
  }

  /** Once the goroutine has taken Stop out of the slot, it takes nothing more and produces no
      notification, in any run. */
  lemma {:induction false} NothingAfterStop(s: State, steps: seq<Step>)
    requires ConsumedStop(s.loop) && Valid(s, steps)
    ensures ConsumedStop(Run(s, steps).loop) && Run(s, steps).loop.received == s.loop.received
    ensures Produced(s, steps) == 0
    decreases steps
  {
    if steps != [] {
      NothingAfterStop(Apply(s, steps[0]), steps[1..]);
    }
  }

  /** With Stop received, the goroutine ends in two steps or three. */
  lemma ReceivedStopEnds(s: State) returns (steps: seq<Step>)
    requires s.loop.pc == Received(StopTimer) && s.loop.timer.active != s.loop.timer.tick
    ensures |steps| <= 3 && (forall i :: 0 <= i < |steps| ==> OfGoroutine(steps[i]))
    ensures Valid(s, steps) && Run(s, steps).loop.pc == Stopped
  {
    var t := Apply(s, InLoop(StopTheTimer));
    if s.loop.timer.active {
      steps := Prepend(t, InLoop(SetTimer), []);
    } else {
      steps := Prepend(Apply(t, InLoop(Drain)), InLoop(SetTimer), []);
      steps := Prepend(t, InLoop(Drain), steps);
    }
    steps := Prepend(s, InLoop(StopTheTimer), steps);
  }

  /** From the select, with Stop in the slot, the goroutine can end in at most four steps. */
  lemma StopEnds(s: State) returns (steps: seq<Step>)
    requires Reachable(s) && s.loop.pc.Head? && s.slot == Some(StopTimer)
    ensures |steps| <= 4 && (forall i :: 0 <= i < |steps| ==> OfGoroutine(steps[i]))
    ensures Valid(s, steps) && Run(s, steps).loop.pc == Stopped
  {
    TimerAtHead(s);
    steps := ReceivedStopEnds(Apply(s, ReceiveEvent));
    steps := Prepend(s, ReceiveEvent, steps);
  }

  // Overtaking

  function Turn(i: nat): Event {
    if i % 2 == 0 then ResetTimer else StartTimer
  }

  predicate Alternating(events: seq<Event>) {
    forall i :: 0 <= i < |events| ==> events[i] == Turn(i)
  }

  /** A Reset is sent while the Start of the previous busy period still waits to be sent. */
  predicate Overtakes(s: State, step: Step) {
    step.SendReset? && s.reqs.starting != {}
  }

  predicate NeverOvertakes(s: State, steps: seq<Step>)
    requires Valid(s, steps)
    decreases steps
  {
    steps == [] || (!Overtakes(s, steps[0]) && NeverOvertakes(Apply(s, steps[0]), steps[1..]))
  }

  /** What has been sent is what was issued less what waits: so many more Resets than Starts. */
  ghost predicate SentFits(s: State) {
    Lead(s.sent) == Balance(s.reqs)
  }

  function Balance(q: Requests): int {
    (if q.counter > 0 then 1 else 0) - |q.resetting| + |q.starting|
  }

  lemma BegunBalance(q: Requests, r: nat)
    requires Counts(q) && CanBegin(q, r)
    ensures Balance(Begun(q, r)) == Balance(q)
  {
    BegunCounts(q, r);
  }

  lemma ResetSentBalance(q: Requests, r: nat)
    requires Counts(q) && r in q.resetting
    ensures Balance(ResetSent(q, r)) == Balance(q) + 1
  {
    OnlyMember(q.resetting, r);
    assert |{r}| == 1;
  }

  lemma EndedBalance(q: Requests, r: nat)
    requires Counts(q) && r in q.serving
    ensures Balance(Ended(q, r)) == Balance(q)
  {
    EndedCounts(q, r);
    assert r in InFlight(q) && r !in q.starting;
  }

  lemma StartSentBalance(q: Requests, r: nat)
    requires r in q.starting
    ensures Balance(StartSent(q, r)) == Balance(q) - 1
  {
  }

  /** Resets minus Starts. */
  function Lead(events: seq<Event>): int {
    if events == [] then 0
    else Lead(events[..|events| - 1]) + Weight(events[|events| - 1])
  }

  function Weight(e: Event): int {
    match e
    case ResetTimer => 1
    case StartTimer => -1
    case StopTimer => 0
  }

  lemma LeadAppend(events: seq<Event>, e: Event)
    ensures Lead(events + [e]) == Lead(events) + Weight(e)
  {
    assert (events + [e])[..|events|] == events;
  }

  lemma SentFitsKept(s: State, step: Step)
    requires Counts(s.reqs) && SentFits(s) && Enabled(s, step)
    ensures SentFits(Apply(s, step))
  {
    match step
    case Begin(r) =>
      BegunBalance(s.reqs, r);
    case SendReset(r) =>
      ResetSentBalance(s.reqs, r);
      LeadAppend(s.sent, ResetTimer);
    case End(r) =>
      EndedBalance(s.reqs, r);
    case SendStart(r) =>
      StartSentBalance(s.reqs, r);
      LeadAppend(s.sent, StartTimer);
    case SendStop =>
      LeadAppend(s.sent, StopTimer);
    case _ =>
  }

  lemma {:induction false} AlternatingLead(events: seq<Event>)
    requires Alternating(events)
    ensures Lead(events) == |events| % 2
  {
    if events != [] {
      AlternatingLead(events[..|events| - 1]);
    }
  }

  /** From an alternating past, only an overtaking Reset breaks the alternation. */
  lemma AlternationStep(s: State, step: Step)
    requires Counts(s.reqs) && SentFits(s) && NoStop(s) && Enabled(s, step)
    requires Alternating(s.sent)
    ensures Alternating(Apply(s, step).sent) <==> !Overtakes(s, step)
  {
    AlternatingLead(s.sent);
    var n := |s.sent|;
    match step
    case SendReset(r) =>
      OnlyMember(s.reqs.resetting, r);
      assert r in InFlight(s.reqs);
      assert Apply(s, step).sent[n] == ResetTimer;
      assert s.reqs.starting == {} <==> |s.reqs.starting| == 0;
    case SendStart(r) =>
      assert r in s.reqs.starting && |s.reqs.starting| >= 1;
    case _ =>
  }

  lemma {:induction false} BrokenStaysBroken(s: State, steps: seq<Step>)
    requires Valid(s, steps) && !Alternating(s.sent)
    ensures !Alternating(Run(s, steps).sent)
    decreases steps
  {
    if steps != [] {
      var i :| 0 <= i < |s.sent| && s.sent[i] != Turn(i);
      assert Apply(s, steps[0]).sent[i] == s.sent[i];
      BrokenStaysBroken(Apply(s, steps[0]), steps[1..]);
    }
  }

  lemma {:induction false} SentFitsRun(s: State, steps: seq<Step>)
    requires Counts(s.reqs) && SentFits(s) && Valid(s, steps)
    ensures SentFits(Run(s, steps))
    decreases steps
  {
    if steps != [] {
      CountsKept(s, steps[0]);
      SentFitsKept(s, steps[0]);
      SentFitsRun(Apply(s, steps[0]), steps[1..]);
    }
  }

  lemma {:induction false} AlternatesFrom(s: State, steps: seq<Step>)
    requires Counts(s.reqs) && SentFits(s) && NoStop(s) && StartIsLast(s) && Alternating(s.sent)
    requires Valid(s, steps) && Uncancelled(steps)
    ensures Alternating(Run(s, steps).sent) <==> NeverOvertakes(s, steps)
    decreases steps
  {
    if steps != [] {
      var next := Apply(s, steps[0]);
      CountsKept(s, steps[0]);
      SentFitsKept(s, steps[0]);
      StartIsLastKept(s, steps[0]);
      AlternationStep(s, steps[0]);
      assert Uncancelled(steps[1..]);
      if Alternating(next.sent) {
        AlternatesFrom(next, steps[1..]);
      } else {
        BrokenStaysBroken(next, steps[1..]);
      }
    }
  }

  /** A run without Cancel sends Reset, Start, Reset, Start, ... exactly when no Reset overtakes. */
  lemma AlternatesExactly(steps: seq<Step>)
    requires Valid(Init(), steps) && Uncancelled(steps)
    ensures Alternating(Run(Init(), steps).sent) <==> NeverOvertakes(Init(), steps)
  {
    AlternatesFrom(Init(), steps);
  }

  /** A request makes the counter 1 while a Start still waits to be sent. */
  predicate Crowds(s: State, step: Step) {
    step.Begin? && s.reqs.counter == 0 && s.reqs.starting != {}
  }

  predicate NeverCrowds(s: State, steps: seq<Step>)
    requires Valid(s, steps)
    decreases steps
  {
    steps == [] || (!Crowds(s, steps[0]) && NeverCrowds(Apply(s, steps[0]), steps[1..]))
  }

  /** No Start waits while a Reset does. */
  ghost predicate OneKindWaits(q: Requests) {
    q.resetting != {} ==> q.starting == {}
  }

  lemma OneKindWaitsKept(s: State, step: Step)
    requires Counts(s.reqs) && OneKindWaits(s.reqs) && Enabled(s, step) && !Crowds(s, step)
    ensures OneKindWaits(Apply(s, step).reqs)
  {
    match step
    case Begin(r) => BegunCounts(s.reqs, r);
    case SendReset(r) => ResetSentCounts(s.reqs, r);
    case End(r) =>
      EndedCounts(s.reqs, r);
      if s.reqs.resetting != {} {
        var w :| w in s.reqs.resetting;
        assert w in InFlight(Ended(s.reqs, r));
      }
    case _ =>
  }

  /** Overtaking needs a busy period to begin while the Start of the last one is pending. */
  lemma {:induction false} UncrowdedNeverOvertakes(s: State, steps: seq<Step>)
    requires Counts(s.reqs) && OneKindWaits(s.reqs)
    requires Valid(s, steps) && NeverCrowds(s, steps)
    ensures NeverOvertakes(s, steps)
    decreases steps
  {
    if steps != [] {
      CountsKept(s, steps[0]);
      OneKindWaitsKept(s, steps[0]);
      UncrowdedNeverOvertakes(Apply(s, steps[0]), steps[1..]);
    }
  }

  // When the timer is right

  /** A Start has been sent in the current busy period, after its Reset.  It can only be the late
      Start of an earlier period, and it arms the timer. */
  predicate LateAfter(q: Requests, step: Step, late: bool) {
    match step
    case SendReset(_) => false
    case SendStart(_) => q.counter > 0 && q.resetting == {}
    case End(_) => late && q.counter > 1
    case _ => late
  }

  predicate Late(s: State, steps: seq<Step>, late: bool)
    requires Valid(s, steps)
    decreases steps
  {
    if steps == [] then late else Late(Apply(s, steps[0]), steps[1..], LateAfter(s.reqs, steps[0], late))
  }

  ghost predicate LateFits(s: State, late: bool) {
    && (late ==> s.reqs.counter > 0 && s.reqs.resetting == {})
    && (s.reqs.counter > 0 && s.reqs.resetting == {} ==> s.sent != [] && (late <==> LastIs(s.sent, StartTimer)))
  }

  lemma LateAfterBegin(s: State, r: nat, late: bool)
    requires Counts(s.reqs) && LateFits(s, late) && CanBegin(s.reqs, r)
    ensures LateFits(s.(reqs := Begun(s.reqs, r)), late)
  {
    BegunCounts(s.reqs, r);
  }

  lemma LateAfterReset(s: State, r: nat)
    requires Counts(s.reqs) && r in s.reqs.resetting
    ensures LateFits(Send(s, ResetTimer).(reqs := ResetSent(s.reqs, r)), false)
  {
    assert r in InFlight(s.reqs);
  }

  lemma LateAfterEnd(s: State, r: nat, late: bool)
    requires Counts(s.reqs) && LateFits(s, late) && r in s.reqs.serving
    ensures LateFits(s.(reqs := Ended(s.reqs, r)), late && s.reqs.counter > 1)
  {
    EndedCounts(s.reqs, r);
  }

  lemma LateAfterStart(s: State, r: nat)
    ensures LateFits(Send(s, StartTimer).(reqs := StartSent(s.reqs, r)), s.reqs.counter > 0 && s.reqs.resetting == {})
  {
  }

  lemma LateFitsKept(s: State, step: Step, late: bool)
    requires Counts(s.reqs) && NoStop(s) && LateFits(s, late) && Enabled(s, step)
    ensures LateFits(Apply(s, step), LateAfter(s.reqs, step, late))
  {
    match step
    case Begin(r) => LateAfterBegin(s, r, late);
    case SendReset(r) => LateAfterReset(s, r);
    case End(r) => LateAfterEnd(s, r, late);
    case SendStart(r) => LateAfterStart(s, r);
    case _ =>
  }

  lemma {:induction false} LateFitsRun(s: State, steps: seq<Step>, late: bool)
    requires Counts(s.reqs) && NoStop(s) && StartIsLast(s) && LateFits(s, late)
    requires Valid(s, steps) && Uncancelled(steps)
    ensures LateFits(Run(s, steps), Late(s, steps, late))
    decreases steps
  {
    if steps != [] {
      CountsKept(s, steps[0]);
      StartIsLastKept(s, steps[0]);
      LateFitsKept(s, steps[0], late);
      assert Uncancelled(steps[1..]);
      LateFitsRun(Apply(s, steps[0]), steps[1..], LateAfter(s.reqs, steps[0], late));
    }
  }

  /** Over all interleavings without Cancel, a state whose events are all consumed has the timer set
      to the timeout exactly when no request is in flight, if and only if no late Start was sent in
      the current busy period.  If one was, requests are in flight and the timer is armed. */
  lemma DrainedExactly(steps: seq<Step>)
    requires Valid(Init(), steps) && Uncancelled(steps) && Drained(Run(Init(), steps))
    ensures var s := Run(Init(), steps);
      && ((s.loop.timer.finite <==> InFlight(s.reqs) == {}) <==> !Late(Init(), steps, false))
      && (Late(Init(), steps, false) ==> InFlight(s.reqs) != {} && s.loop.timer.finite)
  {
    var s := Run(Init(), steps);
    UncancelledRun(steps);
    LateFitsRun(Init(), steps, false);
    assert Handled(s.loop) == s.loop.received == s.sent;
    assert InFlight(s.reqs) == {} <==> s.reqs.counter == 0;
  }

  /** Without overtaking, a state whose events are all consumed has the timer set to the timeout
      exactly when no request is in flight; while one is, no notification can be produced. */
  lemma DrainedIsExact(steps: seq<Step>)
    requires Valid(Init(), steps) && Uncancelled(steps) && NeverOvertakes(Init(), steps)
    requires Drained(Run(Init(), steps))
    ensures var s := Run(Init(), steps);
      && (s.loop.timer.finite <==> InFlight(s.reqs) == {})
      && (InFlight(s.reqs) != {} ==>
            !CanMove(s.loop, Fire) && !CanMove(s.loop, ReceiveTick) && !CanMove(s.loop, Notify))
  {
    var s := Run(Init(), steps);
    UncancelledRun(steps);
    LateFitsRun(Init(), steps, false);
    AlternatesFrom(Init(), steps);
    SentFitsRun(Init(), steps);
    AlternatingLead(s.sent);
    assert s.sent != [] ==> s.sent[|s.sent| - 1] == Turn(|s.sent| - 1);
    DrainedExactly(steps);
  }

  /** The same for runs in which no busy period begins while the Start of the last one is pending. */
  lemma UncrowdedIsExact(steps: seq<Step>)
    requires Valid(Init(), steps) && Uncancelled(steps) && NeverCrowds(Init(), steps)
    requires Drained(Run(Init(), steps))
    ensures !Late(Init(), steps, false)
    ensures var s := Run(Init(), steps); s.loop.timer.finite <==> InFlight(s.reqs) == {}
  {
    UncrowdedNeverOvertakes(Init(), steps);
    DrainedIsExact(steps);
    DrainedExactly(steps);
  }

  /** Request `r` has sent its event `e` and the goroutine deals with it: four steps. */
  lemma HandleSent(s: State, step: Step, e: Event, after: State, rest: seq<Step>) returns (steps: seq<Step>)
    requires e != StopTimer && s.loop.pc.Head? && s.loop.timer.active && Enabled(s, step)
    requires Apply(s, step) == Send(s, e).(reqs := Apply(s, step).reqs)
    requires after == Apply(s, step).(
      slot := None,
      loop := Loop(Head, Timer(true, e == StartTimer, s.loop.timer.tick), s.loop.notifications, s.loop.received + [e]))
    requires Valid(after, rest)
    ensures steps == [step, ReceiveEvent, InLoop(StopTheTimer), InLoop(SetTimer)] + rest
    ensures Valid(s, steps) && Run(s, steps) == Run(after, rest)
  {
    var a := Apply(s, step);
    var b := Apply(a, ReceiveEvent);
    var c := Apply(b, InLoop(StopTheTimer));
    assert Apply(c, InLoop(SetTimer)) == after;
    steps := Prepend(c, InLoop(SetTimer), rest);
    steps := Prepend(b, InLoop(StopTheTimer), steps);
    steps := Prepend(a, ReceiveEvent, steps);
    steps := Prepend(s, step, steps);
  }

  function Busy1(): State {
    State(Requests(1, {}, {1}, {}, 1, 0), 0, None, [ResetTimer],
          Loop(Head, Timer(true, false, false), 0, [ResetTimer]))
  }

  function Overtaken(): State {
    var events := [ResetTimer, ResetTimer, StartTimer];
    State(Requests(1, {}, {2}, {}, 2, 1), 0, None, events, Loop(Head, Timer(true, true, false), 0, events))
  }

  /** Request 1 begins and is being served. */
  lemma FirstIsServed(rest: seq<Step>) returns (steps: seq<Step>)
    requires Valid(Busy1(), rest) && Uncancelled(rest)
    ensures Valid(Init(), steps) && Run(Init(), steps) == Run(Busy1(), rest) && Uncancelled(steps)
  {
    var begun := Init().(reqs := Requests(1, {1}, {}, {}, 1, 0));
    steps := HandleSent(begun, SendReset(1), ResetTimer, Busy1(), rest);
    steps := Prepend(Init(), Begin(1), steps);
  }

  /** Request 2 has sent its Reset while request 1 still owes its Start. */
  function Busy2(): State {
    var events := [ResetTimer, ResetTimer];
    State(Requests(1, {}, {2}, {1}, 2, 1), 0, None, events, Loop(Head, Timer(true, false, false), 0, events))
  }

  /** Request 1 ends, request 2 begins and sends first. */
  lemma SecondOvertakes(rest: seq<Step>) returns (steps: seq<Step>)
    requires Valid(Busy2(), rest) && Uncancelled(rest)
    ensures Valid(Busy1(), steps) && Run(Busy1(), steps) == Run(Busy2(), rest) && Uncancelled(steps)
  {
    var ended := Busy1().(reqs := Requests(0, {}, {}, {1}, 1, 1));
    var begun := Busy1().(reqs := Requests(1, {2}, {}, {1}, 2, 1));
    steps := HandleSent(begun, SendReset(2), ResetTimer, Busy2(), rest);
    steps := Prepend(ended, Begin(2), steps);
    steps := Prepend(Busy1(), End(1), steps);
  }

  /** Request 1 sends last. */
  lemma FirstSendsLast() returns (steps: seq<Step>)
    ensures Valid(Busy2(), steps) && Run(Busy2(), steps) == Overtaken() && Uncancelled(steps)
  {
    steps := HandleSent(Busy2(), SendStart(1), StartTimer, Overtaken(), []);
  }

  /** The hypothesis is needed.  Request 2 begins before request 1 has sent its Start, and its
      Reset overtakes that Start: everything is consumed, request 2 is being served, and the
      idle timeout triggers. */
  lemma OvertakenStartNotifiesWhileBusy() returns (steps: seq<Step>, more: seq<Step>)
    ensures Valid(Init(), steps) && Uncancelled(steps)
    ensures var s := Run(Init(), steps);
      Drained(s) && InFlight(s.reqs) == {2} && s.loop.timer.finite
    ensures Valid(Run(Init(), steps), more) && Uncancelled(more)
    ensures var s := Run(Run(Init(), steps), more);
      InFlight(s.reqs) == {2} && s.loop.notifications == 1
  {
    steps := FirstSendsLast();
    steps := SecondOvertakes(steps);
    steps := FirstIsServed(steps);
    more := NotifiesFromHead(Overtaken());
    NotificationKeepsRequests(Overtaken(), more);
  }

  lemma {:induction false} NotificationKeepsRequests(s: State, more: seq<Step>)
    requires Valid(s, more) && forall i :: 0 <= i < |more| ==> OfGoroutine(more[i]) || more[i] == InLoop(Fire)
    ensures Run(s, more).reqs == s.reqs && Uncancelled(more)
    decreases more
  {
    if more != [] {
      NotificationKeepsRequests(Apply(s, more[0]), more[1..]);
      assert more == [more[0]] + more[1..];
    }
  }
}
