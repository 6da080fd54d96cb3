/** AsyncSession of cpp/src/bridge.cpp: the meeting point of a blocking protocol worker and a caller's Step.
    `Session` is the state guarded by the mutex; every function on it is one region that the code runs with
    the lock held, and the class below performs these regions on its fields. */
module Rendezvous {
  import opened Common

  datatype Session = Session(
    outbound: Option<Bytes>,
    inbound: seq<Bytes>,
    waiting: bool,
    waitId: nat,
    fatal: Option<ErrorCode>,
    aborted: bool,
    done: bool)

  const NEW_SESSION := Session(None, [], false, 0, None, false, false)

  // ---- Regions of the worker ----

  /** OnSend: the slot holds one message, and a message still in it is replaced. */
  function OnSend(s: Session, msg: Bytes): Session {
    s.(outbound := Some(msg))
  }

  /** The first half of OnReceive, up to the wait. */
  function EnterReceive(s: Session): Session {
    s.(waiting := true, waitId := s.waitId + 1)
  }

  /** The condition that ends the wait. */
  predicate MayReceive(s: Session) {
    s.inbound != [] || s.aborted || s.fatal.Some?
  }

  /** The second half of OnReceive: the message, or a refusal that leaves the session as it is. */
  function Received(s: Session): Result<Bytes>
    requires MayReceive(s)
  {
    if s.fatal.Some? || s.aborted then Err(General) else Ok(s.inbound[0])
  }

  function LeaveReceive(s: Session): Session
    requires MayReceive(s)
  {
    if s.fatal.Some? || s.aborted then s else s.(inbound := s.inbound[1..], waiting := false)
  }

  /** Fail: the first failure is kept. */
  function Fail(s: Session, code: ErrorCode): Session {
    s.(fatal := if s.fatal.None? then Some(code) else s.fatal, aborted := true)
  }

  /** The end of the worker thread. */
  function Exit(s: Session): Session {
    s.(done := true)
  }

  // ---- Regions of the caller ----

  function Push(s: Session, msg: Bytes): Session {
    s.(inbound := s.inbound + [msg])
  }

  /** What one look at the state makes of a Step: it throws, it returns, or it goes on waiting. */
  datatype Look = Throw(code: ErrorCode) | Return(outbound: Option<Bytes>, done: bool) | Wait

  function Inspect(s: Session, snapshot: nat): Look {
    if s.fatal.Some? then Throw(s.fatal.value)
    else if s.outbound.Some? then Return(s.outbound, s.done)
    else if s.done then Return(None, true)
    else if s.waiting && s.waitId > snapshot then Return(None, false)
    else Wait
  }

  /** The slot is emptied by a look that returns its message. */
  function Inspected(s: Session): Session {
    if s.fatal.None? then s.(outbound := None) else s
  }

  /** EnsureWorkerFinished, with which every Finalize begins. */
  function Ensure(s: Session): Look {
    if s.fatal.Some? then Throw(s.fatal.value) else if s.done then Return(None, true) else Wait
  }

  // ---- Whole runs ----

  /** Everything that can happen to a session, by anyone and in any order. */
  datatype Event =
    | Send(msg: Bytes)
    | Enter
    | Leave
    | Fails(code: ErrorCode)
    | Exits
    | Pushes(msg: Bytes)
    | Looks(snapshot: nat)

  function Apply(s: Session, e: Event): Session {
    match e
    case Send(msg) => OnSend(s, msg)
    case Enter => EnterReceive(s)
    case Leave => if MayReceive(s) then LeaveReceive(s) else s
    case Fails(code) => Fail(s, code)
    case Exits => Exit(s)
    case Pushes(msg) => Push(s, msg)
    case Looks(_) => Inspected(s)
  }

  function RunEvents(s: Session, events: seq<Event>): Session
    decreases |events|
  {
    if events == [] then s else RunEvents(Apply(s, events[0]), events[1..])
  }

  /** The first failure in a run of events. */
  function FirstFailure(events: seq<Event>): Option<ErrorCode> {
    if events == [] then None
    else if events[0].Fails? then Some(events[0].code)
    else FirstFailure(events[1..])
  }

  /** First failure wins: after any run the stored failure is the first one, and it is what every Step and
      every Finalize then throws, at every later time too; the worker gets no message any more. */
  lemma {:induction false} FirstFailureWins(s: Session, events: seq<Event>, snapshot: nat)
    ensures var end := RunEvents(s, events);
      && end.fatal == (if s.fatal.Some? then s.fatal else FirstFailure(events))
      && (end.fatal.Some? ==> Inspect(end, snapshot) == Throw(end.fatal.value) && Ensure(end) == Throw(end.fatal.value))
      && (end.fatal.Some? ==> Received(end) == Err(General) && LeaveReceive(end) == end)
      && (end.fatal.None? ==> !Inspect(end, snapshot).Throw? && !Ensure(end).Throw?)
    decreases |events|
  {
    if events != [] {
      FirstFailureWins(Apply(s, events[0]), events[1..], snapshot);
    }
  }

  function PushedBy(e: Event): seq<Bytes> {
    if e.Pushes? then [e.msg] else []
  }

  function PushedIn(events: seq<Event>): seq<Bytes> {
    if events == [] then [] else PushedBy(events[0]) + PushedIn(events[1..])
  }

  /** The message that a receive returns. */
  function TakenBy(s: Session, e: Event): seq<Bytes> {
    if e.Leave? && MayReceive(s) && Received(s).Ok? then [Received(s).value] else []
  }

  function TakenIn(s: Session, events: seq<Event>): seq<Bytes>
    decreases |events|
  {
    if events == [] then [] else TakenBy(s, events[0]) + TakenIn(Apply(s, events[0]), events[1..])
  }

  lemma OneEventInOrder(s: Session, e: Event)
    ensures TakenBy(s, e) + Apply(s, e).inbound == s.inbound + PushedBy(e)
  {
  }

  lemma Splice(taken: seq<Bytes>, more: seq<Bytes>, end: seq<Bytes>, next: seq<Bytes>,
               start: seq<Bytes>, pushed: seq<Bytes>, later: seq<Bytes>)
    requires taken + next == start + pushed && more + end == next + later
    ensures (taken + more) + end == start + (pushed + later)
  {
    assert (taken + more) + end == taken + (more + end);
    assert taken + (next + later) == (taken + next) + later;
  }

  /** First in, first out: in any run the worker receives the pushed messages in their order, each once, empty
      ones included, and the rest of them waits in the queue. */
  lemma {:induction false} InboundIsFifo(s: Session, events: seq<Event>)
    ensures TakenIn(s, events) + RunEvents(s, events).inbound == s.inbound + PushedIn(events)
    decreases |events|
  {
    if events != [] {
      var next := Apply(s, events[0]);
      OneEventInOrder(s, events[0]);
      InboundIsFifo(next, events[1..]);
      Splice(TakenBy(s, events[0]), TakenIn(next, events[1..]), RunEvents(next, events[1..]).inbound, next.inbound,
             s.inbound, PushedBy(events[0]), PushedIn(events[1..]));
      hide Apply, TakenBy, PushedBy;
    }
  }

  // ---- The state as its history tells it ----

  /** The message of the last send, unless a look has collected it since; a failed session's looks collect
      nothing. */
  function Uncollected(events: seq<Event>): Option<Bytes>
    decreases |events|
  {
    if events == [] then None
    else
      var before, last := events[..|events| - 1], events[|events| - 1];
      if last.Send? then Some(last.msg)
      else if last.Looks? && FirstFailure(before).None? then None
      else Uncollected(before)
  }

  function Waits(events: seq<Event>): nat {
    if events == [] then 0 else (if events[0] == Enter then 1 else 0) + Waits(events[1..])
  }

  /** Since the last entry into the wait no receive has returned a message. */
  predicate StillWaiting(events: seq<Event>)
    decreases |events|
  {
    events != [] &&
    var before, last := events[..|events| - 1], events[|events| - 1];
    if last == Enter then true
    else if last == Leave && |PushedIn(before)| > |TakenIn(NEW_SESSION, before)| && FirstFailure(before).None?
    then false
    else StillWaiting(before)
  }

  lemma {:induction false} RunOneMoreEvent(s: Session, events: seq<Event>)
    requires events != []
    ensures RunEvents(s, events) == Apply(RunEvents(s, events[..|events| - 1]), events[|events| - 1])
    ensures Waits(events) == Waits(events[..|events| - 1]) + (if events[|events| - 1] == Enter then 1 else 0)
    decreases |events|
  {
    if |events| > 1 {
      RunOneMoreEvent(Apply(s, events[0]), events[1..]);
      assert events[1..][..|events| - 2] == events[..|events| - 1][1..];
      assert events[..|events| - 1][0] == events[0];
    } else {
      assert events[..0] == [] && events[1..] == [];
    }
  }

  /** Whether a receive after `events` returns a message: it does if one is left, unless there was a failure. */
  lemma TakesWhenLeft(events: seq<Event>)
    ensures var s := RunEvents(NEW_SESSION, events);
      TakenBy(s, Leave) != [] <==>
        |PushedIn(events)| > |TakenIn(NEW_SESSION, events)| && s.fatal.None? && !s.aborted
  {
    InboundIsFifo(NEW_SESSION, events);
    var s := RunEvents(NEW_SESSION, events);
    assert |TakenIn(NEW_SESSION, events)| + |s.inbound| == |PushedIn(events)|;
    hide RunEvents, TakenIn, PushedIn;
  }

  lemma {:induction false} FlagsAreHistory(events: seq<Event>)
    ensures var s := RunEvents(NEW_SESSION, events);
      && s.waitId == Waits(events)
      && (s.aborted <==> s.fatal.Some?)
      && (s.done <==> Exits in events)
    decreases |events|
  {
    if events != [] {
      var before, last := events[..|events| - 1], events[|events| - 1];
      assert events == before + [last];
      RunOneMoreEvent(NEW_SESSION, events);
      FlagsAreHistory(before);
      hide RunEvents;
    }
  }

  lemma {:induction false} SlotIsHistory(events: seq<Event>)
    ensures RunEvents(NEW_SESSION, events).outbound == Uncollected(events)
    decreases |events|
  {
    if events != [] {
      var before := events[..|events| - 1];
      RunOneMoreEvent(NEW_SESSION, events);
      SlotIsHistory(before);
      FirstFailureWins(NEW_SESSION, before, 0);
      hide RunEvents, FirstFailure, Waits;
    }
  }

  lemma {:induction false} WaitingIsHistory(events: seq<Event>)
    ensures RunEvents(NEW_SESSION, events).waiting <==> StillWaiting(events)
    decreases |events|
  {
    if events != [] {
      var before := events[..|events| - 1];
      RunOneMoreEvent(NEW_SESSION, events);
      WaitingIsHistory(before);
      FlagsAreHistory(before);
      FirstFailureWins(NEW_SESSION, before, 0);
      TakesWhenLeft(before);
      hide RunEvents, FirstFailure, Waits, PushedIn, TakenIn;
    }
  }

  /** Every field of a session is what the events since its creation say. */
  lemma StateIsHistory(events: seq<Event>)
    ensures var s := RunEvents(NEW_SESSION, events);
      && s.outbound == Uncollected(events)
      && TakenIn(NEW_SESSION, events) + s.inbound == PushedIn(events)
      && (s.waiting <==> StillWaiting(events))
      && s.waitId == Waits(events)
      && s.fatal == FirstFailure(events)
      && (s.aborted <==> FirstFailure(events).Some?)
      && (s.done <==> Exits in events)
  {
    SlotIsHistory(events);
    InboundIsFifo(NEW_SESSION, events);
    WaitingIsHistory(events);
    FlagsAreHistory(events);
    FirstFailureWins(NEW_SESSION, events, 0);
    hide RunEvents, FirstFailure, Waits, PushedIn, TakenIn, Uncollected, StillWaiting;
  }

  /** What a Step that looks after `events` makes of them, its snapshot being the number of waits that it had
      seen: the first failure, or else the uncollected message with the flag of the end, or else the end, or
      else a wait that it had not seen. */
  lemma LookTellsHistory(events: seq<Event>, snapshot: nat)
    ensures Inspect(RunEvents(NEW_SESSION, events), snapshot) ==
      match FirstFailure(events)
      case Some(code) => Throw(code)
      case None =>
        if Uncollected(events).Some? then Return(Uncollected(events), Exits in events)
        else if Exits in events then Return(None, true)
        else if StillWaiting(events) && Waits(events) > snapshot then Return(None, false)
        else Wait
    ensures Ensure(RunEvents(NEW_SESSION, events)) ==
      match FirstFailure(events)
      case Some(code) => Throw(code)
      case None => if Exits in events then Return(None, true) else Wait
  {
    StateIsHistory(events);
    hide RunEvents, FirstFailure, Waits, PushedIn, TakenIn, Uncollected, StillWaiting;
  }
}
