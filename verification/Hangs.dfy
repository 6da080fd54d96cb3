/** When the dual loop does not end: two runs, each of a whole conversation without failures, that come to a
    state in which neither worker can move and the driver waits inside a Step for ever. */
module Hangs {
  import opened Common
  import opened Rendezvous
  import opened Workers
  import opened TwoParty
  import opened Alternating
  import opened Progress

  /** The loop has not ended and nobody can move. */
  predicate Deadlocked(s: System) {
    && !s.phase.Exited? && !s.phase.Thrown?
    && !Enabled(s, WorkerMoves(First)) && !Enabled(s, WorkerMoves(Second)) && !Enabled(s, DriverMoves)
  }

  ghost predicate Whole(c: Config, t: Talk) {
    && Dual(c, t) && |c.scripts.first| == |c.scripts.second| == |t.messages|
    && c.outcomes == Pair(None, None) && c.cap >= 2
  }

  /** A run from the start that is extended by one step. */
  lemma Take(c: Config, before: seq<Step>, s: System, step: Step) returns (steps: seq<Step>, end: System)
    requires Sound(Init(c)) && Run(Init(c), before, c.cap) == Some(s) && Sound(s) && Enabled(s, step)
    ensures end == Next(s, step, c.cap) && Sound(end)
    ensures Run(Init(c), steps, c.cap) == Some(end)
    ensures EagerRun(Init(c), before, c.cap) && Eager(s, step) ==> EagerRun(Init(c), steps, c.cap)
  {
    OneMore(Init(c), before, c.cap, s, step);
    NextKeepsSound(s, step, c.cap);
    steps, end := before + [step], Next(s, step, c.cap);
  }

  // ---- The participant that speaks first is stepped second ----

  lemma FirstOps(c: Config, t: Talk, k: nat)
    requires Whole(c, t) && k < |t.messages|
    ensures c.scripts.first[k] == OpAt(t, First, k) && c.scripts.second[k] == OpAt(t, Second, k)
  {
  }

  /** The first participant's Step waits for what its own worker does not have, and the other cannot move. */
  lemma DeadEnd(s: System)
    requires s.turn == First && s.phase == Looking(1)
    requires s.workers.first.pc == Parked && s.workers.first.session == EnterReceive(NEW_SESSION)
    requires !CanMove(s.workers.second)
    ensures Deadlocked(s)
  {
  }

  /** The first-stepped worker parks before its Step reads the wait id. The Step has no message to push, and
      the message that is waited for stays in the slot of a session that the loop will never step. */
  lemma OpenerSteppedSecondHangs(c: Config, t: Talk) returns (steps: seq<Step>, end: System)
    requires Whole(c, t) && t.opener == Second && t.messages != []
    ensures Run(Init(c), steps, c.cap) == Some(end) && EagerRun(Init(c), steps, c.cap) && Deadlocked(end)
  {
    steps, end := WaitBegins(c, t);
    hide Run, EagerRun, Init, DriverNext, Deadlocked;
    FirstOps(c, t, 0);
    steps, end := Take(c, steps, end, WorkerMoves(Second));
    if |t.messages| >= 2 {
      FirstOps(c, t, 1);
    } else {
      steps, end := Take(c, steps, end, WorkerMoves(Second));
    }
    steps, end := Take(c, steps, end, WorkerMoves(Second));
    DeadEnd(end);
  }

  lemma WaitBegins(c: Config, t: Talk) returns (steps: seq<Step>, end: System)
    requires Whole(c, t) && t.opener == Second && t.messages != []
    ensures Sound(Init(c)) && Sound(end)
    ensures Run(Init(c), steps, c.cap) == Some(end) && EagerRun(Init(c), steps, c.cap)
    ensures end.turn == First && end.phase == Looking(1) && end.workers.second == Start(c.scripts.second, None)
    ensures end.workers.first == Start(c.scripts.first, None).(pc := Parked, session := EnterReceive(NEW_SESSION))
  {
    steps, end := [], Init(c);
    assert Run(Init(c), steps, c.cap) == Some(end) && EagerRun(Init(c), steps, c.cap);
    hide Run, EagerRun;
    FirstOps(c, t, 0);
    steps, end := Take(c, steps, end, WorkerMoves(First));
    steps, end := Take(c, steps, end, DriverMoves);
    steps, end := Take(c, steps, end, DriverMoves);
    steps, end := Take(c, steps, end, DriverMoves);
  }

  /** Under the scheduling hypothesis, and with enough iterations, the loop ends on every run exactly if the
      participant that speaks first is the one that each iteration steps first, or nobody speaks at all. */
  lemma LoopEndsIffOpenerIsSteppedFirst(c: Config, t: Talk)
    requires Whole(c, t) && Iterations(|t.messages|) <= c.cap
    ensures (forall steps, end ::
               EagerRun(Init(c), steps, c.cap) && Run(Init(c), steps, c.cap) == Some(end) && Maximal(end)
               ==> end.phase.Exited?)
       <==> t.opener == First || t.messages == []
  {
    if t.opener == First || t.messages == [] {
      var t' := t.(opener := First);
      forall steps, end |
        EagerRun(Init(c), steps, c.cap) && Run(Init(c), steps, c.cap) == Some(end) && Maximal(end)
        ensures end.phase.Exited?
      {
        LoopEndsWell(c, t', steps, First);
      }
    } else {
      var steps, end := OpenerSteppedSecondHangs(c, t);
      DeadlockIsMaximal(end);
    }
  }

  lemma DeadlockIsMaximal(s: System)
    requires Deadlocked(s)
    ensures Maximal(s) && !s.phase.Exited?
  {
    forall step ensures !Enabled(s, step) {
      match step {
        case WorkerMoves(p) => assert p == First || p == Second;
        case DriverMoves =>
      }
    }
  }

  // ---- A worker that parks between the read of the wait id and the push ----

  /** A session without failure, in the middle of its protocol. */
  function Midway(inbound: seq<Bytes>, waiting: bool, waitId: nat): Session {
    NEW_SESSION.(inbound := inbound, waiting := waiting, waitId := waitId)
  }

  /** A run from the start that is about to step `p`, with `queue` waiting for it in the transport. */
  ghost predicate Arrives(c: Config, steps: seq<Step>, s: System, p: Participant, queue: seq<Bytes>) {
    && Sound(Init(c)) && Sound(s) && Run(Init(c), steps, c.cap) == Some(s)
    && s.turn == p && s.phase == Receiving && s.queues.Get(p) == queue && s.queues.Get(Other(p)) == []
    && s.flags == Pair(false, false) && s.i < 2
  }

  lemma FirstSays(c: Config, t: Talk) returns (steps: seq<Step>, s: System)
    requires Whole(c, t) && t.opener == First && |t.messages| >= 2
    ensures Sound(Init(c)) && Sound(s) && Run(Init(c), steps, c.cap) == Some(s)
    ensures s.turn == First && s.phase.Looking? && s.i == 0
    ensures s.queues == Pair([], []) && s.flags == Pair(false, false)
    ensures s.workers.first
         == Start(c.scripts.first, None).(
              pos := 1, sent := [t.messages[0]], session := OnSend(NEW_SESSION, t.messages[0]))
    ensures s.workers.second == Start(c.scripts.second, None)
  {
    steps, s := [], Init(c);
    assert Run(Init(c), steps, c.cap) == Some(s);
    hide Run, EagerRun;
    FirstOps(c, t, 0);
    steps, s := Take(c, steps, s, WorkerMoves(First));
    steps, s := Take(c, steps, s, DriverMoves);
    steps, s := Take(c, steps, s, DriverMoves);
    steps, s := Take(c, steps, s, DriverMoves);
  }

  lemma FirstOpens(c: Config, t: Talk) returns (steps: seq<Step>, s: System)
    requires Whole(c, t) && t.opener == First && |t.messages| >= 2
    ensures Arrives(c, steps, s, Second, [t.messages[0]]) && s.i == 0
    ensures s.workers.first == Start(c.scripts.first, None).(pos := 1, sent := [t.messages[0]])
    ensures s.workers.second == Start(c.scripts.second, None)
  {
    steps, s := FirstSays(c, t);
    hide Run, EagerRun, Init;
    steps, s := Take(c, steps, s, DriverMoves);
    assert s.phase == Delivering(Some(t.messages[0]), false);
    steps, s := Take(c, steps, s, DriverMoves);
  }

  /** The second worker parks between the read of the wait id and the push. */
  lemma SecondParksLate(c: Config, t: Talk) returns (steps: seq<Step>, s: System)
    requires Whole(c, t) && t.opener == First && |t.messages| >= 2
    ensures Sound(Init(c)) && Sound(s) && Run(Init(c), steps, c.cap) == Some(s)
    ensures s.turn == Second && s.phase == Looking(0) && s.i == 0
    ensures s.queues == Pair([], []) && s.flags == Pair(false, false)
    ensures s.workers.first == Start(c.scripts.first, None).(pos := 1, sent := [t.messages[0]])
    ensures s.workers.second
         == Start(c.scripts.second, None).(pc := Parked, session := Midway([t.messages[0]], true, 1))
  {
    steps, s := FirstOpens(c, t);
    hide Run, EagerRun, Init;
    FirstOps(c, t, 0);
    steps, s := Take(c, steps, s, DriverMoves);
    assert s.queues.second == [];
    steps, s := Take(c, steps, s, DriverMoves);
    steps, s := Take(c, steps, s, WorkerMoves(Second));
    steps, s := Take(c, steps, s, DriverMoves);
    assert s.workers.second.session == Midway([t.messages[0]], true, 1);
  }

  /** The Step of the second participant returns without a message, although its worker has one to take. */
  lemma SecondReturnsEarly(c: Config, t: Talk) returns (steps: seq<Step>, s: System)
    requires Whole(c, t) && t.opener == First && |t.messages| >= 2
    ensures Arrives(c, steps, s, First, [])
    ensures s.workers.first == Start(c.scripts.first, None).(pos := 1, sent := [t.messages[0]])
    ensures s.workers.second
         == Start(c.scripts.second, None).(pc := Parked, session := Midway([t.messages[0]], true, 1))
  {
    steps, s := SecondParksLate(c, t);
    hide Run, EagerRun, Init;
    steps, s := Take(c, steps, s, DriverMoves);
    assert s.phase == Delivering(None, false);
    steps, s := Take(c, steps, s, DriverMoves);
  }

  /** The first participant is parked, and its Step has looked away with nothing to push. */
  lemma FirstWaits(c: Config, t: Talk) returns (steps: seq<Step>, s: System)
    requires Whole(c, t) && t.opener == First && |t.messages| >= 2
    ensures Sound(Init(c)) && Sound(s) && Run(Init(c), steps, c.cap) == Some(s)
    ensures s.turn == First && s.phase == Looking(1)
    ensures s.workers.first == Start(c.scripts.first, None).(
              pos := 1, sent := [t.messages[0]], pc := Parked, session := Midway([], true, 1))
    ensures s.workers.second
         == Start(c.scripts.second, None).(pc := Parked, session := Midway([t.messages[0]], true, 1))
  {
    steps, s := SecondReturnsEarly(c, t);
    hide Run, EagerRun, Init;
    FirstOps(c, t, 1);
    steps, s := Take(c, steps, s, WorkerMoves(First));
    assert s.workers.first.session == Midway([], true, 1);
    steps, s := Take(c, steps, s, DriverMoves);
    steps, s := Take(c, steps, s, DriverMoves);
    steps, s := Take(c, steps, s, DriverMoves);
  }

  /** Also when the right participant is stepped first, a conversation of two messages or more can hang: a
      worker that parks after its Step has read the wait id lets the Step return before the pushed message is
      read; the next Step of the other participant then has nothing to bring and waits for ever. */
  lemma ParkingInsideAStepHangs(c: Config, t: Talk) returns (steps: seq<Step>, s: System)
    requires Whole(c, t) && t.opener == First && |t.messages| >= 2
    ensures Run(Init(c), steps, c.cap) == Some(s) && Deadlocked(s)
  {
    steps, s := FirstWaits(c, t);
    hide Run, EagerRun, Init, DriverNext, Deadlocked;
    assert s.workers.first.session == EnterReceive(NEW_SESSION);
    FirstOps(c, t, 1);
    if |t.messages| > 2 {
      FirstOps(c, t, 2);
    }
    steps, s := Take(c, steps, s, WorkerMoves(Second));
    steps, s := Take(c, steps, s, WorkerMoves(Second));
    steps, s := Take(c, steps, s, WorkerMoves(Second));
    if |t.messages| == 2 {
      steps, s := Take(c, steps, s, WorkerMoves(Second));
    }
    DeadEnd(s);
  }

  // ---- Conversations too short to hang ----

  /** The opener has spoken and its message has been collected. */
  predicate Opened(s: System) {
    s.workers.first.pos == 1 && s.workers.first.session.outbound.None?
  }

  /** The part of OneMessage that the driver's place decides. */
  ghost predicate OneMessageAt(s: System) {
    !s.phase.Exited? ==>
      && (if s.i == 0 && s.turn == First && !s.phase.Delivering? then
            s.workers.first.pos == 1 ==> s.workers.first.session.outbound.Some?
          else Opened(s))
      && (s.turn == First || s.phase == Receiving || s.queues.second == [])
  }

  /** What every interleaving keeps when the first-stepped participant says one message and hears none. */
  ghost predicate OneMessage(t: Talk, s: System) {
    InStep(t, s) && WholeTalk(t, s) && |t.messages| == 1 && !s.phase.Thrown? && OneMessageAt(s)
  }

  lemma FirstNeverParks(t: Talk, s: System)
    requires OneMessage(t, s)
    ensures s.workers.first.pc != Parked && (s.workers.first.pc == Over ==> s.workers.first.pos == 1)
  {
    assert WorkerInStep(t, s.workers.first, First);
    if s.workers.first.pos == 0 {
      assert s.workers.first.script[0] == OpAt(t, First, 0);
    }
  }

  lemma OneMessageWorkerStep(t: Talk, s: System, p: Participant, cap: nat)
    requires OneMessage(t, s) && Enabled(s, WorkerMoves(p))
    ensures OneMessage(t, Next(s, WorkerMoves(p), cap))
  {
    FirstNeverParks(t, s);
    WorkerMoveInStep(t, s, p, cap);
    PosMoves(s.workers.Get(p));
    var w := s.workers.Get(p);
    assert p == First && Move(w).pos > w.pos ==> Move(w).session.outbound.Some?;
    hide InStep, Move, CanMove, Sane;
    OneMessageMove(t, s, p, Move(w));
  }

  lemma OneMessageMove(t: Talk, s: System, p: Participant, w: Worker)
    requires WholeTalk(t, s) && |t.messages| == 1 && !s.phase.Thrown? && OneMessageAt(s)
    requires w.script == s.workers.Get(p).script && w.outcome == s.workers.Get(p).outcome
    requires p == First ==> s.workers.first.pos <= w.pos <= 1
    requires p == First && w.pos > s.workers.first.pos ==> w.session.outbound.Some?
    requires p == First && w.pos == s.workers.first.pos ==> w.session.outbound == s.workers.first.session.outbound
    ensures var next := s.(workers := s.workers.Put(p, w)); WholeTalk(t, next) && OneMessageAt(next)
  {
  }

  lemma OneMessageUpToLook(t: Talk, s: System, cap: nat)
    requires OneMessage(t, s) && (s.phase.Receiving? || s.phase.Snapping? || s.phase.Pushing?)
    ensures OneMessageAt(Next(s, DriverMoves, cap))
  {
    InStepIsSound(t, s);
    if s.phase == Receiving {
      AtMostOne(t, s, s.turn);
      QueueIsPipeline(s, s.turn);
    }
    hide InStep, Pipeline, Sane, WholeTalk;
  }

  /** A look that neither waits nor throws. */
  lemma LookDelivers(s: System, cap: nat)
    requires Sound(s) && s.phase.Looking? && Enabled(s, DriverMoves)
    requires s.workers.Get(s.turn).session.fatal.None?
    ensures var w, next := s.workers.Get(s.turn), Next(s, DriverMoves, cap);
      && next == s.(workers := s.workers.Put(s.turn, w.(session := Inspected(w.session))),
                    collected := next.collected, phase := next.phase)
      && next.phase.Delivering?
  {
  }

  lemma NothingSaidYet(t: Talk, s: System)
    requires OneMessage(t, s) && s.workers.first.pos == 0
    ensures s.workers.first.pc == Active && s.workers.first.session.outbound.None?
  {
    FirstNeverParks(t, s);
    assert InStepFor(t, s, First);
    assert |s.collected.first| + |Slot(s.workers.first)| == 0;
  }

  lemma OneMessageLook(t: Talk, s: System, cap: nat)
    requires OneMessage(t, s) && s.phase.Looking? && Enabled(s, DriverMoves)
    ensures OneMessageAt(Next(s, DriverMoves, cap)) && Next(s, DriverMoves, cap).phase.Delivering?
  {
    InStepIsSound(t, s);
    assert s.workers.first.session.fatal.None? && s.workers.second.session.fatal.None?;
    assert s.workers.first.pos <= 1;
    if s.workers.first.pos == 0 {
      NothingSaidYet(t, s);
    }
    LookDelivers(s, cap);
    hide InStep, Next, WholeTalk;
  }

  lemma OneMessageDelivery(t: Talk, s: System, cap: nat)
    requires OneMessage(t, s) && s.phase.Delivering?
    ensures OneMessageAt(Next(s, DriverMoves, cap))
  {
    hide InStep;
  }

  lemma OneMessageDriverStep(t: Talk, s: System, cap: nat)
    requires OneMessage(t, s) && Enabled(s, DriverMoves)
    ensures OneMessage(t, Next(s, DriverMoves, cap))
  {
    DriverMoveInStep(t, s, cap);
    DriverKeepsWorkers(s, First, cap);
    DriverKeepsWorkers(s, Second, cap);
    var next := Next(s, DriverMoves, cap);
    if s.phase.Looking? {
      OneMessageLook(t, s, cap);
    } else if s.phase.Delivering? {
      OneMessageDelivery(t, s, cap);
    } else {
      OneMessageUpToLook(t, s, cap);
    }
    OutcomesStay(s, cap);
    hide InStep, Next, Enabled;
  }

  lemma OutcomesStay(s: System, cap: nat)
    requires Sound(s) && Enabled(s, DriverMoves)
    ensures var next := Next(s, DriverMoves, cap);
      && next.workers.first.outcome == s.workers.first.outcome
      && next.workers.second.outcome == s.workers.second.outcome
      && (next.phase.Thrown? ==> s.phase.Looking?)
  {
  }

  lemma {:induction false} OneMessageRun(t: Talk, s: System, steps: seq<Step>, cap: nat)
    requires OneMessage(t, s) && Sound(s) && Run(s, steps, cap).Some?
    ensures OneMessage(t, Run(s, steps, cap).value)
    decreases |steps|
  {
    hide OneMessage, Next, Enabled;
    if steps != [] {
      NextKeepsSound(s, steps[0], cap);
      match steps[0] {
        case WorkerMoves(p) => OneMessageWorkerStep(t, s, p, cap);
        case DriverMoves => OneMessageDriverStep(t, s, cap);
      }
      OneMessageRun(t, Next(s, steps[0], cap), steps[1..], cap);
    }
  }

  lemma OneMessageNeverHangs(t: Talk, s: System)
    requires OneMessage(t, s)
    ensures !Deadlocked(s)
  {
    FirstNeverParks(t, s);
    assert InStepFor(t, s, Second);
    if s.phase.Looking? && s.turn == Second && s.workers.second.pc == Parked {
      assert Transit(s, Second) == [];
      hide Transit, Said, Follows;
      assert |Pipeline(s, Second)| == |s.workers.second.session.inbound| + |Slot(s.workers.first)|;
    }
    hide Pipeline, Said, Follows, Transit;
  }

  /** What every interleaving keeps when nobody says anything: nobody ever waits. */
  ghost predicate NoMessage(s: System) {
    Sound(s) && s.workers.first.script == s.workers.second.script == [] && !s.phase.Thrown?
    && s.workers.first.outcome.None? && s.workers.second.outcome.None?
  }

  lemma {:induction false} NoMessageRun(s: System, steps: seq<Step>, cap: nat)
    requires NoMessage(s) && Run(s, steps, cap).Some?
    ensures NoMessage(Run(s, steps, cap).value)
    decreases |steps|
  {
    if steps != [] {
      NextKeepsSound(s, steps[0], cap);
      if steps[0] == DriverMoves {
        DriverKeepsWorkers(s, First, cap);
        DriverKeepsWorkers(s, Second, cap);
        OutcomesStay(s, cap);
        assert s.workers.first.session.fatal.None? && s.workers.second.session.fatal.None?;
      }
      NoMessageRun(Next(s, steps[0], cap), steps[1..], cap);
    }
  }

  lemma ShortTalkNeverHangs(c: Config, t: Talk, steps: seq<Step>, end: System)
    requires Whole(c, t) && (t.messages == [] || (|t.messages| == 1 && t.opener == First))
    requires Run(Init(c), steps, c.cap) == Some(end)
    ensures !Deadlocked(end)
  {
    if t.messages == [] {
      NoMessageRun(Init(c), steps, c.cap);
      hide Run, Init;
      NobodyWaits(end);
    } else {
      InitInStep(c, t);
      assert OneMessage(t, Init(c));
      hide OneMessage, Deadlocked;
      OneMessageRun(t, Init(c), steps, c.cap);
      OneMessageNeverHangs(t, end);
    }
  }

  lemma NobodyWaits(s: System)
    requires NoMessage(s)
    ensures !Deadlocked(s)
  {
  }

  /** Without any hypothesis on scheduling, no interleaving hangs exactly if nobody speaks, or only the
      first-stepped participant does, once. */
  lemma NoRunHangsIff(c: Config, t: Talk)
    requires Whole(c, t)
    ensures (forall steps, end :: Run(Init(c), steps, c.cap) == Some(end) ==> !Deadlocked(end))
       <==> t.messages == [] || (|t.messages| == 1 && t.opener == First)
  {
    assert Sound(Init(c));
    hide Deadlocked, Run, Init, Whole;
    if t.messages == [] || (|t.messages| == 1 && t.opener == First) {
      forall steps, end | Run(Init(c), steps, c.cap) == Some(end) ensures !Deadlocked(end) {
        ShortTalkNeverHangs(c, t, steps, end);
      }
    } else if t.opener == First {
      var steps, end := ParkingInsideAStepHangs(c, t);
    } else {
      var steps, end := OpenerSteppedSecondHangs(c, t);
    }
  }
}
