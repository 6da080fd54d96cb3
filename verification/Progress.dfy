/** When the dual loop ends: a conversation opened by the participant that each iteration steps first, with
    workers that run on before their session is looked at. Either side may fail at any place. */
module Progress {
  import opened Common
  import opened Rendezvous
  import opened Workers
  import opened TwoParty
  import opened Alternating

  /** A worker that has sent, that waits for a message that is not there, or that has ended. */
  predicate Settled(w: Worker) {
    w.session.outbound.Some? || !CanMove(w)
  }

  /** The hypothesis on scheduling: a Step looks at the state only when its worker has settled. */
  predicate Eager(s: System, step: Step) {
    step == DriverMoves && s.phase.Looking? ==> Settled(s.workers.Get(s.turn))
  }

  function Min(a: int, b: int): int {
    if a < b then a else b
  }

  /** The number of halves of iterations before the current one. */
  function TurnIndex(s: System): nat {
    2 * s.i + (if s.turn == First then 0 else 1)
  }

  /** Iterations that a conversation of `m` messages needs. */
  function Iterations(m: nat): nat {
    (m + 1) / 2 + 1
  }

  /** A worker that stops before the end of the conversation has failed. */
  predicate WholeOrFails(t: Talk, w: Worker) {
    |w.script| == |t.messages| || w.outcome.Some?
  }

  predicate EachWholeOrFails(t: Talk, s: System) {
    t.opener == First && WholeOrFails(t, s.workers.first) && WholeOrFails(t, s.workers.second)
  }

  predicate WholeTalk(t: Talk, s: System) {
    && t.opener == First
    && |s.workers.first.script| == |s.workers.second.script| == |t.messages|
    && s.workers.first.outcome.None? && s.workers.second.outcome.None?
  }

  /** What holds in half number `k`, in which `p` is stepped and `o` is the other participant. */
  ghost predicate OnTurn(t: Talk, s: System, p: Participant, o: Participant, k: nat) {
    var m := |t.messages|;
    var mine, other := s.workers.Get(p), s.workers.Get(o);
    && k <= m + 1 && Speaker(t, k) == p
    && !s.flags.Get(p) && (s.flags.Get(o) ==> k >= m) && (k == m + 1 ==> s.flags.Get(o))
    && other.pos == Min(k, m) && other.session.outbound.None?
    && (s.phase == Receiving || s.queues.Get(p) == [])
    && InPhase(s.phase, mine, other.pos, k, m)
  }

  /** How far the participant whose half it is has come. */
  ghost predicate InPhase(phase: Phase, mine: Worker, other: nat, k: nat, m: nat) {
    match phase
    case Looking(_) => Min(k - 1, m) <= mine.pos && (mine.pos > other ==> mine.session.outbound.Some?)
    case Delivering(outbound, done) =>
      mine.pos == Min(k + 1, m) && (outbound.Some? <==> k < m) && (k >= m ==> done) && (done ==> k + 1 >= m)
    case Exited => false
    case Thrown(_) => false
    case _ =>
      && mine.session.inbound == [] && (k >= 1 ==> mine.pos == Min(k - 1, m))
      && (mine.pos > other ==> mine.session.outbound.Some?)
  }

  ghost predicate AllDone(t: Talk, s: System) {
    && s.flags.first && s.flags.second && s.i <= Iterations(|t.messages|)
  }

  ghost predicate InTime(t: Talk, s: System) {
    && EachWholeOrFails(t, s)
    && (match s.phase
        case Exited => AllDone(t, s)
        case Thrown(code) => s.workers.Get(s.turn).session.fatal == Some(code)
        case _ => OnTurn(t, s, s.turn, Other(s.turn), TurnIndex(s)))
  }

  predicate HasEnded(s: System) {
    s.phase.Exited? || s.phase.Thrown?
  }

  ghost predicate Live(t: Talk, s: System, cap: nat) {
    InStep(t, s) && InTime(t, s) && Iterations(|t.messages|) <= cap
  }

  lemma InitIsLive(c: Config, t: Talk)
    requires Dual(c, t) && EachWholeOrFails(t, Init(c)) && Iterations(|t.messages|) <= c.cap
    ensures Live(t, Init(c), c.cap)
  {
    InitInStep(c, t);
  }

  // ---- Steps of the workers ----

  lemma PosMoves(w: Worker)
    requires Sane(w) && CanMove(w)
    ensures w.session.fatal.Some? ==> Move(w).session.fatal == w.session.fatal
    ensures w.pos <= Move(w).pos <= w.pos + 1 && Move(w).script == w.script && Move(w).outcome == w.outcome
    ensures Move(w).pos > w.pos ==>
      if w.script[w.pos].Say? then Move(w).session.outbound.Some? && Move(w).session.inbound == w.session.inbound
      else w.session.inbound != [] && Move(w).session.outbound == w.session.outbound
           && Move(w).session.inbound == w.session.inbound[1..]
    ensures Move(w).pos == w.pos ==>
      Move(w).session.inbound == w.session.inbound && Move(w).session.outbound == w.session.outbound
  {
  }

  lemma OtherStands(t: Talk, s: System, cap: nat)
    requires Live(t, s, cap) && !HasEnded(s) && CanMove(s.workers.Get(Other(s.turn)))
    ensures Move(s.workers.Get(Other(s.turn))).pos == s.workers.Get(Other(s.turn)).pos
  {
    var p, o, k := s.turn, Other(s.turn), TurnIndex(s);
    var w := s.workers.Get(o);
    assert InStepFor(t, s, p) && InStepFor(t, s, o);
    PosMoves(w);
    hide Said, Pipeline;
    if Move(w).pos > w.pos {
      assert w.script[w.pos] == OpAt(t, o, k);
      HearerTakesNext(t, s, o);
      PipelineEnds(s, o);
    }
  }

  /** The participant whose half it is speaks at its own place only, and hears only what lets it catch up. */
  lemma MineMoves(t: Talk, s: System, cap: nat)
    requires Live(t, s, cap) && !HasEnded(s) && CanMove(s.workers.Get(s.turn))
    ensures InPhase(s.phase, Move(s.workers.Get(s.turn)), s.workers.Get(Other(s.turn)).pos, TurnIndex(s), |t.messages|)
  {
    var p, o, k := s.turn, Other(s.turn), TurnIndex(s);
    var w := s.workers.Get(p);
    assert InStepFor(t, s, p) && InStepFor(t, s, o);
    PosMoves(w);
    hide Said, Pipeline;
    if Move(w).pos > w.pos {
      assert w.script[w.pos] == OpAt(t, p, w.pos);
      if w.script[w.pos].Say? {
        SpeakerFindsRoom(t, s, p);
      } else {
        HearerTakesNext(t, s, p);
      }
    }
  }

  lemma WorkerMoveInTime(t: Talk, s: System, q: Participant, w: Worker)
    requires InTime(t, s) && w.script == s.workers.Get(q).script && w.outcome == s.workers.Get(q).outcome
    requires !HasEnded(s) && q == s.turn ==>
      InPhase(s.phase, w, s.workers.Get(Other(q)).pos, TurnIndex(s), |t.messages|)
    requires !HasEnded(s) && q != s.turn ==>
      w.pos == s.workers.Get(q).pos && w.session.outbound == s.workers.Get(q).session.outbound
    requires s.workers.Get(q).session.fatal.Some? ==> w.session.fatal == s.workers.Get(q).session.fatal
    ensures InTime(t, s.(workers := s.workers.Put(q, w)))
  {
    hide InPhase, Speaker;
  }

  lemma WorkerMoveIsLive(t: Talk, s: System, q: Participant, cap: nat)
    requires Live(t, s, cap) && Enabled(s, WorkerMoves(q))
    ensures Live(t, Next(s, WorkerMoves(q), cap), cap)
  {
    WorkerMoveInStep(t, s, q, cap);
    PosMoves(s.workers.Get(q));
    if !HasEnded(s) {
      if q == s.turn {
        MineMoves(t, s, cap);
      } else {
        OtherStands(t, s, cap);
      }
    }
    hide InStep, InTime, Move, CanMove, InPhase;
    WorkerMoveInTime(t, s, q, Move(s.workers.Get(q)));
  }

  // ---- Steps of the driver ----

  lemma QueueIsPipeline(s: System, p: Participant)
    requires s.phase == Receiving
    ensures |s.queues.Get(p)| <= |Pipeline(s, p)|
  {
  }

  lemma ReceiveInTime(t: Talk, s: System, queue: seq<Bytes>, inbound: Option<Bytes>)
    requires InTime(t, s) && s.phase == Receiving && queue == []
    ensures InTime(t, s.(queues := s.queues.Put(s.turn, queue), phase := Snapping(inbound)))
  {
    hide Speaker;
  }

  lemma SnapInTime(t: Talk, s: System, inbound: Option<Bytes>, snapshot: nat)
    requires InTime(t, s) && s.phase.Snapping?
    ensures InTime(t, s.(phase := Pushing(inbound, snapshot)))
  {
    hide Speaker;
  }

  lemma PushInTime(t: Talk, s: System, w: Worker, snapshot: nat)
    requires InTime(t, s) && s.phase.Pushing?
    requires w.pos == s.workers.Get(s.turn).pos && w.session.outbound == s.workers.Get(s.turn).session.outbound
    requires w.script == s.workers.Get(s.turn).script && w.outcome == s.workers.Get(s.turn).outcome
    ensures InTime(t, s.(workers := s.workers.Put(s.turn, w), phase := Looking(snapshot)))
  {
    hide Speaker;
  }

  /** A receive empties a queue of at most one payload. */
  lemma ReceiveEmpties(s: System, cap: nat) returns (inbound: Option<Bytes>)
    requires Sound(s) && s.phase == Receiving && |s.queues.Get(s.turn)| <= 1
    ensures Next(s, DriverMoves, cap) == s.(queues := s.queues.Put(s.turn, []), phase := Snapping(inbound))
  {
    var queue := s.queues.Get(s.turn);
    if queue == [] {
      inbound := None;
      assert s.queues.Put(s.turn, []) == s.queues;
    } else {
      inbound := Present(Some(queue[0]));
      assert queue[1..] == [];
    }
  }

  lemma ReceiveIsLive(t: Talk, s: System, cap: nat)
    requires Live(t, s, cap) && s.phase == Receiving
    ensures Live(t, Next(s, DriverMoves, cap), cap)
  {
    InStepIsSound(t, s);
    AtMostOne(t, s, s.turn);
    QueueIsPipeline(s, s.turn);
    hide InStep, InTime, Pipeline, Next, Enabled, Sound;
    var inbound := ReceiveEmpties(s, cap);
    assert Enabled(s, DriverMoves) by {
      AlwaysReceives(s);
    }
    DriverMoveInStep(t, s, cap);
    ReceiveInTime(t, s, [], inbound);
  }

  lemma AlwaysReceives(s: System)
    requires s.phase == Receiving
    ensures Enabled(s, DriverMoves)
  {
  }

  lemma AtMostOne(t: Talk, s: System, p: Participant)
    requires InStep(t, s)
    ensures |Pipeline(s, p)| <= 1
  {
    assert InStepFor(t, s, p);
    hide Pipeline;
  }

  lemma SnapIsLive(t: Talk, s: System, cap: nat)
    requires Live(t, s, cap) && s.phase.Snapping?
    ensures Live(t, Next(s, DriverMoves, cap), cap)
  {
    DriverMoveInStep(t, s, cap);
    hide InStep, InTime;
    SnapInTime(t, s, s.phase.inbound, s.workers.Get(s.turn).session.waitId);
  }

  lemma PushNext(s: System, cap: nat) returns (w: Worker)
    requires Sound(s) && s.phase.Pushing?
    ensures Enabled(s, DriverMoves)
    ensures Next(s, DriverMoves, cap) == s.(workers := s.workers.Put(s.turn, w), phase := Looking(s.phase.snapshot))
    ensures var was := s.workers.Get(s.turn);
      && w.pos == was.pos && w.script == was.script && w.outcome == was.outcome
      && w.session.outbound == was.session.outbound
  {
    w := Next(s, DriverMoves, cap).workers.Get(s.turn);
  }

  lemma PushIsLive(t: Talk, s: System, cap: nat)
    requires Live(t, s, cap) && s.phase.Pushing?
    ensures Live(t, Next(s, DriverMoves, cap), cap)
  {
    InStepIsSound(t, s);
    hide InStep, InTime, Next, Enabled, Sound;
    var w := PushNext(s, cap);
    DriverMoveInStep(t, s, cap);
    PushInTime(t, s, w, s.phase.snapshot);
  }

  /** What a settled worker that has not failed shows in its half `k`: its message, if it has one to give, or
      its end. */
  lemma SettledLook(t: Talk, s: System, cap: nat)
    requires Live(t, s, cap) && s.phase.Looking? && Settled(s.workers.Get(s.turn))
    requires s.workers.Get(s.turn).session.fatal.None?
    ensures var w, k, m := s.workers.Get(s.turn), TurnIndex(s), |t.messages|;
      && w.pos == Min(k + 1, m)
      && (if k < m then w.session.outbound.Some? && (w.session.done ==> k + 1 >= m)
          else w.session.outbound.None? && w.session.done)
  {
    var p, o, k, m := s.turn, Other(s.turn), TurnIndex(s), |t.messages|;
    var w := s.workers.Get(p);
    assert InStepFor(t, s, p) && InStepFor(t, s, o);
    assert Close(t, s, p) && Close(t, s, o);
    PipelineEnds(s, o);
    WaitingIsOver(t, s, cap);
    hide Said, Pipeline;
    if k < m {
      if w.pos < |w.script| {
        assert w.script[w.pos] == OpAt(t, p, w.pos);
      }
    }
  }

  /** A settled worker in its half does not wait for a message: the one it needed has been pushed. */
  lemma WaitingIsOver(t: Talk, s: System, cap: nat)
    requires Live(t, s, cap) && s.phase.Looking?
    ensures var w := s.workers.Get(s.turn); w.pos < Min(TurnIndex(s), |t.messages|) ==> w.session.inbound != []
  {
    var p, o := s.turn, Other(s.turn);
    assert InStepFor(t, s, p);
    assert Transit(s, p) == [];
    hide Transit, InStep, Said, Sane, Follows, Speaker;
    assert Slot(s.workers.Get(o)) == [];
    assert |Pipeline(s, p)| == |s.workers.Get(p).session.inbound|;
  }

  lemma LookInTime(t: Talk, s: System, w: Worker, collected: Pair<seq<Bytes>>, outbound: Option<Bytes>, done: bool)
    requires InTime(t, s) && s.phase.Looking?
    requires w.script == s.workers.Get(s.turn).script && w.outcome == s.workers.Get(s.turn).outcome
    requires var k, m := TurnIndex(s), |t.messages|;
      w.pos == Min(k + 1, m) && (outbound.Some? <==> k < m) && (k >= m ==> done) && (done ==> k + 1 >= m)
    ensures InTime(t, s.(workers := s.workers.Put(s.turn, w), collected := collected,
                         phase := Delivering(outbound, done)))
  {
    hide Speaker;
  }

  /** A look that gives a message or the end. */
  lemma LookReturns(s: System, cap: nat)
    requires Sound(s) && s.phase.Looking?
    requires var session := s.workers.Get(s.turn).session;
      session.fatal.None? && (session.outbound.Some? || session.done)
    ensures var w := s.workers.Get(s.turn);
      && Enabled(s, DriverMoves)
      && Next(s, DriverMoves, cap) == s.(
           workers := s.workers.Put(s.turn, w.(session := Inspected(w.session))),
           collected := Next(s, DriverMoves, cap).collected,
           phase := Delivering(w.session.outbound, w.session.done))
  {
  }

  lemma LookThrows(s: System, cap: nat)
    requires Sound(s) && s.phase.Looking? && s.workers.Get(s.turn).session.fatal.Some?
    ensures Enabled(s, DriverMoves)
    ensures Next(s, DriverMoves, cap) == s.(phase := Thrown(s.workers.Get(s.turn).session.fatal.value))
  {
  }

  lemma ThrowInTime(t: Talk, s: System, code: ErrorCode)
    requires InTime(t, s) && s.phase.Looking? && s.workers.Get(s.turn).session.fatal == Some(code)
    ensures InTime(t, s.(phase := Thrown(code)))
  {
  }

  lemma LookIsLive(t: Talk, s: System, cap: nat)
    requires Live(t, s, cap) && s.phase.Looking? && Settled(s.workers.Get(s.turn))
    ensures Enabled(s, DriverMoves) && Live(t, Next(s, DriverMoves, cap), cap)
  {
    InStepIsSound(t, s);
    var w := s.workers.Get(s.turn);
    if w.session.fatal.Some? {
      hide InStep, InTime, Settled, Next, Enabled, Sound;
      LookThrows(s, cap);
      DriverMoveInStep(t, s, cap);
      ThrowInTime(t, s, w.session.fatal.value);
    } else {
      SettledLook(t, s, cap);
      hide InStep, InTime, Settled, Next, Enabled, Sound;
      LookReturns(s, cap);
      DriverMoveInStep(t, s, cap);
      LookInTime(t, s, w.(session := Inspected(w.session)), Next(s, DriverMoves, cap).collected,
                 w.session.outbound, w.session.done);
    }
  }

  lemma DeliveryLeavesRoom(t: Talk, s: System, cap: nat)
    requires Live(t, s, cap) && s.phase.Delivering?
    ensures s.workers.Get(s.turn).session.outbound.None? && s.workers.Get(Other(s.turn)).session.inbound == []
  {
    var p, o := s.turn, Other(s.turn);
    assert InStepFor(t, s, o);
    hide Sane, Follows, WorkerInStep, Speaker, DoneIsDone;
    var inbound, transit, slot := s.workers.Get(o).session.inbound, Transit(s, o), Slot(s.workers.Get(p));
    assert s.phase.outbound.Some? ==> transit != [];
    hide Transit, Said;
    assert |Pipeline(s, o)| == |inbound| + |transit| + |slot|;
  }

  /** A half ends before everything has been said and heard: the next one is the other participant's. */
  lemma NextHalfInTime(t: Talk, s: System, queues: Pair<seq<Bytes>>, cap: nat)
    requires InTime(t, s) && s.phase.Delivering? && Iterations(|t.messages|) <= cap && !s.flags.Get(Other(s.turn))
    requires s.workers.Get(s.turn).session.outbound.None? && s.workers.Get(Other(s.turn)).session.inbound == []
    ensures InTime(t, Proceed(s.(queues := queues, flags := s.flags.Put(s.turn, s.phase.done)), cap))
  {
    var next := Proceed(s.(queues := queues, flags := s.flags.Put(s.turn, s.phase.done)), cap);
    assert OnTurn(t, s, s.turn, Other(s.turn), TurnIndex(s));
    assert next.phase == Receiving && next.turn == Other(s.turn) && TurnIndex(next) == TurnIndex(s) + 1;
    assert next.workers == s.workers && next.flags == s.flags.Put(s.turn, s.phase.done);
  }

  /** The last half ends: both are done, and so is the loop. */
  lemma LastHalfInTime(t: Talk, s: System, queues: Pair<seq<Bytes>>, cap: nat)
    requires InTime(t, s) && s.phase.Delivering? && s.flags.Get(Other(s.turn))
    ensures InTime(t, Proceed(s.(queues := queues, flags := s.flags.Put(s.turn, s.phase.done)), cap))
  {
    hide Speaker;
  }

  lemma DeliveryInTime(t: Talk, s: System, queues: Pair<seq<Bytes>>, cap: nat)
    requires InTime(t, s) && s.phase.Delivering? && Iterations(|t.messages|) <= cap
    requires s.workers.Get(s.turn).session.outbound.None? && s.workers.Get(Other(s.turn)).session.inbound == []
    ensures InTime(t, Proceed(s.(queues := queues, flags := s.flags.Put(s.turn, s.phase.done)), cap))
  {
    hide InTime, Proceed;
    if s.flags.Get(Other(s.turn)) {
      LastHalfInTime(t, s, queues, cap);
    } else {
      NextHalfInTime(t, s, queues, cap);
    }
  }

  lemma DeliveryIsLive(t: Talk, s: System, cap: nat)
    requires Live(t, s, cap) && s.phase.Delivering?
    ensures Live(t, Next(s, DriverMoves, cap), cap)
  {
    DriverMoveInStep(t, s, cap);
    DeliveryLeavesRoom(t, s, cap);
    hide InStep, InTime, Proceed;
    var o := Other(s.turn);
    DeliveryInTime(t, s, s.queues.Put(o, Append(s.queues.Get(o), Present(s.phase.outbound))), cap);
  }

  // ---- Whole runs ----

  lemma EagerStepIsLive(t: Talk, s: System, step: Step, cap: nat)
    requires Live(t, s, cap) && Sound(s) && Enabled(s, step) && Eager(s, step)
    ensures Live(t, Next(s, step, cap), cap)
  {
    match step {
      case WorkerMoves(q) => WorkerMoveIsLive(t, s, q, cap);
      case DriverMoves =>
        if s.phase.Looking? {
          LookIsLive(t, s, cap);
        } else if s.phase.Delivering? {
          DeliveryIsLive(t, s, cap);
        } else if s.phase.Pushing? {
          PushIsLive(t, s, cap);
        } else if s.phase.Snapping? {
          SnapIsLive(t, s, cap);
        } else {
          ReceiveIsLive(t, s, cap);
        }
    }
  }

  /** No deadlock: until the loop has ended there is always a step that the scheduling hypothesis allows. */
  lemma SomeoneCanMove(t: Talk, s: System, cap: nat) returns (step: Step)
    requires Live(t, s, cap) && !HasEnded(s)
    ensures Enabled(s, step) && Eager(s, step)
  {
    if s.phase.Looking? && !Settled(s.workers.Get(s.turn)) {
      step := WorkerMoves(s.turn);
    } else {
      step := DriverMoves;
      if s.phase.Looking? {
        LookIsLive(t, s, cap);
      }
    }
  }

  ghost predicate EagerRun(s: System, steps: seq<Step>, cap: nat)
    requires Sound(s)
    decreases |steps|
  {
    steps != [] ==>
      Enabled(s, steps[0]) && Eager(s, steps[0])
      && (NextKeepsSound(s, steps[0], cap); EagerRun(Next(s, steps[0], cap), steps[1..], cap))
  }

  /** A run that is extended by one step. */
  lemma {:induction false} OneMore(s: System, steps: seq<Step>, cap: nat, end: System, step: Step)
    requires Sound(s) && Run(s, steps, cap) == Some(end) && Sound(end) && Enabled(end, step)
    ensures Run(s, steps + [step], cap) == Some(Next(end, step, cap))
    ensures EagerRun(s, steps, cap) && Eager(end, step) ==> EagerRun(s, steps + [step], cap)
    decreases |steps|
  {
    hide Next, Enabled, Eager;
    if steps == [] {
      NextKeepsSound(s, step, cap);
      assert [step][1..] == [];
      assert [] + [step] == [step];
    } else {
      NextKeepsSound(s, steps[0], cap);
      OneMore(Next(s, steps[0], cap), steps[1..], cap, end, step);
      assert (steps + [step])[1..] == steps[1..] + [step];
    }
  }

  /** A run from `from` to `s`. */
  ghost predicate Leads(from: System, steps: seq<Step>, s: System, cap: nat) {
    Sound(from) && Sound(s) && Run(from, steps, cap) == Some(s) && EagerRun(from, steps, cap)
  }

  lemma Extend(from: System, before: seq<Step>, s: System, step: Step, cap: nat)
    returns (steps: seq<Step>, next: System)
    requires Leads(from, before, s, cap) && Enabled(s, step) && Eager(s, step)
    ensures next == Next(s, step, cap) && Leads(from, steps, next, cap)
  {
    OneMore(from, before, cap, s, step);
    NextKeepsSound(s, step, cap);
    steps, next := before + [step], Next(s, step, cap);
  }

  lemma LeadsIsSound(from: System, steps: seq<Step>, s: System, cap: nat)
    requires Leads(from, steps, s, cap)
    ensures Sound(from) && Sound(s)
  {
  }

  lemma WorkerNext(s: System, p: Participant, cap: nat)
    requires Sound(s) && Enabled(s, WorkerMoves(p))
    ensures Next(s, WorkerMoves(p), cap) == s.(workers := s.workers.Put(p, Move(s.workers.Get(p))))
  {
  }

  lemma {:induction false} EagerRunIsLive(t: Talk, s: System, steps: seq<Step>, cap: nat)
    requires Live(t, s, cap) && Sound(s) && EagerRun(s, steps, cap)
    ensures Run(s, steps, cap).Some? && Live(t, Run(s, steps, cap).value, cap)
    decreases |steps|
  {
    hide Live, Next, Enabled, Eager;
    if steps != [] {
      NextKeepsSound(s, steps[0], cap);
      EagerStepIsLive(t, s, steps[0], cap);
      EagerRunIsLive(t, Next(s, steps[0], cap), steps[1..], cap);
    }
  }

  ghost predicate Maximal(s: System) {
    forall step :: Enabled(s, step) ==> !Eager(s, step)
  }

  lemma ExitedIsComplete(t: Talk, s: System, cap: nat, p: Participant)
    requires Live(t, s, cap) && s.phase.Exited?
    ensures var w := s.workers.Get(p);
      && w.pos == |t.messages|
      && Ensure(w.session) == Return(None, true) && w.ready
      && w.sent == Said(t, p, |t.messages|) && w.heard == Said(t, Other(p), |t.messages|)
      && s.collected.Get(p) == w.sent
  {
    assert InStepFor(t, s, p) && DoneIsDone(s, p);
    assert Slot(s.workers.Get(p)) == [];
  }

  lemma {:induction false} RunKeepsOutcomes(s: System, steps: seq<Step>, cap: nat, p: Participant)
    requires Sound(s) && Run(s, steps, cap).Some?
    ensures Run(s, steps, cap).value.workers.Get(p).outcome == s.workers.Get(p).outcome
    ensures Run(s, steps, cap).value.workers.Get(p).script == s.workers.Get(p).script
    decreases |steps|
  {
    hide Next, Enabled;
    if steps != [] {
      NextKeepsSound(s, steps[0], cap);
      NextKeepsOutcome(s, steps[0], cap, p);
      RunKeepsOutcomes(Next(s, steps[0], cap), steps[1..], cap, p);
    }
  }

  lemma NextKeepsOutcome(s: System, step: Step, cap: nat, p: Participant)
    requires Sound(s) && Enabled(s, step)
    ensures Next(s, step, cap).workers.Get(p).outcome == s.workers.Get(p).outcome
    ensures Next(s, step, cap).workers.Get(p).script == s.workers.Get(p).script
  {
  }

  /** How an eager run that cannot go on has ended: by the error of a participant that failed, or normally if
      none did. */
  lemma MaximalRunHasEnded(c: Config, t: Talk, steps: seq<Step>)
    requires Dual(c, t) && EachWholeOrFails(t, Init(c)) && Iterations(|t.messages|) <= c.cap
    requires EagerRun(Init(c), steps, c.cap)
    ensures Run(Init(c), steps, c.cap).Some?
    ensures var end := Run(Init(c), steps, c.cap).value;
      && Live(t, end, c.cap)
      && (Maximal(end) ==>
            if c.outcomes == Pair(None, None) then end.phase.Exited?
            else end.phase.Thrown? && c.outcomes.Get(end.turn) == Some(end.phase.code))
  {
    InitIsLive(c, t);
    EagerRunIsLive(t, Init(c), steps, c.cap);
    var end := Run(Init(c), steps, c.cap).value;
    RunKeepsOutcomes(Init(c), steps, c.cap, First);
    RunKeepsOutcomes(Init(c), steps, c.cap, Second);
    hide Run, EagerRun;
    if Maximal(end) {
      if !HasEnded(end) {
        var step := SomeoneCanMove(t, end, c.cap);
      }
      EndShowsOutcome(t, end, c.cap);
    }
  }

  lemma EndShowsOutcome(t: Talk, s: System, cap: nat)
    requires Live(t, s, cap)
    ensures s.phase.Exited? ==> s.workers.first.outcome.None? && s.workers.second.outcome.None?
    ensures s.phase.Thrown? ==> s.workers.Get(s.turn).outcome == Some(s.phase.code)
  {
    assert DoneIsDone(s, First) && DoneIsDone(s, Second);
    assert Sane(s.workers.first) && Sane(s.workers.second);
  }

  lemma WholeEachWhole(c: Config, t: Talk)
    requires WholeTalk(t, Init(c))
    ensures EachWholeOrFails(t, Init(c)) && c.outcomes == Pair(None, None)
  {
  }

  /** The loop ends well. For a whole conversation of m messages that the first-stepped participant opens, and
      a cap of at least (m + 1) / 2 + 1 iterations, a run of the eager system that cannot go on has left the
      loop, within that many iterations and with both flags up; each side has heard all that the other has
      said; and Finalize will find both workers ended, without failure and with their result ready. Since no run
      goes on for ever (EveryRunIsBounded), every eager run gets there. */
  lemma LoopEndsWell(c: Config, t: Talk, steps: seq<Step>, p: Participant)
    requires Dual(c, t) && WholeTalk(t, Init(c)) && Iterations(|t.messages|) <= c.cap
    requires EagerRun(Init(c), steps, c.cap)
    ensures Run(Init(c), steps, c.cap).Some?
    ensures var end := Run(Init(c), steps, c.cap).value;
      Maximal(end) ==>
        && end.phase.Exited? && end.flags == Pair(true, true) && end.i <= Iterations(|t.messages|)
        && Ensure(end.workers.Get(p).session) == Return(None, true) && end.workers.Get(p).ready
        && end.workers.Get(p).heard == end.workers.Get(Other(p)).sent == Said(t, Other(p), |t.messages|)
  {
    assert Sound(Init(c));
    hide *;
    WholeEachWhole(c, t);
    MaximalRunHasEnded(c, t, steps);
    var end := Run(Init(c), steps, c.cap).value;
    if Maximal(end) {
      CompleteAtExit(t, end, c.cap, p);
    }
  }

  lemma CompleteAtExit(t: Talk, s: System, cap: nat, p: Participant)
    requires Live(t, s, cap) && s.phase.Exited?
    ensures s.flags == Pair(true, true) && s.i <= Iterations(|t.messages|)
    ensures Ensure(s.workers.Get(p).session) == Return(None, true) && s.workers.Get(p).ready
    ensures s.workers.Get(p).heard == s.workers.Get(Other(p)).sent == Said(t, Other(p), |t.messages|)
  {
    ExitedIsComplete(t, s, cap, p);
    ExitedIsComplete(t, s, cap, Other(p));
    hide InStep, Said;
  }

  /** A failure does not hang the loop either. If a participant stops at any place of such a conversation with
      an error, and the other one goes through with it or fails too, an eager run that cannot go on has thrown
      the error of the participant that it was stepping. */
  lemma FailureEndsLoop(c: Config, t: Talk, steps: seq<Step>)
    requires Dual(c, t) && EachWholeOrFails(t, Init(c)) && Iterations(|t.messages|) <= c.cap
    requires c.outcomes.first.Some? || c.outcomes.second.Some?
    requires EagerRun(Init(c), steps, c.cap)
    ensures Run(Init(c), steps, c.cap).Some?
    ensures var end := Run(Init(c), steps, c.cap).value;
      Maximal(end) ==> end.phase.Thrown? && c.outcomes.Get(end.turn) == Some(end.phase.code)
  {
    MaximalRunHasEnded(c, t, steps);
  }

  /** Every eager run can be carried on until the loop has ended. */
  lemma {:induction false} EagerRunReachesEnd(t: Talk, s: System, cap: nat) returns (steps: seq<Step>)
    requires Live(t, s, cap) && Sound(s) && WithinCap(s, cap)
    ensures EagerRun(s, steps, cap) && Run(s, steps, cap).Some? && HasEnded(Run(s, steps, cap).value)
    decreases Measure(s, cap)
  {
    hide Live, Next, Enabled, Eager, Measure;
    if HasEnded(s) {
      steps := [];
    } else {
      var step := SomeoneCanMove(t, s, cap);
      EagerStepIsLive(t, s, step, cap);
      NextDecreasesMeasure(s, step, cap);
      var rest := EagerRunReachesEnd(t, Next(s, step, cap), cap);
      steps := [step] + rest;
      assert steps[1..] == rest;
    }
  }
}
