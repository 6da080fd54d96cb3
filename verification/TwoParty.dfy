/** Two sessions driven against each other: the dual loops of packages/coordinator-node/src/session/dkg.ts and
    sign.ts, the in-memory transport, and the two worker threads, as one transition system. Every lock-held
    region of bridge.cpp is one step; so are the unlocked read of the wait id and the push that follows it. */
module TwoParty {
  import opened Common
  import opened Rendezvous
  import opened Workers

  /** The participants, named by the order in which an iteration of the loop steps them: the device comes
      first in dkg.ts, the server in sign.ts. */
  datatype Participant = First | Second

  function Other(p: Participant): Participant {
    if p == First then Second else First
  }

  datatype Pair<T> = Pair(first: T, second: T) {
    function Get(p: Participant): T {
      if p == First then first else second
    }

    function Put(p: Participant, x: T): Pair<T> {
      if p == First then Pair(x, second) else Pair(first, x)
    }
  }

  datatype Config = Config(scripts: Pair<seq<Op>>, outcomes: Pair<Option<ErrorCode>>, cap: nat)

  /** Where the loop is, within the half of an iteration that steps one participant. */
  datatype Phase =
    | Receiving
    | Snapping(inbound: Option<Bytes>)
    | Pushing(inbound: Option<Bytes>, snapshot: nat)
    | Looking(snapshot: nat)
    | Delivering(outbound: Option<Bytes>, done: bool)
    | Exited
    | Thrown(code: ErrorCode)

  datatype System = System(
    workers: Pair<Worker>,
    queues: Pair<seq<Bytes>>,
    flags: Pair<bool>,
    collected: Pair<seq<Bytes>>,
    i: nat,
    turn: Participant,
    phase: Phase)

  /** The loop condition, and the first participant whose flag is still down. */
  function Head(s: System, i: nat, cap: nat): System {
    if i < cap && !(s.flags.first && s.flags.second) then
      s.(i := i, turn := if !s.flags.first then First else Second, phase := Receiving)
    else
      s.(i := i, phase := Exited)
  }

  function Proceed(s: System, cap: nat): System {
    if s.turn == First && !s.flags.second then s.(turn := Second, phase := Receiving) else Head(s, s.i + 1, cap)
  }

  function Init(c: Config): System {
    var workers := Pair(Start(c.scripts.first, c.outcomes.first), Start(c.scripts.second, c.outcomes.second));
    Head(System(workers, Pair([], []), Pair(false, false), Pair([], []), 0, First, Receiving), 0, c.cap)
  }

  datatype Step = WorkerMoves(p: Participant) | DriverMoves

  predicate Sound(s: System) {
    Sane(s.workers.first) && Sane(s.workers.second)
  }

  predicate Enabled(s: System, step: Step) {
    match step
    case WorkerMoves(p) => CanMove(s.workers.Get(p))
    case DriverMoves =>
      match s.phase
      case Looking(snapshot) => Inspect(s.workers.Get(s.turn).session, snapshot) != Wait
      case Exited => false
      case Thrown(_) => false
      case _ => true
  }

  /** The binding hands an empty payload on as no payload at all, to the bridge and from it. */
  function Present(payload: Option<Bytes>): Option<Bytes> {
    if payload == Some([]) then None else payload
  }

  function Append(queue: seq<Bytes>, msg: Option<Bytes>): seq<Bytes> {
    match msg
    case None => queue
    case Some(m) => queue + [m]
  }

  function DriverNext(s: System, cap: nat): System
    requires Enabled(s, DriverMoves)
  {
    var p, w := s.turn, s.workers.Get(s.turn);
    match s.phase
    case Receiving =>
      var queue := s.queues.Get(p);
      if queue == [] then s.(phase := Snapping(None))
      else s.(queues := s.queues.Put(p, queue[1..]), phase := Snapping(Present(Some(queue[0]))))
    case Snapping(inbound) => s.(phase := Pushing(inbound, w.session.waitId))
    case Pushing(inbound, snapshot) =>
      var session := if inbound.Some? then Push(w.session, inbound.value) else w.session;
      s.(workers := s.workers.Put(p, w.(session := session)), phase := Looking(snapshot))
    case Looking(snapshot) =>
      (match Inspect(w.session, snapshot)
       case Throw(code) => s.(phase := Thrown(code))
       case Return(outbound, done) =>
         s.(workers := s.workers.Put(p, w.(session := Inspected(w.session))),
            collected := s.collected.Put(p, Append(s.collected.Get(p), outbound)),
            phase := Delivering(outbound, done)))
    case Delivering(outbound, done) =>
      var queues := s.queues.Put(Other(p), Append(s.queues.Get(Other(p)), Present(outbound)));
      Proceed(s.(queues := queues, flags := s.flags.Put(p, done)), cap)
  }

  function Next(s: System, step: Step, cap: nat): System
    requires Sound(s) && Enabled(s, step)
  {
    match step
    case WorkerMoves(p) => s.(workers := s.workers.Put(p, Move(s.workers.Get(p))))
    case DriverMoves => DriverNext(s, cap)
  }

  lemma NextKeepsSound(s: System, step: Step, cap: nat)
    requires Sound(s) && Enabled(s, step)
    ensures Sound(Next(s, step, cap))
  {
    if step.WorkerMoves? {
      MoveKeepsSane(s.workers.Get(step.p));
    }
  }

  /** A run: every step is enabled where it is taken. None if one is not. */
  function Run(s: System, steps: seq<Step>, cap: nat): (r: Option<System>)
    requires Sound(s)
    ensures r.Some? ==> Sound(r.value)
    decreases |steps|
  {
    if steps == [] then Some(s)
    else if !Enabled(s, steps[0]) then None
    else
      NextKeepsSound(s, steps[0], cap);
      Run(Next(s, steps[0], cap), steps[1..], cap)
  }

  ghost predicate Reachable(c: Config, s: System) {
    exists steps :: Run(Init(c), steps, c.cap) == Some(s)
  }

  // ---- Where messages are ----

  function Slot(w: Worker): seq<Bytes> {
    Append([], w.session.outbound)
  }

  /** In the driver's hands after a receive, in the transport, in the driver's hands after a Step. */
  function Transit(s: System, p: Participant): seq<Bytes> {
    var held := if s.turn == p && (s.phase.Snapping? || s.phase.Pushing?) then Append([], s.phase.inbound) else [];
    var returned := if s.turn == Other(p) && s.phase.Delivering? then Append([], s.phase.outbound) else [];
    held + s.queues.Get(p) + returned
  }

  /** The messages on their way to `p`, oldest first: in the inbound queue of its session, in transit, and in
      the outbound slot of the other session. */
  function Pipeline(s: System, p: Participant): seq<Bytes> {
    s.workers.Get(p).session.inbound + Transit(s, p) + Slot(s.workers.Get(Other(p)))
  }

  /** Messages sent are messages heard and messages on their way, in order. */
  predicate ConservedTo(s: System, p: Participant) {
    s.workers.Get(Other(p)).sent == s.workers.Get(p).heard + Pipeline(s, p)
  }

  predicate Conserved(s: System) {
    ConservedTo(s, First) && ConservedTo(s, Second)
  }

  /** The driver is about to pass an empty payload through the binding, on the way to `p`. */
  predicate DropsFor(s: System, p: Participant) {
    || (s.phase == Receiving && s.turn == p && s.queues.Get(p) != [] && s.queues.Get(p)[0] == [])
    || (s.phase.Delivering? && s.turn == Other(p) && s.phase.outbound == Some([]))
  }

  /** The worker is about to send onto a message that nobody has collected. */
  predicate Overwrites(w: Worker) {
    w.pc == Active && w.pos < |w.script| && w.script[w.pos].Say? && w.session.outbound.Some?
  }

  /** A step that loses a message: a send onto a message that nobody has collected, or an empty payload
      that passes through the binding. */
  predicate Loses(s: System, step: Step)
    requires Sound(s) && Enabled(s, step)
  {
    match step
    case WorkerMoves(p) => Overwrites(s.workers.Get(p))
    case DriverMoves => DropsFor(s, First) || DropsFor(s, Second)
  }

  function MissingTo(s: System, p: Participant): int {
    |s.workers.Get(Other(p)).sent| - |s.workers.Get(p).heard| - |Pipeline(s, p)|
  }

  function Missing(s: System): int {
    MissingTo(s, First) + MissingTo(s, Second)
  }

  lemma MoveReceives(w: Worker)
    requires Sane(w) && CanMove(w)
    ensures Move(w).heard + Move(w).session.inbound == w.heard + w.session.inbound
  {
  }

  lemma MoveSends(w: Worker)
    requires Sane(w) && CanMove(w)
    ensures var lost := Overwrites(w);
      && |Move(w).sent| - |Slot(Move(w))| == |w.sent| - |Slot(w)| + (if lost then 1 else 0)
      && (!lost ==> exists d :: Move(w).sent == w.sent + d && Slot(Move(w)) == Slot(w) + d)
  {
    var d: seq<Bytes> :=
      if w.pc == Active && w.pos < |w.script| && w.script[w.pos].Say? then [w.script[w.pos].msg] else [];
    assert Move(w).sent == w.sent + d;
    if w.session.outbound.None? {
      assert Slot(Move(w)) == Slot(w) + d;
    } else if d == [] {
      assert Slot(Move(w)) == Slot(w) + d;
    }
  }

  lemma Regroup(heard: seq<Bytes>, inbound: seq<Bytes>, transit: seq<Bytes>, slot: seq<Bytes>, d: seq<Bytes>)
    ensures heard + (inbound + transit + slot) == (heard + inbound) + transit + slot
    ensures heard + (inbound + transit + (slot + d)) == heard + (inbound + transit + slot) + d
  {
  }

  lemma WorkerMoveLeaves(s: System, p: Participant, cap: nat)
    requires Sound(s) && Enabled(s, WorkerMoves(p))
    ensures var next := Next(s, WorkerMoves(p), cap);
      && next.workers.Get(p) == Move(s.workers.Get(p)) && next.workers.Get(Other(p)) == s.workers.Get(Other(p))
      && Transit(next, p) == Transit(s, p) && Transit(next, Other(p)) == Transit(s, Other(p))
  {
    hide Move, CanMove, Sane;
  }

  lemma MoveConservesAsReceiver(s: System, p: Participant, cap: nat)
    requires Sound(s) && Enabled(s, WorkerMoves(p))
    ensures var next := Next(s, WorkerMoves(p), cap);
      (ConservedTo(s, p) ==> ConservedTo(next, p)) && MissingTo(next, p) == MissingTo(s, p)
  {
    var mine, other := s.workers.Get(p), s.workers.Get(Other(p));
    MoveReceives(mine);
    WorkerMoveLeaves(s, p, cap);
    hide Move, CanMove, Sane, Slot, Transit, Next, Enabled;
    Regroup(mine.heard, mine.session.inbound, Transit(s, p), Slot(other), []);
    Regroup(Move(mine).heard, Move(mine).session.inbound, Transit(s, p), Slot(other), []);
    assert |mine.heard + mine.session.inbound| == |Move(mine).heard + Move(mine).session.inbound|;
  }

  lemma MoveConservesAsSender(s: System, p: Participant, cap: nat)
    requires Sound(s) && Enabled(s, WorkerMoves(p))
    ensures var next, lost, o := Next(s, WorkerMoves(p), cap), Overwrites(s.workers.Get(p)), Other(p);
      && (ConservedTo(s, o) && !lost ==> ConservedTo(next, o))
      && MissingTo(next, o) == MissingTo(s, o) + (if lost then 1 else 0)
  {
    var mine, other := s.workers.Get(p), s.workers.Get(Other(p));
    MoveSends(mine);
    WorkerMoveLeaves(s, p, cap);
    hide Move, CanMove, Sane, Slot, Transit, Next, Enabled, Overwrites;
    if !Overwrites(mine) {
      var d :| Move(mine).sent == mine.sent + d && Slot(Move(mine)) == Slot(mine) + d;
      Regroup(other.heard, other.session.inbound, Transit(s, Other(p)), Slot(mine), d);
    }
  }

  lemma WorkerMoveConserves(s: System, p: Participant, cap: nat)
    requires Sound(s) && Enabled(s, WorkerMoves(p))
    ensures var next := Next(s, WorkerMoves(p), cap);
      && (Conserved(s) && !Loses(s, WorkerMoves(p)) ==> Conserved(next))
      && Missing(next) == Missing(s) + (if Loses(s, WorkerMoves(p)) then 1 else 0)
  {
    MoveConservesAsReceiver(s, p, cap);
    MoveConservesAsSender(s, p, cap);
    hide Next, Enabled, Sound, ConservedTo, MissingTo, Overwrites;
  }

  lemma ReceiveKeepsPipeline(s: System, p: Participant, cap: nat)
    requires Sound(s) && s.phase == Receiving
    ensures var next := Next(s, DriverMoves, cap);
      if DropsFor(s, p) then |Pipeline(next, p)| == |Pipeline(s, p)| - 1
      else Pipeline(next, p) == Pipeline(s, p)
  {
    var queue := s.queues.Get(s.turn);
    if queue != [] {
      assert queue == [queue[0]] + queue[1..];
    }
    hide Slot;
    var next := Next(s, DriverMoves, cap);
    if DropsFor(s, p) {
      assert |Transit(next, p)| == |Transit(s, p)| - 1;
    } else {
      assert Transit(next, p) == Transit(s, p);
    }
  }

  lemma PushKeepsPipeline(s: System, p: Participant, cap: nat)
    requires Sound(s) && (s.phase.Snapping? || s.phase.Pushing?)
    ensures Pipeline(Next(s, DriverMoves, cap), p) == Pipeline(s, p)
  {
    hide Sane, CanMove;
    var next := Next(s, DriverMoves, cap);
    if s.phase.Pushing? && s.turn == p {
      PushMovesHeld(s, p, cap);
      hide Transit, Slot, Next;
      Rejoin(s.workers.Get(p).session.inbound, Append([], s.phase.inbound), Transit(next, p),
             Slot(s.workers.Get(Other(p))));
    } else {
      assert Transit(next, p) == Transit(s, p);
    }
  }

  lemma PushMovesHeld(s: System, p: Participant, cap: nat)
    requires Sound(s) && s.phase.Pushing? && s.turn == p
    ensures var next, held := Next(s, DriverMoves, cap), Append([], s.phase.inbound);
      && next.workers.Get(p).session.inbound == s.workers.Get(p).session.inbound + held
      && Transit(s, p) == held + Transit(next, p)
      && next.workers.Get(Other(p)) == s.workers.Get(Other(p))
  {
    hide Sane;
  }

  lemma Rejoin(inbound: seq<Bytes>, held: seq<Bytes>, transit: seq<Bytes>, slot: seq<Bytes>)
    ensures inbound + held + transit + slot == inbound + (held + transit) + slot
  {
  }

  lemma LookKeepsPipeline(s: System, p: Participant, cap: nat)
    requires Sound(s) && s.phase.Looking? && Enabled(s, DriverMoves)
    ensures Pipeline(Next(s, DriverMoves, cap), p) == Pipeline(s, p)
  {
    hide Sane;
    var next := Next(s, DriverMoves, cap);
    var w := s.workers.Get(s.turn);
    if s.turn == Other(p) && w.session.fatal.None? {
      assert Transit(next, p) == Transit(s, p) + Slot(w);
    } else {
      assert Transit(next, p) == Transit(s, p);
    }
  }

  lemma DeliveryKeepsPipeline(s: System, p: Participant, cap: nat)
    requires Sound(s) && s.phase.Delivering?
    ensures var next := Next(s, DriverMoves, cap);
      if DropsFor(s, p) then |Pipeline(next, p)| == |Pipeline(s, p)| - 1
      else Pipeline(next, p) == Pipeline(s, p)
  {
    hide Slot, Sane;
    var next := Next(s, DriverMoves, cap);
    if DropsFor(s, p) {
      assert |Transit(next, p)| == |Transit(s, p)| - 1;
    } else {
      assert Transit(next, p) == Transit(s, p);
    }
  }

  lemma DriverKeepsHistory(s: System, p: Participant, cap: nat)
    requires Sound(s) && Enabled(s, DriverMoves)
    ensures var next := Next(s, DriverMoves, cap);
      next.workers.Get(p).heard == s.workers.Get(p).heard && next.workers.Get(p).sent == s.workers.Get(p).sent
  {
  }

  /** A driver step moves messages along the pipelines and leaves what the workers have sent and heard. */
  lemma DriverMoveKeepsPipeline(s: System, p: Participant, cap: nat)
    requires Sound(s) && Enabled(s, DriverMoves)
    ensures var next := Next(s, DriverMoves, cap);
      && next.workers.Get(p).heard == s.workers.Get(p).heard
      && next.workers.Get(p).sent == s.workers.Get(p).sent
      && (if DropsFor(s, p) then |Pipeline(next, p)| == |Pipeline(s, p)| - 1
          else Pipeline(next, p) == Pipeline(s, p))
  {
    DriverKeepsHistory(s, p, cap);
    hide Next, Pipeline;
    match s.phase {
      case Receiving => ReceiveKeepsPipeline(s, p, cap);
      case Snapping(_) => PushKeepsPipeline(s, p, cap);
      case Pushing(_, _) => PushKeepsPipeline(s, p, cap);
      case Looking(_) => LookKeepsPipeline(s, p, cap);
      case Delivering(_, _) => DeliveryKeepsPipeline(s, p, cap);
    }
  }

  lemma OneDropAtMost(s: System)
    ensures !(DropsFor(s, First) && DropsFor(s, Second))
  {
  }

  lemma DriverMoveConserves(s: System, cap: nat)
    requires Sound(s) && Enabled(s, DriverMoves)
    ensures var next := Next(s, DriverMoves, cap);
      && (Conserved(s) && !Loses(s, DriverMoves) ==> Conserved(next))
      && Missing(next) == Missing(s) + (if Loses(s, DriverMoves) then 1 else 0)
  {
    hide Next, Pipeline, DropsFor;
    assert !(DropsFor(s, First) && DropsFor(s, Second)) by {
      OneDropAtMost(s);
    }
    DriverMoveKeepsPipeline(s, First, cap);
    DriverMoveKeepsPipeline(s, Second, cap);
  }

  /** How many steps of a run lose a message. */
  function Losses(s: System, steps: seq<Step>, cap: nat): nat
    requires Sound(s) && Run(s, steps, cap).Some?
    decreases |steps|
  {
    if steps == [] then 0
    else
      NextKeepsSound(s, steps[0], cap);
      (if Loses(s, steps[0]) then 1 else 0) + Losses(Next(s, steps[0], cap), steps[1..], cap)
  }

  lemma {:induction false} OneMoreLoss(s: System, steps: seq<Step>, cap: nat, end: System, step: Step)
    requires Sound(s) && Run(s, steps, cap) == Some(end) && Sound(end) && Enabled(end, step)
    ensures Run(s, steps + [step], cap).Some?
    ensures Losses(s, steps + [step], cap) == Losses(s, steps, cap) + (if Loses(end, step) then 1 else 0)
    decreases |steps|
  {
    hide Next, Enabled, Loses;
    if steps == [] {
      NextKeepsSound(s, step, cap);
      assert [step][1..] == [];
      assert [] + [step] == [step];
    } else {
      NextKeepsSound(s, steps[0], cap);
      OneMoreLoss(Next(s, steps[0], cap), steps[1..], cap, end, step);
      assert (steps + [step])[1..] == steps[1..] + [step];
    }
  }

  /** For any two scripts and any interleaving: no message has gone missing if and only if no step of the run
      has overwritten an uncollected message or dropped an empty one. */
  lemma {:induction false} ConservedIffNothingLost(s: System, steps: seq<Step>, cap: nat)
    requires Sound(s) && Conserved(s) && Run(s, steps, cap).Some?
    ensures Conserved(Run(s, steps, cap).value) <==> Losses(s, steps, cap) == 0
  {
    RunCountsLosses(s, steps, cap);
    if Losses(s, steps, cap) == 0 {
      LosslessRunConserves(s, steps, cap);
    }
  }

  lemma {:induction false} RunCountsLosses(s: System, steps: seq<Step>, cap: nat)
    requires Sound(s) && Run(s, steps, cap).Some?
    ensures Missing(Run(s, steps, cap).value) == Missing(s) + Losses(s, steps, cap)
    decreases |steps|
  {
    hide Missing, Next, Loses;
    if steps != [] {
      NextKeepsSound(s, steps[0], cap);
      match steps[0] {
        case WorkerMoves(p) => WorkerMoveConserves(s, p, cap);
        case DriverMoves => DriverMoveConserves(s, cap);
      }
      RunCountsLosses(Next(s, steps[0], cap), steps[1..], cap);
    }
  }

  lemma {:induction false} LosslessRunConserves(s: System, steps: seq<Step>, cap: nat)
    requires Sound(s) && Conserved(s) && Run(s, steps, cap).Some? && Losses(s, steps, cap) == 0
    ensures Conserved(Run(s, steps, cap).value)
    decreases |steps|
  {
    hide Missing, Next, Loses, Conserved;
    if steps != [] {
      NextKeepsSound(s, steps[0], cap);
      match steps[0] {
        case WorkerMoves(p) => WorkerMoveConserves(s, p, cap);
        case DriverMoves => DriverMoveConserves(s, cap);
      }
      LosslessRunConserves(Next(s, steps[0], cap), steps[1..], cap);
    }
  }

  // ---- Every run is short ----

  /** Phases left in a half of an iteration. */
  function PhaseRank(phase: Phase): nat {
    match phase
    case Receiving => 5
    case Snapping(_) => 4
    case Pushing(_, _) => 3
    case Looking(_) => 2
    case Delivering(_, _) => 1
    case Exited => 0
    case Thrown(_) => 0
  }

  /** Halves of iterations left, not counting the current one. */
  function HalvesLeft(s: System, cap: nat): int {
    2 * (cap - s.i) - (if s.turn == First then 1 else 2)
  }

  function Measure(s: System, cap: nat): int
    requires Sound(s)
  {
    Rank(s.workers.first) + Rank(s.workers.second) + DriverMeasure(s, cap)
  }

  function DriverMeasure(s: System, cap: nat): int {
    if s.phase.Exited? || s.phase.Thrown? then 0 else 5 * HalvesLeft(s, cap) + PhaseRank(s.phase)
  }

  predicate WithinCap(s: System, cap: nat) {
    s.phase.Exited? || s.phase.Thrown? || s.i < cap
  }

  lemma DriverDecreasesMeasure(s: System, cap: nat)
    requires Enabled(s, DriverMoves) && WithinCap(s, cap)
    ensures WithinCap(DriverNext(s, cap), cap)
    ensures 0 <= DriverMeasure(DriverNext(s, cap), cap) < DriverMeasure(s, cap)
  {
  }

  lemma DriverKeepsRanks(s: System, cap: nat, p: Participant)
    requires Sound(s) && Enabled(s, DriverMoves)
    ensures var w, next := s.workers.Get(p), DriverNext(s, cap).workers.Get(p);
      next.pos <= |next.script| && Rank(next) == Rank(w)
  {
  }

  lemma NextDecreasesMeasure(s: System, step: Step, cap: nat)
    requires Sound(s) && Enabled(s, step) && WithinCap(s, cap)
    ensures Sound(Next(s, step, cap)) && WithinCap(Next(s, step, cap), cap)
    ensures 0 <= Measure(Next(s, step, cap), cap) < Measure(s, cap)
  {
    NextKeepsSound(s, step, cap);
    match step {
      case WorkerMoves(p) =>
        MoveKeepsSane(s.workers.Get(p));
        hide Move, Sane, CanMove, Rank;
      case DriverMoves =>
        DriverDecreasesMeasure(s, cap);
        DriverKeepsRanks(s, cap, First);
        DriverKeepsRanks(s, cap, Second);
        hide DriverNext, DriverMeasure, Rank;
    }
  }

  lemma {:induction false} RunLength(s: System, steps: seq<Step>, cap: nat)
    requires Sound(s) && WithinCap(s, cap) && Run(s, steps, cap).Some? && Measure(s, cap) >= 0
    ensures |steps| <= Measure(s, cap) && WithinCap(Run(s, steps, cap).value, cap)
    decreases |steps|
  {
    hide Measure, Next;
    if steps != [] {
      NextDecreasesMeasure(s, steps[0], cap);
      RunLength(Next(s, steps[0], cap), steps[1..], cap);
    }
  }

  /** Whatever the scripts and the interleaving are, a run is at most this long: it ends, or it hangs. */
  lemma EveryRunIsBounded(c: Config, steps: seq<Step>)
    requires Run(Init(c), steps, c.cap).Some?
    ensures |steps| <= 10 * c.cap + 2 * |c.scripts.first| + 2 * |c.scripts.second| + 4
  {
    RunLength(Init(c), steps, c.cap);
  }

  // ---- What the loop's own variables say ----

  /** A flag is up, or about to be, only for a participant whose worker has ended without failure. */
  predicate FlagTells(s: System, p: Participant) {
    s.flags.Get(p) || (s.phase.Delivering? && s.phase.done && s.turn == p) ==>
      s.workers.Get(p).pc == Over && s.workers.Get(p).session.fatal.None?
  }

  /** Within an iteration the cap is not reached, and the participant being stepped is not done. After the loop
      the cap is reached, or both are done. */
  predicate LoopTells(s: System, cap: nat) {
    match s.phase
    case Exited => s.i <= cap && (s.i == cap || (s.flags.first && s.flags.second))
    case Thrown(_) => s.i < cap
    case _ => s.i < cap && !s.flags.Get(s.turn)
  }

  lemma DriverKeepsLoop(s: System, cap: nat)
    requires Sound(s) && Enabled(s, DriverMoves) && LoopTells(s, cap)
    ensures LoopTells(DriverNext(s, cap), cap)
  {
  }

  lemma DriverKeepsFlag(s: System, p: Participant, cap: nat)
    requires Sound(s) && Enabled(s, DriverMoves) && FlagTells(s, p)
    ensures FlagTells(DriverNext(s, cap), p)
  {
    hide Append, Present;
  }

  lemma WorkerKeepsFlag(s: System, mover: Participant, p: Participant, cap: nat)
    requires Sound(s) && Enabled(s, WorkerMoves(mover)) && FlagTells(s, p)
    ensures FlagTells(Next(s, WorkerMoves(mover), cap), p)
  {
    hide Move, Sane;
  }

  lemma {:induction false} RunKeepsLoop(s: System, steps: seq<Step>, cap: nat, p: Participant)
    requires Sound(s) && LoopTells(s, cap) && FlagTells(s, p) && Run(s, steps, cap).Some?
    ensures LoopTells(Run(s, steps, cap).value, cap) && FlagTells(Run(s, steps, cap).value, p)
    decreases |steps|
  {
    if steps != [] {
      NextKeepsSound(s, steps[0], cap);
      match steps[0] {
        case WorkerMoves(mover) => WorkerKeepsFlag(s, mover, p, cap);
        case DriverMoves =>
          DriverKeepsLoop(s, cap);
          DriverKeepsFlag(s, p, cap);
      }
      hide FlagTells, DriverNext, Enabled, Sound;
      RunKeepsLoop(Next(s, steps[0], cap), steps[1..], cap, p);
    }
  }

  /** For any two scripts and any interleaving: only a participant that is not done is stepped, only within the
      cap; the loop is left as soon as both are done and not before, unless at the cap; and the flag of a
      participant never goes up unless its worker has ended well. */
  lemma LoopGuards(c: Config, steps: seq<Step>, p: Participant)
    requires Run(Init(c), steps, c.cap).Some?
    ensures var s := Run(Init(c), steps, c.cap).value;
      && (s.phase.Exited? ==> s.i <= c.cap && (s.i == c.cap || (s.flags.first && s.flags.second)))
      && (!s.phase.Exited? ==> s.i < c.cap)
      && (!s.phase.Exited? && !s.phase.Thrown? ==> !s.flags.Get(s.turn))
      && (s.flags.Get(p) ==> s.workers.Get(p).pc == Over && s.workers.Get(p).session.fatal.None?)
  {
    RunKeepsLoop(Init(c), steps, c.cap, p);
    hide Run;
  }
}
