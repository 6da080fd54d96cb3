/** The dual loop of packages/coordinator-node/src/session/dkg.ts and sign.ts as a program over two session
    objects and a transport, each worker running on until it settles before its session is looked at. Every
    execution is a run of the transition system in TwoParty. */
module DualLoops {
  import opened Common
  import opened Rendezvous
  import opened Workers
  import opened TwoParty
  import opened Alternating
  import opened Progress
  import opened Transports
  import opened AsyncSessions

  function RunOn(w: Worker): (r: Worker)
    requires Sane(w)
    ensures Sane(r) && Settled(r)
    decreases Rank(w)
  {
    if Settled(w) then w
    else
      MoveKeepsSane(w);
      RunOn(Move(w))
  }

  lemma RunOnOnce(w: Worker)
    requires Sane(w) && !Settled(w)
    ensures CanMove(w) && Sane(Move(w)) && Rank(Move(w)) < Rank(w) && RunOn(Move(w)) == RunOn(w)
  {
    MoveKeepsSane(w);
  }

  lemma RunOnSettled(w: Worker)
    requires Sane(w) && Settled(w)
    ensures RunOn(w) == w
  {
  }

  function Pushed(w: Worker, inbound: Option<Bytes>): Worker {
    if inbound.Some? then w.(session := Push(w.session, inbound.value)) else w
  }

  /** AwaitStep: the session after a Step, and what the Step answers; Wait stands for a Step that never
      returns. */
  function StepOf(w: Worker, inbound: Option<Bytes>): (r: (Worker, Look))
    requires Sane(w)
    ensures Sane(r.0)
  {
    var settled := RunOn(Pushed(w, inbound));
    (settled.(session := Inspected(settled.session)), Inspect(settled.session, w.session.waitId))
  }

  /** A session object together with the worker thread that runs a protocol on it. */
  class Handle {
    const session: AsyncSession
    const script: seq<Op>
    const outcome: Option<ErrorCode>
    var pos: nat
    var pc: Pc
    var sent: seq<Bytes>
    var heard: seq<Bytes>
    var ready: bool

    function State(): Worker
      reads this, session
    {
      Worker(script, outcome, pos, pc, session.State(), sent, heard, ready)
    }

    constructor (script: seq<Op>, outcome: Option<ErrorCode>)
      ensures State() == Start(script, outcome) && fresh(session)
    {
      this.script, this.outcome := script, outcome;
      session := new AsyncSession();
      pos, pc, sent, heard, ready := 0, Active, [], [], false;
    }

    /** The next lock-held region of the worker thread. */
    method MoveWorker()
      requires Sane(State()) && CanMove(State())
      modifies this, session
      ensures State() == Move(old(State()))
    {
      match pc {
        case Active =>
          if pos == |script| {
            if outcome.Some? {
              session.Fail(outcome.value);
            } else {
              ready := true;
            }
            pc := Ending;
          } else if script[pos].Say? {
            session.OnSend(script[pos].msg);
            sent := sent + [script[pos].msg];
            pos := pos + 1;
          } else {
            session.EnterReceive();
            pc := Parked;
          }
        case Parked =>
          // Not refused: only this worker's own failure would set the flags, and it has not failed.
          var msg := session.LeaveReceive();
          heard := heard + [msg.value];
          pos := pos + 1;
          pc := Active;
        case Ending =>
          session.Exit();
          pc := Over;
      }
    }

    /** AwaitStep, with the worker running on until it settles while the caller waits. */
    method Step(inbound: Option<Bytes>) returns (look: Look)
      requires Sane(State())
      modifies this, session
      ensures Sane(State()) && (State(), look) == StepOf(old(State()), inbound)
    {
      hide RunOn, Move;
      var snapshot := session.waitRequestId;
      session.PushInbound(inbound);
      assert State() == Pushed(old(State()), inbound);
      while !Settled(State())
        invariant Sane(State()) && RunOn(State()) == RunOn(Pushed(old(State()), inbound))
        decreases if Sane(State()) then Rank(State()) else 0
      {
        RunOnOnce(State());
        MoveWorker();
      }
      RunOnSettled(State());
      look := session.Inspect(snapshot);
    }
  }

  // ---- One half of an iteration, as a run ----

  lemma {:induction false} SettlingRuns(from: System, before: seq<Step>, s: System, p: Participant, cap: nat)
    returns (steps: seq<Step>, next: System)
    requires Leads(from, before, s, cap)
    ensures Leads(from, steps, next, cap) && next == s.(workers := s.workers.Put(p, RunOn(s.workers.Get(p))))
    decreases Rank(s.workers.Get(p))
  {
    hide Leads, Next;
    assert Sound(s) by {
      LeadsIsSound(from, before, s, cap);
    }
    var w := s.workers.Get(p);
    if Settled(w) {
      steps, next := before, s;
      assert s.workers == s.workers.Put(p, w);
    } else {
      MoveKeepsSane(w);
      steps, next := Extend(from, before, s, WorkerMoves(p), cap);
      assert next == s.(workers := s.workers.Put(p, Move(w))) by {
        WorkerNext(s, p, cap);
      }
      steps, next := SettlingRuns(from, steps, next, p, cap);
    }
  }

  /** Receive, step, send: the worker, the queues and the answer after half an iteration for `p`. */
  function Half(w: Worker, queues: Pair<seq<Bytes>>, p: Participant): (r: (Worker, Pair<seq<Bytes>>, Look))
    requires Sane(w)
    ensures Sane(r.0)
  {
    var queue := queues.Get(p);
    var inbound := if queue == [] then None else Present(Some(queue[0]));
    var rest := if queue == [] then queues else queues.Put(p, queue[1..]);
    var (stepped, look) := StepOf(w, inbound);
    var outbound := if look.Return? then look.outbound else None;
    (stepped, rest.Put(Other(p), Append(rest.Get(Other(p)), Present(outbound))), look)
  }

  /** The state of the transition system after half an iteration that answers with `look`. */
  ghost predicate AfterHalf(s: System, next: System, cap: nat)
    requires Sound(s)
  {
    var p := s.turn;
    var (w, queues, look) := Half(s.workers.Get(p), s.queues, p);
    match look
    case Return(_, done) =>
      next == Proceed(s.(workers := s.workers.Put(p, w), queues := queues, collected := next.collected,
                         flags := s.flags.Put(p, done)), cap)
    case Throw(code) => next.workers == s.workers.Put(p, w) && next.phase == Thrown(code)
    case Wait => next.workers == s.workers.Put(p, w) && next.turn == p && StuckStep(next)
  }

  /** A Step in progress that no longer has anything to wait for: its own worker cannot move either. */
  predicate StuckStep(s: System) {
    s.phase.Looking? && !Enabled(s, DriverMoves) && !Enabled(s, WorkerMoves(s.turn))
  }

  lemma UpToLook(from: System, before: seq<Step>, s: System, cap: nat) returns (steps: seq<Step>, next: System)
    requires Leads(from, before, s, cap) && s.phase == Receiving
    ensures var p, queue := s.turn, s.queues.Get(s.turn);
      var inbound := if queue == [] then None else Present(Some(queue[0]));
      && Leads(from, steps, next, cap)
      && next == s.(workers := s.workers.Put(p, Pushed(s.workers.Get(p), inbound)),
                    queues := if queue == [] then s.queues else s.queues.Put(p, queue[1..]),
                    phase := Looking(s.workers.Get(p).session.waitId))
  {
    hide Leads;
    LeadsIsSound(from, before, s, cap);
    steps, next := Extend(from, before, s, DriverMoves, cap);
    LeadsIsSound(from, steps, next, cap);
    steps, next := Extend(from, steps, next, DriverMoves, cap);
    LeadsIsSound(from, steps, next, cap);
    steps, next := Extend(from, steps, next, DriverMoves, cap);
  }

  /** The state after a look by the driver has been dealt with. */
  ghost predicate AfterLook(s: System, snapshot: nat, next: System, cap: nat) {
    var p, w := s.turn, s.workers.Get(s.turn);
    var after := s.workers.Put(p, w.(session := Inspected(w.session)));
    match Inspect(w.session, snapshot)
    case Return(outbound, done) =>
      next == Proceed(s.(workers := after,
                         queues := s.queues.Put(Other(p), Append(s.queues.Get(Other(p)), Present(outbound))),
                         collected := next.collected, flags := s.flags.Put(p, done)), cap)
    case Throw(code) => next.workers == after && next.phase == Thrown(code)
    case Wait => next.workers == after && next.turn == p && StuckStep(next)
  }

  lemma FromLook(from: System, before: seq<Step>, s: System, snapshot: nat, cap: nat)
    returns (steps: seq<Step>, next: System)
    requires Leads(from, before, s, cap) && s.phase == Looking(snapshot) && Settled(s.workers.Get(s.turn))
    ensures Leads(from, steps, next, cap) && AfterLook(s, snapshot, next, cap)
  {
    hide Leads;
    LeadsIsSound(from, before, s, cap);
    var w := s.workers.Get(s.turn);
    match Inspect(w.session, snapshot) {
      case Wait =>
        steps, next := before, s;
        assert w.(session := Inspected(w.session)) == w;
      case Throw(_) =>
        steps, next := Extend(from, before, s, DriverMoves, cap);
        assert w.(session := Inspected(w.session)) == w;
      case Return(outbound, done) =>
        steps, next := Extend(from, before, s, DriverMoves, cap);
        LeadsIsSound(from, steps, next, cap);
        assert next.phase == Delivering(outbound, done);
        steps, next := Extend(from, steps, next, DriverMoves, cap);
    }
  }

  /** Receive, push, settle and look are the half of an iteration that the program performs. */
  lemma LookEndsHalf(s: System, settled: System, next: System, cap: nat)
    requires Sound(s)
    requires var p, queue := s.turn, s.queues.Get(s.turn);
      var inbound := if queue == [] then None else Present(Some(queue[0]));
      settled == s.(workers := s.workers.Put(p, RunOn(Pushed(s.workers.Get(p), inbound))),
                    queues := if queue == [] then s.queues else s.queues.Put(p, queue[1..]),
                    phase := Looking(s.workers.Get(p).session.waitId))
    requires AfterLook(settled, s.workers.Get(s.turn).session.waitId, next, cap)
    ensures AfterHalf(s, next, cap)
  {
    hide RunOn, Pushed, Inspect, Inspected, Append, Present, StuckStep, Sane;
  }

  lemma HalfRuns(from: System, before: seq<Step>, s: System, cap: nat) returns (steps: seq<Step>, next: System)
    requires Leads(from, before, s, cap) && s.phase == Receiving && Sound(s)
    ensures Leads(from, steps, next, cap) && AfterHalf(s, next, cap)
  {
    hide Leads, RunOn, Pushed, Present, AfterLook, AfterHalf;
    var settled;
    steps, settled := UpToLook(from, before, s, cap);
    LeadsIsSound(from, steps, settled, cap);
    steps, settled := SettlingRuns(from, steps, settled, s.turn, cap);
    steps, next := FromLook(from, steps, settled, s.workers.Get(s.turn).session.waitId, cap);
    LookEndsHalf(s, settled, next, cap);
  }

  // ---- The program ----

  /** One call of `step` in dkg.ts, or one branch of the loop body in sign.ts, with the receive before it. */
  method StepParticipant(p: Participant, handle: Handle, transport: InMemoryTransport) returns (look: Look)
    requires Sane(handle.State())
    modifies handle, handle.session, transport
    ensures Sane(handle.State())
    ensures (handle.State(), transport.queues, look) == Half(old(handle.State()), old(transport.queues), p)
  {
    hide StepOf, Sane;
    var payload := transport.Receive(p);
    look := handle.Step(Present(payload));
    if look.Return? && Present(look.outbound).Some? {
      transport.Send(Other(p), look.outbound.value);
    }
  }

  /** How the loop ends: normally, with a Step's error, or not at all because a Step never returns. */
  datatype LoopResult = Ended(flags: Pair<bool>, iterations: nat) | Threw(code: ErrorCode) | Hangs

  ghost predicate Shows(result: LoopResult, end: System) {
    match result
    case Ended(flags, iterations) => end.phase == Exited && end.flags == flags && end.i == iterations
    case Threw(code) => end.phase == Thrown(code)
    case Hangs => StuckStep(end)
  }

  function ConfigOf(first: Worker, second: Worker, cap: nat): Config {
    Config(Pair(first.script, second.script), Pair(first.outcome, second.outcome), cap)
  }

  /** Where the loop is after half an iteration that returned: at the other half, or at the loop's head. */
  ghost predicate GoesOn(s: System, next: System, done: bool, cap: nat) {
    && next.flags == s.flags.Put(s.turn, done)
    && (if s.turn == First && !s.flags.second then next.turn == Second && next.phase == Receiving && next.i == s.i
        else next == Head(next, s.i + 1, cap))
  }

  /** Half an iteration of the program, with the run that it is. */
  method HalfIteration(handle: Handle, transport: InMemoryTransport,
                       ghost from: System, ghost before: seq<Step>, ghost s: System, ghost cap: nat, p: Participant)
    returns (look: Look, ghost steps: seq<Step>, ghost end: System)
    requires Leads(from, before, s, cap) && Sound(s) && s.phase == Receiving && s.turn == p
    requires handle.State() == s.workers.Get(p) && transport.queues == s.queues
    modifies handle, handle.session, transport
    ensures Leads(from, steps, end, cap) && Sound(end)
    ensures end.workers == s.workers.Put(p, handle.State())
    ensures match look
            case Return(_, done) => end.queues == transport.queues && GoesOn(s, end, done, cap)
            case Throw(code) => end.phase == Thrown(code)
            case Wait => StuckStep(end)
  {
    hide Leads, Half;
    assert Sane(handle.State());
    steps, end := HalfRuns(from, before, s, cap);
    LeadsIsSound(from, steps, end, cap);
    look := StepParticipant(p, handle, transport);
  }

  method DualLoop(first: Handle, second: Handle, transport: InMemoryTransport, cap: nat)
    returns (result: LoopResult, ghost steps: seq<Step>, ghost end: System)
    requires first != second && first.session != second.session && transport.queues == Pair([], [])
    requires first.State() == Start(first.script, first.outcome)
    requires second.State() == Start(second.script, second.outcome)
    modifies first, first.session, second, second.session, transport
    ensures Leads(Init(ConfigOf(old(first.State()), old(second.State()), cap)), steps, end, cap)
    ensures end.workers == Pair(first.State(), second.State()) && Shows(result, end)
  {
    ghost var from := Init(ConfigOf(first.State(), second.State(), cap));
    steps, end := [], from;
    var firstDone, secondDone, i := false, false, 0;
    StartsRun(from, cap);
    hide Leads, Sound, StuckStep, Init;
    while i < cap && !(firstDone && secondDone)
      invariant Leads(from, steps, end, cap) && Sound(end) && end == Head(end, i, cap)
      invariant end.workers == Pair(first.State(), second.State()) && end.queues == transport.queues
      invariant end.flags == Pair(firstDone, secondDone)
      decreases cap - i
    {
      if !firstDone {
        var look;
        look, steps, end := HalfIteration(first, transport, from, steps, end, cap, First);
        if look.Wait? {
          return Hangs, steps, end;
        }
        if look.Throw? {
          return Threw(look.code), steps, end;
        }
        firstDone := look.done;
      }
      if !secondDone {
        var look;
        look, steps, end := HalfIteration(second, transport, from, steps, end, cap, Second);
        if look.Wait? {
          return Hangs, steps, end;
        }
        if look.Throw? {
          return Threw(look.code), steps, end;
        }
        secondDone := look.done;
      }
      i := i + 1;
    }
    return Ended(Pair(firstDone, secondDone), i), steps, end;
  }

  lemma StartsRun(s: System, cap: nat)
    requires Sound(s)
    ensures Leads(s, [], s, cap)
  {
  }

  lemma NoStuckStep(t: Talk, s: System, cap: nat)
    requires Live(t, s, cap)
    ensures !StuckStep(s)
  {
    if StuckStep(s) {
      LookIsLive(t, s, cap);
    }
  }

  /** The program on a conversation that the first-stepped participant opens, with enough iterations, whether
      or not somebody fails: it never hangs; it throws the error of a participant that fails, and ends normally
      if nobody does. */
  lemma ProgramNeverHangs(c: Config, t: Talk, result: LoopResult, steps: seq<Step>, end: System)
    requires Dual(c, t) && EachWholeOrFails(t, Init(c)) && Iterations(|t.messages|) <= c.cap
    requires Leads(Init(c), steps, end, c.cap) && Shows(result, end)
    ensures Live(t, end, c.cap)
    ensures if c.outcomes == Pair(None, None) then result.Ended?
            else result.Threw? && c.outcomes.Get(end.turn) == Some(result.code)
  {
    InitIsLive(c, t);
    EagerRunIsLive(t, Init(c), steps, c.cap);
    RunKeepsOutcomes(Init(c), steps, c.cap, First);
    RunKeepsOutcomes(Init(c), steps, c.cap, Second);
    hide Run, EagerRun;
    NoStuckStep(t, end, c.cap);
    EndShowsOutcome(t, end, c.cap);
  }

  /** On a whole conversation both flags are up when the program has ended, each side has heard everything the
      other has said, and Finalize finds both results ready. */
  lemma ProgramEndsWell(c: Config, t: Talk, result: LoopResult, steps: seq<Step>, end: System, p: Participant)
    requires Dual(c, t) && WholeTalk(t, Init(c)) && Iterations(|t.messages|) <= c.cap
    requires Leads(Init(c), steps, end, c.cap) && Shows(result, end)
    ensures result.Ended? && result.flags == Pair(true, true) && result.iterations <= Iterations(|t.messages|)
    ensures Ensure(end.workers.Get(p).session) == Return(None, true) && end.workers.Get(p).ready
    ensures end.workers.Get(p).heard == end.workers.Get(Other(p)).sent == Said(t, Other(p), |t.messages|)
  {
    ProgramNeverHangs(c, t, result, steps, end);
    ExitedIsComplete(t, end, c.cap, p);
    ExitedIsComplete(t, end, c.cap, Other(p));
  }
}
