/** The worker thread of a session. The protocol it runs is represented by a script: what it sends and where
    it receives, in order, and how it ends. Every run of a protocol has such a script. */
module Workers {
  import opened Common
  import opened Rendezvous

  datatype Op = Say(msg: Bytes) | Hear

  /** Running, inside the wait of OnReceive, after the protocol and before the thread's end, ended. */
  datatype Pc = Active | Parked | Ending | Over

  datatype Worker = Worker(
    script: seq<Op>,
    outcome: Option<ErrorCode>,
    pos: nat,
    pc: Pc,
    session: Session,
    sent: seq<Bytes>,
    heard: seq<Bytes>,
    ready: bool)

  function Start(script: seq<Op>, outcome: Option<ErrorCode>): Worker {
    Worker(script, outcome, 0, Active, NEW_SESSION, [], [], false)
  }

  /** How the worker's place in the code shows in the session. */
  predicate Sane(w: Worker) {
    && w.pos <= |w.script|
    && (w.pc == Parked ==> w.pos < |w.script| && w.script[w.pos].Hear?)
    && (w.session.waiting <==> w.pc == Parked)
    && (w.session.done <==> w.pc == Over)
    && (w.session.aborted <==> w.session.fatal.Some?)
    && (w.pc == Active || w.pc == Parked ==> w.session.fatal.None? && !w.ready)
    && (w.pc == Ending || w.pc == Over ==> w.pos == |w.script| && w.session.fatal == w.outcome)
    && (w.ready <==> w.pc != Active && w.pc != Parked && w.outcome.None?)
  }

  /** Whether the worker can move; it cannot while it waits for a message, or once it has ended. */
  predicate CanMove(w: Worker) {
    match w.pc
    case Active => true
    case Parked => MayReceive(w.session)
    case Ending => true
    case Over => false
  }

  /** The next lock-held region of the worker. */
  function Move(w: Worker): Worker
    requires Sane(w) && CanMove(w)
  {
    match w.pc
    case Active =>
      if w.pos == |w.script| then
        match w.outcome
        case Some(code) => w.(session := Fail(w.session, code), pc := Ending)
        case None => w.(ready := true, pc := Ending)
      else if w.script[w.pos].Say? then
        var msg := w.script[w.pos].msg;
        w.(session := OnSend(w.session, msg), sent := w.sent + [msg], pos := w.pos + 1)
      else
        w.(session := EnterReceive(w.session), pc := Parked)
    case Parked =>
      if Received(w.session).Ok? then
        w.(session := LeaveReceive(w.session), heard := w.heard + [Received(w.session).value],
           pos := w.pos + 1, pc := Active)
      else
        w.(session := Fail(w.session, General), pc := Ending)
    case Ending => w.(session := Exit(w.session), pc := Over)
  }

  /** Moves left at most: one to send, two to receive, two to end. */
  function Rank(w: Worker): nat
    requires w.pos <= |w.script|
  {
    match w.pc
    case Active => 2 * (|w.script| - w.pos) + 2
    case Parked => 2 * (|w.script| - w.pos) + 1
    case Ending => 1
    case Over => 0
  }

  lemma MoveKeepsSane(w: Worker)
    requires Sane(w) && CanMove(w)
    ensures Sane(Move(w)) && Rank(Move(w)) < Rank(w)
    ensures Move(w).session.waitId >= w.session.waitId
    ensures w.session.outbound.Some? ==> Move(w).session.outbound.Some?
  {
  }

  /** The worker left to itself: it moves until it waits for a message or has ended. */
  function Settle(w: Worker): (r: Worker)
    requires Sane(w)
    ensures Sane(r) && !CanMove(r)
    decreases Rank(w)
  {
    if CanMove(w) then
      MoveKeepsSane(w);
      Settle(Move(w))
    else w
  }

  // ---- When a Step comes back ----

  /** A parked worker with nothing to read and nothing to give, in the very wait the snapshot saw. */
  predicate Stuck(w: Worker, snapshot: nat) {
    w.pc == Parked && w.session.inbound == [] && w.session.outbound.None? && w.session.waitId == snapshot
  }

  /** A Step returns or throws, whatever the worker's script and outcome are, unless it was started without a
      message on a worker that was already parked; in that case it blocks for as long as nobody else acts. */
  lemma {:induction false} StepReturnsUnlessStuck(w: Worker, snapshot: nat)
    requires Sane(w) && snapshot <= w.session.waitId
    ensures Inspect(Settle(w).session, snapshot) == Wait <==> Stuck(w, snapshot)
    decreases Rank(w)
  {
    if CanMove(w) {
      MoveKeepsSane(w);
      StepReturnsUnlessStuck(Move(w), snapshot);
    }
  }

  /** A Step with a message, on a parked worker, comes back after at most Rank(w) moves of the worker. */
  lemma StepWithMessageReturns(w: Worker, msg: Bytes)
    requires Sane(w) && w.pc == Parked
    ensures var pushed := w.(session := Push(w.session, msg));
      Sane(pushed) && Inspect(Settle(pushed).session, w.session.waitId) != Wait
  {
    StepReturnsUnlessStuck(w.(session := Push(w.session, msg)), w.session.waitId);
  }

  /** A Step without a message, on a parked worker with an empty slot and nothing to read, never comes back:
      the wait id is the one in the snapshot. */
  lemma StepWithoutMessageBlocks(w: Worker)
    requires Sane(w) && w.pc == Parked
    ensures Inspect(Settle(w).session, w.session.waitId) == Wait
       <==> w.session.inbound == [] && w.session.outbound.None?
  {
    StepReturnsUnlessStuck(w, w.session.waitId);
  }

  function MoveTimes(w: Worker, n: nat): (r: Worker)
    requires Sane(w)
    ensures Sane(r)
    decreases n
  {
    if n == 0 || !CanMove(w) then w
    else
      MoveKeepsSane(w);
      MoveTimes(Move(w), n - 1)
  }

  /** After Rank(w) moves the worker has settled. */
  lemma {:induction false} SettlesWithinRank(w: Worker, n: nat)
    requires Sane(w) && n >= Rank(w)
    ensures MoveTimes(w, n) == Settle(w)
    decreases n
  {
    if CanMove(w) {
      MoveKeepsSane(w);
      SettlesWithinRank(Move(w), n - 1);
    }
  }

  /** The conditions on which a Step returns are stable: a message in the slot, the end and a failure do not
      go away while the worker moves on. */
  lemma {:induction false} ReturnIsStable(w: Worker, n: nat, snapshot: nat)
    requires Sane(w)
    requires w.session.outbound.Some? || w.session.done || w.session.fatal.Some?
    ensures Inspect(MoveTimes(w, n).session, snapshot) != Wait
    decreases n
  {
    if n > 0 && CanMove(w) {
      MoveKeepsSane(w);
      ReturnIsStable(Move(w), n - 1, snapshot);
    }
  }
}
