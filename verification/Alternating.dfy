/** Protocols in which the two parties speak strictly in turn, and what every interleaving of such a pair with
    the driver keeps. */
module Alternating {
  import opened Common
  import opened Rendezvous
  import opened Workers
  import opened TwoParty

  /** The messages of the conversation in order; the opener speaks first, then the parties take turns. */
  datatype Talk = Talk(messages: seq<Bytes>, opener: Participant)

  function Speaker(t: Talk, k: nat): Participant {
    if k % 2 == 0 then t.opener else Other(t.opener)
  }

  /** What party `p` does at place `k` of the conversation. */
  function OpAt(t: Talk, p: Participant, k: nat): Op
    requires k < |t.messages|
  {
    if Speaker(t, k) == p then Say(t.messages[k]) else Hear
  }

  /** A script that follows the conversation, to its end or, for a protocol that fails, up to some place. */
  ghost predicate Follows(script: seq<Op>, t: Talk, p: Participant) {
    |script| <= |t.messages| && forall k :: 0 <= k < |script| ==> script[k] == OpAt(t, p, k)
  }

  ghost predicate Dual(c: Config, t: Talk) {
    && (forall k :: 0 <= k < |t.messages| ==> t.messages[k] != [])
    && Follows(c.scripts.first, t, First)
    && Follows(c.scripts.second, t, Second)
  }

  /** What `p` has said in the first `n` places. */
  function Said(t: Talk, p: Participant, n: nat): seq<Bytes>
    requires n <= |t.messages|
  {
    if n == 0 then [] else Said(t, p, n - 1) + (if Speaker(t, n - 1) == p then [t.messages[n - 1]] else [])
  }

  // ---- The invariant ----

  /** The message that is on its way to `p`, if there is one: the one `p` has to hear next. */
  function OnItsWay(t: Talk, s: System, p: Participant): seq<Bytes> {
    var mine, other := s.workers.Get(p).pos, s.workers.Get(Other(p)).pos;
    if mine < other && mine < |t.messages| then [t.messages[mine]] else []
  }

  ghost predicate WorkerInStep(t: Talk, w: Worker, p: Participant) {
    && Sane(w) && Follows(w.script, t, p)
    && w.sent == Said(t, p, w.pos) && w.heard == Said(t, Other(p), w.pos)
  }

  /** No party is more than one place ahead, and only by having spoken. */
  ghost predicate Close(t: Talk, s: System, p: Participant) {
    var mine, other := s.workers.Get(p).pos, s.workers.Get(Other(p)).pos;
    other <= mine + 1 && (other == mine + 1 ==> Speaker(t, mine) == Other(p))
  }

  /** A participant whose Step has reported Done has ended well and has nothing left to give. */
  ghost predicate DoneIsDone(s: System, p: Participant) {
    s.flags.Get(p) || (s.phase.Delivering? && s.phase.done && s.turn == p) ==>
      s.workers.Get(p).pc == Over && s.workers.Get(p).session.fatal.None? && s.workers.Get(p).session.outbound.None?
  }

  ghost predicate InStepFor(t: Talk, s: System, p: Participant) {
    && WorkerInStep(t, s.workers.Get(p), p)
    && Pipeline(s, p) == OnItsWay(t, s, p)
    && Close(t, s, p)
    && s.collected.Get(p) + Slot(s.workers.Get(p)) == s.workers.Get(p).sent
    && DoneIsDone(s, p)
  }

  ghost predicate InStep(t: Talk, s: System) {
    && (forall k :: 0 <= k < |t.messages| ==> t.messages[k] != [])
    && InStepFor(t, s, First) && InStepFor(t, s, Second)
  }

  lemma InitInStep(c: Config, t: Talk)
    requires Dual(c, t)
    ensures InStep(t, Init(c))
  {
  }

  // ---- Worker steps ----

  lemma PipelineEnds(s: System, p: Participant)
    ensures Pipeline(s, p) == [] ==>
      s.workers.Get(p).session.inbound == [] && Transit(s, p) == [] && Slot(s.workers.Get(Other(p))) == []
    ensures |Pipeline(s, p)| == 1 && s.workers.Get(p).session.inbound != [] ==>
      Pipeline(s, p) == s.workers.Get(p).session.inbound && Transit(s, p) == [] && Slot(s.workers.Get(Other(p))) == []
  {
    hide Transit, Slot;
    var inbound, transit, slot := s.workers.Get(p).session.inbound, Transit(s, p), Slot(s.workers.Get(Other(p)));
    assert |Pipeline(s, p)| == |inbound| + |transit| + |slot|;
    if |Pipeline(s, p)| == 1 && inbound != [] {
      assert transit == [] && slot == [];
      assert inbound + [] + [] == inbound;
    }
  }

  /** Whoever is about to speak finds its slot empty and the other party at the same place. */
  lemma SpeakerFindsRoom(t: Talk, s: System, p: Participant)
    requires InStep(t, s)
    requires var w := s.workers.Get(p); w.pc == Active && w.pos < |w.script| && w.script[w.pos].Say?
    ensures s.workers.Get(p).session.outbound.None?
    ensures s.workers.Get(Other(p)).pos == s.workers.Get(p).pos
  {
    hide Pipeline, Said;
    PipelineEnds(s, Other(p));
    assert Close(t, s, p) && Close(t, s, Other(p));
  }

  /** Whoever takes a message takes the one that is its turn. */
  lemma HearerTakesNext(t: Talk, s: System, p: Participant)
    requires InStep(t, s)
    requires var w := s.workers.Get(p); w.pc == Parked && CanMove(w)
    ensures var w := s.workers.Get(p);
      w.session.inbound == [t.messages[w.pos]] && s.workers.Get(Other(p)).pos == w.pos + 1
  {
    hide Pipeline, Said;
    PipelineEnds(s, p);
    assert Close(t, s, p) && Close(t, s, Other(p));
  }

  /** A move that is neither a send nor the taking of a message changes nothing that others can count. */
  lemma QuietMove(w: Worker)
    requires Sane(w) && CanMove(w) && Move(w).pos == w.pos
    ensures Move(w).sent == w.sent && Move(w).heard == w.heard && Move(w).script == w.script
    ensures Move(w).session.inbound == w.session.inbound && Move(w).session.outbound == w.session.outbound
    ensures w.pc != Over
  {
  }

  lemma QuietMoveKeepsPipeline(s: System, p: Participant, r: Participant, cap: nat)
    requires Sound(s) && Enabled(s, WorkerMoves(p)) && Move(s.workers.Get(p)).pos == s.workers.Get(p).pos
    ensures Pipeline(Next(s, WorkerMoves(p), cap), r) == Pipeline(s, r)
  {
    QuietMove(s.workers.Get(p));
    WorkerMoveLeaves(s, p, cap);
    hide Move, CanMove, Sane, Transit, Next;
  }

  /** What a quiet move leaves to be said about either participant. */
  lemma QuietMoveLeaves(s: System, p: Participant, r: Participant, cap: nat)
    requires Sound(s) && Enabled(s, WorkerMoves(p)) && Move(s.workers.Get(p)).pos == s.workers.Get(p).pos
    ensures var w, next := s.workers.Get(r), Next(s, WorkerMoves(p), cap).workers.Get(r);
      && Sane(next) && next.script == w.script && next.pos == w.pos && next.sent == w.sent && next.heard == w.heard
      && next.session.outbound == w.session.outbound && (w.pc == Over ==> next == w)
  {
    QuietMove(s.workers.Get(p));
    MoveKeepsSane(s.workers.Get(p));
    hide Move, CanMove, Sane;
  }

  /** Nothing of what the invariant speaks of has changed for `r`. */
  lemma StandsStill(t: Talk, s: System, next: System, r: Participant)
    requires InStepFor(t, s, r) && Pipeline(next, r) == Pipeline(s, r)
    requires next == s.(workers := next.workers)
    requires var w, w' := s.workers.Get(r), next.workers.Get(r);
      && Sane(w') && w'.script == w.script && w'.pos == w.pos && w'.sent == w.sent && w'.heard == w.heard
      && w'.session.outbound == w.session.outbound && (w.pc == Over ==> w' == w)
    requires next.workers.Get(Other(r)).pos == s.workers.Get(Other(r)).pos
    ensures InStepFor(t, next, r)
  {
    hide Said, Sane, Follows, Pipeline;
  }

  lemma QuietMoveInStepFor(t: Talk, s: System, p: Participant, r: Participant, cap: nat)
    requires InStep(t, s) && Enabled(s, WorkerMoves(p))
    requires Move(s.workers.Get(p)).pos == s.workers.Get(p).pos
    ensures InStepFor(t, Next(s, WorkerMoves(p), cap), r)
  {
    var next := Next(s, WorkerMoves(p), cap);
    QuietMoveKeepsPipeline(s, p, r, cap);
    QuietMoveLeaves(s, p, r, cap);
    QuietMoveLeaves(s, p, Other(r), cap);
    assert next == s.(workers := next.workers);
    assert InStepFor(t, s, r);
    hide InStep, InStepFor, Next, Move, CanMove, Enabled;
    StandsStill(t, s, next, r);
  }

  lemma QuietMoveInStep(t: Talk, s: System, p: Participant, cap: nat)
    requires InStep(t, s) && Enabled(s, WorkerMoves(p))
    requires Move(s.workers.Get(p)).pos == s.workers.Get(p).pos
    ensures InStep(t, Next(s, WorkerMoves(p), cap))
  {
    QuietMoveInStepFor(t, s, p, First, cap);
    QuietMoveInStepFor(t, s, p, Second, cap);
    hide InStepFor, Next, Move;
  }

  lemma WorkerSpeaks(t: Talk, w: Worker, p: Participant)
    requires WorkerInStep(t, w, p) && w.pc == Active && w.pos < |w.script| && w.script[w.pos].Say?
    requires w.session.outbound.None?
    ensures var msg := t.messages[w.pos];
      && Move(w) == w.(session := w.session.(outbound := Some(msg)), sent := w.sent + [msg], pos := w.pos + 1)
      && WorkerInStep(t, Move(w), p) && Speaker(t, w.pos) == p
      && Slot(w) == [] && Slot(Move(w)) == [msg]
  {
  }

  lemma WorkerHears(t: Talk, w: Worker, p: Participant)
    requires WorkerInStep(t, w, p) && w.pc == Parked && w.session.inbound == [t.messages[w.pos]]
    ensures var msg := t.messages[w.pos];
      && Move(w) == w.(session := w.session.(inbound := [], waiting := false), heard := w.heard + [msg],
                       pos := w.pos + 1, pc := Active)
      && WorkerInStep(t, Move(w), p) && Speaker(t, w.pos) == Other(p) && Slot(Move(w)) == Slot(w)
  {
    assert w.script[w.pos] == OpAt(t, p, w.pos);
  }

  /** After a send the message is on its way to the other participant, and nothing else is. */
  lemma SpeakingFills(t: Talk, s: System, p: Participant, cap: nat)
    requires InStep(t, s)
    requires var w := s.workers.Get(p); w.pc == Active && w.pos < |w.script| && w.script[w.pos].Say?
    ensures Enabled(s, WorkerMoves(p)) && s.workers.Get(p).pos < |t.messages|
    ensures var w, next := s.workers.Get(p), Next(s, WorkerMoves(p), cap);
      && Pipeline(next, Other(p)) == [t.messages[w.pos]] && Pipeline(next, p) == []
      && next.workers.Get(Other(p)).pos == w.pos && next.workers.Get(p).pos == w.pos + 1
  {
    SpeakerFindsRoom(t, s, p);
    assert InStepFor(t, s, p) && InStepFor(t, s, Other(p));
    WorkerSpeaks(t, s.workers.Get(p), p);
    InStepIsSound(t, s);
    assert CanMove(s.workers.Get(p));
    hide Move, WorkerInStep, Slot, Transit, Next, DoneIsDone, InStep, Sound, Sane;
    WorkerMoveLeaves(s, p, cap);
    PipelineEnds(s, p);
    PipelineEnds(s, Other(p));
  }

  /** The invariant for the participant that has moved, put together from what its move has done. */
  lemma Moved(t: Talk, s: System, next: System, r: Participant, d: seq<Bytes>)
    requires InStepFor(t, s, r) && next == s.(workers := next.workers) && s.workers.Get(r).pc != Over
    requires WorkerInStep(t, next.workers.Get(r), r)
    requires next.workers.Get(r).sent == s.workers.Get(r).sent + d
    requires Slot(next.workers.Get(r)) == Slot(s.workers.Get(r)) + d
    requires Pipeline(next, r) == OnItsWay(t, next, r) && Close(t, next, r)
    ensures InStepFor(t, next, r)
  {
    hide WorkerInStep, Pipeline, Slot, OnItsWay, Close;
  }

  /** The invariant for the participant that has not moved. */
  lemma Unmoved(t: Talk, s: System, next: System, r: Participant)
    requires InStepFor(t, s, r) && next == s.(workers := next.workers)
    requires next.workers.Get(r) == s.workers.Get(r)
    requires Pipeline(next, r) == OnItsWay(t, next, r) && Close(t, next, r)
    ensures InStepFor(t, next, r)
  {
    hide WorkerInStep, Pipeline, Slot, OnItsWay, Close;
  }

  lemma SpeakingInStepMine(t: Talk, s: System, p: Participant, cap: nat)
    requires InStep(t, s)
    requires var w := s.workers.Get(p); w.pc == Active && w.pos < |w.script| && w.script[w.pos].Say?
    ensures Enabled(s, WorkerMoves(p)) && InStepFor(t, Next(s, WorkerMoves(p), cap), p)
  {
    SpeakerFindsRoom(t, s, p);
    SpeakingFills(t, s, p, cap);
    assert InStepFor(t, s, p);
    WorkerSpeaks(t, s.workers.Get(p), p);
    var next := Next(s, WorkerMoves(p), cap);
    WorkerMoveLeaves(s, p, cap);
    hide InStep, InStepFor, Move, WorkerInStep, Slot, Pipeline, Enabled;
    Moved(t, s, next, p, [t.messages[s.workers.Get(p).pos]]);
  }

  lemma SpeakingInStepOther(t: Talk, s: System, p: Participant, cap: nat)
    requires InStep(t, s)
    requires var w := s.workers.Get(p); w.pc == Active && w.pos < |w.script| && w.script[w.pos].Say?
    ensures Enabled(s, WorkerMoves(p)) && InStepFor(t, Next(s, WorkerMoves(p), cap), Other(p))
  {
    SpeakingFills(t, s, p, cap);
    assert InStepFor(t, s, p) && InStepFor(t, s, Other(p));
    SpeakerFindsRoom(t, s, p);
    WorkerSpeaks(t, s.workers.Get(p), p);
    var next := Next(s, WorkerMoves(p), cap);
    WorkerMoveLeaves(s, p, cap);
    hide InStep, InStepFor, Move, WorkerInStep, Slot, Pipeline, Enabled;
    Unmoved(t, s, next, Other(p));
  }

  lemma SpeakingInStep(t: Talk, s: System, p: Participant, cap: nat)
    requires InStep(t, s)
    requires var w := s.workers.Get(p); w.pc == Active && w.pos < |w.script| && w.script[w.pos].Say?
    ensures Enabled(s, WorkerMoves(p)) && InStep(t, Next(s, WorkerMoves(p), cap))
  {
    SpeakingInStepMine(t, s, p, cap);
    SpeakingInStepOther(t, s, p, cap);
    hide InStepFor, Next;
  }

  /** After a message has been taken nothing is on its way. */
  lemma HearingEmpties(t: Talk, s: System, p: Participant, cap: nat)
    requires InStep(t, s)
    requires var w := s.workers.Get(p); w.pc == Parked && CanMove(w)
    ensures var w, next := s.workers.Get(p), Next(s, WorkerMoves(p), cap);
      && Pipeline(next, Other(p)) == [] && Pipeline(next, p) == []
      && next.workers.Get(Other(p)).pos == w.pos + 1 == next.workers.Get(p).pos
  {
    HearerTakesNext(t, s, p);
    assert InStepFor(t, s, p) && InStepFor(t, s, Other(p));
    WorkerHears(t, s.workers.Get(p), p);
    WorkerMoveLeaves(s, p, cap);
    PipelineEnds(s, p);
    PipelineEnds(s, Other(p));
    hide Move, CanMove, WorkerInStep, Slot, Transit, Next, DoneIsDone;
  }

  lemma HearingMove(t: Talk, s: System, p: Participant)
    requires InStep(t, s)
    requires var w := s.workers.Get(p); w.pc == Parked && CanMove(w)
    ensures Sound(s) && Enabled(s, WorkerMoves(p)) && InStepFor(t, s, p)
    ensures var w := s.workers.Get(p);
      && Sane(w) && WorkerInStep(t, Move(w), p) && Slot(Move(w)) == Slot(w) && Move(w).sent == w.sent
      && Speaker(t, w.pos) == Other(p)
  {
    HearerTakesNext(t, s, p);
    assert InStepFor(t, s, p);
    WorkerHears(t, s.workers.Get(p), p);
  }

  lemma HearingInStepMine(t: Talk, s: System, p: Participant, cap: nat)
    requires InStep(t, s)
    requires var w := s.workers.Get(p); w.pc == Parked && CanMove(w)
    ensures InStepFor(t, Next(s, WorkerMoves(p), cap), p)
  {
    HearingEmpties(t, s, p, cap);
    HearingMove(t, s, p);
    hide InStep, InStepFor, Move, CanMove, WorkerInStep, Slot, Pipeline, Enabled, Sane, Sound;
    WorkerMoveLeaves(s, p, cap);
    Moved(t, s, Next(s, WorkerMoves(p), cap), p, []);
  }

  lemma HearingInStepOther(t: Talk, s: System, p: Participant, cap: nat)
    requires InStep(t, s)
    requires var w := s.workers.Get(p); w.pc == Parked && CanMove(w)
    ensures InStepFor(t, Next(s, WorkerMoves(p), cap), Other(p))
  {
    HearingEmpties(t, s, p, cap);
    assert InStepFor(t, s, Other(p));
    var next := Next(s, WorkerMoves(p), cap);
    WorkerMoveLeaves(s, p, cap);
    hide InStep, InStepFor, Move, CanMove, WorkerInStep, Slot, Pipeline, Enabled;
    Unmoved(t, s, next, Other(p));
  }

  lemma HearingInStep(t: Talk, s: System, p: Participant, cap: nat)
    requires InStep(t, s)
    requires var w := s.workers.Get(p); w.pc == Parked && CanMove(w)
    ensures InStep(t, Next(s, WorkerMoves(p), cap))
  {
    HearingInStepMine(t, s, p, cap);
    HearingInStepOther(t, s, p, cap);
    hide InStepFor, Next, CanMove;
  }

  lemma WorkerMoveInStep(t: Talk, s: System, p: Participant, cap: nat)
    requires InStep(t, s) && Enabled(s, WorkerMoves(p))
    ensures InStep(t, Next(s, WorkerMoves(p), cap))
  {
    var w := s.workers.Get(p);
    if w.pc == Parked {
      HearingInStep(t, s, p, cap);
    } else if w.pc == Active && w.pos < |w.script| && w.script[w.pos].Say? {
      SpeakingInStep(t, s, p, cap);
    } else {
      hide InStep;
      QuietMoveInStep(t, s, p, cap);
    }
  }

  // ---- Driver steps ----

  lemma DroppedIsOnItsWay(s: System, p: Participant)
    requires DropsFor(s, p)
    ensures [] in Pipeline(s, p)
  {
    assert [] in Transit(s, p);
  }

  lemma NonemptyOnItsWay(t: Talk, s: System, p: Participant)
    requires InStep(t, s)
    ensures [] !in Pipeline(s, p)
  {
    assert InStepFor(t, s, p);
    hide Pipeline;
  }

  lemma NothingDropped(t: Talk, s: System, p: Participant)
    requires InStep(t, s)
    ensures !DropsFor(s, p)
  {
    NonemptyOnItsWay(t, s, p);
    if DropsFor(s, p) {
      DroppedIsOnItsWay(s, p);
    }
  }

  /** A driver step touches a worker's session at most by a push or by emptying its slot. */
  lemma DriverTouches(s: System, p: Participant, cap: nat)
    requires Sound(s) && Enabled(s, DriverMoves)
    ensures var w, next := s.workers.Get(p), Next(s, DriverMoves, cap).workers.Get(p);
      && next == w.(session := next.session)
      && (next.session == w.session || next.session == Inspected(w.session)
          || next.session == w.session.(inbound := next.session.inbound))
  {
    hide Sane, CanMove;
  }

  lemma DriverKeepsWorkers(s: System, p: Participant, cap: nat)
    requires Sound(s) && Enabled(s, DriverMoves)
    ensures var w, next := s.workers.Get(p), Next(s, DriverMoves, cap).workers.Get(p);
      && Sane(next) && next.script == w.script && next.pos == w.pos && next.sent == w.sent && next.heard == w.heard
      && next.pc == w.pc && next.session.fatal == w.session.fatal
      && (w.session.outbound.None? ==> next.session.outbound.None?)
  {
    NextKeepsSound(s, DriverMoves, cap);
    DriverTouches(s, p, cap);
    assert Sound(Next(s, DriverMoves, cap));
    hide Next, Sane, Enabled;
  }

  lemma LookCollects(s: System, p: Participant, cap: nat)
    requires Sound(s) && Enabled(s, DriverMoves)
    ensures var next := Next(s, DriverMoves, cap);
      next.collected.Get(p) + Slot(next.workers.Get(p)) == s.collected.Get(p) + Slot(s.workers.Get(p))
  {
    hide Sane, Sound, CanMove;
    var w := s.workers.Get(p);
    if s.phase.Looking? && s.turn == p && w.session.fatal.None? {
      OutboundIsCollected(s, cap);
    } else {
      SlotStays(s, p, cap);
    }
  }

  lemma OutboundIsCollected(s: System, cap: nat)
    requires s.phase.Looking? && Enabled(s, DriverMoves) && s.workers.Get(s.turn).session.fatal.None?
    ensures var next, w := DriverNext(s, cap), s.workers.Get(s.turn);
      Slot(next.workers.Get(s.turn)) == [] && next.collected.Get(s.turn) == s.collected.Get(s.turn) + Slot(w)
  {
  }

  lemma SlotStays(s: System, p: Participant, cap: nat)
    requires Enabled(s, DriverMoves)
    requires !(s.phase.Looking? && s.turn == p && s.workers.Get(p).session.fatal.None?)
    ensures var next := DriverNext(s, cap);
      Slot(next.workers.Get(p)) == Slot(s.workers.Get(p)) && next.collected.Get(p) == s.collected.Get(p)
  {
  }

  lemma DriverKeepsDone(s: System, p: Participant, cap: nat)
    requires Sound(s) && Enabled(s, DriverMoves) && DoneIsDone(s, p)
    ensures DoneIsDone(Next(s, DriverMoves, cap), p)
  {
    assert Sane(s.workers.Get(p));
    DriverKeepsWorkers(s, p, cap);
    hide CanMove;
  }

  lemma DriverMoveInStepFor(t: Talk, s: System, p: Participant, cap: nat)
    requires InStep(t, s) && Enabled(s, DriverMoves)
    ensures InStepFor(t, Next(s, DriverMoves, cap), p)
  {
    InStepIsSound(t, s);
    assert InStepFor(t, s, p);
    NothingDropped(t, s, p);
    hide InStep, Next, Pipeline, Said, DoneIsDone, Slot, Sane, Follows, Enabled, DropsFor, Sound;
    DriverMoveKeepsPipeline(s, p, cap);
    DriverKeepsWorkers(s, p, cap);
    DriverKeepsWorkers(s, Other(p), cap);
    LookCollects(s, p, cap);
    DriverKeepsDone(s, p, cap);
  }

  lemma DriverMoveInStep(t: Talk, s: System, cap: nat)
    requires InStep(t, s) && Enabled(s, DriverMoves)
    ensures InStep(t, Next(s, DriverMoves, cap))
  {
    DriverMoveInStepFor(t, s, First, cap);
    DriverMoveInStepFor(t, s, Second, cap);
    hide InStepFor, Next, Enabled;
  }

  // ---- Whole runs ----

  lemma InStepIsSound(t: Talk, s: System)
    requires InStep(t, s)
    ensures Sound(s)
  {
  }

  lemma {:induction false} RunInStep(t: Talk, s: System, steps: seq<Step>, cap: nat)
    requires InStep(t, s) && Run(s, steps, cap).Some?
    ensures InStep(t, Run(s, steps, cap).value)
    decreases |steps|
  {
    InStepIsSound(t, s);
    hide InStep, Next, Enabled;
    if steps != [] {
      assert Enabled(s, steps[0]);
      match steps[0] {
        case WorkerMoves(p) => WorkerMoveInStep(t, s, p, cap);
        case DriverMoves => DriverMoveInStep(t, s, cap);
      }
      RunInStep(t, Next(s, steps[0], cap), steps[1..], cap);
    }
  }

  lemma ReachableInStep(c: Config, t: Talk, s: System)
    requires Dual(c, t) && Reachable(c, s)
    ensures InStep(t, s)
  {
    var steps :| Run(Init(c), steps, c.cap) == Some(s);
    InitInStep(c, t);
    RunInStep(t, Init(c), steps, c.cap);
  }

  lemma SaidByTheOther(t: Talk, p: Participant, mine: nat, other: nat)
    requires mine <= |t.messages| && other <= |t.messages| && other <= mine + 1 && mine <= other + 1
    requires other == mine + 1 ==> Speaker(t, mine) == Other(p)
    requires mine == other + 1 ==> Speaker(t, other) == p
    ensures Said(t, Other(p), other)
         == Said(t, Other(p), mine) + (if mine < other && mine < |t.messages| then [t.messages[mine]] else [])
  {
  }

  lemma SentIsHeardOrOnItsWay(t: Talk, s: System, p: Participant)
    requires InStep(t, s)
    ensures s.workers.Get(Other(p)).sent == s.workers.Get(p).heard + Pipeline(s, p)
  {
    assert InStepFor(t, s, p) && InStepFor(t, s, Other(p));
    hide Pipeline, Said, Speaker, Slot, DoneIsDone;
    assert Close(t, s, p) && Close(t, s, Other(p));
    SaidByTheOther(t, p, s.workers.Get(p).pos, s.workers.Get(Other(p)).pos);
  }

  lemma OneMessageAtATime(t: Talk, s: System, p: Participant)
    requires InStep(t, s)
    ensures |Pipeline(s, p)| <= 1 && (Pipeline(s, p) != [] ==> Pipeline(s, Other(p)) == [])
  {
    assert InStepFor(t, s, p) && InStepFor(t, s, Other(p));
    hide Pipeline;
  }

  /** In every reachable state: what one party has sent is what the other has heard, followed by what is on its
      way, which is at most one message; so what a party has heard is always a prefix of what was sent to it. */
  lemma MessagesAreConserved(c: Config, t: Talk, s: System, p: Participant)
    requires Dual(c, t) && Reachable(c, s)
    ensures s.workers.Get(Other(p)).sent == s.workers.Get(p).heard + Pipeline(s, p)
    ensures |Pipeline(s, p)| <= 1 && (Pipeline(s, p) != [] ==> Pipeline(s, Other(p)) == [])
    ensures s.workers.Get(p).heard <= s.workers.Get(Other(p)).sent
  {
    ReachableInStep(c, t, s);
    SentIsHeardOrOnItsWay(t, s, p);
    OneMessageAtATime(t, s, p);
    hide InStep, Pipeline;
  }

  lemma StepLosesNothing(t: Talk, s: System, step: Step)
    requires InStep(t, s) && Enabled(s, step)
    ensures Sound(s) && !Loses(s, step)
  {
    match step {
      case WorkerMoves(p) =>
        if Loses(s, step) {
          SpeakerFindsRoom(t, s, p);
        }
      case DriverMoves =>
        NothingDropped(t, s, First);
        NothingDropped(t, s, Second);
    }
  }

  /** No step of any run loses a message: a send never meets an uncollected one, and nothing empty passes
      through the binding. */
  lemma NothingIsEverLost(c: Config, t: Talk, s: System, step: Step)
    requires Dual(c, t) && Reachable(c, s) && Sound(s) && Enabled(s, step)
    ensures !Loses(s, step)
  {
    ReachableInStep(c, t, s);
    StepLosesNothing(t, s, step);
  }

  lemma {:induction false} RunLosesNothing(t: Talk, s: System, steps: seq<Step>, cap: nat)
    requires InStep(t, s) && Run(s, steps, cap).Some?
    ensures Losses(s, steps, cap) == 0
    decreases |steps|
  {
    InStepIsSound(t, s);
    hide InStep, Next, Enabled, Loses;
    if steps != [] {
      assert Enabled(s, steps[0]);
      StepLosesNothing(t, s, steps[0]);
      match steps[0] {
        case WorkerMoves(p) => WorkerMoveInStep(t, s, p, cap);
        case DriverMoves => DriverMoveInStep(t, s, cap);
      }
      RunLosesNothing(t, Next(s, steps[0], cap), steps[1..], cap);
    }
  }

  /** When a Step reports Done, and ever after, the worker has ended without failure, its slot is empty, and
      the messages that its Steps have returned are all it ever sent: its whole side of the conversation. */
  lemma DoneIsComplete(c: Config, t: Talk, s: System, p: Participant)
    requires Dual(c, t) && Reachable(c, s)
    requires s.flags.Get(p) || (s.turn == p && s.phase.Delivering? && s.phase.done)
    ensures var w := s.workers.Get(p);
      && w.pc == Over && w.ready && w.session.fatal.None? && w.session.outbound.None?
      && w.pos == |w.script| <= |t.messages|
      && s.collected.Get(p) == w.sent == Said(t, p, w.pos)
  {
    ReachableInStep(c, t, s);
    assert InStepFor(t, s, p) && DoneIsDone(s, p);
    assert Slot(s.workers.Get(p)) == [];
  }
}
