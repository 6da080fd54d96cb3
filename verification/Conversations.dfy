/** Conversations in which anyone may speak at any place: exactly which of them the two sessions and the loop
    carry without losing a message, and exactly how many iterations the ones they carry need. */
module Conversations {
  import opened Common
  import opened Rendezvous
  import opened Workers
  import opened TwoParty
  import opened Alternating
  import opened Progress
  import opened DualLoops

  /** Messages in order, each with the participant that says it. */
  datatype Conversation = Conversation(messages: seq<Bytes>, speakers: seq<Participant>)

  ghost predicate Plays(script: seq<Op>, v: Conversation, p: Participant)
    requires |v.speakers| == |v.messages|
  {
    && |script| == |v.messages|
    && forall k :: 0 <= k < |script| ==> script[k] == if v.speakers[k] == p then Say(v.messages[k]) else Hear
  }

  /** Both scripts follow the conversation to its end, without failing. */
  ghost predicate Played(c: Config, v: Conversation) {
    && |v.speakers| == |v.messages| && c.outcomes == Pair(None, None)
    && Plays(c.scripts.first, v, First) && Plays(c.scripts.second, v, Second)
  }

  /** Nobody speaks twice in a row up to place `k`, and nothing before it is empty. */
  ghost predicate FairUpTo(v: Conversation, k: nat)
    requires |v.speakers| == |v.messages| && k <= |v.messages|
  {
    && (forall j :: 0 <= j < k ==> v.messages[j] != [])
    && (forall j :: 0 < j <= k && j < |v.messages| ==> v.speakers[j] == Other(v.speakers[j - 1]))
  }

  /** The participant that has its half when the first `k` messages have been said. */
  function Turn(v: Conversation, k: nat): Participant
    requires |v.speakers| == |v.messages| > 0 && k <= |v.messages|
  {
    if k == 0 then v.speakers[0] else Other(v.speakers[k - 1])
  }

  /** Halves before place 0: one, in which nothing is said, if the second-stepped participant opens. */
  function Shift(v: Conversation): nat
    requires |v.speakers| == |v.messages| > 0
  {
    if v.speakers[0] == First then 0 else 1
  }

  // ---- One worker ----

  /** A worker in the middle of its script, with nothing to read and nothing to give. */
  predicate Idle(w: Worker, script: seq<Op>, pos: nat) {
    && Sane(w) && w.script == script && w.outcome.None? && w.pos == pos && (w.pc == Active || w.pc == Parked)
    && w.session.inbound == [] && w.session.outbound.None?
  }

  lemma ParkMove(w: Worker)
    requires Sane(w) && w.pc == Active && w.pos < |w.script| && w.script[w.pos].Hear?
    ensures Move(w) == w.(session := EnterReceive(w.session), pc := Parked)
  {
  }

  lemma TakeMove(w: Worker, msg: Bytes)
    requires Sane(w) && w.pc == Parked && w.session.inbound == [msg]
    ensures CanMove(w) && Move(w) == w.(session := w.session.(inbound := [], waiting := false),
                                        heard := w.heard + [msg], pos := w.pos + 1, pc := Active)
  {
  }

  lemma SayMove(w: Worker)
    requires Sane(w) && w.pc == Active && w.pos < |w.script| && w.script[w.pos].Say?
    ensures Move(w) == w.(session := OnSend(w.session, w.script[w.pos].msg),
                          sent := w.sent + [w.script[w.pos].msg], pos := w.pos + 1)
  {
  }

  // ---- Runs to a place ----

  /** A half begins in which `p` is to hear message `k - 1`, if there is one, and then is at place `k`. */
  ghost predicate AtHalf(c: Config, v: Conversation, s: System, p: Participant, k: nat)
    requires Played(c, v) && |v.messages| > 0 && k <= |v.messages|
  {
    && s.phase == Receiving && s.turn == p && s.flags == Pair(false, false)
    && TurnIndex(s) == k + Shift(v)
    && Idle(s.workers.Get(p), c.scripts.Get(p), if k == 0 then 0 else k - 1)
    && Idle(s.workers.Get(Other(p)), c.scripts.Get(Other(p)), k)
    && (k == 0 ==> s.workers.Get(p).pc == Active)
    && s.queues.Get(p) == (if k == 0 then [] else [v.messages[k - 1]]) && s.queues.Get(Other(p)) == []
  }

  /** In that half, `p` has heard the message and is about to go on at place `k`. */
  ghost predicate AtPlace(c: Config, v: Conversation, s: System, p: Participant, k: nat)
    requires Played(c, v) && |v.messages| > 0 && k <= |v.messages|
  {
    && s.phase.Looking? && s.turn == p && s.flags == Pair(false, false)
    && TurnIndex(s) == k + Shift(v)
    && Idle(s.workers.Get(p), c.scripts.Get(p), k) && s.workers.Get(p).pc == Active
    && Idle(s.workers.Get(Other(p)), c.scripts.Get(Other(p)), k)
    && s.queues == Pair([], [])
  }

  lemma {:induction false} OpenerFirst(c: Config, v: Conversation) returns (steps: seq<Step>, s: System)
    requires Played(c, v) && |v.messages| > 0 && v.speakers[0] == First && c.cap > 0
    ensures Leads(Init(c), steps, s, c.cap) && AtHalf(c, v, s, First, 0)
  {
    steps, s := [], Init(c);
  }

  /** The first-stepped participant is stepped for nothing: its worker parks after its Step has read the wait
      id, and the Step returns. */
  lemma OpenerSecond(c: Config, v: Conversation) returns (steps: seq<Step>, s: System)
    requires Played(c, v) && |v.messages| > 0 && v.speakers[0] == Second && c.cap > 0
    ensures Leads(Init(c), steps, s, c.cap) && AtHalf(c, v, s, Second, 0)
  {
    steps, s := [], Init(c);
    assert c.scripts.first[0].Hear?;
    hide Leads;
    assert Leads(Init(c), steps, s, c.cap) by {
      StartsRun(s, c.cap);
    }
    steps, s := Extend(Init(c), steps, s, DriverMoves, c.cap);
    LeadsIsSound(Init(c), steps, s, c.cap);
    steps, s := Extend(Init(c), steps, s, DriverMoves, c.cap);
    LeadsIsSound(Init(c), steps, s, c.cap);
    ParkMove(s.workers.first);
    steps, s := Extend(Init(c), steps, s, WorkerMoves(First), c.cap);
    LeadsIsSound(Init(c), steps, s, c.cap);
    steps, s := Extend(Init(c), steps, s, DriverMoves, c.cap);
    LeadsIsSound(Init(c), steps, s, c.cap);
    steps, s := Extend(Init(c), steps, s, DriverMoves, c.cap);
    LeadsIsSound(Init(c), steps, s, c.cap);
    steps, s := Extend(Init(c), steps, s, DriverMoves, c.cap);
  }

  lemma WorkerStep(from: System, before: seq<Step>, s: System, p: Participant, w: Worker, cap: nat)
    returns (steps: seq<Step>, next: System)
    requires Leads(from, before, s, cap) && Sane(s.workers.Get(p)) && CanMove(s.workers.Get(p))
    requires Move(s.workers.Get(p)) == w
    ensures Leads(from, steps, next, cap) && next == s.(workers := s.workers.Put(p, w))
  {
    LeadsIsSound(from, before, s, cap);
    hide Leads, Move;
    steps, next := Extend(from, before, s, WorkerMoves(p), cap);
    WorkerNext(s, p, cap);
  }

  lemma PlaceOp(c: Config, v: Conversation, p: Participant, k: nat)
    requires Played(c, v) && k < |v.messages|
    ensures |c.scripts.Get(p)| == |v.messages|
    ensures c.scripts.Get(p)[k] == if v.speakers[k] == p then Say(v.messages[k]) else Hear
  {
  }

  /** A parked worker. */
  lemma Parks(from: System, before: seq<Step>, s: System, p: Participant, cap: nat)
    returns (steps: seq<Step>, next: System, w: Worker)
    requires Leads(from, before, s, cap)
    requires var w := s.workers.Get(p);
      Sane(w) && (w.pc == Active || w.pc == Parked) && w.pos < |w.script| && w.script[w.pos].Hear?
    ensures Leads(from, steps, next, cap) && next == s.(workers := s.workers.Put(p, w))
    ensures var was := s.workers.Get(p);
      && Sane(w) && w.pc == Parked && w.script == was.script && w.outcome == was.outcome && w.pos == was.pos
      && w.session.inbound == was.session.inbound && w.session.outbound == was.session.outbound
  {
    hide Leads;
    w := s.workers.Get(p);
    if w.pc == Active {
      ParkMove(w);
      MoveKeepsSane(w);
      w := Move(w);
      steps, next := WorkerStep(from, before, s, p, w, cap);
    } else {
      steps, next := before, s;
      assert s.workers == s.workers.Put(p, w);
    }
  }

  /** A parked or parking worker takes the message that has been pushed. */
  lemma Takes(from: System, before: seq<Step>, s: System, p: Participant, msg: Bytes, cap: nat)
    returns (steps: seq<Step>, next: System, w: Worker)
    requires Leads(from, before, s, cap)
    requires var w := s.workers.Get(p);
      && Sane(w) && (w.pc == Active || w.pc == Parked) && w.pos < |w.script| && w.script[w.pos].Hear?
      && w.session.inbound == [msg]
    ensures Leads(from, steps, next, cap) && next == s.(workers := s.workers.Put(p, w))
    ensures var was := s.workers.Get(p);
      && Sane(w) && w.pc == Active && w.script == was.script && w.outcome == was.outcome && w.pos == was.pos + 1
      && w.session.inbound == [] && w.session.outbound == was.session.outbound
  {
    hide Leads;
    steps, next, w := Parks(from, before, s, p, cap);
    TakeMove(w, msg);
    MoveKeepsSane(w);
    w := Move(w);
    steps, next := WorkerStep(from, steps, next, p, w, cap);
  }

  /** From the beginning of a half to the place where its participant goes on. */
  lemma Hears(c: Config, v: Conversation, before: seq<Step>, s: System, p: Participant, k: nat)
    returns (steps: seq<Step>, next: System)
    requires Played(c, v) && |v.messages| > 0 && k <= |v.messages| && FairUpTo(v, k) && p == Turn(v, k)
    requires Leads(Init(c), before, s, c.cap) && AtHalf(c, v, s, p, k)
    ensures Leads(Init(c), steps, next, c.cap) && AtPlace(c, v, next, p, k)
  {
    hide Leads;
    steps, next := UpToLook(Init(c), before, s, c.cap);
    if k > 0 {
      PlaceOp(c, v, p, k - 1);
      PushedIsSane(s.workers.Get(p), v.messages[k - 1]);
      assert v.messages[k - 1] != [] && v.speakers[k - 1] == Other(p);
      assert s.queues.Get(p)[1..] == [];
      assert next.queues == Pair([], []);
      hide Plays, FairUpTo, Sane;
      var w;
      steps, next, w := Takes(Init(c), steps, next, p, v.messages[k - 1], c.cap);
    }
  }

  lemma PushedIsSane(w: Worker, msg: Bytes)
    requires Sane(w) && w.session.inbound == []
    ensures var pushed := Pushed(w, Some(msg)); Sane(pushed) && pushed.session.inbound == [msg]
  {
  }

  /** The participant whose turn it is puts its message into the slot. */
  lemma Says(c: Config, v: Conversation, before: seq<Step>, s: System, p: Participant, k: nat)
    returns (steps: seq<Step>, next: System)
    requires Played(c, v) && k < |v.messages| && v.speakers[k] == p
    requires Leads(Init(c), before, s, c.cap) && AtPlace(c, v, s, p, k)
    ensures Leads(Init(c), steps, next, c.cap)
    ensures var w := s.workers.Get(p);
      next == s.(workers := s.workers.Put(p, w.(session := OnSend(w.session, v.messages[k]),
                                                sent := w.sent + [v.messages[k]], pos := k + 1)))
  {
    hide Leads;
    PlaceOp(c, v, p, k);
    SayMove(s.workers.Get(p));
    steps, next := WorkerStep(Init(c), before, s, p, Move(s.workers.Get(p)), c.cap);
  }

  /** The message is collected and sent on: the other participant's half begins, unless the iterations have
      been used up. */
  lemma Speaks(c: Config, v: Conversation, before: seq<Step>, s: System, p: Participant, k: nat)
    returns (steps: seq<Step>, next: System)
    requires Played(c, v) && k < |v.messages| && v.speakers[k] == p && v.messages[k] != []
    requires Leads(Init(c), before, s, c.cap) && AtPlace(c, v, s, p, k)
    ensures Leads(Init(c), steps, next, c.cap)
    ensures if p == First || s.i + 1 < c.cap then AtHalf(c, v, next, Other(p), k + 1)
            else next.phase == Exited && next.flags == Pair(false, false)
  {
    hide Leads;
    var said;
    steps, said := Says(c, v, before, s, p, k);
    SaidSane(c, v, s.workers.Get(p), p, k);
    LeadsIsSound(Init(c), steps, said, c.cap);
    steps, next := FromLook(Init(c), steps, said, said.phase.snapshot, c.cap);
  }

  lemma SaidSane(c: Config, v: Conversation, w: Worker, p: Participant, k: nat)
    requires Played(c, v) && k < |v.messages| && v.speakers[k] == p
    requires Idle(w, c.scripts.Get(p), k) && w.pc == Active
    ensures var said := w.(session := OnSend(w.session, v.messages[k]), sent := w.sent + [v.messages[k]], pos := k + 1);
      && Settled(said)
      && Inspect(said.session, 0) == Return(Some(v.messages[k]), false)
      && Idle(said.(session := Inspected(said.session)), c.scripts.Get(p), k + 1)
  {
    PlaceOp(c, v, p, k);
  }

  // ---- Any place can be reached ----

  lemma {:induction false} ReachesHalf(c: Config, v: Conversation, k: nat)
    returns (steps: seq<Step>, s: System)
    requires Played(c, v) && |v.messages| > 0 && k <= |v.messages| && FairUpTo(v, k)
    requires (k + Shift(v)) / 2 < c.cap
    ensures Leads(Init(c), steps, s, c.cap) && AtHalf(c, v, s, Turn(v, k), k)
    decreases k
  {
    hide Leads;
    if k == 0 {
      if v.speakers[0] == First {
        steps, s := OpenerFirst(c, v);
      } else {
        steps, s := OpenerSecond(c, v);
      }
    } else {
      assert FairUpTo(v, k - 1);
      steps, s := ReachesHalf(c, v, k - 1);
      var p := Turn(v, k - 1);
      steps, s := Hears(c, v, steps, s, p, k - 1);
      assert p == v.speakers[k - 1];
      steps, s := Speaks(c, v, steps, s, p, k - 1);
    }
  }

  lemma ReachesPlace(c: Config, v: Conversation, k: nat) returns (steps: seq<Step>, s: System)
    requires Played(c, v) && |v.messages| > 0 && k <= |v.messages| && FairUpTo(v, k)
    requires (k + Shift(v)) / 2 < c.cap
    ensures Leads(Init(c), steps, s, c.cap) && AtPlace(c, v, s, Turn(v, k), k)
  {
    hide Leads;
    steps, s := ReachesHalf(c, v, k);
    steps, s := Hears(c, v, steps, s, Turn(v, k), k);
  }

  // ---- Exactly the fair conversations lose nothing ----

  /** Speaking twice in a row overwrites. */
  lemma RepeatedSpeakerLoses(c: Config, v: Conversation, k: nat) returns (steps: seq<Step>)
    requires Played(c, v) && k + 1 < |v.messages| && FairUpTo(v, k) && v.speakers[k + 1] == v.speakers[k]
    requires (k + Shift(v)) / 2 < c.cap
    ensures Run(Init(c), steps, c.cap).Some? && Losses(Init(c), steps, c.cap) > 0
  {
    var p := Turn(v, k);
    var s;
    steps, s := ReachesPlace(c, v, k);
    assert p == v.speakers[k];
    steps, s := Says(c, v, steps, s, p, k);
    PlaceOp(c, v, p, k + 1);
    LeadsIsSound(Init(c), steps, s, c.cap);
    OneMoreLoss(Init(c), steps, c.cap, s, WorkerMoves(p));
    steps := steps + [WorkerMoves(p)];
  }

  /** An empty message does not get through the binding. */
  lemma EmptyMessageLoses(c: Config, v: Conversation, k: nat) returns (steps: seq<Step>)
    requires Played(c, v) && k < |v.messages| && FairUpTo(v, k) && v.messages[k] == []
    requires (k + Shift(v)) / 2 < c.cap
    ensures Run(Init(c), steps, c.cap).Some? && Losses(Init(c), steps, c.cap) > 0
  {
    var p := Turn(v, k);
    var s;
    steps, s := ReachesPlace(c, v, k);
    assert p == v.speakers[k];
    var w := s.workers.Get(p);
    steps, s := Says(c, v, steps, s, p, k);
    SaidSane(c, v, w, p, k);
    LeadsIsSound(Init(c), steps, s, c.cap);
    steps, s := Extend(Init(c), steps, s, DriverMoves, c.cap);
    LeadsIsSound(Init(c), steps, s, c.cap);
    OneMoreLoss(Init(c), steps, c.cap, s, DriverMoves);
    steps := steps + [DriverMoves];
  }

  ghost predicate Fair(v: Conversation)
    requires |v.speakers| == |v.messages|
  {
    FairUpTo(v, |v.messages|)
  }

  /** The first place at which a conversation is not fair. */
  lemma {:induction false} FirstUnfair(v: Conversation, n: nat) returns (k: nat)
    requires |v.speakers| == |v.messages| && n <= |v.messages| && !FairUpTo(v, n)
    ensures k < |v.messages| && FairUpTo(v, k)
    ensures v.messages[k] == [] || (k + 1 < |v.messages| && v.speakers[k + 1] == v.speakers[k])
  {
    if FairUpTo(v, n - 1) {
      k := n - 1;
    } else {
      k := FirstUnfair(v, n - 1);
    }
  }

  lemma {:induction false} TurnsAlternate(v: Conversation, k: nat)
    requires |v.speakers| == |v.messages| && Fair(v) && k < |v.messages|
    ensures v.speakers[k] == Speaker(Talk(v.messages, v.speakers[0]), k)
    decreases k
  {
    if k > 0 {
      TurnsAlternate(v, k - 1);
    }
  }

  /** Two sessions and the loop lose no message of a conversation, in any interleaving, if and only if nobody
      speaks twice in a row and no message is empty. */
  lemma NothingLostIffFair(c: Config, v: Conversation)
    requires Played(c, v) && Iterations(|v.messages|) <= c.cap
    ensures (forall steps :: Run(Init(c), steps, c.cap).Some? ==> Losses(Init(c), steps, c.cap) == 0) <==> Fair(v)
  {
    if Fair(v) {
      var t := Talk(v.messages, if v.messages == [] then First else v.speakers[0]);
      forall k | 0 <= k < |v.messages| ensures v.speakers[k] == Speaker(t, k) {
        TurnsAlternate(v, k);
      }
      InitInStep(c, t);
      forall steps | Run(Init(c), steps, c.cap).Some? ensures Losses(Init(c), steps, c.cap) == 0 {
        RunLosesNothing(t, Init(c), steps, c.cap);
      }
    } else {
      var k := FirstUnfair(v, |v.messages|);
      if v.messages[k] == [] {
        var steps := EmptyMessageLoses(c, v, k);
      } else {
        var steps := RepeatedSpeakerLoses(c, v, k);
      }
    }
  }

  // ---- Exactly how many iterations a conversation needs ----

  /** The workers run on after the loop has ended. */
  lemma {:induction false} Drains(from: System, before: seq<Step>, s: System, cap: nat)
    returns (steps: seq<Step>, end: System)
    requires Leads(from, before, s, cap) && Sound(s) && s.phase.Exited?
    ensures Leads(from, steps, end, cap) && end.phase.Exited? && end.flags == s.flags && Maximal(end)
    decreases Rank(s.workers.first) + Rank(s.workers.second)
  {
    hide Leads, Move;
    if CanMove(s.workers.first) {
      MoveKeepsSane(s.workers.first);
      var next;
      steps, next := WorkerStep(from, before, s, First, Move(s.workers.first), cap);
      steps, end := Drains(from, steps, next, cap);
    } else if CanMove(s.workers.second) {
      MoveKeepsSane(s.workers.second);
      var next;
      steps, next := WorkerStep(from, before, s, Second, Move(s.workers.second), cap);
      steps, end := Drains(from, steps, next, cap);
    } else {
      steps, end := before, s;
      NobodyMoves(s);
    }
  }

  lemma NobodyMoves(s: System)
    requires s.phase.Exited? && !CanMove(s.workers.first) && !CanMove(s.workers.second)
    ensures Maximal(s)
  {
    forall step ensures !Enabled(s, step) {
      match step {
        case WorkerMoves(p) => assert p == First || p == Second;
        case DriverMoves =>
      }
    }
  }

  /** The one who hears the last message ends, and its flag goes up. */
  lemma Finishes(c: Config, v: Conversation, before: seq<Step>, s: System, p: Participant)
    returns (steps: seq<Step>, next: System)
    requires Played(c, v) && |v.messages| > 0
    requires Leads(Init(c), before, s, c.cap) && AtPlace(c, v, s, p, |v.messages|)
    ensures Leads(Init(c), steps, next, c.cap)
    ensures p == Second && s.i + 1 == c.cap ==> next.phase.Exited? && next.flags == Pair(false, true)
  {
    hide Leads;
    var w := s.workers.Get(p);
    assert |c.scripts.Get(p)| == |v.messages|;
    MoveKeepsSane(w);
    steps, next := WorkerStep(Init(c), before, s, p, Move(w), c.cap);
    MoveKeepsSane(Move(w));
    steps, next := WorkerStep(Init(c), steps, next, p, Move(Move(w)), c.cap);
    steps, next := FromLook(Init(c), steps, next, next.phase.snapshot, c.cap);
  }

  function AsConversation(t: Talk): (v: Conversation)
    ensures v.messages == t.messages && |v.speakers| == |t.messages|
    ensures forall k :: 0 <= k < |t.messages| ==> v.speakers[k] == Speaker(t, k)
  {
    Conversation(t.messages, seq(|t.messages|, k requires 0 <= k < |t.messages| => Speaker(t, k)))
  }

  lemma TalkIsPlayed(c: Config, t: Talk)
    requires Dual(c, t) && WholeTalk(t, Init(c))
    ensures Played(c, AsConversation(t)) && Fair(AsConversation(t))
  {
  }

  /** With one iteration too few the flag of a participant stays down. */
  lemma TalkSpeakers(c: Config, t: Talk, k: nat)
    requires Dual(c, t) && WholeTalk(t, Init(c)) && k % 2 == 0 && k < |t.messages|
    ensures var v := AsConversation(t);
      && Played(c, v) && FairUpTo(v, k) && FairUpTo(v, k + 1) && Shift(v) == 0 && v.messages[k] != []
      && v.speakers[k] == First && Turn(v, k) == First && Turn(v, k + 1) == Second
      && (k + 1 < |t.messages| ==> v.speakers[k + 1] == Second && v.messages[k + 1] != [])
  {
    TalkIsPlayed(c, t);
  }

  /** With one iteration too few the flag of a participant stays down. */
  lemma TooFewIterations(c: Config, t: Talk) returns (steps: seq<Step>, end: System)
    requires Dual(c, t) && WholeTalk(t, Init(c)) && |t.messages| + 1 >= 2 * c.cap
    ensures Leads(Init(c), steps, end, c.cap) && end.phase.Exited? && end.flags != Pair(true, true)
  {
    if c.cap == 0 {
      steps, end := [], Init(c);
    } else {
      var v, k := AsConversation(t), 2 * c.cap - 2;
      TalkSpeakers(c, t, k);
      hide Leads, FairUpTo, Idle, Dual, WholeTalk, Init, AsConversation, Played, Shift, Turn;
      steps, end := ReachesPlace(c, v, k);
      steps, end := Speaks(c, v, steps, end, First, k);
      steps, end := Hears(c, v, steps, end, Second, k + 1);
      if k + 1 < |v.messages| {
        steps, end := Speaks(c, v, steps, end, Second, k + 1);
      } else {
        steps, end := Finishes(c, v, steps, end, Second);
      }
    }
  }

  /** A cap of n iterations is enough exactly up to 2n - 2 messages: then every eager run that cannot go on has
      ended the loop with both flags up, and with more messages some such run has left one down. For the code's
      cap of 128 that is 254 messages. */
  lemma CapIsExact(c: Config, t: Talk)
    requires Dual(c, t) && WholeTalk(t, Init(c))
    ensures (forall steps, end ::
               EagerRun(Init(c), steps, c.cap) && Run(Init(c), steps, c.cap) == Some(end) && Maximal(end)
               ==> end.phase.Exited? && end.flags == Pair(true, true))
       <==> |t.messages| <= 2 * c.cap - 2
  {
    if |t.messages| <= 2 * c.cap - 2 {
      forall steps, end |
        EagerRun(Init(c), steps, c.cap) && Run(Init(c), steps, c.cap) == Some(end) && Maximal(end)
        ensures end.phase.Exited? && end.flags == Pair(true, true)
      {
        LoopEndsWell(c, t, steps, First);
      }
    } else {
      var before, s := TooFewIterations(c, t);
      LeadsIsSound(Init(c), before, s, c.cap);
      var steps, end := Drains(Init(c), before, s, c.cap);
      assert EagerRun(Init(c), steps, c.cap) && Run(Init(c), steps, c.cap) == Some(end) && Maximal(end);
    }
  }
}
