/** DKG and refresh sessions of cpp/src/bridge.cpp: the worker publishes one key, Finalize hands it out. */
module KeySessions {
  import opened Common
  import opened Keys
  import opened Rendezvous
  import opened Workers
  import opened AsyncSessions

  /** What a session fixes when it is created. `reported` is the curve its keypairs are labelled with; a
      refresh session computes it from the library's curve, and may fail to, only in Finalize. */
  datatype Info = Info(
    kind: Code, scheme: Code, reported: Result<Code>, keyId: Bytes, party: Party, curve: LibraryCurve)

  datatype DkgOptions = DkgOptions(kind: Code, scheme: Code, curve: Code, keyId: Bytes)

  /** The share that a session plays: the device (kind 0) is the first party, the server (kind 1) the second. */
  predicate Plays(info: Info, kind: Code) {
    (kind == 0 && info.party == P1) || (kind == 1 && info.party == P2)
  }

  /** The checks of DkgSessionImpl's constructor, in its order: curve, kind, scheme. By number, curve 0 with
      kind 0 or 1 and scheme 0 makes a session; curve 1 is known but unsupported. */
  function NewDkg(opts: DkgOptions): (r: Result<Info>)
    ensures r.Ok? <==> opts.curve == 0 && opts.kind <= 1 && opts.scheme == 0
    ensures r.Ok? ==> Plays(r.value, opts.kind) && r.value.curve == LibrarySecp256k1 && r.value.reported == Ok(0)
    ensures r.Err? ==> r.code == if opts.curve == 1 then Unsupported
                                 else if opts.curve > 1 || opts.kind > 1 then InvalidArgument
                                 else Unsupported
  {
    match (ToCbCurve(opts.curve), ToParty(opts.kind))
    case (Err(code), _) => Err(code)
    case (_, Err(code)) => Err(code)
    case (Ok(curve), Ok(party)) =>
      if opts.scheme != ECDSA_2P then Err(Unsupported)
      else Ok(Info(opts.kind, opts.scheme, Ok(opts.curve), opts.keyId, party, curve))
  }

  /** The checks of RefreshSessionImpl's constructor: kind, scheme. The curve is taken over unchecked. */
  function NewRefresh(kp: Keypair): (r: Result<Info>)
    ensures r.Ok? <==> kp.kind <= 1 && kp.scheme == 0
    ensures r.Ok? ==> Plays(r.value, kp.kind) && r.value.curve == kp.key.curve
    ensures r.Ok? ==> r.value.reported == if kp.key.curve == LibrarySecp256k1 then Ok(0) else Err(Unsupported)
    ensures r.Err? ==> r.code == if kp.kind > 1 then InvalidArgument else Unsupported
  {
    match ToParty(kp.kind)
    case Err(code) => Err(code)
    case Ok(party) =>
      if kp.scheme != ECDSA_2P then Err(Unsupported)
      else Ok(Info(kp.kind, kp.scheme, FromCbCurve(kp.key.curve), kp.keyId, party, kp.key.curve))
  }

  /** The fields that Finalize reads: the rendezvous, and the key with its flag. */
  datatype KeyState = KeyState(session: Session, key: Option<Key>, keyReady: bool)

  datatype Answer = Silent | Looked(look: Look) | HandsOut(keypair: Keypair) | Refuses(code: ErrorCode) | Blocks

  predicate Consistent(s: KeyState) {
    s.keyReady ==> s.key.Some?
  }

  /** Finalize: what it answers and what it leaves behind. The flag is cleared before the keypair is made. */
  function Finalize(info: Info, s: KeyState): (KeyState, Answer)
    requires Consistent(s)
  {
    match Ensure(s.session)
    case Throw(code) => (s, Refuses(code))
    case Wait => (s, Blocks)
    case Return(_, _) =>
      if !s.keyReady then (s, Refuses(ProtocolState))
      else
        (s.(keyReady := false),
         match info.reported
         case Err(code) => Refuses(code)
         case Ok(curve) => HandsOut(Keypair(info.kind, info.scheme, curve, info.keyId, s.key.value)))
  }

  // ---- The object ----

  class KeySession {
    const info: Info
    const async: AsyncSession
    var key: Option<Key>
    var keyReady: bool

    function State(): KeyState
      reads this, async
    {
      KeyState(async.State(), key, keyReady)
    }

    constructor (info: Info)
      ensures this.info == info && fresh(async)
      ensures State() == KeyState(NEW_SESSION, None, false)
    {
      this.info := info;
      async := new AsyncSession();
      key, keyReady := None, false;
    }

    /** DkgSessionImpl's constructor: a session, or the error of the first check that fails. */
    static method CreateDkg(opts: DkgOptions) returns (r: Result<KeySession>)
      ensures r.Ok? <==> opts.curve == 0 && opts.kind <= 1 && opts.scheme == 0
      ensures r.Ok? ==> Plays(r.value.info, opts.kind)
      ensures NewDkg(opts).Err? ==> r == Err(NewDkg(opts).code)
      ensures NewDkg(opts).Ok? ==>
        && r.Ok? && fresh(r.value) && fresh(r.value.async)
        && r.value.info == NewDkg(opts).value && r.value.State() == KeyState(NEW_SESSION, None, false)
    {
      var curve := ToCbCurve(opts.curve);
      if curve.Err? {
        return Err(curve.code);
      }
      var party := ToParty(opts.kind);
      if party.Err? {
        return Err(party.code);
      }
      if opts.scheme != ECDSA_2P {
        return Err(Unsupported);
      }
      var session := new KeySession(
        Info(opts.kind, opts.scheme, Ok(opts.curve), opts.keyId, party.value, curve.value));
      return Ok(session);
    }

    /** RefreshSessionImpl's constructor. */
    static method CreateRefresh(kp: Keypair) returns (r: Result<KeySession>)
      ensures r.Ok? <==> kp.kind <= 1 && kp.scheme == 0
      ensures r.Ok? ==> Plays(r.value.info, kp.kind)
      ensures NewRefresh(kp).Err? ==> r == Err(NewRefresh(kp).code)
      ensures NewRefresh(kp).Ok? ==>
        && r.Ok? && fresh(r.value) && fresh(r.value.async)
        && r.value.info == NewRefresh(kp).value && r.value.State() == KeyState(NEW_SESSION, None, false)
    {
      var party := ToParty(kp.kind);
      if party.Err? {
        return Err(party.code);
      }
      if kp.scheme != ECDSA_2P {
        return Err(Unsupported);
      }
      var session := new KeySession(
        Info(kp.kind, kp.scheme, FromCbCurve(kp.key.curve), kp.keyId, party.value, kp.key.curve));
      return Ok(session);
    }

    /** The worker's last region when the protocol has succeeded. */
    method Publish(tmp: Key)
      modifies this
      ensures State() == old(State()).(key := Some(tmp), keyReady := true)
    {
      key := Some(tmp);
      keyReady := true;
    }

    method FinalizeKey() returns (answer: Answer)
      requires Consistent(State())
      modifies this
      ensures (State(), answer) == Finalize(info, old(State()))
    {
      var ended := async.EnsureWorkerFinished();
      if ended.Throw? {
        return Refuses(ended.code);
      }
      if ended.Wait? {
        return Blocks;
      }
      if !keyReady {
        return Refuses(ProtocolState);
      }
      keyReady := false;
      if info.reported.Err? {
        return Refuses(info.reported.code);
      }
      return HandsOut(Keypair(info.kind, info.scheme, info.reported.value, info.keyId, key.value));
    }
  }

  // ---- Whole runs ----

  /** A session in the middle of a run; `product` is the key the protocol makes if it succeeds. */
  datatype Running = Running(info: Info, worker: Worker, product: Key, key: Option<Key>, keyReady: bool)

  function Begin(info: Info, script: seq<Op>, outcome: Option<ErrorCode>, product: Key): Running {
    Running(info, Start(script, outcome), product, None, false)
  }

  function View(r: Running): KeyState {
    KeyState(r.worker.session, r.key, r.keyReady)
  }

  /** One move of the worker, or one region of a call from outside, in any order. */
  datatype Call = Moves | Pushes(msg: Bytes) | Looks(snapshot: nat) | Finalizes

  predicate Sound(r: Running) {
    && Sane(r.worker)
    && (r.keyReady ==> r.worker.ready && r.key == Some(r.product))
  }

  function Do(r: Running, call: Call): (Running, Answer)
    requires Sound(r)
  {
    match call
    case Moves =>
      if !CanMove(r.worker) then (r, Silent)
      else
        var next := r.(worker := Move(r.worker));
        (if next.worker.ready && !r.worker.ready then next.(key := Some(r.product), keyReady := true) else next, Silent)
    case Pushes(msg) => (r.(worker := r.worker.(session := Push(r.worker.session, msg))), Silent)
    case Looks(snapshot) =>
      (r.(worker := r.worker.(session := Inspected(r.worker.session))), Looked(Inspect(r.worker.session, snapshot)))
    case Finalizes =>
      var (s, answer) := Finalize(r.info, View(r));
      (r.(key := s.key, keyReady := s.keyReady), answer)
  }

  lemma DoKeepsSound(r: Running, call: Call)
    requires Sound(r)
    ensures Sound(Do(r, call).0)
    ensures Do(r, call).0.info == r.info && Do(r, call).0.product == r.product
    ensures Do(r, call).0.worker.outcome == r.worker.outcome
    ensures r.worker.ready ==> Do(r, call).0.worker.ready
  {
  }

  function Run(r: Running, calls: seq<Call>): (result: (Running, seq<Answer>))
    requires Sound(r)
    ensures Sound(result.0) && |result.1| == |calls|
    decreases |calls|
  {
    if calls == [] then (r, [])
    else
      DoKeepsSound(r, calls[0]);
      var (next, answer) := Do(r, calls[0]);
      var (end, answers) := Run(next, calls[1..]);
      (end, [answer] + answers)
  }

  function KeysIn(answers: seq<Answer>): nat {
    if answers == [] then 0 else (if answers[0].HandsOut? then 1 else 0) + KeysIn(answers[1..])
  }

  /** The key can still be handed out: it is ready, or not yet published. */
  predicate StillToCome(r: Running) {
    r.keyReady || !r.worker.ready
  }

  /** Over any run a session hands out its key at most once, and never again after it has been taken. */
  lemma {:induction false} HandsOutAtMostOnce(r: Running, calls: seq<Call>)
    requires Sound(r)
    ensures KeysIn(Run(r, calls).1) <= if StillToCome(r) then 1 else 0
    decreases |calls|
  {
    if calls != [] {
      DoKeepsSound(r, calls[0]);
      var (next, answer) := Do(r, calls[0]);
      HandsOutAtMostOnce(next, calls[1..]);
      var answers := Run(next, calls[1..]).1;
      assert Run(r, calls).1[0] == answer && Run(r, calls).1[1..] == answers;
    }
  }

  /** The one keypair a session may hand out. */
  function Labelled(r: Running): Option<Keypair> {
    match r.info.reported
    case Err(_) => None
    case Ok(curve) => Some(Keypair(r.info.kind, r.info.scheme, curve, r.info.keyId, r.product))
  }

  /** What is handed out carries the description the session was created with, and only a session whose
      protocol succeeded, and whose worker has ended, hands out anything. */
  lemma {:induction false} HandsOutWhatWasPromised(r: Running, calls: seq<Call>, i: nat)
    requires Sound(r) && i < |calls| && Run(r, calls).1[i].HandsOut?
    ensures calls[i].Finalizes? && Labelled(r) == Some(Run(r, calls).1[i].keypair)
    ensures r.worker.outcome.None? && Run(r, calls[..i]).0.worker.pc == Over
    decreases |calls|
  {
    DoKeepsSound(r, calls[0]);
    var (next, answer) := Do(r, calls[0]);
    assert Run(r, calls).1 == [answer] + Run(next, calls[1..]).1;
    if i == 0 {
      assert calls[..0] == [];
    } else {
      HandsOutWhatWasPromised(next, calls[1..], i - 1);
      assert calls[..i][0] == calls[0] && calls[..i][1..] == calls[1..][..i - 1];
    }
  }

  /** A Finalize that got past the wait for the worker: it used up the key, or found it used up. */
  predicate Settled(answer: Answer, call: Call) {
    call.Finalizes? && !answer.Blocks?
  }

  ghost predicate SettledBefore(r: Running, calls: seq<Call>, i: nat)
    requires Sound(r) && i <= |calls|
  {
    exists j :: 0 <= j < i && Settled(Run(r, calls).1[j], calls[j])
  }

  /** The answer of every Finalize of every run from the creation on. A failed session throws its failure, a
      running one blocks; of the others the first Finalize hands the key out, or throws because its curve has
      no name, and every later one is refused. */
  lemma FinalizeAnswers(
      info: Info, script: seq<Op>, outcome: Option<ErrorCode>, product: Key, calls: seq<Call>, i: nat)
    requires i < |calls| && calls[i].Finalizes?
    ensures var begin := Begin(info, script, outcome, product);
      var at := Run(begin, calls[..i]).0.worker;
      Run(begin, calls).1[i] ==
        if at.session.fatal.Some? then Refuses(at.session.fatal.value)
        else if at.pc != Over then Blocks
        else if SettledBefore(begin, calls, i) then Refuses(ProtocolState)
        else if info.reported.Err? then Refuses(info.reported.code)
        else HandsOut(Keypair(info.kind, info.scheme, info.reported.value, info.keyId, product))
  {
    FinalizeAnswersFrom(Begin(info, script, outcome, product), calls, i);
  }

  /** The same from any state, in which the key may have been used up already. */
  lemma {:induction false} FinalizeAnswersFrom(r: Running, calls: seq<Call>, i: nat)
    requires Sound(r) && i < |calls| && calls[i].Finalizes?
    ensures var at := Run(r, calls[..i]).0.worker;
      Run(r, calls).1[i] ==
        if at.session.fatal.Some? then Refuses(at.session.fatal.value)
        else if at.pc != Over then Blocks
        else if !StillToCome(r) || SettledBefore(r, calls, i) then Refuses(ProtocolState)
        else if r.info.reported.Err? then Refuses(r.info.reported.code)
        else HandsOut(Labelled(r).value)
    decreases |calls|
  {
    DoKeepsSound(r, calls[0]);
    var (next, answer) := Do(r, calls[0]);
    assert Run(r, calls).1 == [answer] + Run(next, calls[1..]).1;
    if i == 0 {
      assert calls[..0] == [];
    } else {
      FinalizeAnswersFrom(next, calls[1..], i - 1);
      assert calls[..i][0] == calls[0] && calls[..i][1..] == calls[1..][..i - 1];
      LaterSettled(r, calls, i);
      UsedUpWhenSettled(r, calls[0]);
      if r.worker.session.fatal.Some? {
        FailureStays(r, calls[..i]);
      }
    }
  }

  lemma {:induction false} FailureStays(r: Running, calls: seq<Call>)
    requires Sound(r) && r.worker.session.fatal.Some?
    ensures Run(r, calls).0.worker.session.fatal == r.worker.session.fatal
    decreases |calls|
  {
    if calls != [] {
      DoKeepsSound(r, calls[0]);
      FailureStays(Do(r, calls[0]).0, calls[1..]);
    }
  }

  lemma LaterSettled(r: Running, calls: seq<Call>, i: nat)
    requires Sound(r) && 0 < i <= |calls|
    ensures Sound(Do(r, calls[0]).0)
    ensures SettledBefore(r, calls, i)
       <==> Settled(Do(r, calls[0]).1, calls[0]) || SettledBefore(Do(r, calls[0]).0, calls[1..], i - 1)
  {
    DoKeepsSound(r, calls[0]);
    var (next, answer) := Do(r, calls[0]);
    hide Do, Sound, Settled;
    var answers, rest := Run(r, calls).1, Run(next, calls[1..]).1;
    assert answers == [answer] + rest;
    if j :| 0 <= j < i - 1 && Settled(rest[j], calls[1..][j]) {
      assert Settled(answers[j + 1], calls[j + 1]);
    }
    if j :| 0 <= j < i && Settled(answers[j], calls[j]) {
      if j > 0 {
        assert Settled(rest[j - 1], calls[1..][j - 1]);
      }
    }
  }

  /** A call leaves the key to come unless it is a Finalize that settles; one that throws the failure says
      nothing about the key, which then never comes. */
  lemma UsedUpWhenSettled(r: Running, call: Call)
    requires Sound(r)
    ensures Settled(Do(r, call).1, call) && r.worker.session.fatal.None? ==> !StillToCome(Do(r, call).0)
    ensures !Settled(Do(r, call).1, call) ==> (StillToCome(Do(r, call).0) <==> StillToCome(r))
  {
  }

  /** No run reaches a state that has failed and has a key ready. */
  lemma NeverFailedAndReady(r: Running, calls: seq<Call>)
    requires Sound(r)
    ensures !(Run(r, calls).0.worker.session.fatal.Some? && Run(r, calls).0.keyReady)
  {
  }

  /** After a failure every Step throws it and every Finalize throws it, for ever. */
  lemma {:induction false} FailureIsFinal(r: Running, calls: seq<Call>, i: nat)
    requires Sound(r) && r.worker.session.fatal.Some? && i < |calls|
    ensures calls[i].Looks? ==> Run(r, calls).1[i] == Looked(Throw(r.worker.session.fatal.value))
    ensures calls[i].Finalizes? ==> Run(r, calls).1[i] == Refuses(r.worker.session.fatal.value)
    decreases |calls|
  {
    DoKeepsSound(r, calls[0]);
    var (next, answer) := Do(r, calls[0]);
    assert Run(r, calls).1 == [answer] + Run(next, calls[1..]).1;
    if i > 0 {
      FailureIsFinal(next, calls[1..], i - 1);
    }
  }

  /** When the worker has ended well, the first Finalize hands the key out and the next one is refused. */
  lemma FinalizeTwice(r: Running)
    requires Sound(r) && r.worker.pc == Over && r.worker.outcome.None? && r.keyReady && r.info.reported.Ok?
    ensures Run(r, [Finalizes, Finalizes]).1 == [HandsOut(Labelled(r).value), Refuses(ProtocolState)]
  {
    var (first, answer) := Do(r, Finalizes);
    assert [Finalizes, Finalizes][1..] == [Finalizes];
    assert [Finalizes][1..] == [];
    var (second, refusal) := Do(first, Finalizes);
    assert Run(first, [Finalizes]) == (second, [refusal] + Run(second, []).1);
  }

  /** A DKG session labels its keypair with exactly its options, and the keypair is well-formed. */
  lemma DkgKeypair(opts: DkgOptions, r: Running)
    requires NewDkg(opts) == Ok(r.info) && r.product.role == r.info.party && r.product.curve == r.info.curve
    ensures Labelled(r) == Some(Keypair(opts.kind, opts.scheme, opts.curve, opts.keyId, r.product))
    ensures WellFormed(Labelled(r).value) && opts.scheme == ECDSA_2P && opts.curve == SECP256K1
  {
    SessionKeyIsWellFormed(Labelled(r).value);
  }

  /** Refreshing a well-formed keypair keeps its kind, scheme, curve and key id, and gives a well-formed one. */
  lemma RefreshKeypair(kp: Keypair, r: Running)
    requires NewRefresh(kp) == Ok(r.info) && r.product.role == r.info.party && r.product.curve == r.info.curve
    ensures WellFormed(kp) ==> Labelled(r) == Some(kp.(key := r.product)) && WellFormed(kp.(key := r.product))
  {
  }
}
