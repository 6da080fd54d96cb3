/** Sign sessions of cpp/src/bridge.cpp: a message is set, the worker takes it and signs, and the device
    share reads the signature as often as it likes. */
module SignSessions {
  import opened Common
  import opened Radix
  import opened Keys
  import opened Rendezvous
  import opened Workers

  /** What `sign` does with a message: the traffic it causes, and a DER signature, which is empty on the
      share that gets none, or an error. */
  datatype Protocol = Protocol(script: seq<Op>, result: Result<Bytes>)

  /** The protocol, the DER parser with the two coordinates it finds, and the coordinate width in bytes. */
  datatype Library = Library(sign: Bytes -> Protocol, parse: Bytes -> Result<(nat, nat)>, width: nat)

  datatype Format = Der | RawRs

  /** The fields of SignSessionImpl. */
  datatype SignState = SignState(
    session: Session, party: Party, message: Bytes, messageReady: bool,
    signatureReady: bool, der: Bytes, raw: Bytes)

  datatype Answer =
    | Silent
    | Looked(look: Look)
    | Accepted(msg: Bytes)
    | Signature(bytes: Bytes)
    | Refuses(code: ErrorCode)
    | Blocks

  /** The checks of SignSessionImpl's constructor: the keypair's kind, then the scheme asked for. By number,
      kind 0 signs as the first party and kind 1 as the second, and scheme 0 is the only one. */
  function NewSign(kp: Keypair, scheme: Code): (r: Result<Party>)
    ensures r.Ok? <==> kp.kind <= 1 && scheme == 0
    ensures r.Ok? ==> r.value == if kp.kind == 0 then P1 else P2
    ensures r.Err? ==> r.code == if kp.kind > 1 then InvalidArgument else Unsupported
  {
    match ToParty(kp.kind)
    case Err(code) => Err(code)
    case Ok(party) => if scheme != ECDSA_2P then Err(Unsupported) else Ok(party)
  }

  function SetMessage(s: SignState, msg: Bytes): (SignState, Answer) {
    if msg == [] then (s, Refuses(InvalidArgument))
    else if s.messageReady then (s, Refuses(ProtocolState))
    else (s.(message := msg, messageReady := true), Accepted(msg))
  }

  /** The worker takes the message and clears the flag: the session then looks as if none were set. */
  function TakeMessage(s: SignState): SignState {
    s.(message := [], messageReady := false)
  }

  function Raw(coordinates: (nat, nat), width: nat): (raw: Bytes)
    ensures |raw| == 2 * width
  {
    ToDigits(coordinates.0, 256, width) + ToDigits(coordinates.1, 256, width)
  }

  function StoreSignature(s: SignState, der: Bytes, coordinates: (nat, nat), width: nat): SignState {
    s.(der := der, raw := Raw(coordinates, width), signatureReady := true)
  }

  function Finalize(s: SignState, format: Format): Answer {
    match Ensure(s.session)
    case Throw(code) => Refuses(code)
    case Wait => Blocks
    case Return(_, _) =>
      if s.party != P1 then Refuses(ProtocolState)
      else if !s.signatureReady then Refuses(ProtocolState)
      else
        var src := if format == Der then s.der else s.raw;
        if src == [] then Refuses(ProtocolState) else Signature(src)
  }

  // ---- Whole runs ----

  /** A session in the middle of a run. `used` is the message that the worker has passed to the protocol. */
  datatype Signing = Signing(lib: Library, worker: Worker, fields: SignState, used: Option<Bytes>)

  function Begin(lib: Library, party: Party): Signing {
    Signing(lib, Start([], None), SignState(NEW_SESSION, party, [], false, false, [], []), None)
  }

  /** The fields, with the rendezvous as the worker has left it. */
  function View(r: Signing): SignState {
    r.fields.(session := r.worker.session)
  }

  /** How the worker ends: with the protocol's error, with the parser's, or well. */
  function OutcomeOf(lib: Library, msg: Bytes): (outcome: Option<ErrorCode>)
    ensures lib.sign(msg).result.Err? ==> outcome == Some(lib.sign(msg).result.code)
    ensures lib.sign(msg).result == Ok([]) ==> outcome == None
  {
    match lib.sign(msg).result
    case Err(code) => Some(code)
    case Ok(der) =>
      if der == [] then None
      else
        match lib.parse(der)
        case Err(code) => Some(code)
        case Ok(_) => None
  }

  /** The signature that the session holds once its worker has ended well, if it holds any. */
  function SignatureOf(lib: Library, msg: Bytes): (signature: Option<(Bytes, (nat, nat))>)
    ensures signature.Some? ==>
      var (der, coordinates) := signature.value;
      der != [] && lib.sign(msg).result == Ok(der) && lib.parse(der) == Ok(coordinates)
    ensures signature.None? && OutcomeOf(lib, msg).None? ==> lib.sign(msg).result == Ok([])
  {
    match lib.sign(msg).result
    case Err(_) => None
    case Ok(der) =>
      if der == [] then None
      else
        match lib.parse(der)
        case Err(_) => None
        case Ok(coordinates) => Some((der, coordinates))
  }

  datatype Call =
    | Takes
    | Moves
    | Pushes(msg: Bytes)
    | Looks(snapshot: nat)
    | Sets(msg: Bytes)
    | Finalizes(format: Format)

  ghost predicate Sound(r: Signing) {
    && Sane(r.worker)
    && (match r.used
        case None => r.worker.script == [] && r.worker.pc == Active && !r.fields.signatureReady
        case Some(msg) => r.worker.script == r.lib.sign(msg).script && r.worker.outcome == OutcomeOf(r.lib, msg))
    && (r.fields.signatureReady <==> r.used.Some? && r.worker.ready && SignatureOf(r.lib, r.used.value).Some?)
    && (r.fields.signatureReady ==>
          var (der, coordinates) := SignatureOf(r.lib, r.used.value).value;
          r.fields.der == der && r.fields.raw == Raw(coordinates, r.lib.width))
  }

  function Do(r: Signing, call: Call): (Signing, Answer)
    requires Sane(r.worker)
  {
    match call
    case Takes =>
      if r.used.Some? || !r.fields.messageReady then (r, Silent)
      else
        var msg := r.fields.message;
        var worker := r.worker.(script := r.lib.sign(msg).script, outcome := OutcomeOf(r.lib, msg));
        (Signing(r.lib, worker, TakeMessage(r.fields), Some(msg)), Silent)
    case Moves =>
      if r.used.None? || !CanMove(r.worker) then (r, Silent)
      else
        var next := r.(worker := Move(r.worker));
        var signature := SignatureOf(r.lib, r.used.value);
        if next.worker.ready && !r.worker.ready && signature.Some? then
          (next.(fields := StoreSignature(r.fields, signature.value.0, signature.value.1, r.lib.width)), Silent)
        else (next, Silent)
    case Pushes(msg) => (r.(worker := r.worker.(session := Push(r.worker.session, msg))), Silent)
    case Looks(snapshot) =>
      (r.(worker := r.worker.(session := Inspected(r.worker.session))), Looked(Inspect(r.worker.session, snapshot)))
    case Sets(msg) =>
      var (fields, answer) := SetMessage(r.fields, msg);
      (r.(fields := fields), answer)
    case Finalizes(format) => (r, Finalize(View(r), format))
  }

  lemma DoKeepsSound(r: Signing, call: Call)
    requires Sound(r)
    ensures Sound(Do(r, call).0)
    ensures Do(r, call).0.lib == r.lib && Do(r, call).0.fields.party == r.fields.party
    ensures r.used.Some? ==> Do(r, call).0.used == r.used
  {
    match call {
      case Takes => TakesKeepsSound(r);
      case Moves => MovesKeepsSound(r);
      case _ => hide Move, CanMove, SignatureOf, OutcomeOf, Raw;
    }
  }

  lemma TakesKeepsSound(r: Signing)
    requires Sound(r)
    ensures Sound(Do(r, Takes).0) && Do(r, Takes).0.lib == r.lib && Do(r, Takes).0.fields.party == r.fields.party
    ensures r.used.Some? ==> Do(r, Takes).0.used == r.used
  {
    hide Raw, SignatureOf;
  }

  lemma MovesKeepsSound(r: Signing)
    requires Sound(r)
    ensures Sound(Do(r, Moves).0) && Do(r, Moves).0.lib == r.lib && Do(r, Moves).0.fields.party == r.fields.party
    ensures r.used.Some? ==> Do(r, Moves).0.used == r.used
  {
    if r.used.Some? && CanMove(r.worker) {
      MoveKeepsSane(r.worker);
      MoveKeepsPlan(r.worker);
    }
    hide Raw, SignatureOf, OutcomeOf, Sane, Move, CanMove;
  }

  lemma MoveKeepsPlan(w: Worker)
    requires Sane(w) && CanMove(w)
    ensures Move(w).script == w.script && Move(w).outcome == w.outcome && (w.ready ==> Move(w).ready)
  {
  }

  ghost function Run(r: Signing, calls: seq<Call>): (result: (Signing, seq<Answer>))
    requires Sound(r)
    ensures Sound(result.0) && |result.1| == |calls|
    decreases |calls|
  {
    if calls == [] then (r, [])
    else
      DoKeepsSound(r, calls[0]);
      var (next, answer) := Do(r, calls[0]);
      var (end, answers) := Run(next, calls[1..]);
      (end, [answer] + answers)
  }

  function AcceptedIn(answers: seq<Answer>): seq<Bytes> {
    if answers == [] then []
    else (if answers[0].Accepted? then [answers[0].msg] else []) + AcceptedIn(answers[1..])
  }

  /** The messages accepted before a run goes on: the one in use, and the one that waits. */
  function Pending(r: Signing): seq<Bytes> {
    (if r.used.Some? then [r.used.value] else []) + (if r.fields.messageReady then [r.fields.message] else [])
  }

  lemma PendingGrows(r: Signing, call: Call)
    requires Sound(r)
    ensures Pending(Do(r, call).0) == Pending(r) + (if Do(r, call).1.Accepted? then [Do(r, call).1.msg] else [])
  {
  }

  lemma {:induction false} AcceptedArePending(r: Signing, calls: seq<Call>)
    requires Sound(r)
    ensures Pending(Run(r, calls).0) == Pending(r) + AcceptedIn(Run(r, calls).1)
    decreases |calls|
  {
    if calls != [] {
      DoKeepsSound(r, calls[0]);
      var (next, answer) := Do(r, calls[0]);
      PendingGrows(r, calls[0]);
      AcceptedArePending(next, calls[1..]);
      assert Run(r, calls).1 == [answer] + Run(next, calls[1..]).1;
      assert ([answer] + Run(next, calls[1..]).1)[1..] == Run(next, calls[1..]).1;
    }
  }

  /** In every interleaving of SetMessage with the worker, the protocol signs the first accepted message. A
      second message may be accepted, once the worker has taken the first, and is never used; a third never is
      accepted. */
  lemma FirstMessageIsSigned(lib: Library, party: Party, calls: seq<Call>)
    ensures var (end, answers) := Run(Begin(lib, party), calls);
      && (end.used.Some? ==> AcceptedIn(answers) != [] && end.used.value == AcceptedIn(answers)[0])
      && |AcceptedIn(answers)| <= (if end.used.Some? then 2 else 1)
      && (end.used.Some? ==> end.worker.script == lib.sign(AcceptedIn(answers)[0]).script)
  {
    AcceptedArePending(Begin(lib, party), calls);
    RunKeepsLibrary(Begin(lib, party), calls);
    var (end, answers) := Run(Begin(lib, party), calls);
    assert Pending(Begin(lib, party)) == [];
    assert AcceptedIn(answers) == Pending(end);
  }

  /** SetMessage does not succeed once only: when the worker has taken the first message, a second one is
      accepted. */
  lemma SecondMessageIsAccepted(lib: Library, party: Party, first: Bytes, second: Bytes)
    requires first != [] && second != []
    ensures AcceptedIn(Run(Begin(lib, party), [Sets(first), Takes, Sets(second)]).1) == [first, second]
  {
    var begin := Begin(lib, party);
    var waiting := Do(begin, Sets(first)).0;
    var taken := Do(waiting, Takes).0;
    assert [Sets(first), Takes, Sets(second)][1..] == [Takes, Sets(second)];
    assert [Takes, Sets(second)][1..] == [Sets(second)];
    assert [Sets(second)][1..] == [];
    DoKeepsSound(begin, Sets(first));
    DoKeepsSound(waiting, Takes);
    assert Run(taken, [Sets(second)]).1 == [Accepted(second)];
    assert Run(waiting, [Takes, Sets(second)]).1 == [Silent, Accepted(second)];
    assert Run(begin, [Sets(first), Takes, Sets(second)]).1 == [Accepted(first), Silent, Accepted(second)];
    assert [Accepted(second)][1..] == [];
    assert [Silent, Accepted(second)][1..] == [Accepted(second)];
    assert [Accepted(first), Silent, Accepted(second)][1..] == [Silent, Accepted(second)];
    assert AcceptedIn([Accepted(second)]) == [second] + AcceptedIn([]) == [second];
    assert AcceptedIn([Silent, Accepted(second)]) == [] + [second] == [second];
  }

  /** How a SetMessage that is not accepted is refused, in any run. */
  lemma SetMessageRefusals(r: Signing, calls: seq<Call>, i: nat)
    requires Sound(r) && i < |calls| && calls[i].Sets? && !Run(r, calls).1[i].Accepted?
    ensures Run(r, calls).1[i] == Refuses(if calls[i].msg == [] then InvalidArgument else ProtocolState)
  {
    AnswerComesFromState(r, calls, i);
  }

  /** When exactly a SetMessage is accepted, in any run: the message is not empty, and either none has been
      accepted before, or one has and the worker has taken it. */
  lemma AcceptedIff(lib: Library, party: Party, calls: seq<Call>, i: nat)
    requires i < |calls| && calls[i].Sets?
    ensures var (before, answers) := Run(Begin(lib, party), calls[..i]);
      Run(Begin(lib, party), calls).1[i].Accepted?
      <==> calls[i].msg != []
           && (AcceptedIn(answers) == [] || (|AcceptedIn(answers)| == 1 && before.used.Some?))
  {
    var begin := Begin(lib, party);
    AnswerComesFromState(begin, calls, i);
    AcceptedArePending(begin, calls[..i]);
    var (before, answers) := Run(begin, calls[..i]);
    assert Pending(begin) == [];
    assert AcceptedIn(answers) == Pending(before);
  }

  lemma {:induction false} RunKeepsLibrary(r: Signing, calls: seq<Call>)
    requires Sound(r)
    ensures Run(r, calls).0.lib == r.lib && Run(r, calls).0.fields.party == r.fields.party
    decreases |calls|
  {
    if calls != [] {
      DoKeepsSound(r, calls[0]);
      RunKeepsLibrary(Do(r, calls[0]).0, calls[1..]);
    }
  }

  /** The two forms of the signature of a message. */
  function FormOf(lib: Library, msg: Bytes, format: Format): Bytes
    requires SignatureOf(lib, msg).Some?
  {
    var (der, coordinates) := SignatureOf(lib, msg).value;
    if format == Der then der else Raw(coordinates, lib.width)
  }

  lemma {:induction false} AnswerComesFromState(r: Signing, calls: seq<Call>, i: nat)
    requires Sound(r) && i < |calls|
    ensures Run(r, calls).1[i] == Do(Run(r, calls[..i]).0, calls[i]).1
    ensures r.used.Some? ==> Run(r, calls[..i]).0.used == r.used
    decreases |calls|
  {
    DoKeepsSound(r, calls[0]);
    var (next, answer) := Do(r, calls[0]);
    assert Run(r, calls).1 == [answer] + Run(next, calls[1..]).1;
    if i == 0 {
      assert calls[..0] == [];
    } else {
      AnswerComesFromState(next, calls[1..], i - 1);
      assert calls[..i][0] == calls[0] && calls[..i][1..] == calls[1..][..i - 1];
    }
  }

  /** Whenever Finalize yields bytes, in whichever format and however often, they are the signature of the
      one message the worker took, and only the device share ever gets them. */
  lemma FinalizeIsStable(r: Signing, calls: seq<Call>, i: nat)
    requires Sound(r) && i < |calls| && calls[i].Finalizes? && Run(r, calls).1[i].Signature?
    ensures r.fields.party == P1
    ensures var at := Run(r, calls[..i]).0;
      && at.used.Some? && SignatureOf(r.lib, at.used.value).Some?
      && Run(r, calls).1[i].bytes == FormOf(r.lib, at.used.value, calls[i].format)
    ensures r.used.Some? ==> Run(r, calls[..i]).0.used == r.used
  {
    AnswerComesFromState(r, calls, i);
    RunKeepsLibrary(r, calls[..i]);
  }

  /** What a Finalize owes its caller. A failed session throws its failure and a running one blocks. When the
      worker has ended well the server's share is refused; the device's share gets the DER form as the protocol
      made it, or its two coordinates at full width, and is refused only if the protocol made no signature, or
      if coordinates have no width. */
  ghost predicate Owed(r: Signing, format: Format, answer: Answer) {
    if r.worker.session.fatal.Some? then answer == Refuses(r.worker.session.fatal.value)
    else if r.worker.pc != Over then answer == Blocks
    else if r.fields.party == P2 then answer == Refuses(ProtocolState)
    else
      && r.used.Some? && r.lib.sign(r.used.value).result.Ok?
      && var der := r.lib.sign(r.used.value).result.value;
         if der == [] then answer == Refuses(ProtocolState)
         else
           && r.lib.parse(der).Ok?
           && var (x, y) := r.lib.parse(der).value;
              answer == if format == Der then Signature(der)
                        else if r.lib.width == 0 then Refuses(ProtocolState)
                        else Signature(ToDigits(x, 256, r.lib.width) + ToDigits(y, 256, r.lib.width))
  }

  lemma FinalizeOwes(r: Signing, format: Format)
    requires Sound(r)
    ensures Owed(r, format, Finalize(View(r), format))
  {
  }

  /** Every Finalize of every run answers what it owes in the state it is called in; library and share are the
      ones the session was created with. */
  lemma FinalizeAnswers(r: Signing, calls: seq<Call>, i: nat)
    requires Sound(r) && i < |calls| && calls[i].Finalizes?
    ensures var at := Run(r, calls[..i]).0;
      at.lib == r.lib && at.fields.party == r.fields.party && Owed(at, calls[i].format, Run(r, calls).1[i])
  {
    hide Run, Sound, Finalize, View, Owed;
    AnswerComesFromState(r, calls, i);
    RunKeepsLibrary(r, calls[..i]);
    FinalizeOwes(Run(r, calls[..i]).0, calls[i].format);
  }

  /** Of the sessions created from keypairs only those of device keypairs ever yield a signature. */
  lemma SignatureGoesToDevice(kp: Keypair, scheme: Code, r: Signing, calls: seq<Call>, i: nat)
    requires Sound(r) && NewSign(kp, scheme) == Ok(r.fields.party)
    requires i < |calls| && Run(r, calls).1[i].Signature?
    ensures kp.kind == 0 && calls[i].Finalizes?
  {
    AnswerComesFromState(r, calls, i);
    if calls[i].Finalizes? {
      hide Run, Sound;
      FinalizeIsStable(r, calls, i);
    }
  }

  /** Two answers in one format are the same bytes. */
  lemma RepeatedFinalize(r: Signing, calls: seq<Call>, i: nat, j: nat)
    requires Sound(r) && i < j < |calls| && calls[i].Finalizes? && calls[j] == calls[i]
    requires Run(r, calls).1[i].Signature?
    ensures Run(r, calls).1[j] == Run(r, calls).1[i]
  {
    AnswerComesFromState(r, calls, i);
    AnswerComesFromState(r, calls, j);
    StaysFinal(r, calls, i, j);
  }

  ghost predicate SameAnswers(early: Signing, late: Signing) {
    forall format :: Finalize(View(late), format) == Finalize(View(early), format)
  }

  lemma EndedStaysFinal(r: Signing, call: Call)
    requires Sound(r) && r.worker.pc == Over && r.used.Some?
    ensures SameAnswers(r, Do(r, call).0)
    ensures Do(r, call).0.worker.pc == Over && Do(r, call).0.used.Some?
  {
  }

  lemma {:induction false} StaysFinal(r: Signing, calls: seq<Call>, i: nat, j: nat)
    requires Sound(r) && i <= j <= |calls|
    requires Run(r, calls[..i]).0.worker.pc == Over && Run(r, calls[..i]).0.used.Some?
    ensures SameAnswers(Run(r, calls[..i]).0, Run(r, calls[..j]).0)
    ensures Run(r, calls[..j]).0.worker.pc == Over && Run(r, calls[..j]).0.used.Some?
    decreases j - i
  {
    hide Do, Run, Finalize, View, Sound;
    if i < j {
      StaysFinal(r, calls, i, j - 1);
      RunOneMore(r, calls, j - 1);
      EndedStaysFinal(Run(r, calls[..j - 1]).0, calls[j - 1]);
    }
  }

  lemma {:induction false} RunOneMore(r: Signing, calls: seq<Call>, n: nat)
    requires Sound(r) && n < |calls|
    ensures Run(r, calls[..n + 1]).0 == Do(Run(r, calls[..n]).0, calls[n]).0
    decreases |calls|
  {
    DoKeepsSound(r, calls[0]);
    if n == 0 {
      assert calls[..0] == [] && calls[..1][1..] == [];
    } else {
      RunOneMore(Do(r, calls[0]).0, calls[1..], n - 1);
      assert calls[..n + 1][1..] == calls[1..][..n] && calls[..n][1..] == calls[1..][..n - 1];
    }
  }

  /** The raw form is the two coordinates that the parser finds in the DER form, each at the full width. */
  lemma RawSplits(lib: Library, msg: Bytes)
    requires SignatureOf(lib, msg).Some?
    ensures var raw := FormOf(lib, msg, RawRs);
      var (r, s) := SignatureOf(lib, msg).value.1;
      && lib.parse(FormOf(lib, msg, Der)) == Ok((r, s))
      && |raw| == 2 * lib.width
      && (r < Pow(256, lib.width) && s < Pow(256, lib.width) ==>
            Value(raw[..lib.width], 256) == r && Value(raw[lib.width..], 256) == s)
  {
    hide Pow, Value, ToDigits;
    var (r, s) := SignatureOf(lib, msg).value.1;
    var raw := Raw((r, s), lib.width);
    assert raw[..lib.width] == ToDigits(r, 256, lib.width) && raw[lib.width..] == ToDigits(s, 256, lib.width);
    if r < Pow(256, lib.width) && s < Pow(256, lib.width) {
      ToDigitsValue(r, 256, lib.width);
      ToDigitsValue(s, 256, lib.width);
    }
  }

  /** After a failure every Step and every Finalize throws it. */
  lemma FailureIsFinal(r: Signing, calls: seq<Call>, i: nat)
    requires Sound(r) && r.worker.session.fatal.Some? && i < |calls|
    ensures calls[i].Looks? ==> Run(r, calls).1[i] == Looked(Throw(r.worker.session.fatal.value))
    ensures calls[i].Finalizes? ==> Run(r, calls).1[i] == Refuses(r.worker.session.fatal.value)
  {
    AnswerComesFromState(r, calls, i);
    FailureStays(r, calls[..i]);
  }

  lemma {:induction false} FailureStays(r: Signing, calls: seq<Call>)
    requires Sound(r) && r.worker.session.fatal.Some?
    ensures Run(r, calls).0.worker.session.fatal == r.worker.session.fatal
    decreases |calls|
  {
    if calls != [] {
      DoKeepsSound(r, calls[0]);
      FailureStays(Do(r, calls[0]).0, calls[1..]);
    }
  }

  /** No run reaches a state that has failed and has a signature ready. */
  lemma NeverFailedAndReady(r: Signing, calls: seq<Call>)
    requires Sound(r)
    ensures !(Run(r, calls).0.worker.session.fatal.Some? && Run(r, calls).0.fields.signatureReady)
  {
  }
}
