/** The object SignSessionImpl of cpp/src/bridge.cpp, with the regions that its two locks guard as methods. */
module SignSessionObjects {
  import opened Common
  import opened Radix
  import opened Keys
  import opened Rendezvous
  import opened AsyncSessions
  import SignSessions

  class SignSession {
    const party: Party
    const async: AsyncSession
    var message: Bytes
    var messageReady: bool
    var signatureReady: bool
    var signatureDer: Bytes
    var signatureRaw: Bytes

    function State(): SignSessions.SignState
      reads this, async
    {
      SignSessions.SignState(async.State(), party, message, messageReady, signatureReady, signatureDer, signatureRaw)
    }

    constructor (party: Party)
      ensures fresh(async)
      ensures State() == SignSessions.SignState(NEW_SESSION, party, [], false, false, [], [])
    {
      this.party := party;
      async := new AsyncSession();
      message, messageReady, signatureReady := [], false, false;
      signatureDer, signatureRaw := [], [];
    }

    /** SignSessionImpl's constructor: a session, or the error of the first check that fails. */
    static method CreateSign(kp: Keypair, scheme: Code) returns (r: Result<SignSession>)
      ensures SignSessions.NewSign(kp, scheme).Err? ==> r == Err(SignSessions.NewSign(kp, scheme).code)
      ensures SignSessions.NewSign(kp, scheme).Ok? ==>
        && r.Ok? && fresh(r.value) && fresh(r.value.async)
        && r.value.State() == SignSessions.SignState(
             NEW_SESSION, SignSessions.NewSign(kp, scheme).value, [], false, false, [], [])
    {
      var party := ToParty(kp.kind);
      if party.Err? {
        return Err(party.code);
      }
      if scheme != ECDSA_2P {
        return Err(Unsupported);
      }
      var session := new SignSession(party.value);
      return Ok(session);
    }

    method SetMessage(msg: Bytes) returns (answer: SignSessions.Answer)
      modifies this
      ensures (State(), answer) == SignSessions.SetMessage(old(State()), msg)
    {
      if msg == [] {
        return SignSessions.Refuses(InvalidArgument);
      }
      if messageReady {
        return SignSessions.Refuses(ProtocolState);
      }
      message := msg;
      messageReady := true;
      return SignSessions.Accepted(msg);
    }

    method TakeMessage() returns (msg: Bytes)
      modifies this
      ensures msg == old(message) && State() == SignSessions.TakeMessage(old(State()))
    {
      msg := message;
      message := [];
      messageReady := false;
    }

    /** The two coordinates are copied side by side into one buffer. */
    method StoreSignature(der: Bytes, coordinates: (nat, nat), width: nat)
      modifies this
      ensures State() == SignSessions.StoreSignature(old(State()), der, coordinates, width)
    {
      signatureDer := der;
      var rBin: Bytes, sBin: Bytes := ToDigits(coordinates.0, 256, width), ToDigits(coordinates.1, 256, width);
      var raw := new Byte[width * 2];
      forall i | 0 <= i < width {
        raw[i] := rBin[i];
      }
      forall i | 0 <= i < width {
        raw[width + i] := sBin[i];
      }
      assert raw[..] == rBin + sBin;
      signatureRaw := raw[..];
      signatureReady := true;
    }

    method FinalizeSignature(format: SignSessions.Format) returns (answer: SignSessions.Answer)
      ensures answer == SignSessions.Finalize(State(), format)
    {
      var ended := async.EnsureWorkerFinished();
      if ended.Throw? {
        return SignSessions.Refuses(ended.code);
      }
      if ended.Wait? {
        return SignSessions.Blocks;
      }
      if party != P1 {
        return SignSessions.Refuses(ProtocolState);
      }
      if !signatureReady {
        return SignSessions.Refuses(ProtocolState);
      }
      var src := if format == SignSessions.Der then signatureDer else signatureRaw;
      if src == [] {
        return SignSessions.Refuses(ProtocolState);
      }
      return SignSessions.Signature(src);
    }
  }
}
