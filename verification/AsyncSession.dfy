/** The object AsyncSession of cpp/src/bridge.cpp: its fields, and its lock-held regions as methods. A method
    that the code ends with a wait answers Wait instead and is to be called again. */
module AsyncSessions {
  import opened Common
  import Rendezvous

  class AsyncSession {
    var outbound: Option<Bytes>
    var inboundQueue: seq<Bytes>
    var waitingForInbound: bool
    var waitRequestId: nat
    var fatal: Option<ErrorCode>
    var aborted: bool
    var workerDone: bool

    function State(): Rendezvous.Session
      reads this
    {
      Rendezvous.Session(outbound, inboundQueue, waitingForInbound, waitRequestId, fatal, aborted, workerDone)
    }

    constructor ()
      ensures State() == Rendezvous.NEW_SESSION
    {
      outbound, inboundQueue, waitingForInbound, waitRequestId := None, [], false, 0;
      fatal, aborted, workerDone := None, false, false;
    }

    method OnSend(msg: Bytes)
      modifies this
      ensures State() == Rendezvous.OnSend(old(State()), msg)
    {
      outbound := Some(msg);
    }

    method EnterReceive()
      modifies this
      ensures State() == Rendezvous.EnterReceive(old(State()))
    {
      waitingForInbound := true;
      waitRequestId := waitRequestId + 1;
    }

    method LeaveReceive() returns (msg: Result<Bytes>)
      requires Rendezvous.MayReceive(State())
      modifies this
      ensures msg == Rendezvous.Received(old(State())) && State() == Rendezvous.LeaveReceive(old(State()))
    {
      if fatal.Some? {
        return Err(General);
      }
      if aborted {
        return Err(General);
      }
      msg := Ok(inboundQueue[0]);
      inboundQueue := inboundQueue[1..];
      waitingForInbound := false;
    }

    method Fail(code: ErrorCode)
      modifies this
      ensures State() == Rendezvous.Fail(old(State()), code)
    {
      if fatal.None? {
        fatal := Some(code);
      }
      aborted := true;
    }

    method Exit()
      modifies this
      ensures State() == Rendezvous.Exit(old(State()))
    {
      workerDone := true;
    }

    /** The push at the start of AwaitStep: an empty message is a message too. */
    method PushInbound(inbound: Option<Bytes>)
      modifies this
      ensures State() == if inbound.Some? then Rendezvous.Push(old(State()), inbound.value) else old(State())
    {
      if inbound.Some? && inbound.value != [] {
        inboundQueue := inboundQueue + [inbound.value];
      } else if inbound.Some? && inbound.value == [] {
        inboundQueue := inboundQueue + [[]];
      }
    }

    /** One round of the loop in AwaitStep. */
    method Inspect(snapshot: nat) returns (look: Rendezvous.Look)
      modifies this
      ensures look == Rendezvous.Inspect(old(State()), snapshot) && State() == Rendezvous.Inspected(old(State()))
    {
      if fatal.Some? {
        return Rendezvous.Throw(fatal.value);
      }
      if outbound.Some? {
        var data := outbound;
        outbound := None;
        return Rendezvous.Return(data, workerDone);
      }
      if workerDone {
        return Rendezvous.Return(None, true);
      }
      if waitingForInbound && waitRequestId > snapshot {
        return Rendezvous.Return(None, false);
      }
      return Rendezvous.Wait;
    }

    method EnsureWorkerFinished() returns (look: Rendezvous.Look)
      ensures look == Rendezvous.Ensure(State())
    {
      if !(workerDone || fatal.Some?) {
        return Rendezvous.Wait;
      }
      if fatal.Some? {
        return Rendezvous.Throw(fatal.value);
      }
      return Rendezvous.Return(None, true);
    }
  }
}
