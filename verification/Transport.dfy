/** InMemoryTransport of packages/coordinator-node/src/transport.ts: one queue of payloads per participant. */
module Transports {
  import opened Common
  import opened TwoParty

  class InMemoryTransport {
    var queues: Pair<seq<Bytes>>

    constructor ()
      ensures queues == Pair([], [])
    {
      queues := Pair([], []);
    }

    method Send(participant: Participant, payload: Bytes)
      modifies this
      ensures queues == old(queues).Put(participant, old(queues).Get(participant) + [payload])
    {
      queues := queues.Put(participant, queues.Get(participant) + [payload]);
    }

    method Receive(participant: Participant) returns (payload: Option<Bytes>)
      modifies this
      ensures old(queues).Get(participant) == [] ==> payload == None && queues == old(queues)
      ensures old(queues).Get(participant) != [] ==>
        payload == Some(old(queues).Get(participant)[0])
        && queues == old(queues).Put(participant, old(queues).Get(participant)[1..])
    {
      var queue := queues.Get(participant);
      if |queue| == 0 {
        return None;
      }
      queues := queues.Put(participant, queue[1..]);
      return Some(queue[0]);
    }
  }
}
