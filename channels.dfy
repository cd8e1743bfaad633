/**
 * A stand-in for the RPC channel interface (Call, Close, Peer). The channel
 * implementations behind the interface are not part of this model; a stand-in
 * channel only records, in a log shared by all channels, the calls it is asked
 * to forward and the moments it is closed, so that wrappers around channels
 * can be specified by what they ask of the channels they wrap.
 */
module Channels {
  import opened ByteStrings

  /** What a channel was asked to do, in order. */
  datatype Effect =
    | Forwarded(channel: nat, methodName: string, input: BytesValue)
    | Closed(channel: nat)

  class EffectLog {
    var effects: seq<Effect>

    constructor ()
      ensures effects == []
    {
      effects := [];
    }
  }

  class Channel {
    const id: nat
    const peer: string
    const log: EffectLog

    constructor (id: nat, peer: string, log: EffectLog)
      ensures this.id == id && this.peer == peer && this.log == log
    {
      this.id := id;
      this.peer := peer;
      this.log := log;
    }

    /** Sends one request; the reply (a future) is not modelled. */
    method Call(methodName: string, input: BytesValue)
      modifies log
      ensures log.effects == old(log.effects) + [Forwarded(id, methodName, input)]
    {
      log.effects := log.effects + [Forwarded(id, methodName, input)];
    }

    method Close()
      modifies log
      ensures log.effects == old(log.effects) + [Closed(id)]
    {
      log.effects := log.effects + [Closed(id)];
    }

    function Peer(): string {
      peer
    }
  }
}
