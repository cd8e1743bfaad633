/**
 * A channel that forwards each call to one of several channels picked by the
 * simulator's random number generator, and closes all of them when closed.
 *
 * The random draw is a parameter: `index` is the value the generator gave
 * for the number of channels.
 */
module RandomChannels {
  import opened ByteStrings
  import opened Channels

  /** The peer name a random channel reports. */
  const RandomPeer: string := "Random"

  /** The effects of closing `channels` one after the other. */
  function ClosedAll(channels: seq<Channel>): (effects: seq<Effect>)
    ensures |effects| == |channels|
    ensures forall k :: 0 <= k < |channels| ==> effects[k] == Closed(channels[k].id)
  {
    if channels == [] then [] else ClosedAll(channels[..|channels| - 1]) + [Closed(channels[|channels| - 1].id)]
  }

  /** Closes `channels` one after the other, in order. */
  method CloseEach(channels: seq<Channel>, log: EffectLog)
    requires forall k :: 0 <= k < |channels| ==> channels[k].log == log
    modifies log
    ensures log.effects == old(log.effects) + ClosedAll(channels)
  {
    var k := 0;
    while k < |channels|
      invariant k <= |channels|
      invariant log.effects == old(log.effects) + ClosedAll(channels[..k])
    {
      assert channels[..k + 1][..k] == channels[..k];
      channels[k].Close();
      k := k + 1;
    }
    assert channels[..k] == channels;
  }

  class RandomChannel {
    var channels: seq<Channel>
    /** The log shared by every wrapped channel. */
    const log: EffectLog

    ghost predicate Valid()
      reads this
    {
      forall k :: 0 <= k < |channels| ==> channels[k].log == log
    }

    constructor (channels: seq<Channel>, log: EffectLog)
      requires forall k :: 0 <= k < |channels| ==> channels[k].log == log
      ensures Valid() && this.channels == channels && this.log == log
    {
      this.channels := channels;
      this.log := log;
    }

    /** Forwards the call to `channels[index]`; there must be a channel to pick. */
    method Call(methodName: string, input: BytesValue, index: nat)
      requires Valid() && index < |channels|
      modifies log
      ensures log.effects == old(log.effects) + [Forwarded(channels[index].id, methodName, input)]
    {
      channels[index].Call(methodName, input);
    }

    function Peer(): (peer: string)
      ensures peer == RandomPeer
    {
      RandomPeer
    }

    /** Closes every channel, in order, then forgets them. */
    method Close()
      requires Valid()
      modifies this, log
      ensures Valid() && channels == []
      ensures log.effects == old(log.effects) + ClosedAll(old(channels))
    {
      CloseEach(channels, log);
      channels := [];
    }

    /** The destructor closes the channel. */
    method Destroy()
      requires Valid()
      modifies this, log
      ensures Valid() && channels == []
      ensures log.effects == old(log.effects) + ClosedAll(old(channels))
    {
      Close();
    }
  }

  /** A second Close closes nothing more. */
  method CloseTwice(c: RandomChannel)
    requires c.Valid()
    modifies c, c.log
    ensures c.channels == []
    ensures c.log.effects == old(c.log.effects) + ClosedAll(old(c.channels))
  {
    c.Close();
    c.Close();
  }
}
