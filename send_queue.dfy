/**
 * The local send side of a multiplexed connection, as its tests pin it down:
 * a fixed list of channel descriptors, one bounded send queue per channel,
 * Send/TrySend/CanSend against those queues, and a writer routine that takes
 * queued messages off toward the wire.
 */
module Connection {
  import opened Bytes

  /** A logical channel's configuration. */
  datatype ChannelDescriptor = ChannelDescriptor(
    id: Byte,
    priority: int,
    sendQueueCapacity: nat,
    recvMessageCapacity: nat)

  datatype ConnState = Created | Running | Stopped

  /** The channel index of a connection: a later descriptor with the same ID replaces an earlier one. */
  function ChannelIndex(descs: seq<ChannelDescriptor>): (idx: map<Byte, nat>)
    ensures idx.Keys == set d | d in descs :: d.id
    ensures |descs| > 0 ==> idx[descs[|descs| - 1].id] == descs[|descs| - 1].sendQueueCapacity
  {
    if descs == [] then map[]
    else
      var last := descs[|descs| - 1];
      assert descs == descs[..|descs| - 1] + [last];
      ChannelIndex(descs[..|descs| - 1])[last.id := last.sendQueueCapacity]
  }

  /**
   * Each channel's capacity is the one its last descriptor gives: a later
   * descriptor with the same ID overrides every earlier one.
   */
  lemma {:induction false} ChannelIndexLastWins(descs: seq<ChannelDescriptor>)
    ensures forall k :: 0 <= k < |descs| && (forall j :: k < j < |descs| ==> descs[j].id != descs[k].id) ==>
      ChannelIndex(descs)[descs[k].id] == descs[k].sendQueueCapacity
  {
    if descs != [] {
      var n := |descs| - 1;
      var pre := descs[..n];
      ChannelIndexLastWins(pre);
      forall k | 0 <= k < |descs| && (forall j :: k < j < |descs| ==> descs[j].id != descs[k].id)
        ensures ChannelIndex(descs)[descs[k].id] == descs[k].sendQueueCapacity
      {
        if k < n {
          assert pre[k] == descs[k];
          assert forall j :: k < j < |pre| ==> pre[j] == descs[j];
          assert descs[n].id != descs[k].id;
        }
      }
    }
  }

  class MConnection {
    /** Send-queue capacity of every registered channel. */
    const capacity: map<Byte, nat>
    /** The messages waiting in each channel's send queue, oldest first. */
    var queues: map<Byte, seq<Bytes>>
    /** The messages the writer routine has taken off the queues, in order. */
    var written: seq<(Byte, Bytes)>
    var state: ConnState

    ghost predicate Valid()
      reads this
    {
      && queues.Keys == capacity.Keys
      && forall ch :: ch in queues ==> |queues[ch]| <= capacity[ch]
    }

    /** NewMConnectionWithConfig: one empty queue per described channel. */
    constructor (descs: seq<ChannelDescriptor>)
      ensures Valid() && state == Created && written == []
      ensures capacity == ChannelIndex(descs)
      ensures forall ch :: ch in queues ==> queues[ch] == []
    {
      var idx := ChannelIndex(descs);
      capacity := idx;
      queues := map ch | ch in idx :: [];
      written := [];
      state := Created;
    }

    /** Start: a created connection starts running; any other state refuses. */
    method Start() returns (ok: bool)
      requires Valid()
      modifies this`state
      ensures Valid()
      ensures ok <==> old(state) == Created
      ensures state == if ok then Running else old(state)
    {
      ok := state == Created;
      if ok {
        state := Running;
      }
    }

    /** Stop: a running connection stops; queued data is abandoned. */
    method Stop()
      requires Valid()
      modifies this`state
      ensures Valid()
      ensures state == if old(state) == Running then Stopped else old(state)
    {
      if state == Running {
        state := Stopped;
      }
    }

    /** CanSend: the connection runs, the channel is known and its queue has room. */
    function CanSend(ch: Byte): (can: bool)
      reads this
      requires Valid()
      ensures can ==> ch in capacity && |queues[ch]| < capacity[ch]
      ensures ch !in capacity ==> !can
      ensures state != Running ==> !can
    {
      state == Running && ch in queues && |queues[ch]| < capacity[ch]
    }

    /**
     * TrySend: enqueues `msg` when CanSend holds and returns false at once
     * otherwise, with no side effect.
     */
    method TrySend(ch: Byte, msg: Bytes) returns (ok: bool)
      requires Valid()
      modifies this`queues
      ensures Valid()
      ensures ok == old(CanSend(ch))
      ensures ok ==> queues == old(queues)[ch := old(queues)[ch] + [msg]]
      ensures !ok ==> queues == old(queues)
    {
      ok := CanSend(ch);
      if ok {
        queues := queues[ch := queues[ch] + [msg]];
      }
    }

    /**
     * Send: like TrySend, except that on a full queue it waits for the
     * writer. `writerDrains` says whether the writer takes the oldest queued
     * message off that queue before the send times out; if it does not,
     * Send returns false. An unknown channel or a connection that is not
     * running fails at once.
     */
    method Send(ch: Byte, msg: Bytes, writerDrains: bool) returns (ok: bool)
      requires Valid()
      modifies this`queues, this`written
      ensures Valid()
      ensures ch !in capacity || old(state) != Running ==> !ok && queues == old(queues) && written == old(written)
      ensures old(CanSend(ch)) ==> ok && queues == old(queues)[ch := old(queues)[ch] + [msg]] && written == old(written)
      ensures ok <==> old(CanSend(ch)) || (old(state) == Running && ch in capacity && writerDrains && old(queues)[ch] != [])
      ensures ok && !old(CanSend(ch)) ==>
        && queues == old(queues)[ch := old(queues)[ch][1..] + [msg]]
        && written == old(written) + [(ch, old(queues)[ch][0])]
      ensures !ok ==> queues == old(queues) && written == old(written)
    {
      if state != Running || ch !in queues {
        return false;
      }
      if |queues[ch]| < capacity[ch] {
        queues := queues[ch := queues[ch] + [msg]];
        return true;
      }
      if writerDrains && queues[ch] != [] {
        Drain(ch);
        queues := queues[ch := queues[ch] + [msg]];
        return true;
      }
      return false;
    }

    /**
     * The writer routine takes the oldest message of channel `ch` off its
     * queue and writes it out; an empty or unknown queue is left alone.
     */
    method Drain(ch: Byte)
      requires Valid()
      modifies this`queues, this`written
      ensures Valid()
      ensures ch in old(queues) && old(queues)[ch] != [] ==>
        && queues == old(queues)[ch := old(queues)[ch][1..]]
        && written == old(written) + [(ch, old(queues)[ch][0])]
      ensures ch !in old(queues) || old(queues)[ch] == [] ==> queues == old(queues) && written == old(written)
    {
      if ch in queues && queues[ch] != [] {
        written := written + [(ch, queues[ch][0])];
        queues := queues[ch := queues[ch][1..]];
      }
    }
  }

  /** The single channel the connection tests register: ID 0x01, capacity 1. */
  function TestChannels(): seq<ChannelDescriptor>
  {
    [ChannelDescriptor(0x01, 1, 1, 0)]
  }

  /** A started connection over the test channel: running, with an empty queue of capacity 1. */
  method StartedTestConnection() returns (c: MConnection)
    ensures fresh(c) && c.Valid() && c.state == Running
    ensures c.capacity == map[0x01 := 1] && c.queues == map[0x01 := []] && c.written == []
  {
    c := new MConnection(TestChannels());
    assert c.queues == map[0x01 := []];
    var started := c.Start();
  }

  /**
   * A send into a full queue while the writer drains it: the first message
   * goes out on the wire and the second takes its place in the queue.
   */
  method DrainingSendScenario(m1: Bytes, m2: Bytes) returns (first: bool, second: bool, c: MConnection)
    ensures first && second
    ensures 0x01 in c.queues && c.queues[0x01] == [m2] && c.written == [(0x01, m1)]
  {
    c := StartedTestConnection();
    first := c.Send(0x01, m1, false);
    second := c.Send(0x01, m2, true);
  }

  /**
   * The send/CanSend/TrySend sequence of the connection's send test: a send
   * succeeds, once the writer drains it there is room again, and channel
   * 0x05, which is not registered, refuses both CanSend and Send. The
   * payloads are arbitrary (the test sends "Ant-Man", "Spider-Man" and
   * "Absorbing Man").
   */
  method SendScenario(m1: Bytes, m2: Bytes, m3: Bytes) returns (sent: bool, canAfterDrain: bool, trySent: bool, canUnknown: bool, sentUnknown: bool)
    ensures sent && canAfterDrain && trySent
    ensures !canUnknown && !sentUnknown
  {
    var c := StartedTestConnection();
    sent := c.Send(0x01, m1, false);
    assert c.queues[0x01] == [m1];
    c.Drain(0x01);
    assert c.queues[0x01] == [];
    canAfterDrain := c.CanSend(0x01);
    trySent := c.TrySend(0x01, m2);
    canUnknown, sentUnknown := UnregisteredRefused(c, 0x05, m3);
  }

  /** A channel the connection does not know refuses both CanSend and Send. */
  method UnregisteredRefused(c: MConnection, ch: Byte, msg: Bytes) returns (can: bool, sent: bool)
    requires c.Valid() && ch !in c.capacity
    modifies c
    ensures !can && !sent
  {
    can := c.CanSend(ch);
    sent := c.Send(ch, msg, true);
  }

  /**
   * The TrySend test: with queue capacity 1, one message that has not been
   * drained makes CanSend false and a further TrySend fail, whatever the
   * payload (the test sends "Semicolon-Woman").
   */
  method TrySendScenario(msg: Bytes) returns (first: bool, canAfterDrain: bool, second: bool, canFull: bool, third: bool)
    ensures first && canAfterDrain && second
    ensures !canFull && !third
  {
    var c := StartedTestConnection();
    first := c.TrySend(0x01, msg);
    assert c.queues[0x01] == [msg];
    c.Drain(0x01);
    assert c.queues[0x01] == [];
    canAfterDrain := c.CanSend(0x01);
    second := c.TrySend(0x01, msg);
    assert |c.queues[0x01]| == 1;
    canFull := c.CanSend(0x01);
    third := c.TrySend(0x01, msg);
  }

  /**
   * The unknown-channel read-error test's client side: with channels 0x01
   * and 0x02 registered, a send on 0x03 fails and a send on 0x02 succeeds.
   */
  method UnknownChannelScenario(msg: Bytes) returns (sentUnknown: bool, sentKnown: bool)
    ensures !sentUnknown && sentKnown
  {
    var c := new MConnection([ChannelDescriptor(0x01, 1, 1, 0), ChannelDescriptor(0x02, 1, 1, 0)]);
    var started := c.Start();
    sentUnknown := c.Send(0x03, msg, false);
    sentKnown := c.Send(0x02, msg, false);
  }
}
