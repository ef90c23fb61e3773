/**
 * The deterministic part of the mempool gossip reactor: the channels it
 * registers, the priority snapshot it cuts to a byte budget, the decision
 * each broadcast routine takes for one transaction, and the handling of an
 * inbound batch. The goroutines, timers and signal channels around these
 * are not modelled; the peer's state, the pool's answers and the outcome of
 * each send are inputs.
 */
module MempoolReactor {
  import opened Wrappers
  import opened Bytes
  import opened MempoolIds
  import Connection

  type Tx = Bytes

  /** The mempool's own channel (defined in the mempool package as 0x30). */
  const MempoolChannel: Byte := 0x30

  /** The reactor's second channel. */
  const MempoolPriorityChannel: Byte := 0x80

  /** Byte budget of one priority snapshot: 2 MiB. */
  const PriorityBroadcastMaxBytes: nat := 2 * 1024 * 1024

  /** The reactor gives both of its channels this priority. */
  const ChannelPriority: int := 5

  /**
   * A pool entry as the reactor sees it: the transaction, the height at
   * which it entered the pool, its size, and the peers the pool records as
   * already having it.
   */
  datatype WrappedTx = WrappedTx(tx: Tx, height: int, size: nat, peers: set<nat>)

  predicate HasPeer(w: WrappedTx, peerID: nat)
  {
    peerID in w.peers
  }

  /** The height-lag gate: the peer is at most one block behind the entry. */
  predicate CaughtUp(peerHeight: int, w: WrappedTx)
  {
    !(peerHeight < w.height - 1)
  }

  /** A message handed to the switch for one peer. */
  datatype Envelope = Envelope(channel: Byte, txs: seq<Tx>)

  // ---------------------------------------------------------------------
  // Channels

  /**
   * GetChannels: the two channels the reactor registers. The receive
   * capacity is the encoded size of a batch holding one largest
   * transaction, computed by the protobuf library and passed in here.
   */
  function GetChannels(batchMsgSize: nat): (chs: seq<Connection.ChannelDescriptor>)
    ensures |chs| == 2 && chs[0].id != chs[1].id
    ensures chs[0].id == MempoolChannel && chs[1].id == MempoolPriorityChannel
    ensures forall c :: c in chs ==> c.priority == ChannelPriority && c.recvMessageCapacity == batchMsgSize
  {
    [ Connection.ChannelDescriptor(MempoolChannel, ChannelPriority, 0, batchMsgSize),
      Connection.ChannelDescriptor(MempoolPriorityChannel, ChannelPriority, 0, batchMsgSize) ]
  }

  // ---------------------------------------------------------------------
  // Priority snapshot

  /** Total size of a sequence of entries. */
  function TotalSize(txs: seq<WrappedTx>): nat
  {
    if txs == [] then 0 else TotalSize(txs[..|txs| - 1]) + txs[|txs| - 1].size
  }

  /** Longer prefixes are never smaller. */
  lemma {:induction false} TotalSizeMonotone(txs: seq<WrappedTx>, i: nat, j: nat)
    requires i <= j <= |txs|
    ensures TotalSize(txs[..i]) <= TotalSize(txs[..j])
    decreases j - i
  {
    if i < j {
      TotalSizeMonotone(txs, i, j - 1);
      assert txs[..j][..j - 1] == txs[..j - 1];
    }
  }

  /**
   * The truncation loop of the priority routine: keeps the longest prefix of
   * the priority-sorted entries whose total size fits the 2 MiB budget.
   */
  method TruncateSnapshot(sorted: seq<WrappedTx>) returns (snapshot: seq<WrappedTx>)
    ensures |snapshot| <= |sorted| && snapshot == sorted[..|snapshot|]
    ensures TotalSize(snapshot) <= PriorityBroadcastMaxBytes
    ensures forall k :: |snapshot| < k <= |sorted| ==> TotalSize(sorted[..k]) > PriorityBroadcastMaxBytes
    ensures TotalSize(sorted) <= PriorityBroadcastMaxBytes ==> snapshot == sorted
  {
    snapshot := sorted;
    var totalSize := 0;
    var i := 0;
    while i < |sorted|
      invariant 0 <= i <= |sorted|
      invariant snapshot == sorted
      invariant totalSize == TotalSize(sorted[..i]) <= PriorityBroadcastMaxBytes
    {
      assert sorted[..i + 1][..i] == sorted[..i];
      totalSize := totalSize + sorted[i].size;
      if totalSize > PriorityBroadcastMaxBytes {
        snapshot := sorted[..i];
        forall k | i < k <= |sorted|
          ensures TotalSize(sorted[..k]) > PriorityBroadcastMaxBytes
        {
          TotalSizeMonotone(sorted, i + 1, k);
        }
        return;
      }
      i := i + 1;
    }
    assert sorted[..|sorted|] == sorted;
  }

  // ---------------------------------------------------------------------
  // Send decisions

  /** What one iteration of a broadcast routine does. */
  datatype Step = Step(attempt: Option<Envelope>, delivered: bool, next: nat)

  /** The single-transaction message both routines send. */
  function TxEnvelope(w: WrappedTx): Envelope
  {
    Envelope(MempoolChannel, [w.tx])
  }

  /** What the flood routine observes at one iteration. */
  datatype FloodView = FloodView(peerHeight: Option<int>, sendOk: bool)

  /**
   * One iteration of the flood routine with its cursor at `cursor` in the
   * pool's insertion-ordered list. A cursor at the end waits for the next
   * entry. An unknown peer state, a lagging peer or a failed send leave the
   * cursor where it is, so the same entry is retried; an entry the pool
   * already records for the peer is passed over; a successful send moves on.
   */
  function FloodStep(list: seq<WrappedTx>, cursor: nat, peerID: nat, view: FloodView): (r: Step)
    ensures r.next == cursor || r.next == cursor + 1
    ensures r.attempt.Some? <==>
      cursor < |list| && view.peerHeight.Some? && CaughtUp(view.peerHeight.value, list[cursor]) && !HasPeer(list[cursor], peerID)
    ensures r.attempt.Some? ==> r.attempt.value == TxEnvelope(list[cursor])
    ensures r.delivered <==> r.attempt.Some? && view.sendOk
    ensures r.next == cursor + 1 <==>
      cursor < |list| && view.peerHeight.Some? && CaughtUp(view.peerHeight.value, list[cursor])
      && (HasPeer(list[cursor], peerID) || view.sendOk)
  {
    if cursor >= |list| then Step(None, false, cursor)
    else match view.peerHeight
      case None => Step(None, false, cursor)
      case Some(h) =>
        var memTx := list[cursor];
        if h < memTx.height - 1 then Step(None, false, cursor)
        else if HasPeer(memTx, peerID) then Step(None, false, cursor + 1)
        else if !view.sendOk then Step(Some(TxEnvelope(memTx)), false, cursor)
        else Step(Some(TxEnvelope(memTx)), true, cursor + 1)
  }

  /** Runs the flood routine for one iteration per view; returns the final cursor and what was delivered. */
  function FloodRun(list: seq<WrappedTx>, cursor: nat, peerID: nat, views: seq<FloodView>): (nat, seq<Tx>)
    decreases |views|
  {
    if views == [] then (cursor, [])
    else
      var step := FloodStep(list, cursor, peerID, views[0]);
      var (final, rest) := FloodRun(list, step.next, peerID, views[1..]);
      (final, (if step.delivered then [list[cursor].tx] else []) + rest)
  }

  /**
   * The flood routine never skips an entry: every entry its cursor moved
   * past was either already recorded for the peer or delivered to it, and
   * every delivered transaction comes from the list at or after the start.
   */
  lemma {:induction false} FloodRunNoGaps(list: seq<WrappedTx>, cursor: nat, peerID: nat, views: seq<FloodView>)
    requires cursor <= |list|
    decreases |views|
    ensures cursor <= FloodRun(list, cursor, peerID, views).0 <= |list|
    ensures FloodRun(list, cursor, peerID, views).0 <= cursor + |views|
    ensures forall j :: cursor <= j < FloodRun(list, cursor, peerID, views).0 ==>
      HasPeer(list[j], peerID) || list[j].tx in FloodRun(list, cursor, peerID, views).1
    ensures forall t :: t in FloodRun(list, cursor, peerID, views).1 ==>
      exists j :: cursor <= j < |list| && list[j].tx == t && !HasPeer(list[j], peerID)
  {
    if views != [] {
      var step := FloodStep(list, cursor, peerID, views[0]);
      FloodRunNoGaps(list, step.next, peerID, views[1..]);
      var (final, rest) := FloodRun(list, step.next, peerID, views[1..]);
      var head := if step.delivered then [list[cursor].tx] else [];
      assert FloodRun(list, cursor, peerID, views) == (final, head + rest);
      forall j | cursor <= j < final
        ensures HasPeer(list[j], peerID) || list[j].tx in head + rest
      {
        if j < step.next {
          assert HasPeer(list[j], peerID) || list[j].tx in head;
        }
      }
    }
  }

  /** What the priority routine observes for one snapshot entry. */
  datatype PriorityView = PriorityView(inMempool: bool, peerHeight: int, sendOk: bool)

  /**
   * One iteration of the priority routine's loop over the snapshot. Unlike
   * the flood routine it always moves to the next entry, whether the entry
   * has left the pool, the peer lags, the peer already has it, or the send
   * fails. It sends on the mempool channel, not on the priority channel.
   */
  function PriorityStep(snapshot: seq<WrappedTx>, i: nat, peerID: nat, view: PriorityView): (r: Step)
    requires i < |snapshot|
    ensures r.next == i + 1
    ensures r.attempt.Some? <==> view.inMempool && CaughtUp(view.peerHeight, snapshot[i]) && !HasPeer(snapshot[i], peerID)
    ensures r.attempt.Some? ==> r.attempt.value == TxEnvelope(snapshot[i]) && r.attempt.value.channel != MempoolPriorityChannel
    ensures r.delivered <==> r.attempt.Some? && view.sendOk
  {
    var memTx := snapshot[i];
    if !view.inMempool then Step(None, false, i + 1)
    else if view.peerHeight < memTx.height - 1 then Step(None, false, i + 1)
    else if HasPeer(memTx, peerID) then Step(None, false, i + 1)
    else if !view.sendOk then Step(Some(TxEnvelope(memTx)), false, i + 1)
    else Step(Some(TxEnvelope(memTx)), true, i + 1)
  }

  /** An entry the priority routine delivers: still pooled, peer caught up, not yet the peer's, and the send succeeds. */
  predicate PriorityEligible(w: WrappedTx, peerID: nat, view: PriorityView)
  {
    view.inMempool && CaughtUp(view.peerHeight, w) && !HasPeer(w, peerID) && view.sendOk
  }

  /** The transactions of the eligible snapshot entries, in snapshot order. */
  function PriorityEligibleTxs(snapshot: seq<WrappedTx>, peerID: nat, views: seq<PriorityView>): seq<Tx>
    requires |views| == |snapshot|
  {
    if snapshot == [] then []
    else
      var n := |snapshot| - 1;
      PriorityEligibleTxs(snapshot[..n], peerID, views[..n])
        + (if PriorityEligible(snapshot[n], peerID, views[n]) then [snapshot[n].tx] else [])
  }

  /** Every transaction the priority routine delivers comes from an eligible snapshot entry. */
  lemma {:induction false} PriorityDeliversOnlyEligible(snapshot: seq<WrappedTx>, peerID: nat, views: seq<PriorityView>)
    requires |views| == |snapshot|
    ensures |PriorityEligibleTxs(snapshot, peerID, views)| <= |snapshot|
    ensures forall t :: t in PriorityEligibleTxs(snapshot, peerID, views) ==>
      exists i :: 0 <= i < |snapshot| && snapshot[i].tx == t && PriorityEligible(snapshot[i], peerID, views[i])
  {
    if snapshot != [] {
      var n := |snapshot| - 1;
      PriorityDeliversOnlyEligible(snapshot[..n], peerID, views[..n]);
      forall t | t in PriorityEligibleTxs(snapshot, peerID, views)
        ensures exists i :: 0 <= i < |snapshot| && snapshot[i].tx == t && PriorityEligible(snapshot[i], peerID, views[i])
      {
        if t in PriorityEligibleTxs(snapshot[..n], peerID, views[..n]) {
          var i :| 0 <= i < n && snapshot[..n][i].tx == t && PriorityEligible(snapshot[..n][i], peerID, views[..n][i]);
          assert snapshot[i] == snapshot[..n][i] && views[i] == views[..n][i];
        } else {
          assert snapshot[n].tx == t && PriorityEligible(snapshot[n], peerID, views[n]);
        }
      }
    }
  }

  /**
   * One wake-up of the priority routine for one peer: without a known peer
   * state nothing is sent; otherwise it walks the whole current snapshot
   * from its head and returns the transactions delivered.
   */
  method PriorityPass(snapshot: seq<WrappedTx>, peerID: nat, peerStateKnown: bool, views: seq<PriorityView>)
    returns (delivered: seq<Tx>)
    requires |views| == |snapshot|
    ensures !peerStateKnown ==> delivered == []
    ensures peerStateKnown ==> delivered == PriorityEligibleTxs(snapshot, peerID, views)
  {
    delivered := [];
    if !peerStateKnown {
      return;
    }
    var i := 0;
    while i < |snapshot|
      invariant 0 <= i <= |snapshot|
      invariant delivered == PriorityEligibleTxs(snapshot[..i], peerID, views[..i])
    {
      var step := PriorityStep(snapshot, i, peerID, views[i]);
      if step.delivered {
        delivered := delivered + [snapshot[i].tx];
      }
      assert snapshot[..i + 1][..i] == snapshot[..i] && views[..i + 1][..i] == views[..i];
      i := step.next;
    }
    assert snapshot[..i] == snapshot && views[..i] == views;
  }

  /**
   * Neither routine records a delivery: an entry the peer lacks, with the
   * peer caught up and the sends succeeding, is sent both by the flood
   * routine and by the priority routine.
   */
  lemma BothRoutinesSendSameEntry(w: WrappedTx, peerID: nat, height: int)
    requires !HasPeer(w, peerID) && CaughtUp(height, w)
    ensures FloodStep([w], 0, peerID, FloodView(Some(height), true)).delivered
    ensures PriorityEligibleTxs([w], peerID, [PriorityView(true, height, true)]) == [w.tx]
  {
    assert [w][..0] == [];
  }

  // ---------------------------------------------------------------------
  // Inbound batches

  /** A decoded mempool message: a batch of transactions or anything else. */
  datatype Message = Txs(txs: seq<Tx>) | Other(typeName: string)

  /** The pool's answer to CheckTx. */
  datatype CheckTxVerdict = Admitted | InCache | Rejected(reason: string)

  /** The sender information attached to each submitted transaction. */
  datatype TxInfo = TxInfo(senderID: nat, senderP2PID: PeerId)

  /** One CheckTx call made by the reactor, with the pool's answer. */
  datatype Submission = Submission(tx: Tx, info: TxInfo, verdict: CheckTxVerdict)

  datatype ReceiveOutcome =
    | EmptyBatch
    | Submitted(calls: seq<Submission>)
    | StopPeerForError(peer: PeerId)

  /**
   * ReceiveEnvelope: an empty batch submits nothing; a non-empty batch
   * submits every transaction, in order, tagged with the sender's numeric
   * ID, whatever the pool answers to each; any other message stops the
   * peer. `verdict(i)` is the pool's answer to the i-th CheckTx call.
   */
  method ReceiveEnvelope(ids: PeerIdTable, src: PeerId, msg: Message, verdict: nat -> CheckTxVerdict)
    returns (out: ReceiveOutcome)
    requires ids.Valid()
    ensures msg.Other? <==> out == StopPeerForError(src)
    ensures out.EmptyBatch? <==> msg == Txs([])
    ensures out.Submitted? <==> msg.Txs? && msg.txs != []
    ensures out.Submitted? ==> |out.calls| == |msg.txs|
    ensures out.Submitted? ==> forall i :: 0 <= i < |out.calls| ==>
      out.calls[i] == Submission(msg.txs[i], TxInfo(ids.GetForPeer(src), src), verdict(i))
  {
    match msg
    case Other(_) =>
      return StopPeerForError(src);
    case Txs(txs) =>
      if |txs| == 0 {
        return EmptyBatch;
      }
      var info := TxInfo(ids.GetForPeer(src), src);
      var calls: seq<Submission> := [];
      var i := 0;
      while i < |txs|
        invariant 0 <= i <= |txs|
        invariant |calls| == i
        invariant forall k :: 0 <= k < i ==> calls[k] == Submission(txs[k], info, verdict(k))
      {
        calls := calls + [Submission(txs[i], info, verdict(i))];
        i := i + 1;
      }
      return Submitted(calls);
  }
}
