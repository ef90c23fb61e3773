/**
 * The mempool reactor's peer-ID table: a 16-bit allocator that hands every
 * connected peer a compact numeric ID, with ID 0 reserved for "unknown
 * sender". The table is updated in place under a lock in the original; here
 * it is a class whose methods run one at a time.
 */
module MempoolIds {
  import opened Wrappers

  /** A peer's identity (p2p.ID is a string). */
  type PeerId = string

  /** The IDs are uint16 values: nextID wraps modulo this. */
  const IdSpace: nat := 0x1_0000

  /** Capacity ceiling: math.MaxUint16 active IDs, counting the reserved 0. */
  const MaxActiveIDs: nat := 0xFFFF

  /** The ID the reactor reports for a sender it does not know. */
  const UnknownPeerID: nat := 0

  /** The original panics; the model returns this error and changes nothing. */
  datatype IdError = IdSpaceExhausted

  /** Number of increments (modulo IdSpace) that take `from` to `to`. */
  function CyclicDist(from: nat, to: nat): (d: nat)
    requires from < IdSpace && to < IdSpace
    ensures d < IdSpace
    ensures d == 0 <==> from == to
  {
    if from <= to then to - from else to + IdSpace - from
  }

  lemma CyclicDistInjective(from: nat, i: nat, j: nat)
    requires from < IdSpace && i < IdSpace && j < IdSpace
    requires CyclicDist(from, i) == CyclicDist(from, j)
    ensures i == j
  {
  }

  /** One wrapping increment moves one step further, unless it closes the cycle. */
  lemma CyclicDistStep(from: nat, n: nat)
    requires from < IdSpace && n < IdSpace
    requires CyclicDist(from, n) < IdSpace - 1
    ensures CyclicDist(from, (n + 1) % IdSpace) == CyclicDist(from, n) + 1
  {
  }

  /** The IDs below n. */
  function IdsBelow(n: nat): (s: set<nat>)
    ensures forall i: nat :: i in s <==> i < n
    ensures |s| == n
  {
    if n == 0 then {} else IdsBelow(n - 1) + {n - 1}
  }

  lemma {:induction false} SubsetCard(a: set<nat>, b: set<nat>)
    requires a <= b
    ensures |a| <= |b|
    decreases |b|
  {
    if b != {} {
      var x :| x in b;
      SubsetCard(a - {x}, b - {x});
    }
  }

  /** A table of fewer than IdSpace IDs, all below IdSpace, leaves one free. */
  lemma FreeIdExists(s: set<nat>)
    requires forall i :: i in s ==> i < IdSpace
    requires |s| < IdSpace
    ensures exists f: nat :: f < IdSpace && f !in s
  {
    var all := IdsBelow(IdSpace);
    if all <= s {
      SubsetCard(all, s);
      assert false;
    }
    var f :| f in all && f !in s;
  }

  /** When the watermark itself is free, the search hands out the watermark. */
  lemma WatermarkFreeIsChosen(start: nat, active: set<nat>, r: nat)
    requires start < IdSpace && r < IdSpace && start !in active
    requires forall i: nat :: i < IdSpace && CyclicDist(start, i) < CyclicDist(start, r) ==> i in active
    ensures r == start
  {
    assert CyclicDist(start, start) == 0;
  }

  /**
   * The search never passes over a free ID: a reclaimed ID is handed out
   * again, at the latest, when the watermark next reaches it.
   */
  lemma SearchStopsAtFreeId(start: nat, active: set<nat>, r: nat, free: nat)
    requires start < IdSpace && r < IdSpace && free < IdSpace && free !in active
    requires forall i: nat :: i < IdSpace && CyclicDist(start, i) < CyclicDist(start, r) ==> i in active
    ensures CyclicDist(start, r) <= CyclicDist(start, free)
    ensures CyclicDist(start, r) == CyclicDist(start, free) ==> r == free
  {
    if CyclicDist(start, r) == CyclicDist(start, free) {
      CyclicDistInjective(start, r, free);
    }
  }

  /**
   * One turn of the search: when the candidate n is active, every ID up to
   * and including it is active, and the next candidate is one step further.
   */
  lemma SearchStep(start: nat, n: nat, free: nat, active: set<nat>)
    requires start < IdSpace && n < IdSpace && free < IdSpace && free !in active && n in active
    requires CyclicDist(start, n) <= CyclicDist(start, free)
    requires forall i: nat :: i < IdSpace && CyclicDist(start, i) < CyclicDist(start, n) ==> i in active
    ensures CyclicDist(start, (n + 1) % IdSpace) == CyclicDist(start, n) + 1 <= CyclicDist(start, free)
    ensures forall i: nat :: i < IdSpace && CyclicDist(start, i) < CyclicDist(start, (n + 1) % IdSpace) ==> i in active
  {
    CyclicDistStep(start, n);
    forall i: nat | i < IdSpace && CyclicDist(start, i) == CyclicDist(start, n)
      ensures i in active
    {
      CyclicDistInjective(start, i, n);
    }
  }

  class PeerIdTable {
    /** The ID currently recorded for each connected peer. */
    var peerMap: map<PeerId, nat>
    /** The search watermark: the next candidate ID. */
    var nextID: nat
    /** Every ID that must not be handed out (the key set of activeIDs). */
    var activeIDs: set<nat>

    /**
     * The table's invariant: 0 stays reserved, IDs fit in 16 bits, the
     * table never holds more than MaxActiveIDs IDs, and every peer holds an
     * active, non-zero ID that no other peer holds.
     */
    ghost predicate Valid()
      reads this
    {
      && UnknownPeerID in activeIDs
      && nextID < IdSpace
      && (forall id :: id in activeIDs ==> id < IdSpace)
      && |activeIDs| <= MaxActiveIDs
      && (forall p :: p in peerMap ==> peerMap[p] in activeIDs && peerMap[p] != UnknownPeerID)
      && (forall p, q :: p in peerMap && q in peerMap && p != q ==> peerMap[p] != peerMap[q])
    }

    /** newMempoolIDs: 0 is pre-marked active and the search starts at 1. */
    constructor ()
      ensures Valid()
      ensures peerMap == map[] && activeIDs == {UnknownPeerID} && nextID == 1
    {
      peerMap := map[];
      activeIDs := {UnknownPeerID};
      nextID := 1;
    }

    /** The ID reserved for `p`, or 0 when `p` holds none. */
    function GetForPeer(p: PeerId): (id: nat)
      reads this
      requires Valid()
      ensures id == UnknownPeerID <==> p !in peerMap
      ensures p in peerMap ==> id == peerMap[p]
      ensures id < IdSpace
    {
      if p in peerMap then peerMap[p] else UnknownPeerID
    }

    /**
     * nextPeerID: fails exactly when the table is full; otherwise returns
     * the first ID at or after the watermark (wrapping modulo IdSpace) that
     * is not active, and leaves the watermark just past it.
     */
    method NextPeerID() returns (r: Result<nat, IdError>)
      requires Valid()
      modifies this`nextID
      ensures Valid()
      ensures r.Err? <==> |activeIDs| == MaxActiveIDs
      ensures r.Err? ==> nextID == old(nextID)
      ensures r.Ok? ==> r.value < IdSpace && r.value !in activeIDs && r.value != UnknownPeerID
      ensures r.Ok? ==> nextID == (r.value + 1) % IdSpace
      ensures r.Ok? ==> forall i: nat :: i < IdSpace && CyclicDist(old(nextID), i) < CyclicDist(old(nextID), r.value) ==> i in activeIDs
    {
      if |activeIDs| == MaxActiveIDs {
        return Err(IdSpaceExhausted);
      }
      FreeIdExists(activeIDs);
      ghost var start := nextID;
      ghost var free: nat :| free < IdSpace && free !in activeIDs;
      var idExists := nextID in activeIDs;
      while idExists
        invariant nextID < IdSpace
        invariant idExists == (nextID in activeIDs)
        invariant CyclicDist(start, nextID) <= CyclicDist(start, free)
        invariant forall i: nat :: i < IdSpace && CyclicDist(start, i) < CyclicDist(start, nextID) ==> i in activeIDs
        decreases CyclicDist(start, free) - CyclicDist(start, nextID)
      {
        SearchStep(start, nextID, free, activeIDs);
        nextID := (nextID + 1) % IdSpace;
        idExists := nextID in activeIDs;
      }
      var curID := nextID;
      nextID := (nextID + 1) % IdSpace;
      return Ok(curID);
    }

    /**
     * ReserveForPeer: records a fresh ID for `p`. A peer that already held an
     * ID gets a new one; the old one stays in activeIDs.
     */
    method ReserveForPeer(p: PeerId) returns (r: Result<nat, IdError>)
      requires Valid()
      modifies this
      ensures Valid()
      ensures r.Err? <==> old(|activeIDs|) == MaxActiveIDs
      ensures r.Err? ==> peerMap == old(peerMap) && activeIDs == old(activeIDs) && nextID == old(nextID)
      ensures r.Ok? ==> r.value !in old(activeIDs) && r.value != UnknownPeerID
      ensures r.Ok? ==> peerMap == old(peerMap)[p := r.value] && activeIDs == old(activeIDs) + {r.value}
      ensures r.Ok? ==> nextID == (r.value + 1) % IdSpace
      ensures r.Ok? ==> forall i: nat :: i < IdSpace && CyclicDist(old(nextID), i) < CyclicDist(old(nextID), r.value) ==> i in old(activeIDs)
    {
      r := NextPeerID();
      if r.Ok? {
        peerMap := peerMap[p := r.value];
        activeIDs := activeIDs + {r.value};
      }
    }

    /** Reclaim: frees the ID of `p`; an unknown peer changes nothing. */
    method Reclaim(p: PeerId)
      requires Valid()
      modifies this`peerMap, this`activeIDs
      ensures Valid() && nextID == old(nextID)
      ensures p in old(peerMap) ==> peerMap == old(peerMap) - {p} && activeIDs == old(activeIDs) - {old(peerMap)[p]}
      ensures p !in old(peerMap) ==> peerMap == old(peerMap) && activeIDs == old(activeIDs)
    {
      if p in peerMap {
        var removedID := peerMap[p];
        activeIDs := activeIDs - {removedID};
        peerMap := peerMap - {p};
      }
    }
  }

  /** Reserving while the watermark is free hands out the watermark itself. */
  method ReserveAtWatermark(t: PeerIdTable, p: PeerId) returns (id: nat)
    requires t.Valid() && t.nextID !in t.activeIDs && |t.activeIDs| < MaxActiveIDs
    modifies t
    ensures t.Valid()
    ensures id == old(t.nextID) && t.nextID == (id + 1) % IdSpace
    ensures t.peerMap == old(t.peerMap)[p := id] && t.activeIDs == old(t.activeIDs) + {id}
    ensures |t.activeIDs| == old(|t.activeIDs|) + 1
  {
    var r := t.ReserveForPeer(p);
    WatermarkFreeIsChosen(old(t.nextID), old(t.activeIDs), r.value);
    id := r.value;
  }

  /** Three peers join a new table and receive 1, 2 and 3 in turn. */
  method JoinThree() returns (t: PeerIdTable, a: nat, b: nat, c: nat)
    ensures fresh(t) && t.Valid()
    ensures a == 1 && b == 2 && c == 3
    ensures t.peerMap == map["peerA" := 1, "peerB" := 2, "peerC" := 3]
    ensures t.activeIDs == {0, 1, 2, 3} && |t.activeIDs| == 4 && t.nextID == 4
  {
    t := new PeerIdTable();
    a := ReserveAtWatermark(t, "peerA");
    b := ReserveAtWatermark(t, "peerB");
    c := ReserveAtWatermark(t, "peerC");
  }

  /**
   * Three peers join, the first leaves, a fourth joins: the IDs follow the
   * watermark (1, 2, 3, then 4 rather than the freed 1), and a reclaimed
   * peer reads as unknown.
   */
  method ReuseScenario() returns (a: nat, b: nat, c: nat, aAfter: nat, d: nat)
    ensures a == 1 && b == 2 && c == 3 && d == 4
    ensures aAfter == UnknownPeerID
  {
    var t;
    t, a, b, c := JoinThree();
    t.Reclaim("peerA");
    aAfter := t.GetForPeer("peerA");
    d := ReserveAtWatermark(t, "peerD");
  }
}
