/**
 * One node of a generated testnet manifest. The random choices the
 * generator makes for a node arrive as a record of draws; the generator's
 * own contribution is the fix-ups that keep block retention, state
 * persistence and snapshotting consistent with each other.
 */
module NodeGen {
  import opened Wrappers

  datatype Mode = Validator | Full | Light | Seed

  /** The manifest entry of one node (the fields the generator sets). */
  datatype ManifestNode = ManifestNode(
    version: string,
    mode: Mode,
    startAt: int,
    database: string,
    privvalProtocol: string,
    blockSyncVersion: string,
    mempoolVersion: string,
    stateSync: bool,
    persistInterval: Option<nat>,
    snapshotInterval: nat,
    retainBlocks: nat,
    perturb: seq<string>,
    seeds: seq<string>,
    persistentPeers: seq<string>)

  /**
   * The values drawn for one full node, validator or seed, in the order
   * the generator draws them. `dropRetention` is the coin r.Float64() > 0.5
   * that settles a node which neither persists state nor keeps all blocks.
   */
  datatype NodeDraws = NodeDraws(
    version: string,
    database: string,
    privvalProtocol: string,
    blockSyncVersion: string,
    mempoolVersion: string,
    stateSync: bool,
    persistInterval: nat,
    snapshotInterval: nat,
    retainBlocks: nat,
    perturb: seq<string>,
    dropRetention: bool)

  /** The values drawn for a light node. */
  datatype LightDraws = LightDraws(version: string, database: string, perturb: seq<string>)

  function Max(a: nat, b: nat): nat
  {
    if a < b then b else a
  }

  /**
   * The consistency the fix-ups establish: a persistence interval is always
   * set, a node that keeps only recent blocks persists state, and its
   * retention window covers both the persistence and the snapshot interval.
   */
  predicate RetentionConsistent(node: ManifestNode)
  {
    && node.persistInterval.Some?
    && !(node.persistInterval.value == 0 && node.retainBlocks > 0)
    && (node.retainBlocks > 0 ==>
          node.retainBlocks >= node.persistInterval.value && node.retainBlocks >= node.snapshotInterval)
  }

  /**
   * The node generateNode produces, described in one piece: an archive node
   * keeps every block and snapshots every 3 heights; a node that would
   * neither persist nor keep all blocks either keeps all blocks or persists
   * at its retention interval, as the coin says; a node that keeps only
   * recent blocks keeps the least window covering every interval.
   */
  function GeneratedNode(d: NodeDraws, mode: Mode, startAt: int, forceArchive: bool): ManifestNode
  {
    var snapshot := if forceArchive then 3 else d.snapshotInterval;
    var retain0 := if forceArchive then 0 else d.retainBlocks;
    var unpersisted := d.persistInterval == 0 && retain0 > 0;
    var persist := if unpersisted && !d.dropRetention then retain0 else d.persistInterval;
    var retain := if retain0 == 0 || (unpersisted && d.dropRetention) then 0
                  else Max(retain0, Max(persist, snapshot));
    ManifestNode(d.version, mode, startAt, d.database, d.privvalProtocol, d.blockSyncVersion,
      d.mempoolVersion, d.stateSync && startAt > 0, Some(persist), snapshot, retain, d.perturb, [], [])
  }

  /**
   * generateNode: start from the draws, then apply the archive override,
   * the persist-or-retain choice and the retention widening, in that order.
   */
  method GenerateNode(d: NodeDraws, mode: Mode, startAt: int, forceArchive: bool) returns (node: ManifestNode)
    ensures node == GeneratedNode(d, mode, startAt, forceArchive)
  {
    node := ManifestNode(d.version, mode, startAt, d.database, d.privvalProtocol, d.blockSyncVersion,
      d.mempoolVersion, d.stateSync && startAt > 0, Some(d.persistInterval), d.snapshotInterval,
      d.retainBlocks, d.perturb, [], []);
    if forceArchive {
      node := node.(retainBlocks := 0, snapshotInterval := 3);
    }
    if node.persistInterval.Some? && node.persistInterval.value == 0 && node.retainBlocks > 0 {
      if d.dropRetention {
        node := node.(retainBlocks := 0);
      } else {
        node := node.(persistInterval := Some(node.retainBlocks));
      }
    }
    if node.retainBlocks > 0 {
      if node.persistInterval.Some? && node.retainBlocks < node.persistInterval.value {
        node := node.(retainBlocks := node.persistInterval.value);
      }
      if node.retainBlocks < node.snapshotInterval {
        node := node.(retainBlocks := node.snapshotInterval);
      }
    }
  }

  /**
   * Every generated node is retention-consistent; an archive node keeps all
   * blocks and snapshots every 3 heights; state sync is only enabled for a
   * node that starts late; links are left for the testnet to fill in.
   */
  lemma GeneratedNodeConsistent(d: NodeDraws, mode: Mode, startAt: int, forceArchive: bool)
    ensures var node := GeneratedNode(d, mode, startAt, forceArchive);
      && RetentionConsistent(node)
      && (forceArchive ==> node.retainBlocks == 0 && node.snapshotInterval == 3)
      && (node.stateSync <==> d.stateSync && startAt > 0)
      && node.seeds == [] && node.persistentPeers == []
      && node.mode == mode && node.startAt == startAt
  {
  }

  /**
   * The retention window of a node that keeps only recent blocks is the
   * least one covering the drawn window, the persistence interval and the
   * snapshot interval.
   */
  lemma GeneratedRetentionLeast(d: NodeDraws, mode: Mode, startAt: int, forceArchive: bool, w: nat)
    requires var node := GeneratedNode(d, mode, startAt, forceArchive);
      && node.retainBlocks > 0
      && w >= node.persistInterval.value && w >= node.snapshotInterval
      && w >= (if forceArchive then 0 else d.retainBlocks)
    ensures GeneratedNode(d, mode, startAt, forceArchive).retainBlocks <= w
  {
  }

  /**
   * A node keeps every block exactly when no window was drawn (or it is an
   * archive node), or when it persisted nothing and the coin chose to keep
   * all blocks.
   */
  lemma GeneratedKeepsAllBlocks(d: NodeDraws, mode: Mode, startAt: int, forceArchive: bool)
    ensures var node := GeneratedNode(d, mode, startAt, forceArchive);
      node.retainBlocks == 0 <==>
        forceArchive || d.retainBlocks == 0 || (d.persistInterval == 0 && d.dropRetention)
  {
  }

  /** generateLightNode: a light client that persists nothing and follows the given providers. */
  function GenerateLightNode(d: LightDraws, startAt: int, providers: seq<string>): (node: ManifestNode)
    ensures node.mode == Light && node.startAt == startAt && node.persistentPeers == providers
    ensures RetentionConsistent(node) && node.persistInterval == Some(0) && node.retainBlocks == 0
  {
    ManifestNode(d.version, Light, startAt, d.database, "", "", "", false, Some(0), 0, 0, d.perturb, [], providers)
  }
}
