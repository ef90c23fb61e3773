/**
 * generateTestnet as a whole: the manifest of one testnet, put together
 * from the seed, validator and full-node loops, the classification of the
 * nodes, the seed mesh, the start-ordered peer wiring and the light
 * clients. The random values are the fields of a TestnetDraws record.
 */
module TestnetManifest {
  import opened Wrappers
  import opened Text
  import opened NodeGen
  import opened PeerOrder
  import opened TestnetGen
  import opened PeerWiring

  // ---------------------------------------------------------------------
  // The manifest, stage by stage

  /** The height the first late full node gets: after the last late validator. */
  function FullsFrom(initialHeight: int, c: Counts): int
  {
    initialHeight + 5 + 5 * LateValidators(Quorum(c.validators), c.validators)
  }

  /** The seeds, validators and full nodes, all in one manifest map. */
  function Generated(d: TestnetDraws, initialHeight: int, c: Counts): Nodes
  {
    SeedNodes(d, c.seeds)
      + ValidatorNodes(d, initialHeight, Quorum(c.validators), c.validators)
      + FullNodes(d, FullsFrom(initialHeight, c), c.fulls)
  }

  /** The order in which the classification loop visits the generated nodes. */
  function VisitOrder(c: Counts): seq<string>
  {
    Names("seed", c.seeds) + Names("validator", c.validators) + Names("full", c.fulls)
  }

  function SeedList(d: TestnetDraws, initialHeight: int, c: Counts): seq<string>
  {
    Filter(VisitOrder(c), IsSeedIn(Generated(d, initialHeight, c)))
  }

  function PeerList(d: TestnetDraws, initialHeight: int, c: Counts): seq<string>
  {
    Filter(VisitOrder(c), IsPeerIn(Generated(d, initialHeight, c)))
  }

  function ProviderList(d: TestnetDraws, initialHeight: int, c: Counts): seq<string>
  {
    Filter(VisitOrder(c), IsProviderIn(Generated(d, initialHeight, c), initialHeight))
  }

  /** The generated nodes with the seeds meshed. */
  function SeedsMeshed(d: TestnetDraws, initialHeight: int, c: Counts): Nodes
  {
    var seeds := SeedList(d, initialHeight, c);
    Meshed(Generated(d, initialHeight, c), seeds, |seeds|)
  }

  /** The peers in start order. */
  function StartOrder(d: TestnetDraws, initialHeight: int, c: Counts): seq<string>
  {
    SortPeers(SeedsMeshed(d, initialHeight, c), PeerList(d, initialHeight, c))
  }

  /** The nodes after the peers have been wired. */
  function PeersWired(d: TestnetDraws, initialHeight: int, c: Counts): Nodes
  {
    var peers := StartOrder(d, initialHeight, c);
    Wired(SeedsMeshed(d, initialHeight, c), peers, SeedList(d, initialHeight, c), d, |peers|)
  }

  /** The final nodes of the manifest: the wired nodes and the light clients. */
  function ManifestNodes(d: TestnetDraws, initialHeight: int, c: Counts): Nodes
  {
    PeersWired(d, initialHeight, c) + LightNodes(d, initialHeight, ProviderList(d, initialHeight, c), c.lightClients)
  }

  /** The manifest's validator set: the genesis validators, or none when they move to InitChain. */
  function ValidatorSet(d: TestnetDraws, initialHeight: int, c: Counts, option: string): map<string, int>
  {
    if option == "genesis" then GenesisValidators(d, initialHeight, Quorum(c.validators), c.validators)
    else map[]
  }

  /** The manifest's validator updates: with InitChain, the genesis validators go under the key "0". */
  function UpdateSet(d: TestnetDraws, initialHeight: int, c: Counts, option: string): map<string, map<string, int>>
  {
    var updates := ValidatorUpdates(d, initialHeight, Quorum(c.validators), c.validators);
    if option == "genesis" then updates
    else updates["0" := GenesisValidators(d, initialHeight, Quorum(c.validators), c.validators)]
  }

  predicate ValidOption(option: string)
  {
    option == "genesis" || option == "initchain"
  }

  /** The manifest generateTestnet returns, or the error it reports. */
  function Testnet(d: TestnetDraws, opt: Options, upgradeVersion: string, prometheus: bool): Result<Manifest, GenError>
  {
    var counts := TopologyCounts(opt.topology, d);
    if counts.Err? then Err(counts.error)
    else if !ValidOption(opt.validators) then Err(InvalidValidators(opt.validators))
    else
      var c, h := counts.value, opt.initialHeight;
      var heights := VoteExtensionHeights(h, d);
      Ok(Manifest(d.ipv6, d.abciProtocol, h, opt.initialState,
        ValidatorSet(d, h, c, opt.validators), UpdateSet(d, h, c, opt.validators),
        d.evidence, ManifestNodes(d, h, c), upgradeVersion, prometheus,
        DelaysFor(d.abciDelay), heights.0, heights.1))
  }

  // ---------------------------------------------------------------------
  // The generator

  /** Every name the classification visits is a generated node. */
  lemma VisitOrderGenerated(d: TestnetDraws, initialHeight: int, c: Counts)
    ensures forall x :: x in VisitOrder(c) <==> x in Generated(d, initialHeight, c)
  {
    SeedNodesKeys(d, c.seeds);
    ValidatorNodesKeys(d, initialHeight, Quorum(c.validators), c.validators);
    FullNodesKeys(d, FullsFrom(initialHeight, c), c.fulls);
  }

  /** The seeds to mesh and the peers to wire are nodes of the manifest. */
  lemma WiringInputs(d: TestnetDraws, initialHeight: int, c: Counts)
    ensures forall x :: x in SeedList(d, initialHeight, c) ==> x in Generated(d, initialHeight, c)
    ensures forall x :: x in StartOrder(d, initialHeight, c) ==> x in SeedsMeshed(d, initialHeight, c)
  {
    var g := Generated(d, initialHeight, c);
    ClassesPartition(g, VisitOrder(c), initialHeight);
    var peers := StartOrder(d, initialHeight, c);
    forall x | x in peers
      ensures x in SeedsMeshed(d, initialHeight, c)
    {
      assert x in multiset(peers);
      assert x in PeerList(d, initialHeight, c);
    }
  }

  /**
   * generateTestnet: the topology's node counts, the seeds, the validators
   * with their set and updates, the validators option, the full nodes,
   * then classification, seed meshing, sorting and wiring of the peers,
   * and the light clients.
   */
  method GenerateTestnet(d: TestnetDraws, opt: Options, upgradeVersion: string, prometheus: bool)
    returns (r: Result<Manifest, GenError>)
    ensures r == Testnet(d, opt, upgradeVersion, prometheus)
  {
    var counts := TopologyCounts(opt.topology, d);
    if counts.Err? {
      return Err(counts.error);
    }
    var c, h := counts.value, opt.initialHeight;
    var seeds := AddSeeds(d, c.seeds);
    var validatorNodes, validators, updates, nextStartAt := AddValidators(d, h, c.validators);
    if opt.validators == "genesis" {
    } else if opt.validators == "initchain" {
      updates := updates["0" := validators];
      validators := map[];
    } else {
      return Err(InvalidValidators(opt.validators));
    }
    var fulls, _ := AddFulls(d, nextStartAt, c.fulls);
    var nodes := LinkNodes(d, h, c, seeds + validatorNodes + fulls);
    var heights := VoteExtensionHeights(h, d);
    r := Ok(Manifest(d.ipv6, d.abciProtocol, h, opt.initialState, validators, updates,
      d.evidence, nodes, upgradeVersion, prometheus, DelaysFor(d.abciDelay), heights.0, heights.1));
  }

  /**
   * The second half of generateTestnet: classification of the generated
   * nodes, seed meshing, sorting and wiring of the peers, and the light
   * clients.
   */
  method LinkNodes(d: TestnetDraws, h: int, c: Counts, generated: Nodes) returns (nodes: Nodes)
    requires generated == Generated(d, h, c)
    ensures nodes == ManifestNodes(d, h, c)
  {
    var seedNames, peerNames, providers := ClassifyGenerated(d, h, c, generated);
    WiringInputs(d, h, c);
    nodes := MeshSeeds(generated, seedNames);
    assert nodes == SeedsMeshed(d, h, c);
    var peers := SortPeers(nodes, peerNames);
    assert peers == StartOrder(d, h, c);
    nodes := WirePeers(nodes, peers, seedNames, d);
    assert nodes == PeersWired(d, h, c);
    nodes := AddLightClients(d, nodes, h, providers, c.lightClients);
  }

  /** The classification loop over the generated nodes. */
  method ClassifyGenerated(d: TestnetDraws, h: int, c: Counts, generated: Nodes)
    returns (seedNames: seq<string>, peerNames: seq<string>, providers: seq<string>)
    requires generated == Generated(d, h, c)
    ensures seedNames == SeedList(d, h, c)
    ensures peerNames == PeerList(d, h, c)
    ensures providers == ProviderList(d, h, c)
  {
    VisitOrderGenerated(d, h, c);
    seedNames, peerNames, providers := Classify(generated, VisitOrder(c), h);
  }
}
