/**
 * The second half of testnet generation: sorting the generated nodes into
 * seeds, peers and light-client providers, meshing the seeds with each
 * other, wiring every peer to drawn seeds or to drawn peers that start
 * before it, and adding the light clients.
 */
module PeerWiring {
  import opened Text
  import opened NodeGen
  import opened PeerOrder
  import opened TestnetGen

  type Nodes = map<string, ManifestNode>

  /** A seed node of the manifest. */
  function IsSeedIn(nodes: Nodes): string -> bool
  {
    name => name in nodes && nodes[name].mode == Seed
  }

  /** A node of the manifest that is not a seed. */
  function IsPeerIn(nodes: Nodes): string -> bool
  {
    name => name in nodes && nodes[name].mode != Seed
  }

  /**
   * An ideal light-client provider: a node that is not a seed, starts at
   * height 0 or at the initial height, and keeps every block.
   */
  function IsProviderIn(nodes: Nodes, initialHeight: int): string -> bool
  {
    name => name in nodes && nodes[name].mode != Seed
            && (nodes[name].startAt == 0 || nodes[name].startAt == initialHeight)
            && nodes[name].retainBlocks == 0
  }

  /** Any name other than `name`. */
  function Other(name: string): string -> bool
  {
    other => other != name
  }

  /** Filtering one more element of xs. */
  lemma FilterSnoc(xs: seq<string>, k: nat, keep: string -> bool)
    requires k < |xs|
    ensures Filter(xs[..k + 1], keep) == Filter(xs[..k], keep) + (if keep(xs[k]) then [xs[k]] else [])
  {
    assert xs[..k + 1][..k] == xs[..k];
  }

  /**
   * The classification loop over the manifest's nodes, in the order given:
   * seeds are collected as seeds, every other node as a peer, and the peers
   * that are ideal candidates also as light-client providers.
   */
  method Classify(nodes: Nodes, order: seq<string>, initialHeight: int)
    returns (seedNames: seq<string>, peerNames: seq<string>, providers: seq<string>)
    requires forall x :: x in order ==> x in nodes
    ensures seedNames == Filter(order, IsSeedIn(nodes))
    ensures peerNames == Filter(order, IsPeerIn(nodes))
    ensures providers == Filter(order, IsProviderIn(nodes, initialHeight))
  {
    seedNames, peerNames, providers := [], [], [];
    var k := 0;
    while k < |order|
      invariant k <= |order|
      invariant seedNames == Filter(order[..k], IsSeedIn(nodes))
      invariant peerNames == Filter(order[..k], IsPeerIn(nodes))
      invariant providers == Filter(order[..k], IsProviderIn(nodes, initialHeight))
    {
      var name := order[k];
      var node := nodes[name];
      FilterSnoc(order, k, IsSeedIn(nodes));
      FilterSnoc(order, k, IsPeerIn(nodes));
      FilterSnoc(order, k, IsProviderIn(nodes, initialHeight));
      if node.mode == Seed {
        seedNames := seedNames + [name];
      } else {
        if (node.startAt == 0 || node.startAt == initialHeight) && node.retainBlocks == 0 {
          providers := providers + [name];
        }
        peerNames := peerNames + [name];
      }
      k := k + 1;
    }
    assert order[..k] == order;
  }

  /** The classes partition the nodes: seeds, peers, and providers among the peers. */
  lemma ClassesPartition(nodes: Nodes, order: seq<string>, initialHeight: int)
    ensures forall x :: x in Filter(order, IsSeedIn(nodes)) <==> x in order && x in nodes && nodes[x].mode == Seed
    ensures forall x :: x in Filter(order, IsPeerIn(nodes)) <==> x in order && x in nodes && nodes[x].mode != Seed
    ensures forall x :: x in Filter(order, IsProviderIn(nodes, initialHeight)) ==> x in Filter(order, IsPeerIn(nodes))
    ensures forall x :: x in Filter(order, IsProviderIn(nodes, initialHeight)) ==>
      (nodes[x].startAt == 0 || nodes[x].startAt == initialHeight) && nodes[x].retainBlocks == 0
  {
    FilterMembers(order, IsSeedIn(nodes));
    FilterMembers(order, IsPeerIn(nodes));
    FilterMembers(order, IsProviderIn(nodes, initialHeight));
  }

  // ---------------------------------------------------------------------
  // Seed mesh

  /** Seed s after meshing: every other listed seed appended to its seeds. */
  function SeedLinked(node: ManifestNode, s: string, seedNames: seq<string>): ManifestNode
  {
    node.(seeds := node.seeds + Filter(seedNames, Other(s)))
  }

  /** The manifest after the first k seeds of seedNames have been meshed. */
  function Meshed(nodes: Nodes, seedNames: seq<string>, k: nat): (m: Nodes)
    requires k <= |seedNames|
    ensures m.Keys == nodes.Keys
  {
    if k == 0 then nodes
    else
      var m := Meshed(nodes, seedNames, k - 1);
      var s := seedNames[k - 1];
      if s in m then m[s := SeedLinked(m[s], s, seedNames)] else m
  }

  /** The inner mesh loop: seed s gets every other seed appended, in order. */
  method LinkSeed(nodes: Nodes, s: string, seedNames: seq<string>) returns (nodes': Nodes)
    requires s in nodes
    ensures nodes' == nodes[s := SeedLinked(nodes[s], s, seedNames)]
  {
    nodes' := nodes;
    ghost var base := nodes[s];
    assert seedNames[..0] == [] && base.seeds + [] == base.seeds;
    var j := 0;
    while j < |seedNames|
      invariant j <= |seedNames|
      invariant nodes' == nodes[s := base.(seeds := base.seeds + Filter(seedNames[..j], Other(s)))]
    {
      var otherName := seedNames[j];
      FilterSnoc(seedNames, j, Other(s));
      ghost var linked := Filter(seedNames[..j], Other(s));
      if s != otherName {
        assert base.seeds + (linked + [otherName]) == (base.seeds + linked) + [otherName];
        nodes' := nodes'[s := nodes'[s].(seeds := nodes'[s].seeds + [otherName])];
      } else {
        assert linked + [] == linked;
      }
      j := j + 1;
    }
    assert seedNames[..j] == seedNames;
  }

  /** The outer mesh loop: every seed in turn. */
  method MeshSeeds(nodes: Nodes, seedNames: seq<string>) returns (nodes': Nodes)
    requires forall s :: s in seedNames ==> s in nodes
    ensures nodes' == Meshed(nodes, seedNames, |seedNames|)
  {
    nodes' := nodes;
    var i := 0;
    while i < |seedNames|
      invariant i <= |seedNames|
      invariant nodes' == Meshed(nodes, seedNames, i)
    {
      nodes' := LinkSeed(nodes', seedNames[i], seedNames);
      i := i + 1;
    }
  }

  /**
   * Meshing distinct seeds gives each meshed seed every other seed, in the
   * list's order, after the seeds it had; it leaves every other node as it
   * was.
   */
  lemma {:induction false} MeshedNodes(nodes: Nodes, seedNames: seq<string>, k: nat)
    requires k <= |seedNames| && Distinct(seedNames)
    ensures forall i :: 0 <= i < k && seedNames[i] in nodes ==>
      Meshed(nodes, seedNames, k)[seedNames[i]] == SeedLinked(nodes[seedNames[i]], seedNames[i], seedNames)
    ensures forall x :: x in nodes && x !in seedNames[..k] ==> Meshed(nodes, seedNames, k)[x] == nodes[x]
  {
    if k > 0 {
      MeshedNodes(nodes, seedNames, k - 1);
      assert seedNames[..k] == seedNames[..k - 1] + [seedNames[k - 1]];
    }
  }

  /** A meshed seed lists every other seed exactly once and never itself. */
  lemma MeshLinksOthers(seedNames: seq<string>, s: string)
    requires Distinct(seedNames)
    ensures s !in Filter(seedNames, Other(s))
    ensures forall x :: x in Filter(seedNames, Other(s)) <==> x in seedNames && x != s
    ensures Distinct(Filter(seedNames, Other(s)))
  {
    FilterMembers(seedNames, Other(s));
    FilterDistinct(seedNames, Other(s));
  }

  // ---------------------------------------------------------------------
  // Peer wiring

  /**
   * The links of the i-th peer in start order: when there are seeds, the
   * first peer and each peer that draws seeds get a drawn set of seeds; any
   * other peer after the first gets a drawn set of the peers before it.
   */
  function WireOne(node: ManifestNode, i: nat, peers: seq<string>, seedNames: seq<string>, d: TestnetDraws): ManifestNode
    requires i < |peers|
  {
    if |seedNames| > 0 && (i == 0 || d.peerUsesSeeds(i)) then node.(seeds := Pick(seedNames, d.seedPick(i)))
    else if i > 0 then node.(persistentPeers := Pick(peers[..i], d.peerPick(i)))
    else node
  }

  /** The manifest after the first k peers have been wired. */
  function Wired(nodes: Nodes, peers: seq<string>, seedNames: seq<string>, d: TestnetDraws, k: nat): (m: Nodes)
    requires k <= |peers|
    ensures m.Keys == nodes.Keys
  {
    if k == 0 then nodes
    else
      var m := Wired(nodes, peers, seedNames, d, k - 1);
      var name := peers[k - 1];
      if name in m then m[name := WireOne(m[name], k - 1, peers, seedNames, d)] else m
  }

  /** The wiring loop over the peers in start order. */
  method WirePeers(nodes: Nodes, peers: seq<string>, seedNames: seq<string>, d: TestnetDraws) returns (nodes': Nodes)
    requires forall x :: x in peers ==> x in nodes
    ensures nodes' == Wired(nodes, peers, seedNames, d, |peers|)
  {
    nodes' := nodes;
    var i := 0;
    while i < |peers|
      invariant i <= |peers|
      invariant nodes' == Wired(nodes, peers, seedNames, d, i)
    {
      var name := peers[i];
      ghost var wired := nodes'[name := WireOne(nodes'[name], i, peers, seedNames, d)];
      if |seedNames| > 0 && (i == 0 || d.peerUsesSeeds(i)) {
        nodes' := nodes'[name := nodes'[name].(seeds := Pick(seedNames, d.seedPick(i)))];
      } else if i > 0 {
        nodes' := nodes'[name := nodes'[name].(persistentPeers := Pick(peers[..i], d.peerPick(i)))];
      }
      assert nodes' == wired;
      i := i + 1;
    }
  }

  /** Wiring distinct peers wires each of them once and leaves every other node as it was. */
  lemma {:induction false} WiredNodes(nodes: Nodes, peers: seq<string>, seedNames: seq<string>, d: TestnetDraws, k: nat)
    requires k <= |peers| && Distinct(peers)
    ensures forall i :: 0 <= i < k && peers[i] in nodes ==>
      Wired(nodes, peers, seedNames, d, k)[peers[i]] == WireOne(nodes[peers[i]], i, peers, seedNames, d)
    ensures forall x :: x in nodes && x !in peers[..k] ==> Wired(nodes, peers, seedNames, d, k)[x] == nodes[x]
  {
    if k > 0 {
      WiredNodes(nodes, peers, seedNames, d, k - 1);
      assert peers[..k] == peers[..k - 1] + [peers[k - 1]];
    }
  }

  /**
   * In a start-ordered peer list, every persistent peer a peer is wired to
   * starts before it (or with it, and has a lower name), and every seed it
   * is wired to is one of the seeds.
   */
  lemma WiredLinksOrdered(nodes: Nodes, peers: seq<string>, seedNames: seq<string>, d: TestnetDraws, i: nat)
    requires Sorted(nodes, peers) && i < |peers| && peers[i] in nodes
    ensures var w := WireOne(nodes[peers[i]], i, peers, seedNames, d);
      && (w.persistentPeers == nodes[peers[i]].persistentPeers
          || forall y :: y in w.persistentPeers ==> Before(nodes, y, peers[i]))
      && (w.seeds == nodes[peers[i]].seeds || forall y :: y in w.seeds ==> y in seedNames)
  {
    if i > 0 {
      PickedPeersComeBefore(nodes, peers, i, d.peerPick(i));
    }
  }

  // ---------------------------------------------------------------------
  // Light clients

  /** The light clients light01 .. light<n>: client i starts at the initial height plus 5 + 5i and follows the providers. */
  function LightNodes(d: TestnetDraws, initialHeight: int, providers: seq<string>, n: nat): Nodes
  {
    if n == 0 then map[]
    else LightNodes(d, initialHeight, providers, n - 1)[LightName(n) :=
      GenerateLightNode(d.light(n), initialHeight + 5 + 5 * n, providers)]
  }

  /** The light-client loop. */
  method AddLightClients(d: TestnetDraws, nodes0: Nodes, initialHeight: int, providers: seq<string>, n: nat)
    returns (nodes: Nodes)
    ensures nodes == nodes0 + LightNodes(d, initialHeight, providers, n)
  {
    nodes := nodes0;
    var i := 1;
    while i <= n
      invariant 1 <= i <= n + 1
      invariant nodes == nodes0 + LightNodes(d, initialHeight, providers, i - 1)
    {
      var startAt := initialHeight + 5;
      var node := GenerateLightNode(d.light(i), startAt + 5 * i, providers);
      UnionUpdate(nodes0, LightNodes(d, initialHeight, providers, i - 1), LightName(i), node);
      nodes := nodes[LightName(i) := node];
      i := i + 1;
    }
  }

  /**
   * Every light client is a light node that starts 5 + 5i blocks after the
   * initial height, follows exactly the providers, and keeps no blocks.
   */
  lemma {:induction false} LightNodesAt(d: TestnetDraws, initialHeight: int, providers: seq<string>, n: nat, i: nat)
    requires 1 <= i <= n
    ensures LightName(i) in LightNodes(d, initialHeight, providers, n)
    ensures var node := LightNodes(d, initialHeight, providers, n)[LightName(i)];
      && node.mode == Light && node.startAt == initialHeight + 5 + 5 * i
      && node.persistentPeers == providers && node.retainBlocks == 0 && RetentionConsistent(node)
  {
    if i < n {
      LightNodesAt(d, initialHeight, providers, n - 1, i);
      if LightName(i) == LightName(n) {
        Pad2Injective("light", i, n);
      }
    }
  }
}
