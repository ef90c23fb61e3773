/**
 * What a generated testnet manifest guarantees: which nodes it has, that
 * every node's retention settings are consistent, that seeds are fully
 * meshed, that every peer links only to seeds or to peers starting before
 * it, and that light clients follow archive-grade providers.
 */
module TestnetFacts {
  import opened Wrappers
  import opened Text
  import opened NodeGen
  import opened PeerOrder
  import opened TestnetGen
  import opened PeerWiring
  import opened TestnetManifest

  /** A freshly generated node: consistent retention and no links yet. */
  predicate Unlinked(node: ManifestNode)
  {
    RetentionConsistent(node) && node.seeds == [] && node.persistentPeers == []
  }

  /** b is a with at most its seeds and persistent peers changed. */
  predicate LinksOnly(a: ManifestNode, b: ManifestNode)
  {
    b == a.(seeds := b.seeds, persistentPeers := b.persistentPeers)
  }

  // ---------------------------------------------------------------------
  // Names

  lemma DistinctAppend(xs: seq<string>, ys: seq<string>)
    requires Distinct(xs) && Distinct(ys)
    requires forall x :: x in xs ==> x !in ys
    ensures Distinct(xs + ys)
  {
    var zs := xs + ys;
    forall i, j | 0 <= i < j < |zs|
      ensures zs[i] != zs[j]
    {
      if i < |xs| && j >= |xs| {
        assert zs[i] in xs && zs[j] == ys[j - |xs|];
      }
    }
  }

  /** The classification visits each generated name once. */
  lemma VisitOrderDistinct(c: Counts)
    ensures Distinct(VisitOrder(c))
  {
    var ss, vs, fs := Names("seed", c.seeds), Names("validator", c.validators), Names("full", c.fulls);
    NamesDistinct("seed", c.seeds);
    NamesDistinct("validator", c.validators);
    NamesDistinct("full", c.fulls);
    NamesApart("seed", c.seeds, "validator", c.validators);
    NamesApart("seed", c.seeds, "full", c.fulls);
    NamesApart("validator", c.validators, "full", c.fulls);
    DistinctAppend(ss, vs);
    DistinctAppend(ss + vs, fs);
  }

  /** A list sorted in start order holds no name twice. */
  lemma SortedDistinct(nodes: Nodes, ys: seq<string>)
    requires Sorted(nodes, ys)
    ensures Distinct(ys)
  {
    forall i, j | 0 <= i < j < |ys|
      ensures ys[i] != ys[j]
    {
      BeforeTotal(nodes, ys[i], ys[j]);
    }
  }

  /** The light clients are exactly light01 .. light<n>. */
  lemma {:induction false} LightNodesKeys(d: TestnetDraws, initialHeight: int, providers: seq<string>, n: nat)
    ensures forall x :: x in LightNodes(d, initialHeight, providers, n) <==> x in Names("light", n)
  {
    if n > 0 {
      LightNodesKeys(d, initialHeight, providers, n - 1);
    }
  }

  // ---------------------------------------------------------------------
  // The generated nodes

  lemma {:induction false} SeedNodesUnlinked(d: TestnetDraws, n: nat)
    ensures forall x :: x in SeedNodes(d, n) ==> Unlinked(SeedNodes(d, n)[x]) && SeedNodes(d, n)[x].mode == Seed
  {
    if n > 0 {
      SeedNodesUnlinked(d, n - 1);
      GeneratedNodeConsistent(d.node(SeedName(n)), Seed, 0, false);
    }
  }

  lemma {:induction false} ValidatorNodesUnlinked(d: TestnetDraws, initialHeight: int, quorum: nat, n: nat)
    ensures forall x :: x in ValidatorNodes(d, initialHeight, quorum, n) ==>
      Unlinked(ValidatorNodes(d, initialHeight, quorum, n)[x]) && ValidatorNodes(d, initialHeight, quorum, n)[x].mode == Validator
  {
    if n > 0 {
      ValidatorNodesUnlinked(d, initialHeight, quorum, n - 1);
      GeneratedNodeConsistent(d.node(ValidatorName(n)), Validator, ValidatorStart(initialHeight, quorum, n), n <= 2);
    }
  }

  lemma {:induction false} FullNodesUnlinked(d: TestnetDraws, next0: int, n: nat)
    ensures forall x :: x in FullNodes(d, next0, n) ==> Unlinked(FullNodes(d, next0, n)[x]) && FullNodes(d, next0, n)[x].mode == Full
  {
    if n > 0 {
      FullNodesUnlinked(d, next0, n - 1);
      GeneratedNodeConsistent(d.node(FullName(n)), Full, FullStart(next0, d.fullStartsLate, n), false);
    }
  }

  /**
   * Every generated node is unlinked and retention-consistent, none is a
   * light node, and the seeds are exactly seed01 .. seed<n>.
   */
  lemma GeneratedShape(d: TestnetDraws, initialHeight: int, c: Counts)
    ensures forall x :: x in Generated(d, initialHeight, c) ==>
      && Unlinked(Generated(d, initialHeight, c)[x])
      && Generated(d, initialHeight, c)[x].mode != Light
      && (Generated(d, initialHeight, c)[x].mode == Seed <==> x in Names("seed", c.seeds))
  {
    var q := Quorum(c.validators);
    var next0 := FullsFrom(initialHeight, c);
    SeedNodesUnlinked(d, c.seeds);
    ValidatorNodesUnlinked(d, initialHeight, q, c.validators);
    FullNodesUnlinked(d, next0, c.fulls);
    SeedNodesKeys(d, c.seeds);
    ValidatorNodesKeys(d, initialHeight, q, c.validators);
    FullNodesKeys(d, next0, c.fulls);
    NamesDistinct("seed", c.seeds);
    NamesDistinct("validator", c.validators);
    NamesDistinct("full", c.fulls);
  }

  // ---------------------------------------------------------------------
  // Meshing, wiring and the light clients

  /** Meshing the seeds of g, each listed once, gives each seed the other seeds and leaves every other node alone. */
  lemma MeshOf(g: Nodes, s: seq<string>)
    requires Distinct(s)
    requires forall y :: y in s <==> y in g && g[y].mode == Seed
    ensures var m := Meshed(g, s, |s|);
      forall x :: x in g ==> x in m && m[x] == (if g[x].mode == Seed then g[x].(seeds := g[x].seeds + Filter(s, Other(x))) else g[x])
  {
    MeshedNodes(g, s, |s|);
    assert s[..|s|] == s;
    forall x | x in g && g[x].mode == Seed
      ensures exists i :: 0 <= i < |s| && s[i] == x
    {
      assert x in s;
    }
  }

  /** Meshing gives each seed the other seeds and leaves every other node alone. */
  lemma MeshedShape(d: TestnetDraws, initialHeight: int, c: Counts)
    ensures var g, m, s := Generated(d, initialHeight, c), SeedsMeshed(d, initialHeight, c), SeedList(d, initialHeight, c);
      forall x :: x in g ==> x in m && m[x] == (if g[x].mode == Seed then g[x].(seeds := g[x].seeds + Filter(s, Other(x))) else g[x])
  {
    var g, s := Generated(d, initialHeight, c), SeedList(d, initialHeight, c);
    VisitOrderGenerated(d, initialHeight, c);
    VisitOrderDistinct(c);
    FilterDistinct(VisitOrder(c), IsSeedIn(g));
    ClassesPartition(g, VisitOrder(c), initialHeight);
    MeshOf(g, s);
  }

  /** The start order is sorted by start height and name. */
  lemma StartOrderSorted(d: TestnetDraws, initialHeight: int, c: Counts)
    ensures Sorted(SeedsMeshed(d, initialHeight, c), StartOrder(d, initialHeight, c))
  {
    var g := Generated(d, initialHeight, c);
    VisitOrderGenerated(d, initialHeight, c);
    VisitOrderDistinct(c);
    FilterDistinct(VisitOrder(c), IsPeerIn(g));
    ClassesPartition(g, VisitOrder(c), initialHeight);
    SortPeersSorted(SeedsMeshed(d, initialHeight, c), PeerList(d, initialHeight, c));
  }

  /** The start order holds each non-seed node exactly once. */
  lemma StartOrderMembers(d: TestnetDraws, initialHeight: int, c: Counts)
    ensures var g, p := Generated(d, initialHeight, c), StartOrder(d, initialHeight, c);
      Distinct(p) && forall x :: x in p <==> x in g && g[x].mode != Seed
  {
    var g, m, p := Generated(d, initialHeight, c), SeedsMeshed(d, initialHeight, c), StartOrder(d, initialHeight, c);
    var peers := PeerList(d, initialHeight, c);
    StartOrderSorted(d, initialHeight, c);
    SortedDistinct(m, p);
    VisitOrderGenerated(d, initialHeight, c);
    ClassesPartition(g, VisitOrder(c), initialHeight);
    forall x
      ensures x in p <==> x in peers
    {
      assert x in p <==> x in multiset(p);
      assert x in peers <==> x in multiset(peers);
    }
  }

  /** Wiring the non-seed nodes of g, each listed once, links each of them and leaves the seeds alone. */
  lemma WiringOf(g: Nodes, m: Nodes, p: seq<string>, s: seq<string>, d: TestnetDraws)
    requires forall x :: x in g ==> x in m && (g[x].mode != Seed ==> m[x] == g[x])
    requires Distinct(p)
    requires forall x :: x in p <==> x in g && g[x].mode != Seed
    ensures var w := Wired(m, p, s, d, |p|);
      forall x :: x in g ==>
        && x in w
        && (g[x].mode == Seed ==> w[x] == m[x])
        && (g[x].mode != Seed ==> exists i :: 0 <= i < |p| && p[i] == x && w[x] == WireOne(g[x], i, p, s, d))
  {
    var w := Wired(m, p, s, d, |p|);
    WiredNodes(m, p, s, d, |p|);
    assert p[..|p|] == p;
    forall x | x in g && g[x].mode != Seed
      ensures exists i :: 0 <= i < |p| && p[i] == x && w[x] == WireOne(g[x], i, p, s, d)
    {
      var i :| 0 <= i < |p| && p[i] == x;
    }
  }

  /** Wiring links each peer and leaves the seeds alone. */
  lemma WiredShape(d: TestnetDraws, initialHeight: int, c: Counts)
    ensures var g, m, w, p, s := Generated(d, initialHeight, c), SeedsMeshed(d, initialHeight, c),
        PeersWired(d, initialHeight, c), StartOrder(d, initialHeight, c), SeedList(d, initialHeight, c);
      forall x :: x in g ==>
        && x in w
        && (g[x].mode == Seed ==> w[x] == m[x])
        && (g[x].mode != Seed ==> exists i :: 0 <= i < |p| && p[i] == x && w[x] == WireOne(g[x], i, p, s, d))
  {
    MeshedShape(d, initialHeight, c);
    StartOrderMembers(d, initialHeight, c);
    WiringOf(Generated(d, initialHeight, c), SeedsMeshed(d, initialHeight, c), StartOrder(d, initialHeight, c),
      SeedList(d, initialHeight, c), d);
  }

  /** Names with different first letters never clash. */
  lemma NamesApart(p1: string, n1: nat, p2: string, n2: nat)
    requires p1 != [] && p2 != [] && p1[0] != p2[0]
    ensures forall x :: x in Names(p1, n1) ==> x !in Names(p2, n2)
  {
    NamesDistinct(p1, n1);
    NamesDistinct(p2, n2);
  }

  /** Light-client names never clash with generated ones. */
  lemma LightNamesApart(d: TestnetDraws, initialHeight: int, c: Counts)
    ensures forall x :: x in Generated(d, initialHeight, c) ==>
      x !in LightNodes(d, initialHeight, ProviderList(d, initialHeight, c), c.lightClients)
  {
    VisitOrderGenerated(d, initialHeight, c);
    LightNodesKeys(d, initialHeight, ProviderList(d, initialHeight, c), c.lightClients);
    NamesApart("seed", c.seeds, "light", c.lightClients);
    NamesApart("validator", c.validators, "light", c.lightClients);
    NamesApart("full", c.fulls, "light", c.lightClients);
  }

  /** The manifest's nodes: the wired generated nodes and, under other names, the light clients. */
  lemma FinalShape(d: TestnetDraws, initialHeight: int, c: Counts)
    ensures var g, w, f := Generated(d, initialHeight, c), PeersWired(d, initialHeight, c), ManifestNodes(d, initialHeight, c);
      var l := LightNodes(d, initialHeight, ProviderList(d, initialHeight, c), c.lightClients);
      && (forall x :: x in f <==> x in g || x in l)
      && (forall x :: x in g ==> x !in l && f[x] == w[x])
      && (forall x :: x in l ==> f[x] == l[x])
  {
    var g, w := Generated(d, initialHeight, c), PeersWired(d, initialHeight, c);
    assert w.Keys == SeedsMeshed(d, initialHeight, c).Keys == g.Keys;
    LightNamesApart(d, initialHeight, c);
  }

  /** The light clients, each following the providers and keeping no blocks. */
  lemma {:induction false} LightNodesShape(d: TestnetDraws, initialHeight: int, providers: seq<string>, n: nat)
    ensures forall x :: x in LightNodes(d, initialHeight, providers, n) ==>
      var node := LightNodes(d, initialHeight, providers, n)[x];
      && node.mode == Light && node.seeds == [] && node.persistentPeers == providers
      && node.retainBlocks == 0 && RetentionConsistent(node)
  {
    if n > 0 {
      LightNodesShape(d, initialHeight, providers, n - 1);
    }
  }

  /** A start order over one map is one over any map that agrees on start heights. */
  lemma SortedTransfer(a: Nodes, b: Nodes, ys: seq<string>)
    requires Sorted(a, ys)
    requires forall y :: y in ys ==> y in b && y in a && b[y].startAt == a[y].startAt
    ensures Sorted(b, ys)
  {
  }

  // ---------------------------------------------------------------------
  // The final nodes, node by node

  /**
   * How each final node arises: a seed is its generated node with the other
   * seeds appended, any other generated node is its generated node wired
   * at its place in the start order, and every other name is a light client.
   */
  ghost predicate Described(g: Nodes, f: Nodes, l: Nodes, p: seq<string>, s: seq<string>, d: TestnetDraws)
  {
    && (forall x :: x in f <==> x in g || x in l)
    && (forall x :: x in l ==> x !in g && f[x] == l[x])
    && (forall x :: x in g && g[x].mode == Seed ==> f[x] == g[x].(seeds := g[x].seeds + Filter(s, Other(x))))
    && (forall x :: x in g && g[x].mode != Seed ==>
          exists i :: 0 <= i < |p| && p[i] == x && f[x] == WireOne(g[x], i, p, s, d))
  }

  lemma ManifestDescribed(d: TestnetDraws, initialHeight: int, c: Counts)
    ensures Described(Generated(d, initialHeight, c), ManifestNodes(d, initialHeight, c),
      LightNodes(d, initialHeight, ProviderList(d, initialHeight, c), c.lightClients),
      StartOrder(d, initialHeight, c), SeedList(d, initialHeight, c), d)
  {
    MeshedShape(d, initialHeight, c);
    WiredShape(d, initialHeight, c);
    FinalShape(d, initialHeight, c);
  }

  /** The start order also sorts the generated nodes, which share their start heights. */
  lemma StartOrderSortsGenerated(d: TestnetDraws, initialHeight: int, c: Counts)
    ensures Sorted(Generated(d, initialHeight, c), StartOrder(d, initialHeight, c))
  {
    var g, m, p := Generated(d, initialHeight, c), SeedsMeshed(d, initialHeight, c), StartOrder(d, initialHeight, c);
    StartOrderSorted(d, initialHeight, c);
    StartOrderMembers(d, initialHeight, c);
    MeshedShape(d, initialHeight, c);
    SortedTransfer(m, g, p);
  }

  /** A final node made from a generated one differs from it in its links only. */
  lemma DescribedLinksOnly(g: Nodes, f: Nodes, l: Nodes, p: seq<string>, s: seq<string>, d: TestnetDraws)
    requires Described(g, f, l, p, s, d)
    ensures forall x :: x in g ==> x in f && LinksOnly(g[x], f[x])
  {
    forall x | x in g && g[x].mode != Seed
      ensures LinksOnly(g[x], f[x])
    {
      var i :| 0 <= i < |p| && p[i] == x && f[x] == WireOne(g[x], i, p, s, d);
    }
  }

  /**
   * What generation and classification leave for the linking: unlinked
   * nodes, none of them light, the seeds listed once each, and the other
   * nodes listed once each in start order.
   */
  ghost predicate Generation(g: Nodes, p: seq<string>, s: seq<string>)
  {
    && (forall x :: x in g ==> Unlinked(g[x]) && g[x].mode != Light)
    && Distinct(s) && (forall y :: y in s <==> y in g && g[y].mode == Seed)
    && Sorted(g, p) && (forall y :: y in p <==> y in g && g[y].mode != Seed)
  }

  lemma ManifestGeneration(d: TestnetDraws, initialHeight: int, c: Counts)
    ensures Generation(Generated(d, initialHeight, c), StartOrder(d, initialHeight, c), SeedList(d, initialHeight, c))
  {
    var g := Generated(d, initialHeight, c);
    GeneratedShape(d, initialHeight, c);
    VisitOrderGenerated(d, initialHeight, c);
    VisitOrderDistinct(c);
    FilterDistinct(VisitOrder(c), IsSeedIn(g));
    ClassesPartition(g, VisitOrder(c), initialHeight);
    StartOrderSortsGenerated(d, initialHeight, c);
    StartOrderMembers(d, initialHeight, c);
  }

  /** Linking keeps every node's retention settings, so all of them stay consistent. */
  lemma RetentionKept(g: Nodes, f: Nodes, l: Nodes, p: seq<string>, s: seq<string>, d: TestnetDraws)
    requires Described(g, f, l, p, s, d) && Generation(g, p, s)
    requires forall x :: x in l ==> RetentionConsistent(l[x])
    ensures forall x :: x in f ==> RetentionConsistent(f[x])
  {
    DescribedLinksOnly(g, f, l, p, s, d);
    forall x | x in g
      ensures RetentionConsistent(f[x])
    {
      assert Unlinked(g[x]);
      assert LinksOnly(g[x], f[x]);
    }
  }

  /** A seed lists exactly the other seeds, each once, and no persistent peers. */
  lemma SeedMeshAt(g: Nodes, f: Nodes, l: Nodes, p: seq<string>, s: seq<string>, d: TestnetDraws, x: string)
    requires Described(g, f, l, p, s, d) && Generation(g, p, s)
    requires forall z :: z in l ==> l[z].mode == Light
    requires x in f && f[x].mode == Seed
    ensures f[x].persistentPeers == [] && Distinct(f[x].seeds)
    ensures forall y :: y in f[x].seeds <==> y in f && f[y].mode == Seed && y != x
  {
    DescribedLinksOnly(g, f, l, p, s, d);
    assert x in g && LinksOnly(g[x], f[x]) && Unlinked(g[x]);
    MeshLinksOthers(s, x);
    assert f[x].seeds == Filter(s, Other(x));
    forall y | y in f
      ensures f[y].mode == Seed <==> y in g && g[y].mode == Seed
    {
      if y in g {
        assert LinksOnly(g[y], f[y]);
      }
    }
  }

  lemma SeedMeshAll(g: Nodes, f: Nodes, l: Nodes, p: seq<string>, s: seq<string>, d: TestnetDraws)
    requires Described(g, f, l, p, s, d) && Generation(g, p, s)
    requires forall z :: z in l ==> l[z].mode == Light
    ensures forall x :: x in f && f[x].mode == Seed ==>
      && f[x].persistentPeers == [] && Distinct(f[x].seeds)
      && forall y :: y in f[x].seeds <==> y in f && f[y].mode == Seed && y != x
  {
    forall x | x in f && f[x].mode == Seed
      ensures f[x].persistentPeers == [] && Distinct(f[x].seeds)
      ensures forall y :: y in f[x].seeds <==> y in f && f[y].mode == Seed && y != x
    {
      SeedMeshAt(g, f, l, p, s, d, x);
    }
  }

  /** Wiring an unlinked node gives it drawn seeds or drawn earlier peers, never both, and changes nothing else. */
  lemma WireOneLinks(node: ManifestNode, i: nat, p: seq<string>, s: seq<string>, d: TestnetDraws)
    requires i < |p| && Unlinked(node)
    ensures var w := WireOne(node, i, p, s, d);
      && LinksOnly(node, w)
      && (w.seeds == [] || w.persistentPeers == [])
      && (forall y :: y in w.seeds ==> y in s)
      && (forall y :: y in w.persistentPeers ==> exists k :: 0 <= k < i && p[k] == y)
  {
    var w := WireOne(node, i, p, s, d);
    forall y | y in w.persistentPeers
      ensures exists k :: 0 <= k < i && p[k] == y
    {
      assert y in p[..i];
    }
  }

  /** A wired node's seeds are seeds, and it has them only when it has no persistent peers. */
  lemma PeerSeedsAt(g: Nodes, f: Nodes, l: Nodes, p: seq<string>, s: seq<string>, d: TestnetDraws, x: string)
    requires Described(g, f, l, p, s, d) && Generation(g, p, s)
    requires x in g && g[x].mode != Seed
    ensures f[x].seeds == [] || f[x].persistentPeers == []
    ensures forall y :: y in f[x].seeds ==> y in f && f[y].mode == Seed
  {
    var i :| 0 <= i < |p| && p[i] == x && f[x] == WireOne(g[x], i, p, s, d);
    WireOneLinks(g[x], i, p, s, d);
    DescribedLinksOnly(g, f, l, p, s, d);
    forall y | y in f[x].seeds
      ensures y in f && f[y].mode == Seed
    {
      assert LinksOnly(g[y], f[y]);
    }
  }

  /** Each persistent peer of a wired node is a validator or full node that comes before it in start order. */
  lemma PeerPersistentAt(g: Nodes, f: Nodes, l: Nodes, p: seq<string>, s: seq<string>, d: TestnetDraws, x: string)
    requires Described(g, f, l, p, s, d) && Generation(g, p, s)
    requires x in g && g[x].mode != Seed
    ensures forall y :: y in f[x].persistentPeers ==>
      y in f && f[y].mode != Seed && f[y].mode != Light && Before(f, y, x)
  {
    var i :| 0 <= i < |p| && p[i] == x && f[x] == WireOne(g[x], i, p, s, d);
    WireOneLinks(g[x], i, p, s, d);
    DescribedLinksOnly(g, f, l, p, s, d);
    forall y | y in f[x].persistentPeers
      ensures y in f && f[y].mode != Seed && f[y].mode != Light && Before(f, y, x)
    {
      var k :| 0 <= k < i && p[k] == y;
      assert Before(g, y, x);
      assert LinksOnly(g[y], f[y]);
    }
  }

  /**
   * A validator or full node links either to seeds or to persistent peers,
   * never both; its seeds are seeds, and each of its persistent peers is a
   * validator or full node that comes before it in start order.
   */
  lemma PeerLinksAt(g: Nodes, f: Nodes, l: Nodes, p: seq<string>, s: seq<string>, d: TestnetDraws, x: string)
    requires Described(g, f, l, p, s, d) && Generation(g, p, s)
    requires forall z :: z in l ==> l[z].mode == Light
    requires x in f && f[x].mode != Seed && f[x].mode != Light
    ensures f[x].seeds == [] || f[x].persistentPeers == []
    ensures forall y :: y in f[x].seeds ==> y in f && f[y].mode == Seed
    ensures forall y :: y in f[x].persistentPeers ==>
      y in f && f[y].mode != Seed && f[y].mode != Light && Before(f, y, x)
  {
    DescribedLinksOnly(g, f, l, p, s, d);
    assert x in g && LinksOnly(g[x], f[x]);
    PeerSeedsAt(g, f, l, p, s, d, x);
    PeerPersistentAt(g, f, l, p, s, d, x);
  }

  lemma PeerLinksAll(g: Nodes, f: Nodes, l: Nodes, p: seq<string>, s: seq<string>, d: TestnetDraws)
    requires Described(g, f, l, p, s, d) && Generation(g, p, s)
    requires forall z :: z in l ==> l[z].mode == Light
    ensures forall x :: x in f && f[x].mode != Seed && f[x].mode != Light ==>
      && (f[x].seeds == [] || f[x].persistentPeers == [])
      && (forall y :: y in f[x].seeds ==> y in f && f[y].mode == Seed)
      && (forall y :: y in f[x].persistentPeers ==>
            y in f && f[y].mode != Seed && f[y].mode != Light && Before(f, y, x))
  {
    forall x | x in f && f[x].mode != Seed && f[x].mode != Light
      ensures f[x].seeds == [] || f[x].persistentPeers == []
      ensures forall y :: y in f[x].seeds ==> y in f && f[y].mode == Seed
      ensures forall y :: y in f[x].persistentPeers ==>
        y in f && f[y].mode != Seed && f[y].mode != Light && Before(f, y, x)
    {
      PeerLinksAt(g, f, l, p, s, d, x);
    }
  }

  /**
   * Light clients that follow providers which are validators or full
   * nodes starting at 0 or h and keeping every block keep doing so once
   * the generated nodes are linked.
   */
  lemma LightFollowAll(g: Nodes, f: Nodes, l: Nodes, p: seq<string>, s: seq<string>, d: TestnetDraws,
                       providers: seq<string>, h: int)
    requires Described(g, f, l, p, s, d) && Generation(g, p, s)
    requires forall z :: z in l ==>
      l[z].mode == Light && l[z].seeds == [] && l[z].persistentPeers == providers && l[z].retainBlocks == 0
    requires forall y :: y in providers ==>
      y in g && g[y].mode != Seed && (g[y].startAt == 0 || g[y].startAt == h) && g[y].retainBlocks == 0
    ensures forall x :: x in f && f[x].mode == Light ==>
      && f[x].seeds == [] && f[x].retainBlocks == 0 && f[x].persistentPeers == providers
      && forall y :: y in providers ==>
           && y in f && f[y].mode != Seed && f[y].mode != Light
           && (f[y].startAt == 0 || f[y].startAt == h) && f[y].retainBlocks == 0
  {
    DescribedLinksOnly(g, f, l, p, s, d);
    forall y | y in providers
      ensures y in f && f[y].mode != Seed && f[y].mode != Light
      ensures (f[y].startAt == 0 || f[y].startAt == h) && f[y].retainBlocks == 0
    {
      assert LinksOnly(g[y], f[y]);
    }
    forall x | x in g
      ensures f[x].mode != Light
    {
      assert LinksOnly(g[x], f[x]);
    }
  }

  /** Every provider is a validator or full node starting at 0 or at the initial height that keeps every block. */
  lemma ProvidersShape(d: TestnetDraws, initialHeight: int, c: Counts)
    ensures var g := Generated(d, initialHeight, c);
      forall y :: y in ProviderList(d, initialHeight, c) ==>
        y in g && g[y].mode != Seed && (g[y].startAt == 0 || g[y].startAt == initialHeight) && g[y].retainBlocks == 0
  {
    ClassesPartition(Generated(d, initialHeight, c), VisitOrder(c), initialHeight);
  }

  /**
   * The first two validators are archive nodes that start at height 0, so
   * they are always among the light-client providers.
   */
  lemma ArchiveValidator(d: TestnetDraws, initialHeight: int, c: Counts, i: nat)
    requires 1 <= i <= 2 && i <= c.validators
    ensures var f, name := ManifestNodes(d, initialHeight, c), ValidatorName(i);
      && name in f && f[name].mode == Validator && f[name].startAt == 0
      && f[name].retainBlocks == 0 && f[name].snapshotInterval == 3
      && name in ProviderList(d, initialHeight, c)
  {
    var n, q := c.validators, Quorum(c.validators);
    var g, f, name := Generated(d, initialHeight, c), ManifestNodes(d, initialHeight, c), ValidatorName(i);
    var v := ValidatorNodes(d, initialHeight, q, n);
    assert i <= q;
    ValidatorNodesAt(d, initialHeight, q, n, i);
    GeneratedNodeConsistent(d.node(name), Validator, 0, true);
    ValidatorNodesKeys(d, initialHeight, q, n);
    FullNodesKeys(d, FullsFrom(initialHeight, c), c.fulls);
    NamesApart("validator", n, "full", c.fulls);
    assert g[name] == v[name];
    VisitOrderGenerated(d, initialHeight, c);
    FilterMembers(VisitOrder(c), IsProviderIn(g, initialHeight));
    ManifestDescribed(d, initialHeight, c);
    DescribedLinksOnly(g, f, LightNodes(d, initialHeight, ProviderList(d, initialHeight, c), c.lightClients),
      StartOrder(d, initialHeight, c), SeedList(d, initialHeight, c), d);
    assert LinksOnly(g[name], f[name]);
  }

  // ---------------------------------------------------------------------
  // The final nodes, for any node counts

  /** The final nodes are the generated names and the light-client names. */
  lemma ManifestNames(d: TestnetDraws, initialHeight: int, c: Counts)
    ensures forall x :: x in ManifestNodes(d, initialHeight, c) <==>
      x in Names("seed", c.seeds) || x in Names("validator", c.validators)
      || x in Names("full", c.fulls) || x in Names("light", c.lightClients)
  {
    FinalShape(d, initialHeight, c);
    VisitOrderGenerated(d, initialHeight, c);
    LightNodesKeys(d, initialHeight, ProviderList(d, initialHeight, c), c.lightClients);
  }

  /** The seedNN nodes are the seeds and the lightNN nodes the light clients. */
  lemma ManifestModes(d: TestnetDraws, initialHeight: int, c: Counts)
    ensures var f := ManifestNodes(d, initialHeight, c);
      forall x :: x in f ==>
        && (f[x].mode == Seed <==> x in Names("seed", c.seeds))
        && (f[x].mode == Light <==> x in Names("light", c.lightClients))
  {
    var g, f := Generated(d, initialHeight, c), ManifestNodes(d, initialHeight, c);
    var l := LightNodes(d, initialHeight, ProviderList(d, initialHeight, c), c.lightClients);
    ManifestDescribed(d, initialHeight, c);
    DescribedLinksOnly(g, f, l, StartOrder(d, initialHeight, c), SeedList(d, initialHeight, c), d);
    GeneratedShape(d, initialHeight, c);
    LightNodesKeys(d, initialHeight, ProviderList(d, initialHeight, c), c.lightClients);
    LightNodesShape(d, initialHeight, ProviderList(d, initialHeight, c), c.lightClients);
    LightNamesApart(d, initialHeight, c);
    VisitOrderGenerated(d, initialHeight, c);
    NamesApart("seed", c.seeds, "light", c.lightClients);
    forall x | x in f
      ensures f[x].mode == Seed <==> x in Names("seed", c.seeds)
      ensures f[x].mode == Light <==> x in Names("light", c.lightClients)
    {
      if x in g {
        assert LinksOnly(g[x], f[x]);
      }
    }
  }

  lemma ManifestRetention(d: TestnetDraws, initialHeight: int, c: Counts)
    ensures var f := ManifestNodes(d, initialHeight, c);
      forall x :: x in f ==> RetentionConsistent(f[x])
  {
    var providers := ProviderList(d, initialHeight, c);
    ManifestDescribed(d, initialHeight, c);
    ManifestGeneration(d, initialHeight, c);
    LightNodesShape(d, initialHeight, providers, c.lightClients);
    RetentionKept(Generated(d, initialHeight, c), ManifestNodes(d, initialHeight, c),
      LightNodes(d, initialHeight, providers, c.lightClients),
      StartOrder(d, initialHeight, c), SeedList(d, initialHeight, c), d);
  }

  lemma ManifestSeedMesh(d: TestnetDraws, initialHeight: int, c: Counts)
    ensures var f := ManifestNodes(d, initialHeight, c);
      forall x :: x in f && f[x].mode == Seed ==>
        && f[x].persistentPeers == [] && Distinct(f[x].seeds)
        && forall y :: y in f[x].seeds <==> y in f && f[y].mode == Seed && y != x
  {
    var providers := ProviderList(d, initialHeight, c);
    ManifestDescribed(d, initialHeight, c);
    ManifestGeneration(d, initialHeight, c);
    LightNodesShape(d, initialHeight, providers, c.lightClients);
    SeedMeshAll(Generated(d, initialHeight, c), ManifestNodes(d, initialHeight, c),
      LightNodes(d, initialHeight, providers, c.lightClients),
      StartOrder(d, initialHeight, c), SeedList(d, initialHeight, c), d);
  }

  lemma ManifestPeerLinks(d: TestnetDraws, initialHeight: int, c: Counts)
    ensures var f := ManifestNodes(d, initialHeight, c);
      forall x :: x in f && f[x].mode != Seed && f[x].mode != Light ==>
        && (f[x].seeds == [] || f[x].persistentPeers == [])
        && (forall y :: y in f[x].seeds ==> y in f && f[y].mode == Seed)
        && (forall y :: y in f[x].persistentPeers ==>
              y in f && f[y].mode != Seed && f[y].mode != Light && Before(f, y, x))
  {
    var providers := ProviderList(d, initialHeight, c);
    ManifestDescribed(d, initialHeight, c);
    ManifestGeneration(d, initialHeight, c);
    LightNodesShape(d, initialHeight, providers, c.lightClients);
    PeerLinksAll(Generated(d, initialHeight, c), ManifestNodes(d, initialHeight, c),
      LightNodes(d, initialHeight, providers, c.lightClients),
      StartOrder(d, initialHeight, c), SeedList(d, initialHeight, c), d);
  }

  lemma ManifestLightClients(d: TestnetDraws, initialHeight: int, c: Counts)
    ensures var f, providers := ManifestNodes(d, initialHeight, c), ProviderList(d, initialHeight, c);
      forall x :: x in f && f[x].mode == Light ==>
        && f[x].seeds == [] && f[x].retainBlocks == 0 && f[x].persistentPeers == providers
        && forall y :: y in providers ==>
             && y in f && f[y].mode != Seed && f[y].mode != Light
             && (f[y].startAt == 0 || f[y].startAt == initialHeight) && f[y].retainBlocks == 0
  {
    var providers := ProviderList(d, initialHeight, c);
    ManifestDescribed(d, initialHeight, c);
    ManifestGeneration(d, initialHeight, c);
    LightNodesShape(d, initialHeight, providers, c.lightClients);
    ProvidersShape(d, initialHeight, c);
    LightFollowAll(Generated(d, initialHeight, c), ManifestNodes(d, initialHeight, c),
      LightNodes(d, initialHeight, providers, c.lightClients),
      StartOrder(d, initialHeight, c), SeedList(d, initialHeight, c), d, providers, initialHeight);
  }

  /** The starting validators: exactly the first quorum ones, more than two thirds, powers 30 to 100. */
  lemma StartingValidators(d: TestnetDraws, initialHeight: int, n: nat)
    requires initialHeight >= 0 && n >= 1
    ensures var g := GenesisValidators(d, initialHeight, Quorum(n), n);
      && (forall x :: x in g <==> x in Names("validator", Min(n, Quorum(n))))
      && 3 * |g.Keys| > 2 * n
      && (forall x :: x in g ==> 30 <= g[x] <= 100)
  {
    GenesisValidatorsMembers(d, initialHeight, Quorum(n), n);
    GenesisQuorum(d, initialHeight, n);
  }

  /** The updates for late validators: keyed by join heights, never "0", one validator each. */
  lemma LateUpdates(d: TestnetDraws, initialHeight: int, n: nat)
    requires initialHeight >= 0
    ensures var u := ValidatorUpdates(d, initialHeight, Quorum(n), n);
      && "0" !in u
      && forall k :: k in u ==>
           && (exists i :: Quorum(n) < i <= n && k == UpdateKey(initialHeight, Quorum(n), i))
           && |u[k].Keys| == 1
  {
    ValidatorUpdatesKeys(d, initialHeight, Quorum(n), n);
    ValidatorUpdatesEntries(d, initialHeight, Quorum(n), n);
    ValidatorUpdatesAvoidZero(d, initialHeight, Quorum(n), n);
  }

  // ---------------------------------------------------------------------
  // The manifest generateTestnet returns

  /** Generation fails exactly for an unknown topology or validators option; the topology is checked first. */
  lemma TestnetErrors(d: TestnetDraws, opt: Options, upgradeVersion: string, prometheus: bool)
    ensures var r, known := Testnet(d, opt, upgradeVersion, prometheus), opt.topology in ["single", "quad", "large"];
      && (r.Err? <==> !known || !ValidOption(opt.validators))
      && (r.Err? && !known ==> r.error == UnknownTopology(opt.topology))
      && (r.Err? && known ==> r.error == InvalidValidators(opt.validators))
  {
  }

  /**
   * The validators that start the chain: with a non-negative initial
   * height, exactly the first quorum validators, more than two thirds of
   * all of them, with powers between 30 and 100, either as the genesis
   * set or as the update at height "0"; every other update is keyed by
   * the join height of a late validator and adds that one validator.
   */
  lemma ValidatorSets(d: TestnetDraws, initialHeight: int, c: Counts, option: string)
    requires ValidOption(option) && initialHeight >= 0 && c.validators >= 1
    ensures var n, vs, us := c.validators, ValidatorSet(d, initialHeight, c, option), UpdateSet(d, initialHeight, c, option);
      && (option == "genesis" ==> "0" !in us)
      && (option == "initchain" ==> vs == map[] && "0" in us)
      && var start := if option == "genesis" then vs else us["0"];
      && (forall x :: x in start <==> x in Names("validator", Min(n, Quorum(n))))
      && 3 * |start.Keys| > 2 * n
      && (forall x :: x in start ==> 30 <= start[x] <= 100)
      && forall k :: k in us && k != "0" ==>
           && (exists i :: Quorum(n) < i <= n && k == UpdateKey(initialHeight, Quorum(n), i))
           && |us[k].Keys| == 1
  {
    StartingValidators(d, initialHeight, c.validators);
    LateUpdates(d, initialHeight, c.validators);
  }

  lemma TestnetValidators(d: TestnetDraws, opt: Options, upgradeVersion: string, prometheus: bool)
    requires Testnet(d, opt, upgradeVersion, prometheus).Ok? && opt.initialHeight >= 0
    ensures var m, n := Testnet(d, opt, upgradeVersion, prometheus).value, TopologyCounts(opt.topology, d).value.validators;
      && (opt.validators == "genesis" ==> "0" !in m.validatorUpdates)
      && (opt.validators == "initchain" ==> m.validators == map[] && "0" in m.validatorUpdates)
      && var start := if opt.validators == "genesis" then m.validators else m.validatorUpdates["0"];
      && (forall x :: x in start <==> x in Names("validator", Min(n, Quorum(n))))
      && 3 * |start.Keys| > 2 * n
      && (forall x :: x in start ==> 30 <= start[x] <= 100)
      && forall k :: k in m.validatorUpdates && k != "0" ==>
           && (exists i :: Quorum(n) < i <= n && k == UpdateKey(opt.initialHeight, Quorum(n), i))
           && |m.validatorUpdates[k].Keys| == 1
  {
    var h, c := opt.initialHeight, TopologyCounts(opt.topology, d).value;
    var m := Testnet(d, opt, upgradeVersion, prometheus).value;
    assert m.validators == ValidatorSet(d, h, c, opt.validators);
    assert m.validatorUpdates == UpdateSet(d, h, c, opt.validators);
    ValidatorSets(d, h, c, opt.validators);
  }

  /** The nodes are seed01.., validator01.., full01.. and light01..; the seedNN nodes are exactly the seeds. */
  lemma TestnetNodeNames(d: TestnetDraws, opt: Options, upgradeVersion: string, prometheus: bool)
    requires Testnet(d, opt, upgradeVersion, prometheus).Ok?
    ensures var nodes, c := Testnet(d, opt, upgradeVersion, prometheus).value.nodes, TopologyCounts(opt.topology, d).value;
      && (forall x :: x in nodes <==>
            x in Names("seed", c.seeds) || x in Names("validator", c.validators)
            || x in Names("full", c.fulls) || x in Names("light", c.lightClients))
      && (forall x :: x in nodes ==> (nodes[x].mode == Seed <==> x in Names("seed", c.seeds)))
      && (forall x :: x in nodes ==> (nodes[x].mode == Light <==> x in Names("light", c.lightClients)))
  {
    var h, c := opt.initialHeight, TopologyCounts(opt.topology, d).value;
    assert Testnet(d, opt, upgradeVersion, prometheus).value.nodes == ManifestNodes(d, h, c);
    ManifestNames(d, h, c);
    ManifestModes(d, h, c);
  }

  /** Every node of the manifest keeps blocks, persists state and snapshots consistently. */
  lemma TestnetRetention(d: TestnetDraws, opt: Options, upgradeVersion: string, prometheus: bool)
    requires Testnet(d, opt, upgradeVersion, prometheus).Ok?
    ensures var nodes := Testnet(d, opt, upgradeVersion, prometheus).value.nodes;
      forall x :: x in nodes ==> RetentionConsistent(nodes[x])
  {
    var h, c := opt.initialHeight, TopologyCounts(opt.topology, d).value;
    assert Testnet(d, opt, upgradeVersion, prometheus).value.nodes == ManifestNodes(d, h, c);
    ManifestRetention(d, h, c);
  }

  /** The seeds are fully meshed: each lists every other seed once, and nothing else. */
  lemma TestnetSeedMesh(d: TestnetDraws, opt: Options, upgradeVersion: string, prometheus: bool)
    requires Testnet(d, opt, upgradeVersion, prometheus).Ok?
    ensures var nodes := Testnet(d, opt, upgradeVersion, prometheus).value.nodes;
      forall x :: x in nodes && nodes[x].mode == Seed ==>
        && nodes[x].persistentPeers == [] && Distinct(nodes[x].seeds)
        && forall y :: y in nodes[x].seeds <==> y in nodes && nodes[y].mode == Seed && y != x
  {
    var h, c := opt.initialHeight, TopologyCounts(opt.topology, d).value;
    assert Testnet(d, opt, upgradeVersion, prometheus).value.nodes == ManifestNodes(d, h, c);
    ManifestSeedMesh(d, h, c);
  }

  /**
   * Every validator and full node links to seeds or to persistent peers,
   * never both; its seeds are seeds, and its persistent peers are
   * validators or full nodes that start before it (or at the same height
   * with a name that compares lower).
   */
  lemma TestnetPeerLinks(d: TestnetDraws, opt: Options, upgradeVersion: string, prometheus: bool)
    requires Testnet(d, opt, upgradeVersion, prometheus).Ok?
    ensures var nodes := Testnet(d, opt, upgradeVersion, prometheus).value.nodes;
      forall x :: x in nodes && nodes[x].mode != Seed && nodes[x].mode != Light ==>
        && (nodes[x].seeds == [] || nodes[x].persistentPeers == [])
        && (forall y :: y in nodes[x].seeds ==> y in nodes && nodes[y].mode == Seed)
        && (forall y :: y in nodes[x].persistentPeers ==>
              y in nodes && nodes[y].mode != Seed && nodes[y].mode != Light && Before(nodes, y, x))
  {
    var h, c := opt.initialHeight, TopologyCounts(opt.topology, d).value;
    assert Testnet(d, opt, upgradeVersion, prometheus).value.nodes == ManifestNodes(d, h, c);
    ManifestPeerLinks(d, h, c);
  }

  /**
   * Every light client follows the same providers: validators or full
   * nodes that start at height 0 or at the initial height and keep every
   * block, validator01 and (with two or more validators) validator02 among
   * them; the light client itself keeps no blocks and uses no seeds.
   */
  lemma TestnetLightClients(d: TestnetDraws, opt: Options, upgradeVersion: string, prometheus: bool)
    requires Testnet(d, opt, upgradeVersion, prometheus).Ok?
    ensures var nodes, n := Testnet(d, opt, upgradeVersion, prometheus).value.nodes, TopologyCounts(opt.topology, d).value.validators;
      forall x :: x in nodes && nodes[x].mode == Light ==>
        && nodes[x].seeds == [] && nodes[x].retainBlocks == 0
        && ValidatorName(1) in nodes[x].persistentPeers
        && (n >= 2 ==> ValidatorName(2) in nodes[x].persistentPeers)
        && forall y :: y in nodes[x].persistentPeers ==>
             && y in nodes && nodes[y].mode != Seed && nodes[y].mode != Light
             && (nodes[y].startAt == 0 || nodes[y].startAt == opt.initialHeight) && nodes[y].retainBlocks == 0
  {
    var h, c := opt.initialHeight, TopologyCounts(opt.topology, d).value;
    assert Testnet(d, opt, upgradeVersion, prometheus).value.nodes == ManifestNodes(d, h, c);
    ArchiveValidator(d, h, c, 1);
    if c.validators >= 2 {
      ArchiveValidator(d, h, c, 2);
    }
    ManifestLightClients(d, h, c);
  }

  /** The first two validators are archive nodes starting at height 0. */
  lemma TestnetArchiveValidators(d: TestnetDraws, opt: Options, upgradeVersion: string, prometheus: bool)
    requires Testnet(d, opt, upgradeVersion, prometheus).Ok?
    ensures var nodes, n := Testnet(d, opt, upgradeVersion, prometheus).value.nodes, TopologyCounts(opt.topology, d).value.validators;
      forall i :: 1 <= i <= 2 && i <= n ==>
        && ValidatorName(i) in nodes && nodes[ValidatorName(i)].mode == Validator
        && nodes[ValidatorName(i)].startAt == 0 && nodes[ValidatorName(i)].retainBlocks == 0
        && nodes[ValidatorName(i)].snapshotInterval == 3
  {
    var h, c := opt.initialHeight, TopologyCounts(opt.topology, d).value;
    assert Testnet(d, opt, upgradeVersion, prometheus).value.nodes == ManifestNodes(d, h, c);
    forall i | 1 <= i <= 2 && i <= c.validators
      ensures var f := ManifestNodes(d, h, c);
        && ValidatorName(i) in f && f[ValidatorName(i)].mode == Validator
        && f[ValidatorName(i)].startAt == 0 && f[ValidatorName(i)].retainBlocks == 0
        && f[ValidatorName(i)].snapshotInterval == 3
    {
      ArchiveValidator(d, h, c, i);
    }
  }
}
