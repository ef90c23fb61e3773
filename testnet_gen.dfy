/**
 * The generation of one testnet manifest. Every random choice arrives as a
 * field of TestnetDraws; what remains is the generator's own logic: which
 * validators start at the initial height, the heights at which the others
 * join, the validator set and its updates, seed meshing and the wiring of
 * each peer to seeds or to peers that start before it.
 */
module TestnetGen {
  import opened Wrappers
  import opened Text
  import opened NodeGen
  import opened PeerOrder

  type Below2 = n: nat | n < 2
  type Below3 = n: nat | n < 3
  type Below4 = n: nat | n < 4
  type Below71 = n: nat | n < 71

  /** The options of one testnet in the Cartesian product of global options. */
  datatype Options = Options(topology: string, initialHeight: int, initialState: map<string, string>, validators: string)

  datatype AbciDelay = NoDelay | SmallDelay | LargeDelay

  /** The vote-extension update height draw: -1 (genesis), 0 (InitChain) or 1 (an offset from the initial height). */
  datatype VoteExtUpdate = AtGenesis | AtInitChain | AtOffset

  /**
   * The random values one generation draws. Per-node draws are indexed by
   * node name, per-position draws by the 1-based node number or the 0-based
   * position in the sorted peer list.
   */
  datatype TestnetDraws = TestnetDraws(
    ipv6: bool,
    abciProtocol: string,
    evidence: nat,
    abciDelay: AbciDelay,
    voteExtUpdate: VoteExtUpdate,
    updateOffset: nat,
    voteExtEnabled: bool,
    enableOffset: nat,
    numSeeds: Below2,
    numLightClients: Below3,
    extraValidators: Below4,
    numFulls: Below4,
    node: string -> NodeDraws,
    power: string -> Below71,
    fullStartsLate: nat -> bool,
    peerUsesSeeds: nat -> bool,
    seedPick: nat -> set<nat>,
    peerPick: nat -> set<nat>,
    light: nat -> LightDraws)

  /** The ABCI delays of a manifest, in milliseconds. */
  datatype Delays = Delays(prepareProposal: nat, processProposal: nat, checkTx: nat, voteExtension: nat, finalizeBlock: nat)

  datatype Manifest = Manifest(
    ipv6: bool,
    abciProtocol: string,
    initialHeight: int,
    initialState: map<string, string>,
    validators: map<string, int>,
    validatorUpdates: map<string, map<string, int>>,
    evidence: nat,
    nodes: map<string, ManifestNode>,
    upgradeVersion: string,
    prometheus: bool,
    delays: Delays,
    voteExtensionsUpdateHeight: int,
    voteExtensionsEnableHeight: int)

  datatype GenError = UnknownTopology(topology: string) | InvalidValidators(option: string)

  /** The delays each ABCI delay setting configures. */
  function DelaysFor(c: AbciDelay): (r: Delays)
    ensures c.NoDelay? <==> r == Delays(0, 0, 0, 0, 0)
    ensures r.checkTx > 0 <==> c.LargeDelay?
  {
    match c
    case NoDelay => Delays(0, 0, 0, 0, 0)
    case SmallDelay => Delays(100, 100, 0, 20, 200)
    case LargeDelay => Delays(200, 200, 20, 100, 500)
  }

  /**
   * The vote-extension heights: the update height is -1, 0 or the initial
   * height plus an offset; when extensions are enabled they are enabled
   * after the update height and no earlier than the initial height.
   */
  function VoteExtensionHeights(initialHeight: int, d: TestnetDraws): (r: (int, int))
    ensures d.voteExtUpdate.AtGenesis? ==> r.0 == -1
    ensures d.voteExtUpdate.AtInitChain? ==> r.0 == 0
    ensures d.voteExtUpdate.AtOffset? ==> r.0 >= initialHeight
    ensures d.voteExtEnabled ==> r.1 > r.0 && r.1 >= initialHeight
    ensures !d.voteExtEnabled ==> r.1 == 0
  {
    var update := match d.voteExtUpdate
      case AtGenesis => -1
      case AtInitChain => 0
      case AtOffset => initialHeight + d.updateOffset;
    var base := if update + 1 > initialHeight then update + 1 else initialHeight;
    (update, if d.voteExtEnabled then base + d.enableOffset else 0)
  }

  datatype Counts = Counts(seeds: nat, validators: nat, fulls: nat, lightClients: nat)

  /**
   * The node counts of a topology: one validator, four validators, or a
   * large network with up to one seed, two light clients, three full nodes
   * and four to seven validators. Any other topology is an error.
   */
  function TopologyCounts(topology: string, d: TestnetDraws): (r: Result<Counts, GenError>)
    ensures r.Err? <==> topology != "single" && topology != "quad" && topology != "large"
    ensures r.Err? ==> r.error == UnknownTopology(topology)
    ensures r.Ok? ==>
      && 1 <= r.value.validators <= 7 && r.value.seeds <= 1
      && r.value.fulls <= 3 && r.value.lightClients <= 2
    ensures r.Ok? && topology != "large" ==> r.value.seeds == r.value.fulls == r.value.lightClients == 0
  {
    if topology == "single" then Ok(Counts(0, 1, 0, 0))
    else if topology == "quad" then Ok(Counts(0, 4, 0, 0))
    else if topology == "large" then Ok(Counts(d.numSeeds, 4 + d.extraValidators, d.numFulls, d.numLightClients))
    else Err(UnknownTopology(topology))
  }

  /** n*2/3+1: the least number of validators that is more than two thirds of n. */
  function Quorum(n: nat): (q: nat)
    ensures 3 * q > 2 * n && 3 * (q - 1) <= 2 * n
    ensures n >= 1 ==> q <= n
  {
    n * 2 / 3 + 1
  }

  function Min(a: nat, b: nat): nat
  {
    if a < b then a else b
  }

  /** The names prefix01, prefix02, ... up to n, as %02d renders them. */
  function Names(prefix: string, n: nat): (names: seq<string>)
    ensures |names| == n
  {
    if n == 0 then [] else Names(prefix, n - 1) + [prefix + Pad2(n)]
  }

  lemma {:induction false} NamesAt(prefix: string, n: nat)
    ensures forall k :: 0 <= k < n ==> Names(prefix, n)[k] == prefix + Pad2(k + 1)
  {
    if n > 0 {
      NamesAt(prefix, n - 1);
      var ns := Names(prefix, n);
      assert ns == Names(prefix, n - 1) + [prefix + Pad2(n)];
      forall k | 0 <= k < n - 1
        ensures ns[k] == prefix + Pad2(k + 1)
      {
        assert ns[k] == Names(prefix, n - 1)[k];
      }
    }
  }

  lemma NamesMembers(prefix: string, n: nat)
    ensures forall x :: x in Names(prefix, n) <==> exists k :: 1 <= k <= n && x == prefix + Pad2(k)
  {
    NamesAt(prefix, n);
    forall x | x in Names(prefix, n)
      ensures exists k :: 1 <= k <= n && x == prefix + Pad2(k)
    {
      var j :| 0 <= j < n && Names(prefix, n)[j] == x;
      assert x == prefix + Pad2(j + 1);
    }
    forall k | 1 <= k <= n
      ensures prefix + Pad2(k) in Names(prefix, n)
    {
      assert Names(prefix, n)[k - 1] == prefix + Pad2(k);
    }
  }

  /** The generated names are pairwise different, and start with their prefix's first letter. */
  lemma NamesDistinct(prefix: string, n: nat)
    requires prefix != []
    ensures Distinct(Names(prefix, n))
    ensures forall x :: x in Names(prefix, n) ==> x != [] && x[0] == prefix[0]
  {
    var ns := Names(prefix, n);
    NamesAt(prefix, n);
    forall i, j | 0 <= i < j < n
      ensures ns[i] != ns[j]
    {
      if ns[i] == ns[j] {
        Pad2Injective(prefix, i + 1, j + 1);
      }
    }
  }

  function SeedName(i: nat): string { "seed" + Pad2(i) }
  function ValidatorName(i: nat): string { "validator" + Pad2(i) }
  function FullName(i: nat): string { "full" + Pad2(i) }
  function LightName(i: nat): string { "light" + Pad2(i) }

  /**
   * Validator i's start height: 0 for the first quorum validators, then the
   * initial height plus 5, 10, ... for the rest, one step each.
   */
  function ValidatorStart(initialHeight: int, quorum: nat, i: nat): int
  {
    if i <= quorum then 0 else initialHeight + 5 * (i - quorum)
  }

  /** The key of the validator update for validator i: the height five blocks after it starts. */
  function UpdateKey(initialHeight: int, quorum: nat, i: nat): string
  {
    SignedDecimal(ValidatorStart(initialHeight, quorum, i) + 5)
  }

  /** Late validators get pairwise different update keys. */
  lemma UpdateKeysDistinct(initialHeight: int, quorum: nat, i: nat, j: nat)
    requires quorum < i < j
    ensures UpdateKey(initialHeight, quorum, i) != UpdateKey(initialHeight, quorum, j)
  {
    SignedDecimalDiffer(ValidatorStart(initialHeight, quorum, i) + 5, ValidatorStart(initialHeight, quorum, j) + 5);
  }

  /** A validator's voting power: 30 + r.Intn(71), so between 30 and 100. */
  function Power(power: string -> Below71, name: string): (p: int)
    ensures 30 <= p <= 100
  {
    30 + power(name)
  }

  // ---------------------------------------------------------------------
  // Seeds, validators and full nodes

  /** Updating a union in its right operand's key space updates the right operand. */
  lemma UnionUpdate<K, V>(m0: map<K, V>, m1: map<K, V>, k: K, v: V)
    ensures (m0 + m1)[k := v] == m0 + m1[k := v]
  {
  }

  /** The seed nodes seed01 .. seed<n>: each starts at height 0 and is no archive node. */
  function SeedNodes(d: TestnetDraws, n: nat): map<string, ManifestNode>
  {
    if n == 0 then map[]
    else SeedNodes(d, n - 1)[SeedName(n) := GeneratedNode(d.node(SeedName(n)), Seed, 0, false)]
  }

  method AddSeeds(d: TestnetDraws, n: nat) returns (nodes: map<string, ManifestNode>)
    ensures nodes == SeedNodes(d, n)
  {
    nodes := map[];
    var i := 1;
    while i <= n
      invariant 1 <= i <= n + 1
      invariant nodes == SeedNodes(d, i - 1)
    {
      var name := SeedName(i);
      var node := GenerateNode(d.node(name), Seed, 0, false);
      nodes := nodes[name := node];
      i := i + 1;
    }
  }

  /** The number of validators among the first i that start late. */
  function LateValidators(quorum: nat, i: nat): nat
  {
    if i <= quorum then 0 else i - quorum
  }

  /** The validator nodes validator01 .. validator<n>; the first two are archive nodes. */
  function ValidatorNodes(d: TestnetDraws, initialHeight: int, quorum: nat, n: nat): map<string, ManifestNode>
  {
    if n == 0 then map[]
    else
      ValidatorNodes(d, initialHeight, quorum, n - 1)[ValidatorName(n) :=
        GeneratedNode(d.node(ValidatorName(n)), Validator, ValidatorStart(initialHeight, quorum, n), n <= 2)]
  }

  /** The validator set: every validator that starts at height 0, with its power. */
  function GenesisValidators(d: TestnetDraws, initialHeight: int, quorum: nat, n: nat): map<string, int>
  {
    if n == 0 then map[]
    else
      var prev := GenesisValidators(d, initialHeight, quorum, n - 1);
      if ValidatorStart(initialHeight, quorum, n) == 0 then prev[ValidatorName(n) := Power(d.power, ValidatorName(n))]
      else prev
  }

  /** The validator updates: one per validator starting later, keyed by its start height plus 5. */
  function ValidatorUpdates(d: TestnetDraws, initialHeight: int, quorum: nat, n: nat): map<string, map<string, int>>
  {
    if n == 0 then map[]
    else
      var prev := ValidatorUpdates(d, initialHeight, quorum, n - 1);
      if ValidatorStart(initialHeight, quorum, n) == 0 then prev
      else prev[UpdateKey(initialHeight, quorum, n) := map[ValidatorName(n) := Power(d.power, ValidatorName(n))]]
  }

  /** What the validator loop has built after its first i turns. */
  predicate ValidatorsSoFar(d: TestnetDraws, initialHeight: int, quorum: nat, i: nat,
                            nodes: map<string, ManifestNode>, validators: map<string, int>,
                            updates: map<string, map<string, int>>, nextStartAt: int)
  {
    && nodes == ValidatorNodes(d, initialHeight, quorum, i)
    && validators == GenesisValidators(d, initialHeight, quorum, i)
    && updates == ValidatorUpdates(d, initialHeight, quorum, i)
    && nextStartAt == initialHeight + 5 + 5 * LateValidators(quorum, i)
  }

  /**
   * The validator loop: validator i starts at 0 when i is within the
   * quorum and otherwise at the next late height; a validator starting at
   * 0 enters the validator set, any other one an update. Returns the
   * validator nodes (which the manifest adds to its nodes) and the height
   * the next late node will get.
   */
  method AddValidators(d: TestnetDraws, initialHeight: int, n: nat)
    returns (nodes: map<string, ManifestNode>, validators: map<string, int>,
             updates: map<string, map<string, int>>, nextStartAt: int)
    ensures nodes == ValidatorNodes(d, initialHeight, Quorum(n), n)
    ensures validators == GenesisValidators(d, initialHeight, Quorum(n), n)
    ensures updates == ValidatorUpdates(d, initialHeight, Quorum(n), n)
    ensures nextStartAt == initialHeight + 5 + 5 * LateValidators(Quorum(n), n)
  {
    nodes, validators, updates := map[], map[], map[];
    nextStartAt := initialHeight + 5;
    var quorum := Quorum(n);
    var i := 1;
    while i <= n
      invariant 1 <= i <= n + 1
      invariant ValidatorsSoFar(d, initialHeight, quorum, i - 1, nodes, validators, updates, nextStartAt)
    {
      nodes, validators, updates, nextStartAt :=
        AddValidator(d, initialHeight, quorum, i, nodes, validators, updates, nextStartAt);
      i := i + 1;
    }
  }

  /**
   * One turn of the validator loop: validator i takes its start height,
   * is generated, and joins the validator set or the updates.
   */
  method AddValidator(d: TestnetDraws, initialHeight: int, quorum: nat, i: nat,
                      nodes: map<string, ManifestNode>, validators: map<string, int>,
                      updates: map<string, map<string, int>>, nextStartAt: int)
    returns (nodes': map<string, ManifestNode>, validators': map<string, int>,
             updates': map<string, map<string, int>>, nextStartAt': int)
    requires i >= 1
    requires ValidatorsSoFar(d, initialHeight, quorum, i - 1, nodes, validators, updates, nextStartAt)
    ensures ValidatorsSoFar(d, initialHeight, quorum, i, nodes', validators', updates', nextStartAt')
  {
    var startAt := 0;
    nextStartAt' := nextStartAt;
    if i > quorum {
      startAt := nextStartAt';
      nextStartAt' := nextStartAt' + 5;
    }
    assert startAt == ValidatorStart(initialHeight, quorum, i);
    var name := ValidatorName(i);
    var node := GenerateNode(d.node(name), Validator, startAt, i <= 2);
    nodes', validators', updates' := nodes[name := node], validators, updates;
    if startAt == 0 {
      validators' := validators[name := Power(d.power, name)];
    } else {
      updates' := updates[SignedDecimal(startAt + 5) := map[name := Power(d.power, name)]];
    }
  }

  /** The number of full nodes among full01 .. full<i> that drew a late start. */
  function LateFulls(late: nat -> bool, i: nat): nat
  {
    if i == 0 then 0 else LateFulls(late, i - 1) + (if late(i) then 1 else 0)
  }

  /** Full node i's start height: 0, or the next late height after the late nodes before it. */
  function FullStart(next0: int, late: nat -> bool, i: nat): int
    requires i >= 1
  {
    if late(i) then next0 + 5 * LateFulls(late, i - 1) else 0
  }

  /** The full nodes full01 .. full<n>, none of them archive nodes. */
  function FullNodes(d: TestnetDraws, next0: int, n: nat): map<string, ManifestNode>
  {
    if n == 0 then map[]
    else FullNodes(d, next0, n - 1)[FullName(n) := GeneratedNode(d.node(FullName(n)), Full, FullStart(next0, d.fullStartsLate, n), false)]
  }

  /** What the full-node loop has built after its first i turns. */
  predicate FullsSoFar(d: TestnetDraws, next0: int, i: nat, nodes: map<string, ManifestNode>, nextStartAt: int)
  {
    && nodes == FullNodes(d, next0, i)
    && nextStartAt == next0 + 5 * LateFulls(d.fullStartsLate, i)
  }

  /**
   * The full-node loop: a full node that draws a late start takes the next
   * late height. Returns the full nodes and the height after the last one.
   */
  method AddFulls(d: TestnetDraws, next0: int, n: nat)
    returns (nodes: map<string, ManifestNode>, nextStartAt: int)
    ensures nodes == FullNodes(d, next0, n)
    ensures nextStartAt == next0 + 5 * LateFulls(d.fullStartsLate, n)
  {
    nodes, nextStartAt := map[], next0;
    var i := 1;
    while i <= n
      invariant 1 <= i <= n + 1
      invariant FullsSoFar(d, next0, i - 1, nodes, nextStartAt)
    {
      nodes, nextStartAt := AddFull(d, next0, i, nodes, nextStartAt);
      i := i + 1;
    }
  }

  /** One turn of the full-node loop: full node i takes its start height and is generated. */
  method AddFull(d: TestnetDraws, next0: int, i: nat,
                 nodes: map<string, ManifestNode>, nextStartAt: int)
    returns (nodes': map<string, ManifestNode>, nextStartAt': int)
    requires i >= 1
    requires FullsSoFar(d, next0, i - 1, nodes, nextStartAt)
    ensures FullsSoFar(d, next0, i, nodes', nextStartAt')
  {
    var startAt := 0;
    nextStartAt' := nextStartAt;
    if d.fullStartsLate(i) {
      startAt := nextStartAt';
      nextStartAt' := nextStartAt' + 5;
    }
    assert startAt == FullStart(next0, d.fullStartsLate, i);
    var node := GenerateNode(d.node(FullName(i)), Full, startAt, false);
    nodes' := nodes[FullName(i) := node];
  }

  // ---------------------------------------------------------------------
  // What the loops produce

  /** The seed nodes are exactly seed01 .. seed<n>. */
  lemma {:induction false} SeedNodesKeys(d: TestnetDraws, n: nat)
    ensures forall x :: x in SeedNodes(d, n) <==> x in Names("seed", n)
  {
    if n > 0 {
      SeedNodesKeys(d, n - 1);
    }
  }

  /** The validator nodes are exactly validator01 .. validator<n>. */
  lemma {:induction false} ValidatorNodesKeys(d: TestnetDraws, initialHeight: int, quorum: nat, n: nat)
    ensures forall x :: x in ValidatorNodes(d, initialHeight, quorum, n) <==> x in Names("validator", n)
  {
    if n > 0 {
      ValidatorNodesKeys(d, initialHeight, quorum, n - 1);
    }
  }

  /** The full nodes are exactly full01 .. full<n>. */
  lemma {:induction false} FullNodesKeys(d: TestnetDraws, next0: int, n: nat)
    ensures forall x :: x in FullNodes(d, next0, n) <==> x in Names("full", n)
  {
    if n > 0 {
      FullNodesKeys(d, next0, n - 1);
    }
  }

  /**
   * Validator i is generated as a validator at its start height, and the
   * first two validators are archive nodes.
   */
  lemma {:induction false} ValidatorNodesAt(d: TestnetDraws, initialHeight: int, quorum: nat, n: nat, i: nat)
    requires 1 <= i <= n
    ensures ValidatorName(i) in ValidatorNodes(d, initialHeight, quorum, n)
    ensures ValidatorNodes(d, initialHeight, quorum, n)[ValidatorName(i)]
      == GeneratedNode(d.node(ValidatorName(i)), Validator, ValidatorStart(initialHeight, quorum, i), i <= 2)
  {
    if i < n {
      ValidatorNodesAt(d, initialHeight, quorum, n - 1, i);
      if ValidatorName(i) == ValidatorName(n) {
        Pad2Injective("validator", i, n);
      }
    }
  }

  /**
   * With a non-negative initial height, the validator set holds exactly
   * the first quorum validators (all of them when there are fewer), each
   * with a power between 30 and 100.
   */
  lemma {:induction false} GenesisValidatorsMembers(d: TestnetDraws, initialHeight: int, quorum: nat, n: nat)
    requires initialHeight >= 0
    ensures forall x :: x in GenesisValidators(d, initialHeight, quorum, n) <==> x in Names("validator", Min(n, quorum))
    ensures forall x :: x in GenesisValidators(d, initialHeight, quorum, n) ==>
      30 <= GenesisValidators(d, initialHeight, quorum, n)[x] <= 100
  {
    if n > 0 {
      GenesisValidatorsMembers(d, initialHeight, quorum, n - 1);
    }
  }

  /** Distinct names make a set of the same size. */
  lemma {:induction false} DistinctCard(xs: seq<string>)
    requires Distinct(xs)
    ensures |set x | x in xs| == |xs|
  {
    if xs != [] {
      var n := |xs| - 1;
      DistinctCard(xs[..n]);
      assert xs[n] !in xs[..n];
      assert (set x | x in xs) == (set x | x in xs[..n]) + {xs[n]};
    }
  }

  /**
   * More than two thirds of the validators are in the validator set that
   * starts the chain, whenever there is at least one validator and the
   * initial height is not negative.
   */
  lemma GenesisQuorum(d: TestnetDraws, initialHeight: int, n: nat)
    requires n >= 1 && initialHeight >= 0
    ensures 3 * |GenesisValidators(d, initialHeight, Quorum(n), n).Keys| > 2 * n
  {
    var q := Quorum(n);
    var g := GenesisValidators(d, initialHeight, q, n);
    GenesisValidatorsMembers(d, initialHeight, q, n);
    NamesDistinct("validator", Min(n, q));
    DistinctCard(Names("validator", Min(n, q)));
    assert g.Keys == set x | x in Names("validator", Min(n, q));
  }

  /** Every validator update is keyed by the update height of a late validator. */
  lemma {:induction false} ValidatorUpdatesKeys(d: TestnetDraws, initialHeight: int, quorum: nat, n: nat)
    ensures forall k :: k in ValidatorUpdates(d, initialHeight, quorum, n) ==>
      exists i :: quorum < i <= n && ValidatorStart(initialHeight, quorum, i) != 0 && k == UpdateKey(initialHeight, quorum, i)
  {
    if n > 0 {
      ValidatorUpdatesKeys(d, initialHeight, quorum, n - 1);
    }
  }

  /** Every validator update adds one validator, with a power between 30 and 100. */
  lemma {:induction false} ValidatorUpdatesEntries(d: TestnetDraws, initialHeight: int, quorum: nat, n: nat)
    ensures forall k :: k in ValidatorUpdates(d, initialHeight, quorum, n) ==>
      && |ValidatorUpdates(d, initialHeight, quorum, n)[k].Keys| == 1
      && forall v :: v in ValidatorUpdates(d, initialHeight, quorum, n)[k] ==>
           30 <= ValidatorUpdates(d, initialHeight, quorum, n)[k][v] <= 100
  {
    if n > 0 {
      ValidatorUpdatesEntries(d, initialHeight, quorum, n - 1);
      var m := map[ValidatorName(n) := Power(d.power, ValidatorName(n))];
      assert m.Keys == {ValidatorName(n)};
    }
  }

  /** With a non-negative initial height an update lands at height 10 or later, so never under the key "0". */
  lemma UpdateKeyNotZero(initialHeight: int, quorum: nat, i: nat)
    requires initialHeight >= 0 && i > quorum
    ensures UpdateKey(initialHeight, quorum, i) != "0"
  {
    assert SignedDecimal(0) == "0";
    SignedDecimalDiffer(ValidatorStart(initialHeight, quorum, i) + 5, 0);
  }

  /** With a non-negative initial height no update is keyed "0". */
  lemma ValidatorUpdatesAvoidZero(d: TestnetDraws, initialHeight: int, quorum: nat, n: nat)
    requires initialHeight >= 0
    ensures "0" !in ValidatorUpdates(d, initialHeight, quorum, n)
  {
    ValidatorUpdatesKeys(d, initialHeight, quorum, n);
    if "0" in ValidatorUpdates(d, initialHeight, quorum, n) {
      var i :| quorum < i <= n && ValidatorStart(initialHeight, quorum, i) != 0 && "0" == UpdateKey(initialHeight, quorum, i);
      UpdateKeyNotZero(initialHeight, quorum, i);
    }
  }

  /**
   * Late validators join one after another, 5 blocks apart and all before
   * the height handed on to the full nodes.
   */
  lemma LateValidatorStarts(initialHeight: int, quorum: nat, n: nat, i: nat, j: nat)
    requires quorum < i < j <= n
    ensures ValidatorStart(initialHeight, quorum, j) == ValidatorStart(initialHeight, quorum, i) + 5 * (j - i)
    ensures ValidatorStart(initialHeight, quorum, j) < initialHeight + 5 + 5 * LateValidators(quorum, n)
  {
  }

  /** LateFulls counts one more for each later full node that starts late. */
  lemma {:induction false} LateFullsGrow(late: nat -> bool, i: nat, j: nat)
    requires i <= j
    ensures LateFulls(late, i) <= LateFulls(late, j)
    decreases j
  {
    if i < j {
      LateFullsGrow(late, i, j - 1);
    }
  }

  /**
   * Late full nodes start at or after the height handed on, each at its
   * own height, in the order of their numbers.
   */
  lemma LateFullStarts(next0: int, late: nat -> bool, i: nat, j: nat)
    requires 1 <= i < j && late(i) && late(j)
    ensures next0 <= FullStart(next0, late, i) < FullStart(next0, late, j)
  {
    LateFullsGrow(late, i, j - 1);
  }
}
