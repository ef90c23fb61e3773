/**
 * The list operations the testnet generator's peer wiring is built from:
 * keeping the names that satisfy a test, picking a drawn subset of a list,
 * and sorting peers by start height and then by name.
 */
module PeerOrder {
  import opened Text
  import opened NodeGen

  predicate Distinct(xs: seq<string>)
  {
    forall i, j :: 0 <= i < j < |xs| ==> xs[i] != xs[j]
  }

  /** The names in xs that pass keep, in their order in xs. */
  function Filter(xs: seq<string>, keep: string -> bool): (ys: seq<string>)
    ensures |ys| <= |xs|
  {
    if xs == [] then []
    else Filter(xs[..|xs| - 1], keep) + (if keep(xs[|xs| - 1]) then [xs[|xs| - 1]] else [])
  }

  lemma {:induction false} FilterMembers(xs: seq<string>, keep: string -> bool)
    ensures forall x :: x in Filter(xs, keep) <==> x in xs && keep(x)
  {
    if xs != [] {
      var n := |xs| - 1;
      FilterMembers(xs[..n], keep);
      assert xs == xs[..n] + [xs[n]];
    }
  }

  lemma {:induction false} FilterDistinct(xs: seq<string>, keep: string -> bool)
    requires Distinct(xs)
    ensures Distinct(Filter(xs, keep))
  {
    if xs != [] {
      var n := |xs| - 1;
      FilterDistinct(xs[..n], keep);
      FilterMembers(xs[..n], keep);
      assert xs[n] !in xs[..n];
    }
  }

  /**
   * The elements of xs at the drawn positions, in their order in xs: the
   * subset a uniform set choice over xs returns.
   */
  function Pick(xs: seq<string>, chosen: set<nat>): (ys: seq<string>)
    ensures forall y :: y in ys ==> y in xs
  {
    if xs == [] then []
    else
      var n := |xs| - 1;
      var rest := Pick(xs[..n], chosen);
      assert forall y :: y in rest ==> y in xs by {
        assert forall y :: y in xs[..n] ==> y in xs;
      }
      rest + (if n in chosen then [xs[n]] else [])
  }

  /**
   * The order peers are wired in: earlier start height first, and among
   * nodes starting together the name that compares lower.
   */
  predicate Before(nodes: map<string, ManifestNode>, a: string, b: string)
  {
    && a in nodes && b in nodes
    && (nodes[a].startAt < nodes[b].startAt
        || (nodes[a].startAt == nodes[b].startAt && LexLess(a, b)))
  }

  lemma BeforeTransitive(nodes: map<string, ManifestNode>, a: string, b: string, c: string)
    requires Before(nodes, a, b) && Before(nodes, b, c)
    ensures Before(nodes, a, c)
  {
    if nodes[a].startAt == nodes[b].startAt == nodes[c].startAt {
      LexLessTransitive(a, b, c);
    }
  }

  /** Two different nodes are ordered one way or the other, never both. */
  lemma BeforeTotal(nodes: map<string, ManifestNode>, a: string, b: string)
    requires a in nodes && b in nodes
    ensures a != b ==> Before(nodes, a, b) || Before(nodes, b, a)
    ensures !(Before(nodes, a, b) && Before(nodes, b, a))
  {
    LexLessAsymmetric(a, b);
    if a != b {
      LexLessTotal(a, b);
    }
  }

  predicate Sorted(nodes: map<string, ManifestNode>, ys: seq<string>)
  {
    forall i, j :: 0 <= i < j < |ys| ==> Before(nodes, ys[i], ys[j])
  }

  /** x placed in front of the first element it comes before. */
  function Insert(nodes: map<string, ManifestNode>, x: string, s: seq<string>): (r: seq<string>)
    ensures multiset(r) == multiset(s) + multiset{x}
  {
    if s == [] then [x]
    else if Before(nodes, x, s[0]) then [x] + s
    else
      assert s == [s[0]] + s[1..];
      [s[0]] + Insert(nodes, x, s[1..])
  }

  /** sort.Slice with the generator's comparison, as an insertion sort. */
  function SortPeers(nodes: map<string, ManifestNode>, xs: seq<string>): (ys: seq<string>)
    ensures multiset(ys) == multiset(xs)
  {
    if xs == [] then []
    else
      assert xs == [xs[0]] + xs[1..];
      Insert(nodes, xs[0], SortPeers(nodes, xs[1..]))
  }

  lemma {:induction false} InsertSorted(nodes: map<string, ManifestNode>, x: string, s: seq<string>)
    requires x in nodes && x !in s
    requires forall y :: y in s ==> y in nodes
    requires Sorted(nodes, s)
    ensures Sorted(nodes, Insert(nodes, x, s))
  {
    if s != [] {
      if Before(nodes, x, s[0]) {
        forall j | 0 <= j < |s|
          ensures Before(nodes, x, s[j])
        {
          if j > 0 {
            BeforeTransitive(nodes, x, s[0], s[j]);
          }
        }
      } else {
        BeforeTotal(nodes, x, s[0]);
        var tail := Insert(nodes, x, s[1..]);
        InsertSorted(nodes, x, s[1..]);
        forall y | y in tail
          ensures Before(nodes, s[0], y)
        {
          assert y in multiset(tail);
          if y != x {
            var j :| 1 <= j < |s| && s[j] == y;
          }
        }
      }
    }
  }

  /** Sorting distinct peers gives them in the generator's order, each exactly once. */
  lemma {:induction false} SortPeersSorted(nodes: map<string, ManifestNode>, xs: seq<string>)
    requires Distinct(xs)
    requires forall x :: x in xs ==> x in nodes
    ensures Sorted(nodes, SortPeers(nodes, xs))
    ensures multiset(SortPeers(nodes, xs)) == multiset(xs)
  {
    if xs != [] {
      var rest := xs[1..];
      assert Distinct(rest);
      SortPeersSorted(nodes, rest);
      assert xs[0] !in rest;
      assert xs[0] !in multiset(SortPeers(nodes, rest));
      InsertSorted(nodes, xs[0], SortPeers(nodes, rest));
    }
  }

  /** Every name the i-th sorted peer may pick from the peers before it comes earlier in the order. */
  lemma PickedPeersComeBefore(nodes: map<string, ManifestNode>, ys: seq<string>, i: nat, chosen: set<nat>)
    requires Sorted(nodes, ys) && i < |ys|
    ensures forall y :: y in Pick(ys[..i], chosen) ==> Before(nodes, y, ys[i])
  {
    forall y | y in Pick(ys[..i], chosen)
      ensures Before(nodes, y, ys[i])
    {
      var k :| 0 <= k < i && ys[..i][k] == y;
    }
  }
}
