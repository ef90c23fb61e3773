/**
 * The parser for the generator's multi-version option: a comma-separated
 * list of "tag:weight" or "image:tag:weight" entries, giving each node
 * version a selection weight and naming the last version listed.
 */
module WeightedVersions {
  import opened Wrappers
  import opened Text

  /** The image assumed when an entry gives only a tag and a weight. */
  const DefaultImage: string := "cometbft/e2e-node"

  datatype ParseError =
    | BadCombination(entry: string)
    | BadWeight(quoted: string, cause: AtoiError)
    | WeightBelowOne

  /** A successful parse: the weight of each version, and the version listed last. */
  datatype Weighted = Weighted(weights: map<string, nat>, last: string)

  /** The version an entry's ':'-separated parts name: the default image for two parts, the first two parts for three. */
  function EntryVersion(parts: seq<string>): string
    requires |parts| == 2 || |parts| == 3
  {
    if |parts| == 2 then TrimSpace(Join([DefaultImage, parts[0]], ':'))
    else TrimSpace(Join([parts[0], parts[1]], ':'))
  }

  /** The part of an entry that holds its weight: the last one. */
  function WeightText(parts: seq<string>): string
    requires |parts| >= 1
  {
    TrimSpace(parts[|parts| - 1])
  }

  /**
   * One entry, as the loop body parses it: a version and a weight of at
   * least 1, or the error the loop stops with. An entry parses exactly when
   * it has two or three ':'-parts and its last part reads as an integer of
   * at least 1, and the weight is that integer. A weight that does not read
   * is reported quoting the entry's second part, as the code does.
   */
  function ParseEntry(wv: string): (r: Result<(string, nat), ParseError>)
    ensures var parts := Split(TrimSpace(wv), ':');
      && (r.Ok? <==> (|parts| == 2 || |parts| == 3) && Atoi(WeightText(parts)).Ok? && Atoi(WeightText(parts)).value >= 1)
      && (r.Ok? ==> r.value.1 >= 1 && r.value.1 == Atoi(WeightText(parts)).value)
  {
    var parts := Split(TrimSpace(wv), ':');
    if |parts| != 2 && |parts| != 3 then Err(BadCombination(wv))
    else match Atoi(WeightText(parts))
      case Err(e) => Err(BadWeight(parts[1], e))
      case Ok(wt) => if wt < 1 then Err(WeightBelowOne) else Ok((EntryVersion(parts), wt))
  }

  /** A weight error quotes the entry's second part, with the integer parser's error on the last part. */
  lemma WeightErrorQuotesSecondPart(wv: string)
    requires ParseEntry(wv).Err? && ParseEntry(wv).error.BadWeight?
    ensures var parts := Split(TrimSpace(wv), ':');
      && (|parts| == 2 || |parts| == 3)
      && ParseEntry(wv).error.quoted == parts[1]
      && ParseEntry(wv).error.cause == Atoi(TrimSpace(parts[|parts| - 1])).error
  {
  }

  /** For a three-part entry the second part is the tag, so the message names the tag instead of the bad weight. */
  lemma WeightQuoteAsWrittenNamesTag()
    ensures ParseEntry("img:v1:x") == Err(BadWeight("v1", ErrSyntax("x")))
  {
    ThreePartBadWeight();
  }

  lemma ThreePartBadWeight()
    ensures Split(TrimSpace("img:v1:x"), ':') == ["img", "v1", "x"]
    ensures WeightText(["img", "v1", "x"]) == "x" && Atoi("x") == Err(ErrSyntax("x"))
  {
    ThreePartSplit();
    TrimSpaceUnchanged("x");
    AtoiLetter();
  }

  lemma ThreePartSplit()
    ensures Split(TrimSpace("img:v1:x"), ':') == ["img", "v1", "x"]
  {
    SplitJoin(["img", "v1", "x"], ':');
    assert Join(["img", "v1", "x"], ':') == "img:v1:x";
    TrimSpaceUnchanged("img:v1:x");
  }

  lemma AtoiLetter()
    ensures Atoi("x") == Err(ErrSyntax("x"))
  {
    assert "x"[..0] == [];
    assert ScanUint("x") == NotDigit;
  }

  /**
   * The parse as evidently intended: the same outcome, except that a weight
   * error quotes the part that failed to parse, the last one.
   */
  function ParseEntryIntended(wv: string): (r: Result<(string, nat), ParseError>)
    ensures r.Ok? <==> ParseEntry(wv).Ok?
    ensures r.Ok? ==> r == ParseEntry(wv)
    ensures r.Err? ==> r.error.BadWeight? == ParseEntry(wv).error.BadWeight?
  {
    var parts := Split(TrimSpace(wv), ':');
    match ParseEntry(wv)
    case Err(BadWeight(_, cause)) => Err(BadWeight(parts[|parts| - 1], cause))
    case other => other
  }

  /** The intended weight error quotes the weight part of the entry, whatever the entry's shape. */
  lemma WeightErrorQuotesWeight(wv: string)
    requires ParseEntryIntended(wv).Err? && ParseEntryIntended(wv).error.BadWeight?
    ensures var parts := Split(TrimSpace(wv), ':');
      && (|parts| == 2 || |parts| == 3)
      && ParseEntryIntended(wv).error.quoted == parts[|parts| - 1]
      && ParseEntryIntended(wv).error.cause == Atoi(TrimSpace(parts[|parts| - 1])).error
  {
  }

  /** Under the intended parse the three-part entry with a bad weight is reported with that weight. */
  lemma WeightErrorNamesWeight()
    ensures ParseEntryIntended("img:v1:x") == Err(BadWeight("x", ErrSyntax("x")))
  {
    ThreePartBadWeight();
  }

  /** The rendering of a weight: digits only, no outer space, and it reads back. */
  lemma WeightRendering(w: nat)
    requires w <= MaxInt64
    ensures ':' !in Decimal(w) && NoOuterSpace(Decimal(w))
    ensures TrimSpace(Decimal(w)) == Decimal(w) && Atoi(Decimal(w)) == Ok(w)
  {
    var d := Decimal(w);
    DecimalValue(w);
    assert forall i :: 0 <= i < |d| ==> d[i] != ':' by {
      assert forall i :: 0 <= i < |d| ==> IsDigit(d[i]);
    }
    assert IsDigit(d[0]) && IsDigit(d[|d| - 1]);
    TrimSpaceUnchanged(d);
    AtoiSignedDecimal(w);
  }

  /** "tag:w" names the default image's tag with weight w. */
  lemma TagEntryRoundTrip(tag: string, w: nat)
    requires ':' !in tag && NoOuterSpace(tag) && 1 <= w <= MaxInt64
    ensures ParseEntry(tag + ":" + Decimal(w)) == Ok((DefaultImage + ":" + tag, w))
  {
    var d := Decimal(w);
    WeightRendering(w);
    var wv := tag + ":" + d;
    assert wv == tag + [':'] + d;
    JoinPair(tag, d, ':');
    SplitJoin([tag, d], ':');
    TrimSpaceUnchanged(wv);
    var ver := DefaultImage + ":" + tag;
    JoinPair(DefaultImage, tag, ':');
    assert ver == DefaultImage + [':'] + tag;
    TrimSpaceUnchanged(ver);
  }

  /** "img:tag:w" names the image's tag with weight w. */
  lemma ImageEntryRoundTrip(img: string, tag: string, w: nat)
    requires ':' !in img && ':' !in tag && NoOuterSpace(img) && NoOuterSpace(tag) && 1 <= w <= MaxInt64
    ensures ParseEntry(img + ":" + tag + ":" + Decimal(w)) == Ok((img + ":" + tag, w))
  {
    var d := Decimal(w);
    WeightRendering(w);
    var ver := img + ":" + tag;
    var wv := ver + ":" + d;
    ThreeParts(img, tag, d);
    assert wv[0] == ver[0] && wv[|wv| - 1] == d[|d| - 1];
    TrimSpaceUnchanged(wv);
    JoinPair(img, tag, ':');
    assert Join([img, tag], ':') == ver;
    TrimSpaceUnchanged(ver);
  }

  /** Splitting "img:tag:d" on ':' gives the three parts back. */
  lemma ThreeParts(img: string, tag: string, d: string)
    requires ':' !in img && ':' !in tag && ':' !in d
    ensures Split(img + ":" + tag + ":" + d, ':') == [img, tag, d]
  {
    JoinPair(tag, d, ':');
    assert [img, tag, d][1..] == [tag, d];
    assert Join([img, tag, d], ':') == img + ":" + tag + ":" + d;
    SplitJoin([img, tag, d], ':');
  }

  type EntryResult = Result<(string, nat), ParseError>

  /** The entries' parse results, in order. */
  function ParseEntries(wvs: seq<string>): (rs: seq<EntryResult>)
    ensures |rs| == |wvs|
  {
    seq(|wvs|, i requires 0 <= i < |wvs| => ParseEntry(wvs[i]))
  }

  /** The loop over parsed entries: stops at the first error; a later entry overwrites an earlier weight. */
  function Fold(rs: seq<EntryResult>): Result<Weighted, ParseError>
  {
    if rs == [] then Ok(Weighted(map[], ""))
    else match Fold(rs[..|rs| - 1])
      case Err(e) => Err(e)
      case Ok(acc) =>
        match rs[|rs| - 1]
        case Err(e) => Err(e)
        case Ok((ver, wt)) => Ok(Weighted(acc.weights[ver := wt], ver))
  }

  /** The whole option's outcome. */
  function ParseAll(s: string): Result<Weighted, ParseError>
  {
    Fold(ParseEntries(Split(TrimSpace(s), ',')))
  }

  /** Folding one more result onto a prefix. */
  lemma FoldAppend(rs: seq<EntryResult>, r: EntryResult)
    ensures Fold(rs + [r]) == match Fold(rs)
      case Err(e) => Err(e)
      case Ok(acc) => (match r
        case Err(e) => Err(e)
        case Ok((ver, wt)) => Ok(Weighted(acc.weights[ver := wt], ver)))
  {
    assert (rs + [r])[..|rs|] == rs;
  }

  /** Once a prefix fails, the whole list fails with the same error. */
  lemma {:induction false} FoldErrSticky(rs: seq<EntryResult>, i: nat)
    requires i <= |rs| && Fold(rs[..i]).Err?
    ensures Fold(rs) == Fold(rs[..i])
    decreases |rs| - i
  {
    if i < |rs| {
      assert rs[..i + 1][..i] == rs[..i];
      FoldErrSticky(rs, i + 1);
    } else {
      assert rs[..i] == rs;
    }
  }

  /**
   * parseWeightedVersions: trims and splits the option on ',', then parses
   * each entry in order, recording its weight under its version and
   * remembering the version as the last one; the first bad entry ends the
   * loop with its error.
   */
  method ParseWeightedVersions(s: string) returns (r: Result<Weighted, ParseError>)
    ensures r == ParseAll(s)
  {
    var wc: map<string, nat> := map[];
    var lv := "";
    var wvs := Split(TrimSpace(s), ',');
    ghost var rs := ParseEntries(wvs);
    var i := 0;
    while i < |wvs|
      invariant 0 <= i <= |wvs|
      invariant Fold(rs[..i]) == Ok(Weighted(wc, lv))
    {
      var entry := ParseEntry(wvs[i]);
      FoldStep(rs, i, Weighted(wc, lv));
      if entry.Err? {
        return Err(entry.error);
      }
      wc := wc[entry.value.0 := entry.value.1];
      lv := entry.value.0;
      i := i + 1;
    }
    assert rs[..i] == rs;
    return Ok(Weighted(wc, lv));
  }

  /** One iteration of the loop: a bad entry decides the outcome, a good one extends the fold. */
  lemma FoldStep(rs: seq<EntryResult>, i: nat, acc: Weighted)
    requires i < |rs| && Fold(rs[..i]) == Ok(acc)
    ensures rs[i].Err? ==> Fold(rs) == Err(rs[i].error)
    ensures rs[i].Ok? ==> Fold(rs[..i + 1]) == Ok(Weighted(acc.weights[rs[i].value.0 := rs[i].value.1], rs[i].value.0))
  {
    assert rs[..i + 1] == rs[..i] + [rs[i]];
    FoldAppend(rs[..i], rs[i]);
    if rs[i].Err? {
      FoldErrSticky(rs, i + 1);
    }
  }

  /** The list parses exactly when every entry does. */
  lemma {:induction false} FoldOkIff(rs: seq<EntryResult>)
    ensures Fold(rs).Ok? <==> forall i :: 0 <= i < |rs| ==> rs[i].Ok?
  {
    if rs != [] {
      var n := |rs| - 1;
      FoldOkIff(rs[..n]);
      assert forall i :: 0 <= i < n ==> rs[..n][i] == rs[i];
    }
  }

  /** A successful fold holds exactly the versions listed, and names the final entry's version as the last one. */
  lemma {:induction false} FoldKeys(rs: seq<EntryResult>)
    requires Fold(rs).Ok?
    ensures forall i :: 0 <= i < |rs| ==> rs[i].Ok?
    ensures Fold(rs).value.weights.Keys == (set i | 0 <= i < |rs| && rs[i].Ok? :: rs[i].value.0)
    ensures rs != [] ==> Fold(rs).value.last == rs[|rs| - 1].value.0
  {
    FoldOkIff(rs);
    if rs != [] {
      var n := |rs| - 1;
      var pre := rs[..n];
      FoldKeys(pre);
      assert forall i :: 0 <= i < n ==> pre[i] == rs[i];
      assert (set i | 0 <= i < |rs| && rs[i].Ok? :: rs[i].value.0)
        == (set i | 0 <= i < n && pre[i].Ok? :: pre[i].value.0) + {rs[n].value.0};
    }
  }

  /** Each version listed carries the weight of its last occurrence. */
  lemma {:induction false} FoldLastWeight(rs: seq<EntryResult>, i: nat)
    requires Fold(rs).Ok? && i < |rs| && rs[i].Ok?
    requires forall j :: i < j < |rs| && rs[j].Ok? ==> rs[j].value.0 != rs[i].value.0
    ensures rs[i].value.0 in Fold(rs).value.weights
    ensures Fold(rs).value.weights[rs[i].value.0] == rs[i].value.1
  {
    var n := |rs| - 1;
    var pre := rs[..n];
    assert Fold(pre).Ok?;
    if i < n {
      assert pre[i] == rs[i];
      forall j | i < j < n && pre[j].Ok?
        ensures pre[j].value.0 != pre[i].value.0
      {
        assert pre[j] == rs[j];
      }
      FoldLastWeight(pre, i);
    }
  }

  /** Every weight a fold records came from one of its entries. */
  lemma {:induction false} FoldWeightsFromEntries(rs: seq<EntryResult>)
    requires Fold(rs).Ok?
    ensures forall v :: v in Fold(rs).value.weights ==>
      exists i :: 0 <= i < |rs| && rs[i] == Ok((v, Fold(rs).value.weights[v]))
  {
    if rs != [] {
      var n := |rs| - 1;
      FoldWeightsFromEntries(rs[..n]);
      forall v | v in Fold(rs).value.weights
        ensures exists i :: 0 <= i < |rs| && rs[i] == Ok((v, Fold(rs).value.weights[v]))
      {
        if v != rs[n].value.0 {
          var i :| 0 <= i < n && rs[..n][i] == Ok((v, Fold(rs[..n]).value.weights[v]));
          assert rs[i] == rs[..n][i];
        } else {
          assert rs[n] == Ok((v, Fold(rs).value.weights[v]));
        }
      }
    }
  }

  /**
   * A successful fold of entries whose weights are at least 1: every entry
   * parsed, every entry's version is recorded, every recorded weight is at
   * least 1, and the last version is the final entry's and is recorded.
   */
  lemma FoldSummary(rs: seq<EntryResult>)
    requires Fold(rs).Ok? && rs != []
    requires forall i :: 0 <= i < |rs| && rs[i].Ok? ==> rs[i].value.1 >= 1
    ensures var w := Fold(rs).value;
      && (forall i :: 0 <= i < |rs| ==> rs[i].Ok?)
      && (forall i :: 0 <= i < |rs| ==> rs[i].value.0 in w.weights)
      && (forall v :: v in w.weights ==> w.weights[v] >= 1)
      && w.last == rs[|rs| - 1].value.0 && w.last in w.weights
  {
    FoldKeys(rs);
    FoldWeightsFromEntries(rs);
    var w := Fold(rs).value;
    forall v | v in w.weights
      ensures w.weights[v] >= 1
    {
      var i :| 0 <= i < |rs| && rs[i] == Ok((v, w.weights[v]));
    }
  }

  /**
   * A successful parse of the option: every entry parsed, every entry's
   * version is recorded, every recorded weight is at least 1, and the last
   * version is the final entry's and is recorded too.
   */
  lemma ParseAllContents(s: string)
    requires ParseAll(s).Ok?
    ensures var rs := ParseEntries(Split(TrimSpace(s), ','));
      var w := ParseAll(s).value;
      && (forall i :: 0 <= i < |rs| ==> rs[i].Ok?)
      && (forall i :: 0 <= i < |rs| ==> rs[i].value.0 in w.weights)
      && (forall v :: v in w.weights ==> w.weights[v] >= 1)
      && w.last == rs[|rs| - 1].value.0 && w.last in w.weights
  {
    var wvs := Split(TrimSpace(s), ',');
    EntryWeightsPositive(wvs);
    FoldSummary(ParseEntries(wvs));
  }

  lemma EntryWeightsPositive(wvs: seq<string>)
    ensures var rs := ParseEntries(wvs);
      forall i :: 0 <= i < |rs| && rs[i].Ok? ==> rs[i].value.1 >= 1
  {
    var rs := ParseEntries(wvs);
    forall i | 0 <= i < |rs| && rs[i].Ok?
      ensures rs[i].value.1 >= 1
    {
      var r := ParseEntry(wvs[i]);
    }
  }

  /** The last entry giving the same version as entry i. */
  lemma LastOccurrence(rs: seq<EntryResult>, i: nat) returns (k: nat)
    requires 0 <= i < |rs| && forall j :: 0 <= j < |rs| ==> rs[j].Ok?
    ensures i <= k < |rs| && rs[k].value.0 == rs[i].value.0
    ensures forall j :: k < j < |rs| ==> rs[j].value.0 != rs[k].value.0
    decreases |rs| - i
  {
    if j :| i < j < |rs| && rs[j].value.0 == rs[i].value.0 {
      k := LastOccurrence(rs, j);
    } else {
      k := i;
    }
  }

  /** The empty option is rejected: it is a single entry with a single part. */
  lemma EmptyOptionRejected()
    ensures ParseAll("") == Err(BadCombination(""))
  {
    assert TrimSpace("") == "";
    assert ParseEntries([""]) == [ParseEntry("")];
  }

  /** "v1:2" names the default image's tag v1 with weight 2. */
  lemma TagWeightEntry()
    ensures ParseEntry("v1:2") == Ok(("cometbft/e2e-node:v1", 2))
  {
    TagWeightParts();
    DefaultImageVersion();
  }

  lemma TagWeightParts()
    ensures Split("v1:2", ':') == ["v1", "2"]
    ensures TrimSpace("v1:2") == "v1:2"
    ensures WeightText(["v1", "2"]) == "2" && Atoi("2") == Ok(2)
  {
    TagWeightSplit();
    TrimSpaceUnchanged("v1:2");
    TrimSpaceUnchanged("2");
    AtoiTwo();
  }

  lemma AtoiTwo()
    ensures Atoi("2") == Ok(2)
  {
    assert AllDigits("2") && DigitsValue("2") == 2 by {
      assert "2"[..0] == [];
    }
  }

  lemma TagWeightSplit()
    ensures Split("v1:2", ':') == ["v1", "2"]
  {
    SplitJoin(["v1", "2"], ':');
    JoinPair("v1", "2", ':');
    assert Join(["v1", "2"], ':') == "v1:2";
  }

  lemma DefaultImageVersion()
    ensures EntryVersion(["v1", "2"]) == "cometbft/e2e-node:v1"
  {
    JoinPair(DefaultImage, "v1", ':');
    assert Join([DefaultImage, "v1"], ':') == "cometbft/e2e-node:v1";
    TrimSpaceUnchanged("cometbft/e2e-node:v1");
  }
}
