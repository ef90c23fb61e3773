/**
 * The choice of the latest release to test upgrades against: among the
 * repository's tags, the highest release version within the caret range
 * of the current major and minor version.
 */
module ReleaseTag {
  import opened Wrappers
  import opened Text

  /** A semantic version as the semver library parses it. */
  datatype SemVer = SemVer(major: nat, minor: nat, patch: nat, prerelease: string, metadata: string)

  datatype FindError = BadBaseVersion(baseVer: string)

  /** The part of the base version before its first '-'. */
  function BaseText(baseVer: string): string
  {
    Split(baseVer, '-')[0]
  }

  predicate HasPrefixV(s: string)
  {
    |s| > 0 && s[0] == 'v'
  }

  /**
   * Version order on major, minor and patch (the order of versions without
   * a pre-release; build metadata never counts).
   */
  predicate Less(a: SemVer, b: SemVer)
  {
    || a.major < b.major
    || (a.major == b.major && a.minor < b.minor)
    || (a.major == b.major && a.minor == b.minor && a.patch < b.patch)
  }

  /**
   * The caret range "^ major.minor" of the base: for a major above 0,
   * at least major.minor.0 and below (major+1).0.0; for major 0, at least
   * 0.minor.0 and below 0.(minor+1).0.
   */
  predicate CaretAllows(base: SemVer, v: SemVer)
  {
    if base.major > 0 then v.major == base.major && v.minor >= base.minor
    else v.major == 0 && v.minor == base.minor
  }

  /** A tag the search considers: "v"-prefixed, a valid version, no pre-release, within the range. */
  predicate Qualifies(parse: string -> Option<SemVer>, base: SemVer, tag: string)
  {
    && HasPrefixV(tag)
    && parse(tag).Some?
    && parse(tag).value.prerelease == []
    && CaretAllows(base, parse(tag).value)
  }

  /** Version.String(): major.minor.patch, then "-pre-release" and "+metadata" when present. */
  function Render(v: SemVer): (s: string)
    ensures |s| > 0 && IsDigit(s[0])
  {
    DecimalValue(v.major);
    Decimal(v.major) + "." + Decimal(v.minor) + "." + Decimal(v.patch)
      + (if v.prerelease != [] then "-" + v.prerelease else "")
      + (if v.metadata != [] then "+" + v.metadata else "")
  }

  /**
   * findLatestReleaseTag, with the semver library's parser as `parse`: the
   * base version must parse; the answer is "" when no tag qualifies, and
   * otherwise "v" followed by the highest qualifying version, the first
   * one listed when several are equally high.
   */
  method FindLatestReleaseTag(parse: string -> Option<SemVer>, baseVer: string, tags: seq<string>)
    returns (r: Result<string, FindError>)
    ensures r.Err? <==> parse(BaseText(baseVer)).None?
    ensures r.Err? ==> r.error == BadBaseVersion(baseVer)
    ensures r.Ok? ==> var base := parse(BaseText(baseVer)).value;
      (r.value == "" <==> forall j :: 0 <= j < |tags| ==> !Qualifies(parse, base, tags[j]))
    ensures r.Ok? && r.value != "" ==> var base := parse(BaseText(baseVer)).value;
      exists i :: 0 <= i < |tags| && Qualifies(parse, base, tags[i])
        && r.value == "v" + Render(parse(tags[i]).value)
        && (forall j :: 0 <= j < |tags| && Qualifies(parse, base, tags[j]) ==> !Less(parse(tags[i]).value, parse(tags[j]).value))
        && (forall j :: 0 <= j < i && Qualifies(parse, base, tags[j]) ==> Less(parse(tags[j]).value, parse(tags[i]).value))
  {
    var baseSemVer := parse(BaseText(baseVer));
    if baseSemVer.None? {
      return Err(BadBaseVersion(baseVer));
    }
    var base := baseSemVer.value;
    var latestVer: Option<SemVer> := None;
    ghost var best := 0;
    var k := 0;
    while k < |tags|
      invariant k <= |tags|
      invariant latestVer.None? <==> forall j :: 0 <= j < k ==> !Qualifies(parse, base, tags[j])
      invariant latestVer.Some? ==>
        && best < k && Qualifies(parse, base, tags[best]) && latestVer.value == parse(tags[best]).value
        && (forall j :: 0 <= j < k && Qualifies(parse, base, tags[j]) ==> !Less(latestVer.value, parse(tags[j]).value))
        && (forall j :: 0 <= j < best && Qualifies(parse, base, tags[j]) ==> Less(parse(tags[j]).value, latestVer.value))
    {
      var tag := tags[k];
      if HasPrefixV(tag) {
        var curVer := parse(tag);
        if curVer.Some? && curVer.value.prerelease == [] && CaretAllows(base, curVer.value) {
          if latestVer.None? || Less(latestVer.value, curVer.value) {
            latestVer := Some(curVer.value);
            best := k;
          }
        }
      }
      k := k + 1;
    }
    if latestVer.None? {
      return Ok("");
    }
    var vs := Render(latestVer.value);
    if !HasPrefixV(vs) {
      return Ok("v" + vs);
    }
    return Ok(vs);
  }
}
