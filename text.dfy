/**
 * The string functions the manifest generator relies on: white-space
 * trimming, splitting on one separator, decimal parsing and rendering, and
 * lexicographic byte order.
 */
module Text {
  import opened Wrappers

  /** unicode.IsSpace: the Latin-1 spaces and the Unicode White_Space characters. */
  predicate IsSpace(c: char)
  {
    || c == '\t' || c == '\n' || c == '\U{0B}' || c == '\U{0C}' || c == '\r' || c == ' '
    || c == '\U{85}' || c == '\U{A0}' || c == '\U{1680}'
    || ('\U{2000}' <= c <= '\U{200A}')
    || c == '\U{2028}' || c == '\U{2029}' || c == '\U{202F}' || c == '\U{205F}' || c == '\U{3000}'
  }

  /** Number of white-space characters at the front of s. */
  function LeadingSpaces(s: string): (n: nat)
    ensures n <= |s|
    ensures forall k :: 0 <= k < n ==> IsSpace(s[k])
    ensures n < |s| ==> !IsSpace(s[n])
  {
    if s == [] || !IsSpace(s[0]) then 0 else 1 + LeadingSpaces(s[1..])
  }

  /** Number of white-space characters at the back of s. */
  function TrailingSpaces(s: string): (n: nat)
    ensures n <= |s|
    ensures forall k :: |s| - n <= k < |s| ==> IsSpace(s[k])
    ensures n < |s| ==> !IsSpace(s[|s| - n - 1])
  {
    if s == [] || !IsSpace(s[|s| - 1]) then 0 else 1 + TrailingSpaces(s[..|s| - 1])
  }

  /**
   * strings.TrimSpace: s without its leading and trailing white space. The
   * result neither starts nor ends with white space.
   */
  function TrimSpace(s: string): (t: string)
    ensures t == [] || (!IsSpace(t[0]) && !IsSpace(t[|t| - 1]))
  {
    var lead := LeadingSpaces(s);
    if lead == |s| then ""
    else
      var rest := s[lead..];
      var trail := TrailingSpaces(rest);
      assert trail < |rest| by {
        assert !IsSpace(rest[0]);
      }
      s[lead..lead + |rest| - trail]
  }

  /** TrimSpace cuts only white space, and only from the ends: it is s[i..j] with spaces outside. */
  lemma TrimSpaceSlice(s: string) returns (i: nat, j: nat)
    ensures i <= j <= |s| && TrimSpace(s) == s[i..j]
    ensures forall k :: 0 <= k < i ==> IsSpace(s[k])
    ensures forall k :: j <= k < |s| ==> IsSpace(s[k])
  {
    var lead := LeadingSpaces(s);
    if lead == |s| {
      i, j := |s|, |s|;
    } else {
      var rest := s[lead..];
      var trail := TrailingSpaces(rest);
      assert !IsSpace(rest[0]);
      i, j := lead, lead + |rest| - trail;
      forall k | j <= k < |s|
        ensures IsSpace(s[k])
      {
        assert s[k] == rest[k - lead];
      }
    }
  }

  /** No white space at either end. */
  predicate NoOuterSpace(s: string)
  {
    s == [] || (!IsSpace(s[0]) && !IsSpace(s[|s| - 1]))
  }

  /** A string with no white space at either end is its own trimmed form. */
  lemma TrimSpaceUnchanged(s: string)
    requires s == [] || (!IsSpace(s[0]) && !IsSpace(s[|s| - 1]))
    ensures TrimSpace(s) == s
  {
    if s != [] {
      assert LeadingSpaces(s) == 0;
      assert s[0..] == s;
      assert TrailingSpaces(s) == 0;
      assert s[0..|s|] == s;
    }
  }

  /** Trimming twice trims nothing more. */
  lemma TrimSpaceIdempotent(s: string)
    ensures TrimSpace(TrimSpace(s)) == TrimSpace(s)
  {
    TrimSpaceUnchanged(TrimSpace(s));
  }

  // ---------------------------------------------------------------------
  // Split and Join

  /** strings.Join with a one-character separator. */
  function Join(parts: seq<string>, sep: char): (s: string)
  {
    if parts == [] then ""
    else if |parts| == 1 then parts[0]
    else parts[0] + [sep] + Join(parts[1..], sep)
  }

  lemma JoinPair(a: string, b: string, sep: char)
    ensures Join([a, b], sep) == a + [sep] + b
  {
    assert [a, b][1..] == [b];
  }

  /**
   * strings.Split with a one-character separator: the pieces between the
   * separators, always at least one (the empty string gives [""]).
   */
  function Split(s: string, sep: char): (parts: seq<string>)
    ensures |parts| >= 1
  {
    if s == [] then [""]
    else
      var rest := Split(s[1..], sep);
      if s[0] == sep then [""] + rest
      else [[s[0]] + rest[0]] + rest[1..]
  }

  /** No piece holds the separator, and joining the pieces gives s back. */
  lemma {:induction false} JoinSplit(s: string, sep: char)
    ensures forall i :: 0 <= i < |Split(s, sep)| ==> sep !in Split(s, sep)[i]
    ensures Join(Split(s, sep), sep) == s
  {
    if s != [] {
      JoinSplit(s[1..], sep);
      var rest := Split(s[1..], sep);
      var parts := Split(s, sep);
      if s[0] == sep {
        assert parts == [""] + rest;
        assert parts[1..] == rest;
        assert Join(parts, sep) == "" + [sep] + s[1..];
        assert s == [] + [sep] + s[1..];
      } else {
        var head := [s[0]] + rest[0];
        assert parts == [head] + rest[1..];
        assert sep !in head;
        if |rest| == 1 {
          assert Join(parts, sep) == head == [s[0]] + s[1..];
        } else {
          assert parts[1..] == rest[1..];
          assert Join(parts, sep) == head + [sep] + Join(rest[1..], sep);
          assert s[1..] == rest[0] + [sep] + Join(rest[1..], sep);
          assert s == head + [sep] + Join(rest[1..], sep);
        }
      }
    }
  }

  /** |Split(s, sep)| is one more than the number of separators in s. */
  function Count(s: string, c: char): nat
  {
    if s == [] then 0 else (if s[0] == c then 1 else 0) + Count(s[1..], c)
  }

  lemma {:induction false} SplitCount(s: string, sep: char)
    ensures |Split(s, sep)| == Count(s, sep) + 1
  {
    if s != [] {
      SplitCount(s[1..], sep);
    }
  }

  /** Splitting a join of separator-free pieces gives the pieces back. */
  lemma {:induction false} SplitJoin(parts: seq<string>, sep: char)
    requires |parts| >= 1
    requires forall i :: 0 <= i < |parts| ==> sep !in parts[i]
    ensures Split(Join(parts, sep), sep) == parts
    decreases parts
  {
    if |parts| == 1 {
      SplitNoSep(parts[0], sep);
    } else {
      SplitJoin(parts[1..], sep);
      SplitPrefix(parts[0], Join(parts[1..], sep), sep);
    }
  }

  lemma {:induction false} SplitNoSep(s: string, sep: char)
    requires sep !in s
    ensures Split(s, sep) == [s]
  {
    if s != [] {
      assert sep !in s[1..] by {
        assert forall k :: 0 <= k < |s[1..]| ==> s[1..][k] == s[k + 1];
      }
      SplitNoSep(s[1..], sep);
      assert [s[0]] + s[1..] == s;
    }
  }

  lemma {:induction false} SplitPrefix(a: string, b: string, sep: char)
    requires sep !in a
    ensures Split(a + [sep] + b, sep) == [a] + Split(b, sep)
  {
    if a == [] {
      assert a + [sep] + b == [sep] + b;
      assert ([sep] + b)[1..] == b;
    } else {
      SplitPrefix(a[1..], b, sep);
      assert (a + [sep] + b)[1..] == a[1..] + [sep] + b;
      assert [a[0]] + a[1..] == a;
    }
  }

  // ---------------------------------------------------------------------
  // Decimal numbers

  predicate IsDigit(c: char)
  {
    '0' <= c <= '9'
  }

  function DigitValue(c: char): nat
    requires IsDigit(c)
  {
    c as int - '0' as int
  }

  function DigitChar(d: nat): (c: char)
    requires d < 10
    ensures IsDigit(c) && DigitValue(c) == d
  {
    ('0' as int + d) as char
  }

  predicate AllDigits(s: string)
  {
    forall i :: 0 <= i < |s| ==> IsDigit(s[i])
  }

  /** The value of a string of decimal digits, most significant first. */
  function DigitsValue(s: string): nat
    requires AllDigits(s)
  {
    if s == [] then 0 else 10 * DigitsValue(s[..|s| - 1]) + DigitValue(s[|s| - 1])
  }

  /** The shortest decimal rendering of n, as fmt prints it. */
  function Decimal(n: nat): (s: string)
    ensures |s| >= 1
    ensures n >= 10 ==> |s| >= 2
  {
    if n < 10 then [DigitChar(n)] else Decimal(n / 10) + [DigitChar(n % 10)]
  }

  /** The rendering is made of digits and reads back as n. */
  lemma {:induction false} DecimalValue(n: nat)
    ensures AllDigits(Decimal(n)) && DigitsValue(Decimal(n)) == n
  {
    if n >= 10 {
      DecimalValue(n / 10);
      var s := Decimal(n);
      assert s[..|s| - 1] == Decimal(n / 10);
    }
  }

  /** fmt's %d for any integer. */
  function SignedDecimal(n: int): string
  {
    if n < 0 then "-" + Decimal(-n) else Decimal(n)
  }

  /** Distinct integers print differently. */
  lemma SignedDecimalInjective(m: int, n: int)
    requires SignedDecimal(m) == SignedDecimal(n)
    ensures m == n
  {
    var sm, sn := SignedDecimal(m), SignedDecimal(n);
    DecimalValue(if m < 0 then -m else m);
    DecimalValue(if n < 0 then -n else n);
    assert m < 0 <==> sm[0] == '-';
    assert n < 0 <==> sn[0] == '-';
    if m < 0 {
      assert sm[1..] == Decimal(-m) && sn[1..] == Decimal(-n);
    }
  }

  lemma SignedDecimalDiffer(m: int, n: int)
    requires m != n
    ensures SignedDecimal(m) != SignedDecimal(n)
  {
    if SignedDecimal(m) == SignedDecimal(n) {
      SignedDecimalInjective(m, n);
    }
  }

  /** fmt's %02d for a non-negative integer: at least two digits, zero-padded. */
  function Pad2(n: nat): (s: string)
    ensures |s| >= 2
  {
    if n < 10 then "0" + Decimal(n) else Decimal(n)
  }

  /** %02d only pads with a leading zero, so the digits still read back as n. */
  lemma Pad2Value(n: nat)
    ensures AllDigits(Pad2(n)) && DigitsValue(Pad2(n)) == n
  {
    DecimalValue(n);
    if n < 10 {
      var s := Pad2(n);
      assert s[..|s| - 1] == "0";
    }
  }

  /** Distinct numbers render to distinct %02d strings, behind any common prefix. */
  lemma Pad2Injective(prefix: string, m: nat, n: nat)
    requires prefix + Pad2(m) == prefix + Pad2(n)
    ensures m == n
  {
    assert Pad2(m) == (prefix + Pad2(m))[|prefix|..];
    assert Pad2(n) == (prefix + Pad2(n))[|prefix|..];
    Pad2Value(m);
    Pad2Value(n);
  }

  const MinInt64: int := -0x8000_0000_0000_0000
  const MaxInt64: int := 0x7FFF_FFFF_FFFF_FFFF
  const MaxUint64: nat := 0xFFFF_FFFF_FFFF_FFFF

  datatype AtoiError = ErrSyntax(input: string) | ErrRange(input: string)

  /** Where strconv's unsigned scan stops: the digits' value, or the first failure. */
  datatype Scan = Value(n: nat) | NotDigit | Overflow

  /**
   * strconv.ParseUint in base 10, left to right: a non-digit is a syntax
   * failure, and a digit that takes the value read so far past the uint64
   * maximum is a range failure. The first failure met decides.
   */
  function ScanUint(s: string): (r: Scan)
    ensures r.Value? ==> r.n <= MaxUint64
  {
    if s == [] then Value(0)
    else match ScanUint(s[..|s| - 1])
      case Value(n) =>
        var c := s[|s| - 1];
        if !IsDigit(c) then NotDigit
        else if 10 * n + DigitValue(c) > MaxUint64 then Overflow
        else Value(10 * n + DigitValue(c))
      case failed => failed
  }

  /** The scan reads a value exactly for a digit string within uint64, and that value is the digits' value. */
  lemma {:induction false} ScanUintValue(s: string)
    ensures ScanUint(s).Value? <==> AllDigits(s) && DigitsValue(s) <= MaxUint64
    ensures ScanUint(s).Value? ==> ScanUint(s).n == DigitsValue(s)
  {
    if s != [] {
      var pre := s[..|s| - 1];
      ScanUintValue(pre);
      assert forall i :: 0 <= i < |pre| ==> pre[i] == s[i];
      if AllDigits(s) {
        assert AllDigits(pre);
      }
    }
  }

  /** A scan that has failed stays failed, whatever follows. */
  lemma {:induction false} ScanUintSticky(s: string, k: nat)
    requires k <= |s| && !ScanUint(s[..k]).Value?
    ensures ScanUint(s) == ScanUint(s[..k])
    decreases |s| - k
  {
    if k < |s| {
      assert s[..k + 1][..k] == s[..k];
      ScanUintSticky(s, k + 1);
    } else {
      assert s[..k] == s;
    }
  }

  /**
   * strconv.Atoi on a 64-bit platform: an optional sign, then one or more
   * decimal digits and nothing else. The digits are scanned left to right,
   * so an overflow of uint64 met before a bad character is a range error;
   * a value outside int64 is a range error too.
   */
  function Atoi(s: string): (r: Result<int, AtoiError>)
    ensures r.Ok? ==> MinInt64 <= r.value <= MaxInt64
    ensures s == [] ==> r.Err?
  {
    var neg := |s| > 0 && s[0] == '-';
    var body := if |s| > 0 && (s[0] == '-' || s[0] == '+') then s[1..] else s;
    if body == [] then Err(ErrSyntax(s))
    else match ScanUint(body)
      case NotDigit => Err(ErrSyntax(s))
      case Overflow => Err(ErrRange(s))
      case Value(mag) =>
        var m: int := mag;
        var v := if neg then -m else m;
        if v < MinInt64 || v > MaxInt64 then Err(ErrRange(s)) else Ok(v)
  }

  /** Atoi reads back what %d prints, for every int64. */
  lemma AtoiSignedDecimal(n: int)
    requires MinInt64 <= n <= MaxInt64
    ensures Atoi(SignedDecimal(n)) == Ok(n)
  {
    if n < 0 {
      AtoiNegative(-n);
    } else {
      AtoiDigits(n);
    }
  }

  /** The digits of n, with no sign, read back as n. */
  lemma AtoiDigits(n: nat)
    requires n <= MaxInt64
    ensures Atoi(Decimal(n)) == Ok(n)
  {
    var s := Decimal(n);
    DecimalValue(n);
    ScanUintValue(s);
    assert IsDigit(s[0]);
  }

  /** "-" before the digits of m reads back as -m. */
  lemma AtoiNegative(m: nat)
    requires 0 < m <= -MinInt64
    ensures Atoi("-" + Decimal(m)) == Ok(-(m as int))
  {
    var s := "-" + Decimal(m);
    DecimalValue(m);
    ScanUintValue(Decimal(m));
    assert s[0] == '-' && s[1..] == Decimal(m);
  }

  /** A digit string never fails the scan on syntax. */
  lemma {:induction false} ScanUintDigits(s: string)
    requires AllDigits(s)
    ensures ScanUint(s) != NotDigit
  {
    if s != [] {
      var pre := s[..|s| - 1];
      assert AllDigits(pre) by {
        assert forall i :: 0 <= i < |pre| ==> pre[i] == s[i];
      }
      ScanUintDigits(pre);
    }
  }

  /**
   * A run of digits that already exceeds uint64 makes Atoi report a range
   * error, whatever follows it: "99999999999999999999x" is out of range,
   * not a syntax error.
   */
  lemma AtoiRangeBeforeSyntax(s: string, k: nat)
    requires |s| > 0 && s[0] != '-' && s[0] != '+'
    requires k <= |s| && AllDigits(s[..k]) && DigitsValue(s[..k]) > MaxUint64
    ensures Atoi(s) == Err(ErrRange(s))
  {
    ScanUintValue(s[..k]);
    ScanUintDigits(s[..k]);
    ScanUintSticky(s, k);
  }

  /** Atoi rejects anything with a character that is neither a sign in front nor a digit. */
  lemma AtoiRejectsNonDigit(s: string, i: nat)
    requires 0 < i < |s| && !IsDigit(s[i])
    ensures Atoi(s).Err?
  {
    var body := if s[0] == '-' || s[0] == '+' then s[1..] else s;
    assert !IsDigit(body[i - (|s| - |body|)]);
    ScanUintValue(body);
  }

  // ---------------------------------------------------------------------
  // Order

  /** strings.Compare(a, b) == -1: byte-wise lexicographic order. */
  predicate LexLess(a: string, b: string)
  {
    if b == [] then false
    else if a == [] then true
    else if a[0] != b[0] then a[0] < b[0]
    else LexLess(a[1..], b[1..])
  }

  lemma {:induction false} LexLessAsymmetric(a: string, b: string)
    ensures LexLess(a, b) ==> !LexLess(b, a)
  {
    if a != [] && b != [] && a[0] == b[0] {
      LexLessAsymmetric(a[1..], b[1..]);
    }
  }

  lemma {:induction false} LexLessIrreflexive(a: string)
    ensures !LexLess(a, a)
  {
    if a != [] {
      LexLessIrreflexive(a[1..]);
    }
  }

  lemma {:induction false} LexLessTransitive(a: string, b: string, c: string)
    requires LexLess(a, b) && LexLess(b, c)
    ensures LexLess(a, c)
  {
    if a != [] && a[0] == b[0] && b[0] == c[0] {
      LexLessTransitive(a[1..], b[1..], c[1..]);
    }
  }

  /** Two different strings are ordered one way or the other. */
  lemma {:induction false} LexLessTotal(a: string, b: string)
    requires a != b
    ensures LexLess(a, b) || LexLess(b, a)
  {
    if a != [] && b != [] && a[0] == b[0] {
      assert a[1..] != b[1..] by {
        assert a == [a[0]] + a[1..] && b == [b[0]] + b[1..];
      }
      LexLessTotal(a[1..], b[1..]);
    }
  }
}
