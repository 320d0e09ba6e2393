/**
 Names of numbered segments (rawdisk/src/seg_path.rs): a stem, a dot and a
 zero-padded decimal number. The printer and the parser undo each other.
 */
module SegNames {
  import opened Basics

  // ---- Decimal numerals ----

  predicate IsDigit(c: char) {
    '0' <= c <= '9'
  }

  predicate AllDigits(s: string) {
    forall i :: 0 <= i < |s| ==> IsDigit(s[i])
  }

  function Digit(d: nat): (c: char)
    requires d < 10
    ensures IsDigit(c) && c as int - '0' as int == d
  {
    ('0' as int + d) as char
  }

  function Value(s: string): nat
    requires AllDigits(s)
  {
    if s == "" then 0 else Value(s[..|s| - 1]) * 10 + (s[|s| - 1] as int - '0' as int)
  }

  function Decimal(n: nat): (s: string)
    ensures AllDigits(s) && |s| > 0
  {
    if n < 10 then [Digit(n)] else Decimal(n / 10) + [Digit(n % 10)]
  }

  function Zeros(k: nat): (s: string)
    ensures |s| == k && forall i :: 0 <= i < k ==> s[i] == '0'
  {
    seq(k, i => '0')
  }

  // `{n:0width$}`: at least width digits, more if the number needs them.
  function Padded(n: nat, width: nat): (s: string)
    ensures AllDigits(s) && |s| == Max(width, |Decimal(n)|)
  {
    Zeros(Max(width - |Decimal(n)|, 0)) + Decimal(n)
  }

  function Pow10(k: nat): (p: nat)
    ensures p > 0
  {
    if k == 0 then 1 else 10 * Pow10(k - 1)
  }

  lemma {:induction false} DecimalFits(n: nat, width: nat)
    requires width > 0
    ensures |Decimal(n)| <= width <==> n < Pow10(width)
  {
    if width == 1 {
      assert Pow10(1) == 10 * Pow10(0);
    } else if n >= 10 {
      DecimalFits(n / 10, width - 1);
    } else {
      DecimalFits(n, width - 1);
    }
  }

  lemma {:induction false} ValueFits(s: string)
    requires AllDigits(s)
    ensures Value(s) < Pow10(|s|)
  {
    if s != "" {
      ValueFits(s[..|s| - 1]);
    }
  }

  lemma {:induction false} ValueOfDecimal(n: nat)
    ensures Value(Decimal(n)) == n
  {
    if n >= 10 {
      ValueOfDecimal(n / 10);
      var s := Decimal(n);
      assert s[..|s| - 1] == Decimal(n / 10);
    }
  }

  /** A numeral is read with its first digit the most significant one. */
  lemma {:induction false} ValueFromFront(s: string)
    requires AllDigits(s) && s != ""
    ensures Value(s) == (s[0] as int - 48) * Pow10(|s| - 1) + Value(s[1..])
    ensures Pow10(|s|) == 10 * Pow10(|s| - 1) && Pow10(0) == 1 && Value("") == 0
  {
    if |s| == 1 {
      assert s[..0] == "" && s[1..] == "";
    } else {
      var front := s[..|s| - 1];
      ValueFromFront(front);
      assert front[1..] == s[1..][..|s| - 2] && s[1..][|s| - 2] == s[|s| - 1];
      assert Value(s[1..]) == Value(front[1..]) * 10 + (s[|s| - 1] as int - '0' as int);
      assert (s[0] as int - 48) * Pow10(|s| - 2) * 10 == (s[0] as int - 48) * Pow10(|s| - 1);
    }
  }

  lemma {:induction false} ValueOfZeros(k: nat, s: string)
    requires AllDigits(s)
    ensures Value(Zeros(k) + s) == Value(s)
    decreases |s|, k
  {
    var t := Zeros(k) + s;
    if s != "" {
      ValueOfZeros(k, s[..|s| - 1]);
      assert t[..|t| - 1] == Zeros(k) + s[..|s| - 1];
    } else if k > 0 {
      ValueOfZeros(k - 1, s);
      assert t[..|t| - 1] == Zeros(k - 1) + s;
    }
  }

  lemma ValueOfPadded(n: nat, width: nat)
    ensures Value(Padded(n, width)) == n
  {
    ValueOfZeros(Max(width - |Decimal(n)|, 0), Decimal(n));
    ValueOfDecimal(n);
  }

  // A numeral of width digits is its value padded to that width.
  lemma {:induction false} PaddedOfValue(s: string)
    requires AllDigits(s) && |s| > 0
    ensures Padded(Value(s), |s|) == s
  {
    var rest, d := s[..|s| - 1], s[|s| - 1] as int - '0' as int;
    assert s == rest + [Digit(d)];
    if rest != "" {
      PaddedOfValue(rest);
      var v := Value(rest);
      assert Value(s) / 10 == v && Value(s) % 10 == d;
      ValueFits(rest);
      DecimalFits(v, |rest|);
      if v == 0 {
        assert rest == Zeros(|rest|) by {
          ZeroIsZeros(rest);
        }
      } else {
        assert Decimal(Value(s)) == Decimal(v) + [Digit(d)];
        assert Padded(Value(s), |s|) == Padded(v, |rest|) + [Digit(d)];
      }
    }
  }

  lemma {:induction false} ZeroIsZeros(s: string)
    requires AllDigits(s) && Value(s) == 0
    ensures s == Zeros(|s|)
  {
    if s != "" {
      ZeroIsZeros(s[..|s| - 1]);
      assert s == s[..|s| - 1] + [s[|s| - 1]];
    }
  }

  // ---- split_numeric_suffix and candidate ----

  const MIN_SEGMENT_DIGITS: nat := 2

  datatype Numbered = Numbered(stem: string, num: nat, width: nat)

  function LastDot(path: string): (r: Option<nat>)
    ensures r.None? ==> '.' !in path
    ensures r.Some? ==> r.value < |path| && path[r.value] == '.' && '.' !in path[r.value + 1..]
  {
    if path == "" then None
    else if path[|path| - 1] == '.' then Some(|path| - 1)
    else
      var r := LastDot(path[..|path| - 1]);
      assert path == path[..|path| - 1] + [path[|path| - 1]];
      assert r.Some? ==> path[r.value + 1..] == path[..|path| - 1][r.value + 1..] + [path[|path| - 1]];
      r
  }

  /** `split_numeric_suffix` */
  function SplitNumericSuffix(path: string): Option<Numbered> {
    match LastDot(path)
    case None => None
    case Some(dot) =>
      var suffix := path[dot + 1..];
      if |suffix| < MIN_SEGMENT_DIGITS || !AllDigits(suffix) then None
      else if Value(suffix) > U64_MAX then None
      else Some(Numbered(path[..dot], Value(suffix), |suffix|))
  }

  /** `candidate` */
  function Candidate(stem: string, n: nat, width: nat): string {
    stem + "." + Padded(n, width)
  }

  lemma DotIsLast(stem: string, digits: string)
    requires AllDigits(digits)
    ensures var path := stem + "." + digits;
            LastDot(path) == Some(|stem|) && path[..|stem|] == stem && path[|stem| + 1..] == digits
  {
    var path := stem + "." + digits;
    assert path[|stem|] == '.' && path[|stem| + 1..] == digits;
  }

  /** A stem, a dot and digits: split there exactly if there are two digits or more and their number fits 64 bits. */
  lemma SplitExactly(stem: string, digits: string)
    requires AllDigits(digits)
    ensures SplitNumericSuffix(stem + "." + digits) ==
            if |digits| >= 2 && Value(digits) <= 18446744073709551615
            then Some(Numbered(stem, Value(digits), |digits|)) else None
  {
    DotIsLast(stem, digits);
  }

  /** And no other path is split. */
  lemma OnlyDigitsSplit(path: string)
    requires SplitNumericSuffix(path).Some?
    ensures var e := SplitNumericSuffix(path).value;
            exists digits: string :: AllDigits(digits) && |digits| == e.width && path == e.stem + "." + digits
  {
    var dot := LastDot(path).value;
    assert path == path[..dot] + "." + path[dot + 1..];
  }

  /** Printed and parsed again: the same stem and number, and the width it took to print it. */
  lemma SplitCandidate(stem: string, n: nat, width: nat)
    requires width >= MIN_SEGMENT_DIGITS
    ensures SplitNumericSuffix(Candidate(stem, n, width)) ==
            if n <= U64_MAX then Some(Numbered(stem, n, Max(width, |Decimal(n)|))) else None
  {
    DotIsLast(stem, Padded(n, width));
    ValueOfPadded(n, width);
  }

  /** The round trip returns the width it was given exactly for the numbers that fit it. */
  lemma SplitCandidateWidth(stem: string, n: nat, width: nat)
    requires width >= MIN_SEGMENT_DIGITS && n <= U64_MAX
    ensures SplitNumericSuffix(Candidate(stem, n, width)) == Some(Numbered(stem, n, width)) <==> n < Pow10(width)
  {
    SplitCandidate(stem, n, width);
    DecimalFits(n, width);
  }

  /** Parsed and printed again: the same path. */
  lemma CandidateSplit(path: string)
    requires SplitNumericSuffix(path).Some?
    ensures var e := SplitNumericSuffix(path).value;
            Candidate(e.stem, e.num, e.width) == path && e.num <= U64_MAX && e.num < Pow10(e.width)
  {
    var dot := LastDot(path).value;
    var suffix := path[dot + 1..];
    PaddedOfValue(suffix);
    ValueFits(suffix);
    assert path == path[..dot] + "." + suffix;
  }

  /** Different numbers have different names, whatever their length. */
  lemma CandidateInjective(stem: string, m: nat, n: nat, width: nat)
    requires Candidate(stem, m, width) == Candidate(stem, n, width)
    ensures m == n
  {
    var path := Candidate(stem, m, width);
    assert path[|stem| + 1..] == Padded(m, width);
    assert path[|stem| + 1..] == Padded(n, width);
    ValueOfPadded(m, width);
    ValueOfPadded(n, width);
  }

  // ---- is_zero_padded ----

  function CheckedPow10(k: nat): Option<nat> {
    if Pow10(k) <= U64_MAX then Some(Pow10(k)) else None
  }

  /** `is_zero_padded` */
  predicate IsZeroPadded(num: nat, width: nat)
    requires width > 0
  {
    match CheckedPow10(width - 1)
    case Some(firstUnpadded) => num < firstUnpadded
    case None => true
  }

  lemma {:induction false} LeadingDigit(s: string)
    requires AllDigits(s) && |s| > 0
    ensures s[0] == '0' <==> Value(s) < Pow10(|s| - 1)
  {
    if |s| == 1 {
      assert s[..0] == "";
      assert Pow10(0) == 1;
    } else {
      LeadingDigit(s[..|s| - 1]);
      assert Pow10(|s| - 1) == 10 * Pow10(|s| - 2);
    }
  }

  /** The number counts as padded exactly when the name has a zero after the dot. */
  lemma PaddedMeansLeadingZero(path: string)
    requires SplitNumericSuffix(path).Some?
    ensures var e := SplitNumericSuffix(path).value;
            e.width > 0 && |e.stem| + 1 < |path| && (IsZeroPadded(e.num, e.width) <==> path[|e.stem| + 1] == '0')
  {
    var dot := LastDot(path).value;
    LeadingDigit(path[dot + 1..]);
  }
}
