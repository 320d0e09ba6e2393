/**
 Segment discovery (`segment_paths` in rawdisk/src/seg_path.rs): which files
 make up the image that a named file belongs to.
 */
module SegDiscovery {
  import opened Basics
  import opened SegNames

  // ---- The files there are ----

  // A finite set of files. About some names the checker cannot say whether they are there.
  datatype Files = Files(present: set<string>, unanswerable: string -> bool)

  // The names of one series of segments, by number.
  datatype Series = Series(stem: string, width: nat)

  function Name(s: Series, n: nat): string {
    Candidate(s.stem, n, s.width)
  }

  predicate At(fs: Files, s: Series, n: nat) {
    Name(s, n) in fs.present
  }

  // All of first .. n - 1 are there.
  ghost predicate Filled(fs: Files, s: Series, first: nat, n: nat) {
    forall k: nat :: first <= k < n ==> At(fs, s, k)
  }

  // The first number from `first` on that has no file.
  ghost predicate EndsRun(fs: Files, s: Series, first: nat, n: nat) {
    first <= n && Filled(fs, s, first, n) && !At(fs, s, n)
  }

  ghost function NamesBetween(s: Series, first: nat, n: nat): set<string> {
    set k: nat | first <= k < n :: Name(s, k)
  }

  lemma {:induction false} NamesDiffer(s: Series, first: nat, n: nat)
    requires first <= n
    ensures |NamesBetween(s, first, n)| == n - first
    decreases n
  {
    if first == n {
      assert NamesBetween(s, first, n) == {};
    } else {
      NamesDiffer(s, first, n - 1);
      OneMoreName(s, first, n);
      ExactlyBetween(s, first, n - 1, n - 1);
    }
  }

  lemma OneMoreName(s: Series, first: nat, n: nat)
    requires first < n
    ensures NamesBetween(s, first, n) == NamesBetween(s, first, n - 1) + {Name(s, n - 1)}
  {
  }

  lemma ExactlyBetween(s: Series, first: nat, n: nat, k: nat)
    ensures Name(s, k) in NamesBetween(s, first, n) <==> first <= k < n
  {
    if Name(s, k) in NamesBetween(s, first, n) {
      var j: nat :| first <= j < n && Name(s, j) == Name(s, k);
      CandidateInjective(s.stem, j, k, s.width);
    }
  }

  // A run of present files is no longer than there are files.
  lemma RunsAreShort(fs: Files, s: Series, first: nat, n: nat)
    requires first <= n && Filled(fs, s, first, n)
    ensures n - first <= |fs.present|
  {
    NamesDiffer(s, first, n);
    forall name | name in NamesBetween(s, first, n) ensures name in fs.present {
      var k: nat :| first <= k < n && Name(s, k) == name;
      assert At(fs, s, k);
    }
    SubsetSize(NamesBetween(s, first, n), fs.present);
  }

  lemma {:induction false} RunEnds(fs: Files, s: Series, first: nat, n: nat)
    requires first <= n && Filled(fs, s, first, n)
    ensures exists end: nat :: EndsRun(fs, s, first, end)
    decreases |fs.present| - (n - first)
  {
    RunsAreShort(fs, s, first, n);
    if At(fs, s, n) {
      RunsAreShort(fs, s, first, n + 1);
      RunEnds(fs, s, first, n + 1);
    } else {
      assert EndsRun(fs, s, first, n);
    }
  }

  /** A finite set of files always has a first missing number. */
  ghost function RunEnd(fs: Files, s: Series, first: nat): (end: nat)
    ensures EndsRun(fs, s, first, end)
  {
    RunEnds(fs, s, first, first);
    var end: nat :| EndsRun(fs, s, first, end);
    end
  }

  lemma RunEndUnique(fs: Files, s: Series, first: nat, n: nat)
    requires EndsRun(fs, s, first, n)
    ensures RunEnd(fs, s, first) == n
  {
    assert EndsRun(fs, s, first, RunEnd(fs, s, first));
  }

  // The number below the unbroken run that reaches up to num.
  ghost predicate StartsRun(fs: Files, s: Series, lowest: nat, num: nat) {
    lowest <= num && Filled(fs, s, lowest, num) && (lowest > 0 ==> !At(fs, s, lowest - 1))
  }

  ghost function Names(s: Series, first: nat, n: nat): seq<string>
    requires first <= n
  {
    seq(n - first, i requires 0 <= i < n - first => Name(s, first + i))
  }

  // ---- What discovery should answer ----

  datatype DiscoveryError = Missing(path: string) | Undetermined(path: string)

  type Discovery = Result<seq<string>, DiscoveryError>

  // A sequence begins at 0 or at 1.
  ghost predicate HasStart(fs: Files, s: Series) {
    At(fs, s, 0) || At(fs, s, 1)
  }

  ghost function First(fs: Files, s: Series): nat {
    if At(fs, s, 0) then 0 else 1
  }

  // A file next to the named one.
  ghost predicate HasNeighbor(fs: Files, s: Series, num: nat) {
    (num > 0 && At(fs, s, num - 1)) || (num < U64_MAX && At(fs, s, num + 1))
  }

  // The named file stands alone: no start, and nothing that suggests a lost one.
  ghost predicate Lone(fs: Files, s: Series, num: nat)
    requires s.width > 0
  {
    !HasStart(fs, s) && (IsZeroPadded(num, s.width) ==> !HasNeighbor(fs, s, num))
  }

  // The named file is in the run from the start, and no file is just past the run's end.
  ghost predicate Whole(fs: Files, s: Series, num: nat) {
    var end := RunEnd(fs, s, First(fs, s));
    HasStart(fs, s) && First(fs, s) <= num < end && !At(fs, s, end + 1)
  }

  // The answers that say something is missing, and what.
  ghost predicate NamesMissing(fs: Files, s: Series, num: nat, m: nat)
    requires s.width > 0
  {
    if HasStart(fs, s) then
      var end := RunEnd(fs, s, First(fs, s));
      if num < First(fs, s) then m == num else (num >= end || At(fs, s, end + 1)) && m == end
    else
      IsZeroPadded(num, s.width) && HasNeighbor(fs, s, num) && StartsRun(fs, s, m + 1, num)
  }

  ghost predicate Answers(fs: Files, example: string, r: Discovery) {
    match SplitNumericSuffix(example)
    case None => r == Ok([example])
    case Some(e) =>
      var s := Series(e.stem, e.width);
      match r
      case Ok(paths) =>
        || (Lone(fs, s, e.num) && paths == [example])
        || (Whole(fs, s, e.num) && paths == Names(s, First(fs, s), RunEnd(fs, s, First(fs, s))))
      case Err(Missing(path)) => exists m: nat :: NamesMissing(fs, s, e.num, m) && path == Name(s, m)
      case Err(Undetermined(_)) => false
  }

  // ---- What the answers are worth ----

  lemma StartsRunUnique(fs: Files, s: Series, a: nat, b: nat, num: nat)
    requires StartsRun(fs, s, a, num) && StartsRun(fs, s, b, num)
    ensures a == b
  {
  }

  /** The files settle the answer. */
  lemma AnswerUnique(fs: Files, example: string, r: Discovery, r': Discovery)
    requires Answers(fs, example, r) && Answers(fs, example, r')
    ensures r == r'
  {
    var split := SplitNumericSuffix(example);
    if split.Some? && r.Err? && r'.Err? {
      var s, num := Series(split.value.stem, split.value.width), split.value.num;
      var m: nat :| NamesMissing(fs, s, num, m) && r.error.path == Name(s, m);
      var m': nat :| NamesMissing(fs, s, num, m') && r'.error.path == Name(s, m');
      if !HasStart(fs, s) {
        StartsRunUnique(fs, s, m + 1, m' + 1, num);
      }
    }
  }

  /** A segment reported missing is not there. */
  lemma MissingIsAbsent(fs: Files, example: string, path: string)
    requires Answers(fs, example, Err(Missing(path)))
    ensures path !in fs.present
  {
    var e := SplitNumericSuffix(example).value;
    var s := Series(e.stem, e.width);
    var m: nat :| NamesMissing(fs, s, e.num, m) && path == Name(s, m);
    assert !At(fs, s, m);
  }

  lemma InNames(s: Series, first: nat, n: nat, k: nat)
    requires first <= n
    ensures Name(s, k) in Names(s, first, n) <==> first <= k < n
  {
    if first <= k < n {
      assert Names(s, first, n)[k - first] == Name(s, k);
    }
    if Name(s, k) in Names(s, first, n) {
      var i :| 0 <= i < n - first && Names(s, first, n)[i] == Name(s, k);
      assert Name(s, first + i) == Name(s, k);
      CandidateInjective(s.stem, first + i, k, s.width);
    }
  }

  /** The image always includes the file that was named. */
  lemma NamedIsIncluded(fs: Files, example: string, paths: seq<string>)
    requires Answers(fs, example, Ok(paths))
    ensures example in paths
  {
    if SplitNumericSuffix(example).Some? {
      var e := SplitNumericSuffix(example).value;
      var s := Series(e.stem, e.width);
      CandidateSplit(example);
      InNames(s, First(fs, s), RunEnd(fs, s, First(fs, s)), e.num);
    }
  }

  /** Nothing present is left out of a sequence with a start, unless two numbers in a row are missing before it. */
  lemma OmittedIsFar(fs: Files, example: string, paths: seq<string>, m: nat)
    requires Answers(fs, example, Ok(paths)) && SplitNumericSuffix(example).Some?
    requires var e := SplitNumericSuffix(example).value;
             var s := Series(e.stem, e.width);
             HasStart(fs, s) && At(fs, s, m) && Name(s, m) !in paths
    ensures var e := SplitNumericSuffix(example).value;
            var s := Series(e.stem, e.width);
            var n := First(fs, s) + |paths|;
            m >= n + 2 && !At(fs, s, n) && !At(fs, s, n + 1)
  {
    var e := SplitNumericSuffix(example).value;
    var s := Series(e.stem, e.width);
    InNames(s, First(fs, s), RunEnd(fs, s, First(fs, s)), m);
  }

  /** With a start, every path returned is there and they are the numbers in order. */
  lemma ReturnedArePresent(fs: Files, example: string, paths: seq<string>, i: nat)
    requires Answers(fs, example, Ok(paths)) && SplitNumericSuffix(example).Some? && i < |paths|
    requires HasStart(fs, Series(SplitNumericSuffix(example).value.stem, SplitNumericSuffix(example).value.width))
    ensures var e := SplitNumericSuffix(example).value;
            var s := Series(e.stem, e.width);
            paths[i] == Name(s, First(fs, s) + i) && paths[i] in fs.present
  {
    var e := SplitNumericSuffix(example).value;
    var s := Series(e.stem, e.width);
    assert At(fs, s, First(fs, s) + i);
  }

  lemma SplitName(s: Series, k: nat)
    requires s.width >= MIN_SEGMENT_DIGITS && k <= U64_MAX && k < Pow10(s.width)
    ensures SplitNumericSuffix(Name(s, k)) == Some(Numbered(s.stem, k, s.width))
  {
    SplitCandidateWidth(s.stem, k, s.width);
  }

  // The names of a run and those of a wider one begin differently.
  lemma WiderRunDiffers(s: Series, s': Series, first: nat, n: nat, first': nat, n': nat)
    requires 2 <= s.width < s'.width && s.stem == s'.stem && first <= 1 && first' <= 1 && first < n && first' < n'
    ensures Names(s, first, n) != Names(s', first', n')
  {
    assert |Decimal(first)| == 1 && |Decimal(first')| == 1;
    assert Names(s, first, n)[0] == Name(s, first) && Names(s', first', n')[0] == Name(s', first');
    assert |Name(s, first)| < |Name(s', first')|;
  }

  /**
   Whichever segment of a sequence is named, the same image is found, as long as
   its number fits the width. A member that has outgrown the width never finds it.
   */
  lemma AnyMemberFindsTheRun(fs: Files, example: string, paths: seq<string>, k: nat)
    requires Answers(fs, example, Ok(paths)) && SplitNumericSuffix(example).Some?
    requires var e := SplitNumericSuffix(example).value;
             HasStart(fs, Series(e.stem, e.width)) && Name(Series(e.stem, e.width), k) in paths
    ensures var e := SplitNumericSuffix(example).value;
            Answers(fs, Name(Series(e.stem, e.width), k), Ok(paths)) <==> k < Pow10(e.width) && k <= U64_MAX
  {
    var e := SplitNumericSuffix(example).value;
    var s := Series(e.stem, e.width);
    var first := First(fs, s);
    var end := RunEnd(fs, s, first);
    InNames(s, first, end, k);
    if k < Pow10(e.width) && k <= U64_MAX {
      SplitName(s, k);
    } else {
      OutgrownMemberIsAlone(fs, example, paths, k);
    }
  }

  lemma OutgrownMemberIsAlone(fs: Files, example: string, paths: seq<string>, k: nat)
    requires Answers(fs, example, Ok(paths)) && SplitNumericSuffix(example).Some?
    requires var e := SplitNumericSuffix(example).value;
             HasStart(fs, Series(e.stem, e.width)) && !(k < Pow10(e.width) && k <= U64_MAX)
    ensures var e := SplitNumericSuffix(example).value;
            !Answers(fs, Name(Series(e.stem, e.width), k), Ok(paths))
  {
    var e := SplitNumericSuffix(example).value;
    var s := Series(e.stem, e.width);
    var other := Name(s, k);
    CandidateSplit(example);
    NamedIsIncluded(fs, example, paths);
    assert example != other by {
      if example == other {
        CandidateInjective(e.stem, e.num, k, e.width);
      }
    }
    assert paths != [other];
    SplitCandidate(e.stem, k, e.width);
    if k <= U64_MAX {
      DecimalFits(k, e.width);
      var s' := Series(e.stem, |Decimal(k)|);
      var first, first' := First(fs, s), First(fs, s');
      if Whole(fs, s', k) {
        WiderRunDiffers(s, s', first, RunEnd(fs, s, first), first', RunEnd(fs, s', first'));
      }
    }
  }

  /** Every width has a sequence that outgrows it: found from its first segment, and not from its last. */
  lemma RunOutgrowsItsWidth(s: Series) returns (fs: Files)
    requires s.width >= MIN_SEGMENT_DIGITS
    ensures var last := Pow10(s.width);
            var paths := Names(s, 1, last + 1);
            && Answers(fs, Name(s, 1), Ok(paths))
            && Name(s, last) in paths && !Answers(fs, Name(s, last), Ok(paths))
  {
    var last := Pow10(s.width);
    assert 1 < last by {
      assert Pow10(s.width) == 10 * Pow10(s.width - 1);
    }
    fs := FilesBetween(s, 1, last + 1);
    RunIsFound(fs, s, last + 1);
    SplitName(s, 1);
    InNames(s, 1, last + 1, last);
    AnyMemberFindsTheRun(fs, Name(s, 1), Names(s, 1, last + 1), last);
  }

  lemma FilesBetween(s: Series, first: nat, n: nat) returns (fs: Files)
    ensures forall k: nat :: At(fs, s, k) <==> first <= k < n
  {
    fs := Files(NamesBetween(s, first, n), (_: string) => false);
    forall k: nat ensures At(fs, s, k) <==> first <= k < n {
      ExactlyBetween(s, first, n, k);
    }
  }

  lemma RunIsFound(fs: Files, s: Series, n: nat)
    requires s.width >= MIN_SEGMENT_DIGITS && 1 < n && 1 < Pow10(s.width)
    requires forall k: nat :: At(fs, s, k) <==> 1 <= k < n
    ensures Answers(fs, Name(s, 1), Ok(Names(s, 1, n))) && HasStart(fs, s)
  {
    SplitName(s, 1);
    assert EndsRun(fs, s, 1, n) && !At(fs, s, 0) && At(fs, s, 1) && !At(fs, s, n + 1);
    RunEndUnique(fs, s, 1, n);
  }

  // Whether the run from the start is given whole is settled by the file just past its end.
  lemma RunDecides(fs: Files, s: Series, n: nat, num: nat)
    requires s.width > 0 && HasStart(fs, s) && EndsRun(fs, s, First(fs, s), n) && First(fs, s) <= num < n
    ensures RunEnd(fs, s, First(fs, s)) == n && !Lone(fs, s, num)
    ensures Whole(fs, s, num) <==> !At(fs, s, n + 1)
    ensures forall m: nat :: NamesMissing(fs, s, num, m) ==> At(fs, s, n + 1)
  {
    RunEndUnique(fs, s, First(fs, s), n);
  }

  /** With the named segment in the run from a start, the run is the answer exactly if no file is just past the hole. */
  lemma FrontPartOpens(fs: Files, s: Series, n: nat, num: nat, r: Discovery)
    requires s.width >= MIN_SEGMENT_DIGITS && num <= U64_MAX && num < Pow10(s.width)
    requires HasStart(fs, s) && EndsRun(fs, s, First(fs, s), n) && First(fs, s) <= num < n
    requires Answers(fs, Name(s, num), r)
    ensures r.Ok? <==> !At(fs, s, n + 1)
    ensures r.Ok? ==> r.value == Names(s, First(fs, s), n)
  {
    SplitName(s, num);
    RunDecides(fs, s, n, num);
  }

  // Some segment that is there is left out of the answer.
  ghost predicate LeavesOut(fs: Files, s: Series, r: Discovery) {
    r.Ok? && exists m: nat :: At(fs, s, m) && Name(s, m) !in r.value
  }

  /** A present segment is left out exactly when two numbers in a row are missing and one above them is there. */
  lemma LeavesOutExactly(fs: Files, s: Series, n: nat, num: nat, r: Discovery)
    requires s.width >= MIN_SEGMENT_DIGITS && num <= U64_MAX && num < Pow10(s.width)
    requires HasStart(fs, s) && EndsRun(fs, s, First(fs, s), n) && First(fs, s) <= num < n
    requires Answers(fs, Name(s, num), r)
    ensures LeavesOut(fs, s, r) <==> !At(fs, s, n + 1) && exists m: nat :: m >= n + 2 && At(fs, s, m)
  {
    FrontPartOpens(fs, s, n, num, r);
    if !At(fs, s, n + 1) {
      forall m: nat | At(fs, s, m) ensures Name(s, m) !in r.value <==> m >= n + 2 {
        OutOfRun(fs, s, n, m);
      }
    }
  }

  // A file outside the run from the start lies past the hole, and past the number after it if that is missing.
  lemma OutOfRun(fs: Files, s: Series, n: nat, m: nat)
    requires HasStart(fs, s) && EndsRun(fs, s, First(fs, s), n) && !At(fs, s, n + 1) && At(fs, s, m)
    ensures Name(s, m) !in Names(s, First(fs, s), n) <==> m >= n + 2
  {
    InNames(s, First(fs, s), n, m);
  }

  /** For instance: segments 1 up to n and one beyond the gap, which is overlooked. */
  lemma GapIsOverlooked(s: Series, n: nat, m: nat) returns (fs: Files)
    requires s.width >= MIN_SEGMENT_DIGITS && 1 < n && n + 2 <= m
    ensures Answers(fs, Name(s, 1), Ok(Names(s, 1, n))) && At(fs, s, m) && LeavesOut(fs, s, Ok(Names(s, 1, n)))
  {
    fs := Files(NamesBetween(s, 1, n) + {Name(s, m)}, (_: string) => false);
    forall k: nat ensures At(fs, s, k) <==> 1 <= k < n || k == m {
      ExactlyBetween(s, 1, n, k);
      if Name(s, k) == Name(s, m) {
        CandidateInjective(s.stem, k, m, s.width);
      }
    }
    assert 1 < Pow10(s.width) by {
      assert Pow10(s.width) == 10 * Pow10(s.width - 1);
    }
    SplitName(s, 1);
    assert EndsRun(fs, s, 1, n) && !At(fs, s, 0) && At(fs, s, 1) && !At(fs, s, n + 1);
    RunEndUnique(fs, s, 1, n);
    InNames(s, 1, n, m);
  }

  /** One segment lost from the middle of a sequence: it is the one reported, whichever segment is named. */
  lemma HoleIsNamed(fs: Files, s: Series, hole: nat, num: nat, r: Discovery)
    requires s.width >= MIN_SEGMENT_DIGITS && num <= U64_MAX && num < Pow10(s.width)
    requires HasStart(fs, s) && First(fs, s) <= num
    requires EndsRun(fs, s, First(fs, s), hole) && At(fs, s, hole + 1)
    requires Answers(fs, Name(s, num), r)
    ensures r == Err(Missing(Name(s, hole)))
  {
    SplitName(s, num);
    RunEndUnique(fs, s, First(fs, s), hole);
  }

  /** The first segment lost of a sequence from 1: reported exactly when the named segment shows a leading zero. */
  lemma LostStartIsNamed(fs: Files, s: Series, n: nat, num: nat, r: Discovery)
    requires s.width >= MIN_SEGMENT_DIGITS && num <= U64_MAX && num < Pow10(s.width)
    requires !HasStart(fs, s) && Filled(fs, s, 2, n) && 2 <= num < n && n >= 4
    requires Answers(fs, Name(s, num), r)
    ensures r == if IsZeroPadded(num, s.width) then Err(Missing(Name(s, 1))) else Ok([Name(s, num)])
  {
    SplitName(s, num);
    assert At(fs, s, if num == 2 then 3 else num - 1);
    assert StartsRun(fs, s, 2, num);
    if r.Err? {
      var m: nat :| NamesMissing(fs, s, num, m) && r.error.path == Name(s, m);
      StartsRunUnique(fs, s, m + 1, 2, num);
    }
  }

  /** Without segments 0 and 1, a segment is an image by itself if it has no leading zero or no file next to it. */
  lemma LoneIsKept(fs: Files, s: Series, num: nat, r: Discovery)
    requires s.width >= MIN_SEGMENT_DIGITS && num <= U64_MAX && num < Pow10(s.width)
    requires !At(fs, s, 0) && !At(fs, s, 1) && Answers(fs, Name(s, num), r)
    requires Pow10(s.width - 1) <= num || ((num > 0 ==> !At(fs, s, num - 1)) && !At(fs, s, num + 1))
    ensures r == Ok([Name(s, num)])
  {
    SplitName(s, num);
  }

  /** With a start, naming a segment above the first hole reports that hole. */
  lemma PastTheHole(fs: Files, s: Series, first: nat, hole: nat, num: nat, r: Discovery)
    requires s.width >= MIN_SEGMENT_DIGITS && num <= U64_MAX && num < Pow10(s.width) && Answers(fs, Name(s, num), r)
    requires first == (if At(fs, s, 0) then 0 else 1) && first < hole <= num
    requires (forall k: nat :: first <= k < hole ==> At(fs, s, k)) && !At(fs, s, hole)
    ensures r == Err(Missing(Name(s, hole)))
  {
    assert At(fs, s, first);
    assert EndsRun(fs, s, first, hole);
    SplitName(s, num);
    RunEndUnique(fs, s, first, hole);
  }

  lemma CompleteRun(fs: Files, s: Series, first: nat, n: nat)
    requires first <= 1 && first < n && forall k: nat :: At(fs, s, k) <==> first <= k < n
    ensures HasStart(fs, s) && First(fs, s) == first && EndsRun(fs, s, first, n) && !At(fs, s, n + 1)
  {
    assert At(fs, s, first) && !At(fs, s, n) && (first == 1 ==> !At(fs, s, 0));
  }

  /** A sequence with nothing missing is found entire. */
  lemma CompleteRunIsFound(fs: Files, s: Series, first: nat, n: nat, num: nat, r: Discovery)
    requires s.width >= MIN_SEGMENT_DIGITS && num <= U64_MAX && num < Pow10(s.width)
    requires first <= 1 && (forall k: nat :: At(fs, s, k) <==> first <= k < n) && first <= num < n
    requires Answers(fs, Name(s, num), r)
    ensures r == Ok(Names(s, first, n))
  {
    CompleteRun(fs, s, first, n);
    FrontPartOpens(fs, s, n, num, r);
  }

  // ---- The search ----

  class Checker {
    const fs: Files
    ghost var probes: seq<string>

    constructor (fs: Files)
      ensures this.fs == fs && probes == []
    {
      this.fs, probes := fs, [];
    }

    // No name asked since the first n probes was unanswerable.
    ghost predicate AllAnswered(n: nat)
      reads this
    {
      n <= |probes| && forall i :: n <= i < |probes| ==> !fs.unanswerable(probes[i])
    }

    /** `exists`: the same answer every time. */
    method Exists(s: Series, n: nat) returns (r: Result<bool, DiscoveryError>)
      modifies this`probes
      ensures probes == old(probes) + [Name(s, n)]
      ensures r == if fs.unanswerable(Name(s, n)) then Err(Undetermined(Name(s, n))) else Ok(At(fs, s, n))
    {
      var path := Name(s, n);
      probes := probes + [path];
      r := if fs.unanswerable(path) then Err(Undetermined(path)) else Ok(path in fs.present);
    }

    // Only an unanswerable last probe is reported as such.
    ghost predicate Reports(n: nat, e: DiscoveryError)
      reads this
    {
      n < |probes| && e == Undetermined(probes[|probes| - 1]) && fs.unanswerable(probes[|probes| - 1])
    }

    // The walk up from the start.
    method WalkUp(s: Series, first: nat) returns (r: Result<nat, DiscoveryError>, paths: seq<string>)
      modifies this`probes
      ensures old(probes) <= probes
      ensures r.Ok? ==>
                AllAnswered(|old(probes)|) && r.value == RunEnd(fs, s, first) && paths == Names(s, first, r.value)
      ensures r.Ok? ==> probes == old(probes) + Names(s, first, r.value + 1)
      ensures r.Err? ==> Reports(|old(probes)|, r.error)
    {
      var n := first;
      paths := [];
      while true
        invariant first <= n && Filled(fs, s, first, n) && paths == Names(s, first, n)
        invariant probes == old(probes) + Names(s, first, n) && AllAnswered(|old(probes)|)
        decreases |fs.present| - (n - first)
      {
        RunsAreShort(fs, s, first, n);
        var there := Exists(s, n);
        assert Names(s, first, n + 1) == Names(s, first, n) + [Name(s, n)];
        if there.Err? {
          return Err(there.error), paths;
        }
        if !there.value {
          break;
        }
        paths := paths + [Name(s, n)];
        n := n + 1;
        RunsAreShort(fs, s, first, n);
      }
      RunEndUnique(fs, s, first, n);
      r := Ok(n);
    }

    // The walk down to the lowest segment present.
    method WalkDown(s: Series, num: nat) returns (r: Result<nat, DiscoveryError>)
      modifies this`probes
      ensures old(probes) <= probes
      ensures r.Ok? ==> AllAnswered(|old(probes)|) && StartsRun(fs, s, r.value, num)
      ensures r.Err? ==> Reports(|old(probes)|, r.error)
    {
      var lowest: nat := num;
      while lowest > 0
        invariant lowest <= num && Filled(fs, s, lowest, num)
        invariant old(probes) <= probes && AllAnswered(|old(probes)|)
      {
        var there := Exists(s, lowest - 1);
        if there.Err? {
          return Err(there.error);
        }
        if !there.value {
          break;
        }
        lowest := lowest - 1;
      }
      r := Ok(lowest);
    }

    // Whether there is a file just below or just above.
    method Neighbors(s: Series, num: nat) returns (r: Result<bool, DiscoveryError>)
      modifies this`probes
      ensures old(probes) <= probes
      ensures r.Ok? ==> AllAnswered(|old(probes)|) && (r.value <==> HasNeighbor(fs, s, num))
      ensures r.Err? ==> Reports(|old(probes)|, r.error)
    {
      var below, above := false, false;
      if num > 0 {
        var there := Exists(s, num - 1);
        if there.Err? {
          return there;
        }
        below := there.value;
      }
      if num + 1 <= U64_MAX {
        var there := Exists(s, num + 1);
        if there.Err? {
          return there;
        }
        above := there.value;
      }
      r := Ok(below || above);
    }

    // No start at this width: a lone file, or a sequence that has lost its first segments.
    method WithoutStart(s: Series, num: nat, example: string) returns (r: Discovery)
      requires s.width > 0 && !HasStart(fs, s)
      modifies this`probes
      ensures old(probes) <= probes
      ensures r.Ok? ==> AllAnswered(|old(probes)|) && Lone(fs, s, num) && r.value == [example]
      ensures r.Err? && r.error.Missing? ==>
                && AllAnswered(|old(probes)|)
                && exists m: nat :: NamesMissing(fs, s, num, m) && r.error.path == Name(s, m)
      ensures r.Err? && r.error.Undetermined? ==> Reports(|old(probes)|, r.error)
    {
      if !IsZeroPadded(num, s.width) {
        return Ok([example]);
      }
      var near := Neighbors(s, num);
      if near.Err? {
        return Err(near.error);
      }
      if !near.value {
        return Ok([example]);
      }
      var lowest := WalkDown(s, num);
      if lowest.Err? {
        return Err(lowest.error);
      }
      var m := Max(lowest.value - 1, 0);
      assert NamesMissing(fs, s, num, m);
      r := Err(Missing(Name(s, m)));
    }

    // From the start upwards.
    method FromStart(s: Series, first: nat, num: nat) returns (r: Discovery)
      requires s.width > 0 && HasStart(fs, s) && first == First(fs, s)
      modifies this`probes
      ensures old(probes) <= probes
      ensures r.Ok? ==> AllAnswered(|old(probes)|) && Whole(fs, s, num)
                        && r.value == Names(s, First(fs, s), RunEnd(fs, s, First(fs, s)))
      ensures r.Err? && r.error.Missing? ==>
                && AllAnswered(|old(probes)|)
                && exists m: nat :: NamesMissing(fs, s, num, m) && r.error.path == Name(s, m)
      ensures r.Err? && r.error.Undetermined? ==> Reports(|old(probes)|, r.error)
    {
      var end, paths := WalkUp(s, first);
      if end.Err? {
        return Err(end.error);
      }
      if num < first {
        assert NamesMissing(fs, s, num, num);
        return Err(Missing(Name(s, num)));
      }
      if num >= end.value {
        assert NamesMissing(fs, s, num, end.value);
        return Err(Missing(Name(s, end.value)));
      }
      var past := Exists(s, end.value + 1);
      if past.Err? {
        return Err(past.error);
      }
      if past.value {
        assert NamesMissing(fs, s, num, end.value);
        return Err(Missing(Name(s, end.value)));
      }
      r := Ok(paths);
    }

    /** `segment_paths`: the answer for the files there are, unless some probe could not be answered. */
    method SegmentPaths(example: string) returns (r: Discovery)
      modifies this`probes
      ensures old(probes) <= probes
      ensures AllAnswered(|old(probes)|) ==> Answers(fs, example, r)
      ensures !AllAnswered(|old(probes)|) ==> r.Err? && Reports(|old(probes)|, r.error)
    {
      var split := SplitNumericSuffix(example);
      if split.None? {
        return Ok([example]);
      }
      var s, num := Series(split.value.stem, split.value.width), split.value.num;
      var zero := Exists(s, 0);
      assert probes[|old(probes)|] == Name(s, 0);
      if zero.Err? {
        return Err(zero.error);
      }
      if zero.value {
        r := FromStart(s, 0, num);
        return;
      }
      var one := Exists(s, 1);
      assert probes[|old(probes)| + 1] == Name(s, 1);
      if one.Err? {
        return Err(one.error);
      }
      if one.value {
        r := FromStart(s, 1, num);
      } else {
        r := WithoutStart(s, num, example);
      }
    }
  }
}
