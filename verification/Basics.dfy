/** Shared vocabulary: optional values, fallible results, bytes. */
module Basics {

  datatype Option<+T> = None | Some(value: T)

  datatype Result<+T, +E> = Ok(value: T) | Err(error: E)

  newtype byte = x: int | 0 <= x < 256

  const U64_MAX: nat := 0xFFFF_FFFF_FFFF_FFFF

  function Min(a: int, b: int): (r: int)
    ensures r <= a && r <= b && (r == a || r == b)
  {
    if a <= b then a else b
  }

  function Max(a: int, b: int): (r: int)
    ensures r >= a && r >= b && (r == a || r == b)
  {
    if a >= b then a else b
  }

  /** `slice::binary_search`: a place where x is, or where it would go. */
  method BinarySearch(keys: seq<nat>, x: nat) returns (r: Result<nat, nat>)
    requires forall i, j :: 0 <= i < j < |keys| ==> keys[i] <= keys[j]
    ensures r.Ok? ==> r.value < |keys| && keys[r.value] == x
    ensures r.Err? ==> r.error <= |keys|
    ensures r.Err? ==> forall i :: 0 <= i < r.error ==> keys[i] < x
    ensures r.Err? ==> forall i :: r.error <= i < |keys| ==> x < keys[i]
  {
    var lo, hi := 0, |keys|;
    while lo < hi
      invariant lo <= hi <= |keys|
      invariant forall i :: 0 <= i < lo ==> keys[i] < x
      invariant forall i :: hi <= i < |keys| ==> x < keys[i]
    {
      var mid := (lo + hi) / 2;
      if keys[mid] == x {
        return Ok(mid);
      } else if keys[mid] < x {
        lo := mid + 1;
      } else {
        hi := mid;
      }
    }
    r := Err(lo);
  }

  function Zeroes(n: nat): (r: seq<byte>)
    ensures |r| == n && forall i :: 0 <= i < n ==> r[i] == 0
  {
    seq(n, _ => 0)
  }

  // ---- Sets ----

  lemma SubsetSize<T>(a: set<T>, b: set<T>)
    requires a <= b
    ensures |a| <= |b|
  {
    assert b == a + (b - a);
  }

  // ---- Sequences ----

  lemma Assoc<T>(a: seq<T>, b: seq<T>, c: seq<T>)
    ensures (a + b) + c == a + (b + c)
  {
  }

  lemma HeadTail<T>(s: seq<T>)
    requires s != []
    ensures [s[0]] + s[1..] == s
  {
  }

  lemma NilLeft<T>(s: seq<T>)
    ensures [] + s == s
  {
  }

  lemma PrefixSnoc<T>(s: seq<T>, j: nat)
    requires j < |s|
    ensures s[..j + 1] == s[..j] + [s[j]]
  {
  }

  lemma AppendSnoc<T>(a: seq<T>, s: seq<T>, j: nat)
    requires j < |s|
    ensures a + s[..j + 1] == a + s[..j] + [s[j]]
  {
    PrefixSnoc(s, j);
    Assoc(a, s[..j], [s[j]]);
  }

  lemma PrefixAll<T>(s: seq<T>)
    ensures s[..|s|] == s
  {
  }

  function Front<T>(s: seq<T>): seq<T>
    requires s != []
  {
    s[..|s| - 1]
  }

  function Last<T>(s: seq<T>): T
    requires s != []
  {
    s[|s| - 1]
  }

  lemma SubSlice<T>(s: seq<T>, a: nat, b: nat, x: nat, y: nat)
    requires a <= b <= |s| && x <= y <= b - a
    ensures s[a..b][x..y] == s[a + x..a + y]
  {
    var t := s[a..b];
    forall i | 0 <= i < y - x ensures t[x..y][i] == s[a + x..a + y][i] {
      assert t[x..y][i] == t[x + i] && t[x + i] == s[a + x + i];
    }
  }

  // Cutting a concatenation back into its parts.
  lemma Parts3<T>(a: seq<T>, b: seq<T>, c: seq<T>)
    ensures var s := a + b + c;
            && s[..|a|] == a && s[|a|..|a| + |b|] == b && s[|a| + |b|..] == c
  {
  }

  lemma Parts6<T>(a: seq<T>, b: seq<T>, c: seq<T>, d: seq<T>, e: seq<T>, f: seq<T>)
    ensures var s := a + b + c + d + e + f;
            var (i, j, k) := (|a|, |a| + |b|, |a| + |b| + |c|);
            var (l, m) := (k + |d|, k + |d| + |e|);
            && s[..i] == a && s[i..j] == b && s[j..k] == c && s[k..l] == d && s[l..m] == e && s[m..] == f
  {
    var s3 := a + b + c;
    Parts3(a, b, c);
    Parts3(s3, d, e);
    Parts3(s3 + d + e, f, []);
    var s := s3 + d + e + f;
    assert s[..|s3|] == s3;
  }
}
