/**
 Interval maps: `insert_span` and `remove_span` of vmdk/src/spans.rs.

 A span map sends the first point of a half-open interval to its end and its
 value. The unvalued map of the source is the case where the value is `()`.
 */
module Spans {
  import opened Basics

  datatype Span<+T> = Span(end: nat, val: T)

  type SpanMap<+T> = map<nat, Span<T>>

  // Span k of m contains point p.
  ghost predicate Holds<T>(m: SpanMap<T>, k: nat, p: nat) {
    k in m && k <= p < m[k].end
  }

  ghost predicate Covered<T>(m: SpanMap<T>, p: nat) {
    exists k :: Holds(m, k, p)
  }

  /** The value at a point: the meaning of a span map. */
  ghost function Lookup<T>(m: SpanMap<T>, p: nat): Option<T> {
    if Covered(m, p) then
      var k :| Holds(m, k, p);
      Some(m[k].val)
    else
      None
  }

  // Spans do not overlap. An empty span is tolerated: a zero-sector extent yields one.
  ghost predicate Disjoint<T>(m: SpanMap<T>) {
    && (forall k :: k in m ==> k <= m[k].end)
    && (forall j, k :: j in m && k in m && j < k ==> m[j].end <= k)
  }

  ghost predicate Nonempty<T>(m: SpanMap<T>) {
    forall k :: k in m ==> k < m[k].end
  }

  // Touching spans carry different values.
  ghost predicate Merged<T>(m: SpanMap<T>) {
    forall j, k :: j in m && k in m && j < k && m[j].end == k ==> m[j].val != m[k].val
  }

  ghost predicate Canonical<T>(m: SpanMap<T>) {
    Disjoint(m) && Nonempty(m) && Merged(m)
  }

  // No two spans touch.
  ghost predicate Apart<T>(m: SpanMap<T>) {
    forall j, k :: j in m && k in m && j < k ==> m[j].end < k
  }

  lemma LookupHeld<T>(m: SpanMap<T>, k: nat, p: nat)
    requires Disjoint(m) && Holds(m, k, p)
    ensures Lookup(m, p) == Some(m[k].val)
  {
    assert Covered(m, p);
    var j :| Holds(m, j, p) && Lookup(m, p) == Some(m[j].val);
    assert j == k;
  }

  // ---- BTreeMap queries ----

  /** `map.range(..=k).last()` */
  method Floor<V>(m: map<nat, V>, k: nat) returns (r: Option<nat>)
    ensures r.None? ==> forall j :: j in m ==> k < j
    ensures r.Some? ==> r.value in m && r.value <= k
    ensures r.Some? ==> forall j :: j in m && j <= k ==> j <= r.value
  {
    r := None;
    var todo := m.Keys;
    while todo != {}
      invariant todo <= m.Keys
      invariant r.None? ==> forall j :: j in m && j !in todo ==> k < j
      invariant r.Some? ==> r.value in m && r.value <= k
      invariant r.Some? ==> forall j :: j in m && j !in todo && j <= k ==> j <= r.value
      decreases todo
    {
      var j :| j in todo;
      todo := todo - {j};
      if j <= k && (r.None? || r.value < j) {
        r := Some(j);
      }
    }
  }

  /** `map.range((Excluded(k), Included(u64::MAX))).next()` */
  method Higher<V>(m: map<nat, V>, k: nat) returns (r: Option<nat>)
    ensures r.None? ==> forall j :: j in m ==> j <= k
    ensures r.Some? ==> r.value in m && k < r.value
    ensures r.Some? ==> forall j :: j in m && k < j ==> r.value <= j
  {
    r := None;
    var todo := m.Keys;
    while todo != {}
      invariant todo <= m.Keys
      invariant r.None? ==> forall j :: j in m && j !in todo ==> j <= k
      invariant r.Some? ==> r.value in m && k < r.value
      invariant r.Some? ==> forall j :: j in m && j !in todo && k < j ==> r.value <= j
      decreases todo
    {
      var j :| j in todo;
      todo := todo - {j};
      if k < j && (r.None? || j < r.value) {
        r := Some(j);
      }
    }
  }

  // The map as a table ordered by first point.
  ghost predicate IsTable<T>(m: SpanMap<T>, t: seq<(nat, Span<T>)>) {
    && (forall i :: 0 <= i < |t| ==> t[i].0 in m && m[t[i].0] == t[i].1)
    && (forall k :: k in m ==> exists i :: 0 <= i < |t| && t[i].0 == k)
    && (forall i, j :: 0 <= i < j < |t| ==> t[i].0 < t[j].0)
  }

  /** `map.into_iter().collect()` */
  method Entries<T>(m: SpanMap<T>) returns (t: seq<(nat, Span<T>)>)
    ensures IsTable(m, t)
  {
    t := [];
    var next: Option<nat> := if 0 in m then Some(0) else None;
    if next.None? {
      next := Higher(m, 0);
    }
    ghost var left := m.Keys;
    while next.Some?
      invariant forall i :: 0 <= i < |t| ==> t[i].0 in m && m[t[i].0] == t[i].1
      invariant forall i, j :: 0 <= i < j < |t| ==> t[i].0 < t[j].0
      invariant next.Some? ==> next.value in left && forall i :: 0 <= i < |t| ==> t[i].0 < next.value
      invariant forall k :: k in left ==> next.Some? && next.value <= k
      invariant left <= m.Keys && forall k :: k in m && k !in left ==> exists i :: 0 <= i < |t| && t[i].0 == k
      decreases left
    {
      var k := next.value;
      ghost var before := t;
      t := t + [(k, m[k])];
      assert t[|before|].0 == k && forall i :: 0 <= i < |before| ==> t[i] == before[i];
      next := Higher(m, k);
      left := left - {k};
      assert next.Some? ==> next.value in left;
    }
  }

  // ---- insert_span ----

  /** What an insertion must look like from outside: old values win, the gaps get `val`. */
  ghost function Overlaid<T>(m: SpanMap<T>, beg: nat, end: nat, val: T, p: nat): Option<T> {
    if Lookup(m, p).Some? then Lookup(m, p)
    else if beg <= p < end then Some(val)
    else None
  }

  ghost predicate Overlays<T>(m0: SpanMap<T>, beg: nat, end: nat, val: T, m: SpanMap<T>) {
    forall p: nat :: Lookup(m, p) == Overlaid(m0, beg, end, val, p)
  }

  // Writing [at, end) := val where nothing but val is held, absorbing the spans inside.
  lemma PutLookup<T>(m: SpanMap<T>, gone: set<nat>, at: nat, end: nat, val: T, m': SpanMap<T>)
    requires Disjoint(m) && at <= end
    requires m' == (m - gone)[at := Span(end, val)]
    requires forall k :: k in m && (k in gone || k == at) ==>
               at <= k && m[k].end <= end && (k < m[k].end ==> m[k].val == val)
    requires forall k :: k in m && k !in gone && k != at ==> m[k].end <= at || end <= k
    requires forall k :: k in m && k !in gone && at < k ==> end <= k
    ensures Disjoint(m')
    ensures forall p: nat :: Lookup(m', p) == if at <= p < end then Some(val) else Lookup(m, p)
  {
    assert forall k :: k in m' && k != at ==> k in m && k !in gone && m'[k] == m[k];
    assert Disjoint(m');
    forall p: nat ensures Lookup(m', p) == if at <= p < end then Some(val) else Lookup(m, p) {
      if at <= p < end {
        assert Holds(m', at, p);
        LookupHeld(m', at, p);
      } else if Covered(m, p) {
        var k :| Holds(m, k, p);
        assert Holds(m', k, p);
        LookupHeld(m, k, p);
        LookupHeld(m', k, p);
      } else if Covered(m', p) {
        var k :| Holds(m', k, p);
        assert Holds(m, k, p);
      }
    }
  }

  // Nothing is held at sbeg; writing may begin at `at`, the start of a span of val that ends there.
  ghost predicate Ready<T>(m: SpanMap<T>, sbeg: nat, at: nat, val: T) {
    && (forall k :: k in m && k <= sbeg ==> m[k].end <= sbeg)
    && (|| at == sbeg
        || (at < sbeg && at in m && m[at] == Span(sbeg, val) && forall k :: k in m && k <= sbeg ==> k <= at))
  }

  ghost predicate Next<T>(m: SpanMap<T>, sbeg: nat, u: nat) {
    u in m && sbeg < u && forall k :: k in m && sbeg < k ==> u <= k
  }

  // No span of val ends at sbeg unless writing begins with it.
  ghost predicate Absorbs<T>(m: SpanMap<T>, sbeg: nat, at: nat, val: T) {
    at == sbeg ==> forall k :: k in m && m[k].end == sbeg ==> m[k].val != val
  }

  lemma FillGap<T>(m: SpanMap<T>, sbeg: nat, at: nat, end: nat, val: T, m': SpanMap<T>)
    requires Disjoint(m) && Ready(m, sbeg, at, val) && sbeg <= end
    requires forall k :: k in m && sbeg < k ==> end <= k
    requires m' == m[at := Span(end, val)]
    ensures Disjoint(m') && Overlays(m, sbeg, end, val, m')
    ensures (Canonical(m) && sbeg < end && Absorbs(m, sbeg, at, val) && (end in m ==> m[end].val != val))
            ==> Canonical(m')
  {
    PutLookup(m, {}, at, end, val, m');
    forall p: nat ensures Lookup(m', p) == Overlaid(m, sbeg, end, val, p) {
      if at <= p < sbeg {
        LookupHeld(m, at, p);
      } else if sbeg <= p < end {
        GapIsFree(m, sbeg, at, end, val, p);
      }
    }
    if Canonical(m) && sbeg < end && Absorbs(m, sbeg, at, val) && (end in m ==> m[end].val != val) {
      FillGapCanonical(m, sbeg, at, end, val, m');
    }
  }

  lemma GapIsFree<T>(m: SpanMap<T>, sbeg: nat, at: nat, end: nat, val: T, p: nat)
    requires Ready(m, sbeg, at, val) && sbeg <= p < end && forall k :: k in m && sbeg < k ==> end <= k
    ensures Lookup(m, p).None?
  {
  }

  lemma FillGapCanonical<T>(m: SpanMap<T>, sbeg: nat, at: nat, end: nat, val: T, m': SpanMap<T>)
    requires Disjoint(m) && Ready(m, sbeg, at, val) && sbeg < end && Disjoint(m')
    requires forall k :: k in m && sbeg < k ==> end <= k
    requires m' == m[at := Span(end, val)]
    requires Canonical(m) && Absorbs(m, sbeg, at, val) && (end in m ==> m[end].val != val)
    ensures Canonical(m')
  {
  }

  lemma JoinNext<T>(m: SpanMap<T>, sbeg: nat, at: nat, u: nat, val: T, m': SpanMap<T>)
    requires Disjoint(m) && Ready(m, sbeg, at, val) && Next(m, sbeg, u) && m[u].val == val
    requires m' == (m - {u})[at := Span(m[u].end, val)]
    ensures Disjoint(m') && forall end: nat :: u <= end <= m[u].end ==> Overlays(m, sbeg, end, val, m')
    ensures Canonical(m) && Absorbs(m, sbeg, at, val) ==> Canonical(m')
  {
    PutLookup(m, {u}, at, m[u].end, val, m');
    forall end: nat | u <= end <= m[u].end ensures Overlays(m, sbeg, end, val, m') {
      forall p: nat ensures Lookup(m', p) == Overlaid(m, sbeg, end, val, p) {
        JoinedAt(m, sbeg, at, u, val, p);
      }
    }
    if Canonical(m) && Absorbs(m, sbeg, at, val) {
      JoinNextCanonical(m, sbeg, at, u, val, m');
    }
  }

  lemma JoinedAt<T>(m: SpanMap<T>, sbeg: nat, at: nat, u: nat, val: T, p: nat)
    requires Disjoint(m) && Ready(m, sbeg, at, val) && Next(m, sbeg, u) && m[u].val == val
    ensures at <= p < sbeg || u <= p < m[u].end ==> Lookup(m, p) == Some(val)
    ensures sbeg <= p < u ==> Lookup(m, p).None?
  {
    if at <= p < sbeg {
      LookupHeld(m, at, p);
    }
    if u <= p < m[u].end {
      LookupHeld(m, u, p);
    }
    if sbeg <= p < u {
      GapIsFree(m, sbeg, at, u, val, p);
    }
  }

  lemma JoinNextCanonical<T>(m: SpanMap<T>, sbeg: nat, at: nat, u: nat, val: T, m': SpanMap<T>)
    requires Disjoint(m) && Ready(m, sbeg, at, val) && Next(m, sbeg, u) && m[u].val == val && Disjoint(m')
    requires m' == (m - {u})[at := Span(m[u].end, val)]
    requires Canonical(m) && Absorbs(m, sbeg, at, val)
    ensures Canonical(m')
  {
  }

  // Progress made up to `mid` composes with progress from there.
  lemma OverlayTrans<T>(m0: SpanMap<T>, beg: nat, mid: nat, end: nat, val: T, m: SpanMap<T>, m': SpanMap<T>)
    requires Overlays(m0, beg, mid, val, m) && Overlays(m, mid, end, val, m') && beg <= mid <= end
    ensures Overlays(m0, beg, end, val, m')
  {
  }

  // Spans already there need no writing.
  lemma OverlaySkip<T>(m0: SpanMap<T>, beg: nat, mid: nat, end: nat, val: T, m: SpanMap<T>, k: nat)
    requires Disjoint(m) && Overlays(m0, beg, mid, val, m) && beg <= mid
    requires k in m && k <= mid <= end <= m[k].end
    ensures Overlays(m0, beg, end, val, m)
  {
    forall p: nat | mid <= p < end ensures Lookup(m, p).Some? {
      LookupHeld(m, k, p);
    }
  }

  // The second half of an iteration: write from `at` up to, or through, the next span.
  method WriteToNext<T(==)>(sbeg: nat, at: nat, end: nat, val: T, m0: SpanMap<T>)
    returns (m: SpanMap<T>, next: nat)
    requires Disjoint(m0) && Ready(m0, sbeg, at, val) && sbeg <= end
    ensures Disjoint(m) && sbeg <= next <= end && (sbeg == next ==> next == end)
    ensures Overlays(m0, sbeg, next, val, m)
    ensures Canonical(m0) && sbeg < end && Absorbs(m0, sbeg, at, val) ==> Canonical(m)
    ensures 0 in m0 || sbeg == 0 ==> 0 in m
  {
    m := m0;
    var ub := Higher(m, at);
    if ub.Some? && ub.value <= end {
      var Span(uend, uval) := m[ub.value];
      next := if uend < end then uend else end;
      assert Next(m, sbeg, ub.value);
      if uval == val {
        m := m - {ub.value};
        m := m[at := Span(uend, val)];
        JoinNext(m0, sbeg, at, ub.value, val, m);
      } else {
        m := m[at := Span(ub.value, val)];
        FillGap(m0, sbeg, at, ub.value, val, m);
        OverlaySkip(m0, sbeg, ub.value, next, val, m, ub.value);
      }
    } else {
      m := m[at := Span(end, val)];
      next := end;
      FillGap(m0, sbeg, at, end, val, m);
    }
  }

  /** `insert_span` */
  method InsertSpan<T(==)>(beg: nat, end: nat, val: T, m0: SpanMap<T>) returns (m: SpanMap<T>)
    requires Disjoint(m0) && beg <= end
    ensures Disjoint(m)
    ensures Overlays(m0, beg, end, val, m)
    ensures Canonical(m0) && beg < end ==> Canonical(m)
    ensures 0 in m0 || beg == 0 ==> 0 in m
  {
    m := m0;
    var sbeg := beg;
    while true
      invariant beg <= sbeg <= end
      invariant sbeg == end ==> beg == end
      invariant Disjoint(m)
      invariant Overlays(m0, beg, sbeg, val, m)
      invariant Canonical(m0) && beg < end ==> Canonical(m)
      invariant 0 in m0 || (beg == 0 && sbeg > 0) ==> 0 in m
      decreases end - sbeg
    {
      var at := sbeg;
      var lb := Floor(m, sbeg);
      if lb.Some? {
        var Span(lend, lval) := m[lb.value];
        if sbeg < lend {
          OverlaySkip(m0, beg, sbeg, Min(lend, end), val, m, lb.value);
          if end <= lend {
            return;
          }
          sbeg := lend;
          continue;
        } else if sbeg == lend && val == lval {
          at := lb.value;
        }
      }
      ghost var before := m;
      var next;
      m, next := WriteToNext(sbeg, at, end, val, m);
      OverlayTrans(m0, beg, sbeg, next, val, before, m);
      if next == end {
        return;
      }
      sbeg := next;
    }
  }

  // ---- remove_span ----

  ghost predicate Removes(m0: SpanMap<()>, beg: nat, end: nat, m: SpanMap<()>) {
    forall p: nat :: Covered(m, p) <==> Covered(m0, p) && !(beg <= p < end)
  }

  // The unconditional half: nothing outside [beg, end) is lost and nothing is invented.
  ghost predicate Trims(m0: SpanMap<()>, beg: nat, end: nat, m: SpanMap<()>) {
    && (forall p: nat :: Covered(m, p) ==> Covered(m0, p))
    && (forall p: nat :: Covered(m0, p) && !(beg <= p < end) ==> Covered(m, p))
  }

  // Span k is not empty and begins where span j ends.
  ghost predicate Touch(m: SpanMap<()>, j: nat, k: nat) {
    j in m && k in m && j < k && m[j].end == k && k < m[k].end
  }

  // A span that a removal of [beg, end) walks past, because the search for the next span
  // excludes the point where the last one, found from below, ended.
  ghost predicate Skipped(m: SpanMap<()>, beg: nat, end: nat, k: nat) {
    && k < end
    && (|| (exists j: nat :: Touch(m, j, k) && j <= beg < k)
        || (exists i: nat, j: nat :: Touch(m, i, j) && Touch(m, j, k) && beg < i))
  }

  ghost predicate SkipFree(m: SpanMap<()>, beg: nat, end: nat) {
    forall k: nat :: !Skipped(m, beg, end, k)
  }

  ghost predicate SkipFreeTo(m: SpanMap<()>, beg: nat, end: nat, x: nat) {
    forall k: nat :: Skipped(m, beg, end, k) ==> x < k
  }

  // m' is m with [x, y) cut out of span k.
  ghost predicate IsCut(m: SpanMap<()>, k: nat, x: nat, y: nat, m': SpanMap<()>)
    requires k in m
  {
    var e := m[k].end;
    && (forall j :: j in m' <==> (j in m && j != k) || (j == k && k < x) || (j == y && y < e))
    && (forall j :: j in m && j != k ==> m'[j] == m[j])
    && (k < x && k != y ==> m'[k] == Span(x, ()))
    && (y < e ==> m'[y] == Span(e, ()))
  }

  lemma CutDisjoint(m: SpanMap<()>, k: nat, x: nat, y: nat, m': SpanMap<()>)
    requires Disjoint(m) && k in m && k <= x <= y <= m[k].end && IsCut(m, k, x, y, m')
    ensures Disjoint(m')
    ensures Apart(m) && x < y ==> Apart(m')
    ensures Nonempty(m) ==> Nonempty(m')
  {
  }

  lemma CutRemoves(m: SpanMap<()>, k: nat, x: nat, y: nat, m': SpanMap<()>)
    requires Disjoint(m) && k in m && k <= x <= y <= m[k].end && IsCut(m, k, x, y, m')
    ensures Removes(m, x, y, m')
  {
    forall p: nat ensures Covered(m', p) <==> Covered(m, p) && !(x <= p < y) {
      if Covered(m, p) && !(x <= p < y) {
        var j: nat :| Holds(m, j, p);
        assert Holds(m', if j == k && y <= p then y else j, p);
      }
      if Covered(m', p) {
        var j: nat :| Holds(m', j, p);
        assert Holds(m, if j == k || (j == y && y < m[k].end) then k else j, p);
      }
    }
  }

  // Nothing is walked past while crossing a span found from below ...
  lemma SkipFreeFloor(m: SpanMap<()>, beg: nat, end: nat, x: nat, k: nat)
    requires Disjoint(m) && SkipFreeTo(m, beg, end, x) && k in m && k <= x < m[k].end
    requires end <= m[k].end || !Covered(m, m[k].end)
    ensures SkipFreeTo(m, beg, end, m[k].end)
  {
    forall s: nat | Skipped(m, beg, end, s) ensures m[k].end < s {
      assert Holds(m, s, s);
    }
  }

  // ... nor while crossing the next span above an uncovered point.
  lemma SkipFreeNext(m: SpanMap<()>, beg: nat, end: nat, x: nat, u: nat)
    requires Disjoint(m) && SkipFreeTo(m, beg, end, x) && beg <= x && !Covered(m, x) && Next(m, x, u)
    ensures SkipFreeTo(m, beg, end, m[u].end)
  {
    // a span touching u from below would hold x
    forall i: nat ensures !Touch(m, i, u) {
      assert !Holds(m, i, x);
    }
    forall j: nat, s: nat | Touch(m, j, s) && x < s <= m[u].end ensures j == u && s == m[u].end {
    }
  }

  // [beg, x) has been dealt with; `missed` is a point of it that should have gone and did not.
  ghost predicate Swept(m0: SpanMap<()>, beg: nat, x: nat, m: SpanMap<()>, missed: Option<nat>) {
    && beg <= x && Disjoint(m) && Trims(m0, beg, x, m)
    && (missed.None? ==> Removes(m0, beg, x, m))
    && (missed.Some? ==> beg <= missed.value <= x && Covered(m, missed.value))
  }

  // Above x the map is as it was.
  ghost predicate Untouched(m0: SpanMap<()>, x: nat, m: SpanMap<()>) {
    && (forall k :: x < k ==> (k in m <==> k in m0))
    && (forall k :: x <= k && k in m ==> k in m0 && m[k] == m0[k])
  }

  // The walk has gone past a span exactly when `missed` is set.
  ghost predicate Judged(m0: SpanMap<()>, beg: nat, end: nat, x: nat, missed: Option<nat>) {
    && (missed.None? ==> SkipFreeTo(m0, beg, end, x))
    && (missed.Some? ==> missed.value < end && exists k: nat :: Skipped(m0, beg, end, k))
  }

  // How the walk can stand at x: at the very start, or at the end of a span `via` found from above.
  ghost predicate Standing(m0: SpanMap<()>, beg: nat, x: nat, m: SpanMap<()>, via: Option<nat>) {
    match via
    case None => m == m0 && x == beg
    case Some(u) =>
      && u in m0 && beg < u && m0[u].end == x
      && forall k :: k in m && k < x ==> m[k].end <= x
  }

  // One more cut, [x', y), beyond what was already swept.
  lemma SweepCut(m0: SpanMap<()>, beg: nat, x: nat, m: SpanMap<()>, k: nat, x': nat, y: nat, m': SpanMap<()>,
                 missed: Option<nat>)
    requires Swept(m0, beg, x, m, missed) && x <= x' <= y
    requires k in m && k <= x' <= y <= m[k].end && IsCut(m, k, x', y, m')
    requires missed.None? ==> forall p: nat :: x <= p < x' ==> !Covered(m, p)
    requires missed.Some? ==> missed.value < x'
    ensures Swept(m0, beg, y, m', missed)
    ensures (Apart(m) && x' < y ==> Apart(m')) && (Nonempty(m) ==> Nonempty(m'))
  {
    CutDisjoint(m, k, x', y, m');
    CutRemoves(m, k, x', y, m');
  }

  // Did the walk, having crossed span k found from below, go past the span that begins at its end?
  lemma JudgeFloor(m0: SpanMap<()>, beg: nat, end: nat, x: nat, m: SpanMap<()>, via: Option<nat>, k: nat)
    returns (missed: Option<nat>)
    requires Disjoint(m0) && Untouched(m0, x, m) && Standing(m0, beg, x, m, via) && SkipFreeTo(m0, beg, end, x)
    requires k in m && k <= x < m[k].end
    ensures k in m0 && m0[k] == m[k]
    ensures Judged(m0, beg, end, m[k].end, missed)
    ensures missed == if m[k].end < end && Covered(m0, m[k].end) then Some(m[k].end) else None
  {
    var lend := m[k].end;
    missed := None;
    if lend < end && Covered(m0, lend) {
      missed := Some(lend);
      var j: nat :| Holds(m0, j, lend);
      assert Touch(m0, k, lend);
      if via.Some? {
        assert Touch(m0, via.value, k);
      }
      assert Skipped(m0, beg, end, lend);
    } else {
      SkipFreeFloor(m0, beg, end, x, k);
    }
  }

  lemma AtRest(m0: SpanMap<()>, beg: nat, end: nat, x: nat, m: SpanMap<()>, missed: Option<nat>)
    requires Swept(m0, beg, x, m, missed) && Untouched(m0, x, m) && Judged(m0, beg, end, x, missed) && x <= end
    requires forall k :: k in m && x < k ==> end < k
    requires missed.None? ==> !Covered(m, x)
    ensures Trims(m0, beg, end, m) && (Removes(m0, beg, end, m) <==> SkipFree(m0, beg, end))
  {
    if missed.None? {
      forall p: nat | x <= p < end ensures !Covered(m, p) {
        if Covered(m, p) {
          var k: nat :| Holds(m, k, p);
          assert Holds(m, k, x);
        }
      }
    }
  }

  lemma CutUntouched(m0: SpanMap<()>, x: nat, m: SpanMap<()>, k: nat, x': nat, y: nat, m': SpanMap<()>)
    requires Disjoint(m) && Untouched(m0, x, m)
    requires k in m && x <= m[k].end && k <= x' <= y <= m[k].end && IsCut(m, k, x', y, m')
    ensures Untouched(m0, m[k].end, m')
    ensures x' == k ==> forall j :: j in m' && j < m[k].end ==> m'[j].end <= m[k].end
  {
  }

  // Everything the walk must remember between its steps.
  ghost predicate Walk(m0: SpanMap<()>, beg: nat, end: nat, x: nat, m: SpanMap<()>, missed: Option<nat>) {
    Swept(m0, beg, x, m, missed) && Untouched(m0, x, m) && Judged(m0, beg, end, x, missed)
  }

  lemma FloorStep(m0: SpanMap<()>, beg: nat, end: nat, x: nat, m: SpanMap<()>, missed: Option<nat>,
                  via: Option<nat>, k: nat, m': SpanMap<()>) returns (missed': Option<nat>)
    requires Disjoint(m0) && x <= end && Walk(m0, beg, end, x, m, missed) && Standing(m0, beg, x, m, via)
    requires missed.Some? ==> missed.value < x
    requires k in m && k <= x < m[k].end && IsCut(m, k, x, Min(m[k].end, end), m')
    ensures m[k].end < end ==> Walk(m0, beg, end, m[k].end, m', missed')
    ensures m[k].end < end && missed'.None? ==> !Covered(m', m[k].end)
    ensures end <= m[k].end ==> Trims(m0, beg, end, m') && (Removes(m0, beg, end, m') <==> SkipFree(m0, beg, end))
    ensures Disjoint(m') && (Apart(m) && beg < end ==> Apart(m')) && (Nonempty(m) ==> Nonempty(m'))
  {
    var y := Min(m[k].end, end);
    SweepCut(m0, beg, x, m, k, x, y, m', missed);
    CutUntouched(m0, x, m, k, x, y, m');
    missed' := missed;
    if missed.None? {
      missed' := JudgeFloor(m0, beg, end, x, m, via, k);
    }
  }

  lemma NextStep(m0: SpanMap<()>, beg: nat, end: nat, x: nat, m: SpanMap<()>, missed: Option<nat>, u: nat,
                 m': SpanMap<()>)
    requires Disjoint(m0) && Walk(m0, beg, end, x, m, missed) && (missed.None? ==> !Covered(m, x))
    requires Next(m, x, u) && u <= end && IsCut(m, u, u, Min(m[u].end, end), m')
    ensures m[u].end <= end ==> Walk(m0, beg, end, m[u].end, m', missed) && Standing(m0, beg, m[u].end, m', Some(u))
    ensures end < m[u].end ==> Trims(m0, beg, end, m') && (Removes(m0, beg, end, m') <==> SkipFree(m0, beg, end))
    ensures Disjoint(m') && (Apart(m) ==> Apart(m')) && (Nonempty(m) ==> Nonempty(m'))
  {
    var y := Min(m[u].end, end);
    if missed.None? {
      FreeBelow(m, x, u);
      SkipFreeNext(m0, beg, end, x, u);
    }
    SweepCut(m0, beg, x, m, u, u, y, m', missed);
    CutUntouched(m0, x, m, u, u, y, m');
    CutAtStart(m, u, y, m');
  }

  // Nothing is held between an uncovered point and the next span.
  lemma FreeBelow(m: SpanMap<()>, x: nat, u: nat)
    requires Disjoint(m) && !Covered(m, x) && Next(m, x, u)
    ensures forall p: nat :: x <= p < u ==> !Covered(m, p)
  {
    forall p: nat, k: nat | x <= p < u ensures !Holds(m, k, p) {
      assert !Holds(m, k, x);
    }
  }

  // Cutting from the start of a span keeps spans apart, even if nothing is cut.
  lemma CutAtStart(m: SpanMap<()>, u: nat, y: nat, m': SpanMap<()>)
    requires Disjoint(m) && u in m && u <= y <= m[u].end && IsCut(m, u, u, y, m')
    ensures Apart(m) ==> Apart(m')
  {
  }

  // The span holding x, which can only be the last one starting at or below it.
  method Holder(m: SpanMap<()>, x: nat) returns (r: Option<nat>)
    requires Disjoint(m)
    ensures r.Some? ==> Holds(m, r.value, x)
    ensures r.None? ==> !Covered(m, x)
  {
    r := Floor(m, x);
    if r.Some? && m[r.value].end <= x {
      r := None;
    }
  }

  // Take [x, end) out of span k: shorten or remove it, and put back what lies past end.
  method CutOut(k: nat, x: nat, end: nat, m0: SpanMap<()>) returns (m: SpanMap<()>)
    requires Disjoint(m0) && k in m0 && k <= x <= end && x <= m0[k].end
    ensures IsCut(m0, k, x, Min(m0[k].end, end), m)
  {
    m := m0;
    if k < x {
      m := m[k := Span(x, ())];
    } else {
      m := m - {k};
    }
    if end < m0[k].end {
      m := m[end := Span(m0[k].end, ())];
    }
  }

  // x lies inside a span, past its first point.
  ghost predicate Straddled(m: SpanMap<()>, x: nat) {
    exists k: nat :: k < x && Holds(m, k, x)
  }

  // m' is m with the span around x, if there is one, in two pieces.
  ghost predicate IsSplit(m: SpanMap<()>, x: nat, m': SpanMap<()>) {
    && (!Straddled(m, x) ==> m' == m)
    && (forall k: nat :: k < x && Holds(m, k, x) ==> m' == m[k := Span(x, ())][x := m[k]])
  }

  // Everything a removal promises.
  ghost predicate Removal(m0: SpanMap<()>, beg: nat, end: nat, m: SpanMap<()>) {
    && Disjoint(m) && Trims(m0, beg, end, m)
    && (Removes(m0, beg, end, m) <==> SkipFree(m0, beg, end))
    && (Nonempty(m0) ==> Nonempty(m))
    && (beg == end ==> IsSplit(m0, beg, m))
  }

  // Cutting nothing out of a span splits it.
  lemma EmptyCut(m: SpanMap<()>, k: nat, x: nat, m': SpanMap<()>)
    requires Disjoint(m) && Holds(m, k, x) && IsCut(m, k, x, x, m')
    ensures IsSplit(m, x, m')
  {
    assert forall j: nat :: Holds(m, j, x) ==> j == k;
    assert m[k] == Span(m[k].end, ()) by {
      match m[k].val { case () => }
    }
    if k < x {
      assert Straddled(m, x);
      assert m' == m[k := Span(x, ())][x := m[k]];
    } else {
      assert m' == m;
    }
  }

  /** From spans apart, a removal leaves spans apart unless it is empty and falls inside a span. */
  lemma ApartExactly(m0: SpanMap<()>, beg: nat, end: nat, m: SpanMap<()>)
    requires Disjoint(m0) && Apart(m0) && Removal(m0, beg, end, m) && (beg < end ==> Apart(m)) && beg <= end
    ensures Apart(m) <==> beg < end || !Straddled(m0, beg)
  {
    if beg == end && Straddled(m0, beg) {
      var k: nat :| k < beg && Holds(m0, k, beg);
      assert m[k].end == beg && beg in m && k in m;
    }
  }

  // What every stage of a removal hands on.
  ghost predicate Keeps(m0: SpanMap<()>, beg: nat, end: nat, m: SpanMap<()>) {
    && (Apart(m0) && beg < end ==> Apart(m)) && (Nonempty(m0) ==> Nonempty(m))
    && (beg > 0 && 0 in m0 ==> 0 in m)
  }

  // The first half of a turn: cut into the span that holds x.
  method SweepFloor(ghost m0: SpanMap<()>, ghost beg: nat, end: nat, x: nat, m: SpanMap<()>, ghost missed: Option<nat>,
                    ghost via: Option<nat>)
    returns (m': SpanMap<()>, y: nat, stop: bool, ghost missed': Option<nat>)
    requires Disjoint(m0) && x <= end && Walk(m0, beg, end, x, m, missed) && Standing(m0, beg, x, m, via)
    requires Keeps(m0, beg, end, m)
    requires (missed.Some? ==> missed.value < x) && (beg == end ==> m == m0)
    ensures Keeps(m0, beg, end, m')
    ensures stop ==> Removal(m0, beg, end, m')
    ensures !stop ==> x <= y <= end && Walk(m0, beg, end, y, m', missed') && (missed'.None? ==> !Covered(m', y))
    ensures !stop && beg == end ==> m' == m0 && !Straddled(m0, beg)
  {
    m', y, stop, missed' := m, x, false, missed;
    var lb := Holder(m, x);
    if lb.Some? {
      var k, lend := lb.value, m[lb.value].end;
      m' := CutOut(k, x, end, m);
      missed' := FloorStep(m0, beg, end, x, m, missed, via, k, m');
      if end <= lend {
        if beg == end {
          EmptyCut(m0, k, beg, m');
        }
        stop := true;
      } else {
        y := lend;
      }
    }
  }

  // The second half: cut into the next span above x, if it begins by end.
  method SweepNext(ghost m0: SpanMap<()>, ghost beg: nat, end: nat, x: nat, m: SpanMap<()>, ghost missed: Option<nat>)
    returns (m': SpanMap<()>, y: nat, stop: bool, ghost via: Option<nat>)
    requires Disjoint(m0) && x <= end && Walk(m0, beg, end, x, m, missed) && (missed.None? ==> !Covered(m, x))
    requires Keeps(m0, beg, end, m)
    requires beg == end ==> m == m0 && !Straddled(m0, beg)
    ensures Keeps(m0, beg, end, m')
    ensures stop ==> Removal(m0, beg, end, m')
    ensures !stop ==> x < y <= end && Walk(m0, beg, end, y, m', missed) && Standing(m0, beg, y, m', via)
    ensures !stop ==> (missed.Some? ==> missed.value < y) && (beg == end ==> m' == m0)
  {
    m', y, stop, via := m, x, true, None;
    var ub := Higher(m, x);
    if ub.Some? && ub.value <= end {
      var u, uend := ub.value, m[ub.value].end;
      m' := CutOut(u, u, end, m);
      NextStep(m0, beg, end, x, m, missed, u, m');
      if uend <= end {
        y, stop, via := uend, false, Some(u);
      }
    } else {
      AtRest(m0, beg, end, x, m, missed);
    }
  }

  /** `remove_span` */
  method RemoveSpan(beg: nat, end: nat, m0: SpanMap<()>) returns (m: SpanMap<()>)
    requires Disjoint(m0) && beg <= end
    ensures Removal(m0, beg, end, m)
    ensures Apart(m0) ==> (Apart(m) <==> beg < end || !Straddled(m0, beg))
    ensures beg > 0 && 0 in m0 ==> 0 in m
  {
    m := m0;
    var sbeg, stop := beg, false;
    ghost var missed: Option<nat>, via: Option<nat> := None, None;
    while !stop
      invariant stop ==> Removal(m0, beg, end, m)
      invariant !stop ==> sbeg <= end && Walk(m0, beg, end, sbeg, m, missed) && Standing(m0, beg, sbeg, m, via)
      invariant !stop ==> (missed.Some? ==> missed.value < sbeg) && (beg == end ==> m == m0)
      invariant Keeps(m0, beg, end, m)
      decreases !stop, end - sbeg
    {
      m, sbeg, stop, missed := SweepFloor(m0, beg, end, sbeg, m, missed, via);
      if !stop {
        m, sbeg, stop, via := SweepNext(m0, beg, end, sbeg, m, missed);
      }
    }
    if Apart(m0) {
      ApartExactly(m0, beg, end, m);
    }
  }

  lemma ApartSkipFree(m: SpanMap<()>, beg: nat, end: nat)
    requires Apart(m)
    ensures SkipFree(m, beg, end)
  {
  }

  /** Removing [3, 10) from the touching spans [0, 5) and [5, 10) leaves the second one behind. */
  lemma TouchingSpansAreSkipped()
    ensures var m: SpanMap<()> := map[0 := Span(5, ()), 5 := Span(10, ())];
            Disjoint(m) && Nonempty(m) && Skipped(m, 3, 10, 5)
  {
    var m: SpanMap<()> := map[0 := Span(5, ()), 5 := Span(10, ())];
    assert Touch(m, 0, 5);
  }

  /** An empty removal inside span k hides the part above x from any removal that begins below x in that span. */
  lemma EmptyRemovalHides(m0: SpanMap<()>, k: nat, x: nat, m1: SpanMap<()>, beg: nat, end: nat, m2: SpanMap<()>)
    requires Disjoint(m0) && k < x && Holds(m0, k, x) && Removal(m0, x, x, m1)
    requires k <= beg < x < end && Removal(m1, beg, end, m2)
    ensures m2 != map[] && exists p: nat :: beg <= p < end && Covered(m2, p)
  {
    assert Straddled(m0, x) && m1 == m0[k := Span(x, ())][x := m0[k]];
    assert Touch(m1, k, x);
    assert Skipped(m1, beg, end, x);
    var p: nat :| !(Covered(m2, p) <==> Covered(m1, p) && !(beg <= p < end));
    var h: nat :| Holds(m2, h, p);
  }

  // ---- Canonical maps are determined by what they say ----

  lemma CanonicalKeys<T>(m1: SpanMap<T>, m2: SpanMap<T>, k: nat)
    requires Canonical(m1) && Canonical(m2)
    requires forall p: nat :: Lookup(m1, p) == Lookup(m2, p)
    requires k in m1
    ensures k in m2
  {
    LookupHeld(m1, k, k);
    var j: nat :| Holds(m2, j, k);
    LookupHeld(m2, j, k);
    if j < k {
      // j's span also holds k - 1, so m1 has a span of the same value touching k
      LookupHeld(m2, j, k - 1);
      assert false;
    }
  }

  lemma CanonicalEnds<T>(m1: SpanMap<T>, m2: SpanMap<T>, k: nat)
    requires Canonical(m1) && Canonical(m2)
    requires forall p: nat :: Lookup(m1, p) == Lookup(m2, p)
    requires k in m1 && k in m2
    ensures m1[k].end <= m2[k].end && m1[k].val == m2[k].val
  {
    LookupHeld(m1, k, k);
    LookupHeld(m2, k, k);
    var e := m2[k].end;
    if e < m1[k].end {
      LookupHeld(m1, k, e);
      var j: nat :| Holds(m2, j, e);
      LookupHeld(m2, j, e);
      assert false;
    }
  }

  /** Two canonical maps with the same values at every point are the same map. */
  lemma CanonicalUnique<T>(m1: SpanMap<T>, m2: SpanMap<T>)
    requires Canonical(m1) && Canonical(m2)
    requires forall p: nat :: Lookup(m1, p) == Lookup(m2, p)
    ensures m1 == m2
  {
    forall k: nat ensures k in m1 <==> k in m2 {
      if k in m1 { CanonicalKeys(m1, m2, k); }
      if k in m2 { CanonicalKeys(m2, m1, k); }
    }
    forall k | k in m1 ensures m1[k] == m2[k] {
      CanonicalEnds(m1, m2, k);
      CanonicalEnds(m2, m1, k);
    }
  }
}
