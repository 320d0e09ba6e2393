/**
 `VmdkReader::open_with_options`: the loop over the snapshot chain, the zero
 fill, and the byte-addressed span table they leave behind.
 */
module VmdkReader {
  import opened Basics
  import opened Spans
  import opened VmdkImage
  import opened VmdkOpen

  datatype OpenError =
    | ParentChainCycle(url: Url)
    | BadImage(url: Url)
    | ImageSizeOverflow(url: Url)
    | BadParentSize(url: Url, expected: nat, found: nat)

  // ---- The extents folded in so far ----

  // The uncovered map, one extent after another.
  ghost predicate Cleared(uncovered0: SpanMap<()>, ps: seq<Placed>, uncovered: SpanMap<()>) {
    if ps == [] then uncovered == uncovered0
    else exists before :: Cleared(uncovered0, Front(ps), before) && Clears(before, Last(ps), uncovered)
  }

  function WholeImage(size: nat): SpanMap<()> {
    map[0 := Span(size, ())]
  }

  ghost predicate History(ps: seq<Placed>, uncovered: SpanMap<()>, size: nat) {
    && Cleared(WholeImage(size), ps, uncovered)
    && (size > 0 ==> Nonempty(uncovered)) && (size == 0 ==> uncovered == WholeImage(size))
  }

  lemma HistoryMore(ps: seq<Placed>, p: Placed, before: SpanMap<()>, uncovered: SpanMap<()>, size: nat)
    requires History(ps, before, size) && Clears(before, p, uncovered) && (size == 0 ==> uncovered == before)
    ensures History(ps + [p], uncovered, size)
  {
    assert Front(ps + [p]) == ps;
  }

  // No extent yields an empty span.
  ghost predicate AllSolid(ps: seq<Placed>) {
    forall i :: 0 <= i < |ps| ==> Solid(ps[i])
  }

  // An extent that yields an empty span does so where that splits nothing without an owner: at an end of the image,
  // or next to a sector that an extent before it provides.
  ghost predicate Harmless(ps: seq<Placed>, p: Placed, size: nat) {
    var x := p.start;
    Solid(p) || x == 0 || size <= x || FirstProvider(ps, x - 1).Some? || FirstProvider(ps, x).Some?
  }

  ghost predicate AllHarmless(ps: seq<Placed>, size: nat) {
    forall i :: 0 <= i < |ps| ==> Harmless(ps[..i], ps[i], size)
  }

  lemma SolidIsHarmless(ps: seq<Placed>, size: nat)
    requires AllSolid(ps)
    ensures AllHarmless(ps, size)
  {
  }

  lemma {:induction false} HarmlessPrefix(a: seq<Placed>, b: seq<Placed>, size: nat)
    requires AllHarmless(a + b, size)
    ensures AllHarmless(a, size) && (b != [] ==> Harmless(a, b[0], size))
  {
    var s := a + b;
    forall i | 0 <= i < |a| ensures Harmless(a[..i], a[i], size) {
      assert s[..i] == a[..i] && s[i] == a[i] && Harmless(s[..i], s[i], size);
    }
    if b != [] {
      assert s[..|a|] == a && s[|a|] == b[0];
    }
  }

  // What the two maps keep as long as no extent does harm.
  ghost predicate WellKept(ps: seq<Placed>, spans: SpanMap<nat>, uncovered: SpanMap<()>, size: nat) {
    && (AllSolid(ps) ==> Canonical(spans))
    && (AllHarmless(ps, size) ==> Partition(spans, uncovered, size))
  }

  lemma {:induction false} KeptMore(ps: seq<Placed>, p: Placed, spans0: SpanMap<nat>, uncovered0: SpanMap<()>,
                                    spans: SpanMap<nat>, uncovered: SpanMap<()>, size: nat)
    requires WellKept(ps, spans0, uncovered0, size) && forall s: nat :: Lookup<nat>(spans0, s) == FirstProvider(ps, s)
    requires Canonical(spans0) && Solid(p) ==> Canonical(spans)
    requires Partition(spans0, uncovered0, size) && (Solid(p) || Quiet(spans0, p.start, size)) ==>
              Partition(spans, uncovered, size)
    ensures WellKept(ps + [p], spans, uncovered, size)
  {
    var ps' := ps + [p];
    if AllSolid(ps') {
      assert Solid(ps'[|ps|]);
      forall i | 0 <= i < |ps| ensures Solid(ps[i]) {
        assert ps'[i] == ps[i];
      }
    }
    if AllHarmless(ps', size) {
      HarmlessPrefix(ps, [p], size);
      assert Harmless(ps, p, size);
    }
  }

  ghost predicate Folded(ps: seq<Placed>, extents: seq<Extent>, spans: SpanMap<nat>, uncovered: SpanMap<()>,
                         size: nat, slots: map<nat, File>)
  {
    && Safe(spans, uncovered, size)
    && |extents| == |ps|
    && (forall i :: 0 <= i < |ps| ==> extents[i].at == ps[i] && Backed(extents[i], slots))
    && (forall s: nat :: Lookup<nat>(spans, s) == FirstProvider(ps, s))
    && History(ps, uncovered, size) && WellKept(ps, spans, uncovered, size)
  }

  // Every sector of the image has a provider.
  ghost predicate Owned(ps: seq<Placed>, size: nat) {
    forall s: nat :: s < size ==> FirstProvider(ps, s).Some?
  }

  /** Nothing is listed as uncovered exactly when every sector has a provider, as long as no extent does harm. */
  lemma UncoveredExactly(ps: seq<Placed>, extents: seq<Extent>, spans: SpanMap<nat>, uncovered: SpanMap<()>,
                         size: nat, slots: map<nat, File>)
    requires Folded(ps, extents, spans, uncovered, size, slots)
    ensures uncovered == map[] ==> size > 0 && Owned(ps, size)
    ensures AllHarmless(ps, size) && size > 0 && Owned(ps, size) ==> uncovered == map[]
  {
    assert size == 0 ==> 0 in uncovered;
    if uncovered == map[] {
      forall s: nat | s < size ensures FirstProvider(ps, s).Some? {
        assert !Covered(uncovered, s);
        assert FirstProvider(ps, s) == Lookup<nat>(spans, s);
      }
    }
    if Partition(spans, uncovered, size) && size > 0 && uncovered != map[] {
      var k :| k in uncovered;
      SomeUnowned(ps, spans, uncovered, size, k);
    }
  }

  // An uncovered span begins at a sector without a provider.
  lemma SomeUnowned(ps: seq<Placed>, spans: SpanMap<nat>, uncovered: SpanMap<()>, size: nat, k: nat)
    requires Partition(spans, uncovered, size) && Nonempty(uncovered) && k in uncovered
    requires forall s: nat :: Lookup<nat>(spans, s) == FirstProvider(ps, s)
    ensures !Owned(ps, size)
  {
    assert Holds(uncovered, k, k);
    assert Covered(uncovered, k) && k < size;
    assert FirstProvider(ps, k) == Lookup<nat>(spans, k);
  }

  lemma OwnedMore(ps: seq<Placed>, more: seq<Placed>, size: nat)
    requires Owned(ps, size)
    ensures Owned(ps + more, size)
  {
    forall s: nat | s < size ensures FirstProvider(ps + more, s).Some? {
      FirstProviderPrefix(ps, more, s);
    }
  }

  lemma FoldAt(ps: seq<Placed>, p: Placed, spans0: SpanMap<nat>, spans: SpanMap<nat>, s: nat)
    requires Lookup<nat>(spans0, s) == FirstProvider(ps, s) && Adds(spans0, p, |ps|, spans)
    ensures Lookup<nat>(spans, s) == FirstProvider(ps + [p], s)
  {
    FirstProviderPrefix(ps, [p], s);
  }

  lemma FoldOne(ps: seq<Placed>, p: Placed, spans0: SpanMap<nat>, spans: SpanMap<nat>)
    requires forall s: nat :: Lookup<nat>(spans0, s) == FirstProvider(ps, s)
    requires Adds(spans0, p, |ps|, spans)
    ensures forall s: nat :: Lookup<nat>(spans, s) == FirstProvider(ps + [p], s)
  {
    forall s: nat ensures Lookup<nat>(spans, s) == FirstProvider(ps + [p], s) {
      FoldAt(ps, p, spans0, spans, s);
    }
  }

  ghost function Ats(exts: seq<Extent>): (r: seq<Placed>)
    ensures |r| == |exts|
    ensures forall i :: 0 <= i < |exts| ==> r[i] == exts[i].at
  {
    seq(|exts|, i requires 0 <= i < |exts| => exts[i].at)
  }

  method FoldExtent(ex: Extent, extents0: seq<Extent>, spans0: SpanMap<nat>, uncovered0: SpanMap<()>,
                    ghost ps: seq<Placed>, ghost size: nat, ghost slots: map<nat, File>)
    returns (extents: seq<Extent>, spans: SpanMap<nat>, uncovered: SpanMap<()>)
    requires Folded(ps, extents0, spans0, uncovered0, size, slots)
    requires ex.at.start + ex.at.desc.sectors <= size && Backed(ex, slots)
    ensures extents == extents0 + [ex]
    ensures Folded(ps + [ex.at], extents, spans, uncovered, size, slots)
  {
    spans, uncovered := AddExtent(ex.at, |extents0|, spans0, uncovered0, size);
    extents := extents0 + [ex];
    FoldOne(ps, ex.at, spans0, spans);
    HistoryMore(ps, ex.at, uncovered0, uncovered, size);
    KeptMore(ps, ex.at, spans0, uncovered0, spans, uncovered, size);
    BackedMore(ps, extents0, ex, slots);
  }

  lemma {:induction false} BackedMore(ps: seq<Placed>, extents: seq<Extent>, ex: Extent, slots: map<nat, File>)
    requires |extents| == |ps| && Backed(ex, slots)
    requires forall i :: 0 <= i < |ps| ==> extents[i].at == ps[i] && Backed(extents[i], slots)
    ensures var (ps', extents') := (ps + [ex.at], extents + [ex]);
            |extents'| == |ps'| && forall i :: 0 <= i < |ps'| ==> extents'[i].at == ps'[i] && Backed(extents'[i], slots)
  {
  }

  lemma FileCountNext(exts: seq<Extent>, j: nat)
    requires j < |exts|
    ensures FileCount(exts[..j + 1]) == FileCount(exts[..j]) + if HasFile(exts[j].at.desc.backing) then 1 else 0
  {
    PrefixSnoc(exts, j);
    FileCountSnoc(exts[..j], exts[j]);
  }

  // The next of the image's extents.
  method FoldNext(exts: seq<Extent>, j: nat, extents0: seq<Extent>, spans0: SpanMap<nat>, uncovered0: SpanMap<()>,
                  idx0: nat, ghost before: seq<Extent>, ghost ps: seq<Placed>, ghost size: nat,
                  ghost slots: map<nat, File>)
    returns (extents: seq<Extent>, spans: SpanMap<nat>, uncovered: SpanMap<()>, idx: nat)
    requires j < |exts| && extents0 == before + exts[..j]
    requires Folded(ps + Ats(exts)[..j], extents0, spans0, uncovered0, size, slots)
    requires exts[j].at.start + exts[j].at.desc.sectors <= size && Backed(exts[j], slots)
    ensures extents == before + exts[..j + 1]
    ensures idx - FileCount(exts[..j + 1]) == idx0 - FileCount(exts[..j])
    ensures Folded(ps + Ats(exts)[..j + 1], extents, spans, uncovered, size, slots)
  {
    extents, spans, uncovered := FoldExtent(exts[j], extents0, spans0, uncovered0, ps + Ats(exts)[..j], size, slots);
    AppendSnoc(ps, Ats(exts), j);
    AppendSnoc(before, exts, j);
    idx := if HasFile(exts[j].at.desc.backing) then idx0 + 1 else idx0;
    FileCountNext(exts, j);
  }

  /** The extent loop: stops as soon as nothing is left uncovered. */
  method AddImage(exts: seq<Extent>, extents0: seq<Extent>, spans0: SpanMap<nat>, uncovered0: SpanMap<()>, idx0: nat,
                  ghost ps: seq<Placed>, ghost size: nat, ghost slots: map<nat, File>)
    returns (extents: seq<Extent>, spans: SpanMap<nat>, uncovered: SpanMap<()>, idx: nat, complete: bool, ghost k: nat)
    requires Folded(ps, extents0, spans0, uncovered0, size, slots)
    requires forall j :: 0 <= j < |exts| ==>
               exts[j].at.start + exts[j].at.desc.sectors <= size && Backed(exts[j], slots)
    ensures k <= |exts| && extents == extents0 + exts[..k]
    ensures Folded(ps + Ats(exts)[..k], extents, spans, uncovered, size, slots)
    ensures complete <==> k > 0 && uncovered == map[]
    ensures !complete ==> k == |exts| && idx == idx0 + FileCount(exts)
  {
    extents, spans, uncovered, idx, complete, k := extents0, spans0, uncovered0, idx0, false, 0;
    assert ps + Ats(exts)[..0] == ps;
    for j := 0 to |exts|
      invariant k == j && extents == extents0 + exts[..j] && (j > 0 ==> uncovered != map[])
      invariant idx == idx0 + FileCount(exts[..j])
      invariant Folded(ps + Ats(exts)[..j], extents, spans, uncovered, size, slots)
    {
      extents, spans, uncovered, idx := FoldNext(exts, j, extents, spans, uncovered, idx, extents0, ps, size, slots);
      k := j + 1;
      if uncovered == map[] {
        complete := true;
        return;
      }
    }
    PrefixAll(exts);
  }

  // ---- Zero fill ----

  // A sector's owner: its first provider, or one of the zero extents added at the end.
  ghost predicate Routes(ps: seq<Placed>, extents: seq<Extent>, spans: SpanMap<nat>, s: nat) {
    match Lookup<nat>(spans, s)
    case None => false
    case Some(i) =>
      && i < |extents|
      && match FirstProvider(ps, s)
         case Some(j) => i == j && extents[i].at == ps[j]
         case None => extents[i].at.desc.backing.NoFile?
  }

  // The sector lies in one of the first j spans of the table.
  ghost predicate Filled(t: seq<(nat, Span<()>)>, j: nat, s: nat)
    requires j <= |t|
  {
    exists i :: 0 <= i < j && t[i].0 <= s < t[i].1.end
  }

  lemma FilledAll(m: SpanMap<()>, t: seq<(nat, Span<()>)>, s: nat)
    requires IsTable(m, t)
    ensures Filled(t, |t|, s) <==> Covered(m, s)
  {
    if Filled(t, |t|, s) {
      var i :| 0 <= i < |t| && t[i].0 <= s < t[i].1.end;
      assert Holds(m, t[i].0, s);
    }
    if Covered(m, s) {
      var k: nat :| Holds(m, k, s);
      var i :| 0 <= i < |t| && t[i].0 == k;
    }
  }

  // After filling the first j uncovered spans with extents n, n + 1, ...
  ghost predicate ZeroFilled(spans0: SpanMap<nat>, t: seq<(nat, Span<()>)>, j: nat, n: nat, spans: SpanMap<nat>)
    requires j <= |t|
  {
    forall s: nat ::
      && (Lookup<nat>(spans0, s).Some? ==> Lookup<nat>(spans, s) == Lookup<nat>(spans0, s))
      && (Lookup<nat>(spans0, s).None? && Filled(t, j, s) ==>
            Lookup<nat>(spans, s).Some? && n <= Lookup<nat>(spans, s).value < n + j)
      && (Lookup<nat>(spans0, s).None? && !Filled(t, j, s) ==> Lookup<nat>(spans, s).None?)
  }

  lemma ZeroFillOne(spans0: SpanMap<nat>, t: seq<(nat, Span<()>)>, j: nat, n: nat, spans: SpanMap<nat>,
                    spans': SpanMap<nat>)
    requires j < |t| && ZeroFilled(spans0, t, j, n, spans)
    requires Overlays<nat>(spans, t[j].0, t[j].1.end, n + j, spans')
    ensures ZeroFilled(spans0, t, j + 1, n, spans')
  {
    forall s: nat ensures Filled(t, j + 1, s) <==> Filled(t, j, s) || t[j].0 <= s < t[j].1.end {
    }
  }

  lemma ZeroFillRoutes(ps: seq<Placed>, extents0: seq<Extent>, extents: seq<Extent>, spans0: SpanMap<nat>,
                       uncovered: SpanMap<()>, t: seq<(nat, Span<()>)>, size: nat, slots: map<nat, File>,
                       spans: SpanMap<nat>)
    requires Folded(ps, extents0, spans0, uncovered, size, slots) && IsTable(uncovered, t)
    requires ZeroFilled(spans0, t, |t|, |ps|, spans)
    requires |extents| == |ps| + |t| && extents[..|ps|] == extents0
    requires forall i :: |ps| <= i < |extents| ==> extents[i].at.desc.backing.NoFile?
    ensures forall s: nat :: Lookup<nat>(spans, s).Some? <==> s < size
    ensures forall s: nat :: s < size ==> Routes(ps, extents, spans, s)
  {
    forall s: nat ensures Lookup<nat>(spans, s).Some? <==> s < size {
      FilledAll(uncovered, t, s);
    }
    forall s: nat | s < size ensures Routes(ps, extents, spans, s) {
      FilledAll(uncovered, t, s);
      assert forall i :: 0 <= i < |ps| ==> extents[i] == extents[..|ps|][i];
    }
  }

  // The loop over the uncovered spans; n extents are there already.
  method FillTable(t: seq<(nat, Span<()>)>, extents0: seq<Extent>, spans0: SpanMap<nat>)
    returns (extents: seq<Extent>, spans: SpanMap<nat>)
    requires Disjoint(spans0) && (forall i :: 0 <= i < |t| ==> t[i].0 <= t[i].1.end)
    ensures Disjoint(spans) && ZeroFilled(spans0, t, |t|, |extents0|, spans)
    ensures 0 in spans0 || (exists i :: 0 <= i < |t| && t[i].0 == 0) ==> 0 in spans
    ensures |extents| == |extents0| + |t| && extents[..|extents0|] == extents0
    ensures forall i :: |extents0| <= i < |extents| ==> extents[i].at.desc.backing.NoFile?
  {
    extents, spans := extents0, spans0;
    for j := 0 to |t|
      invariant Disjoint(spans) && ZeroFilled(spans0, t, j, |extents0|, spans)
      invariant 0 in spans0 || (exists i :: 0 <= i < j && t[i].0 == 0) ==> 0 in spans
      invariant |extents| == |extents0| + j && extents[..|extents0|] == extents0
      invariant forall i :: |extents0| <= i < |extents| ==> extents[i].at.desc.backing.NoFile?
    {
      var (lb, sp) := t[j];
      ghost var before := spans;
      spans := InsertSpan<nat>(lb, sp.end, |extents|, spans);
      ZeroFillOne(spans0, t, j, |extents0|, before, spans);
      extents := extents + [Extent(Placed(lb, ExtentDesc(sp.end - lb, NoFile)), 0)];
    }
  }

  /** The uncovered spans become zero extents. */
  method ZeroFill(uncovered: SpanMap<()>, extents0: seq<Extent>, spans0: SpanMap<nat>,
                  ghost ps: seq<Placed>, ghost size: nat, ghost slots: map<nat, File>)
    returns (extents: seq<Extent>, spans: SpanMap<nat>)
    requires Folded(ps, extents0, spans0, uncovered, size, slots)
    ensures Disjoint(spans) && 0 in spans
    ensures forall s: nat :: Lookup<nat>(spans, s).Some? <==> s < size
    ensures forall s: nat :: s < size ==> Routes(ps, extents, spans, s)
    ensures forall i :: 0 <= i < |extents| ==> Backed(extents[i], slots)
  {
    var t := Entries(uncovered);
    extents, spans := FillTable(t, extents0, spans0);
    ZeroFillRoutes(ps, extents0, extents, spans0, uncovered, t, size, slots, spans);
    assert forall i :: 0 <= i < |ps| ==> extents[i] == extents[..|ps|][i];
  }

  // ---- The finished reader ----

  // `spans` holds (first byte, (end, extent)).
  datatype Reader = Reader(imageSize: nat, spans: seq<(nat, (nat, nat))>, extents: seq<Extent>, slots: map<nat, File>)

  // A span that starts inside the image ends where the next one starts, or with the image.
  // Past the image there is at most an empty span.
  ghost predicate Tile(t: seq<(nat, (nat, nat))>, size: nat, i: nat)
    requires i < |t|
  {
    var (beg, (end, _)) := t[i];
    if beg < size then
      beg < end <= size && (end < size ==> i + 1 < |t| && t[i + 1].0 == end)
    else
      end <= beg
  }

  // The table tiles [0, size) exactly.
  ghost predicate Tiles(t: seq<(nat, (nat, nat))>, size: nat) {
    && |t| > 0 && t[0].0 == 0
    && (forall i, j :: 0 <= i < j < |t| ==> t[i].0 < t[j].0)
    && (forall i :: 0 <= i < |t| ==> Tile(t, size, i))
  }

  // Span i hands byte o to the extent that owns it.
  ghost predicate RoutesByte(rd: Reader, ps: seq<Placed>, i: nat, o: nat)
    requires i < |rd.spans|
  {
    var e := rd.spans[i].1.1;
    && e < |rd.extents| && Backed(rd.extents[e], rd.slots)
    && match FirstProvider(ps, o / SECTOR_SIZE)
       case Some(j) => e == j && rd.extents[e].at == ps[j]
       case None => rd.extents[e].at.desc.backing.NoFile?
  }

  ghost predicate Serves(rd: Reader, ps: seq<Placed>) {
    && rd.imageSize % SECTOR_SIZE == 0
    && Tiles(rd.spans, rd.imageSize)
    && forall i, o: nat :: 0 <= i < |rd.spans| && rd.spans[i].0 <= o < rd.spans[i].1.0 ==> RoutesByte(rd, ps, i, o)
  }

  function InBytes(t: seq<(nat, Span<nat>)>): (r: seq<(nat, (nat, nat))>)
    ensures |r| == |t|
    ensures forall i :: 0 <= i < |t| ==>
              r[i] == (t[i].0 * SECTOR_SIZE, (t[i].1.end * SECTOR_SIZE, t[i].1.val))
  {
    seq(|t|, i requires 0 <= i < |t| => (t[i].0 * SECTOR_SIZE, (t[i].1.end * SECTOR_SIZE, t[i].1.val)))
  }

  // A span that starts inside the image ends where the next one starts; any other is empty.
  ghost predicate Abuts(t: seq<(nat, Span<nat>)>, size: nat, i: nat)
    requires i < |t|
  {
    var (k, sp) := t[i];
    if k < size then
      k < sp.end <= size && (sp.end < size ==> i + 1 < |t| && t[i + 1].0 == sp.end)
    else
      sp.end <= k
  }

  // In a total map every span that starts inside the image ends where the next one starts.
  lemma TotalMapTiles(m: SpanMap<nat>, t: seq<(nat, Span<nat>)>, size: nat, i: nat)
    requires Disjoint(m) && IsTable(m, t) && (forall s: nat :: Lookup<nat>(m, s).Some? <==> s < size)
    requires i < |t|
    ensures Abuts(t, size, i)
  {
    var k, e := t[i].0, t[i].1.end;
    if size <= k {
      if k < e {
        LookupHeld<nat>(m, k, k);
        assert false;
      }
      return;
    }
    assert Lookup<nat>(m, k).Some?;
    var h: nat :| Holds(m, h, k);
    assert h == k;
    assert e <= size by {
      LookupHeld<nat>(m, k, e - 1);
    }
    if e < size {
      assert Lookup<nat>(m, e).Some?;
      var n: nat :| Holds(m, n, e);
      assert n == e;
      var j :| 0 <= j < |t| && t[j].0 == n;
      assert i < j && t[i + 1].0 in m;
    }
  }

  lemma TableRoutes(ps: seq<Placed>, m: SpanMap<nat>, t: seq<(nat, Span<nat>)>, size: nat, rd: Reader, i: nat, o: nat)
    requires Disjoint(m) && IsTable(m, t)
    requires forall s: nat :: Lookup<nat>(m, s).Some? ==> s < size && Routes(ps, rd.extents, m, s)
    requires forall i :: 0 <= i < |rd.extents| ==> Backed(rd.extents[i], rd.slots)
    requires rd.spans == InBytes(t)
    requires i < |t| && rd.spans[i].0 <= o < rd.spans[i].1.0
    ensures RoutesByte(rd, ps, i, o)
  {
    var s := o / SECTOR_SIZE;
    assert Holds(m, t[i].0, s);
    LookupHeld<nat>(m, t[i].0, s);
    assert Routes(ps, rd.extents, m, s);
  }

  lemma ScaledTiles(t: seq<(nat, Span<nat>)>, size: nat)
    requires |t| > 0 && t[0].0 == 0
    requires forall i, j :: 0 <= i < j < |t| ==> t[i].0 < t[j].0
    requires forall i :: 0 <= i < |t| ==> Abuts(t, size, i)
    ensures Tiles(InBytes(t), size * SECTOR_SIZE)
  {
    var b := InBytes(t);
    forall i | 0 <= i < |b| ensures Tile(b, size * SECTOR_SIZE, i) {
      assert Abuts(t, size, i);
    }
  }

  lemma TableTiles(m: SpanMap<nat>, t: seq<(nat, Span<nat>)>, size: nat)
    requires Disjoint(m) && 0 in m && IsTable(m, t)
    requires forall s: nat :: Lookup<nat>(m, s).Some? <==> s < size
    ensures Tiles(InBytes(t), size * SECTOR_SIZE)
  {
    var z :| 0 <= z < |t| && t[z].0 == 0;
    assert t[0].0 <= t[z].0;
    forall i | 0 <= i < |t| ensures Abuts(t, size, i) {
      TotalMapTiles(m, t, size, i);
    }
    ScaledTiles(t, size);
  }

  lemma TableServes(ps: seq<Placed>, m: SpanMap<nat>, t: seq<(nat, Span<nat>)>, size: nat, rd: Reader)
    requires Disjoint(m) && 0 in m && IsTable(m, t)
    requires forall s: nat :: Lookup<nat>(m, s).Some? <==> s < size
    requires forall s: nat :: s < size ==> Routes(ps, rd.extents, m, s)
    requires forall i :: 0 <= i < |rd.extents| ==> Backed(rd.extents[i], rd.slots)
    requires rd.spans == InBytes(t) && rd.imageSize == size * SECTOR_SIZE
    ensures Serves(rd, ps)
  {
    TableTiles(m, t, size);
    forall i, o: nat | 0 <= i < |rd.spans| && rd.spans[i].0 <= o < rd.spans[i].1.0 ensures RoutesByte(rd, ps, i, o) {
      TableRoutes(ps, m, t, size, rd, i, o);
    }
  }

  // ---- The image loop ----

  // A chain that must open: every image readable, of one size that fits, ending without a cycle.
  ghost predicate Sound(world: map<Url, ImageDesc>, url: Url, visited: set<Url>, size: nat)
    decreases world.Keys - visited
  {
    && url in world && url !in visited
    && (forall j :: 0 <= j < |world[url].extents| ==> !world[url].extents[j].backing.Unreadable?)
    && Sectors(world[url].extents) == size && size * SECTOR_SIZE <= U64_MAX
    && match world[url].parent
       case None => true
       case Some(parent) => Sound(world, parent, visited + {url}, size)
  }

  // The image itself passes every check of the loop.
  ghost predicate Usable(world: map<Url, ImageDesc>, url: Url, visited: set<Url>, size: nat) {
    && url in world && url !in visited
    && (forall j :: 0 <= j < |world[url].extents| ==> !world[url].extents[j].backing.Unreadable?)
    && Sectors(world[url].extents) == size && size * SECTOR_SIZE <= U64_MAX
  }

  // The images from url on can be used until every sector has a provider or the chain ends; ps comes before them.
  // With `sure`, no extent up to that point does harm.
  ghost predicate Opens(world: map<Url, ImageDesc>, url: Url, visited: set<Url>, size: nat, ps: seq<Placed>, sure: bool)
    decreases world.Keys - visited
  {
    && Usable(world, url, visited, size)
    && var ps' := ps + Place(world[url].extents, 0);
       || (size > 0 && Owned(ps', size) && (sure ==> AllHarmless(ps', size)))
       || match world[url].parent
          case None => true
          case Some(parent) => Opens(world, parent, visited + {url}, size, ps', sure)
  }

  ghost function ImageSectors(world: map<Url, ImageDesc>, url: Url): nat {
    if url in world then Sectors(world[url].extents) else 0
  }

  /** A chain that is sound to its end opens. */
  lemma {:induction false} SoundOpens(world: map<Url, ImageDesc>, url: Url, visited: set<Url>, size: nat,
                                      ps: seq<Placed>, sure: bool)
    requires Sound(world, url, visited, size)
    ensures Opens(world, url, visited, size, ps, sure) && size == ImageSectors(world, url)
    decreases world.Keys - visited
  {
    match world[url].parent
    case None =>
    case Some(parent) => SoundOpens(world, parent, visited + {url}, size, ps + Place(world[url].extents, 0), sure);
  }

  /** Without extents that do harm there is no difference. */
  lemma {:induction false} HarmlessOpens(world: map<Url, ImageDesc>, url: Url, visited: set<Url>, size: nat,
        ps: seq<Placed>)
    requires AllHarmless(ps + Overlay(Chain(world, url, visited)), size) && Opens(world, url, visited, size, ps, false)
    ensures Opens(world, url, visited, size, ps, true)
    decreases world.Keys - visited
  {
    var head, rest := Place(world[url].extents, 0), Rest(world, url, visited);
    ChainStep(world, url, visited);
    Assoc(ps, head, rest);
    HarmlessPrefix(ps + head, rest, size);
    if !(size > 0 && Owned(ps + head, size)) && world[url].parent.Some? {
      HarmlessOpens(world, world[url].parent.value, visited + {url}, size, ps + head);
    }
  }

  // How the walk along the chain from url0 relates to what is left of it at url.
  ghost predicate Travelled(world: map<Url, ImageDesc>, url0: Url, url: Url, visited: set<Url>, ps: seq<Placed>,
                            size: nat) {
    && Overlay(Chain(world, url0, {})) == ps + Overlay(Chain(world, url, visited))
    && (Sound(world, url0, {}, size) <==> Sound(world, url, visited, size))
    && (Opens(world, url0, {}, size, [], true) ==> Opens(world, url, visited, size, ps, true))
    && (Opens(world, url, visited, size, ps, false) ==> Opens(world, url0, {}, size, [], false))
  }

  lemma TravelOn(world: map<Url, ImageDesc>, url0: Url, url: Url, visited: set<Url>, ps: seq<Placed>, size: nat,
                 parent: Url)
    requires Travelled(world, url0, url, visited, ps, size) && Usable(world, url, visited, size)
    requires world[url].parent == Some(parent)
    requires var ps' := ps + Place(world[url].extents, 0); !(size > 0 && Owned(ps', size) && AllHarmless(ps', size))
    ensures Travelled(world, url0, parent, visited + {url}, ps + Place(world[url].extents, 0), size)
  {
    ChainStep(world, url, visited);
    Assoc(ps, Place(world[url].extents, 0), Rest(world, url, visited));
  }

  // What the loop hands on: the extents of a prefix of the chain, enough to settle every sector.
  datatype Gathered = Gathered(
    size: nat, extents: seq<Extent>, spans: SpanMap<nat>, uncovered: SpanMap<()>, slots: map<nat, File>)

  // ps says of every sector below size what the longer chain says.
  ghost predicate Decides(ps: seq<Placed>, full: seq<Placed>, size: nat) {
    ps <= full && forall s: nat :: s < size ==> FirstProvider(ps, s) == FirstProvider(full, s)
  }

  lemma CompletePrefixDecides(ps: seq<Placed>, rest: seq<Placed>, spans: SpanMap<nat>, size: nat)
    requires Safe(spans, map[], size) && forall s: nat :: Lookup<nat>(spans, s) == FirstProvider(ps, s)
    ensures Decides(ps, ps + rest, size)
  {
    forall s: nat | s < size ensures FirstProvider(ps, s) == FirstProvider(ps + rest, s) {
      FirstProviderPrefix(ps, rest, s);
      if Lookup<nat>(spans, s).None? {
        assert false;
      }
    }
  }

  // Everything known between two images of the chain.
  ghost predicate Between(g: Gathered, ps: seq<Placed>, idx: nat) {
    && Folded(ps, g.extents, g.spans, g.uncovered, g.size, g.slots)
    && forall i :: 0 <= i < |g.extents| && HasFile(g.extents[i].at.desc.backing) ==> g.extents[i].src < idx
  }

  // The first k extents of the image are folded in: all of them, or as many as it took to leave nothing uncovered.
  ghost predicate Taken(img: ImageDesc, ps: seq<Placed>, g: Gathered, idx: nat, k: nat, complete: bool) {
    && k <= |img.extents|
    && var ps' := ps + Place(img.extents, 0)[..k];
       && Folded(ps', g.extents, g.spans, g.uncovered, g.size, g.slots)
       && (complete <==> k > 0 && g.uncovered == map[])
       && (!complete ==> k == |img.extents| && Between(g, ps', idx))
  }

  /** Read one image of the chain and fold it in. */
  method TakeImage(img: ImageDesc, idx0: nat, g0: Gathered, ghost ps: seq<Placed>)
    returns (r: Option<Gathered>, idx: nat, complete: bool, ghost k: nat)
    requires Between(g0, ps, idx0) && Sectors(img.extents) == g0.size
    ensures r.Some? <==> forall j :: 0 <= j < |img.extents| ==> !img.extents[j].backing.Unreadable?
    ensures r.Some? ==> r.value.size == g0.size && Taken(img, ps, r.value, idx, k, complete)
  {
    complete, k, idx := false, 0, idx0 + 1;
    var slots := g0.slots[idx0 := img.file];
    var exts;
    exts, slots := ReadExtents(img.extents, idx0 + 1, slots);
    if exts.None? {
      return None, idx, complete, k;
    }
    forall j | 0 <= j < |exts.value| ensures exts.value[j].at.start + exts.value[j].at.desc.sectors <= g0.size {
      PlaceSnoc(img.extents, 0, j);
      SectorsPrefix(img.extents, j + 1);
    }
    var extents, spans, uncovered;
    extents, spans, uncovered, idx, complete, k :=
      AddImage(exts.value, g0.extents, g0.spans, g0.uncovered, idx, ps, g0.size, slots);
    r := Some(Gathered(g0.size, extents, spans, uncovered, slots));
    ImageTaken(img, exts.value, ps, g0, r.value, idx0, idx, k, complete);
  }

  lemma {:induction false} ImageTaken(img: ImageDesc, exts: seq<Extent>, ps: seq<Placed>, g0: Gathered, g: Gathered,
                                      idx0: nat, idx: nat, k: nat, complete: bool)
    requires |exts| == |img.extents| && (forall j :: 0 <= j < |exts| ==> exts[j].at == Place(img.extents, 0)[j])
    requires forall j :: 0 <= j < |exts| && HasFile(exts[j].at.desc.backing) ==>
               exts[j].src < idx0 + 1 + FileCount(exts)
    requires forall i :: 0 <= i < |g0.extents| && HasFile(g0.extents[i].at.desc.backing) ==> g0.extents[i].src < idx0
    requires k <= |exts| && g.extents == g0.extents + exts[..k]
    requires Folded(ps + Ats(exts)[..k], g.extents, g.spans, g.uncovered, g.size, g.slots)
    requires complete <==> k > 0 && g.uncovered == map[]
    requires !complete ==> k == |exts| && idx == idx0 + 1 + FileCount(exts)
    ensures Taken(img, ps, g, idx, k, complete)
  {
    assert Ats(exts) == Place(img.extents, 0);
    SlotsBelow(g0.extents, exts[..k], idx0 + 1 + FileCount(exts));
  }

  lemma {:induction false} SlotsBelow(extents: seq<Extent>, more: seq<Extent>, bound: nat)
    requires forall i :: 0 <= i < |extents| && HasFile(extents[i].at.desc.backing) ==> extents[i].src < bound
    requires forall i :: 0 <= i < |more| && HasFile(more[i].at.desc.backing) ==> more[i].src < bound
    ensures var all := extents + more;
            forall i :: 0 <= i < |all| && HasFile(all[i].at.desc.backing) ==> all[i].src < bound
  {
  }

  ghost function Rest(world: map<Url, ImageDesc>, url: Url, visited: set<Url>): seq<Placed>
    requires url in world
  {
    match world[url].parent
    case None => []
    case Some(parent) => Overlay(Chain(world, parent, visited + {url}))
  }

  lemma ChainStep(world: map<Url, ImageDesc>, url: Url, visited: set<Url>)
    requires url in world && url !in visited
    ensures Overlay(Chain(world, url, visited)) == Place(world[url].extents, 0) + Rest(world, url, visited)
  {
    var tail := match world[url].parent case None => [] case Some(p) => Chain(world, p, visited + {url});
    assert Chain(world, url, visited) == [world[url]] + tail;
    assert ([world[url]] + tail)[1..] == tail;
  }

  lemma Reassociate(a: seq<Placed>, h: seq<Placed>, k: nat, rest: seq<Placed>)
    requires k <= |h|
    ensures a + (h + rest) == (a + h[..k]) + (h[k..] + rest)
  {
    assert h == h[..k] + h[k..];
  }

  lemma NothingFolded(size: nat)
    ensures var uncovered: SpanMap<()> := map[0 := Span(size, ())];
            && Folded([], [], map[], uncovered, size, map[])
            && Partition(map[], uncovered, size)
  {
    var uncovered: SpanMap<()> := map[0 := Span(size, ())];
    forall s: nat ensures Covered(uncovered, s) <==> s < size {
      if s < size { assert Holds(uncovered, 0, s); }
    }
  }

  // Everything the loop hands on.
  ghost predicate Gained(world: map<Url, ImageDesc>, url0: Url, g: Gathered, ps: seq<Placed>) {
    && url0 in world && g.size == Sectors(world[url0].extents)
    && Folded(ps, g.extents, g.spans, g.uncovered, g.size, g.slots)
    && Decides(ps, Overlay(Chain(world, url0, {})), g.size)
    && Opens(world, url0, {}, g.size, [], false)
    && (g.uncovered == map[] || Sound(world, url0, {}, g.size))
  }

  // The loop stops at this image because nothing is uncovered any more ...
  lemma DoneCovered(world: map<Url, ImageDesc>, url0: Url, url: Url, visited: set<Url>, ps: seq<Placed>, g: Gathered,
                    k: nat)
    requires Usable(world, url, visited, g.size) && Travelled(world, url0, url, visited, ps, g.size)
    requires k <= |world[url].extents|
    requires Folded(ps + Place(world[url].extents, 0)[..k], g.extents, g.spans, g.uncovered, g.size, g.slots)
    requires g.uncovered == map[]
    ensures Decides(ps + Place(world[url].extents, 0)[..k], Overlay(Chain(world, url0, {})), g.size)
    ensures Opens(world, url0, {}, g.size, [], false)
  {
    var head, rest := Place(world[url].extents, 0), Rest(world, url, visited);
    ChainStep(world, url, visited);
    Reassociate(ps, head, k, rest);
    CompletePrefixDecides(ps + head[..k], head[k..] + rest, g.spans, g.size);
    CoveredOwned(ps, head, k, g);
  }

  lemma CoveredOwned(ps: seq<Placed>, head: seq<Placed>, k: nat, g: Gathered)
    requires k <= |head| && Folded(ps + head[..k], g.extents, g.spans, g.uncovered, g.size, g.slots)
    requires g.uncovered == map[]
    ensures g.size > 0 && Owned(ps + head, g.size)
  {
    UncoveredExactly(ps + head[..k], g.extents, g.spans, g.uncovered, g.size, g.slots);
    OwnedMore(ps + head[..k], head[k..], g.size);
    assert ps + head[..k] + head[k..] == ps + head;
  }

  // ... or because it is the last of the chain.
  lemma DoneWhole(world: map<Url, ImageDesc>, url0: Url, url: Url, visited: set<Url>, ps: seq<Placed>, g: Gathered)
    requires Usable(world, url, visited, g.size) && Travelled(world, url0, url, visited, ps, g.size)
    requires world[url].parent.None?
    ensures Decides(ps + Place(world[url].extents, 0), Overlay(Chain(world, url0, {})), g.size)
    ensures Opens(world, url0, {}, g.size, [], false) && Sound(world, url0, {}, g.size)
  {
    var head := Place(world[url].extents, 0);
    ChainStep(world, url, visited);
    assert Rest(world, url, visited) == [] && head + [] == head;
  }

  // Images folded in whole without ending the loop do not own every sector, unless there are empty spans about.
  lemma NotYetOwned(img: ImageDesc, ps: seq<Placed>, g: Gathered, k: nat)
    requires k == |img.extents| && Sectors(img.extents) == g.size && (k > 0 ==> g.uncovered != map[])
    requires var ps' := ps + Place(img.extents, 0);
             && Folded(ps', g.extents, g.spans, g.uncovered, g.size, g.slots)
          ensures var ps' := ps + Place(img.extents, 0); !(g.size > 0 && Owned(ps', g.size) && AllHarmless(ps', g.size))
  {
    UncoveredExactly(ps + Place(img.extents, 0), g.extents, g.spans, g.uncovered, g.size, g.slots);
  }

  // The checks the loop makes before it takes an image.
  method CheckImage(world: map<Url, ImageDesc>, url: Url, visited: set<Url>, size0: Option<nat>)
    returns (r: Option<OpenError>)
    ensures r.None? ==> url in world && url !in visited && Sectors(world[url].extents) * SECTOR_SIZE <= U64_MAX
    ensures r.None? && size0.Some? ==> Sectors(world[url].extents) == size0.value
    ensures r.Some? ==> forall size: nat :: (size0.Some? ==> size == size0.value) ==> !Usable(world, url, visited, size)
  {
    if url in visited {
      return Some(ParentChainCycle(url));
    }
    if url !in world {
      return Some(BadImage(url));
    }
    var size := Sectors(world[url].extents);
    if size * SECTOR_SIZE > U64_MAX {
      return Some(ImageSizeOverflow(url));
    }
    if size0.Some? && size0.value != size {
      return Some(BadParentSize(url, size0.value * SECTOR_SIZE, size * SECTOR_SIZE));
    }
    r := None;
  }

  // Where the loop stands before it looks at url.
  ghost predicate OnTheWay(world: map<Url, ImageDesc>, url0: Url, url: Url, visited: set<Url>, g: Option<Gathered>,
                           idx: nat, ps: seq<Placed>) {
    && visited <= world.Keys && Travelled(world, url0, url, visited, ps, ImageSectors(world, url0))
    && (g.None? ==> ps == [] && url == url0 && visited == {})
    && (g.Some? ==> url0 in world && g.value.size == ImageSectors(world, url0) && Between(g.value, ps, idx))
  }

  lemma TakenCovered(world: map<Url, ImageDesc>, url0: Url, url: Url, visited: set<Url>, ps: seq<Placed>, g: Gathered,
                     idx: nat, k: nat)
    requires Usable(world, url, visited, g.size) && Travelled(world, url0, url, visited, ps, g.size)
    requires url0 in world && g.size == ImageSectors(world, url0) && Taken(world[url], ps, g, idx, k, true)
    ensures Gained(world, url0, g, ps + Place(world[url].extents, 0)[..k])
  {
    DoneCovered(world, url0, url, visited, ps, g, k);
  }

  lemma TakenWhole(world: map<Url, ImageDesc>, url0: Url, url: Url, visited: set<Url>, ps: seq<Placed>, g: Gathered,
                   idx: nat, k: nat)
    requires Usable(world, url, visited, g.size) && Travelled(world, url0, url, visited, ps, g.size)
    requires world[url].parent.None?
    requires url0 in world && g.size == ImageSectors(world, url0) && Taken(world[url], ps, g, idx, k, false)
    ensures Gained(world, url0, g, ps + Place(world[url].extents, 0)[..k])
  {
    assert Place(world[url].extents, 0)[..k] == Place(world[url].extents, 0);
    DoneWhole(world, url0, url, visited, ps, g);
  }

  lemma TakenOn(world: map<Url, ImageDesc>, url0: Url, url: Url, visited: set<Url>, ps: seq<Placed>, g: Gathered,
                idx: nat, k: nat, parent: Url)
    requires Usable(world, url, visited, g.size) && Travelled(world, url0, url, visited, ps, g.size)
    requires world[url].parent == Some(parent)
    requires url0 in world && g.size == ImageSectors(world, url0) && Taken(world[url], ps, g, idx, k, false)
    requires visited <= world.Keys
    ensures OnTheWay(world, url0, parent, visited + {url}, Some(g), idx, ps + Place(world[url].extents, 0)[..k])
  {
    assert Place(world[url].extents, 0)[..k] == Place(world[url].extents, 0);
    NotYetOwned(world[url], ps, g, k);
    TravelOn(world, url0, url, visited, ps, g.size, parent);
  }

  // One image of the chain: the result if the loop ends here, or what has been gathered so far.
  method Visit(world: map<Url, ImageDesc>, ghost url0: Url, url: Url, visited: set<Url>, g0: Option<Gathered>,
               idx0: nat, ghost ps0: seq<Placed>)
    returns (r: Option<Result<Gathered, OpenError>>, g: Option<Gathered>, idx: nat, ghost ps: seq<Placed>)
    requires OnTheWay(world, url0, url, visited, g0, idx0, ps0)
    ensures r.None? ==> url in world && url !in visited && world[url].parent.Some? && g.Some?
    ensures r.None? ==> OnTheWay(world, url0, world[url].parent.value, visited + {url}, g, idx, ps)
    ensures r.Some? && r.value.Ok? ==> Gained(world, url0, r.value.value, ps)
    ensures r.Some? && r.value.Err? ==> !Opens(world, url0, {}, ImageSectors(world, url0), [], true)
  {
    g, idx, ps := g0, idx0, ps0;
    var problem := CheckImage(world, url, visited, if g0.Some? then Some(g0.value.size) else None);
    if problem.Some? {
      return Some(Err(problem.value)), g, idx, ps;
    }
    var img := world[url];
    var size := Sectors(img.extents);
    var start := if g0.Some? then g0.value else Gathered(size, [], map[], map[0 := Span(size, ())], map[]);
    NothingFolded(size);
    var complete;
    ghost var k;
    g, idx, complete, k := TakeImage(img, idx0, start, ps0);
    if g.None? {
      return Some(Err(BadImage(url))), g, idx, ps;
    }
    ps := ps0 + Place(img.extents, 0)[..k];
    if complete {
      TakenCovered(world, url0, url, visited, ps0, g.value, idx, k);
      r := Some(Ok(g.value));
    } else if img.parent.None? {
      TakenWhole(world, url0, url, visited, ps0, g.value, idx, k);
      r := Some(Ok(g.value));
    } else {
      TakenOn(world, url0, url, visited, ps0, g.value, idx, k, img.parent.value);
      r := None;
    }
  }

  /** The loop over the chain of images. */
  method Gather(world: map<Url, ImageDesc>, url0: Url) returns (r: Result<Gathered, OpenError>, ghost ps: seq<Placed>)
    ensures r.Ok? ==> Gained(world, url0, r.value, ps)
    ensures Opens(world, url0, {}, ImageSectors(world, url0), [], true) ==> r.Ok?
  {
    var url, visited, idx := url0, {}, 0;
    var g: Option<Gathered> := None;
    ps := [];
    NilLeft(Overlay(Chain(world, url0, {})));
    while true
      invariant OnTheWay(world, url0, url, visited, g, idx, ps)
      decreases world.Keys - visited
    {
      var end;
      end, g, idx, ps := Visit(world, url0, url, visited, g, idx, ps);
      if end.Some? {
        return end.value, ps;
      }
      url, visited := world[url].parent.value, visited + {url};
    }
  }

  // Zero fill and the byte-addressed table.
  method Finish(g: Gathered, ghost ps: seq<Placed>, ghost full: seq<Placed>) returns (rd: Reader)
    requires Folded(ps, g.extents, g.spans, g.uncovered, g.size, g.slots) && Decides(ps, full, g.size)
    ensures Serves(rd, full) && rd.imageSize == g.size * SECTOR_SIZE
  {
    var extents, spans := ZeroFill(g.uncovered, g.extents, g.spans, ps, g.size, g.slots);
    var t := Entries<nat>(spans);
    rd := Reader(g.size * SECTOR_SIZE, InBytes(t), extents, g.slots);
    TableServes(ps, spans, t, g.size, rd);
    DecidesServes(rd, ps, full, g.size);
  }

  // Some extents from the front of the chain leave nothing uncovered.
  ghost predicate FrontClears(full: seq<Placed>, size: nat) {
    exists n: nat :: n <= |full| && Cleared(WholeImage(size), full[..n], map[])
  }

  /**
   `open_with_options`, from the chain of images to the reader. It succeeds if the whole chain is usable, or some front
   part of it is, provides every sector and has no extent that does harm; and only then if no extent does.
   */
  method Open(world: map<Url, ImageDesc>, url0: Url) returns (r: Result<Reader, OpenError>)
    ensures r.Ok? ==> Serves(r.value, Overlay(Chain(world, url0, {})))
    ensures r.Ok? ==> url0 in world && r.value.imageSize == Sectors(world[url0].extents) * SECTOR_SIZE
    ensures Opens(world, url0, {}, ImageSectors(world, url0), [], true) ==> r.Ok?
    ensures r.Ok? ==> Opens(world, url0, {}, ImageSectors(world, url0), [], false)
    ensures AllHarmless(Overlay(Chain(world, url0, {})), ImageSectors(world, url0)) ==>
              (r.Ok? <==> Opens(world, url0, {}, ImageSectors(world, url0), [], false))
    ensures r.Ok? ==> || Sound(world, url0, {}, ImageSectors(world, url0))
                      || FrontClears(Overlay(Chain(world, url0, {})), ImageSectors(world, url0))
  {
    ghost var full, size := Overlay(Chain(world, url0, {})), ImageSectors(world, url0);
    var g;
    ghost var ps;
    g, ps := Gather(world, url0);
    if AllHarmless(full, size) && Opens(world, url0, {}, size, [], false) {
      NilLeft(full);
      HarmlessOpens(world, url0, {}, size, []);
    }
    if g.Err? {
      return Err(g.error);
    }
    assert full[..|ps|] == ps;
    var rd := Finish(g.value, ps, full);
    r := Ok(rd);
  }

  lemma DecidesServes(rd: Reader, ps: seq<Placed>, full: seq<Placed>, size: nat)
    requires Serves(rd, ps) && Decides(ps, full, size) && rd.imageSize == size * SECTOR_SIZE
    ensures Serves(rd, full)
  {
    forall i, o: nat | 0 <= i < |rd.spans| && rd.spans[i].0 <= o < rd.spans[i].1.0 ensures RoutesByte(rd, full, i, o) {
      assert RoutesByte(rd, ps, i, o) && Tile(rd.spans, rd.imageSize, i) && o / SECTOR_SIZE < size;
    }
  }
}
