/**
 Building the span table of an image chain: `Extent::spans`, `read_extents` and
 the image loop of `VmdkReader::open_with_options`.
 */
module VmdkOpen {
  import opened Basics
  import opened Arith
  import opened Spans
  import opened VmdkImage

  // ---- Extent::spans ----

  ghost predicate InSome(spans: seq<(nat, nat)>, s: nat) {
    exists i :: 0 <= i < |spans| && spans[i].0 <= s < spans[i].1
  }

  // Whether the extent yields no empty span.
  predicate Solid(p: Placed) {
    if p.desc.backing.SparseFile? then p.desc.backing.grainSize > 0 else p.desc.sectors > 0
  }

  // The spans of an extent are either all non-empty, or all empty and at its start.
  predicate Shaped(span: (nat, nat), solid: bool, x: nat) {
    if solid then span.0 < span.1 else span == (x, x)
  }

  lemma GrainSpan(p: Placed, g: nat, s: nat)
    requires p.desc.backing.SparseFile? && p.desc.backing.grainSize > 0
    ensures var gs := p.desc.backing.grainSize;
            var beg := p.start + g * gs;
            beg <= s < beg + gs && s < p.start + p.desc.sectors
            <==> p.start <= s < p.start + p.desc.sectors && (s - p.start) / gs == g
  {
    if p.start <= s {
      Bucket(s - p.start, p.desc.backing.grainSize, g);
    }
  }

  // What the first grains handed out by the table account for.
  ghost predicate Yields(p: Placed, seen: set<nat>, spans: seq<(nat, nat)>)
    requires p.desc.backing.SparseFile?
  {
    var gs, end := p.desc.backing.grainSize, p.start + p.desc.sectors;
    && (forall i :: 0 <= i < |spans| ==>
          p.start <= spans[i].0 <= spans[i].1 <= end && Shaped(spans[i], gs > 0, p.start))
    && (gs > 0 ==> forall s: nat :: InSome(spans, s) <==> FromGrain(p, seen, s))
  }

  // The sector lies in one of these grains.
  ghost predicate FromGrain(p: Placed, seen: set<nat>, s: nat)
    requires p.desc.backing.SparseFile? && p.desc.backing.grainSize > 0
  {
    p.start <= s < p.start + p.desc.sectors && (s - p.start) / p.desc.backing.grainSize in seen
  }

  lemma InSomeSnoc(spans: seq<(nat, nat)>, span: (nat, nat), s: nat)
    ensures InSome(spans + [span], s) <==> InSome(spans, s) || span.0 <= s < span.1
  {
    var spans' := spans + [span];
    assert spans'[|spans|] == span;
    if InSome(spans, s) {
      var i :| 0 <= i < |spans| && spans[i].0 <= s < spans[i].1;
      assert spans'[i] == spans[i];
    }
  }

  lemma FromOneMore(p: Placed, seen: set<nat>, g: nat, beg: nat, s: nat)
    requires p.desc.backing.SparseFile? && p.desc.backing.grainSize > 0 && beg == p.start + g * p.desc.backing.grainSize
    ensures FromGrain(p, seen + {g}, s) <==>
            FromGrain(p, seen, s) || (beg <= s < beg + p.desc.backing.grainSize && s < p.start + p.desc.sectors)
  {
    GrainSpan(p, g, s);
  }

  lemma {:induction false} YieldsMore(p: Placed, seen: set<nat>, spans: seq<(nat, nat)>, g: nat, beg: nat,
                                      spans': seq<(nat, nat)>)
    requires p.desc.backing.SparseFile? && Yields(p, seen, spans) && beg == p.start + g * p.desc.backing.grainSize
    requires var gs, end := p.desc.backing.grainSize, p.start + p.desc.sectors;
             spans' == if beg < end then spans + [(beg, Min(beg + gs, end))] else spans
    ensures Yields(p, seen + {g}, spans')
  {
    var gs, end := p.desc.backing.grainSize, p.start + p.desc.sectors;
    assert gs == 0 ==> beg == p.start;
    var span := (beg, Min(beg + gs, end));
    if beg < end {
      assert p.start <= span.0 <= span.1 <= end && Shaped(span, gs > 0, p.start);
    }
    if gs > 0 {
      forall s: nat ensures InSome(spans', s) <==> FromGrain(p, seen + {g}, s) {
        FromOneMore(p, seen, g, beg, s);
        InSomeSnoc(spans, span, s);
      }
    }
  }

  // The hash map of grains is walked in no particular order.
  method GrainSpans(p: Placed) returns (spans: seq<(nat, nat)>)
    requires p.desc.backing.SparseFile?
    ensures Yields(p, p.desc.backing.grains.Keys, spans)
    ensures p.desc.backing.grains == map[] ==> spans == []
  {
    var extentEnd, grainSize := p.start + p.desc.sectors, p.desc.backing.grainSize;
    spans := [];
    var todo := p.desc.backing.grains.Keys;
    ghost var seen: set<nat> := {};
    while todo != {}
      invariant seen + todo == p.desc.backing.grains.Keys && Yields(p, seen, spans)
      invariant seen == {} ==> spans == []
      decreases todo
    {
      var g :| g in todo;
      ghost var before := spans;
      var beg := p.start + g * grainSize;
      if beg < extentEnd {
        spans := spans + [(beg, Min(beg + grainSize, extentEnd))];
      }
      YieldsMore(p, seen, before, g, beg, spans);
      todo, seen := todo - {g}, seen + {g};
    }
  }

  /** `Extent::spans` */
  method SpansOf(p: Placed) returns (spans: seq<(nat, nat)>)
    ensures forall i :: 0 <= i < |spans| ==> p.start <= spans[i].0 <= spans[i].1 <= p.start + p.desc.sectors
    ensures forall s: nat :: InSome(spans, s) <==> Provides(p, s)
    ensures forall i :: 0 <= i < |spans| ==> Shaped(spans[i], Solid(p), p.start)
    ensures if !p.desc.backing.SparseFile? then spans == [(p.start, p.start + p.desc.sectors)]
            else p.desc.backing.grains == map[] ==> spans == []
  {
    if p.desc.backing.SparseFile? {
      spans := GrainSpans(p);
    } else {
      spans := [(p.start, p.start + p.desc.sectors)];
      assert forall s: nat :: InSome(spans, s) <==> spans[0].0 <= s < spans[0].1;
    }
  }

  // ---- Covered and uncovered sectors kept in step ----

  // Every sector of the image that has no owner yet is still listed as uncovered.
  ghost predicate Safe(spans: SpanMap<nat>, uncovered: SpanMap<()>, size: nat) {
    && Disjoint(spans) && Disjoint(uncovered) && (0 in spans || 0 in uncovered)
    && (forall s: nat :: Covered(uncovered, s) || Lookup<nat>(spans, s).Some? ==> s < size)
    && (forall s: nat :: s < size && Lookup<nat>(spans, s).None? ==> Covered(uncovered, s))
  }

  // The two maps partition the image, and the uncovered spans do not touch.
  ghost predicate Partition(spans: SpanMap<nat>, uncovered: SpanMap<()>, size: nat) {
    && Safe(spans, uncovered, size) && Apart(uncovered)
    && (forall s: nat :: Covered(uncovered, s) ==> Lookup<nat>(spans, s).None?)
  }

  // An empty span at x splits nothing that is uncovered: there is no sector below or at x, or one of them has an owner.
  ghost predicate Quiet(spans: SpanMap<nat>, x: nat, size: nat) {
    x == 0 || size <= x || Lookup<nat>(spans, x - 1).Some? || Lookup<nat>(spans, x).Some?
  }

  lemma QuietMeans(spans: SpanMap<nat>, uncovered: SpanMap<()>, x: nat, size: nat)
    requires Partition(spans, uncovered, size)
    ensures Quiet(spans, x, size) <==> !Straddled(uncovered, x)
  {
    if Straddled(uncovered, x) {
      var k: nat :| k < x && Holds(uncovered, k, x);
      assert Holds(uncovered, k, x - 1);
      assert Covered(uncovered, x) && Covered(uncovered, x - 1);
    }
    if !Quiet(spans, x, size) {
      assert Covered(uncovered, x - 1) && Covered(uncovered, x);
      var j: nat :| Holds(uncovered, j, x - 1);
      var k: nat :| Holds(uncovered, k, x);
      assert j == k;
    }
  }

  // What taking one span does to both maps.
  ghost predicate Took(span: (nat, nat), i: nat, spans0: SpanMap<nat>, uncovered0: SpanMap<()>, size: nat,
                       spans: SpanMap<nat>, uncovered: SpanMap<()>)
  {
    && Safe(spans, uncovered, size) && Overlays<nat>(spans0, span.0, span.1, i, spans)
    && (Canonical(spans0) && span.0 < span.1 ==> Canonical(spans))
    && (Partition(spans0, uncovered0, size) && (span.0 < span.1 || Quiet(spans0, span.0, size)) ==>
          Partition(spans, uncovered, size))
    && Removal(uncovered0, span.0, span.1, uncovered)
  }

  method AddSpan(beg: nat, end: nat, i: nat, spans0: SpanMap<nat>, uncovered0: SpanMap<()>, ghost size: nat)
    returns (spans: SpanMap<nat>, uncovered: SpanMap<()>)
    requires Safe(spans0, uncovered0, size) && beg <= end <= size
    ensures Took((beg, end), i, spans0, uncovered0, size, spans, uncovered)
  {
    spans := InsertSpan<nat>(beg, end, i, spans0);
    uncovered := RemoveSpan(beg, end, uncovered0);
    if Partition(spans0, uncovered0, size) {
      ApartSkipFree(uncovered0, beg, end);
      QuietMeans(spans0, uncovered0, beg, size);
    }
  }

  // Adding an extent: sectors that already have an owner keep it, the others it provides become its own.
  ghost predicate Adds(spans0: SpanMap<nat>, p: Placed, i: nat, spans: SpanMap<nat>) {
    forall s: nat :: Lookup<nat>(spans, s) ==
      if Lookup<nat>(spans0, s).Some? then Lookup<nat>(spans0, s) else if Provides(p, s) then Some(i) else None
  }

  // What taking an extent does to the uncovered map, where that does not depend on the order of grains.
  ghost predicate Clears(uncovered0: SpanMap<()>, p: Placed, uncovered: SpanMap<()>) {
    && (Nonempty(uncovered0) ==> Nonempty(uncovered))
    && if p.desc.backing.SparseFile? then p.desc.backing.grains == map[] ==> uncovered == uncovered0
       else Removal(uncovered0, p.start, p.start + p.desc.sectors, uncovered)
  }

  // The same with the extent given by its spans.
  ghost predicate AddsSpans(spans0: SpanMap<nat>, todo: seq<(nat, nat)>, i: nat, spans: SpanMap<nat>) {
    forall s: nat :: Lookup<nat>(spans, s) ==
      if Lookup<nat>(spans0, s).Some? then Lookup<nat>(spans0, s) else if InSome(todo, s) then Some(i) else None
  }

  // Both maps, one span after another.
  ghost predicate Steps(todo: seq<(nat, nat)>, i: nat, spans0: SpanMap<nat>, uncovered0: SpanMap<()>, size: nat,
                        spans: SpanMap<nat>, uncovered: SpanMap<()>)
    decreases |todo|
  {
    if todo == [] then spans == spans0 && uncovered == uncovered0
    else exists spans1, uncovered1 ::
      && Steps(Front(todo), i, spans0, uncovered0, size, spans1, uncovered1)
      && Took(Last(todo), i, spans1, uncovered1, size, spans, uncovered)
  }

  lemma {:induction false} StepsMore(todo: seq<(nat, nat)>, span: (nat, nat), i: nat, spans0: SpanMap<nat>,
        uncovered0: SpanMap<()>, size: nat, spans1: SpanMap<nat>, uncovered1: SpanMap<()>, spans: SpanMap<nat>,
        uncovered: SpanMap<()>)
    requires Steps(todo, i, spans0, uncovered0, size, spans1, uncovered1)
    requires Took(span, i, spans1, uncovered1, size, spans, uncovered)
    ensures Steps(todo + [span], i, spans0, uncovered0, size, spans, uncovered)
  {
    assert Front(todo + [span]) == todo && Last(todo + [span]) == span;
  }

  method AddAll(todo: seq<(nat, nat)>, i: nat, spans0: SpanMap<nat>, uncovered0: SpanMap<()>, ghost size: nat)
    returns (spans: SpanMap<nat>, uncovered: SpanMap<()>)
    requires Safe(spans0, uncovered0, size) && forall j :: 0 <= j < |todo| ==> todo[j].0 <= todo[j].1 <= size
    ensures Safe(spans, uncovered, size) && Steps(todo, i, spans0, uncovered0, size, spans, uncovered)
  {
    spans, uncovered := spans0, uncovered0;
    for j := 0 to |todo|
      invariant Safe(spans, uncovered, size) && Steps(todo[..j], i, spans0, uncovered0, size, spans, uncovered)
    {
      ghost var spans1, uncovered1 := spans, uncovered;
      spans, uncovered := AddSpan(todo[j].0, todo[j].1, i, spans, uncovered, size);
      StepsMore(todo[..j], todo[j], i, spans0, uncovered0, size, spans1, uncovered1, spans, uncovered);
      PrefixSnoc(todo, j);
    }
    PrefixAll(todo);
  }

  // ---- What the steps come to ----

  lemma {:induction false} StepsAdd(todo: seq<(nat, nat)>, i: nat, spans0: SpanMap<nat>, uncovered0: SpanMap<()>,
        size: nat, spans: SpanMap<nat>, uncovered: SpanMap<()>)
    requires Steps(todo, i, spans0, uncovered0, size, spans, uncovered)
    ensures AddsSpans(spans0, todo, i, spans)
    decreases |todo|
  {
    if todo != [] {
      var spans1, uncovered1 :| Steps(Front(todo), i, spans0, uncovered0, size, spans1, uncovered1)
                                && Took(Last(todo), i, spans1, uncovered1, size, spans, uncovered);
      StepsAdd(Front(todo), i, spans0, uncovered0, size, spans1, uncovered1);
      assert todo == Front(todo) + [Last(todo)];
      forall s: nat ensures InSome(todo, s) <==> InSome(Front(todo), s) || Last(todo).0 <= s < Last(todo).1 {
        InSomeSnoc(Front(todo), Last(todo), s);
      }
    }
  }

  lemma {:induction false} StepsKeep(todo: seq<(nat, nat)>, i: nat, spans0: SpanMap<nat>, uncovered0: SpanMap<()>,
        size: nat, solid: bool, x: nat, spans: SpanMap<nat>, uncovered: SpanMap<()>)
    requires Steps(todo, i, spans0, uncovered0, size, spans, uncovered)
    requires forall j :: 0 <= j < |todo| ==> Shaped(todo[j], solid, x)
    ensures Canonical(spans0) && solid ==> Canonical(spans)
    ensures Partition(spans0, uncovered0, size) && (solid || Quiet(spans0, x, size)) ==>
              Partition(spans, uncovered, size)
    decreases |todo|
  {
    if todo != [] {
      var spans1, uncovered1 :| Steps(Front(todo), i, spans0, uncovered0, size, spans1, uncovered1)
                                && Took(Last(todo), i, spans1, uncovered1, size, spans, uncovered);
      StepsKeep(Front(todo), i, spans0, uncovered0, size, solid, x, spans1, uncovered1);
      StepsAdd(Front(todo), i, spans0, uncovered0, size, spans1, uncovered1);
      assert Shaped(Last(todo), solid, x);
      assert Quiet(spans0, x, size) ==> Quiet(spans1, x, size);
    }
  }

  lemma {:induction false} StepsUncover(todo: seq<(nat, nat)>, i: nat, spans0: SpanMap<nat>, uncovered0: SpanMap<()>,
        size: nat, spans: SpanMap<nat>, uncovered: SpanMap<()>)
    requires Steps(todo, i, spans0, uncovered0, size, spans, uncovered)
    requires forall j :: 0 <= j < |todo| ==> todo[j].0 <= todo[j].1 <= size
    ensures Nonempty(uncovered0) ==> Nonempty(uncovered)
    ensures todo == [] || size == 0 ==> uncovered == uncovered0
    ensures |todo| == 1 ==> Removal(uncovered0, todo[0].0, todo[0].1, uncovered)
    decreases |todo|
  {
    if todo != [] {
      var spans1, uncovered1 :| Steps(Front(todo), i, spans0, uncovered0, size, spans1, uncovered1)
                                && Took(Last(todo), i, spans1, uncovered1, size, spans, uncovered);
      StepsUncover(Front(todo), i, spans0, uncovered0, size, spans1, uncovered1);
      assert Last(todo).1 <= size;
    }
  }

  /** The body of the extent loop: both maps take one extent. */
  method AddExtent(p: Placed, i: nat, spans0: SpanMap<nat>, uncovered0: SpanMap<()>, ghost size: nat)
    returns (spans: SpanMap<nat>, uncovered: SpanMap<()>)
    requires Safe(spans0, uncovered0, size) && p.start + p.desc.sectors <= size
    ensures Safe(spans, uncovered, size)
    ensures Adds(spans0, p, i, spans)
    ensures Canonical(spans0) && Solid(p) ==> Canonical(spans)
    ensures Partition(spans0, uncovered0, size) && (Solid(p) || Quiet(spans0, p.start, size)) ==>
              Partition(spans, uncovered, size)
    ensures Clears(uncovered0, p, uncovered) && (size == 0 ==> uncovered == uncovered0)
  {
    var todo := SpansOf(p);
    spans, uncovered := AddAll(todo, i, spans0, uncovered0, size);
    ExtentAdds(p, i, spans0, uncovered0, todo, size, spans, uncovered);
    ExtentClears(p, i, spans0, uncovered0, todo, size, spans, uncovered);
    StepsKeep(todo, i, spans0, uncovered0, size, Solid(p), p.start, spans, uncovered);
  }

  lemma {:induction false} ExtentAdds(p: Placed, i: nat, spans0: SpanMap<nat>, uncovered0: SpanMap<()>,
        todo: seq<(nat, nat)>, size: nat, spans: SpanMap<nat>, uncovered: SpanMap<()>)
    requires Steps(todo, i, spans0, uncovered0, size, spans, uncovered)
    requires forall s: nat :: InSome(todo, s) <==> Provides(p, s)
    ensures Adds(spans0, p, i, spans)
  {
    StepsAdd(todo, i, spans0, uncovered0, size, spans, uncovered);
  }

  lemma {:induction false} ExtentClears(p: Placed, i: nat, spans0: SpanMap<nat>, uncovered0: SpanMap<()>,
        todo: seq<(nat, nat)>, size: nat, spans: SpanMap<nat>, uncovered: SpanMap<()>)
    requires Steps(todo, i, spans0, uncovered0, size, spans, uncovered)
    requires forall j :: 0 <= j < |todo| ==> todo[j].0 <= todo[j].1 <= size
    requires if !p.desc.backing.SparseFile? then todo == [(p.start, p.start + p.desc.sectors)]
             else p.desc.backing.grains == map[] ==> todo == []
    ensures Clears(uncovered0, p, uncovered) && (size == 0 ==> uncovered == uncovered0)
  {
    StepsUncover(todo, i, spans0, uncovered0, size, spans, uncovered);
  }

  /** Whatever order the grains came out in, the canonical table that results is the same. */
  lemma GrainOrderIrrelevant(spans0: SpanMap<nat>, p: Placed, i: nat, spans1: SpanMap<nat>, spans2: SpanMap<nat>)
    requires Adds(spans0, p, i, spans1) && Adds(spans0, p, i, spans2)
    requires Canonical(spans1) && Canonical(spans2)
    ensures spans1 == spans2
  {
    CanonicalUnique(spans1, spans2);
  }

  // ---- read_extents ----

  // An extent as the reader keeps it: `src` is the cache slot its file was registered under.
  datatype Extent = Extent(at: Placed, src: nat)

  predicate HasFile(b: Backing) {
    b.SparseFile? || b.FlatFile?
  }

  // The extent could be opened, and its slot still holds its file.
  ghost predicate Backed(ex: Extent, slots: map<nat, File>) {
    && !ex.at.desc.backing.Unreadable?
    && (HasFile(ex.at.desc.backing) ==> ex.src in slots && slots[ex.src] == ex.at.desc.backing.file)
  }

  // No two extents share a slot, and none takes one that was there before.
  ghost predicate OwnSlots(exts: seq<Extent>, idx0: nat) {
    && (forall j :: 0 <= j < |exts| && HasFile(exts[j].at.desc.backing) ==> idx0 <= exts[j].src)
    && (forall i, j :: 0 <= i < j < |exts| && HasFile(exts[i].at.desc.backing) && HasFile(exts[j].at.desc.backing) ==>
          exts[i].src < exts[j].src)
  }

  function FileCount(exts: seq<Extent>): nat {
    if exts == [] then 0 else (if HasFile(exts[0].at.desc.backing) then 1 else 0) + FileCount(exts[1..])
  }

  lemma FileCountSnoc(exts: seq<Extent>, ex: Extent)
    ensures FileCount(exts + [ex]) == FileCount(exts) + if HasFile(ex.at.desc.backing) then 1 else 0
  {
    if exts != [] {
      assert (exts + [ex])[1..] == exts[1..] + [ex];
    }
  }

  lemma PlaceSnoc(eds: seq<ExtentDesc>, start: nat, j: nat)
    requires j < |eds|
    ensures Place(eds, start)[j] == Placed(start + Sectors(eds[..j]), eds[j])
    ensures Sectors(eds[..j + 1]) == Sectors(eds[..j]) + eds[j].sectors
  {
    if j > 0 {
      PlaceSnoc(eds[1..], start + eds[0].sectors, j - 1);
      assert eds[..j][1..] == eds[1..][..j - 1];
      assert eds[..j + 1][1..] == eds[1..][..j];
    }
  }

  lemma SectorsPrefix(eds: seq<ExtentDesc>, j: nat)
    requires j <= |eds|
    ensures Sectors(eds[..j]) <= Sectors(eds)
  {
    if j > 0 {
      SectorsPrefix(eds[1..], j - 1);
      assert eds[..j][1..] == eds[1..][..j - 1];
    }
  }

  // The first extents, laid out and registered, with the next free slot.
  ghost predicate Registered(exts: seq<Extent>, eds: seq<ExtentDesc>, idx0: nat, idx: nat, slots0: map<nat, File>,
                             slots: map<nat, File>) {
    && |exts| <= |eds| && idx == idx0 + FileCount(exts) && OwnSlots(exts, idx0)
    && (forall i :: 0 <= i < |exts| ==> exts[i].at == Place(eds, 0)[i] && Backed(exts[i], slots))
    && (forall i :: 0 <= i < |exts| && HasFile(exts[i].at.desc.backing) ==> exts[i].src < idx)
    && (forall k :: k in slots0 && k < idx0 ==> k in slots && slots[k] == slots0[k])
  }

  lemma {:induction false} RegisterOne(exts: seq<Extent>, eds: seq<ExtentDesc>, idx0: nat, idx: nat, slots0: map<nat,
        File>, slots: map<nat, File>, ex: Extent, slots': map<nat, File>)
    requires Registered(exts, eds, idx0, idx, slots0, slots) && |exts| < |eds|
    requires ex == Extent(Place(eds, 0)[|exts|], idx) && !ex.at.desc.backing.Unreadable?
    requires slots' == if HasFile(ex.at.desc.backing) then slots[idx := ex.at.desc.backing.file] else slots
    ensures Registered(exts + [ex], eds, idx0, if HasFile(ex.at.desc.backing) then idx + 1 else idx, slots0, slots')
  {
    FileCountSnoc(exts, ex);
    OwnSlotsSnoc(exts, idx0, idx, ex);
    forall i | 0 <= i < |exts| ensures Backed(exts[i], slots') {
      assert Backed(exts[i], slots);
    }
    assert Backed(ex, slots');
    var exts' := exts + [ex];
    assert forall i :: 0 <= i < |exts'| ==> exts'[i] == if i < |exts| then exts[i] else ex;
  }

  lemma {:induction false} OwnSlotsSnoc(exts: seq<Extent>, idx0: nat, idx: nat, ex: Extent)
    requires OwnSlots(exts, idx0) && ex.src == idx >= idx0
    requires forall i :: 0 <= i < |exts| && HasFile(exts[i].at.desc.backing) ==> exts[i].src < idx
    ensures OwnSlots(exts + [ex], idx0)
  {
  }

  /** `read_extents`: lay the extents end to end and register a source for each one with a file. */
  method ReadExtents(eds: seq<ExtentDesc>, idx0: nat, slots0: map<nat, File>)
    returns (r: Option<seq<Extent>>, slots: map<nat, File>)
    ensures r.Some? <==> forall j :: 0 <= j < |eds| ==> !eds[j].backing.Unreadable?
    ensures r.Some? ==> |r.value| == |eds|
    ensures r.Some? ==> forall j :: 0 <= j < |eds| ==> r.value[j].at == Place(eds, 0)[j]
    ensures r.Some? ==> forall j :: 0 <= j < |eds| ==> Backed(r.value[j], slots)
    ensures r.Some? ==> forall j :: 0 <= j < |eds| && HasFile(r.value[j].at.desc.backing) ==>
                          r.value[j].src < idx0 + FileCount(r.value)
    ensures r.Some? ==> OwnSlots(r.value, idx0)
    ensures forall k :: k in slots0 && k < idx0 ==> k in slots && slots[k] == slots0[k]
  {
    var exts, start, idx := [], 0, idx0;
    slots := slots0;
    for j := 0 to |eds|
      invariant |exts| == j && start == Sectors(eds[..j]) && Registered(exts, eds, idx0, idx, slots0, slots)
      invariant forall i :: 0 <= i < j ==> !eds[i].backing.Unreadable?
    {
      PlaceSnoc(eds, 0, j);
      var ex := Extent(Placed(start, eds[j]), idx);
      if eds[j].backing.Unreadable? {
        return None, slots;
      }
      ghost var before := slots;
      ghost var at := idx;
      if HasFile(eds[j].backing) {
        slots := slots[idx := eds[j].backing.file];
        idx := idx + 1;
      }
      RegisterOne(exts, eds, idx0, at, slots0, before, ex, slots);
      exts := exts + [ex];
      start := start + eds[j].sectors;
    }
    r := Some(exts);
  }
}
