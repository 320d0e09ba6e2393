/**
 Split raw images (rawdisk/src/spans.rs, rawdisk/src/rawdisk_reader.rs): the
 image is the concatenation of its segments, read through the block cache.
 */
module RawSegments {
  import opened Basics
  import opened FoyerCache

  datatype SegmentMap = SegmentMap(starts: seq<nat>, lengths: seq<nat>, imageSize: nat)

  datatype Place = Place(idx: nat, within: nat, left: nat)

  // ---- The simple form: walk the segments from the first ----

  // The place of the byte that lies offset bytes past the beginning of segment i.
  function Scan(lengths: seq<nat>, i: nat, offset: nat): Option<Place>
    requires i <= |lengths|
    decreases |lengths| - i
  {
    if i == |lengths| then None
    else if offset < lengths[i] then Some(Place(i, offset, lengths[i] - offset))
    else Scan(lengths, i + 1, offset - lengths[i])
  }

  // Segments i, i + 1, ... one after another.
  ghost function Concat(segs: seq<seq<byte>>, i: nat): seq<byte>
    requires i <= |segs|
    decreases |segs| - i
  {
    if i == |segs| then [] else segs[i] + Concat(segs, i + 1)
  }

  ghost predicate LengthsOf(segs: seq<seq<byte>>, lengths: seq<nat>) {
    |lengths| == |segs| && forall i :: 0 <= i < |segs| ==> lengths[i] == |segs[i]|
  }

  lemma SliceBehind(a: seq<byte>, rest: seq<byte>, o: nat, n: nat)
    requires o + n <= |rest|
    ensures (a + rest)[|a| + o..|a| + o + n] == rest[o..o + n]
  {
  }

  // The first segment's own bytes.
  lemma SliceWithin(a: seq<byte>, rest: seq<byte>, o: nat)
    requires o <= |a|
    ensures (a + rest)[o..|a|] == a[o..]
  {
  }

  /** The scan finds the bytes of the concatenation, and none past its end. */
  lemma {:induction false} ScanIsConcat(segs: seq<seq<byte>>, lengths: seq<nat>, i: nat, offset: nat)
    requires LengthsOf(segs, lengths) && i <= |segs|
    ensures Scan(lengths, i, offset).Some? <==> offset < |Concat(segs, i)|
    ensures Scan(lengths, i, offset).Some? ==>
              var p := Scan(lengths, i, offset).value;
              && p.idx < |segs| && 0 < p.left && p.within + p.left == |segs[p.idx]|
              && offset + p.left <= |Concat(segs, i)|
              && Concat(segs, i)[offset..offset + p.left] == segs[p.idx][p.within..]
    decreases |segs| - i
  {
    if i < |segs| && offset < lengths[i] {
      SliceWithin(segs[i], Concat(segs, i + 1), offset);
    } else if i < |segs| {
      var rest, o := Concat(segs, i + 1), offset - lengths[i];
      ScanIsConcat(segs, lengths, i + 1, o);
      if o < |rest| {
        var n := Scan(lengths, i + 1, o).value.left;
        SliceBehind(segs[i], rest, o, n);
      }
    }
  }

  // ---- The segment map ----

  // Where segment i begins; with i past the last one, the size of the whole image.
  function StartOf(lengths: seq<nat>, i: nat): nat
    requires i <= |lengths|
  {
    if i == 0 then 0 else StartOf(lengths, i - 1) + lengths[i - 1]
  }

  lemma {:induction false} StartsAscend(lengths: seq<nat>, i: nat, j: nat)
    requires i <= j <= |lengths|
    ensures StartOf(lengths, i) <= StartOf(lengths, j)
    decreases j
  {
    if i < j {
      StartsAscend(lengths, i, j - 1);
    }
  }

  lemma {:induction false} StartIsLength(segs: seq<seq<byte>>, lengths: seq<nat>, i: nat)
    requires LengthsOf(segs, lengths) && i <= |segs|
    ensures StartOf(lengths, i) + |Concat(segs, i)| == |Concat(segs, 0)|
  {
    if i > 0 {
      StartIsLength(segs, lengths, i - 1);
    }
  }

  lemma ByteBehind(a: seq<byte>, rest: seq<byte>, o: nat)
    requires o < |rest|
    ensures (a + rest)[|a| + o] == rest[o]
  {
  }

  /** Byte j of segment i is the byte of the image that lies j behind the segments before it. */
  lemma {:induction false} SegmentsInOrder(segs: seq<seq<byte>>, lengths: seq<nat>, i: nat, j: nat)
    requires LengthsOf(segs, lengths) && i < |segs| && j < |segs[i]|
    ensures StartOf(lengths, 0) == 0 && StartOf(lengths, i + 1) == StartOf(lengths, i) + |segs[i]|
    ensures StartOf(lengths, i) + j < |Concat(segs, 0)| && Concat(segs, 0)[StartOf(lengths, i) + j] == segs[i][j]
  {
    SegmentBehind(segs, lengths, 0, i, j);
  }

  lemma {:induction false} SegmentBehind(segs: seq<seq<byte>>, lengths: seq<nat>, k: nat, i: nat, j: nat)
    requires LengthsOf(segs, lengths) && k <= i < |segs| && j < |segs[i]|
    ensures StartOf(lengths, k) <= StartOf(lengths, i)
    ensures var o := StartOf(lengths, i) - StartOf(lengths, k) + j;
            o < |Concat(segs, k)| && Concat(segs, k)[o] == segs[i][j]
    decreases i - k
  {
    if k < i {
      SegmentBehind(segs, lengths, k + 1, i, j);
      assert StartOf(lengths, k + 1) == StartOf(lengths, k) + |segs[k]|;
      ByteBehind(segs[k], Concat(segs, k + 1), StartOf(lengths, i) - StartOf(lengths, k + 1) + j);
    }
  }

  // Sums stop at the largest 64-bit value.
  ghost predicate IsMap(m: SegmentMap) {
    && |m.starts| == |m.lengths|
    && (forall i :: 0 <= i < |m.starts| ==> m.starts[i] == Min(StartOf(m.lengths, i), U64_MAX))
    && m.imageSize == Min(StartOf(m.lengths, |m.lengths|), U64_MAX)
  }

  // What open guarantees: an empty segment only if it is alone.
  predicate Solid(lengths: seq<nat>) {
    |lengths| < 2 || 0 !in lengths
  }

  /** `SegmentMap::new` */
  method NewMap(lengths: seq<nat>) returns (m: SegmentMap)
    ensures IsMap(m) && m.lengths == lengths
  {
    var starts: seq<nat>, acc: nat := [], 0;
    for k := 0 to |lengths|
      invariant |starts| == k && acc == Min(StartOf(lengths, k), U64_MAX)
      invariant forall i :: 0 <= i < k ==> starts[i] == Min(StartOf(lengths, i), U64_MAX)
    {
      starts := starts + [acc];
      acc := Min(acc + lengths[k], U64_MAX);
    }
    m := SegmentMap(starts, lengths, acc);
  }

  /** The loop of `open` that collects the lengths: an empty segment among others is refused. */
  method CollectLengths(ends: seq<nat>) returns (r: Option<SegmentMap>)
    ensures r.None? <==> |ends| > 1 && 0 in ends
    ensures r.Some? <==> Solid(ends)
    ensures r.Some? ==> IsMap(r.value) && r.value.lengths == ends
  {
    for k := 0 to |ends|
      invariant |ends| > 1 ==> 0 !in ends[..k]
    {
      if |ends| > 1 && ends[k] == 0 {
        return None;
      }
      PrefixSnoc(ends, k);
    }
    PrefixAll(ends);
    var m := NewMap(ends);
    r := Some(m);
  }

  // The segment whose bounds enclose the offset is the one the scan stops at.
  lemma {:induction false} ScanStopsAt(lengths: seq<nat>, i: nat, k: nat, offset: nat)
    requires i <= k < |lengths| && StartOf(lengths, k) <= offset < StartOf(lengths, k + 1)
    requires StartOf(lengths, i) <= offset
    ensures Scan(lengths, i, offset - StartOf(lengths, i)) ==
            Some(Place(k, offset - StartOf(lengths, k), StartOf(lengths, k + 1) - offset))
    decreases k - i
  {
    if i < k {
      StartsAscend(lengths, i + 1, k);
      ScanStopsAt(lengths, i + 1, k, offset);
    }
  }

  /**
   `SegmentMap::locate`: binary search agrees with the scan wherever it reports bytes.
   It can report none only where an empty segment stands among others.
   */
  method Locate(m: SegmentMap, offset: nat) returns (r: Option<Place>)
    requires IsMap(m)
    ensures r.None? <==> m.imageSize <= offset
    ensures r.Some? && r.value.left > 0 ==> r == Scan(m.lengths, 0, offset)
    ensures r.Some? && r.value.left == 0 ==> !Solid(m.lengths)
  {
    if offset >= m.imageSize {
      return None;
    }
    forall i, j | 0 <= i < j < |m.starts| ensures m.starts[i] <= m.starts[j] {
      StartsAscend(m.lengths, i, j);
    }
    var found := BinarySearch(m.starts, offset);
    var i: nat;
    match found {
      case Ok(at) => i := at;
      case Err(at) => i := at - 1;
    }
    var within := offset - m.starts[i];
    SegmentHolds(m, offset, i, found);
    r := Some(Place(i, within, m.lengths[i] - within));
    if r.value.left > 0 {
      ScanStopsAt(m.lengths, 0, i, offset);
    }
  }

  lemma SegmentHolds(m: SegmentMap, offset: nat, i: nat, found: Result<nat, nat>)
    requires IsMap(m) && offset < m.imageSize && i < |m.lengths|
    requires || (found == Ok(i) && m.starts[i] == offset)
             || (found == Err(i + 1) && m.starts[i] < offset && (i + 1 < |m.starts| ==> offset < m.starts[i + 1]))
    ensures StartOf(m.lengths, i) == m.starts[i] <= offset <= StartOf(m.lengths, i + 1)
    ensures offset == StartOf(m.lengths, i + 1) ==> !Solid(m.lengths)
  {
    if offset == StartOf(m.lengths, i + 1) {
      assert m.lengths[i] == 0;
      if |m.lengths| == 1 {
        assert false;
      }
    }
  }

  // ---- Reading ----

  datatype ReadError = OffsetBeyondEnd | IoError

  /** `take_bytes` */
  function TakeBytes(remaining: nat, left: nat): nat {
    Min(remaining, left)
  }

  class RawdiskReader {
    const segments: SegmentMap
    const cache: Cache
    ghost const segs: seq<seq<byte>>

    ghost predicate Ok()
      reads this, cache
    {
      && IsMap(segments) && LengthsOf(segs, segments.lengths) && cache.Ok()
      && forall i :: 0 <= i < |segs| ==> i in cache.c.sources && cache.c.sources[i] == segs[i]
    }

    constructor (segments: SegmentMap, cache: Cache, ghost segs: seq<seq<byte>>)
      requires IsMap(segments) && LengthsOf(segs, segments.lengths) && cache.Ok()
      requires forall i :: 0 <= i < |segs| ==> i in cache.c.sources && cache.c.sources[i] == segs[i]
      ensures Ok() && this.segments == segments && this.cache == cache && this.segs == segs
    {
      this.segments, this.cache, this.segs := segments, cache, segs;
    }

    // What an image of these segments holds.
    ghost function Image(): seq<byte> {
      Concat(segs, 0)
    }

    // One turn of the loop: what the segment at the offset can give.
    method ReadSlice(want: nat, remaining: nat) returns (r: Result<seq<byte>, ReadError>)
      requires Ok() && 0 < remaining && want + remaining <= segments.imageSize
      modifies cache`content, cache`meta, cache`fetched, cache`log
      ensures Ok()
      ensures r.Ok? ==> 0 < |r.value| <= remaining && want + |r.value| <= |Image()|
                        && r.value == Image()[want..want + |r.value|]
      ensures r.Err? ==> r.error == IoError && !(cache.healthy && Solid(segments.lengths))
    {
      var found := Locate(segments, want);
      if found.None? {
        return Err(OffsetBeyondEnd);
      }
      var Place(idx, within, left) := found.value;
      var take := TakeBytes(remaining, left);
      if take == 0 {
        return Err(IoError);
      }
      ScanIsConcat(segs, segments.lengths, 0, want);
      var part := new byte[take];
      var ok := cache.Read(idx, within, part);
      if !ok {
        return Err(IoError);
      }
      SliceOfSlice(Image(), want, left, segs[idx], within, take);
      r := Result.Ok(part[..]);
    }

    // The loop over the segments; false if some segment could not give its part.
    method ReadSlices(offset: nat, total: nat, buf: array<byte>) returns (ok: bool)
      requires Ok() && offset + total <= segments.imageSize && offset + total <= |Image()| && total <= buf.Length
      modifies cache`content, cache`meta, cache`fetched, cache`log, buf
      ensures Ok()
      ensures ok ==> FilledTo(Image(), offset, buf, total)
      ensures cache.healthy && Solid(segments.lengths) ==> ok
      ensures forall j :: total <= j < buf.Length ==> buf[j] == old(buf[j])
    {
      var done := 0;
      while done < total
        invariant done <= total && Ok() && FilledTo(Image(), offset, buf, done)
        invariant forall j :: total <= j < buf.Length ==> buf[j] == old(buf[j])
      {
        var got := ReadSlice(offset + done, total - done);
        if got.Err? {
          return false;
        }
        StoreNext(Image(), offset, buf, done, got.value);
        done := done + |got.value|;
      }
      ok := true;
    }

    /** `read_at_offset`: the slice of the concatenation, clamped to the end of the image. */
    method ReadAtOffset(offset: nat, buf: array<byte>) returns (r: Result<nat, ReadError>)
      requires Ok()
      modifies cache`content, cache`meta, cache`fetched, cache`log, buf
      ensures Ok()
      ensures r == Err(OffsetBeyondEnd) <==> offset > segments.imageSize
      ensures r.Ok? ==> r.value == Min(buf.Length, segments.imageSize - offset) && offset + r.value <= |Image()|
                        && buf[..r.value] == Image()[offset..offset + r.value]
      ensures cache.healthy && Solid(segments.lengths) && offset <= segments.imageSize ==> r.Ok?
      ensures forall j :: 0 <= j < buf.Length && segments.imageSize - offset <= j ==> buf[j] == old(buf[j])
    {
      if offset > segments.imageSize {
        return Err(OffsetBeyondEnd);
      }
      StartIsLength(segs, segments.lengths, |segs|);
      var total := if offset + buf.Length > segments.imageSize then segments.imageSize - offset else buf.Length;
      var ok := ReadSlices(offset, total, buf);
      r := if ok then Result.Ok(total) else Err(IoError);
    }
  }

  // The next part of the buffer.
  method StoreNext(ghost image: seq<byte>, ghost offset: nat, buf: array<byte>, done: nat, more: seq<byte>)
    requires FilledTo(image, offset, buf, done) && done + |more| <= buf.Length && offset + done + |more| <= |image|
    requires more == image[offset + done..offset + done + |more|]
    modifies buf
    ensures FilledTo(image, offset, buf, done + |more|)
    ensures forall j :: done + |more| <= j < buf.Length ==> buf[j] == old(buf[j])
  {
    forall j | done <= j < done + |more| {
      buf[j] := more[j - done];
    }
  }

  lemma SliceOfSlice(image: seq<byte>, want: nat, left: nat, seg: seq<byte>, within: nat, take: nat)
    requires want + left <= |image| && within + left == |seg| && image[want..want + left] == seg[within..]
    requires take <= left
    ensures image[want..want + take] == seg[within..within + take]
  {
    assert image[want..want + take] == image[want..want + left][..take];
    assert seg[within..within + take] == seg[within..][..take];
  }
}
