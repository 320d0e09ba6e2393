/**
 `VmdkReader::read_at_offset` and the extent storages behind it.
 */
module VmdkRead {
  import opened Basics
  import opened Arith
  import opened VmdkImage
  import opened VmdkOpen
  import opened VmdkReader
  import B = VmdkBytes

  datatype ReadError =
    | OffsetBeyondEnd(offset: nat, size: nat)
    | OffsetNotFound(offset: nat)
    | IoError

  // A file cursor. An unhealthy source may fail any read; a short file fails the reads past its end.
  method ReadExact(file: File, pos: nat, n: nat, healthy: bool) returns (r: Option<seq<byte>>)
    ensures r.Some? ==> pos + n <= |file.bytes| && r.value == file.bytes[pos..pos + n]
    ensures healthy && pos + n <= |file.bytes| ==> r.Some?
  {
    var fails: bool := *;
    if |file.bytes| < pos + n || (fails && !healthy) {
      return None;
    }
    r := Some(file.bytes[pos..pos + n]);
  }

  // What an extent holds at byte o of the image.
  ghost function Held(p: Placed, o: nat): Option<byte> {
    if p.desc.backing.NoFile? then Some(0)
    else if Provides(p, o / SECTOR_SIZE) then Content(p, o)
    else None
  }

  ghost predicate Owns(p: Placed, beg: nat, end: nat) {
    p.desc.backing.NoFile? || forall o: nat :: beg <= o < end ==> Provides(p, o / SECTOR_SIZE)
  }

  /** `read_and_decompress_grain`: the headers checked one after another, then the whole grain. */
  method ReadCompressed(file: File, pos: nat, grainBytes: nat, healthy: bool) returns (r: Option<seq<byte>>)
    ensures r.Some? ==> Decompress(file, pos, grainBytes).Some? && |r.value| == grainBytes
    ensures r.Some? ==> var out := Decompress(file, pos, grainBytes).value;
                        out <= r.value && forall j :: |out| <= j < grainBytes ==> r.value[j] == 0
    ensures healthy && Decompress(file, pos, grainBytes).Some? ==> r.Some?
  {
    var lba := ReadExact(file, pos, 8, healthy);
    if lba.None? {
      return None;
    }
    var size := ReadExact(file, pos + 8, 4, healthy);
    if size.None? || Word32(size.value, 0) > 2 * grainBytes {
      return None;
    }
    var n := Word32(size.value, 0);
    var header := ReadExact(file, pos + 12, 2, healthy);
    if header.None? || !ZlibHeader(Word16BE(header.value, 0)) {
      return None;
    }
    var data := ReadExact(file, pos + 14, n, healthy);
    if data.None? {
      return None;
    }
    var out := file.inflate(data.value);
    if out.None? || |out.value| > grainBytes {
      return None;
    }
    r := Some(out.value + Zeroes(grainBytes - |out.value|));
  }

  /** One grain's worth of a `SparseStorage::read`. */
  method ReadGrain(b: Backing, file: File, sector: nat, off: nat, n: nat, healthy: bool) returns (r: Option<seq<byte>>)
    requires b.SparseFile? && b.file == file && off + n <= b.grainSize * SECTOR_SIZE
    ensures r.Some? ==> |r.value| == n && forall j :: 0 <= j < n ==> GrainByte(b, sector, off + j) == Some(r.value[j])
    ensures healthy && (forall j :: off <= j < off + n ==> GrainByte(b, sector, j).Some?) && n > 0 ==> r.Some?
  {
    if b.zeroedEntry && sector == 1 {
      r := Some(seq(n, _ => 0));
    } else if b.compressed {
      var grain := ReadCompressed(file, sector * SECTOR_SIZE, b.grainSize * SECTOR_SIZE, healthy);
      if grain.None? {
        assert healthy ==> GrainByte(b, sector, off).None?;
        return None;
      }
      r := Some(grain.value[off..off + n]);
    } else {
      r := ReadExact(file, sector * SECTOR_SIZE + off, n, healthy);
      assert n > 0 ==> (GrainByte(b, sector, off + n - 1).Some? <==> sector * SECTOR_SIZE + off + n <= |file.bytes|);
    }
  }

  // Every byte up to the end of the grain comes from the same table entry.
  lemma SameGrain(p: Placed, offset: nat, o: nat)
    requires p.desc.backing.SparseFile? && Provides(p, offset / SECTOR_SIZE) && Provides(p, o / SECTOR_SIZE)
    requires p.start * SECTOR_SIZE <= offset <= o
    requires var gb := p.desc.backing.grainSize * SECTOR_SIZE;
             gb > 0 && o - offset < gb - (offset - p.start * SECTOR_SIZE) % gb
    ensures var gb := p.desc.backing.grainSize * SECTOR_SIZE;
            var local := offset - p.start * SECTOR_SIZE;
            && local / gb in p.desc.backing.grains
            && Held(p, o) == GrainByte(p.desc.backing, p.desc.backing.grains[local / gb], local % gb + (o - offset))
  {
    var gb := p.desc.backing.grainSize * SECTOR_SIZE;
    GrainOf(p, offset);
    SameBlock(offset - p.start * SECTOR_SIZE, o - offset, gb);
  }

  // So the n bytes from offset on are the bytes from `off` on of the grain with this entry.
  lemma InOneGrain(p: Placed, offset: nat, n: nat, entry: nat, off: nat)
    requires p.desc.backing.SparseFile? && Owns(p, offset, offset + n) && p.start * SECTOR_SIZE <= offset
    requires var (gb, local) := (p.desc.backing.grainSize * SECTOR_SIZE, offset - p.start * SECTOR_SIZE);
             && gb > 0 && local / gb in p.desc.backing.grains && entry == p.desc.backing.grains[local / gb]
             && off == local % gb && n <= gb - off
    ensures forall o: nat :: offset <= o < offset + n ==>
              Held(p, o) == GrainByte(p.desc.backing, entry, off + (o - offset))
    ensures forall j: nat :: off <= j < off + n ==> GrainByte(p.desc.backing, entry, j) == Held(p, offset + (j - off))
  {
    forall o: nat | offset <= o < offset + n
      ensures Held(p, o) == GrainByte(p.desc.backing, entry, off + (o - offset))
    {
      SameGrain(p, offset, o);
    }
  }

  /** `SparseStorage::read`: at most up to the end of one grain. */
  method ReadSparse(p: Placed, file: File, offset: nat, want: nat, healthy: bool) returns (r: Option<seq<byte>>)
    requires p.desc.backing.SparseFile? && p.desc.backing.file == file && want > 0 && Owns(p, offset, offset + want)
    ensures r.Some? ==> 0 < |r.value| <= want
    ensures r.Some? ==> forall o: nat :: offset <= o < offset + |r.value| ==> Held(p, o) == Some(r.value[o - offset])
    ensures healthy && (forall o: nat :: offset <= o < offset + want ==> Held(p, o).Some?) ==> r.Some?
  {
    var b := p.desc.backing;
    assert Provides(p, offset / SECTOR_SIZE);
    GrainOf(p, offset);
    if b.grainSize == 0 {
      return None;
    }
    var gb := b.grainSize * SECTOR_SIZE;
    var local := offset - p.start * SECTOR_SIZE;
    var n := Min(gb - local % gb, want);
    if local / gb !in b.grains {
      return None;
    }
    InOneGrain(p, offset, n, b.grains[local / gb], local % gb);
    r := ReadGrain(b, file, b.grains[local / gb], local % gb, n, healthy);
  }

  /** `FlatStorage::read` */
  method ReadFlat(p: Placed, file: File, offset: nat, want: nat, healthy: bool) returns (r: Option<seq<byte>>)
    requires p.desc.backing.FlatFile? && p.desc.backing.file == file && want > 0 && Owns(p, offset, offset + want)
    ensures r.Some? ==> |r.value| == want
    ensures r.Some? ==> forall o: nat :: offset <= o < offset + |r.value| ==> Held(p, o) == Some(r.value[o - offset])
    ensures healthy && (forall o: nat :: offset <= o < offset + want ==> Held(p, o).Some?) ==> r.Some?
  {
    assert Provides(p, offset / SECTOR_SIZE);
    var pos := (offset - p.start * SECTOR_SIZE) + p.desc.backing.offset * SECTOR_SIZE;
    r := ReadExact(file, pos, want, healthy);
    assert forall o: nat :: offset <= o < offset + want ==>
        Provides(p, o / SECTOR_SIZE) && Held(p, o) ==
          if pos + (o - offset) < |file.bytes| then Some(file.bytes[pos + (o - offset)]) else None;
    assert Held(p, offset + want - 1).Some? <==> pos + want <= |file.bytes|;
  }

  /** `ExtentStorage::read`: fill a front part of buf[lo..hi]. */
  method ReadExtent(ex: Extent, slots: map<nat, File>, offset: nat, buf: array<byte>, lo: nat, hi: nat, healthy: bool)
    returns (r: Result<nat, ReadError>)
    requires lo < hi <= buf.Length && Backed(ex, slots) && Owns(ex.at, offset, offset + (hi - lo))
    modifies buf
    ensures r.Err? ==> r.error == IoError
    ensures r.Ok? ==> 0 < r.value <= hi - lo
    ensures r.Ok? ==> forall o: nat :: offset <= o < offset + r.value ==> Held(ex.at, o) == Some(buf[lo + (o - offset)])
    ensures forall j :: 0 <= j < lo || hi <= j < buf.Length ==> buf[j] == old(buf[j])
    ensures healthy && (forall o: nat :: offset <= o < offset + (hi - lo) ==> Held(ex.at, o).Some?) ==> r.Ok?
  {
    var data: Option<seq<byte>>;
    match ex.at.desc.backing {
      case SparseFile(_, _, _, _, _) =>
        data := ReadSparse(ex.at, slots[ex.src], offset, hi - lo, healthy);
      case FlatFile(_, _) =>
        data := ReadFlat(ex.at, slots[ex.src], offset, hi - lo, healthy);
      case NoFile =>
        data := Some(seq(hi - lo, _ => 0));
    }
    if data.None? {
      return Err(IoError);
    }
    var bytes := data.value;
    forall j | 0 <= j < |bytes| {
      buf[lo + j] := bytes[j];
    }
    r := Ok(|bytes|);
  }

  function FirstBytes(spans: seq<(nat, (nat, nat))>): (r: seq<nat>)
    ensures |r| == |spans| && forall i :: 0 <= i < |spans| ==> r[i] == spans[i].0
  {
    seq(|spans|, i requires 0 <= i < |spans| => spans[i].0)
  }

  // A span's extent owns, and holds the image's bytes for, every byte routed through it.
  lemma SpanOwns(rd: Reader, ps: seq<Placed>, i: nat, beg: nat, end: nat)
    requires Serves(rd, ps) && i < |rd.spans| && rd.spans[i].0 <= beg < end <= rd.spans[i].1.0
    ensures var e := rd.spans[i].1.1;
            && e < |rd.extents| && Backed(rd.extents[e], rd.slots) && Owns(rd.extents[e].at, beg, end)
            && forall o: nat :: beg <= o < end ==> Held(rd.extents[e].at, o) == ImageByte(ps, o)
  {
    var e := rd.spans[i].1.1;
    assert RoutesByte(rd, ps, i, beg);
    forall o: nat | beg <= o < end
      ensures Held(rd.extents[e].at, o) == ImageByte(ps, o)
      ensures rd.extents[e].at.desc.backing.NoFile? || Provides(rd.extents[e].at, o / SECTOR_SIZE)
    {
      assert RoutesByte(rd, ps, i, o);
    }
  }

  /** The span to start from. */
  method FindSpan(rd: Reader, offset: nat) returns (r: Option<nat>)
    requires Tiles(rd.spans, rd.imageSize)
    ensures r.Some? && r.value < |rd.spans| && rd.spans[r.value].0 <= offset
    ensures offset < rd.imageSize ==> offset < rd.spans[r.value].1.0
  {
    var found := BinarySearch(FirstBytes(rd.spans), offset);
    match found {
      case Ok(k) => r := Some(k);
      case Err(k) =>
        if k == 0 {
          return None;
        }
        r := Some(k - 1);
    }
    assert Tile(rd.spans, rd.imageSize, r.value);
  }

  /** `read_at_offset` returns the bytes of the overlay, clamped to the image. */
  method ReadAtOffset(rd: Reader, offset0: nat, buf: array<byte>, healthy: bool, ghost ps: seq<Placed>)
    returns (r: Result<nat, ReadError>)
    requires Serves(rd, ps)
    modifies buf
    ensures r.Ok? ==> offset0 <= rd.imageSize && r.value == Min(buf.Length, rd.imageSize - offset0)
    ensures r.Ok? ==> forall o: nat :: offset0 <= o < offset0 + r.value ==> ImageByte(ps, o) == Some(buf[o - offset0])
    ensures r.Ok? ==> B.ShowsAll(ps, offset0, buf[..r.value])
    ensures r.Ok? ==> forall j :: r.value <= j < buf.Length ==> buf[j] == old(buf[j])
    ensures offset0 > rd.imageSize <==> r == Err(OffsetBeyondEnd(offset0, rd.imageSize))
    ensures r.Err? && offset0 <= rd.imageSize ==> r.error == IoError
    ensures healthy && offset0 <= rd.imageSize
            && (forall o: nat :: offset0 <= o < offset0 + buf.Length && o < rd.imageSize ==> ImageByte(ps, o).Some?)
            ==> r.Ok?
  {
    if offset0 > rd.imageSize {
      return Err(OffsetBeyondEnd(offset0, rd.imageSize));
    }
    var len := if offset0 + buf.Length > rd.imageSize then rd.imageSize - offset0 else buf.Length;
    var end := offset0 + len;
    var found := FindSpan(rd, offset0);
    if found.None? {
      return Err(OffsetNotFound(offset0));
    }
    var i: nat := found.value;
    var offset := offset0;
    while offset < end
      invariant offset0 <= offset <= end
      invariant offset < end ==> i < |rd.spans| && rd.spans[i].0 <= offset < rd.spans[i].1.0
      invariant forall o: nat :: offset0 <= o < offset ==> ImageByte(ps, o) == Some(buf[o - offset0])
      invariant forall j :: len <= j < buf.Length ==> buf[j] == old(buf[j])
    {
      var (_, (spanEnd, e)) := rd.spans[i];
      var lo := offset - offset0;
      var hi := lo + Min(spanEnd - offset, len - lo);
      assert Tile(rd.spans, rd.imageSize, i);
      SpanOwns(rd, ps, i, offset, offset + (hi - lo));
      var n := ReadExtent(rd.extents[e], rd.slots, offset, buf, lo, hi, healthy);
      if n.Err? {
        return Err(n.error);
      }
      offset := offset + n.value;
      if offset >= spanEnd {
        i := i + 1;
        assert offset < end ==> i < |rd.spans| && Tile(rd.spans, rd.imageSize, i);
      }
    }
    B.BytesShown(ps, offset0, buf[..len]);
    r := Ok(len);
  }
}
