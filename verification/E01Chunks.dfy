/**
 Decoding one chunk of an E01 image: `ReadWorker` of e01/src/readworker.rs,
 with and without the cache of decoded chunks. Inflating and checksumming are
 parameters of the image.
 */
module E01Chunks {
  import opened Basics
  import opened ChunkCache

  datatype Policy = ErrorOut | ZeroOut | RawIfPossible

  datatype Chunk = Chunk(segment: nat, dataOffset: nat, endOffset: nat, compressed: bool)

  datatype Failure = BadChunkBounds | IoError | DecompressionFailed | TooShort | BadChecksum

  // segs holds the bytes of the segment files; inflate gives what a zlib stream expands to as far as it is sound.
  datatype Image = Image(
    chunkSize: nat, imageEnd: nat, policy: Policy, chunks: seq<Chunk>, segs: seq<seq<byte>>,
    inflate: seq<byte> -> seq<byte>, adler: seq<byte> -> nat)

  // Chunk i exists and holds at least one byte of the image.
  ghost predicate Live(g: Image, i: nat) {
    i < |g.chunks| && i * g.chunkSize < g.imageEnd
  }

  function DecodedLen(g: Image, i: nat): nat
    requires i * g.chunkSize <= g.imageEnd
  {
    Min(g.imageEnd - i * g.chunkSize, g.chunkSize)
  }

  /** `checked_chunk_len` */
  function ChunkLen(g: Image, c: Chunk): (r: Option<nat>)
    ensures r.Some? ==> r.value <= g.chunkSize + 4 && c.dataOffset + r.value == c.endOffset
    ensures r.None? ==> c.endOffset < c.dataOffset || c.dataOffset + g.chunkSize + 4 < c.endOffset
  {
    if c.dataOffset <= c.endOffset && c.endOffset - c.dataOffset <= g.chunkSize + 4
    then Some(c.endOffset - c.dataOffset) else None
  }

  function Raw(g: Image, c: Chunk): Option<seq<byte>> {
    if c.dataOffset <= c.endOffset && c.segment < |g.segs| && c.endOffset <= |g.segs[c.segment]|
    then Some(g.segs[c.segment][c.dataOffset..c.endOffset]) else None
  }

  function FromLE(bs: seq<byte>): nat {
    if bs == [] then 0 else bs[0] as nat + 256 * FromLE(bs[1..])
  }

  function Inflate(g: Image, i: nat, raw: seq<byte>): (r: Result<seq<byte>, Failure>)
    requires i * g.chunkSize <= g.imageEnd
    ensures r.Ok? ==> |r.value| == DecodedLen(g, i)
  {
    var n := DecodedLen(g, i);
    if n <= |g.inflate(raw)| then Ok(g.inflate(raw)[..n])
    else if g.policy.ErrorOut? then Err(DecompressionFailed)
    else Ok(Zeroes(n))
  }

  /** `verify_uncompressed_payload` */
  function Verify(g: Image, raw: seq<byte>): (r: Result<seq<byte>, Failure>)
    ensures r.Ok? ==> |r.value| == |raw| - 4
  {
    if |raw| < 5 then Err(TooShort)
    else
      var payload := raw[..|raw| - 4];
      if g.adler(payload) == FromLE(raw[|raw| - 4..]) || g.policy.RawIfPossible? then Ok(payload)
      else if g.policy.ErrorOut? then Err(BadChecksum)
      else Ok(Zeroes(|payload|))
  }

  /** What chunk i holds, independently of who reads it and how. */
  function Decode(g: Image, i: nat): Result<seq<byte>, Failure>
    requires i < |g.chunks| && i * g.chunkSize <= g.imageEnd
  {
    var c := g.chunks[i];
    if ChunkLen(g, c).None? then Err(BadChunkBounds)
    else match Raw(g, c)
      case None => Err(IoError)
      case Some(raw) => if c.compressed then Inflate(g, i, raw) else Verify(g, raw)
  }

  // A chunk whose payload, if stored plain, is long enough for the part of the image it stands for.
  ghost predicate Covers(g: Image, i: nat)
    requires Live(g, i)
  {
    !g.chunks[i].compressed && Decode(g, i).Ok? ==> DecodedLen(g, i) <= |Decode(g, i).value|
  }

  // Panicked: a slice index was out of range.
  datatype Outcome = Done(bytes: seq<byte>) | Failed(error: Failure) | Panicked

  function Slice(v: seq<byte>, beg: nat, end: nat): Outcome {
    if beg <= end <= |v| then Done(v[beg..end]) else Panicked
  }

  // What a read of part of a chunk should come to.
  function Expected(g: Image, i: nat, beg: nat, end: nat): Outcome
    requires i < |g.chunks| && i * g.chunkSize <= g.imageEnd
  {
    match Decode(g, i)
    case Ok(v) => Slice(v, beg, end)
    case Err(e) => Failed(e)
  }

  // What it comes to for a worker with a buffer of this length: the front of it must take the stored chunk.
  function Direct(g: Image, i: nat, beg: nat, end: nat, bufLen: nat): Outcome
    requires i < |g.chunks| && i * g.chunkSize <= g.imageEnd
  {
    if ChunkLen(g, g.chunks[i]).Some? && bufLen < ChunkLen(g, g.chunks[i]).value then Panicked
    else Expected(g, i, beg, end)
  }

  // Through the cache, only a compressed chunk that is not there needs the buffer.
  function ViaCache(g: Image, i: nat, beg: nat, end: nat, bufLen: nat, hit: bool): Outcome
    requires i < |g.chunks| && i * g.chunkSize <= g.imageEnd
  {
    if !hit && g.chunks[i].compressed then Direct(g, i, beg, end, bufLen) else Expected(g, i, beg, end)
  }

  // Reading this chunk without the cache costs the worker its buffer.
  predicate LosesBuffer(g: Image, i: nat)
    requires i < |g.chunks| && i * g.chunkSize <= g.imageEnd
  {
    !g.chunks[i].compressed && ChunkLen(g, g.chunks[i]).Some? && Decode(g, i).Err?
  }

  ghost predicate CacheCoherent(g: Image, m: map<nat, seq<byte>>) {
    forall i :: i in m ==> Live(g, i) && Decode(g, i) == Ok(m[i])
  }

  method Keep(g: Image, cache: DecodedChunkCache, i: nat, v: seq<byte>)
    requires cache.Ok() && CacheCoherent(g, cache.chunks) && Live(g, i) && Decode(g, i) == Ok(v)
    modifies cache
    ensures cache.Ok() && CacheCoherent(g, cache.chunks)
  {
    cache.Insert(i, v);
  }

  class ReadWorker {
    const g: Image
    var bufLen: nat   // length of the buffer kept inside the decoder

    constructor (g: Image)
      ensures this.g == g && bufLen == g.chunkSize + 4
    {
      this.g, bufLen := g, g.chunkSize + 4;
    }

    // Take the decoder's buffer and fill its front.
    method Fill(c: Chunk, n: nat) returns (raw: Option<seq<byte>>, fits: bool)
      requires ChunkLen(g, c) == Some(n)
      ensures fits <==> n <= bufLen
      ensures fits ==> raw == Raw(g, c)
    {
      if bufLen < n {
        return None, false;
      }
      raw, fits := Raw(g, c), true;
    }

    /** `read`. A failed read of a plain chunk does not give the buffer back. */
    method Read(i: nat, beg: nat, end: nat) returns (r: Outcome)
      requires Live(g, i)
      modifies this
      ensures r == Direct(g, i, beg, end, old(bufLen))
      ensures !r.Panicked? ==> bufLen == if LosesBuffer(g, i) then 0 else old(bufLen)
    {
      var c := g.chunks[i];
      var n := ChunkLen(g, c);
      if n.None? {
        return Failed(BadChunkBounds);
      }
      var raw, fits := Fill(c, n.value);
      if !fits {
        return Panicked;
      }
      if c.compressed {
        if raw.None? {
          return Failed(IoError);
        }
        var decoded := Inflate(g, i, raw.value);
        if decoded.Err? {
          return Failed(decoded.error);
        }
        return Slice(decoded.value, beg, end);
      }
      var lent := bufLen;
      bufLen := 0;
      if raw.None? {
        return Failed(IoError);
      }
      var out := Verify(g, raw.value);
      if out.Err? {
        return Failed(out.error);
      }
      r := Slice(out.value, beg, end);
      if !r.Panicked? {
        bufLen := lent;
      }
    }

    // The miss path: only a compressed chunk goes through the decoder's buffer.
    method DecodeMiss(i: nat, n: nat) returns (decoded: Result<seq<byte>, Failure>, fits: bool)
      requires Live(g, i) && ChunkLen(g, g.chunks[i]) == Some(n)
      ensures fits <==> !g.chunks[i].compressed || n <= bufLen
      ensures fits ==> decoded == Decode(g, i)
    {
      var c := g.chunks[i];
      var raw: Option<seq<byte>> := Raw(g, c);
      fits := true;
      if c.compressed {
        raw, fits := Fill(c, n);
        if !fits {
          return Err(IoError), false;
        }
      }
      if raw.None? {
        return Err(IoError), fits;
      }
      decoded := if c.compressed then Inflate(g, i, raw.value) else Verify(g, raw.value);
    }

    // Decode, serve the part asked for, and keep the whole chunk.
    method ReadMiss(i: nat, beg: nat, end: nat, n: nat, cache: DecodedChunkCache) returns (r: Outcome)
      requires Live(g, i) && ChunkLen(g, g.chunks[i]) == Some(n) && cache.Ok() && CacheCoherent(g, cache.chunks)
      modifies cache
      ensures cache.Ok() && CacheCoherent(g, cache.chunks)
      ensures r == ViaCache(g, i, beg, end, bufLen, false)
    {
      var decoded, fits := DecodeMiss(i, n);
      r := if !fits then Panicked
           else if decoded.Err? then Failed(decoded.error)
           else Slice(decoded.value, beg, end);
      if r.Done? {
        Keep(g, cache, i, decoded.value);
      }
    }

    /** `read_cached`: the cache changes who does the work, not the result. */
    method ReadCached(i: nat, beg: nat, end: nat, cache: DecodedChunkCache) returns (r: Outcome)
      requires Live(g, i) && cache.Ok() && CacheCoherent(g, cache.chunks)
      modifies cache
      ensures cache.Ok() && CacheCoherent(g, cache.chunks)
      ensures r == ViaCache(g, i, beg, end, bufLen, i in old(cache.chunks))
    {
      var c := g.chunks[i];
      var n := ChunkLen(g, c);
      if n.None? {
        return Failed(BadChunkBounds);
      }
      var hit := cache.Get(i);
      if hit.Some? {
        return Slice(hit.value, beg, end);
      }
      r := ReadMiss(i, beg, end, n.value, cache);
    }
  }

  /** With its buffer in place a worker reads the same with and without the cache, whatever the cache holds. */
  method ReadsAgree(w: ReadWorker, v: ReadWorker, cache: DecodedChunkCache, i: nat, beg: nat, end: nat)
    returns (plain: Outcome, cached: Outcome)
    requires w.g == v.g && w != v && Live(w.g, i) && cache.Ok() && CacheCoherent(w.g, cache.chunks)
    requires w.bufLen == w.g.chunkSize + 4 && v.bufLen == v.g.chunkSize + 4
    modifies w, cache
    ensures plain == cached == Expected(w.g, i, beg, end)
  {
    plain := w.Read(i, beg, end);
    cached := v.ReadCached(i, beg, end, cache);
  }

  /** A worker that failed to decode a plain chunk panics on the next chunk it is given, whatever the image. */
  method LostBufferPanics(w: ReadWorker, i: nat, beg: nat, end: nat, j: nat, beg': nat, end': nat)
    returns (first: Outcome, second: Outcome)
    requires w.bufLen == w.g.chunkSize + 4 && Live(w.g, i) && LosesBuffer(w.g, i)
    requires Live(w.g, j) && ChunkLen(w.g, w.g.chunks[j]).Some? && ChunkLen(w.g, w.g.chunks[j]).value > 0
    modifies w
    ensures first.Failed? && second == Panicked
  {
    first := w.Read(i, beg, end);
    second := w.Read(j, beg', end');
  }

  /** For instance: four stored bytes are no chunk, and the five after them cannot be read any more. */
  method LostBufferInstance() returns (first: Outcome, second: Outcome)
    ensures first == Failed(TooShort) && second == Panicked
  {
    var g := Image(1, 2, ErrorOut, [Chunk(0, 0, 4, false), Chunk(0, 0, 5, false)], [[0, 0, 0, 0, 0]], s => [], s => 0);
    var w := new ReadWorker(g);
    assert Live(g, 0) && Live(g, 1);
    first := w.Read(0, 0, 1);
    second := w.Read(1, 0, 1);
  }
}
