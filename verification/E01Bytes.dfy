/**
 What a chunk of an E01 image decodes to, and which byte of which segment file
 a byte of the image is. This is written out here in offsets and bytes,
 independently of the functions that the workers are built on.
 */
module E01Bytes {
  import opened Basics
  import opened E01Chunks

  // The chunk's bounds are in order, not too far apart for a worker's buffer, and inside its segment file.
  ghost predicate Stored(g: Image, c: Chunk) {
    && c.dataOffset <= c.endOffset <= c.dataOffset + g.chunkSize + 4
    && c.segment < |g.segs| && c.endOffset <= |g.segs[c.segment]|
  }

  // The checksum stored in the last four bytes of a plain chunk, low byte first, is that of the bytes before it.
  ghost predicate SumRight(g: Image, c: Chunk)
    requires Stored(g, c) && c.dataOffset + 4 <= c.endOffset
  {
    var s, at := g.segs[c.segment], c.endOffset - 4;
    s[at] as nat + 256 * s[at + 1] as nat + 65536 * s[at + 2] as nat + 16777216 * s[at + 3] as nat
    == g.adler(s[c.dataOffset..at])
  }

  // How much of the image the chunk stands for.
  ghost function Part(g: Image, i: nat): nat
    requires i * g.chunkSize <= g.imageEnd
  {
    if g.imageEnd - i * g.chunkSize < g.chunkSize then g.imageEnd - i * g.chunkSize else g.chunkSize
  }

  lemma LastFour(s: seq<byte>)
    requires |s| == 4
    ensures FromLE(s) == s[0] as nat + 256 * s[1] as nat + 65536 * s[2] as nat + 16777216 * s[3] as nat
  {
    var a, b := s[1..], s[2..];
    assert a[1..] == b && b[1..] == s[3..] && s[3..][1..] == [];
    assert FromLE(s[3..]) == s[3] as nat;
    assert FromLE(b) == s[2] as nat + 256 * FromLE(s[3..]);
  }

  lemma SumBytes(g: Image, c: Chunk)
    requires Stored(g, c) && c.dataOffset + 4 <= c.endOffset
    ensures var raw := g.segs[c.segment][c.dataOffset..c.endOffset];
            && |raw| >= 4 && raw[..|raw| - 4] == g.segs[c.segment][c.dataOffset..c.endOffset - 4]
            && (g.adler(raw[..|raw| - 4]) == FromLE(raw[|raw| - 4..]) <==> SumRight(g, c))
  {
    var raw := g.segs[c.segment][c.dataOffset..c.endOffset];
    LastFour(raw[|raw| - 4..]);
    assert raw[..|raw| - 4] == g.segs[c.segment][c.dataOffset..c.endOffset - 4];
  }

  /**
   What a chunk decodes to. A plain one is its payload if the checksum after it is right or the policy is to go on with
   what there is, and otherwise an error or zeros; a compressed one is the first part of what it inflates to if that is
   long enough, and otherwise an error or zeros.
   */
  lemma DecodeIs(g: Image, i: nat)
    requires i < |g.chunks| && i * g.chunkSize <= g.imageEnd
    ensures var (c, d) := (g.chunks[i], Decode(g, i));
            && (!Stored(g, c) ==> d == Err(BadChunkBounds) || d == Err(IoError))
            && (d == Err(BadChunkBounds) <==>
                  c.endOffset < c.dataOffset || c.dataOffset + g.chunkSize + 4 < c.endOffset)
            && (Stored(g, c) && !c.compressed && c.endOffset < c.dataOffset + 5 ==> d == Err(TooShort))
            && (Stored(g, c) && !c.compressed && c.endOffset >= c.dataOffset + 5 ==>
                  var payload := g.segs[c.segment][c.dataOffset..c.endOffset - 4];
                  d == if SumRight(g, c) || g.policy == RawIfPossible then Ok(payload)
                       else if g.policy == ErrorOut then Err(BadChecksum)
                       else Ok(Zeroes(|payload|)))
            && (Stored(g, c) && c.compressed ==>
                  var out := g.inflate(g.segs[c.segment][c.dataOffset..c.endOffset]);
                  d == if |out| >= Part(g, i) then Ok(out[..Part(g, i)])
                       else if g.policy == ErrorOut then Err(DecompressionFailed)
                       else Ok(Zeroes(Part(g, i))))
  {
    var c := g.chunks[i];
    if Stored(g, c) && c.endOffset >= c.dataOffset + 5 {
      SumBytes(g, c);
    }
  }

  // Byte o of the image is x.
  ghost predicate Shows(g: Image, o: nat, x: byte)
    requires g.chunkSize > 0
  {
    && o / g.chunkSize < |g.chunks| && o < g.imageEnd
    && var (c, k) := (g.chunks[o / g.chunkSize], o % g.chunkSize);
       && Stored(g, c)
       && if c.compressed then
            var out := g.inflate(g.segs[c.segment][c.dataOffset..c.endOffset]);
            var left := g.imageEnd - (o - k);
            if |out| >= (if left < g.chunkSize then left else g.chunkSize) then x == out[k]
            else g.policy != ErrorOut && x == 0
          else
            && c.dataOffset + k + 4 < c.endOffset
            && if SumRight(g, c) || g.policy == RawIfPossible then x == g.segs[c.segment][c.dataOffset + k]
               else g.policy == ZeroOut && x == 0
  }

  // The bytes of the image from offset on.
  ghost predicate ShowsAll(g: Image, offset: nat, bytes: seq<byte>)
    requires g.chunkSize > 0
  {
    forall j :: 0 <= j < |bytes| ==> Shows(g, offset + j, bytes[j])
  }
}
