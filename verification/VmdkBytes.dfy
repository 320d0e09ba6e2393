/**
 Which byte of which file a byte of the image is. The layout is written out
 here in offsets, independently of the functions that the reader is built on.
 */
module VmdkBytes {
  import opened Basics
  import opened Arith
  import opened VmdkImage

  // These extents in order, the first at `start`, each where the one before it ends, and the last ending at `end`.
  ghost predicate EndToEnd(eds: seq<ExtentDesc>, start: nat, end: nat, r: seq<Placed>) {
    && |r| == |eds| && (forall i :: 0 <= i < |r| ==> r[i].desc == eds[i])
    && (forall i :: 0 < i < |r| ==> r[i].start == r[i - 1].start + r[i - 1].desc.sectors)
    && if r == [] then end == start else r[0].start == start && end == r[|r| - 1].start + r[|r| - 1].desc.sectors
  }

  lemma EndToEndCons(eds: seq<ExtentDesc>, start: nat, end: nat, rest: seq<Placed>)
    requires eds != [] && EndToEnd(eds[1..], start + eds[0].sectors, end, rest)
    ensures EndToEnd(eds, start, end, [Placed(start, eds[0])] + rest)
  {
    var r := [Placed(start, eds[0])] + rest;
    forall i | 0 < i < |r| ensures r[i].desc == eds[i] && r[i].start == r[i - 1].start + r[i - 1].desc.sectors {
      assert r[i] == rest[i - 1] && eds[i] == eds[1..][i - 1];
      assert i > 1 ==> r[i - 1] == rest[i - 2];
    }
  }

  /** The extents of an image lie end to end, from where the first begins to the size of the image. */
  lemma {:induction false} PlaceEndToEnd(eds: seq<ExtentDesc>, start: nat)
    ensures EndToEnd(eds, start, start + Sectors(eds), Place(eds, start))
    decreases |eds|
  {
    if eds != [] {
      PlaceEndToEnd(eds[1..], start + eds[0].sectors);
      EndToEndCons(eds, start, start + Sectors(eds), Place(eds[1..], start + eds[0].sectors));
    }
  }

  // The images at these urls: each but the first is the parent that the one before it names, and none is met twice.
  ghost predicate FollowsParents(world: map<Url, ImageDesc>, visited: set<Url>, imgs: seq<ImageDesc>, urls: seq<Url>) {
    && |urls| == |imgs|
    && (forall i :: 0 <= i < |urls| ==> urls[i] in world && urls[i] !in visited && imgs[i] == world[urls[i]])
    && (forall i :: 0 < i < |urls| ==> imgs[i - 1].parent == Some(urls[i]))
    && (forall i, j :: 0 <= i < j < |urls| ==> urls[i] != urls[j])
  }

  // The next image is missing, or was met before.
  ghost predicate EndsAt(world: map<Url, ImageDesc>, visited: set<Url>, urls: seq<Url>, next: Url) {
    next !in world || next in visited || next in urls
  }

  lemma FollowsOn(world: map<Url, ImageDesc>, url: Url, visited: set<Url>, rest: seq<ImageDesc>, urls: seq<Url>)
    requires url in world && url !in visited && FollowsParents(world, visited + {url}, rest, urls)
    requires urls != [] ==> world[url].parent == Some(urls[0])
    ensures FollowsParents(world, visited, [world[url]] + rest, [url] + urls)
  {
    var imgs', urls' := [world[url]] + rest, [url] + urls;
    assert forall i :: 0 < i < |urls'| ==> imgs'[i] == rest[i - 1] && urls'[i] == urls[i - 1];
    forall i | 0 < i < |urls'| ensures imgs'[i - 1].parent == Some(urls'[i]) {
      assert i > 1 ==> rest[i - 2].parent == Some(urls[i - 1]);
    }
  }

  /** The chain of an image: itself, its parent, the parent of that, up to a missing image or one met before. */
  lemma {:induction false} ChainFollows(world: map<Url, ImageDesc>, url: Url, visited: set<Url>)
    returns (urls: seq<Url>)
    ensures var imgs := Chain(world, url, visited);
            && FollowsParents(world, visited, imgs, urls) && (urls != [] ==> urls[0] == url)
            && (imgs == [] ==> EndsAt(world, visited, urls, url))
            && (imgs != [] && imgs[|imgs| - 1].parent.Some? ==>
                  EndsAt(world, visited, urls, imgs[|imgs| - 1].parent.value))
    decreases world.Keys - visited
  {
    urls := [];
    if url in world && url !in visited {
      var rest: seq<ImageDesc> := [];
      if world[url].parent.Some? {
        urls := ChainFollows(world, world[url].parent.value, visited + {url});
        rest := Chain(world, world[url].parent.value, visited + {url});
      }
      FollowsOn(world, url, visited, rest, urls);
      assert Chain(world, url, visited) == [world[url]] + rest;
      assert ([url] + urls)[0] == url && forall u :: u in urls ==> u in [url] + urls;
      urls := [url] + urls;
    }
  }

  /** The overlay lists the extents of each image where its turn in the chain is, each image laid out from sector 0. */
  lemma OverlayInOrder(imgs: seq<ImageDesc>, i: nat)
    requires i < |imgs|
    ensures Overlay(imgs) == Overlay(imgs[..i]) + Place(imgs[i].extents, 0) + Overlay(imgs[i + 1..])
    ensures Overlay([]) == []
  {
    var a, b := imgs[..i], imgs[i..];
    assert imgs == a + b && b[0] == imgs[i] && b[1..] == imgs[i + 1..];
    OverlayConcat(a, b);
    Assoc(Overlay(a), Place(imgs[i].extents, 0), Overlay(imgs[i + 1..]));
  }

  // The extent has data of its own for byte o of the image: the byte lies in it, and if it is sparse in a grain it has.
  ghost predicate HasData(p: Placed, o: nat) {
    && 512 * p.start <= o < 512 * (p.start + p.desc.sectors)
    && (p.desc.backing.SparseFile? ==>
          var grain := 512 * p.desc.backing.grainSize;
          grain > 0 && (o - 512 * p.start) / grain in p.desc.backing.grains)
  }

  // The deflate stream of the compressed grain at this place in the file expands to `out`, which fits a grain.
  ghost predicate ExpandsTo(file: File, at: nat, grain: nat, out: seq<byte>) {
    var b := file.bytes;
    && at + 14 <= |b|
    && var n := b[at + 8] as nat + 256 * b[at + 9] as nat + 65536 * b[at + 10] as nat + 16777216 * b[at + 11] as nat;
       && n <= 2 * grain && at + 14 + n <= |b|
       && b[at + 12] as nat % 16 == 8 && b[at + 13] as nat / 32 % 2 == 0
       && (256 * b[at + 12] as nat + b[at + 13] as nat) % 31 == 0
       && file.inflate(b[at + 14..at + 14 + n]) == Some(out) && |out| <= grain
  }

  // With table entry e, byte `off` of the grain is x.
  ghost predicate GrainHolds(b: Backing, e: nat, off: nat, x: byte)
    requires b.SparseFile?
  {
    if e == 1 && b.zeroedEntry then x == 0
    else if b.compressed then
      exists out :: ExpandsTo(b.file, 512 * e, 512 * b.grainSize, out) && x == if off < |out| then out[off] else 0
    else 512 * e + off < |b.file.bytes| && x == b.file.bytes[512 * e + off]
  }

  // Byte o of the image is x according to this extent.
  ghost predicate Holds(p: Placed, o: nat, x: byte)
    requires HasData(p, o)
  {
    var local := o - 512 * p.start;
    match p.desc.backing
    case SparseFile(_, grains, grainSize, _, _) =>
      GrainHolds(p.desc.backing, grains[local / (512 * grainSize)], local % (512 * grainSize), x)
    case FlatFile(file, offset) => local + 512 * offset < |file.bytes| && x == file.bytes[local + 512 * offset]
    case NoFile => x == 0
    case Unreadable => false
  }

  ghost predicate FirstWithData(ps: seq<Placed>, i: nat, o: nat) {
    i < |ps| && HasData(ps[i], o) && forall j :: 0 <= j < i ==> !HasData(ps[j], o)
  }

  // Byte o of the image is x: the first extent with data for it says so, or no extent has any and it is zero.
  ghost predicate Shows(ps: seq<Placed>, o: nat, x: byte) {
    || (exists i: nat :: FirstWithData(ps, i, o) && Holds(ps[i], o, x))
    || (x == 0 && forall i :: 0 <= i < |ps| ==> !HasData(ps[i], o))
  }

  lemma ProvidesData(p: Placed, o: nat)
    ensures HasData(p, o) <==> Provides(p, o / SECTOR_SIZE)
  {
    if p.desc.backing.SparseFile? && p.desc.backing.grainSize > 0 && 512 * p.start <= o {
      var gs := p.desc.backing.grainSize;
      var local := o - 512 * p.start;
      assert local / SECTOR_SIZE == o / SECTOR_SIZE - p.start;
      DivDiv(local, SECTOR_SIZE, gs);
    }
  }

  lemma ZlibBytes(a: nat, b: nat)
    requires b < 256
    ensures (a * 256 + b) / 256 == a && (a * 256 + b) / 32 % 2 == b / 32 % 2
  {
    MulDiv(a, b, 256);
    var q := b / 32;
    assert a * 256 + b == (8 * a + q) * 32 + b % 32;
    MulDiv(8 * a + q, b % 32, 32);
    MulDiv(4 * a + q / 2, q % 2, 2);
  }

  lemma DecompressHolds(file: File, at: nat, grain: nat, out: seq<byte>)
    ensures Decompress(file, at, grain) == Some(out) <==> ExpandsTo(file, at, grain, out)
  {
    if at + 14 <= |file.bytes| {
      ZlibBytes(file.bytes[at + 12] as nat, file.bytes[at + 13] as nat);
    }
  }

  lemma GrainByteHolds(b: Backing, e: nat, off: nat, x: byte)
    requires b.SparseFile?
    ensures GrainByte(b, e, off) == Some(x) <==> GrainHolds(b, e, off, x)
  {
    var d := Decompress(b.file, e * SECTOR_SIZE, b.grainSize * SECTOR_SIZE);
    if d.Some? {
      DecompressHolds(b.file, 512 * e, 512 * b.grainSize, d.value);
    }
    forall out | ExpandsTo(b.file, 512 * e, 512 * b.grainSize, out) ensures d == Some(out) {
      DecompressHolds(b.file, 512 * e, 512 * b.grainSize, out);
    }
  }

  lemma ContentHolds(p: Placed, o: nat, x: byte)
    requires Provides(p, o / SECTOR_SIZE) && HasData(p, o)
    ensures Content(p, o) == Some(x) <==> Holds(p, o, x)
  {
    if p.desc.backing.SparseFile? {
      var grain := 512 * p.desc.backing.grainSize;
      var local := o - 512 * p.start;
      GrainOf(p, o);
      GrainByteHolds(p.desc.backing, p.desc.backing.grains[local / grain], local % grain, x);
    }
  }

  /**
   A byte of the image, over the bytes of the files: of the first extent with data for it, the byte of a flat file that
   lies as far behind the extent's offset as the image byte behind its start; the byte of a plain grain at the sector
   of its table entry; zero for the marker entry and for ZERO extents; of a compressed grain the byte of what it expands
   to, and zero past its end. Zero where no extent has data. There is no byte where a file is too short or corrupt.
   */
  lemma ImageByteShows(ps: seq<Placed>, o: nat, x: byte)
    ensures ImageByte(ps, o) == Some(x) <==> Shows(ps, o, x)
  {
    forall i | 0 <= i < |ps| ensures HasData(ps[i], o) <==> Provides(ps[i], o / SECTOR_SIZE) {
      ProvidesData(ps[i], o);
    }
    var owner := FirstProvider(ps, o / SECTOR_SIZE);
    if owner.Some? {
      assert FirstWithData(ps, owner.value, o);
      ContentHolds(ps[owner.value], o, x);
    }
  }

  // The bytes of the image from offset on.
  ghost predicate ShowsAll(ps: seq<Placed>, offset: nat, bytes: seq<byte>) {
    forall j :: 0 <= j < |bytes| ==> Shows(ps, offset + j, bytes[j])
  }

  lemma OneMoreShown(ps: seq<Placed>, offset: nat, bytes: seq<byte>, x: byte)
    requires ShowsAll(ps, offset, bytes) && Shows(ps, offset + |bytes|, x)
    ensures ShowsAll(ps, offset, bytes + [x])
  {
    forall j | 0 <= j < |bytes| + 1 ensures Shows(ps, offset + j, (bytes + [x])[j]) {
      assert (bytes + [x])[j] == if j < |bytes| then bytes[j] else x;
    }
  }

  lemma {:induction false} BytesShown(ps: seq<Placed>, offset: nat, bytes: seq<byte>)
    requires forall o: nat :: offset <= o < offset + |bytes| ==> ImageByte(ps, o) == Some(bytes[o - offset])
    ensures ShowsAll(ps, offset, bytes)
    decreases |bytes|
  {
    if bytes != [] {
      var n := |bytes| - 1;
      BytesShown(ps, offset, bytes[..n]);
      ImageByteShows(ps, offset + n, bytes[n]);
      OneMoreShown(ps, offset, bytes[..n], bytes[n]);
      PrefixSnoc(bytes, n);
      PrefixAll(bytes);
    }
  }
}
