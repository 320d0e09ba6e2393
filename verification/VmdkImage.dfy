/**
 What a VMDK image chain means: extents placed one after another, the first
 extent in chain order that provides a sector owning it, and zeros elsewhere.
 */
module VmdkImage {
  import opened Basics
  import opened Arith

  const SECTOR_SIZE: nat := 512

  type Url = string

  // An extent file. `inflate` gives what a raw deflate stream expands to, if it is sound.
  datatype File = File(bytes: seq<byte>, inflate: seq<byte> -> Option<seq<byte>>)

  datatype Backing =
    | SparseFile(file: File, grains: map<nat, nat>, grainSize: nat, compressed: bool, zeroedEntry: bool)
    | FlatFile(file: File, offset: nat)
    | NoFile
    | Unreadable

  datatype ExtentDesc = ExtentDesc(sectors: nat, backing: Backing)

  datatype ImageDesc = ImageDesc(file: File, extents: seq<ExtentDesc>, parent: Option<Url>)

  // An extent together with the sector of the image at which it begins.
  datatype Placed = Placed(start: nat, desc: ExtentDesc)

  ghost function Place(eds: seq<ExtentDesc>, start: nat): (r: seq<Placed>)
    ensures |r| == |eds|
  {
    if eds == [] then [] else [Placed(start, eds[0])] + Place(eds[1..], start + eds[0].sectors)
  }

  function Sectors(eds: seq<ExtentDesc>): nat {
    if eds == [] then 0 else eds[0].sectors + Sectors(eds[1..])
  }

  // The extent has data of its own for this sector; otherwise the sector belongs to a parent.
  predicate Provides(p: Placed, s: nat) {
    && p.start <= s < p.start + p.desc.sectors
    && (p.desc.backing.SparseFile? ==>
          p.desc.backing.grainSize > 0 && (s - p.start) / p.desc.backing.grainSize in p.desc.backing.grains)
  }

  function FirstProvider(ps: seq<Placed>, s: nat): (r: Option<nat>)
    ensures r.Some? ==> r.value < |ps| && Provides(ps[r.value], s)
    ensures r.Some? ==> forall i :: 0 <= i < r.value ==> !Provides(ps[i], s)
    ensures r.None? ==> forall i :: 0 <= i < |ps| ==> !Provides(ps[i], s)
  {
    if ps == [] then None
    else if Provides(ps[0], s) then Some(0)
    else
      var r := FirstProvider(ps[1..], s);
      assert forall i :: 0 < i < |ps| ==> ps[i] == ps[1..][i - 1];
      if r.Some? then Some(r.value + 1) else None
  }

  // A big-endian field of two bytes and a little-endian one of four.
  function Word16BE(bytes: seq<byte>, at: nat): nat
    requires at + 2 <= |bytes|
  {
    bytes[at] as nat * 0x100 + bytes[at + 1] as nat
  }

  function Word32(bytes: seq<byte>, at: nat): (w: nat)
    requires at + 4 <= |bytes|
    ensures w < 0x1_0000_0000
  {
    bytes[at] as nat + 0x100 * (bytes[at + 1] as nat)
    + 0x1_0000 * (bytes[at + 2] as nat) + 0x100_0000 * (bytes[at + 3] as nat)
  }

  // The two bytes in front of a zlib stream: a multiple of 31, deflate, no dictionary.
  predicate ZlibHeader(header: nat) {
    header % 31 == 0 && header / 0x100 % 0x10 == 8 && header / 0x20 % 2 == 0
  }

  /** `read_and_decompress_grain`: what the grain stored at pos expands to, if that is at most a grain. */
  function Decompress(file: File, pos: nat, grainBytes: nat): (r: Option<seq<byte>>)
    ensures r.Some? ==> |r.value| <= grainBytes
  {
    if |file.bytes| < pos + 14 then None
    else
      var n := Word32(file.bytes, pos + 8);
      if n > 2 * grainBytes || !ZlibHeader(Word16BE(file.bytes, pos + 12)) || |file.bytes| < pos + 14 + n then None
      else
        var out := file.inflate(file.bytes[pos + 14..pos + 14 + n]);
        if out.Some? && |out.value| <= grainBytes then out else None
  }

  // A byte of a grain. Short streams read as zeros to the end of the grain.
  function GrainByte(b: Backing, sector: nat, off: nat): Option<byte>
    requires b.SparseFile?
  {
    if b.zeroedEntry && sector == 1 then Some(0)
    else if b.compressed then
      match Decompress(b.file, sector * SECTOR_SIZE, b.grainSize * SECTOR_SIZE)
      case None => None
      case Some(out) => Some(if off < |out| then out[off] else 0)
    else
      var pos := sector * SECTOR_SIZE + off;
      if pos < |b.file.bytes| then Some(b.file.bytes[pos]) else None
  }

  // Byte o of the image as this extent holds it; None where the file is short or corrupt.
  function Content(p: Placed, o: nat): Option<byte>
    requires Provides(p, o / SECTOR_SIZE)
  {
    var local := o - p.start * SECTOR_SIZE;
    match p.desc.backing
    case SparseFile(_, grains, grainSize, _, _) =>
      GrainOf(p, o);
      GrainByte(p.desc.backing, grains[local / (grainSize * SECTOR_SIZE)], local % (grainSize * SECTOR_SIZE))
    case FlatFile(file, offset) =>
      var pos := local + offset * SECTOR_SIZE;
      if pos < |file.bytes| then Some(file.bytes[pos]) else None
    case NoFile => Some(0)
    case Unreadable => None
  }

  // A provided byte always falls in a grain of the table.
  lemma GrainOf(p: Placed, o: nat)
    requires Provides(p, o / SECTOR_SIZE) && p.desc.backing.SparseFile?
    ensures var gs := p.desc.backing.grainSize;
            var local := o - p.start * SECTOR_SIZE;
            gs * SECTOR_SIZE > 0 && local >= 0 && local / (gs * SECTOR_SIZE) in p.desc.backing.grains
  {
    var gs := p.desc.backing.grainSize;
    var local := o - p.start * SECTOR_SIZE;
    assert local / SECTOR_SIZE == o / SECTOR_SIZE - p.start;
    DivDiv(local, SECTOR_SIZE, gs);
    assert SECTOR_SIZE * gs == gs * SECTOR_SIZE;
  }

  /** The meaning of an image: byte o of the overlay of the extents in chain order. */
  function ImageByte(ps: seq<Placed>, o: nat): Option<byte> {
    match FirstProvider(ps, o / SECTOR_SIZE)
    case None => Some(0)
    case Some(i) => Content(ps[i], o)
  }

  // ---- The chain of images ----

  // The images reached from url by following parents, up to a missing image or a repeated url.
  ghost function Chain(world: map<Url, ImageDesc>, url: Url, visited: set<Url>): seq<ImageDesc>
    decreases world.Keys - visited
  {
    if url !in world || url in visited then []
    else
      [world[url]] + (match world[url].parent
                      case None => []
                      case Some(parent) => Chain(world, parent, visited + {url}))
  }

  ghost function Overlay(imgs: seq<ImageDesc>): seq<Placed> {
    if imgs == [] then [] else Place(imgs[0].extents, 0) + Overlay(imgs[1..])
  }

  lemma OverlayConcat(a: seq<ImageDesc>, b: seq<ImageDesc>)
    ensures Overlay(a + b) == Overlay(a) + Overlay(b)
  {
    if a == [] {
      assert a + b == b;
    } else {
      assert (a + b)[1..] == a[1..] + b;
      OverlayConcat(a[1..], b);
    }
  }

  lemma FirstProviderPrefix(ps: seq<Placed>, more: seq<Placed>, s: nat)
    ensures FirstProvider(ps + more, s) ==
            if FirstProvider(ps, s).Some? then FirstProvider(ps, s)
            else match FirstProvider(more, s)
                 case None => None
                 case Some(i) => Some(|ps| + i)
  {
    var r := FirstProvider(ps + more, s);
    assert forall i :: 0 <= i < |ps| ==> (ps + more)[i] == ps[i];
    assert forall i :: 0 <= i < |more| ==> (ps + more)[|ps| + i] == more[i];
    if FirstProvider(ps, s).Some? && r.Some? {
    } else if r.Some? {
      assert r.value >= |ps|;
      assert (ps + more)[r.value] == more[r.value - |ps|];
    }
  }
}
