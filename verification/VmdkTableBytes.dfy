/**
 Where in the file of a sparse extent the entries of its grain table stand, and
 what their bytes mean. The layout is written out here in byte offsets,
 independently of the functions that the table readers are built on.
 */
module VmdkTableBytes {
  import opened Basics
  import opened Arith
  import opened VmdkImage
  import opened VmdkTables

  ghost function At(table: map<nat, nat>, g: nat): Option<nat> {
    if g in table then Some(table[g]) else None
  }

  // ---- Sparse extents: 4-byte sector numbers ----

  ghost function Sector(b: seq<byte>, at: nat): nat
    requires at + 4 <= |b|
  {
    b[at] as nat + 256 * b[at + 1] as nat + 65536 * b[at + 2] as nat + 16777216 * b[at + 3] as nat
  }

  // The entry of grain g: entry g % l2Len of the table at the sector that directory entry g / l2Len gives. Zero is
  // none.
  ghost predicate SparseGrainIs(h: SparseMeta, b: seq<byte>, g: nat, r: Option<nat>)
    requires h.l2Len > 0
  {
    var d := 512 * h.l1Sector + 4 * (g / h.l2Len);
    if g / h.l2Len >= h.l1Len || d + 4 > |b| || Sector(b, d) == 0 then r == None
    else
      var t := 512 * Sector(b, d) + 4 * (g % h.l2Len);
      if t + 4 > |b| || Sector(b, t) == 0 then r == None else r == Some(Sector(b, t))
  }

  lemma SparseEntryBytes(h: SparseMeta, b: seq<byte>, g: nat)
    requires h.l2Len > 0
    ensures SparseGrainIs(h, b, g, SparseEntry(h, Words(b), g))
  {
    var w := h.l1Sector * 128 + g / h.l2Len;
    if w < |Words(b)| {
      assert Words(b)[w] == Sector(b, 4 * w);
      var v := Words(b)[w] * 128 + g % h.l2Len;
      assert v < |Words(b)| ==> Words(b)[v] == Sector(b, 4 * v);
    }
  }

  // The table of directory entry k, as far as the extent goes, lies in the file.
  ghost predicate SparseRowThere(h: SparseMeta, b: seq<byte>, k: nat, total: nat) {
    var d := 512 * h.l1Sector + 4 * k;
    && d + 4 <= |b|
    && (k * h.l2Len < total && Sector(b, d) != 0 ==>
          512 * Sector(b, d) + 4 * Min(h.l2Len, total - k * h.l2Len) <= |b|)
  }

  lemma SparseRowBytes(h: SparseMeta, b: seq<byte>, k: nat, total: nat)
    requires 4 * (h.l1Sector * 128 + k) + 4 <= |b|
    ensures h.l1Sector * 128 + k < |Words(b)|
    ensures RowPresent(h, Words(b), k, total) <==> SparseRowThere(h, b, k, total)
  {
    var w := h.l1Sector * 128 + k;
    assert Words(b)[w] == Sector(b, 4 * w);
  }

  // The directory lies in the file, and so does every table that belongs to the extent.
  ghost predicate SparseTableThere(h: SparseMeta, b: seq<byte>) {
    && h.clusterSectors > 0 && 512 * h.l1Sector + 4 * h.l1Len <= |b|
    && forall k: nat :: k < h.l1Len ==> SparseRowThere(h, b, k, DivCeil(h.sectors, h.clusterSectors))
  }

  ghost predicate SparseTableIs(h: SparseMeta, b: seq<byte>, table: map<nat, nat>)
    requires h.l2Len > 0 && h.clusterSectors > 0
  {
    var total := DivCeil(h.sectors, h.clusterSectors);
    && (forall g :: g in table ==> g < total)
    && forall g: nat :: g < total ==> SparseGrainIs(h, b, g, At(table, g))
  }

  /** The flat table of a sparse extent holds, grain by grain, what the two levels of tables in the file say. */
  lemma SparseTableBytes(h: SparseMeta, b: seq<byte>, table: map<nat, nat>)
    requires h.l2Len > 0 && h.clusterSectors > 0 && Flat(table, TotalGrains(h), SparseLookup(h, Words(b)))
    ensures SparseTableIs(h, b, table)
  {
    forall g: nat | g < TotalGrains(h) ensures SparseGrainIs(h, b, g, At(table, g)) {
      SparseEntryBytes(h, b, g);
      assert SparseLookup(h, Words(b))(g) == At(table, g);
    }
  }

  /** The tables can be read exactly when the file is long enough for them. */
  lemma SparseThereBytes(h: SparseMeta, b: seq<byte>)
    requires h.l2Len > 0
    ensures SparseThere(h, Words(b)) <==> SparseTableThere(h, b)
  {
    if h.clusterSectors > 0 && 512 * h.l1Sector + 4 * h.l1Len <= |b| {
      var total := TotalGrains(h);
      forall k: nat | k < h.l1Len
        ensures h.l1Sector * 128 + k < |Words(b)|
        ensures RowPresent(h, Words(b), k, total) <==> SparseRowThere(h, b, k, total)
      {
        SparseRowBytes(h, b, k, total);
      }
      assert SparseThere(h, Words(b)) <==> forall k: nat :: k < h.l1Len ==> RowPresent(h, Words(b), k, total);
    }
  }

  // ---- SESPARSE: 8-byte entries ----

  ghost predicate Zero8(b: seq<byte>, at: nat)
    requires at + 8 <= |b|
  {
    forall i :: at <= i < at + 8 ==> b[i] == 0
  }

  // The low six bytes, and the number of a directory entry: all but the high nibble of the last byte.
  ghost function Low6(b: seq<byte>, at: nat): nat
    requires at + 8 <= |b|
  {
    b[at] as nat + 256 * b[at + 1] as nat + 65536 * b[at + 2] as nat + 16777216 * b[at + 3] as nat
    + 4294967296 * b[at + 4] as nat + 1099511627776 * b[at + 5] as nat
  }

  ghost function TableNumber(b: seq<byte>, at: nat): nat
    requires at + 8 <= |b|
  {
    Low6(b, at) + 281474976710656 * b[at + 6] as nat + 72057594037927936 * (b[at + 7] as nat % 16)
  }

  // The number of an allocated grain: byte 6 and the low nibble of byte 7, and above these the low six bytes.
  ghost function GrainNumber(b: seq<byte>, at: nat): nat
    requires at + 8 <= |b|
  {
    b[at + 6] as nat + 256 * (b[at + 7] as nat % 16) + 4096 * Low6(b, at)
  }

  ghost predicate SeSlotIs(h: SeMeta, b: seq<byte>, t: nat, r: Option<nat>)
    requires t + 8 <= |b|
  {
    var kind := b[t + 7] as nat / 16;
    if kind == 3 then r == Some(h.clustersOffset + GrainNumber(b, t) * h.clusterSectors)
    else if kind == 1 || kind == 2 then r == Some(1)
    else r == None
  }

  ghost function StartOfTable(h: SeMeta, number: nat): nat {
    8 * (h.l2TablesWord + number * h.l2Len)
  }

  // Where the table of directory entry k begins.
  ghost function TableStart(h: SeMeta, b: seq<byte>, k: nat): nat
    requires 8 * (h.l1Word + k) + 8 <= |b|
  {
    StartOfTable(h, TableNumber(b, 8 * (h.l1Word + k)))
  }

  ghost predicate SeGrainIs(h: SeMeta, b: seq<byte>, g: nat, r: Option<nat>)
    requires h.l2Len > 0
  {
    var k := g / h.l2Len;
    var d := 8 * (h.l1Word + k);
    if k >= h.l1Len || d + 8 > |b| || Zero8(b, d) then r == None
    else
      var t := TableStart(h, b, k) + 8 * (g % h.l2Len);
      if t + 8 > |b| then r == None else SeSlotIs(h, b, t, r)
  }

  // What the parts of an entry are in terms of its bytes.
  lemma EntryParts(b: seq<byte>, at: nat, w: nat)
    requires at + 8 <= |b|
    requires w == Word32(b, at) + 0x1_0000_0000 * Word32(b, at + 4)
    ensures w == 0 <==> Zero8(b, at)
    ensures w / NIBBLE == b[at + 7] as nat / 16
    ensures w % NIBBLE == TableNumber(b, at)
    ensures GrainIndex(w) == GrainNumber(b, at)
  {
    var low, hi, top := Low6(b, at), b[at + 6] as nat + 256 * (b[at + 7] as nat % 16), b[at + 7] as nat / 16;
    assert w == low + 281474976710656 * b[at + 6] as nat + 72057594037927936 * b[at + 7] as nat;
    assert b[at + 7] as nat == 16 * top + b[at + 7] as nat % 16;
    assert w == NIBBLE * top + 281474976710656 * hi + low;
    MulDiv(top, 281474976710656 * hi + low, NIBBLE);
    MulDiv(4096 * top + hi, low, 281474976710656);
    MulDiv(top, hi, 4096);
    assert w == 0 ==> Zero8(b, at);
  }

  lemma LongParts(b: seq<byte>, w: nat)
    requires 8 * w + 8 <= |b|
    ensures w < |Longs(b)|
    ensures Longs(b)[w] == 0 <==> Zero8(b, 8 * w)
    ensures Longs(b)[w] / NIBBLE == b[8 * w + 7] as nat / 16
    ensures Longs(b)[w] % NIBBLE == TableNumber(b, 8 * w)
    ensures GrainIndex(Longs(b)[w]) == GrainNumber(b, 8 * w)
  {
    EntryParts(b, 8 * w, Longs(b)[w]);
  }

  lemma TableStarts(h: SeMeta, b: seq<byte>, k: nat)
    requires 8 * (h.l1Word + k) + 8 <= |b|
    ensures h.l1Word + k < |Longs(b)| && 8 * SeTableWord(h, Longs(b)[h.l1Word + k]) == TableStart(h, b, k)
  {
    LongParts(b, h.l1Word + k);
  }

  lemma SlotBytes(h: SeMeta, b: seq<byte>, w: nat)
    requires 8 * w + 8 <= |b|
    ensures w < |Longs(b)| && SeSlotIs(h, b, 8 * w, SlotSector(DecodeSlot(h, Longs(b)[w])))
    ensures DecodeSlot(h, Longs(b)[w]).Corrupt? <==> !Zero8(b, 8 * w) && !(1 <= b[8 * w + 7] as nat / 16 <= 3)
  {
    LongParts(b, w);
  }

  // Entry i of the table of directory entry k.
  lemma SlotOf(h: SeMeta, b: seq<byte>, k: nat, i: nat)
    requires 8 * (h.l1Word + k) + 8 <= |b|
    ensures h.l1Word + k < |Longs(b)| && (Longs(b)[h.l1Word + k] == 0 <==> Zero8(b, 8 * (h.l1Word + k)))
    ensures var (w, t) := (SeTableWord(h, Longs(b)[h.l1Word + k]) + i, TableStart(h, b, k) + 8 * i);
            && (w < |Longs(b)| <==> t + 8 <= |b|)
            && (w < |Longs(b)| ==> SeSlotIs(h, b, t, SlotSector(DecodeSlot(h, Longs(b)[w]))))
  {
    LongParts(b, h.l1Word + k);
    TableStarts(h, b, k);
    var w := SeTableWord(h, Longs(b)[h.l1Word + k]) + i;
    if 8 * w + 8 <= |b| {
      SlotBytes(h, b, w);
    }
  }

  lemma SeEntryBytes(h: SeMeta, b: seq<byte>, g: nat)
    requires h.l2Len > 0
    ensures SeGrainIs(h, b, g, SeEntry(h, Longs(b), g))
  {
    var k := g / h.l2Len;
    if 8 * (h.l1Word + k) + 8 <= |b| {
      SlotOf(h, b, k, g % h.l2Len);
    }
  }

  // The table of directory entry k, as far as the extent goes, lies in the file, and its entries are of known kinds.
  ghost predicate SeRowSound(h: SeMeta, b: seq<byte>, k: nat, total: nat) {
    var d := 8 * (h.l1Word + k);
    && d + 8 <= |b|
    && (k * h.l2Len < total && !Zero8(b, d) ==>
          && b[d + 7] as nat / 16 == 1
          && SlotsSound(b, TableStart(h, b, k), Min(h.l2Len, total - k * h.l2Len)))
  }

  ghost predicate SlotsSound(b: seq<byte>, start: nat, n: nat) {
    forall i: nat :: i < n ==> SlotSound(b, start, i)
  }

  // Entry i of a table is in the file and of a known kind.
  ghost predicate SlotSound(b: seq<byte>, start: nat, i: nat) {
    var t := start + 8 * i;
    t + 8 <= |b| && (Zero8(b, t) || 1 <= b[t + 7] as nat / 16 <= 3)
  }

  // The first n words from at on are there and not corrupt exactly when each of them is.
  lemma WordsSound(h: SeMeta, b: seq<byte>, at: nat, start: nat, n: nat)
    requires n > 0 && start == 8 * at
    ensures at + n <= |Longs(b)| && Clean(h, Longs(b)[at..at + n]) <==> SlotsSound(b, start, n)
  {
    if SlotsSound(b, start, n) {
      assert SlotSound(b, start, n - 1);
    }
    if at + n <= |Longs(b)| {
      var words := Longs(b)[at..at + n];
      forall i: nat | i < n ensures SlotSound(b, start, i) <==> !DecodeSlot(h, words[i]).Corrupt? {
        SlotBytes(h, b, at + i);
      }
    }
  }

  lemma TableSound(h: SeMeta, b: seq<byte>, k: nat, n: nat)
    requires n > 0 && 8 * (h.l1Word + k) + 8 <= |b|
    ensures h.l1Word + k < |Longs(b)|
    ensures var at := SeTableWord(h, Longs(b)[h.l1Word + k]);
            at + n <= |Longs(b)| && Clean(h, Longs(b)[at..at + n]) <==> SlotsSound(b, TableStart(h, b, k), n)
  {
    TableStarts(h, b, k);
    WordsSound(h, b, SeTableWord(h, Longs(b)[h.l1Word + k]), TableStart(h, b, k), n);
  }

  // The first n entries of the table of directory entry k, if it has one.
  lemma SeFrontBytes(h: SeMeta, b: seq<byte>, k: nat, n: nat)
    requires n > 0 && 8 * (h.l1Word + k) + 8 <= |b|
    ensures h.l1Word + k < |Longs(b)|
    ensures var (e, d) := (Longs(b)[h.l1Word + k], 8 * (h.l1Word + k));
            var at := SeTableWord(h, e);
            (e != 0 ==> e / NIBBLE == 1 && at + n <= |Longs(b)| && Clean(h, Longs(b)[at..at + n]))
            <==> (!Zero8(b, d) ==> b[d + 7] as nat / 16 == 1 && SlotsSound(b, TableStart(h, b, k), n))
  {
    LongParts(b, h.l1Word + k);
    TableSound(h, b, k, n);
  }

  lemma SeRowBytes(h: SeMeta, b: seq<byte>, k: nat, total: nat)
    requires h.l2Len > 0 && 8 * (h.l1Word + k) + 8 <= |b|
    ensures h.l1Word + k < |Longs(b)|
    ensures SeRowPresent(h, Longs(b), k, total) <==> SeRowSound(h, b, k, total)
  {
    LongParts(b, h.l1Word + k);
    if k * h.l2Len < total {
      SeFrontBytes(h, b, k, Min(h.l2Len, total - k * h.l2Len));
    }
  }

  // The directory lies in the file, and every table that belongs to the extent is there and sound.
  ghost predicate SeTableThere(h: SeMeta, b: seq<byte>)
    requires h.clusterSectors > 0
  {
    && 8 * (h.l1Word + h.l1Len) <= |b|
    && forall k: nat :: k < h.l1Len ==> SeRowSound(h, b, k, DivCeil(h.sectors, h.clusterSectors))
  }

  ghost predicate SeTableIs(h: SeMeta, b: seq<byte>, table: map<nat, nat>)
    requires h.l2Len > 0 && h.clusterSectors > 0
  {
    var total := DivCeil(h.sectors, h.clusterSectors);
    && (forall g :: g in table ==> g < total)
    && forall g: nat :: g < total ==> SeGrainIs(h, b, g, At(table, g))
  }

  /**
   The flat table of a SESPARSE extent holds, grain by grain, what the bytes of the directory entry and of the table
   entry say: high nibble 3 is the grain whose number is byte 6, the low nibble of byte 7 and above them the low six
   bytes; 1 and 2 are zeroed grains; eight zero bytes are a hole.
   */
  lemma SeTableBytes(h: SeMeta, b: seq<byte>, table: map<nat, nat>)
    requires h.l2Len > 0 && h.clusterSectors > 0
    requires Flat(table, DivCeil(h.sectors, h.clusterSectors), SeLookup(h, Longs(b)))
    ensures SeTableIs(h, b, table)
  {
    forall g: nat | g < DivCeil(h.sectors, h.clusterSectors) ensures SeGrainIs(h, b, g, At(table, g)) {
      SeEntryBytes(h, b, g);
      assert SeLookup(h, Longs(b))(g) == At(table, g);
    }
  }

  /** They can be read exactly when the file is long enough and every entry in use is of a known kind. */
  lemma SeThereBytes(h: SeMeta, b: seq<byte>)
    requires h.l2Len > 0 && h.clusterSectors > 0
    ensures SeThere(h, Longs(b)) <==> SeTableThere(h, b)
  {
    if 8 * (h.l1Word + h.l1Len) <= |b| {
      var total := DivCeil(h.sectors, h.clusterSectors);
      forall k: nat | k < h.l1Len
        ensures h.l1Word + k < |Longs(b)|
        ensures SeRowPresent(h, Longs(b), k, total) <==> SeRowSound(h, b, k, total)
      {
        SeRowBytes(h, b, k, total);
      }
    }
  }
}
