/**
 Sparse extent headers and two-level grain tables: the `TryFrom` conversions of
 vmdk/src/header.rs and the grain-table readers of vmdk/src/extents.rs.
 */
module VmdkTables {
  import opened Basics
  import opened Arith
  import opened VmdkImage

  const MAX_SPARSE_SIZE: nat := 0x200_0000_0000     // 2 TiB
  const MAX_SESPARSE_SIZE: nat := 0x4000_0000_0000  // 64 TiB

  // ---- checked_product ----

  function Product(vals: seq<nat>): nat {
    if vals == [] then 1 else vals[0] * Product(vals[1..])
  }

  /** `checked_product` with the accumulator made explicit. */
  function CheckedProduct(acc: nat, vals: seq<nat>): Option<nat>
    decreases |vals|
  {
    if vals == [] then Some(acc)
    else if acc * vals[0] > U64_MAX then None
    else CheckedProduct(acc * vals[0], vals[1..])
  }

  // The running products all fit.
  ghost predicate AllFit(acc: nat, vals: seq<nat>) {
    forall n :: 0 <= n <= |vals| ==> acc * Product(vals[..n]) <= U64_MAX
  }

  lemma {:induction false} ProductPrefix(acc: nat, vals: seq<nat>, n: nat)
    requires 1 <= n <= |vals|
    ensures acc * Product(vals[..n]) == acc * vals[0] * Product(vals[1..][..n - 1])
  {
    assert vals[..n][1..] == vals[1..][..n - 1];
    MulAssoc(acc, vals[0], Product(vals[1..][..n - 1]));
  }

  lemma {:induction false} AllFitStep(acc: nat, vals: seq<nat>)
    requires vals != [] && acc <= U64_MAX
    ensures AllFit(acc, vals) <==> AllFit(acc * vals[0], vals[1..])
  {
    if AllFit(acc, vals) {
      forall n | 0 <= n <= |vals[1..]| ensures acc * vals[0] * Product(vals[1..][..n]) <= U64_MAX {
        ProductPrefix(acc, vals, n + 1);
      }
    }
    if AllFit(acc * vals[0], vals[1..]) {
      forall n | 0 <= n <= |vals| ensures acc * Product(vals[..n]) <= U64_MAX {
        if n > 0 {
          ProductPrefix(acc, vals, n);
        } else {
          assert vals[..0] == [] && acc * Product([]) == acc;
        }
      }
    }
  }

  /** The true product is returned exactly when every product along the way fits; a later zero does not help. */
  lemma {:induction false} CheckedProductExact(acc: nat, vals: seq<nat>)
    requires acc <= U64_MAX
    ensures CheckedProduct(acc, vals) == if AllFit(acc, vals) then Some(acc * Product(vals)) else None
    decreases |vals|
  {
    if vals == [] {
      assert acc * Product(vals) == acc;
    } else {
      var a := acc * vals[0];
      AllFitStep(acc, vals);
      assert acc * Product(vals) == a * Product(vals[1..]);
      if a <= U64_MAX {
        CheckedProductExact(a, vals[1..]);
      } else {
        assert vals[1..][..0] == [] && a * Product(vals[1..][..0]) == a;
      }
    }
  }

  // The size is within the cap.
  predicate Fits(l1Len: nat, l2Len: nat, clusterSectors: nat, cap: nat) {
    var p := CheckedProduct(1, [l1Len, l2Len, clusterSectors, SECTOR_SIZE]);
    p.Some? && p.value <= cap
  }

  // ---- Headers ----

  datatype SparseMeta = SparseMeta(
    compressed: bool, hasZeroGrain: bool, sectors: nat, l1Sector: nat, l1Len: nat, l2Len: nat, clusterSectors: nat)

  datatype Vmdk3Header = Vmdk3Header(diskSectors: nat, granularity: nat, l1dirOffset: nat, l1dirSize: nat)

  datatype Vmdk4Header = Vmdk4Header(
    version: nat, flags: nat, capacity: nat, granularity: nat, gtesPerGt: nat, rgdOffset: nat, gdOffset: nat)

  function FromVmdk3(h: Vmdk3Header): Option<SparseMeta> {
    if Fits(h.l1dirSize, 4096, h.granularity, MAX_SPARSE_SIZE)
    then Some(SparseMeta(false, false, h.diskSectors, h.l1dirOffset, h.l1dirSize, 4096, h.granularity))
    else None
  }

  function FromVmdk4(h: Vmdk4Header): Option<SparseMeta> {
    if h.version > 3 || h.gtesPerGt == 0 || h.gtesPerGt > 512 || h.granularity == 0 then None
    else if h.gtesPerGt * h.granularity > U64_MAX then None
    else
      var l1Len := DivCeil(h.capacity, h.gtesPerGt * h.granularity);
      if Fits(l1Len, h.gtesPerGt, h.granularity, MAX_SPARSE_SIZE) then
        Some(SparseMeta(h.flags / 0x10000 % 2 == 1, h.flags / 0x04 % 2 == 1, h.capacity,
                        if h.flags / 0x02 % 2 == 1 then h.rgdOffset else h.gdOffset,
                        l1Len, h.gtesPerGt, h.granularity))
      else None
  }

  function TotalGrains(h: SparseMeta): nat
    requires h.clusterSectors > 0
  {
    DivCeil(h.sectors, h.clusterSectors)
  }

  lemma DirectoryReaches(capacity: nat, c: nat, g: nat)
    requires c > 0 && g > 0
    ensures g * c > 0
    ensures var l1Len := DivCeil(capacity, g * c);
            l1Len == DivCeil(DivCeil(capacity, c), g) && DivCeil(capacity, c) <= l1Len * g && capacity <= l1Len * g * c
  {
    DivCeilTwice(capacity, c, g);
    MulAssoc(DivCeil(capacity, g * c), g, c);
  }

  lemma FitsExactly(a: nat, b: nat, c: nat, cap: nat)
    requires b > 0 && cap <= U64_MAX && (c > 0 || a * b <= U64_MAX)
    ensures Fits(a, b, c, cap) <==> a * b * c * SECTOR_SIZE <= cap
  {
    if Fits(a, b, c, cap) {
      FitsMeans(a, b, c, cap);
    }
    if a * b * c * SECTOR_SIZE <= cap {
      MulMonotone(1, b, a);
      if c > 0 {
        MulMonotone(1, c, a * b);
      }
      assert a <= U64_MAX && a * b <= U64_MAX && a * b * c <= U64_MAX;
      FoldOfFour(a, b, c, SECTOR_SIZE);
    }
  }

  // The fold over four factors, when nothing on the way overflows.
  lemma FoldOfFour(a: nat, b: nat, c: nat, d: nat)
    requires a <= U64_MAX && a * b <= U64_MAX && a * b * c <= U64_MAX && a * b * c * d <= U64_MAX
    ensures CheckedProduct(1, [a, b, c, d]) == Some(a * b * c * d)
  {
    assert [a, b, c, d][1..] == [b, c, d] && [b, c, d][1..] == [c, d] && [c, d][1..] == [d] && [d][1..] == [];
    assert CheckedProduct(a * b * c, [d]) == Some(a * b * c * d);
    assert CheckedProduct(a * b, [c, d]) == Some(a * b * c * d);
    assert CheckedProduct(a, [b, c, d]) == Some(a * b * c * d);
  }

  // The bit at d of x, when a multiple of 2 * d is added.
  lemma BitAbove(x: nat, y: nat, d: nat)
    requires d > 0
    ensures (x + 2 * d * y) / d % 2 == x / d % 2
  {
    var q := x / d;
    assert x == q * d + x % d;
    assert (q + 2 * y) * d == q * d + 2 * d * y;
    MulDiv(q + 2 * y, x % d, d);
    MulDiv(q / 2 + y, q % 2, 2);
  }

  lemma FlagBits(flags: nat, f: seq<byte>)
    requires |f| == 4
    requires flags == f[0] as nat + 256 * f[1] as nat + 65536 * f[2] as nat + 16777216 * f[3] as nat
    ensures flags / 0x10000 % 2 == f[2] as nat % 2
    ensures flags / 4 % 2 == f[0] as nat / 4 % 2 && flags / 2 % 2 == f[0] as nat / 2 % 2
  {
    var above := f[1] as nat + 256 * f[2] as nat + 65536 * f[3] as nat;
    BitAbove(f[0] as nat, 32 * above, 4);
    BitAbove(f[0] as nat, 64 * above, 2);
    var low := f[0] as nat + 256 * f[1] as nat;
    BitAbove(low + 65536 * f[2] as nat, 128 * f[3] as nat, 65536);
    MulDiv(f[2] as nat, low, 65536);
  }

  lemma Vmdk4Accepts(h: Vmdk4Header)
    ensures FromVmdk4(h).Some? <==>
            && h.version <= 3 && 1 <= h.gtesPerGt <= 512 && h.granularity > 0
            && h.gtesPerGt * h.granularity <= U64_MAX
            && DivCeil(h.capacity, h.gtesPerGt * h.granularity) * h.gtesPerGt * h.granularity * 512 <= MAX_SPARSE_SIZE
  {
    if h.gtesPerGt > 0 && h.granularity > 0 {
      MulPositive(h.gtesPerGt, h.granularity);
      FitsExactly(DivCeil(h.capacity, h.gtesPerGt * h.granularity), h.gtesPerGt, h.granularity, MAX_SPARSE_SIZE);
    }
  }

  /** Which VMDK4 headers are accepted, and what is taken from the fields; f are the four bytes of the flags. */
  lemma Vmdk4Fields(h: Vmdk4Header, f: seq<byte>)
    requires |f| == 4
    requires h.flags == f[0] as nat + 256 * f[1] as nat + 65536 * f[2] as nat + 16777216 * f[3] as nat
    ensures FromVmdk4(h).Some? <==>
            && h.version <= 3 && 1 <= h.gtesPerGt <= 512 && h.granularity > 0
            && h.gtesPerGt * h.granularity <= 18446744073709551615
            && DivCeil(h.capacity, h.gtesPerGt * h.granularity) * h.gtesPerGt * h.granularity * 512 <= 2199023255552
    ensures FromVmdk4(h).Some? ==> var m := FromVmdk4(h).value;
            && (m.compressed <==> f[2] as nat % 2 == 1) && (m.hasZeroGrain <==> f[0] as nat / 4 % 2 == 1)
            && m.l1Sector == (if f[0] as nat / 2 % 2 == 1 then h.rgdOffset else h.gdOffset)
            && m.sectors == h.capacity && m.l2Len == h.gtesPerGt && m.clusterSectors == h.granularity
  {
    Vmdk4Accepts(h);
    FlagBits(h.flags, f);
  }

  /** Which VMDK3 headers are accepted, and what is taken from the fields. */
  lemma Vmdk3Fields(h: Vmdk3Header)
    requires h.l1dirSize < 4294967296
    ensures FromVmdk3(h).Some? <==> h.l1dirSize * 4096 * h.granularity * 512 <= 2199023255552
    ensures FromVmdk3(h).Some? ==> var m := FromVmdk3(h).value;
            && !m.compressed && !m.hasZeroGrain && m.sectors == h.diskSectors && m.l1Sector == h.l1dirOffset
            && m.l1Len == h.l1dirSize && m.l2Len == 4096 && m.clusterSectors == h.granularity
  {
    FitsExactly(h.l1dirSize, 4096, h.granularity, MAX_SPARSE_SIZE);
  }

  /** An accepted VMDK4 header reaches every grain, with no directory entry to spare, and stays within the cap. */
  lemma Vmdk4ReachesEveryGrain(h: Vmdk4Header)
    requires FromVmdk4(h).Some?
    ensures var m := FromVmdk4(h).value;
            && m.clusterSectors > 0 && m.l2Len > 0
            && m.l1Len == DivCeil(TotalGrains(m), m.l2Len)
            && TotalGrains(m) <= m.l1Len * m.l2Len
            && m.sectors <= m.l1Len * m.l2Len * m.clusterSectors
            && m.l1Len * m.l2Len * m.clusterSectors * SECTOR_SIZE <= MAX_SPARSE_SIZE
  {
    var m := FromVmdk4(h).value;
    DirectoryReaches(h.capacity, h.granularity, h.gtesPerGt);
    FitsMeans(m.l1Len, m.l2Len, m.clusterSectors, MAX_SPARSE_SIZE);
  }

  lemma FitsMeans(a: nat, b: nat, c: nat, cap: nat)
    requires Fits(a, b, c, cap)
    ensures a * b * c * SECTOR_SIZE <= cap
  {
    CheckedProductExact(1, [a, b, c, SECTOR_SIZE]);
    assert Product([a, b, c, SECTOR_SIZE]) == a * b * c * SECTOR_SIZE by {
      assert [a, b, c, SECTOR_SIZE][1..] == [b, c, SECTOR_SIZE];
      assert [b, c, SECTOR_SIZE][1..] == [c, SECTOR_SIZE];
      assert [c, SECTOR_SIZE][1..] == [SECTOR_SIZE];
      assert Product([SECTOR_SIZE]) == SECTOR_SIZE;
      assert Product([c, SECTOR_SIZE]) == c * SECTOR_SIZE;
      assert b * (c * SECTOR_SIZE) == b * c * SECTOR_SIZE;
      assert a * (b * c * SECTOR_SIZE) == a * b * c * SECTOR_SIZE;
    }
  }

  /** The VMDK3 conversion takes a header with no sectors per grain, which the table reader cannot divide by. */
  lemma Vmdk3AcceptsZeroGranularity(h: Vmdk3Header)
    requires h.granularity == 0 && h.l1dirSize < 0x1_0000_0000
    ensures FromVmdk3(h).Some? && FromVmdk3(h).value.clusterSectors == 0
  {
    assert [h.l1dirSize, 4096, 0, SECTOR_SIZE][1..] == [4096, 0, SECTOR_SIZE];
    assert [4096, 0, SECTOR_SIZE][1..] == [0, SECTOR_SIZE];
    assert [0, SECTOR_SIZE][1..] == [SECTOR_SIZE];
    assert CheckedProduct(0, [SECTOR_SIZE]) == Some(0);
    assert CheckedProduct(h.l1dirSize * 4096, [0, SECTOR_SIZE]) == Some(0);
    assert CheckedProduct(h.l1dirSize, [4096, 0, SECTOR_SIZE]) == Some(0);
  }

  // ---- Two-level lookup ----

  // Little-endian 4-byte words; a last one that is not whole cannot be read.
  function WordAt(bytes: seq<byte>, i: nat): nat
    requires 4 * i + 4 <= |bytes|
  {
    Word32(bytes, 4 * i)
  }

  function Words(bytes: seq<byte>): seq<nat> {
    seq(|bytes| / 4, i requires 0 <= i < |bytes| / 4 => WordAt(bytes, i))
  }

  datatype TableError = ReadFailed | BadEntry | DivisionByZero

  // Words [at, at + n) of a file, if they are all there.
  function ReadWords<W>(disk: seq<W>, at: nat, n: nat): Option<seq<W>> {
    if at + n <= |disk| then Some(disk[at..at + n]) else None
  }

  // The flat table agrees with `entry` on the grains below `upto`, and holds no others.
  ghost predicate Flat(t: map<nat, nat>, upto: nat, entry: nat -> Option<nat>) {
    && (forall g :: g in t ==> g < upto && entry(g) == Some(t[g]))
    && (forall g: nat :: g < upto && entry(g).Some? ==> g in t)
  }

  /** Enter one second-level table's worth of grains. */
  method AddRow(table0: map<nat, nat>, cur: nat, row: seq<Option<nat>>, ghost entry: nat -> Option<nat>)
    returns (table: map<nat, nat>)
    requires Flat(table0, cur, entry)
    requires forall i :: 0 <= i < |row| ==> row[i] == entry(cur + i)
    ensures Flat(table, cur + |row|, entry)
  {
    table := table0;
    for i := 0 to |row|
      invariant Flat(table, cur + i, entry)
    {
      if row[i].Some? {
        table := table[cur + i := row[i].value];
      }
    }
  }

  // Grain cur + i of the k-th row.
  lemma RowGrain(k: nat, l2Len: nat, i: nat)
    requires i < l2Len
    ensures (k * l2Len + i) / l2Len == k && (k * l2Len + i) % l2Len == i
  {
    MulDiv(k, i, l2Len);
  }

  // Grain g by the directory: entry g % l2Len of the table that directory entry g / l2Len points at.
  // The 4-byte entries are sector numbers; a sector holds 128 of them.
  function SparseEntry(h: SparseMeta, disk: seq<nat>, g: nat): Option<nat>
    requires h.l2Len > 0
  {
    var (k, i) := (g / h.l2Len, g % h.l2Len);
    if k >= h.l1Len || h.l1Sector * 128 + k >= |disk| then None
    else
      var table := disk[h.l1Sector * 128 + k] * 128;
      if table == 0 || table + i >= |disk| || disk[table + i] == 0 then None else Some(disk[table + i])
  }

  ghost function SparseLookup(h: SparseMeta, disk: seq<nat>): nat -> Option<nat>
    requires h.l2Len > 0
  {
    g => SparseEntry(h, disk, g)
  }

  // The part of the k-th second-level table that belongs to the extent can be read.
  predicate RowPresent(h: SparseMeta, disk: seq<nat>, k: nat, total: nat)
    requires h.l1Sector * 128 + k < |disk|
  {
    var sector := disk[h.l1Sector * 128 + k];
    k * h.l2Len < total && sector != 0 ==> sector * 128 + Min(h.l2Len, total - k * h.l2Len) <= |disk|
  }

  function SparseRow(words: seq<nat>): (r: seq<Option<nat>>)
    ensures |r| == |words|
  {
    seq(|words|, i requires 0 <= i < |words| => if words[i] != 0 then Some(words[i]) else None)
  }

  // The rows up to k, and one more.
  lemma RowStep(k: nat, l2Len: nat, total: nat)
    requires k * l2Len < total
    ensures k * l2Len + Min(l2Len, total - k * l2Len) == Min((k + 1) * l2Len, total)
  {
    assert (k + 1) * l2Len == k * l2Len + l2Len;
  }

  // Rows past the last grain need not be there.
  lemma RowsBeyond(h: SparseMeta, disk: seq<nat>, k: nat, total: nat)
    requires h.l1Sector * 128 + h.l1Len <= |disk| && (k < h.l1Len ==> total <= k * h.l2Len)
    ensures forall j: nat :: k <= j < h.l1Len ==> RowPresent(h, disk, j, total)
  {
    forall j: nat | k <= j < h.l1Len ensures RowPresent(h, disk, j, total) {
      MulMonotone(k, j, h.l2Len);
    }
  }

  // The directory is there, the grains have a size, and every table that belongs to the extent is there.
  ghost predicate SparseThere(h: SparseMeta, disk: seq<nat>)
    requires h.l2Len > 0
  {
    && h.l1Sector * 128 + h.l1Len <= |disk| && h.clusterSectors > 0
    && forall k: nat :: k < h.l1Len ==> RowPresent(h, disk, k, TotalGrains(h))
  }

  // The first k rows are in the table, which holds the grains below cur.
  ghost predicate SparseSoFar(h: SparseMeta, disk: seq<nat>, k: nat, cur: nat, total: nat, table: map<nat, nat>)
    requires h.l2Len > 0 && h.l1Sector * 128 + h.l1Len <= |disk|
  {
    && k <= h.l1Len && cur == Min(k * h.l2Len, total) && Flat(table, cur, SparseLookup(h, disk))
    && forall j: nat :: j < k ==> RowPresent(h, disk, j, total)
  }

  lemma SparseRowGrain(h: SparseMeta, disk: seq<nat>, k: nat, i: nat, slot: Option<nat>)
    requires h.l2Len > 0 && i < h.l2Len && k < h.l1Len && h.l1Sector * 128 + h.l1Len <= |disk|
    requires var at := disk[h.l1Sector * 128 + k] * 128 + i;
             if disk[h.l1Sector * 128 + k] == 0 then slot == None
             else at < |disk| && slot == if disk[at] != 0 then Some(disk[at]) else None
    ensures SparseEntry(h, disk, k * h.l2Len + i) == slot
  {
    RowGrain(k, h.l2Len, i);
  }

  // The entries of the k-th second-level table, as far as the extent goes.
  method ReadSparseEntries(h: SparseMeta, disk: seq<nat>, k: nat, n: nat) returns (row: Option<seq<Option<nat>>>)
    requires h.l2Len > 0 && k < h.l1Len && h.l1Sector * 128 + h.l1Len <= |disk| && n <= h.l2Len
    ensures var sector := disk[h.l1Sector * 128 + k]; row.Some? <==> sector != 0 ==> sector * 128 + n <= |disk|
    ensures row.Some? ==> |row.value| == n
    ensures row.Some? ==> forall i :: 0 <= i < n ==> row.value[i] == SparseEntry(h, disk, k * h.l2Len + i)
  {
    var first := k * h.l2Len;
    var sector := disk[h.l1Sector * 128 + k];
    if sector * SECTOR_SIZE == 0 {
      row := Some(seq(n, _ => None));
    } else {
      var l2 := ReadWords(disk, sector * 128, n);
      if l2.None? {
        return None;
      }
      row := Some(SparseRow(l2.value));
    }
    forall i | 0 <= i < n ensures row.value[i] == SparseEntry(h, disk, first + i) {
      SparseRowGrain(h, disk, k, i, row.value[i]);
    }
  }

  // One turn of the directory loop.
  method ReadSparseRow(h: SparseMeta, disk: seq<nat>, k: nat, cur: nat, total: nat, table0: map<nat, nat>)
    returns (table: Option<map<nat, nat>>)
    requires h.l2Len > 0 && k < h.l1Len && h.l1Sector * 128 + h.l1Len <= |disk| && cur < total
    requires SparseSoFar(h, disk, k, cur, total, table0)
    ensures table.Some? <==> RowPresent(h, disk, k, total)
    ensures table.Some? ==> SparseSoFar(h, disk, k + 1, cur + Min(h.l2Len, total - cur), total, table.value)
  {
    var row := ReadSparseEntries(h, disk, k, Min(h.l2Len, total - cur));
    if row.None? {
      return None;
    }
    RowStep(k, h.l2Len, total);
    var t := AddRow(table0, cur, row.value, SparseLookup(h, disk));
    table := Some(t);
  }

  // When the loop over the directory ends, nothing is missing from the table.
  lemma SparseDone(h: SparseMeta, disk: seq<nat>, k: nat, cur: nat, table: map<nat, nat>)
    requires h.l2Len > 0 && h.clusterSectors > 0 && h.l1Sector * 128 + h.l1Len <= |disk|
    requires SparseSoFar(h, disk, k, cur, TotalGrains(h), table) && (k == h.l1Len || cur >= TotalGrains(h))
    ensures SparseThere(h, disk) && Flat(table, TotalGrains(h), SparseLookup(h, disk))
  {
    FlatWhole(h.l1Len, h.l2Len, SparseLookup(h, disk), table, cur, TotalGrains(h));
    RowsBeyond(h, disk, k, TotalGrains(h));
  }

  /** `read_grain_table_sparse` */
  method ReadSparseTable(h: SparseMeta, disk: seq<nat>) returns (r: Result<map<nat, nat>, TableError>)
    requires h.l2Len > 0
    ensures r == Err(DivisionByZero) <==> h.l1Sector * 128 + h.l1Len <= |disk| && h.clusterSectors == 0
    ensures r.Ok? <==> SparseThere(h, disk)
    ensures r.Ok? ==> h.clusterSectors > 0 && Flat(r.value, TotalGrains(h), SparseLookup(h, disk))
  {
    var l1 := ReadWords(disk, h.l1Sector * 128, h.l1Len);
    if l1.None? {
      return Err(ReadFailed);
    }
    if h.clusterSectors == 0 {
      return Err(DivisionByZero);
    }
    var total := TotalGrains(h);
    var table: map<nat, nat> := map[];
    var cur: nat, k: nat := 0, 0;
    while k < h.l1Len && cur < total
      invariant SparseSoFar(h, disk, k, cur, total, table)
      decreases h.l1Len - k
    {
      var next := ReadSparseRow(h, disk, k, cur, total, table);
      if next.None? {
        return Err(ReadFailed);
      }
      table := next.value;
      cur := cur + Min(h.l2Len, total - cur);
      k := k + 1;
    }
    SparseDone(h, disk, k, cur, table);
    r := Ok(table);
  }

  lemma PastDirectory(g: nat, l1Len: nat, l2Len: nat)
    requires l2Len > 0 && l1Len * l2Len <= g
    ensures g / l2Len >= l1Len
  {
    MulDiv(l1Len, 0, l2Len);
    DivMonotone(l1Len * l2Len, g, l2Len);
  }

  // Grains past the last directory entry have none.
  lemma FlatWhole(l1Len: nat, l2Len: nat, entry: nat -> Option<nat>, t: map<nat, nat>, cur: nat, total: nat)
    requires l2Len > 0 && cur <= total && Flat(t, cur, entry)
    requires cur < total ==> l1Len * l2Len <= cur
    requires forall g: nat :: g / l2Len >= l1Len ==> entry(g).None?
    ensures Flat(t, total, entry)
  {
    forall g: nat | cur <= g < total ensures entry(g).None? {
      PastDirectory(g, l1Len, l2Len);
    }
  }

  // ---- SESPARSE ----

  datatype SeMeta = SeMeta(
    sectors: nat, l1Word: nat, l1Len: nat, l2TablesWord: nat, l2Len: nat, clusterSectors: nat, clustersOffset: nat)

  datatype SeSparseHeader = SeSparseHeader(
    version: nat, capacity: nat, grainSize: nat, grainTableSize: nat, flags: nat, reserved: seq<nat>,
    grainDirOffset: nat, grainDirSize: nat, grainTablesOffset: nat, grainsOffset: nat)

  // Table positions are in 8-byte words, 64 to a sector.
  function FromSeSparse(h: SeSparseHeader): Option<SeMeta> {
    if h.version != 0x0000_0002_0000_0001 || h.grainSize != 8 || h.grainTableSize != 64 || h.flags != 0
       || exists i :: 0 <= i < |h.reserved| && h.reserved[i] != 0 then None
    else if h.grainDirSize * SECTOR_SIZE > U64_MAX then None
    else
      var l1Len := h.grainDirSize * SECTOR_SIZE / 8;
      var l2Len := h.grainTableSize * SECTOR_SIZE / 8;
      if Fits(l1Len, l2Len, h.grainSize, MAX_SESPARSE_SIZE) then
        Some(SeMeta(h.capacity, h.grainDirOffset * 64, l1Len, h.grainTablesOffset * 64, l2Len, h.grainSize,
                    h.grainsOffset))
      else None
  }

  /** Which SESPARSE headers are accepted: one fixed geometry and at most 65536 sectors of directory. */
  lemma SeSparseFields(h: SeSparseHeader)
    ensures FromSeSparse(h).Some? <==>
            && h.version == 8589934593 && h.grainSize == 8 && h.grainTableSize == 64 && h.flags == 0
            && (forall i :: 0 <= i < |h.reserved| ==> h.reserved[i] == 0) && h.grainDirSize <= 65536
    ensures FromSeSparse(h).Some? ==> var m := FromSeSparse(h).value;
            && 8 * m.l1Word == 512 * h.grainDirOffset && m.l1Len == 64 * h.grainDirSize
            && 8 * m.l2TablesWord == 512 * h.grainTablesOffset && m.l2Len == 4096
            && m.sectors == h.capacity && m.clusterSectors == 8 && m.clustersOffset == h.grainsOffset
  {
    FitsExactly(h.grainDirSize * 64, 4096, 8, MAX_SESPARSE_SIZE);
  }

  /**
   An accepted SESPARSE header meets what the table reader needs and stays within the cap. Unlike
   in VMDK4, its directory is sized independently, and reaches every grain exactly if it is large enough.
   */
  lemma SeSparseGeometry(h: SeSparseHeader)
    requires FromSeSparse(h).Some?
    ensures var m := FromSeSparse(h).value;
            && m.l2Len == 4096 && m.clusterSectors == 8
            && m.l1Len * m.l2Len * m.clusterSectors * SECTOR_SIZE <= MAX_SESPARSE_SIZE
            && (DivCeil(m.sectors, m.clusterSectors) <= m.l1Len * m.l2Len
                <==> m.sectors <= m.l1Len * m.l2Len * m.clusterSectors)
  {
    var m := FromSeSparse(h).value;
    FitsMeans(m.l1Len, m.l2Len, m.clusterSectors, MAX_SESPARSE_SIZE);
  }

  // Entries are 64-bit numbers: a nibble on top that says what the entry is, and 60 bits below it.
  const NIBBLE: nat := 0x1000_0000_0000_0000

  // The grain index scattered over the payload of an allocated entry: its low 12 bits stand above the other 48.
  function GrainIndex(e: nat): nat {
    e / 0x1_0000_0000_0000 % 0x1000 + 0x1000 * (e % 0x1_0000_0000_0000)
  }

  // Its inverse: the allocated entry for a grain index.
  function AllocatedEntry(index: nat): nat {
    3 * NIBBLE + index % 0x1000 * 0x1_0000_0000_0000 + index / 0x1000 % 0x1_0000_0000_0000
  }

  /** Decoding an allocated entry is a bijection between its 60 payload bits and the 60-bit grain indices. */
  lemma GrainIndexBijection(e: nat, index: nat)
    ensures e / NIBBLE == 3 ==> AllocatedEntry(GrainIndex(e)) == e
    ensures index < NIBBLE ==> GrainIndex(AllocatedEntry(index)) == index
    ensures GrainIndex(e) < NIBBLE
  {
    var hi, lo := e / 0x1_0000_0000_0000 % 0x1000, e % 0x1_0000_0000_0000;
    MulDiv(lo, hi, 0x1000);
    var low, high := index % 0x1000, index / 0x1000 % 0x1_0000_0000_0000;
    MulDiv(0x3000 + low, high, 0x1_0000_0000_0000);
    MulDiv(3, low, 0x1000);
  }

  /** The masks and shifts of the source come to the divisions and remainders used here. */
  lemma MasksAreDivisions(e: bv64, n: bv64)
    requires n < 16
    ensures e & 0x0FFF_FFFF_FFFF_FFFF == e % 0x1000_0000_0000_0000
    ensures e & 0xF000_0000_0000_0000 == n << 60 <==> e / 0x1000_0000_0000_0000 == n
    ensures ((e & 0x0FFF_0000_0000_0000) >> 48) | ((e & 0x0000_FFFF_FFFF_FFFF) << 12)
            == e / 0x1_0000_0000_0000 % 0x1000 + 0x1000 * (e % 0x1_0000_0000_0000)
  {
  }

  // Little-endian 8-byte words.
  function LongAt(bytes: seq<byte>, i: nat): (w: nat)
    requires 8 * i + 8 <= |bytes|
    ensures w < 16 * NIBBLE
  {
    Word32(bytes, 8 * i) + 0x1_0000_0000 * Word32(bytes, 8 * i + 4)
  }

  function Longs(bytes: seq<byte>): seq<nat> {
    seq(|bytes| / 8, i requires 0 <= i < |bytes| / 8 => LongAt(bytes, i))
  }

  datatype Slot = Hole | At(sector: nat) | Corrupt

  // A second-level entry. Zeroed grains are given sector 1, which the reader takes to mean zeros.
  function DecodeSlot(h: SeMeta, e: nat): Slot {
    if e == 0 then Hole
    else if e / NIBBLE == 1 || e / NIBBLE == 2 then At(1)
    else if e / NIBBLE == 3 then At(h.clustersOffset + GrainIndex(e) * h.clusterSectors)
    else Corrupt
  }

  function SeTableWord(h: SeMeta, e: nat): nat {
    h.l2TablesWord + e % NIBBLE * h.l2Len
  }

  // Grain g by the directory; None where the grain is a hole or cannot be read.
  function SeEntry(h: SeMeta, disk: seq<nat>, g: nat): Option<nat>
    requires h.l2Len > 0
  {
    var (k, i) := (g / h.l2Len, g % h.l2Len);
    if k >= h.l1Len || h.l1Word + k >= |disk| then None
    else
      var e := disk[h.l1Word + k];
      if e == 0 || SeTableWord(h, e) + i >= |disk| then None
      else
        SlotSector(DecodeSlot(h, disk[SeTableWord(h, e) + i]))
  }

  ghost function SeLookup(h: SeMeta, disk: seq<nat>): nat -> Option<nat>
    requires h.l2Len > 0
  {
    g => SeEntry(h, disk, g)
  }

  function SlotSector(slot: Slot): Option<nat> {
    if slot.At? then Some(slot.sector) else None
  }

  predicate Clean(h: SeMeta, words: seq<nat>) {
    forall i :: 0 <= i < |words| ==> !DecodeSlot(h, words[i]).Corrupt?
  }

  // The k-th second-level table, as far as the extent goes, is there and free of corrupt entries.
  predicate SeRowPresent(h: SeMeta, disk: seq<nat>, k: nat, total: nat)
    requires h.l1Word + k < |disk|
  {
    var e := disk[h.l1Word + k];
    k * h.l2Len < total && e != 0 ==>
      var n := Min(h.l2Len, total - k * h.l2Len);
      && e / NIBBLE == 1
      && SeTableWord(h, e) + n <= |disk|
      && Clean(h, disk[SeTableWord(h, e)..SeTableWord(h, e) + n])
  }

  // The loop over the entries of one table; None if one is corrupt.
  method DecodeRow(h: SeMeta, words: seq<nat>) returns (row: Option<seq<Option<nat>>>)
    ensures row.Some? <==> Clean(h, words)
    ensures row.Some? ==> |row.value| == |words|
    ensures row.Some? ==> forall i :: 0 <= i < |words| ==> row.value[i] == SlotSector(DecodeSlot(h, words[i]))
  {
    var slots: seq<Option<nat>> := [];
    for i := 0 to |words|
      invariant |slots| == i
      invariant forall j :: 0 <= j < i ==> !DecodeSlot(h, words[j]).Corrupt?
      invariant forall j :: 0 <= j < i ==> slots[j] == SlotSector(DecodeSlot(h, words[j]))
    {
      match DecodeSlot(h, words[i]) {
        case Hole => slots := slots + [None];
        case At(sector) => slots := slots + [Some(sector)];
        case Corrupt => return None;
      }
    }
    row := Some(slots);
  }

  lemma SeRowGrain(h: SeMeta, disk: seq<nat>, k: nat, i: nat, slot: Option<nat>)
    requires h.l2Len > 0 && i < h.l2Len && k < h.l1Len && h.l1Word + h.l1Len <= |disk|
    requires var e := disk[h.l1Word + k];
             if e == 0 then slot == None
             else SeTableWord(h, e) + i < |disk| && slot == SlotSector(DecodeSlot(h, disk[SeTableWord(h, e) + i]))
    ensures SeEntry(h, disk, k * h.l2Len + i) == slot
  {
    RowGrain(k, h.l2Len, i);
  }

  // Decode the k-th second-level table.
  method DecodeTable(h: SeMeta, disk: seq<nat>, k: nat, total: nat) returns (r: Result<seq<Option<nat>>, TableError>)
    requires h.l2Len > 0 && k < h.l1Len && h.l1Word + h.l1Len <= |disk| && k * h.l2Len < total
    ensures r.Ok? <==> SeRowPresent(h, disk, k, total)
    ensures r.Ok? ==> |r.value| == Min(h.l2Len, total - k * h.l2Len)
    ensures r.Ok? ==> forall i :: 0 <= i < |r.value| ==> r.value[i] == SeEntry(h, disk, k * h.l2Len + i)
  {
    var l2Len := Min(h.l2Len, total - k * h.l2Len);
    var e := disk[h.l1Word + k];
    var row: seq<Option<nat>>;
    if e == 0 {
      row := seq(l2Len, _ => None);
    } else {
      if e / NIBBLE != 1 {
        return Err(BadEntry);
      }
      var at := SeTableWord(h, e);
      var l2 := ReadWords(disk, at, l2Len);
      if l2.None? {
        return Err(ReadFailed);
      }
      var decoded := DecodeRow(h, l2.value);
      if decoded.None? {
        return Err(BadEntry);
      }
      row := decoded.value;
      assert forall i :: 0 <= i < l2Len ==> l2.value[i] == disk[at + i];
    }
    var first := k * h.l2Len;
    forall i | 0 <= i < |row| ensures row[i] == SeEntry(h, disk, first + i) {
      SeRowGrain(h, disk, k, i, row[i]);
    }
    r := Ok(row);
  }

  ghost predicate SeThere(h: SeMeta, disk: seq<nat>)
    requires h.l2Len > 0 && h.clusterSectors > 0
  {
    && h.l1Word + h.l1Len <= |disk|
    && forall k: nat :: k < h.l1Len ==> SeRowPresent(h, disk, k, DivCeil(h.sectors, h.clusterSectors))
  }

  lemma SeRowsBeyond(h: SeMeta, disk: seq<nat>, k: nat, total: nat)
    requires h.l1Word + h.l1Len <= |disk| && (k < h.l1Len ==> total <= k * h.l2Len)
    ensures forall j: nat :: k <= j < h.l1Len ==> SeRowPresent(h, disk, j, total)
  {
    forall j: nat | k <= j < h.l1Len ensures SeRowPresent(h, disk, j, total) {
      MulMonotone(k, j, h.l2Len);
    }
  }

  // The first k rows are in the table, which holds the grains below cur.
  ghost predicate SeSoFar(h: SeMeta, disk: seq<nat>, k: nat, cur: nat, total: nat, table: map<nat, nat>)
    requires h.l2Len > 0 && h.l1Word + h.l1Len <= |disk|
  {
    && k <= h.l1Len && cur == Min(k * h.l2Len, total) && Flat(table, cur, SeLookup(h, disk))
    && forall j: nat :: j < k ==> SeRowPresent(h, disk, j, total)
  }

  // One turn of the directory loop.
  method ReadSeRow(h: SeMeta, disk: seq<nat>, k: nat, cur: nat, total: nat, table0: map<nat, nat>)
    returns (r: Result<map<nat, nat>, TableError>)
    requires h.l2Len > 0 && k < h.l1Len && h.l1Word + h.l1Len <= |disk| && cur < total
    requires SeSoFar(h, disk, k, cur, total, table0)
    ensures r.Ok? <==> SeRowPresent(h, disk, k, total)
    ensures r.Ok? ==> SeSoFar(h, disk, k + 1, cur + Min(h.l2Len, total - cur), total, r.value)
  {
    var row := DecodeTable(h, disk, k, total);
    if row.Err? {
      return Err(row.error);
    }
    var table := AddRow(table0, cur, row.value, SeLookup(h, disk));
    RowStep(k, h.l2Len, total);
    r := Ok(table);
  }

  lemma SeDone(h: SeMeta, disk: seq<nat>, k: nat, cur: nat, table: map<nat, nat>)
    requires h.l2Len > 0 && h.clusterSectors > 0 && h.l1Word + h.l1Len <= |disk|
    requires var total := DivCeil(h.sectors, h.clusterSectors);
             SeSoFar(h, disk, k, cur, total, table) && (k == h.l1Len || cur >= total)
    ensures SeThere(h, disk) && Flat(table, DivCeil(h.sectors, h.clusterSectors), SeLookup(h, disk))
  {
    var total := DivCeil(h.sectors, h.clusterSectors);
    FlatWhole(h.l1Len, h.l2Len, SeLookup(h, disk), table, cur, total);
    SeRowsBeyond(h, disk, k, total);
  }

  /** `read_grain_table_sesparse` */
  method ReadSeTable(h: SeMeta, disk: seq<nat>) returns (r: Result<map<nat, nat>, TableError>)
    requires h.l2Len > 0 && h.clusterSectors > 0
    ensures r.Ok? <==> SeThere(h, disk)
    ensures r.Ok? ==> Flat(r.value, DivCeil(h.sectors, h.clusterSectors), SeLookup(h, disk))
  {
    var l1 := ReadWords(disk, h.l1Word, h.l1Len);
    if l1.None? {
      return Err(ReadFailed);
    }
    var total := DivCeil(h.sectors, h.clusterSectors);
    var table: map<nat, nat> := map[];
    var cur: nat, k: nat := 0, 0;
    while k < h.l1Len && cur < total
      invariant SeSoFar(h, disk, k, cur, total, table)
      decreases h.l1Len - k
    {
      var next := ReadSeRow(h, disk, k, cur, total, table);
      if next.Err? {
        return Err(next.error);
      }
      table := next.value;
      cur := cur + Min(h.l2Len, total - cur);
      k := k + 1;
    }
    SeDone(h, disk, k, cur, table);
    r := Ok(table);
  }
}
