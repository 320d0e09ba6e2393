/**
 Sparse extents from their headers and grain tables (`read_extent` of
 vmdk/src/extents.rs): which sectors such an extent provides, and from where.
 */
module VmdkSparse {
  import opened Basics
  import opened Arith
  import opened VmdkImage
  import T = VmdkTables
  import L = VmdkTableBytes

  datatype Header = V3(h3: T.Vmdk3Header) | V4(h4: T.Vmdk4Header)

  function MetaOf(h: Header): Option<T.SparseMeta> {
    match h
    case V3(h3) => T.FromVmdk3(h3)
    case V4(h4) => T.FromVmdk4(h4)
  }

  // The extent owns exactly the sectors of grains that have an entry, and each byte comes from its grain's entry.
  ghost predicate FollowsTable(desc: ExtentDesc, upto: nat, entry: nat -> Option<nat>) {
    && desc.backing.SparseFile? && desc.backing.grainSize > 0
    && (forall start: nat, s: nat :: Provides(Placed(start, desc), s) <==>
          start <= s < start + desc.sectors
          && (s - start) / desc.backing.grainSize < upto && entry((s - start) / desc.backing.grainSize).Some?)
    && (forall start: nat, o: nat :: Provides(Placed(start, desc), o / SECTOR_SIZE) ==>
          FromEntry(Placed(start, desc), o, entry))
  }

  ghost predicate FromEntry(p: Placed, o: nat, entry: nat -> Option<nat>)
    requires p.desc.backing.SparseFile? && p.desc.backing.grainSize > 0 && Provides(p, o / SECTOR_SIZE)
  {
    && p.start * SECTOR_SIZE <= o
    && var (g, off) := GrainAndOffset(o - p.start * SECTOR_SIZE, p.desc.backing.grainSize * SECTOR_SIZE);
       entry(g).Some? && Content(p, o) == GrainByte(p.desc.backing, entry(g).value, off)
  }

  // The grain a byte of the extent falls in, and where in it.
  function GrainAndOffset(local: nat, grainBytes: nat): (nat, nat) {
    if grainBytes == 0 then (0, 0) else (local / grainBytes, local % grainBytes)
  }

  lemma TableFollowed(desc: ExtentDesc, upto: nat, entry: nat -> Option<nat>)
    requires desc.backing.SparseFile? && desc.backing.grainSize > 0 && T.Flat(desc.backing.grains, upto, entry)
    ensures FollowsTable(desc, upto, entry)
  {
    forall start: nat, o: nat | Provides(Placed(start, desc), o / SECTOR_SIZE)
      ensures FromEntry(Placed(start, desc), o, entry)
    {
      GrainOf(Placed(start, desc), o);
    }
  }

  lemma MetaHasTables(header: Header)
    requires MetaOf(header).Some?
    ensures MetaOf(header).value.l2Len > 0
    ensures MetaOf(header).value.clusterSectors == 0 <==> header.V3? && header.h3.granularity == 0
  {
  }

  /** A sparse extent: the header's checks, its grain table, and the storage that reads through it. */
  method ReadSparseExtent(header: Header, file: File, sectors: nat) returns (r: Result<ExtentDesc, T.TableError>)
    ensures r.Ok? <==> var m := MetaOf(header);
                       m.Some? && m.value.l2Len > 0 && L.SparseTableThere(m.value, file.bytes)
    ensures r.Ok? ==> r.value.sectors == sectors && r.value.backing.SparseFile? && r.value.backing.file == file
    ensures r.Ok? ==> var m := MetaOf(header).value;
                      && r.value.backing.grainSize == m.clusterSectors
                      && r.value.backing.compressed == m.compressed && r.value.backing.zeroedEntry == m.hasZeroGrain
                      && FollowsTable(r.value, T.TotalGrains(m), T.SparseLookup(m, T.Words(file.bytes)))
                      && L.SparseTableIs(m, file.bytes, r.value.backing.grains)
    ensures r == Err(T.DivisionByZero) ==> header.V3? && header.h3.granularity == 0
  {
    var meta := MetaOf(header);
    if meta.None? {
      return Err(T.BadEntry);
    }
    MetaHasTables(header);
    var m := meta.value;
    L.SparseThereBytes(m, file.bytes);
    var table := T.ReadSparseTable(m, T.Words(file.bytes));
    if table.Err? {
      return Err(table.error);
    }
    var desc := ExtentDesc(sectors, SparseFile(file, table.value, m.clusterSectors, m.compressed, m.hasZeroGrain));
    TableFollowed(desc, T.TotalGrains(m), T.SparseLookup(m, T.Words(file.bytes)));
    L.SparseTableBytes(m, file.bytes, table.value);
    r := Ok(desc);
  }

  // ---- SESPARSE ----

  /** The same for SESPARSE, whose grains are never compressed and whose zeroed grains are always honoured. */
  method ReadSeSparseExtent(header: T.SeSparseHeader, file: File, sectors: nat)
    returns (r: Result<ExtentDesc, T.TableError>)
    ensures r.Ok? <==> var m := T.FromSeSparse(header);
                       && m.Some? && m.value.l2Len > 0 && m.value.clusterSectors > 0
                       && L.SeTableThere(m.value, file.bytes)
    ensures r.Ok? ==> r.value.sectors == sectors && r.value.backing.SparseFile? && r.value.backing.file == file
    ensures r.Ok? ==> var m := T.FromSeSparse(header).value;
                      && r.value.backing.grainSize == m.clusterSectors
                      && !r.value.backing.compressed && r.value.backing.zeroedEntry
                      && FollowsTable(r.value, DivCeil(m.sectors, m.clusterSectors), T.SeLookup(m, T.Longs(file.bytes)))
                      && L.SeTableIs(m, file.bytes, r.value.backing.grains)
  {
    var meta := T.FromSeSparse(header);
    if meta.None? {
      return Err(T.BadEntry);
    }
    T.SeSparseGeometry(header);
    var m := meta.value;
    L.SeThereBytes(m, file.bytes);
    var table := T.ReadSeTable(m, T.Longs(file.bytes));
    if table.Err? {
      return Err(table.error);
    }
    var desc := ExtentDesc(sectors, SparseFile(file, table.value, m.clusterSectors, false, true));
    TableFollowed(desc, DivCeil(m.sectors, m.clusterSectors), T.SeLookup(m, T.Longs(file.bytes)));
    L.SeTableBytes(m, file.bytes, table.value);
    r := Ok(desc);
  }
}
