# Verified model of the disk image readers

The repository reads forensic disk images (VMDK with snapshot chains, E01, split
raw) from local files or object storage, through a block cache, and exports them
over the Network Block Device protocol. This project models the parts of it whose
correctness rests on an argument across several functions, and proves those
arguments in Dafny. `dafny verify dfyconfig.toml` checks everything.

| files | component |
|---|---|
| `Basics.dfy`, `Arith.dfy` | options and results, binary search, facts about division |
| `Spans.dfy` | the interval maps behind the VMDK overlay |
| `VmdkImage.dfy` | what a snapshot chain means, sector by sector and byte by byte |
| `VmdkOpen.dfy`, `VmdkReader.dfy`, `VmdkRead.dfy` | opening a chain, and reading from it |
| `VmdkBytes.dfy`, `VmdkChain.dfy` | which byte of which file an image byte is, and which chains open, written out independently |
| `VmdkHidden.dfy` | an image that an extent of no sectors keeps from opening |
| `VmdkTables.dfy`, `VmdkTableBytes.dfy`, `VmdkSparse.dfy` | sparse headers, grain tables, their bytes in the file, and the extents made of them |
| `FoyerBlocks.dfy`, `FoyerMachine.dfy`, `FoyerRuns.dfy`, `FoyerFaults.dfy`, `FoyerProgress.dfy` | the block cache under every interleaving |
| `FoyerTwice.dfy`, `FoyerOnce.dfy`, `FoyerSequential.dfy` | when a group is read from its source twice, and when not |
| `FoyerCache.dfy`, `FoyerReads.dfy` | the block cache for one caller, with its loops and buffers, and reads over interleaved calls |
| `NbdWire.dfy`, `NbdServer.dfy`, `NbdHandshake.dfy`, `NbdBytes.dfy`, `NbdSession.dfy` | the NBD session, and its bytes on the wire |
| `MultiHasher.dfy` | the double-buffering hash threads |
| `ChunkCache.dfy`, `E01Chunks.dfy`, `E01Bytes.dfy`, `E01Reader.dfy` | chunked E01 reads, and where their bytes stand in the segment files |
| `SegNames.dfy`, `SegDiscovery.dfy`, `RawSegments.dfy` | split raw images |

## Main results

- **VMDK.** For every chain of images, the table that `open` builds tiles the image
  exactly and sends each byte to the first extent in chain order that provides its
  sector, or to a zero extent (`VmdkReader.Open`); the early stop changes nothing.
  A chain opens if some front part of it is usable, provides every sector and has no
  extent that does harm (below), or if it is usable to its end; if no extent does harm,
  only then.
  Every read returns the bytes of that overlay (`VmdkRead.ReadAtOffset`, whose
  precondition is what `Open` establishes), and these are the bytes that stand at the
  right offsets of the extent files (`VmdkBytes.ImageByteShows`,
  `VmdkTableBytes.SeTableBytes`).
- **Cache.** In every interleaving of calls, fetches, failures, evictions and the
  phase flip: a successful call returns the source's bytes, a call fails only after a lookup
  for its block failed or a source read of its group failed or stopped short of the block
  (`FoyerFaults.RunFailsByFault`), at most one unretired
  fetch per group (with the exception below), each with one owner, permits conserved,
  no deadlock, finitely many steps until every call has returned, and a key enters the
  metadata tier only as the own key of a call that began in the metadata phase
  (`FoyerRuns.RunMetaEntry`).
- **NBD.** For every client byte stream and every image, the server writes one right
  reply per request, in order, and nothing after a broken-off payload; a client that
  negotiates, sends requests and disconnects decodes exactly those
  (`NbdSession.WholeSession`). What is accepted, answered and replied is also stated in
  literal bytes (`NbdBytes`).
- **MultiHasher.** Any number of workers, any schedule: no deadlock, the returned buffer
  is referred to by nobody else, every digest takes in all updates in order.
- **E01.** Any order of the chunk tasks gives the image's bytes; a read ends with an
  error only over a corrupt chunk and unwinds only over a payload that is too short;
  the decoded-chunk cache is a bounded recency list and does not change results.
- **Raw.** Reads through the cache return the slice of the concatenation. For every
  finite set of files discovery terminates, reports only absent paths, and returns a
  sequence with nothing missing entire; what it can leave out or overlook is below.

## Where the code falls short of a property

Each of these is stated with its exact condition.

- `remove_span` searches for the next span strictly above the end of the last one
  (vmdk/src/spans.rs:28-33) and so walks past a span that touches it. The result is the
  set difference if and only if `Spans.SkipFree` holds of the map and the range
  (`Spans.RemoveSpan`); `Spans.TouchingSpansAreSkipped` is an instance. From spans that
  do not touch, the result has touching spans exactly when the removed range is empty
  and lies inside a span.
- That does happen in `open`: a descriptor may list an extent of zero sectors
  (vmdk/src/extent_description.rs), whose empty span splits an uncovered span in two. A
  later removal can leave the second half behind, so that a covered image does not stop
  the walk along the chain, and a missing or broken ancestor that is not needed makes
  `open` fail. `VmdkHidden.EmptyExtentHidesCoverage` gives such an image for every two
  positive sizes; `VmdkHidden.OpensWithoutIt` is the same image without the empty extent.
  Lookups stay right all the same. An empty extent does no harm at an end of the image or
  next to a sector that an extent before it provides (`VmdkReader.Harmless`). As long as
  none does, nothing is uncovered exactly when every sector has a provider
  (`VmdkReader.UncoveredExactly`), and `open` succeeds exactly when `VmdkReader.Opens` says.
- The VMDK3 conversion accepts a granularity of zero (vmdk/src/header.rs:194-213), and
  reading that extent's grain table then divides by zero: `VmdkTables.ReadSparseTable`
  fails that way exactly for such a header with a readable directory.
- "Each group is fetched once" is not true of concurrent calls: a fetch leaves the latch
  before its owner inserts the siblings (imagesource/src/foyercache.rs:145-152 and
  430-446), and a block can be fetched for either tier. With no eviction and no failure, a
  group can be fetched twice if and only if the cache has two tiers or the group has two
  blocks in its source (`FoyerOnce.FetchedTwiceExactly`). When calls do not overlap it
  never is, in any cache (`FoyerSequential.SequentialReadsOnce`).
- At most one fetch of a group is under way at a time (`FoyerRuns.RunSingleFetch`) unless the
  cache has two tiers and groups of one block. A comment says that the latch serves the
  two-tier cache in that case (imagesource/src/foyercache.rs:398-402), but the code returns
  before it: `FoyerTwice.BlockFetchedByBothTiers` gives a run for every block.
- Reading an uncompressed E01 chunk that does not decode, without the decoded-chunk cache,
  does not give the worker its buffer back (e01/src/readworker.rs:169-180;
  `E01Chunks.LosesBuffer`). The worker returns to the pool and panics on its next chunk,
  whatever the image (`E01Chunks.LostBufferPanics`).
- An uncompressed E01 chunk may decode to a payload shorter than the part of the image it
  stands for. Reading past its end panics (e01/src/readworker.rs:236 and 263), and the
  workers checked out for that read are not returned to the pool. If no chunk of the range
  is corrupt, this happens exactly when some byte of the range is missing from its chunk
  (`E01Reader.RangeEnd`, in `E01Reader.Reader.ReadAtOffset`); it never does if every
  chunk covers its part (`E01Reader.CoveredMeansNoneMissing`).
  `E01Reader.ShortPayloadUnwinds` reads such an image.
- The digit width of a segment name is documented as held fixed
  (rawdisk/src/seg_path.rs:83-84), but the walk goes on from `d.99` to `d.100`. Naming
  `d.100` does not find the same image: `SegDiscovery.AnyMemberFindsTheRun` holds exactly
  for the members whose number fits the width, and every width has a sequence that
  outgrows it (`SegDiscovery.RunOutgrowsItsWidth`).
- Discovery looks one number past the first missing one. Named by a segment before it, a
  sequence opens as the part before the hole exactly when the number after the hole is
  missing too (`SegDiscovery.FrontPartOpens`), and then leaves out whatever is above
  (`SegDiscovery.LeavesOutExactly`); `SegDiscovery.GapIsOverlooked` gives such files.
- When segment 1 is lost from a sequence that starts there and two or more are left, this is
  reported exactly when the named segment has a leading zero; otherwise the named segment
  opens as a lone file (`SegDiscovery.LostStartIsNamed`).

## Model

| member | source | states |
|---|---|---|
| `Spans.InsertSpan` | vmdk/src/spans.rs:54-114 | terminates on every disjoint map; points already covered keep their value, exactly the uncovered points of the range get the new one; a canonical map stays canonical |
| `Spans.WriteToNext` | vmdk/src/spans.rs:77-113 | one write up to or through the next span overlays exactly that stretch and keeps the map disjoint and canonical |
| `Spans.RemoveSpan` | vmdk/src/spans.rs:6-52 | never loses a point outside the range nor invents one; equals the set difference if and only if no span is walked past; from spans apart the result is apart exactly when the range is not empty or does not fall inside a span |
| `Spans.EmptyRemovalHides` | vmdk/src/spans.rs:6-52 | after an empty removal inside a span, a removal that begins below in that span always leaves something of its range behind |
| `Spans.ApartSkipFree` | vmdk/src/spans.rs:28-33 | on maps without touching spans nothing is walked past |
| `Spans.TouchingSpansAreSkipped` | vmdk/src/spans.rs:28-33 | a concrete disjoint map and range on which a span is walked past |
| `Spans.CanonicalUnique` | vmdk/src/spans.rs:77-113 | two canonical maps with equal lookups are equal |
| `VmdkOpen.SpansOf` | vmdk/src/extents.rs:36-65 | whatever order the grains come in, the spans cover exactly the sectors the extent provides, clamped to its range |
| `VmdkOpen.AddExtent` | vmdk/src/vmdk_reader.rs:311-315 | owners are kept, the extent takes exactly the free sectors it provides; covered and uncovered remain a partition of the image unless it yields an empty span between two sectors without an owner |
| `VmdkOpen.QuietMeans` | vmdk/src/spans.rs:6-52 | an empty span falls inside an uncovered span exactly when the sectors on both sides of it have no owner |
| `VmdkOpen.GrainOrderIrrelevant` | vmdk/src/extents.rs:43-58 | the canonical span map does not depend on the iteration order of the grains |
| `VmdkOpen.ReadExtents` | vmdk/src/extents.rs:295-357 | extents lie end to end and each with a file has a source slot that no other extent and no earlier source has; fails exactly when one is unreadable |
| `VmdkReader.AddImage` | vmdk/src/vmdk_reader.rs:310-328 | after any prefix of an image's extents, lookup is the first provider in chain order; stops exactly when nothing is listed as uncovered; source indices stay in step |
| `VmdkReader.UncoveredExactly` | vmdk/src/vmdk_reader.rs:324-327 | nothing listed as uncovered means every sector has a provider, and conversely as long as no empty extent does harm |
| `VmdkReader.TakeImage` | vmdk/src/vmdk_reader.rs:280-328 | one image of the chain folded in, with the partition and the slots of earlier extents preserved |
| `VmdkReader.CompletePrefixDecides` | vmdk/src/vmdk_reader.rs:324-327 | once nothing is uncovered, the rest of the chain cannot change any owner |
| `VmdkReader.ZeroFill` | vmdk/src/vmdk_reader.rs:337-349 | every sector of the image has an owner: its first provider, else a zero extent |
| `VmdkReader.TableServes` | vmdk/src/vmdk_reader.rs:351-355 | the byte-addressed table tiles the image without gap or overlap and routes every byte to its owner |
| `VmdkReader.Gather` | vmdk/src/vmdk_reader.rs:250-334 | the loop over the chain, cycles and size mismatches included, decides every sector as the whole chain would; it succeeds on every chain with a usable front part that provides every sector and has no harmful extent, whatever comes after |
| `VmdkReader.Open` | vmdk/src/vmdk_reader.rs:250-368 | the reader serves the overlay of the whole chain; opening succeeds if some front part is usable, provides every sector and has no harmful extent, or the whole chain is usable, and exactly then if no extent of the chain is harmful |
| `VmdkReader.SoundOpens` | vmdk/src/vmdk_reader.rs:250-334 | a chain that is usable to its end always opens |
| `VmdkReader.HarmlessOpens` | vmdk/src/vmdk_reader.rs:310-334 | without harmful extents the sufficient and the necessary condition coincide |
| `VmdkHidden.EmptyExtentHidesCoverage` | vmdk/src/vmdk_reader.rs:311-327 | for all sizes, an image whose child and parent provide every sector is refused for a missing grandparent because of an empty extent |
| `VmdkHidden.OpensWithoutIt` | vmdk/src/vmdk_reader.rs:311-327 | the same image opens without the empty extent |
| `VmdkImage.GrainOf` | vmdk/src/storage.rs:151-175 | a byte of a provided sector always falls in a grain of the table |
| `VmdkImage.FirstProviderPrefix` | vmdk/src/vmdk_reader.rs:310-315 | earlier images of the chain win over later ones |
| `VmdkBytes.ImageByteShows` | vmdk/src/storage.rs:63-222 | byte o of the image over the bytes of the files, both directions: of the first extent with data for it, the byte of a flat file at the offset plus the distance, the byte of a plain grain at the sector of its table entry, zero for the marker entry, the inflated byte or zero past its end for a compressed grain; zero where no extent has data; none where a file is too short or corrupt |
| `VmdkBytes.DecompressHolds` | vmdk/src/storage.rs:83-148 | a compressed grain expands exactly if its size field, zlib header and stream are in the file, the header is right, the size is at most two grains and the output at most one |
| `VmdkBytes.PlaceEndToEnd` | vmdk/src/extents.rs:295-357 | the extents of an image keep their order, begin where the one before ends, and end at its size |
| `VmdkBytes.ChainFollows` | vmdk/src/vmdk_reader.rs:250-334 | the chain is the image, its parent, the parent of that, up to a missing image, one met before, or one without parent |
| `VmdkBytes.OverlayInOrder` | vmdk/src/vmdk_reader.rs:310-315 | the overlay lists the extents of each image where its turn in the chain is |
| `VmdkChain.OpensExactly` | vmdk/src/vmdk_reader.rs:250-334 | the condition for opening in terms of the chain: some front part of it has readable extents and one size throughout, and either has data for every sector or is the whole chain down to an image without parent |
| `VmdkRead.ReadGrain` | vmdk/src/storage.rs:83-208 | zeroed, compressed and plain grains yield exactly their bytes; short deflate output reads as zeros, overlong output is refused |
| `VmdkRead.ReadCompressed` | vmdk/src/storage.rs:83-148 | the headers read and checked in turn; what the stream expands to, padded with zeros to a grain; fails only where the file is short, the header wrong or the output too long |
| `VmdkRead.ReadSparse` | vmdk/src/storage.rs:151-208 | a non-empty front part of the request, at most to the end of one grain, with the extent's bytes |
| `VmdkRead.ReadFlat` | vmdk/src/storage.rs:212-222 | the whole request from the flat file at its offset |
| `VmdkRead.ReadExtent` | vmdk/src/storage.rs:63-69 | every storage kind makes progress, writes only its slice and delivers what the extent holds |
| `VmdkRead.FindSpan` | vmdk/src/vmdk_reader.rs:385-392 | the search always finds a span, and the one that holds the offset |
| `VmdkRead.ReadAtOffset` | vmdk/src/vmdk_reader.rs:370-415 | clamped length, every byte that of the overlay and the one that stands in the files at its place, rest of the buffer untouched, span index always in the table, error exactly beyond the end; succeeds whenever the files are healthy |
| `VmdkTables.CheckedProductExact` | vmdk/src/header.rs:14-16 | the true product is returned exactly when every product along the way fits 64 bits, zero factors included |
| `VmdkTables.Vmdk4Fields` | vmdk/src/header.rs:219-264 | exactly which VMDK4 headers are accepted, and which fields and which bits of the four flag bytes decide what |
| `VmdkTables.Vmdk3Fields` | vmdk/src/header.rs:191-217 | exactly which VMDK3 headers are accepted, and what is taken from their fields |
| `VmdkTables.SeSparseFields` | vmdk/src/header.rs:277-328 | exactly which SESPARSE headers are accepted: one geometry and at most 65536 sectors of directory; and what is taken from their fields |
| `VmdkTables.Vmdk4ReachesEveryGrain` | vmdk/src/header.rs:219-258 | accepted headers have exactly the directory entries needed to reach every grain, within the size cap |
| `VmdkTables.Vmdk3AcceptsZeroGranularity` | vmdk/src/header.rs:194-213 | every VMDK3 header with granularity zero is accepted |
| `VmdkTables.SeSparseGeometry` | vmdk/src/header.rs:275-318 | accepted SESPARSE headers have the fixed geometry and stay within the cap; their directory reaches every grain exactly if it is as large as the capacity |
| `VmdkTables.ReadSparseTable` | vmdk/src/extents.rs:72-126 | the flat table maps a grain exactly when both levels are non-zero, to the second-level entry; fails exactly on missing tables or zero granularity |
| `VmdkTables.ReadSeTable` | vmdk/src/extents.rs:128-228 | the same for SESPARSE, failing exactly on missing tables or corrupt entries |
| `VmdkTables.DecodeTable` | vmdk/src/extents.rs:158-222 | one second-level table decodes to the entries of its grains, or is refused exactly when something in it is missing or corrupt |
| `VmdkTables.GrainIndexBijection` | vmdk/src/extents.rs:195-212 | decoding an allocated entry is a bijection between its 60 payload bits and the 60-bit indices |
| `VmdkTables.MasksAreDivisions` | vmdk/src/extents.rs:165-212 | the masks and shifts on 64-bit entries are the divisions and remainders that the model uses |
| `VmdkTableBytes.SparseTableBytes` | vmdk/src/extents.rs:72-126 | the flat table over the bytes of the file: entry by entry the little-endian sector number that the two levels lead to |
| `VmdkTableBytes.SparseThereBytes` | vmdk/src/extents.rs:72-126 | the tables can be read exactly when the file is long enough for the directory and for every table in use |
| `VmdkTableBytes.SeTableBytes` | vmdk/src/extents.rs:128-228 | the flat SESPARSE table over the bytes of the file: the kind is the high nibble of the last byte of an entry; an allocated grain's number is byte 6, the low nibble of byte 7 and above them the low six bytes; kinds 1 and 2 are the zero marker, eight zero bytes a hole |
| `VmdkTableBytes.SeThereBytes` | vmdk/src/extents.rs:128-228 | they can be read exactly when the file is long enough, directory entries in use have kind 1 and table entries in use are zero or of kind 1 to 3 |
| `VmdkSparse.ReadSparseExtent` | vmdk/src/extents.rs:243-259 | from header and file to the extent: made exactly when the header is accepted and its tables are in the file; its table holds what the bytes of the file say, it owns exactly the sectors of grains with an entry at both levels, each byte comes from its grain's entry; only VMDK3 headers without granularity divide by zero |
| `VmdkSparse.ReadSeSparseExtent` | vmdk/src/extents.rs:260-275 | the same for SESPARSE, from the 8-byte entries of the file |
| `FoyerBlocks.GroupSizeAligned` | imagesource/src/foyercache.rs:53-55 | the group is a positive whole number of blocks, the largest within the request; aligning twice changes nothing |
| `FoyerBlocks.CutBlock` | imagesource/src/foyercache.rs:430-446 | a block cut out of a group's bytes, however short the read, is the source's block |
| `FoyerBlocks.CutsKey` | imagesource/src/foyercache.rs:430-446 | cutting a group's bytes gets up to and over every block that they reach the end of |
| `FoyerBlocks.DemandedIsInGroup` | imagesource/src/foyercache.rs:380-386 | every block of the grid is among the blocks of its aligned group |
| `FoyerMachine.PermitKept` | imagesource/src/fetch_limit.rs:20-52 | every step conserves permits; a source read holds one, a waiting call none |
| `FoyerMachine.LatchKept` | imagesource/src/foyercache.rs:104-167 | the latch lists exactly the unretired fetches, one per group |
| `FoyerMachine.OwnerKept` | imagesource/src/foyercache.rs:104-167 | every unretired fetch keeps exactly one owner |
| `FoyerMachine.FlightKept` | imagesource/src/foyercache.rs:519-589 | per tier and key one call leads, and followers wait on a call for the same block |
| `FoyerRuns.CoherenceKept` | imagesource/src/foyercache.rs:369-458 | every step keeps both tiers, every fetch and every call coherent with the sources |
| `FoyerRuns.MetaKept` | imagesource/src/foyercache.rs:519-589 | what is in or bound for the metadata tier was itself routed in the metadata phase |
| `FoyerRuns.MetaEntry` | imagesource/src/foyercache.rs:519-589 | a key enters the metadata tier as the own key of the call that adds it, never as a sibling, and with the bytes of its block |
| `FoyerRuns.MetaCallLeaves` | imagesource/src/foyercache.rs:545-577 | conversely, a call of the metadata phase that gets its block by itself, by hit, promotion or fetch, leaves it in the metadata tier |
| `FoyerRuns.RunMetaEntry` | imagesource/src/foyercache.rs:519-589 | in every run, a key that enters after the flip is the own key of a call that was already bound for the tier at every point since the flip; no call that begins after it adds one |
| `FoyerRuns.BoundSince` | imagesource/src/foyercache.rs:519-589 | a call bound for the metadata tier read the phase before the flip and has been bound ever since |
| `FoyerRuns.RunInv` | imagesource/src/foyercache.rs:104-167 | all the invariants hold in every state of every run |
| `FoyerRuns.RunServesSource` | imagesource/src/foyercache.rs:519-589 | in every run a successful call delivers exactly its block of the source |
| `FoyerFaults.RunFailsByFault` | imagesource/src/foyercache.rs:369-458 | in every run a call fails only after a lookup for its block failed, or a source read of its group failed or stopped short of its block; never because of evictions, the flip or other calls |
| `FoyerFaults.SoundKept` | imagesource/src/foyercache.rs:369-458 | without such a fault every step keeps all calls for the block from failing |
| `FoyerRuns.ShapeKept` | imagesource/src/foyercache.rs:380-405 | keys stay on the block grid and the latch is used exactly for groups of several blocks |
| `FoyerRuns.RunSingleFetch` | imagesource/src/foyercache.rs:72-167 | in every run a group has at most one unretired fetch, unless there are two tiers and one block per group |
| `FoyerRuns.RunOneOwner` | imagesource/src/foyercache.rs:104-167 | in every run an unretired fetch has exactly one owner, and a finished or failed one is no longer in the latch, so the next miss starts fresh |
| `FoyerRuns.RunPermits` | imagesource/src/fetch_limit.rs:20-52 | in every run free plus held permits are constant, reads under way never exceed them, joiners hold none |
| `FoyerRuns.RunMetaFrozen` | imagesource/src/foyercache.rs:519-589 | so after the phase flip the metadata tier holds only keys routed before it, for the rest of the run |
| `FoyerRuns.RunNeverStuck` | imagesource/src/foyercache.rs:104-167 | while any call is unfinished some call or fetch can step |
| `FoyerProgress.WorkRunsOut` | imagesource/src/foyercache.rs:104-167 | between new calls every step of a call or fetch uses up some of a finite amount of work, under any schedule and with evictions and the flip interleaved |
| `FoyerProgress.DoneWhenIdle` | imagesource/src/foyercache.rs:104-167 | when no step is left every call has returned |
| `FoyerTwice.GroupReadTwice` | imagesource/src/foyercache.rs:145-152 | in either kind of cache, for any two calls that are not for one block of a single tier there is a run, without eviction or failure, that reads their group twice |
| `FoyerOnce.FetchedTwiceExactly` | imagesource/src/foyercache.rs:380-446 | without eviction or failure a group can be fetched twice exactly when the cache has two tiers or the group has two blocks in its source |
| `FoyerOnce.AloneReadOnce` | imagesource/src/foyercache.rs:519-589 | in every calm run of a single tier a group with one block in the source is fetched at most once, and from then on it is resident or on its way |
| `FoyerSequential.SequentialReadsOnce` | imagesource/src/foyercache.rs:380-446 | in every calm run whose calls do not overlap no group is fetched twice, and between calls every group fetched is resident whole |
| `FoyerTwice.BlockFetchedByBothTiers` | imagesource/src/foyercache.rs:390-418 | with two tiers and one block per group, for every block there is a run with two unretired fetches of it |
| `FoyerCache.Cache.MakeFetch` | imagesource/src/foyercache.rs:369-458 | one source read per call; whatever comes back, the tiers stay coherent and the demanded block is right; a block is returned exactly if the read came back and reaches the end of the demanded block; without failures and evictions the whole group becomes resident |
| `FoyerCache.Cache.RouteBlock` | imagesource/src/foyercache.rs:519-589 | hit, promotion or fetch by phase; returns the source's block; in the metadata phase the routed key, and no other, enters the metadata tier and does not enter the content tier; fetches exactly on a miss in both tiers, and succeeds exactly on a hit or if the fetch held the block |
| `FoyerCache.Cache.RouteLeaders` | imagesource/src/foyercache.rs:648-661 | only groups the read touches are fetched; if the last read of a source did not hold its block, some demanded block is not resident, so that the next pass reads for it again; in a calm run every block the read demands is resident afterwards |
| `FoyerCache.Cache.RouteAll` | imagesource/src/foyercache.rs:663-680 | the demanded blocks in order, exactly if every source read on the way held its block, whatever is evicted; in a calm run no source is read if they were resident |
| `FoyerCache.Cache.Read` | imagesource/src/foyercache.rs:603-699 | success fills the buffer with exactly the source's bytes, on single- and multi-block paths; it succeeds exactly if no source was read or the last read held the block it was made for, so always with a healthy source, whatever is evicted; only touched groups are fetched; only demanded keys enter the metadata tier |
| `FoyerCache.FillFromBlocks` | imagesource/src/foyercache.rs:663-694 | the copy loop assembles the range from its blocks |
| `FoyerReads.RepliesAreBlocks` | imagesource/src/foyercache.rs:663-680 | in every run the replies to the calls of a multi-block read are the blocks of the source in order |
| `FoyerReads.FillFromReplies` | imagesource/src/foyercache.rs:663-694 | a read whose block calls have all returned fills its buffer with the source, however they were interleaved |
| `FoyerCache.FillFromBlock` | imagesource/src/foyercache.rs:487-508 | the range is copied, or refused exactly when the block is too short and then nothing is written |
| `FoyerCache.CalmSession` | imagesource/src/foyercache.rs:603-755 | from an empty cache, any sequence of reads with readahead and phase flips returns the source's bytes and never reads a group twice |
| `FoyerCache.WithItsGroup` | imagesource/src/foyercache.rs:430-446 | in a calm run a block is resident as soon as another of its group is |
| `FoyerCache.MissIsNew` | imagesource/src/foyercache.rs:380-446 | in a calm run a miss is always in a group that was never fetched |
| `FoyerCache.PickWindow` | imagesource/src/foyercache.rs:701-746 | the readahead picks missing blocks of the window, one per group in order, and while permits last leaves no group with a missing block out |
| `FoyerCache.RangeIsWindow` | imagesource/src/foyercache.rs:767-776 | the block range holds exactly the blocks of the source that begin at or after the end of the read and within the readahead distance of it |
| `FoyerCache.Cache.Readahead` | imagesource/src/foyercache.rs:701-746 | the picks lie in the block range after the read, clamped to the source, one per group, and cost one permit each |
| `FoyerCache.Cache.ReadThenPrefetch` | imagesource/src/foyercache.rs:603-755 | a read and then its prefetches; with permits to spare the whole window is resident afterwards |
| `NbdWire.FieldRoundTrip` | diskimage-nbd/src/nbd_protocol.rs:88-94 | big-endian fields decode to what was encoded |
| `NbdWire.RequestRoundTrip` | diskimage-nbd/src/nbd_protocol.rs:289-339 | parsing undoes encoding, whatever follows on the stream |
| `NbdWire.RequestBytes` | diskimage-nbd/src/nbd_protocol.rs:289-339 | what is parsed is exactly what stands at the front of the stream, payload included |
| `NbdWire.RequestsRoundTrip` | diskimage-nbd/src/nbd_protocol.rs:289-339 | the requests of a stream are those that were sent, in order |
| `NbdWire.RepliesRoundTrip` | diskimage-nbd/src/nbd_protocol.rs:88-94 | a client recovers every reply in order and is left with exactly what follows them |
| `NbdBytes.FieldsAre` | diskimage-nbd/src/nbd_protocol.rs:70-94 | fields of two, four and eight bytes, high byte first, byte by byte |
| `NbdBytes.FieldsRead` | diskimage-nbd/src/nbd_protocol.rs:289-305 | the number that the bytes of a field spell, high byte first |
| `NbdBytes.RequestLayout` | diskimage-nbd/src/nbd_protocol.rs:297-310 | exactly which bytes are a request, and which of them are its type, handle, offset, length and payload |
| `NbdBytes.ReplyLayout` | diskimage-nbd/src/nbd_protocol.rs:88-94 | the bytes of a reply |
| `NbdBytes.ReplyCodes` | diskimage-nbd/src/nbd_protocol.rs:55-64 | the error codes of right replies as numbers, case by case; a read in range fails only with the code the image gives for its first part, or 5 if it gives no bytes |
| `NbdServer.ReadRequestError` | diskimage-nbd/src/nbd_protocol.rs:55-64 | a read is admitted exactly when its length is within the limit and its range within the export |
| `NbdServer.ServeRead` | diskimage-nbd/src/nbd_protocol.rs:219-287 | an error reply, with the code the image gave for the first part of the range or 5 if it gave no bytes, or a success header followed by exactly the image's bytes, or a payload broken off where the image could not go on |
| `NbdServer.Drain` | diskimage-nbd/src/nbd_protocol.rs:342-349 | skips exactly the rejected payload, or fails when the stream is too short |
| `NbdServer.ServeOne` | diskimage-nbd/src/nbd_protocol.rs:289-339 | one request consumed whole, one right reply written |
| `NbdServer.Transmission` | diskimage-nbd/src/nbd_protocol.rs:289-339 | the output is one right reply per request of the stream in order, then at most a broken-off payload; it ends in a disconnect exactly when the stream does; the cursor ends on a request boundary |
| `NbdServer.ClientRecovers` | diskimage-nbd/src/nbd_protocol.rs:88-94 | decoding the output of a session gives back its replies and the remainder |
| `NbdHandshake.OptRoundTrip` | diskimage-nbd/src/nbd_protocol.rs:153-216 | parsing an option undoes encoding it |
| `NbdHandshake.OptionAnswered` | diskimage-nbd/src/nbd_protocol.rs:70-151 | every framed answer reads back whole, each frame echoing its option |
| `NbdBytes.AnswerLayout` | diskimage-nbd/src/nbd_protocol.rs:70-213 | the answer to every option in literal bytes: 6 and 7 get an info frame with the size and the flags 3 and an acknowledgement, 1 the same without framing and 124 zeros unless waived, 2 an acknowledgement, 3 the listing and an acknowledgement or nothing, any other the unsupported error |
| `NbdBytes.OptionLayout` | diskimage-nbd/src/nbd_protocol.rs:169-181 | an option in bytes |
| `NbdBytes.OptionsFound` | diskimage-nbd/src/nbd_protocol.rs:168-215 | the options acted on are exactly those that stand on the stream, up to the first that is 1, 2, 7 or 3 with data, or that no option follows |
| `NbdHandshake.OptsRoundTrip` | diskimage-nbd/src/nbd_protocol.rs:153-216 | options sent in order, up to the one that settles the matter, are the options found |
| `NbdHandshake.Handshake` | diskimage-nbd/src/nbd_protocol.rs:153-216 | for every client stream: accepted exactly when the flags and the option sequence call for it, the output is the greeting and the answers, and the cursor stands right after the accepting option (in literal bytes in `NbdSession.ServeConnection`) |
| `NbdSession.ServeConnection` | diskimage-nbd/src/server.rs:232-262 | the handshake, then the requests from where it left off; accepted exactly for flags 1 or 3 and options of which the last is 1 or 7, in literal bytes together with the greeting and the answers; without acceptance nothing else is sent |
| `NbdSession.WholeSession` | diskimage-nbd/src/server.rs:232-262 | a client that negotiates, sends requests and disconnects decodes one right reply to each and nothing more, or those before a payload that broke off and what there is of it |
| `NbdWire.RequestsThenDisconnect` | diskimage-nbd/src/nbd_protocol.rs:289-339 | requests followed by a disconnect are found exactly, whatever comes after |
| `MultiHasher.InvKept` | e01/src/hasher.rs:75-165 | each worker refers to exactly the buffers in flight and has hashed all but those waiting |
| `MultiHasher.RunInv` | e01/src/hasher.rs:75-165 | the invariant holds in every state of every run |
| `MultiHasher.ReturnedBufferUnshared` | e01/src/hasher.rs:119-148 | `update` hands back the buffer of the call before, and no worker or channel refers to it |
| `MultiHasher.DigestsComplete` | e01/src/hasher.rs:150-165 | when all threads are joined each has hashed the concatenation of all updates cut to their lengths |
| `MultiHasher.InputAt` | e01/src/hasher.rs:150-165 | byte j of an update lies behind the used parts of all updates before it |
| `MultiHasher.NeverStuck` | e01/src/hasher.rs:119-165 | until `update` or `finalize` returns, the caller or a worker can step |
| `MultiHasher.StepsRunOut` | e01/src/hasher.rs:119-165 | every step shrinks a natural number, so under any schedule the call returns |
| `ChunkCache.DecodedChunkCache.Get` | e01/src/readworker.rs:30-35 | returns the entry and makes it the most recent; a miss changes nothing |
| `ChunkCache.DecodedChunkCache.Insert` | e01/src/readworker.rs:37-55 | never exceeds capacity; the evicted key is the least recently used; the queue stays a duplicate-free listing of the keys in order of use |
| `ChunkCache.WithoutOrdered` | e01/src/readworker.rs:33-34 | taking a key out of the queue keeps the order of use |
| `ChunkCache.OrderedCount` | e01/src/readworker.rs:15-19 | a queue ordered by use lists every key once, so its length is the map's size |
| `E01Chunks.ChunkLen` | e01/src/readworker.rs:302-313 | a length is given exactly for bounds in order that fit the worker's buffer |
| `E01Bytes.DecodeIs` | e01/src/readworker.rs:96-207 | what a chunk decodes to, over its bytes: a plain one is its payload if the four bytes after it, low byte first, are its checksum or the policy ignores that, and otherwise an error or zeros; a compressed one is the front of what it inflates to, or an error or zeros if that is too short; bad bounds, missing bytes and too few bytes are errors |
| `E01Chunks.ReadWorker.Read` | e01/src/readworker.rs:356-391 | the slice of the decoded chunk, its error, or a panic where the buffer or the payload is too short; the buffer is lost exactly on a plain chunk with good bounds that does not decode |
| `E01Chunks.ReadWorker.ReadCached` | e01/src/readworker.rs:316-354 | the same outcome through any coherent cache, which stays coherent; without its buffer a worker fails exactly on compressed chunks that are not cached |
| `E01Chunks.ReadsAgree` | e01/src/readworker.rs:316-391 | cached and uncached reads agree for every chunk and range |
| `E01Chunks.LostBufferPanics` | e01/src/readworker.rs:153-183 | for every image: a worker that could not decode a plain chunk panics on its next chunk of positive length |
| `E01Chunks.LostBufferInstance` | e01/src/readworker.rs:153-183 | one such image |
| `E01Reader.Accepts` | e01/src/e01_reader.rs:415-443 | despite saturation, exactly the images whose every byte lies in some chunk are accepted |
| `E01Reader.SplitTasks` | e01/src/e01_reader.rs:990-1035 | the slices cover the buffer in order without overlap, every chunk index is in range, one worker per part and as many as were checked out |
| `E01Reader.LastChunk` | e01/src/e01_reader.rs:971-972 | the rounded-up chunk count ends with the chunk of the last byte |
| `E01Reader.ImageByteShows` | e01/src/readworker.rs:96-207 | byte o of the image over the bytes of the segment files, both directions |
| `E01Reader.RunTasks` | e01/src/e01_reader.rs:1037-1050 | in every order the buffer ends up with the image's bytes; fine exactly when every part is, an error or a panic only if some part ends so |
| `E01Reader.RunEndMeans` | e01/src/e01_reader.rs:1037-1050 | an error means a corrupt chunk in the range, a panic a byte missing from its chunk; each exactly, where the other is absent |
| `E01Reader.CoveredMeansNoneMissing` | e01/src/readworker.rs:222-240 | if every chunk's payload covers its part of the image no byte is missing |
| `E01Reader.AllFeasible` | e01/src/e01_reader.rs:990-1035 | all parts can be read exactly when every byte of the range decodes |
| `E01Reader.Reader.Checkout` | e01/src/e01_reader.rs:692-703 | as many distinct workers as asked for, none of which stays in the pool |
| `E01Reader.Reader.constructor` | e01/src/e01_reader.rs:415-443 | an image that the checks at open accept can be read from |
| `E01Reader.Reader.ReadAtOffset` | e01/src/e01_reader.rs:952-1053 | succeeds exactly when the clamped range is readable, with its bytes, which are those that stand in the segment files at their places; workers come back to the pool after an error and are lost to it after a panic; also with workers that lost their buffers, what is returned is right |
| `E01Reader.ReadFrontThenAll` | e01/src/e01_reader.rs:952-1053 | of every one-chunk image with a byte missing, a readable front part reads and the whole unwinds, losing the worker the first read left in the pool |
| `E01Reader.ShortPayloadUnwinds` | e01/src/readworker.rs:222-240 | one such image |
| `RawSegments.NewMap` | rawdisk/src/spans.rs:30-48 | starts are the running sums, saturating at 64 bits |
| `RawSegments.Locate` | rawdisk/src/spans.rs:59-75 | binary search agrees with the linear scan wherever it reports bytes, and reports none only with an empty segment among others |
| `RawSegments.ScanIsConcat` | rawdisk/src/spans.rs:1-8 | the scan finds every byte of the concatenation and nothing past its end |
| `RawSegments.SegmentsInOrder` | rawdisk/src/spans.rs:1-8 | byte j of a segment lies j bytes behind the segments before it |
| `RawSegments.CollectLengths` | rawdisk/src/rawdisk_reader.rs:272-300 | a map is built exactly when no empty segment stands among others |
| `RawSegments.RawdiskReader.ReadAtOffset` | rawdisk/src/rawdisk_reader.rs:314-363 | terminates and returns the slice of the concatenation clamped to the image end, read through the cache; an out-of-range error exactly beyond the end; succeeds whenever the source is healthy, whatever is evicted |
| `SegNames.SplitCandidate` | rawdisk/src/seg_path.rs:43-68 | printing then parsing gives the stem, the number and the width actually printed |
| `SegNames.SplitExactly` | rawdisk/src/seg_path.rs:43-56 | a stem, a dot and digits are split there exactly if there are two digits or more and their number fits 64 bits |
| `SegNames.OnlyDigitsSplit` | rawdisk/src/seg_path.rs:43-56 | no other path is split |
| `SegNames.ValueFromFront` | rawdisk/src/seg_path.rs:43-56 | a numeral is read with its first digit the most significant |
| `SegNames.SplitCandidateWidth` | rawdisk/src/seg_path.rs:43-68 | the round trip returns the given width exactly for numbers that fit it |
| `SegNames.CandidateSplit` | rawdisk/src/seg_path.rs:43-68 | parsing then printing gives the path back |
| `SegNames.CandidateInjective` | rawdisk/src/seg_path.rs:66-68 | different numbers never share a name |
| `SegNames.PaddedMeansLeadingZero` | rawdisk/src/seg_path.rs:58-64 | a number counts as padded exactly when its name shows a zero after the dot, for every width |
| `SegDiscovery.RunEnds` | rawdisk/src/seg_path.rs:143-153 | over a finite set of files the walk upward always ends |
| `SegDiscovery.Checker.SegmentPaths` | rawdisk/src/seg_path.rs:85-196 | terminates; answers for the files there are if every probe was answered, and otherwise reports the unanswerable one |
| `SegDiscovery.AnswerUnique` | rawdisk/src/seg_path.rs:85-196 | the files determine the answer |
| `SegDiscovery.MissingIsAbsent` | rawdisk/src/seg_path.rs:131-193 | a path reported missing is absent |
| `SegDiscovery.NamedIsIncluded` | rawdisk/src/seg_path.rs:155-176 | the returned sequence contains the named path |
| `SegDiscovery.ReturnedArePresent` | rawdisk/src/seg_path.rs:143-153 | with a start, the sequence is the consecutive run from it and every path is present |
| `SegDiscovery.OmittedIsFar` | rawdisk/src/seg_path.rs:178-195 | a present segment left out lies at least two numbers past the end of the run |
| `SegDiscovery.FrontPartOpens` | rawdisk/src/seg_path.rs:143-195 | named by a segment of the run from the start, the run is returned exactly when the number after the hole is missing too |
| `SegDiscovery.LeavesOutExactly` | rawdisk/src/seg_path.rs:178-195 | a present segment is left out exactly when two numbers in a row are missing and one above them is there |
| `SegDiscovery.GapIsOverlooked` | rawdisk/src/seg_path.rs:178-195 | such files, for every gap of two or more |
| `SegDiscovery.CompleteRunIsFound` | rawdisk/src/seg_path.rs:85-196 | a sequence with nothing missing is returned entire |
| `SegDiscovery.HoleIsNamed` | rawdisk/src/seg_path.rs:165-193 | a segment missing from the middle is the one reported, whichever member is named |
| `SegDiscovery.PastTheHole` | rawdisk/src/seg_path.rs:155-176 | with a start, naming a segment above the first hole reports that hole |
| `SegDiscovery.LoneIsKept` | rawdisk/src/seg_path.rs:96-139 | without segments 0 and 1, a segment without leading zero or without a neighbour is an image by itself |
| `SegDiscovery.LostStartIsNamed` | rawdisk/src/seg_path.rs:96-139 | a lost first segment is reported exactly when the named one shows a leading zero |
| `SegDiscovery.AnyMemberFindsTheRun` | rawdisk/src/seg_path.rs:83-90 | naming another member finds the same sequence exactly when its number fits the width |
| `SegDiscovery.RunOutgrowsItsWidth` | rawdisk/src/seg_path.rs:66-68 | every width has a sequence found from its first segment and not from its last |

## Left out

- S3 clients, credentials, URL handling, sockets, accept loops, signal handling, C APIs, command lines, tracing and I/O logs.
- The insides of foyer, tokio, rayon, flate2, adler32 and the digests: foyer is a map with arbitrary eviction and one flight per key, decompression and checksums are functions of the bytes.
- Text and byte parsing with no printer beside it: VMDK descriptors, the byte layout of sparse headers, E01 sections, Kaitai parsers. The model starts from their results.
- The fixed list of E01 file extensions (e01/src/seg_path.rs).
- 64-bit overflow where the source does not check for it (header offsets, `offset + len`, counting segments): naturals are unbounded there.
- Failing writes on the NBD stream: the model's output side always accepts.
- Timing, fairness and memory order: concurrent parts are interleavings of atomic steps.
- `FoyerCache.Cache.Read`: the concurrent fan-out of a multi-block read is one call after another here; `FoyerReads` covers interleaved ones. A failed read leaves the buffer's contents unspecified.
- `FoyerCache.Cache.ReadThenPrefetch`: the prefetches finish before the call returns, where the source only spawns them; `FoyerMachine` and `FoyerRuns` cover them interleaved.
- `E01Reader.RunTasks`: a chunk task is one atomic step, and the first that does not succeed ends the run; others already started in parallel may still finish in the source, which only changes bytes of a buffer whose read has failed.
- `E01Reader.Reader.ReadAtOffset`: a panic while the lock of the decoded-chunk cache is held poisons it, and later reads through the cache panic too; the model's cache stays usable.
- `MultiHasher.RunInv`: at least one hash type; with none, `update` hands its own buffer straight back.
- `Spans.InsertSpan`: the `BTreeMap` that the source changes in place is passed in and returned as a value, and so is the map of `RemoveSpan`.
- `RawSegments.RawdiskReader.ReadAtOffset`: the slice of the caller's buffer that one segment fills is a buffer of its own, copied over when it is full.
- `SegDiscovery.Checker.SegmentPaths`: the checker gives the same answer each time it is asked about a name.
