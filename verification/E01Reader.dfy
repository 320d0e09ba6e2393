/**
 `E01Reader::read_at_offset` (e01/src/e01_reader.rs): a read is split into one
 chunk task per chunk, each with a worker of its own, and these run in any order.
 */
module E01Reader {
  import opened Basics
  import opened Arith
  import opened ChunkCache
  import opened E01Chunks
  import B = E01Bytes

  // ---- Checks at open ----

  function SaturatingMul(a: nat, b: nat): nat {
    Min(a * b, U64_MAX)
  }

  /** `validate_volume` and `validate_chunk_coverage`: exactly the images whose every byte lies in some chunk. */
  predicate Accepts(chunkSize: nat, imageEnd: nat, chunkCount: nat)
    requires imageEnd <= U64_MAX
    ensures Accepts(chunkSize, imageEnd, chunkCount) <==> chunkSize > 0 && imageEnd <= chunkCount * chunkSize
  {
    chunkSize != 0 && imageEnd <= SaturatingMul(chunkCount, chunkSize)
  }

  ghost predicate WellSized(g: Image) {
    g.chunkSize > 0 && g.imageEnd <= |g.chunks| * g.chunkSize
  }

  // ---- Tasks ----

  // Bytes [beg, end) of the chunk go to [lo, hi) of the buffer.
  datatype Task = Task(chunk: nat, beg: nat, end: nat, lo: nat, hi: nat, worker: nat)

  // Every byte a chunk task moves is a byte of the image at its place.
  ghost predicate TaskOk(g: Image, offset: nat, len: nat, t: Task) {
    && Live(g, t.chunk) && t.lo < t.hi <= len && t.beg < t.end <= DecodedLen(g, t.chunk)
    && t.hi - t.lo == t.end - t.beg
    && t.chunk * g.chunkSize + t.beg == offset + t.lo
  }

  // Slices of the chunk tasks follow one another, task i serving the i-th chunk with the i-th worker.
  ghost predicate Split(g: Image, offset: nat, len: nat, tasks: seq<Task>)
    requires g.chunkSize > 0
  {
    && (forall i :: 0 <= i < |tasks| ==> TaskOk(g, offset, len, tasks[i]))
    && (forall i :: 0 <= i < |tasks| ==> tasks[i].worker == i && tasks[i].chunk == offset / g.chunkSize + i)
    && (|tasks| > 0 ==> tasks[0].lo == 0)
    && (forall i :: 0 < i < |tasks| ==> tasks[i].lo == tasks[i - 1].hi)
  }

  function Reach(tasks: seq<Task>): nat {
    if tasks == [] then 0 else tasks[|tasks| - 1].hi
  }

  // The i-th chunk counted from the one that holds offset, and what of it lies below bufEnd.
  lemma NextTask(g: Image, offset: nat, len: nat, lo: nat, t: Task)
    requires WellSized(g) && offset + len <= g.imageEnd && lo < len
    requires t.chunk == (offset + lo) / g.chunkSize
    requires t.beg == (offset + lo) - t.chunk * g.chunkSize
    requires t.end == Min(Min(t.chunk * g.chunkSize + g.chunkSize, g.imageEnd), offset + len) - t.chunk * g.chunkSize
    requires t.lo == lo && t.hi == lo + (t.end - t.beg)
    ensures TaskOk(g, offset, len, t)
    ensures t.hi < len ==> (offset + t.hi) / g.chunkSize == t.chunk + 1
  {
    ChunkOf(g, offset + lo);
    Bucket(offset + lo, g.chunkSize, t.chunk);
    var chunkBeg := t.chunk * g.chunkSize;
    assert t.hi == Min(Min(chunkBeg + g.chunkSize, g.imageEnd), offset + len) - offset;
    if t.hi < len {
      NextChunk(chunkBeg, t.chunk, g.chunkSize);
    }
  }

  // The first byte of the next chunk.
  lemma NextChunk(chunkBeg: nat, chunk: nat, size: nat)
    requires size > 0 && chunkBeg == chunk * size
    ensures (chunkBeg + size) / size == chunk + 1
  {
    MulDiv(chunk + 1, 0, size);
    assert chunkBeg + size == (chunk + 1) * size;
  }

  // How many chunks the read touches, as the code counts them.
  function ChunkCount(g: Image, offset: nat, len: nat): int
    requires g.chunkSize > 0
  {
    var bufEnd := offset + len;
    bufEnd / g.chunkSize + Min(bufEnd % g.chunkSize, 1) - offset / g.chunkSize
  }

  lemma LastChunk(g: Image, offset: nat, len: nat, last: nat)
    requires g.chunkSize > 0 && len > 0 && last * g.chunkSize < offset + len <= last * g.chunkSize + g.chunkSize
    ensures ChunkCount(g, offset, len) == last + 1 - offset / g.chunkSize
  {
    var e := offset + len;
    if e == last * g.chunkSize + g.chunkSize {
      assert e == (last + 1) * g.chunkSize;
      MulDiv(last + 1, 0, g.chunkSize);
    } else {
      MulDiv(last, e - last * g.chunkSize, g.chunkSize);
      assert e == last * g.chunkSize + (e - last * g.chunkSize);
    }
  }

  /** The splitting loop: the slices cover the buffer without overlap, one task per worker checked out. */
  method SplitTasks(g: Image, offset: nat, len: nat) returns (tasks: seq<Task>)
    requires WellSized(g) && offset + len <= g.imageEnd
    ensures Split(g, offset, len, tasks) && Reach(tasks) == len
    ensures len > 0 ==> |tasks| == ChunkCount(g, offset, len)
  {
    tasks := [];
    var lo := 0;
    while lo < len
      invariant lo <= len && Split(g, offset, len, tasks) && Reach(tasks) == lo
      invariant lo < len ==> (offset + lo) / g.chunkSize == offset / g.chunkSize + |tasks|
      invariant lo == len > 0 ==> |tasks| == ChunkCount(g, offset, len)
    {
      var chunk := (offset + lo) / g.chunkSize;
      Bucket(offset + lo, g.chunkSize, chunk);
      var chunkBeg := chunk * g.chunkSize;
      var chunkEnd := Min(chunkBeg + g.chunkSize, g.imageEnd);
      var beg, end := offset + lo - chunkBeg, Min(chunkEnd, offset + len) - chunkBeg;
      var t := Task(chunk, beg, end, lo, lo + (end - beg), |tasks|);
      NextTask(g, offset, len, lo, t);
      if t.hi == len {
        LastChunk(g, offset, len, chunk);
      }
      tasks := tasks + [t];
      lo := t.hi;
    }
  }

  // ---- The bytes of the image ----

  function ImageByte(g: Image, o: nat): Option<byte>
    requires WellSized(g) && o < g.imageEnd
  {
    ChunkOf(g, o);
    match Decode(g, o / g.chunkSize)
    case Ok(v) => if o % g.chunkSize < |v| then Some(v[o % g.chunkSize]) else None
    case Err(_) => None
  }

  lemma ChunkOf(g: Image, o: nat)
    requires WellSized(g) && o < g.imageEnd
    ensures Live(g, o / g.chunkSize)
  {
    var i := o / g.chunkSize;
    Bucket(o, g.chunkSize, i);
    if |g.chunks| <= i {
      MulMonotone(|g.chunks|, i, g.chunkSize);
      assert false;
    }
  }

  /** A byte of the image, over the bytes of the segment files. */
  lemma ImageByteShows(g: Image, o: nat, x: byte)
    requires WellSized(g) && o < g.imageEnd
    ensures ImageByte(g, o) == Some(x) <==> B.Shows(g, o, x)
  {
    var (i, k) := (o / g.chunkSize, o % g.chunkSize);
    ChunkOf(g, o);
    assert o - k == i * g.chunkSize;
    B.DecodeIs(g, i);
  }

  lemma BytesShown(g: Image, offset: nat, bytes: seq<byte>)
    requires WellSized(g) && offset + |bytes| <= g.imageEnd
    requires forall j: nat :: j < |bytes| ==> ImageByte(g, offset + j) == Some(bytes[j])
    ensures B.ShowsAll(g, offset, bytes)
  {
    forall j | 0 <= j < |bytes| ensures B.Shows(g, offset + j, bytes[j]) {
      assert ImageByte(g, offset + j) == Some(bytes[j]);
      ImageByteShows(g, offset + j, bytes[j]);
    }
  }

  // The byte's chunk does not decode ...
  predicate Corrupt(g: Image, o: nat)
    requires WellSized(g) && o < g.imageEnd
  {
    ChunkOf(g, o);
    Decode(g, o / g.chunkSize).Err?
  }

  // ... or decodes to a payload that stops short of the byte.
  predicate Missing(g: Image, o: nat)
    requires WellSized(g) && o < g.imageEnd
  {
    ChunkOf(g, o);
    Decode(g, o / g.chunkSize).Ok? && |Decode(g, o / g.chunkSize).value| <= o % g.chunkSize
  }

  /** If every live chunk's payload covers its part of the image, no byte is missing. */
  lemma CoveredMeansNoneMissing(g: Image, o: nat)
    requires WellSized(g) && o < g.imageEnd && forall i: nat :: Live(g, i) ==> Covers(g, i)
    ensures !Missing(g, o)
  {
    var i := o / g.chunkSize;
    ChunkOf(g, o);
    Bucket(o, g.chunkSize, i);
    assert Covers(g, i);
    assert o == i * g.chunkSize + o % g.chunkSize;
  }

  // What a task delivers is what the image holds there.
  lemma TaskBytes(g: Image, offset: nat, len: nat, t: Task, bytes: seq<byte>, j: nat)
    requires WellSized(g) && offset + len <= g.imageEnd && TaskOk(g, offset, len, t) && t.lo <= j < t.hi
    requires Expected(g, t.chunk, t.beg, t.end) == Done(bytes)
    ensures |bytes| == t.hi - t.lo && ImageByte(g, offset + j) == Some(bytes[j - t.lo])
  {
    MulDiv(t.chunk, t.beg + (j - t.lo), g.chunkSize);
    assert offset + j == t.chunk * g.chunkSize + (t.beg + (j - t.lo));
  }

  // ---- Running chunk tasks ----

  ghost predicate DistinctWorkers(ws: seq<ReadWorker>) {
    forall i, j :: 0 <= i < j < |ws| ==> ws[i] != ws[j]
  }

  ghost predicate OfImage(g: Image, ws: seq<ReadWorker>) {
    forall i :: 0 <= i < |ws| ==> ws[i].g == g
  }

  // Every worker still has its buffer.
  ghost predicate Intact(g: Image, ws: seq<ReadWorker>)
    reads ws
  {
    forall i :: 0 <= i < |ws| ==> ws[i].bufLen == g.chunkSize + 4
  }

  // An order in which n tasks can run: each of them once.
  ghost predicate IsOrder(order: seq<nat>, n: nat) {
    && (forall k :: 0 <= k < |order| ==> order[k] < n)
    && (forall j, k :: 0 <= j < k < |order| ==> order[j] != order[k])
    && (forall i :: 0 <= i < n ==> i in order)
  }

  // A chunk task's slice of the buffer holds the image's bytes.
  ghost predicate Served(g: Image, offset: nat, len: nat, t: Task, buf: seq<byte>)
    requires WellSized(g) && offset + len <= g.imageEnd && TaskOk(g, offset, len, t) && len <= |buf|
  {
    forall j: nat :: t.lo <= j < t.hi ==> ImageByte(g, offset + j) == Some(buf[j])
  }

  lemma SlicesDisjoint(g: Image, offset: nat, len: nat, tasks: seq<Task>, i: nat, j: nat)
    requires g.chunkSize > 0 && Split(g, offset, len, tasks) && i < j < |tasks|
    ensures tasks[i].hi <= tasks[j].lo
  {
    if i + 1 < j {
      SlicesDisjoint(g, offset, len, tasks, i, j - 1);
    }
  }

  lemma SlicesCover(g: Image, offset: nat, len: nat, tasks: seq<Task>, j: nat) returns (i: nat)
    requires g.chunkSize > 0 && Split(g, offset, len, tasks) && j < Reach(tasks)
    ensures i < |tasks| && tasks[i].lo <= j < tasks[i].hi
  {
    i := |tasks| - 1;
    while j < tasks[i].lo
      invariant i < |tasks| && j < tasks[i].hi
      decreases i
    {
      i := i - 1;
    }
  }

  // A chunk task that does not succeed returns an error, or unwinds.
  datatype Status = Fine | Failure | Panic

  function StatusOf(o: Outcome): Status {
    match o
    case Done(_) => Fine
    case Failed(_) => Failure
    case Panicked => Panic
  }

  // How a chunk task ends if its worker has its buffer.
  function Fate(g: Image, t: Task): Status
    requires t.chunk < |g.chunks| && t.chunk * g.chunkSize <= g.imageEnd
  {
    StatusOf(Expected(g, t.chunk, t.beg, t.end))
  }

  lemma FateFaults(g: Image, offset: nat, len: nat, t: Task)
    requires WellSized(g) && offset + len <= g.imageEnd && TaskOk(g, offset, len, t)
    ensures Fate(g, t).Failure? ==> Corrupt(g, offset + t.lo)
    ensures Fate(g, t).Panic? ==> Missing(g, offset + t.hi - 1)
  {
    MulDiv(t.chunk, t.beg, g.chunkSize);
    MulDiv(t.chunk, t.end - 1, g.chunkSize);
    assert offset + t.lo == t.chunk * g.chunkSize + t.beg;
    assert offset + t.hi - 1 == t.chunk * g.chunkSize + (t.end - 1);
  }

  // Read through the cache if there is one.
  method ReadChunk(g: Image, t: Task, w: ReadWorker, cache: DecodedChunkCache?) returns (r: Outcome)
    requires Live(g, t.chunk) && w.g == g
    requires cache != null ==> cache.Ok() && CacheCoherent(g, cache.chunks)
    modifies w, cache
    ensures cache != null ==> cache.Ok() && CacheCoherent(g, cache.chunks)
    ensures r == Expected(g, t.chunk, t.beg, t.end) || (r.Panicked? && old(w.bufLen) < g.chunkSize + 4)
    ensures cache != null || r.Done? ==> w.bufLen == old(w.bufLen)
  {
    if cache != null {
      r := w.ReadCached(t.chunk, t.beg, t.end, cache);
    } else {
      r := w.Read(t.chunk, t.beg, t.end);
    }
  }

  method StoreSlice(buf: array<byte>, lo: nat, bytes: seq<byte>)
    requires lo + |bytes| <= buf.Length
    modifies buf
    ensures forall j :: lo <= j < lo + |bytes| ==> buf[j] == bytes[j - lo]
    ensures forall j :: 0 <= j < lo || lo + |bytes| <= j < buf.Length ==> buf[j] == old(buf[j])
  {
    forall j | lo <= j < lo + |bytes| {
      buf[j] := bytes[j - lo];
    }
  }

  lemma ServedBy(g: Image, offset: nat, len: nat, t: Task, bytes: seq<byte>, buf: seq<byte>)
    requires WellSized(g) && offset + len <= g.imageEnd && TaskOk(g, offset, len, t) && len <= |buf|
    requires Expected(g, t.chunk, t.beg, t.end) == Done(bytes) && |bytes| == t.hi - t.lo
    requires forall j :: t.lo <= j < t.hi ==> buf[j] == bytes[j - t.lo]
    ensures Served(g, offset, len, t, buf)
  {
    forall j: nat | t.lo <= j < t.hi ensures ImageByte(g, offset + j) == Some(buf[j]) {
      TaskBytes(g, offset, len, t, bytes, j);
    }
  }

  /** `run_chunk_task`: one worker, one chunk, one slice of the buffer. */
  method RunTask(g: Image, offset: nat, len: nat, t: Task, w: ReadWorker, cache: DecodedChunkCache?, buf: array<byte>)
    returns (st: Status)
    requires WellSized(g) && offset + len <= g.imageEnd && TaskOk(g, offset, len, t) && len <= buf.Length
    requires w.g == g
    requires cache != null ==> cache.Ok() && CacheCoherent(g, cache.chunks)
    modifies w, buf, cache
    ensures cache != null ==> cache.Ok() && CacheCoherent(g, cache.chunks)
    ensures cache != null || st.Fine? ==> w.bufLen == old(w.bufLen)
    ensures st == Fate(g, t) || (st.Panic? && old(w.bufLen) < g.chunkSize + 4)
    ensures st.Fine? ==> Served(g, offset, len, t, buf[..])
    ensures forall j :: 0 <= j < t.lo || t.hi <= j < buf.Length ==> buf[j] == old(buf[j])
  {
    var r := ReadChunk(g, t, w, cache);
    st := StatusOf(r);
    if r.Done? {
      StoreSlice(buf, t.lo, r.bytes);
      ServedBy(g, offset, len, t, r.bytes, buf[..]);
    }
  }

  // The chunk tasks that have run have their slices filled.
  ghost predicate AllServed(g: Image, offset: nat, len: nat, tasks: seq<Task>, ran: seq<nat>, buf: seq<byte>)
    requires WellSized(g) && offset + len <= g.imageEnd && len <= |buf| && Split(g, offset, len, tasks)
  {
    forall k :: 0 <= k < |ran| ==>
      && ran[k] < |tasks|
      && Served(g, offset, len, tasks[ran[k]], buf)
      && Fate(g, tasks[ran[k]]).Fine?
  }

  // Running one more task leaves the other slices alone.
  lemma ServedMore(g: Image, offset: nat, len: nat, tasks: seq<Task>, ran: seq<nat>, i: nat, before: seq<byte>,
                   after: seq<byte>)
    requires WellSized(g) && offset + len <= g.imageEnd && len <= |before| == |after| && Split(g, offset, len, tasks)
    requires AllServed(g, offset, len, tasks, ran, before) && i < |tasks| && i !in ran
    requires Served(g, offset, len, tasks[i], after) && Fate(g, tasks[i]).Fine?
    requires forall j :: 0 <= j < tasks[i].lo || tasks[i].hi <= j < |after| ==> after[j] == before[j]
    ensures AllServed(g, offset, len, tasks, ran + [i], after)
  {
    forall k | 0 <= k < |ran| ensures Served(g, offset, len, tasks[ran[k]], after) {
      assert Served(g, offset, len, tasks[ran[k]], before) && ran[k] != i;
      if ran[k] < i {
        SlicesDisjoint(g, offset, len, tasks, ran[k], i);
      } else {
        SlicesDisjoint(g, offset, len, tasks, i, ran[k]);
      }
    }
  }

  lemma AllServedWhole(g: Image, offset: nat, len: nat, tasks: seq<Task>, order: seq<nat>, buf: seq<byte>)
    requires WellSized(g) && offset + len <= g.imageEnd && len <= |buf| && Split(g, offset, len, tasks)
    requires Reach(tasks) == len
    requires IsOrder(order, |tasks|) && AllServed(g, offset, len, tasks, order, buf)
    ensures forall j: nat :: j < len ==> ImageByte(g, offset + j) == Some(buf[j])
    ensures forall i :: 0 <= i < |tasks| ==> Fate(g, tasks[i]).Fine?
  {
    forall j: nat | j < len ensures ImageByte(g, offset + j) == Some(buf[j]) {
      var i := SlicesCover(g, offset, len, tasks, j);
      assert i in order;
    }
    forall i | 0 <= i < |tasks| ensures Fate(g, tasks[i]).Fine? {
      assert i in order;
    }
  }

  // A run of the tasks with intact workers ends as its tasks do: with an error or a panic only if one of them does.
  ghost predicate RunEnd(g: Image, offset: nat, len: nat, tasks: seq<Task>, st: Status)
    requires g.chunkSize > 0 && Split(g, offset, len, tasks)
  {
    && (st.Fine? <==> forall i :: 0 <= i < |tasks| ==> Fate(g, tasks[i]).Fine?)
    && (!st.Fine? ==> exists i :: 0 <= i < |tasks| && Fate(g, tasks[i]) == st)
  }

  ghost predicate CacheOk(g: Image, cache: DecodedChunkCache?)
    reads cache
  {
    cache != null ==> cache.Ok() && CacheCoherent(g, cache.chunks)
  }

  // The k-th task of the order.
  method RunNth(g: Image, offset: nat, len: nat, tasks: seq<Task>, order: seq<nat>, k: nat, workers: seq<ReadWorker>,
                cache: DecodedChunkCache?, buf: array<byte>)
    returns (st: Status)
    requires WellSized(g) && offset + len <= g.imageEnd && len <= buf.Length
    requires Split(g, offset, len, tasks) && IsOrder(order, |tasks|) && k < |order|
    requires |workers| >= |tasks| && DistinctWorkers(workers) && OfImage(g, workers) && CacheOk(g, cache)
    requires AllServed(g, offset, len, tasks, order[..k], buf[..])
    modifies workers, buf, cache
    ensures CacheOk(g, cache) && ((cache != null || st.Fine?) && old(Intact(g, workers)) ==> Intact(g, workers))
    ensures st.Fine? ==> AllServed(g, offset, len, tasks, order[..k + 1], buf[..])
    ensures old(Intact(g, workers)) ==> Fate(g, tasks[order[k]]) == st
    ensures forall j :: len <= j < buf.Length ==> buf[j] == old(buf[j])
  {
    var i := order[k];
    ghost var before := buf[..];
    st := RunTask(g, offset, len, tasks[i], workers[tasks[i].worker], cache, buf);
    if st.Fine? {
      ServedMore(g, offset, len, tasks, order[..k], i, before, buf[..]);
      PrefixSnoc(order, k);
    }
  }

  /**
   Whatever order the chunk tasks run in, the buffer ends up with the bytes of the image; the first that does not
   succeed ends it.
   */
  method RunTasks(g: Image, offset: nat, len: nat, tasks: seq<Task>, order: seq<nat>, workers: seq<ReadWorker>,
                  cache: DecodedChunkCache?, buf: array<byte>)
    returns (st: Status)
    requires WellSized(g) && offset + len <= g.imageEnd && len <= buf.Length
    requires Split(g, offset, len, tasks) && Reach(tasks) == len && IsOrder(order, |tasks|)
    requires |workers| >= |tasks| && DistinctWorkers(workers) && OfImage(g, workers) && CacheOk(g, cache)
    modifies workers, buf, cache
    ensures CacheOk(g, cache)
    ensures (cache != null || st.Fine?) && old(Intact(g, workers)) ==> Intact(g, workers)
    ensures st.Fine? ==> forall j: nat :: j < len ==> ImageByte(g, offset + j) == Some(buf[j])
    ensures old(Intact(g, workers)) ==> RunEnd(g, offset, len, tasks, st)
    ensures forall j :: len <= j < buf.Length ==> buf[j] == old(buf[j])
  {
    for k := 0 to |order|
      invariant CacheOk(g, cache) && (old(Intact(g, workers)) ==> Intact(g, workers))
      invariant AllServed(g, offset, len, tasks, order[..k], buf[..])
      invariant forall j :: len <= j < buf.Length ==> buf[j] == old(buf[j])
    {
      st := RunNth(g, offset, len, tasks, order, k, workers, cache, buf);
      if !st.Fine? {
        return;
      }
    }
    PrefixAll(order);
    AllServedWhole(g, offset, len, tasks, order, buf[..]);
    st := Fine;
  }

  // Some order or other: the caller may rely on nothing but that each task is in it once.
  method AnyOrder(n: nat) returns (order: seq<nat>)
    ensures IsOrder(order, n)
  {
    order := seq(n, i => i);
    forall i | 0 <= i < n ensures i in order {
      assert order[i] == i;
    }
  }

  // Every byte of the range decodes.
  ghost predicate Readable(g: Image, offset: nat, len: nat)
    requires WellSized(g) && offset + len <= g.imageEnd
  {
    forall o: nat :: offset <= o < offset + len ==> ImageByte(g, o).Some?
  }

  // Some byte of the range lies in a chunk that does not decode.
  ghost predicate SomeCorrupt(g: Image, offset: nat, len: nat)
    requires WellSized(g) && offset + len <= g.imageEnd
  {
    exists o: nat :: offset <= o < offset + len && Corrupt(g, o)
  }

  // Some byte of the range lies past the end of its chunk's payload.
  ghost predicate SomeMissing(g: Image, offset: nat, len: nat)
    requires WellSized(g) && offset + len <= g.imageEnd
  {
    exists o: nat :: offset <= o < offset + len && Missing(g, o)
  }

  // What a read of the range by intact workers comes to.
  ghost predicate RangeEnd(g: Image, offset: nat, len: nat, st: Status)
    requires WellSized(g) && offset + len <= g.imageEnd
  {
    && (st.Fine? <==> Readable(g, offset, len))
    && (st.Failure? ==> SomeCorrupt(g, offset, len))
    && (st.Panic? ==> SomeMissing(g, offset, len))
    && (!SomeCorrupt(g, offset, len) ==> (st.Panic? <==> SomeMissing(g, offset, len)))
    && (!SomeMissing(g, offset, len) ==> (st.Failure? <==> SomeCorrupt(g, offset, len)))
  }

  /** A range is readable exactly when none of its bytes is in a corrupt chunk or missing from its chunk. */
  lemma ReadableExactly(g: Image, offset: nat, len: nat)
    requires WellSized(g) && offset + len <= g.imageEnd
    ensures Readable(g, offset, len) <==> !SomeCorrupt(g, offset, len) && !SomeMissing(g, offset, len)
  {
    if !SomeCorrupt(g, offset, len) && !SomeMissing(g, offset, len) {
      forall o: nat | offset <= o < offset + len ensures ImageByte(g, o).Some? {
        assert !Corrupt(g, o) && !Missing(g, o);
      }
    }
    if Readable(g, offset, len) {
      forall o: nat | offset <= o < offset + len ensures !Corrupt(g, o) && !Missing(g, o) {
        assert ImageByte(g, o).Some?;
      }
    }
  }

  // A chunk task whose last byte the image has can be carried out.
  lemma TaskFeasible(g: Image, offset: nat, len: nat, t: Task)
    requires WellSized(g) && offset + len <= g.imageEnd && TaskOk(g, offset, len, t)
    requires ImageByte(g, offset + t.hi - 1).Some?
    ensures Fate(g, t).Fine?
  {
    MulDiv(t.chunk, t.end - 1, g.chunkSize);
    assert offset + t.hi - 1 == t.chunk * g.chunkSize + (t.end - 1);
  }

  lemma FeasibleByte(g: Image, offset: nat, len: nat, t: Task, j: nat)
    requires WellSized(g) && offset + len <= g.imageEnd && TaskOk(g, offset, len, t) && t.lo <= j < t.hi
    requires Fate(g, t).Fine?
    ensures ImageByte(g, offset + j).Some?
  {
    var r := Expected(g, t.chunk, t.beg, t.end);
    assert r == Done(r.bytes);
    TaskBytes(g, offset, len, t, r.bytes, j);
  }

  lemma ReadableFeasible(g: Image, offset: nat, len: nat, tasks: seq<Task>)
    requires WellSized(g) && offset + len <= g.imageEnd && Split(g, offset, len, tasks) && Reach(tasks) == len
    requires Readable(g, offset, len)
    ensures forall i :: 0 <= i < |tasks| ==> Fate(g, tasks[i]).Fine?
  {
    forall i | 0 <= i < |tasks| ensures Fate(g, tasks[i]).Fine? {
      TaskFeasible(g, offset, len, tasks[i]);
    }
  }

  lemma FeasibleReadable(g: Image, offset: nat, len: nat, tasks: seq<Task>)
    requires WellSized(g) && offset + len <= g.imageEnd && Split(g, offset, len, tasks) && Reach(tasks) == len
    requires forall i :: 0 <= i < |tasks| ==> Fate(g, tasks[i]).Fine?
    ensures Readable(g, offset, len)
  {
    forall o: nat | offset <= o < offset + len ensures ImageByte(g, o).Some? {
      var i := SlicesCover(g, offset, len, tasks, o - offset);
      assert Fate(g, tasks[i]).Fine?;
      FeasibleByte(g, offset, len, tasks[i], o - offset);
    }
  }

  // The chunk tasks can all be carried out exactly when the range is readable.
  lemma AllFeasible(g: Image, offset: nat, len: nat, tasks: seq<Task>)
    requires WellSized(g) && offset + len <= g.imageEnd && Split(g, offset, len, tasks) && Reach(tasks) == len
    ensures Readable(g, offset, len) <==> forall i :: 0 <= i < |tasks| ==> Fate(g, tasks[i]).Fine?
  {
    if Readable(g, offset, len) {
      ReadableFeasible(g, offset, len, tasks);
    }
    if forall i :: 0 <= i < |tasks| ==> Fate(g, tasks[i]).Fine? {
      FeasibleReadable(g, offset, len, tasks);
    }
  }

  /** An error means a corrupt chunk in the range, a panic a payload that is too short. */
  lemma RunEndMeans(g: Image, offset: nat, len: nat, tasks: seq<Task>, st: Status)
    requires WellSized(g) && offset + len <= g.imageEnd && Split(g, offset, len, tasks) && Reach(tasks) == len
    requires RunEnd(g, offset, len, tasks, st)
    ensures RangeEnd(g, offset, len, st)
  {
    AllFeasible(g, offset, len, tasks);
    ReadableExactly(g, offset, len);
    if !st.Fine? {
      var i :| 0 <= i < |tasks| && Fate(g, tasks[i]) == st;
      assert TaskOk(g, offset, len, tasks[i]);
      FateFaults(g, offset, len, tasks[i]);
    }
  }

  method SplitAndRun(g: Image, offset: nat, len: nat, workers: seq<ReadWorker>, cache: DecodedChunkCache?,
                     buf: array<byte>)
    returns (st: Status)
    requires WellSized(g) && offset + len <= g.imageEnd && len <= buf.Length
    requires |workers| == ChunkCount(g, offset, len) && DistinctWorkers(workers) && OfImage(g, workers)
    requires CacheOk(g, cache)
    modifies workers, buf, cache
    ensures CacheOk(g, cache)
    ensures (cache != null || st.Fine?) && old(Intact(g, workers)) ==> Intact(g, workers)
    ensures st.Fine? ==> forall j: nat :: j < len ==> ImageByte(g, offset + j) == Some(buf[j])
    ensures old(Intact(g, workers)) ==> RangeEnd(g, offset, len, st)
    ensures forall j :: len <= j < buf.Length ==> buf[j] == old(buf[j])
  {
    var tasks := SplitTasks(g, offset, len);
    var order := AnyOrder(|tasks|);
    st := RunTasks(g, offset, len, tasks, order, workers, cache, buf);
    if old(Intact(g, workers)) {
      RunEndMeans(g, offset, len, tasks, st);
    }
  }

  method NewWorkers(g: Image, n: nat) returns (ws: seq<ReadWorker>)
    ensures |ws| == n && DistinctWorkers(ws) && OfImage(g, ws) && Intact(g, ws)
    ensures forall w :: w in ws ==> fresh(w)
  {
    ws := [];
    while |ws| < n
      invariant |ws| <= n && DistinctWorkers(ws) && OfImage(g, ws) && Intact(g, ws)
      invariant forall w :: w in ws ==> fresh(w)
    {
      var w := new ReadWorker(g);
      ws := ws + [w];
    }
  }

  lemma WorkersConcat(g: Image, a: seq<ReadWorker>, b: seq<ReadWorker>)
    requires DistinctWorkers(a) && DistinctWorkers(b) && (forall w :: w in b ==> w !in a) && OfImage(g, a)
    requires OfImage(g, b)
    ensures DistinctWorkers(a + b) && OfImage(g, a + b) && (Intact(g, a) && Intact(g, b) ==> Intact(g, a + b))
  {
    var s := a + b;
    forall i, j | 0 <= i < j < |s| ensures s[i] != s[j] {
      if i < |a| <= j {
        assert s[j] in b && s[i] in a;
      }
    }
  }

  lemma WorkersParts(g: Image, a: seq<ReadWorker>, b: seq<ReadWorker>)
    requires DistinctWorkers(a + b) && OfImage(g, a + b)
    ensures DistinctWorkers(a) && DistinctWorkers(b) && OfImage(g, a) && OfImage(g, b)
    ensures forall i :: 0 <= i < |a| ==> a[i] !in b
    ensures Intact(g, a + b) ==> Intact(g, a) && Intact(g, b)
  {
    var s := a + b;
    assert forall i :: 0 <= i < |a| ==> s[i] == a[i];
    assert forall j :: 0 <= j < |b| ==> s[|a| + j] == b[j];
  }

  lemma TogetherIntact(g: Image, a: seq<ReadWorker>, b: seq<ReadWorker>)
    ensures Intact(g, a) && Intact(g, b) ==> Intact(g, a + b)
  {
  }

  lemma CountNonNegative(g: Image, offset: nat, len: nat)
    requires g.chunkSize > 0
    ensures ChunkCount(g, offset, len) >= 0
  {
    DivMonotone(offset, offset + len, g.chunkSize);
  }

  lemma Regrouped(pool: seq<ReadWorker>, keep: nat, more: seq<ReadWorker>)
    requires keep <= |pool|
    ensures pool[..keep] + (pool[keep..] + more) == pool + more
    ensures var ws := pool[keep..] + more;
            forall i :: 0 <= i < |ws| ==> ws[i] in pool || ws[i] in more
  {
    var ws := pool[keep..] + more;
    forall i | 0 <= i < |ws| ensures ws[i] in pool || ws[i] in more {
      if i < |pool| - keep {
        assert ws[i] == pool[keep + i];
      } else {
        assert ws[i] == more[i - (|pool| - keep)];
      }
    }
  }

  // What is left of a pool when its last n workers are gone.
  function Remaining(pool: seq<ReadWorker>, n: int): seq<ReadWorker> {
    if n <= 0 then pool else if n < |pool| then pool[..|pool| - n] else []
  }

  // What a read returns to its caller, if it returns.
  datatype Answer = Bytes(n: nat) | Error | Unwound

  function EndOf(r: Answer): Status {
    match r
    case Bytes(_) => Fine
    case Error => Failure
    case Unwound => Panic
  }

  class Reader {
    const g: Image
    const cache: DecodedChunkCache?
    var pool: seq<ReadWorker>

    /** `open`, as far as its checks go: what they accept can be read from. */
    constructor (g: Image, cache: DecodedChunkCache?)
      requires g.imageEnd <= U64_MAX && Accepts(g.chunkSize, g.imageEnd, |g.chunks|) && CacheOk(g, cache)
      ensures Ok() && this.g == g && this.cache == cache && pool == []
    {
      this.g, this.cache, pool := g, cache, [];
    }

    // Workers may have lost their buffers.
    ghost predicate Usable()
      reads this, pool, cache
    {
      WellSized(g) && DistinctWorkers(pool) && OfImage(g, pool) && CacheOk(g, cache)
    }

    ghost predicate Ok()
      reads this, pool, cache
    {
      Usable() && Intact(g, pool)
    }

    /** `checkout_workers`: n workers that nobody else has, pooled ones first. */
    method Checkout(n: nat) returns (ws: seq<ReadWorker>)
      requires DistinctWorkers(pool) && OfImage(g, pool)
      modifies this`pool
      ensures |ws| == n && DistinctWorkers(pool + ws) && OfImage(g, pool + ws)
      ensures old(Intact(g, pool)) ==> Intact(g, pool + ws)
      ensures pool == Remaining(old(pool), n)
      ensures forall i :: 0 <= i < |ws| ==> fresh(ws[i]) || ws[i] in old(pool)
    {
      var keep := Max(|pool| - n, 0);
      var reused := pool[keep..];
      var more := NewWorkers(g, n - |reused|);
      ws := reused + more;
      pool := pool[..keep];
      WorkersConcat(g, old(pool), more);
      Regrouped(old(pool), keep, more);
      assert pool + ws == old(pool) + more;
      assert forall w :: w in more ==> fresh(w);
    }

    /** `return_workers` */
    method Return(ws: seq<ReadWorker>)
      modifies this`pool
      ensures pool == old(pool) + ws
    {
      pool := pool + ws;
    }

    // Run the parts on these workers, and give them back unless a part unwinds.
    method RunAndReturn(offset: nat, len: nat, workers: seq<ReadWorker>, buf: array<byte>) returns (st: Status)
      requires WellSized(g) && offset + len <= g.imageEnd && len <= buf.Length && CacheOk(g, cache)
      requires |workers| == ChunkCount(g, offset, len) && DistinctWorkers(pool + workers) && OfImage(g, pool + workers)
      modifies this`pool, workers, cache, buf
      ensures Usable() && pool == if st.Panic? then old(pool) else old(pool) + workers
      ensures old(Intact(g, pool + workers)) && (cache != null || !st.Failure?) ==> Intact(g, pool)
      ensures st.Fine? ==> forall j: nat :: j < len ==> ImageByte(g, offset + j) == Some(buf[j])
      ensures old(Intact(g, pool + workers)) ==> RangeEnd(g, offset, len, st)
      ensures forall j :: len <= j < buf.Length ==> buf[j] == old(buf[j])
    {
      ghost var sound := Intact(g, pool + workers);
      WorkersParts(g, pool, workers);
      st := SplitAndRun(g, offset, len, workers, cache, buf);
      assert sound ==> Intact(g, pool);
      if !st.Panic? {
        TogetherIntact(g, pool, workers);
        Return(workers);
      }
    }

    // The clamped read: split, run each part on a worker of its own, give the workers back unless a part unwinds.
    method Serve(offset: nat, len: nat, buf: array<byte>) returns (st: Status)
      requires Usable() && offset + len <= g.imageEnd && len <= buf.Length
      modifies this`pool, pool, cache, buf
      ensures Usable()
      ensures old(Ok()) && (cache != null || !st.Failure?) ==> Ok()
      ensures if st.Panic? then pool == Remaining(old(pool), ChunkCount(g, offset, len))
              else |pool| == Max(|old(pool)|, ChunkCount(g, offset, len))
      ensures forall i :: 0 <= i < |pool| ==> fresh(pool[i]) || pool[i] in old(pool)
      ensures st.Fine? ==> forall j: nat :: j < len ==> ImageByte(g, offset + j) == Some(buf[j])
      ensures old(Ok()) ==> RangeEnd(g, offset, len, st)
      ensures forall j :: len <= j < buf.Length ==> buf[j] == old(buf[j])
    {
      CountNonNegative(g, offset, len);
      var workers := Checkout(ChunkCount(g, offset, len));
      st := RunAndReturn(offset, len, workers, buf);
    }

    /** `read_at_offset`: the image's bytes, clamped to its end. */
    method ReadAtOffset(offset: nat, buf: array<byte>) returns (r: Answer)
      requires Usable()
      modifies this`pool, pool, cache, buf
      ensures Usable()
      ensures old(Ok()) && (cache != null || !r.Error? || offset > g.imageEnd) ==> Ok()
      ensures !r.Unwound? && offset <= g.imageEnd ==>
                |pool| == Max(|old(pool)|, ChunkCount(g, offset, Min(buf.Length, g.imageEnd - offset)))
      ensures offset > g.imageEnd ==> pool == old(pool)
      ensures forall i :: 0 <= i < |pool| ==> fresh(pool[i]) || pool[i] in old(pool)
      ensures r.Unwound? && offset <= g.imageEnd ==>
                pool == Remaining(old(pool), ChunkCount(g, offset, Min(buf.Length, g.imageEnd - offset)))
      ensures r.Bytes? ==> offset <= g.imageEnd && r.n == Min(buf.Length, g.imageEnd - offset)
      ensures r.Bytes? ==> forall j: nat :: j < r.n ==> ImageByte(g, offset + j) == Some(buf[j])
      ensures r.Bytes? ==> B.ShowsAll(g, offset, buf[..r.n])
      ensures offset > g.imageEnd ==> r == Error
      ensures old(Ok()) && offset <= g.imageEnd ==>
                RangeEnd(g, offset, Min(buf.Length, g.imageEnd - offset), EndOf(r))
      ensures forall j :: 0 <= j < buf.Length && g.imageEnd - offset <= j ==> buf[j] == old(buf[j])
    {
      if offset > g.imageEnd {
        return Error;
      }
      var len := if offset + buf.Length > g.imageEnd then g.imageEnd - offset else buf.Length;
      var st := Serve(offset, len, buf);
      if st.Fine? {
        BytesShown(g, offset, buf[..len]);
      }
      r := if st.Fine? then Bytes(len) else if st.Failure? then Error else Unwound;
    }
  }

  // One plain chunk of two bytes whose stored payload is one byte and a checksum.
  function ShortImage(): Image {
    Image(2, 2, RawIfPossible, [Chunk(0, 0, 5, false)], [[0, 0, 0, 0, 0]], s => [], s => 0)
  }

  lemma ShortImageBytes()
    ensures var g := ShortImage();
            && WellSized(g) && !Corrupt(g, 0) && !Corrupt(g, 1) && !Missing(g, 0) && Missing(g, 1)
  {
    var g := ShortImage();
    assert g.segs[0][0..5][..1] == [0];
    assert Decode(g, 0) == Ok([0]);
  }

  lemma ShortRanges()
    ensures var g := ShortImage();
            && g.chunkSize == 2 && g.imageEnd == 2 && WellSized(g)
            && Readable(g, 0, 1) && !SomeCorrupt(g, 0, 2) && SomeMissing(g, 0, 2)
  {
    ShortImageBytes();
    ReadableExactly(ShortImage(), 0, 1);
    assert Missing(ShortImage(), 1);
  }

  /**
   Of an image of one chunk, a readable front part reads; a range with a byte missing unwinds, and the worker that
   the first read left in the pool is gone.
   */
  method ReadFrontThenAll(g: Image, n: nat) returns (first: Answer, second: Answer, reader: Reader)
    requires g.imageEnd <= U64_MAX && WellSized(g) && 0 < n < g.imageEnd && g.imageEnd == g.chunkSize
    requires Readable(g, 0, n) && !SomeCorrupt(g, 0, g.imageEnd) && SomeMissing(g, 0, g.imageEnd)
    ensures first == Bytes(n) && second == Unwound && reader.pool == []
  {
    LastChunk(g, 0, n, 0);
    LastChunk(g, 0, g.imageEnd, 0);
    reader := new Reader(g, null);
    var front, all := new byte[n], new byte[g.imageEnd];
    first := reader.ReadAtOffset(0, front);
    second := reader.ReadAtOffset(0, all);
  }

  /** The image above is one. */
  method ShortPayloadUnwinds() returns (first: Answer, second: Answer, reader: Reader)
    ensures first == Bytes(1) && second == Unwound && reader.pool == []
  {
    ShortRanges();
    first, second, reader := ReadFrontThenAll(ShortImage(), 1);
  }
}
