/**
 The cache as one caller sees it: `make_fetch`, `route_block` and
 `Cache::read`, with the tiers updated in place, entries evicted at will and a
 source that may fail or stop short.
 */
module FoyerCache {
  import opened Basics
  import opened Arith
  import opened FoyerBlocks

  // The groups read from the source are resident whole and nothing else is; none was read twice.
  ghost predicate Closed(c: Config, resident: set<Key>, fetched: seq<Key>)
    requires Valid(c)
  {
    && (forall i :: 0 <= i < |fetched| ==> GroupResident(c, resident, fetched[i]))
    && (forall k :: k in resident ==> GroupOf(c, k) in fetched)
    && (forall i, j :: 0 <= i < j < |fetched| ==> fetched[i] != fetched[j])
  }

  // A missing block's group has not been read yet.
  lemma MissIsNew(c: Config, resident: set<Key>, fetched: seq<Key>, k: Key)
    requires Valid(c) && InRange(c, k) && OnGrid(c, k) && Closed(c, resident, fetched) && k !in resident
    ensures GroupOf(c, k) !in fetched
  {
    DemandedIsInGroup(c, k);
    var j: nat :| j < c.perGroup && BlockKey(c, GroupOf(c, k), j) == k;
    assert !GroupResident(c, resident, GroupOf(c, k));
  }

  /** `readahead_block_range` */
  function ReadaheadRange(csend: nat, chlen: nat, readahead: nat, end: nat): (r: (nat, nat))
    requires chlen > 0
    ensures csend <= r.0 < csend + chlen && r.0 % chlen == 0 && r.1 <= end
  {
    var n := DivCeil(csend, chlen);
    MulDiv(n, 0, chlen);
    assert n > 0 ==> n * chlen == (n - 1) * chlen + chlen;
    (n * chlen, Min(n * chlen + readahead * chlen, end))
  }

  // A block of the readahead window: it begins within `readahead` blocks of where the read ended.
  ghost predicate InWindow(c: Config, idx: nat, csend: nat, readahead: nat, k: Key)
    requires c.chlen > 0 && idx in c.sources
  {
    k.idx == idx && OnGrid(c, k) && csend <= k.off < csend + readahead * c.chlen && k.off < |c.sources[idx]|
  }

  // No block boundary lies in between.
  lemma NoBoundary(x: nat, lo: nat, hi: nat, d: nat)
    requires d > 0 && x % d == 0 && hi % d == 0 && lo <= x && lo <= hi < lo + d
    ensures hi <= x
  {
    var q, p := x / d, hi / d;
    Bucket(x, d, q);
    Bucket(hi, d, p);
    if p <= q {
      MulMonotone(p, q, d);
    } else {
      MulMonotone(q + 1, p, d);
    }
  }

  lemma WindowOnGrid(x: nat, csend: nat, beg: nat, n: nat, d: nat)
    requires d > 0 && x % d == 0 && beg % d == 0 && (beg + n) % d == 0 && csend <= beg < csend + d
    ensures beg <= x < beg + n <==> csend <= x < csend + n
  {
    if csend <= x {
      NoBoundary(x, csend, beg, d);
    }
    if csend + n <= x {
      NoBoundary(x, csend + n, beg + n, d);
    }
  }

  lemma MultipleAdded(a: nat, r: nat, d: nat)
    requires d > 0 && a % d == 0
    ensures (a + r * d) % d == 0
  {
    var q := a / d;
    assert a == q * d;
    MulDiv(q + r, 0, d);
    assert a + r * d == (q + r) * d;
  }

  /** The block range covers exactly the blocks of the window. */
  lemma RangeIsWindow(c: Config, idx: nat, csend: nat, readahead: nat, k: Key)
    requires c.chlen > 0 && idx in c.sources && k.idx == idx && OnGrid(c, k)
    ensures var (beg, end) := ReadaheadRange(csend, c.chlen, readahead, |c.sources[idx]|);
            beg <= k.off < end <==> InWindow(c, idx, csend, readahead, k)
  {
    var beg := ReadaheadRange(csend, c.chlen, readahead, |c.sources[idx]|).0;
    MultipleAdded(beg, readahead, c.chlen);
    WindowOnGrid(k.off, csend, beg, readahead * c.chlen, c.chlen);
  }

  // The next block up lies in the same group or a later one, with no block in between.
  lemma WindowStep(c: Config, idx: nat, choff: nat)
    requires Valid(c) && choff % c.chlen == 0
    ensures (choff + c.chlen) % c.chlen == 0
    ensures GroupOf(c, Key(idx, choff)).off <= GroupOf(c, Key(idx, choff + c.chlen)).off
    ensures forall x: nat :: choff < x < choff + c.chlen ==> x % c.chlen != 0
  {
    NextOnGrid(c, choff);
    DivMonotone(choff, choff + c.chlen, Group(c));
    MulMonotone(choff / Group(c), (choff + c.chlen) / Group(c), Group(c));
    forall x: nat | choff < x < choff + c.chlen ensures x % c.chlen != 0 {
      MulDiv(choff / c.chlen, x - choff, c.chlen);
      assert x == (choff / c.chlen) * c.chlen + (x - choff);
    }
  }

  // The keys picked from the window below choff: missing blocks, one for every group that has one.
  // last is the group of the latest pick.
  ghost predicate Picked(c: Config, resident: set<Key>, idx: nat, beg: nat, end: nat, choff: nat, keys: seq<Key>,
                         last: Option<nat>)
    requires Valid(c)
  {
    && (forall i :: 0 <= i < |keys| ==>
          keys[i].idx == idx && beg <= keys[i].off < end && OnGrid(c, keys[i]) && keys[i] !in resident)
    && (forall i, j :: 0 <= i < j < |keys| ==> GroupOf(c, keys[i]).off < GroupOf(c, keys[j]).off)
    && (last.None? <==> keys == [])
    && (last.Some? ==> GroupOf(c, keys[|keys| - 1]).off == last.value <= GroupOf(c, Key(idx, choff)).off)
    && (forall x: nat :: beg <= x < choff && x < end && x % c.chlen == 0 && Key(idx, x) !in resident ==>
          Represented(c, keys, Key(idx, x)))
  }

  ghost predicate Represented(c: Config, keys: seq<Key>, k: Key)
    requires Valid(c)
  {
    exists i :: 0 <= i < |keys| && GroupOf(c, keys[i]) == GroupOf(c, k)
  }

  lemma RepresentedMore(c: Config, keys: seq<Key>, key: Key, k: Key)
    requires Valid(c) && Represented(c, keys, k)
    ensures Represented(c, keys + [key], k)
  {
    var i :| 0 <= i < |keys| && GroupOf(c, keys[i]) == GroupOf(c, k);
    assert (keys + [key])[i] == keys[i];
  }

  lemma PickSkip(c: Config, resident: set<Key>, idx: nat, beg: nat, end: nat, choff: nat, keys: seq<Key>,
                 last: Option<nat>)
    requires Valid(c) && Picked(c, resident, idx, beg, end, choff, keys, last) && beg <= choff && choff % c.chlen == 0
    requires Key(idx, choff) in resident || last == Some(GroupOf(c, Key(idx, choff)).off)
    ensures Picked(c, resident, idx, beg, end, choff + c.chlen, keys, last)
  {
    WindowStep(c, idx, choff);
    if Key(idx, choff) !in resident {
      assert GroupOf(c, keys[|keys| - 1]) == GroupOf(c, Key(idx, choff));
      assert Represented(c, keys, Key(idx, choff));
    }
  }

  lemma PickTake(c: Config, resident: set<Key>, idx: nat, beg: nat, end: nat, choff: nat, keys: seq<Key>,
                 last: Option<nat>)
    requires Valid(c) && Picked(c, resident, idx, beg, end, choff, keys, last) && beg <= choff < end
    requires choff % c.chlen == 0
    requires Key(idx, choff) !in resident && last != Some(GroupOf(c, Key(idx, choff)).off)
    ensures var key := Key(idx, choff);
            Picked(c, resident, idx, beg, end, choff + c.chlen, keys + [key], Some(GroupOf(c, key).off))
  {
    var key := Key(idx, choff);
    var keys' := keys + [key];
    WindowStep(c, idx, choff);
    assert keys'[|keys|] == key;
    forall i | 0 <= i < |keys| ensures GroupOf(c, keys[i]).off < GroupOf(c, key).off {
      assert i < |keys| - 1 ==> GroupOf(c, keys[i]).off < GroupOf(c, keys[|keys| - 1]).off;
    }
    forall x: nat | beg <= x < choff + c.chlen && x < end && x % c.chlen == 0 && Key(idx, x) !in resident
      ensures Represented(c, keys', Key(idx, x))
    {
      if x < choff {
        RepresentedMore(c, keys, key, Key(idx, x));
      }
    }
  }

  method PickWindow(c: Config, resident: set<Key>, idx: nat, beg: nat, end: nat, spare: nat)
    returns (keys: seq<Key>, left: nat)
    requires Valid(c) && beg % c.chlen == 0
    ensures left + |keys| == spare
    ensures forall i :: 0 <= i < |keys| ==>
              keys[i].idx == idx && beg <= keys[i].off < end && OnGrid(c, keys[i]) && keys[i] !in resident
    ensures forall i, j :: 0 <= i < j < |keys| ==> GroupOf(c, keys[i]).off < GroupOf(c, keys[j]).off
    ensures left > 0 ==> forall x: nat :: beg <= x < end && x % c.chlen == 0 && Key(idx, x) !in resident ==>
              Represented(c, keys, Key(idx, x))
  {
    keys, left := [], spare;
    var choff: nat, last: Option<nat> := beg, None;
    while choff < end
      invariant beg <= choff && choff % c.chlen == 0 && left + |keys| == spare
      invariant Picked(c, resident, idx, beg, end, choff, keys, last)
      decreases end - choff
    {
      var gbeg := GroupOf(c, Key(idx, choff)).off;
      NextOnGrid(c, choff);
      if Key(idx, choff) in resident || last == Some(gbeg) {
        PickSkip(c, resident, idx, beg, end, choff, keys, last);
      } else {
        if left == 0 {
          return;
        }
        PickTake(c, resident, idx, beg, end, choff, keys, last);
        left, last, keys := left - 1, Some(gbeg), keys + [Key(idx, choff)];
      }
      choff := choff + c.chlen;
    }
  }

  // ---- The blocks a read demands ----

  // Blocks begin at csbeg, csbeg + chlen, ... as far as they lie below csend.
  ghost predicate Demanded(c: Config, idx: nat, csbeg: nat, csend: nat, k: Key)
    requires c.chlen > 0
  {
    k.idx == idx && csbeg <= k.off < csend && OnGrid(c, k)
  }

  ghost predicate Touched(c: Config, idx: nat, csbeg: nat, csend: nat, g: Key)
    requires Valid(c)
  {
    exists k :: Demanded(c, idx, csbeg, csend, k) && GroupOf(c, k) == g
  }

  // More source reads than before, each of a group the demand touches.
  ghost predicate FetchedFor(c: Config, before: seq<Key>, after: seq<Key>, idx: nat, csbeg: nat, csend: nat)
    requires Valid(c)
  {
    && before <= after
    && forall i :: |before| <= i < |after| ==> Touched(c, idx, csbeg, csend, after[i])
  }

  // New keys of the metadata tier are blocks demanded in the metadata phase, never siblings of one.
  ghost predicate MetaFor(c: Config, before: set<Key>, after: set<Key>, regular: bool, idx: nat, csbeg: nat, csend: nat)
    requires c.chlen > 0
  {
    forall k :: k in after && k !in before ==> c.dual && !regular && Demanded(c, idx, csbeg, csend, k)
  }

  lemma FetchedForMore(c: Config, before: seq<Key>, mid: seq<Key>, after: seq<Key>, idx: nat, csbeg: nat, csend: nat,
                       k: Key)
    requires Valid(c) && FetchedFor(c, before, mid, idx, csbeg, csend) && Demanded(c, idx, csbeg, csend, k)
    requires after == mid || after == mid + [GroupOf(c, k)]
    ensures FetchedFor(c, before, after, idx, csbeg, csend)
  {
    assert Touched(c, idx, csbeg, csend, GroupOf(c, k));
  }

  // Blocks one after another from csbeg, each with the offset it starts at.
  ghost predicate AreBlocks(c: Config, idx: nat, csbeg: nat, chunks: seq<(nat, seq<byte>)>) {
    && (|chunks| > 0 ==> chunks[0].0 == csbeg)
    && (forall i :: 0 < i < |chunks| ==> chunks[i].0 == chunks[i - 1].0 + c.chlen)
    && (forall i :: 0 <= i < |chunks| ==>
          InRange(c, Key(idx, chunks[i].0)) && chunks[i].1 == Block(c, Key(idx, chunks[i].0)))
  }

  // Where the blocks end.
  function Reach(c: Config, csbeg: nat, chunks: seq<(nat, seq<byte>)>): nat {
    if chunks == [] then csbeg else chunks[|chunks| - 1].0 + c.chlen
  }

  lemma BlocksMore(c: Config, idx: nat, csbeg: nat, chunks: seq<(nat, seq<byte>)>, choff: nat, block: seq<byte>)
    requires AreBlocks(c, idx, csbeg, chunks) && choff == Reach(c, csbeg, chunks)
    requires InRange(c, Key(idx, choff)) && block == Block(c, Key(idx, choff))
    ensures AreBlocks(c, idx, csbeg, chunks + [(choff, block)])
    ensures Reach(c, csbeg, chunks + [(choff, block)]) == choff + c.chlen
  {
  }

  // The demanded blocks below choff.
  ghost predicate Gathered(c: Config, idx: nat, csbeg: nat, csend: nat, choff: nat, chunks: seq<(nat, seq<byte>)>) {
    && choff == Reach(c, csbeg, chunks) && AreBlocks(c, idx, csbeg, chunks)
    && forall i :: 0 <= i < |chunks| ==> chunks[i].0 < csend
  }

  lemma GatheredMore(c: Config, idx: nat, csbeg: nat, csend: nat, choff: nat, chunks: seq<(nat, seq<byte>)>,
                     block: seq<byte>)
    requires Gathered(c, idx, csbeg, csend, choff, chunks) && choff < csend
    requires InRange(c, Key(idx, choff)) && block == Block(c, Key(idx, choff))
    ensures Gathered(c, idx, csbeg, csend, choff + c.chlen, chunks + [(choff, block)])
  {
    BlocksMore(c, idx, csbeg, chunks, choff, block);
  }

  lemma NextOnGrid(c: Config, off: nat)
    requires c.chlen > 0 && off % c.chlen == 0
    ensures (off + c.chlen) % c.chlen == 0
  {
    MulDiv(off / c.chlen + 1, 0, c.chlen);
    assert off + c.chlen == (off / c.chlen + 1) * c.chlen;
  }

  // buf[..n] holds the source's bytes from off.
  ghost predicate FilledTo(src: seq<byte>, off: nat, buf: array<byte>, n: nat)
    reads buf
  {
    n <= buf.Length && off + n <= |src| && forall j :: 0 <= j < n ==> buf[j] == src[off + j]
  }

  lemma FilledWhole(src: seq<byte>, off: nat, buf: array<byte>)
    requires FilledTo(src, off, buf, buf.Length)
    ensures buf[..] == src[off..off + buf.Length]
  {
  }

  // One turn of the copy loop: the part of block ch, which starts at choff, that continues buf[..bbeg].
  method CopyBlock(off: nat, buf: array<byte>, bbeg: nat, choff: nat, ch: seq<byte>, ghost src: seq<byte>)
    returns (r: Option<nat>)
    requires FilledTo(src, off, buf, bbeg) && off + buf.Length <= |src|
    requires choff + |ch| <= |src| && ch == src[choff..choff + |ch|]
    modifies buf
    ensures r.Some? <==> choff <= off + bbeg <= choff + |ch|
    ensures r.Some? ==> off + r.value == Min(off + buf.Length, choff + |ch|) && FilledTo(src, off, buf, r.value)
  {
    if off + bbeg < choff {
      return None;
    }
    var chbeg := (off + bbeg) - choff;
    var chend := Min(chbeg + (buf.Length - bbeg), |ch|);
    if chend < chbeg {
      return None;
    }
    var bend := bbeg + (chend - chbeg);
    forall j | bbeg <= j < bend {
      buf[j] := ch[chbeg + (j - bbeg)];
    }
    r := Some(bend);
  }

  lemma BlockAt(c: Config, idx: nat, csbeg: nat, chunks: seq<(nat, seq<byte>)>, i: nat)
    requires AreBlocks(c, idx, csbeg, chunks) && idx in c.sources && i < |chunks|
    ensures Reach(c, csbeg, chunks[..i]) == chunks[i].0 && Reach(c, csbeg, chunks[..i + 1]) == chunks[i].0 + c.chlen
    ensures var (choff, ch) := chunks[i];
            choff + |ch| == Min(choff + c.chlen, |c.sources[idx]|) && ch == c.sources[idx][choff..choff + |ch|]
  {
  }

  // A block that begins where the blocks before it ended always continues the copy.
  method CopyNext(c: Config, off: nat, buf: array<byte>, bbeg: nat, choff: nat, ch: seq<byte>, ghost src: seq<byte>)
    returns (r: Option<nat>)
    requires FilledTo(src, off, buf, bbeg) && off + buf.Length <= |src|
    requires choff + |ch| == Min(choff + c.chlen, |src|) && ch == src[choff..choff + |ch|]
    requires choff < off + buf.Length && off < choff + c.chlen && off + bbeg == Max(off, choff)
    modifies buf
    ensures r.Some? && FilledTo(src, off, buf, r.value) && off + r.value == Min(choff + c.chlen, off + buf.Length)
  {
    r := CopyBlock(off, buf, bbeg, choff, ch, src);
  }

  /** The copy loop of a read over several blocks. */
  method FillFromBlocks(c: Config, idx: nat, off: nat, csbeg: nat, chunks: seq<(nat, seq<byte>)>, buf: array<byte>)
    returns (ok: bool)
    requires c.chlen > 0 && idx in c.sources && csbeg <= off < csbeg + c.chlen && off + buf.Length <= |c.sources[idx]|
    requires AreBlocks(c, idx, csbeg, chunks) && off + buf.Length <= Reach(c, csbeg, chunks)
    requires forall i :: 0 <= i < |chunks| ==> chunks[i].0 < off + buf.Length
    modifies buf
    ensures ok && buf[..] == c.sources[idx][off..off + buf.Length]
  {
    ghost var src, reach := c.sources[idx], csbeg;
    var bbeg := 0;
    for i := 0 to |chunks|
      invariant FilledTo(src, off, buf, bbeg) && off < reach + c.chlen
      invariant off + bbeg == Max(off, Min(reach, off + buf.Length)) && reach == Reach(c, csbeg, chunks[..i])
    {
      BlockAt(c, idx, csbeg, chunks, i);
      var next := CopyNext(c, off, buf, bbeg, chunks[i].0, chunks[i].1, src);
      if next.None? {
        return false;
      }
      bbeg, reach := next.value, chunks[i].0 + c.chlen;
    }
    PrefixAll(chunks);
    if bbeg != buf.Length {
      return false;
    }
    FilledWhole(src, off, buf);
    ok := true;
  }

  /** `fill_from_block`: a read that lies in one block. */
  method FillFromBlock(buf: array<byte>, off: nat, choff: nat, ch: seq<byte>) returns (ok: bool)
    requires choff <= off
    modifies buf
    ensures ok <==> off - choff + buf.Length <= |ch|
    ensures ok ==> buf[..] == ch[off - choff..off - choff + buf.Length]
    ensures !ok ==> buf[..] == old(buf[..])
  {
    var chbeg := off - choff;
    var chend := chbeg + buf.Length;
    if chend > |ch| {
      return false;
    }
    forall j | 0 <= j < buf.Length {
      buf[j] := ch[chbeg + j];
    }
    assert forall j :: 0 <= j < buf.Length ==> buf[..][j] == ch[chbeg..chend][j];
    ok := true;
  }

  // A part of a block is a part of the source.
  lemma PartOfBlock(c: Config, k: Key, off: nat, n: nat)
    requires InRange(c, k) && k.off <= off && off + n <= |c.sources[k.idx]| && off + n <= k.off + c.chlen
    ensures off - k.off + n <= |Block(c, k)|
    ensures Block(c, k)[off - k.off..off - k.off + n] == c.sources[k.idx][off..off + n]
  {
    var src := c.sources[k.idx];
    SubSlice(src, k.off, Min(k.off + c.chlen, |src|), off - k.off, off - k.off + n);
  }

  // ---- What came of the source reads ----

  // A read of the group that key is in, made to get the block at key.
  datatype SourceRead = SourceRead(key: Key, answer: Option<seq<byte>>)

  // It came back and reaches the end of the block.
  ghost predicate Held(c: Config, rd: SourceRead) {
    rd.answer.Some? && ReachesEnd(c, rd.key, rd.answer.value)
  }

  // No source was read, or the last read held the block it was made for.
  ghost predicate WellAnswered(c: Config, before: seq<SourceRead>, after: seq<SourceRead>) {
    |after| == |before| || (after != [] && Held(c, Last(after)))
  }

  // One more source read for this block if it was not resident, and none otherwise.
  ghost predicate ReadFor(c: Config, before: seq<SourceRead>, after: seq<SourceRead>, key: Key, resident: set<Key>) {
    if key in resident then after == before
    else |after| == |before| + 1 && before <= after && Last(after).key == key
  }

  // The first j blocks of key's group are dealt with: kept in the content tier, or handed back as r.
  ghost predicate Cutting(c: Config, key: Key, j: nat, calm: bool, content0: map<Key, seq<byte>>, content: map<Key,
                          seq<byte>>, r: Option<seq<byte>>)
    requires Valid(c) && InRange(c, key)
  {
    && Coherent(c, content) && (r.Some? ==> r.value == Block(c, key)) && (key in content ==> key in content0)
    && (forall k :: k in content && k !in content0 ==> GroupOf(c, k) == GroupOf(c, key))
    && (calm ==> content0.Keys <= content.Keys)
    && (calm ==> forall i: nat :: i < j ==> BlockKey(c, GroupOf(c, key), i) in content.Keys + {key})
    && (r.Some? <==> key.off < BlockKey(c, GroupOf(c, key), j).off)
  }

  // Block j dealt with.
  lemma {:induction false} CutOneMore(c: Config, key: Key, j: nat, calm: bool, content0: map<Key, seq<byte>>,
                                      content: map<Key, seq<byte>>, r: Option<seq<byte>>, block: seq<byte>)
    requires Valid(c) && InRange(c, key) && OnGrid(c, key) && Cutting(c, key, j, calm, content0, content, r)
    requires var k := BlockKey(c, GroupOf(c, key), j); j < c.perGroup && InRange(c, k) && block == Block(c, k)
    ensures var k := BlockKey(c, GroupOf(c, key), j);
            Cutting(c, key, j + 1, calm, content0, if k == key then content else content[k := block],
                    if k == key then Some(block) else r)
  {
    KeyAtBlock(c, key, j);
    BlockInGroup(c, key, j);
  }

  lemma {:induction false} CutDropped(c: Config, key: Key, j: nat, content0: map<Key, seq<byte>>,
                                      content: map<Key, seq<byte>>, r: Option<seq<byte>>, dropped: set<Key>)
    requires Valid(c) && InRange(c, key) && Cutting(c, key, j, false, content0, content, r)
    ensures Cutting(c, key, j, false, content0, content - dropped, r)
  {
  }

  // When the cutting ends: past the group's end, or at a block that the answer does not reach the end of.
  lemma CutEnds(c: Config, key: Key, bytes: seq<byte>, j: nat)
    requires Valid(c) && InRange(c, key) && OnGrid(c, key) && InRange(c, GroupOf(c, key))
    requires var g := GroupOf(c, key);
             && Min(BlockKey(c, g, j).off, GroupEnd(c, g)) <= g.off + |bytes|
             && (BlockKey(c, g, j).off < GroupEnd(c, g) ==> BlockEnd(c, g, j) > |bytes|)
    ensures key.off < BlockKey(c, GroupOf(c, key), j).off <==> Held(c, SourceRead(key, Some(bytes)))
  {
    var g := GroupOf(c, key);
    KeyAtBlock(c, key, j);
    DemandedIsInGroup(c, key);
    var i: nat :| i < c.perGroup && BlockKey(c, g, i) == key;
    BlockGeometry(c, g, i);
    if key.off < BlockKey(c, g, j).off {
      if j <= i {
        MulMonotone(j, i, c.chlen);
        assert false;
      }
      MulMonotone(i + 1, j, c.chlen);
      assert (i + 1) * c.chlen == i * c.chlen + c.chlen;
    }
  }

  class Cache {
    const c: Config
    const evicts: bool     // entries may be dropped at any time
    const healthy: bool    // every source read comes back whole
    // Only the counting of fetches depends on both.
    const calm: bool := healthy && !evicts
    var content: map<Key, seq<byte>>
    var meta: map<Key, seq<byte>>
    var regular: bool
    ghost var fetched: seq<Key>    // the groups read from the sources, in order
    ghost var log: seq<SourceRead>    // these reads, and what came of them

    ghost predicate Ok()
      reads this
    {
      && Valid(c) && Coherent(c, content) && Coherent(c, meta)
      && (!c.dual ==> meta == map[])
      && (calm ==> Closed(c, Resident(), fetched))
    }

    ghost function Resident(): set<Key>
      reads this
    {
      content.Keys + meta.Keys
    }

    constructor (c: Config, evicts: bool, healthy: bool)
      requires Valid(c)
      ensures Ok() && this.c == c && this.evicts == evicts && this.healthy == healthy
      ensures content == map[] && meta == map[] && !regular && fetched == [] && log == []
    {
      this.c, this.evicts, this.healthy := c, evicts, healthy;
      content, meta, regular, fetched, log := map[], map[], false, [], [];
    }

    // SIGUSR1: the metadata phase is over.
    method Flip()
      requires Ok()
      modifies this`regular
      ensures Ok() && regular
    {
      regular := true;
    }

    // The environment may drop any entries at any time, unless there is no eviction.
    method Evict()
      requires Ok()
      modifies this`content, this`meta
      ensures Ok()
      ensures content.Keys <= old(content.Keys) && meta.Keys <= old(meta.Keys)
      ensures !evicts ==> content == old(content) && meta == old(meta)
    {
      if evicts {
        var a: set<Key>, b: set<Key> := *, *;
        content, meta := content - a, meta - b;
      }
    }

    // One read of a source, for the group that key is in. It may fail, stop short or run on; a healthy source does
    // neither of the first two.
    method ReadSource(key: Key) returns (r: Option<seq<byte>>)
      requires Ok() && InRange(c, key) && InRange(c, GroupOf(c, key))
      modifies this`fetched, this`log
      ensures fetched == old(fetched) + [GroupOf(c, key)] && log == old(log) + [SourceRead(key, r)]
      ensures r.Some? ==> Agrees(c, GroupOf(c, key), r.value)
      ensures healthy ==> r.Some? && |r.value| >= GroupEnd(c, GroupOf(c, key)) - GroupOf(c, key).off
    {
      var g := GroupOf(c, key);
      fetched := fetched + [g];
      var fails: bool, short: nat, extra: seq<byte> := *, *, *;
      var want := GroupEnd(c, g) - g.off;
      if !healthy && fails {
        r := None;
      } else if !healthy && short < want {
        r := Some(c.sources[g.idx][g.off..g.off + short]);
      } else {
        r := Some(c.sources[g.idx][g.off..g.off + want] + extra);
      }
      log := log + [SourceRead(key, r)];
    }

    // Keep block j of key's group, or hand it back if it is the one demanded; entries may be dropped meanwhile.
    method KeepBlock(key: Key, j: nat, block: seq<byte>, r0: Option<seq<byte>>, ghost content0: map<Key, seq<byte>>)
      returns (r: Option<seq<byte>>)
      requires Valid(c) && InRange(c, key) && OnGrid(c, key) && Cutting(c, key, j, calm, content0, content, r0)
      requires var k := BlockKey(c, GroupOf(c, key), j); j < c.perGroup && InRange(c, k) && block == Block(c, k)
      modifies this`content
      ensures Cutting(c, key, j + 1, calm, content0, content, r)
    {
      var k := BlockKey(c, GroupOf(c, key), j);
      CutOneMore(c, key, j, calm, content0, content, r0, block);
      r, content := if k == key then Some(block) else r0, if k == key then content else content[k := block];
      if evicts {
        var dropped: set<Key> := *;
        CutDropped(c, key, j + 1, content0, content, r, dropped);
        content := content - dropped;
      }
    }

    // One turn of the loop over the blocks of a group: keep block j, or hand it back if it is the one demanded.
    method TakeBlock(key: Key, bytes: seq<byte>, j: nat, r0: Option<seq<byte>>, ghost content0: map<Key, seq<byte>>)
      returns (r: Option<seq<byte>>, fits: bool)
      requires Valid(c) && InRange(c, key) && InRange(c, GroupOf(c, key)) && Agrees(c, GroupOf(c, key), bytes)
      requires OnGrid(c, key)
      requires BlockKey(c, GroupOf(c, key), j).off < GroupEnd(c, GroupOf(c, key))
      requires Cutting(c, key, j, calm, content0, content, r0)
      modifies this`content
      ensures Cutting(c, key, if fits then j + 1 else j, calm, content0, content, r) && j < c.perGroup
      ensures fits <==> BlockEnd(c, GroupOf(c, key), j) <= |bytes|
      ensures |bytes| >= GroupEnd(c, GroupOf(c, key)) - GroupOf(c, key).off ==> fits
    {
      var g := GroupOf(c, key);
      BlockGeometry(c, g, j);
      r, fits := r0, true;
      var end := BlockEnd(c, g, j);
      if end > |bytes| {
        fits := false;
        return;
      }
      CutBlock(c, g, bytes, j);
      r := KeepBlock(key, j, bytes[j * c.chlen..end], r0, content0);
    }

    /** `make_fetch`: read the whole group, keep its other blocks in the content tier, hand back the one demanded. */
    method MakeFetch(key: Key) returns (r: Option<seq<byte>>)
      requires Ok() && InRange(c, key) && OnGrid(c, key)
      modifies this`content, this`fetched, this`log
      ensures fetched == old(fetched) + [GroupOf(c, key)]
      ensures Coherent(c, content) && (calm ==> old(content.Keys) <= content.Keys)
      ensures key in content ==> key in old(content)
      ensures forall k :: k in content && k !in old(content) ==> GroupOf(c, k) == GroupOf(c, key)
      ensures r.Some? ==> r.value == Block(c, key)
      ensures calm ==> r.Some? && GroupResident(c, content.Keys + {key}, GroupOf(c, key))
      ensures |log| == |old(log)| + 1 && old(log) <= log && Last(log).key == key
      ensures r.Some? <==> Held(c, Last(log))
      ensures healthy ==> r.Some?
    {
      var g := GroupOf(c, key);
      DemandedIsInGroup(c, key);
      var got := ReadSource(key);
      if got.None? {
        return None;
      }
      var bytes, gend := got.value, GroupEnd(c, g);
      var j := 0;
      r := None;
      while BlockKey(c, g, j).off < gend
        invariant fetched == old(fetched) + [g] && j <= c.perGroup && Cutting(c, key, j, calm, old(content), content, r)
        invariant log == old(log) + [SourceRead(key, got)]
        invariant Min(BlockKey(c, g, j).off, gend) <= g.off + |bytes|
        decreases c.perGroup - j
      {
        var fits;
        r, fits := TakeBlock(key, bytes, j, r, old(content));
        if !fits {
          break;
        }
        KeyAtBlock(c, key, j);
        j := j + 1;
      }
      CutEnds(c, key, bytes, j);
      if calm {
        AllBlocksBelow(c, key, j);
      }
    }

    // Fetch the block and put it where it was routed to.
    method FetchInto(key: Key, toMeta: bool) returns (r: Option<seq<byte>>)
      requires Ok() && InRange(c, key) && OnGrid(c, key) && key !in Resident() && (toMeta ==> c.dual)
      modifies this`content, this`meta, this`fetched, this`log
      ensures Ok() && fetched == old(fetched) + [GroupOf(c, key)]
      ensures meta.Keys <= old(meta.Keys) + (if toMeta then {key} else {})
      ensures r.Some? ==> r.value == Block(c, key)
      ensures calm ==> r.Some? && key in Resident() && old(Resident()) <= Resident()
      ensures toMeta ==> key !in content && (calm ==> key in meta)
      ensures ReadFor(c, old(log), log, key, {}) && (r.Some? <==> Held(c, Last(log)))
      ensures (r.None? ==> key !in Resident()) && (healthy ==> r.Some?)
    {
      if calm {
        MissIsNew(c, Resident(), fetched, key);
      }
      r := MakeFetch(key);
      if r.Some? {
        if toMeta {
          meta := meta[key := r.value];
        } else {
          content := content[key := r.value];
        }
      }
      if calm {
        ClosedMore(c, old(Resident()), old(fetched), Resident(), GroupOf(c, key));
      }
    }

    /** `route_block`, for one caller at a time. */
    method RouteBlock(key: Key) returns (r: Option<seq<byte>>)
      requires Ok() && InRange(c, key) && OnGrid(c, key)
      modifies this`content, this`meta, this`fetched, this`log
      ensures Ok()
      ensures r.Some? ==> r.value == Block(c, key)
      ensures meta.Keys <= old(meta.Keys) + (if c.dual && !regular then {key} else {})
      ensures fetched == if key in old(Resident()) then old(fetched) else old(fetched) + [GroupOf(c, key)]
      ensures ReadFor(c, old(log), log, key, old(Resident()))
      ensures r.Some? <==> key in old(Resident()) || Held(c, Last(log))
      ensures key in old(Resident()) ==> Resident() <= old(Resident())
      ensures (r.None? ==> key !in Resident()) && (healthy ==> r.Some?)
      ensures calm ==> r.Some? && key in Resident() && old(Resident()) <= Resident()
      ensures c.dual && !regular ==> (calm ==> key in meta) && (key in content ==> key in old(content))
    {
      if c.dual {
        if key in meta {
          r := Some(meta[key]);
        } else if key in content {
          r := Some(content[key]);
          if !regular {
            meta := meta[key := content[key]];
            assert Resident() == old(Resident());
          }
        } else {
          r := FetchInto(key, !regular);
        }
      } else if key in content {
        r := Some(content[key]);
      } else {
        r := FetchInto(key, false);
      }
      Evict();
    }

    // Whether the block is the first of this read in its group.
    function IsLeader(choff: nat, csbeg: nat): bool
      requires c.chlen > 0 && c.perGroup > 0
    {
      choff == Max(GroupOf(c, Key(0, choff)).off, csbeg)
    }

    // Route a block for the sake of what it leaves in the cache.
    method Warm(key: Key)
      requires Ok() && InRange(c, key) && OnGrid(c, key)
      modifies this`content, this`meta, this`fetched, this`log
      ensures Ok() && (calm ==> key in Resident() && old(Resident()) <= Resident())
    {
      var block := RouteBlock(key);
    }

    // Route some blocks one after another, whatever comes of it.
    method Prefetch(keys: seq<Key>)
      requires Ok() && forall i :: 0 <= i < |keys| ==> InRange(c, keys[i]) && OnGrid(c, keys[i])
      modifies this`content, this`meta, this`fetched, this`log
      ensures Ok() && (calm ==> old(Resident()) <= Resident())
      ensures calm ==> forall i :: 0 <= i < |keys| ==> keys[i] in Resident()
    {
      for i := 0 to |keys|
        invariant Ok() && (calm ==> old(Resident()) <= Resident())
        invariant calm ==> FirstResident(keys, i, Resident())
      {
        ghost var before := Resident();
        Warm(keys[i]);
        if calm {
          OneMoreResident(keys, i, before, Resident());
        }
      }
    }

    // Route one of the blocks a read demands.
    method RouteDemanded(idx: nat, csbeg: nat, csend: nat, choff: nat, ghost fetched0: seq<Key>, ghost meta0: set<Key>)
      returns (r: Option<seq<byte>>)
      requires Ok() && Demanded(c, idx, csbeg, csend, Key(idx, choff)) && InRange(c, Key(idx, choff))
      requires FetchedFor(c, fetched0, fetched, idx, csbeg, csend)
      requires MetaFor(c, meta0, meta.Keys, regular, idx, csbeg, csend)
      modifies this`content, this`meta, this`fetched, this`log
      ensures Ok()
      ensures FetchedFor(c, fetched0, fetched, idx, csbeg, csend)
      ensures MetaFor(c, meta0, meta.Keys, regular, idx, csbeg, csend)
      ensures r.Some? ==> r.value == Block(c, Key(idx, choff))
      ensures calm ==> r.Some? && old(Resident()) <= Resident() && Key(idx, choff) in Resident()
      ensures Key(idx, choff) in old(Resident()) ==> fetched == old(fetched)
      ensures ReadFor(c, old(log), log, Key(idx, choff), old(Resident()))
      ensures r.Some? <==> Key(idx, choff) in old(Resident()) || Held(c, Last(log))
      ensures Key(idx, choff) in old(Resident()) ==> Resident() <= old(Resident())
      ensures (r.None? ==> Key(idx, choff) !in Resident()) && (healthy ==> r.Some?)
    {
      r := RouteBlock(Key(idx, choff));
      FetchedForMore(c, fetched0, old(fetched), fetched, idx, csbeg, csend, Key(idx, choff));
    }

    // Route the first demanded block of every group, so that the rest of the read finds its blocks resident.
    method RouteLeaders(idx: nat, csbeg: nat, csend: nat)
      requires Ok() && idx in c.sources && csend <= |c.sources[idx]| && csbeg % c.chlen == 0
      modifies this`content, this`meta, this`fetched, this`log
      ensures Ok()
      ensures FetchedFor(c, old(fetched), fetched, idx, csbeg, csend)
      ensures calm ==> old(Resident()) <= Resident() && ResidentTo(c, Resident(), idx, csbeg, csend)
      ensures MetaFor(c, old(meta).Keys, meta.Keys, regular, idx, csbeg, csend)
      ensures |old(log)| <= |log| && (WellAnswered(c, old(log), log) || !ResidentTo(c, Resident(), idx, csbeg, csend))
    {
      var choff := csbeg;
      while choff < csend
        invariant Ok() && choff % c.chlen == 0 && csbeg <= choff
        invariant FetchedFor(c, old(fetched), fetched, idx, csbeg, csend)
        invariant calm ==> old(Resident()) <= Resident() && ResidentTo(c, Resident(), idx, csbeg, choff)
        invariant MetaFor(c, old(meta).Keys, meta.Keys, regular, idx, csbeg, csend)
        invariant WellAnswered(c, old(log), log) && |old(log)| <= |log|
        decreases csend - choff
      {
        if IsLeader(choff, csbeg) {
          var block := RouteDemanded(idx, csbeg, csend, choff, old(fetched), old(meta).Keys);
          if block.None? {
            assert Demanded(c, idx, csbeg, csend, Key(idx, choff));
            return;
          }
        } else if calm {
          FollowsLeader(c, Resident(), fetched, idx, csbeg, choff);
        }
        if calm {
          ResidentStep(c, Resident(), idx, csbeg, choff);
        }
        NextOnGrid(c, choff);
        choff := choff + c.chlen;
      }
    }

    // The block after those routed so far.
    method RouteNext(idx: nat, csbeg: nat, csend: nat, choff: nat, chunks: seq<(nat, seq<byte>)>,
                     ghost fetched0: seq<Key>, ghost meta0: set<Key>)
      returns (r: Option<seq<(nat, seq<byte>)>>)
      requires Ok() && Demanded(c, idx, csbeg, csend, Key(idx, choff)) && InRange(c, Key(idx, choff))
      requires Gathered(c, idx, csbeg, csend, choff, chunks)
      requires FetchedFor(c, fetched0, fetched, idx, csbeg, csend)
      requires MetaFor(c, meta0, meta.Keys, regular, idx, csbeg, csend)
      modifies this`content, this`meta, this`fetched, this`log
      ensures Ok()
      ensures FetchedFor(c, fetched0, fetched, idx, csbeg, csend)
      ensures MetaFor(c, meta0, meta.Keys, regular, idx, csbeg, csend)
      ensures r.Some? ==> Gathered(c, idx, csbeg, csend, choff + c.chlen, r.value)
      ensures (healthy ==> r.Some?) && (calm ==> old(Resident()) <= Resident())
      ensures Key(idx, choff) in old(Resident()) ==> fetched == old(fetched)
      ensures ReadFor(c, old(log), log, Key(idx, choff), old(Resident()))
      ensures r.Some? <==> Key(idx, choff) in old(Resident()) || Held(c, Last(log))
      ensures Key(idx, choff) in old(Resident()) ==> Resident() <= old(Resident())
    {
      var block := RouteDemanded(idx, csbeg, csend, choff, fetched0, meta0);
      if block.None? {
        return None;
      }
      GatheredMore(c, idx, csbeg, csend, choff, chunks, block.value);
      r := Some(chunks + [(choff, block.value)]);
    }

    // Route every demanded block in order, up to the first failure.
    method RouteAll(idx: nat, csbeg: nat, csend: nat) returns (r: Option<seq<(nat, seq<byte>)>>)
      requires Ok() && idx in c.sources && csend <= |c.sources[idx]| && csbeg % c.chlen == 0
      modifies this`content, this`meta, this`fetched, this`log
      ensures Ok()
      ensures r.Some? ==> AreBlocks(c, idx, csbeg, r.value) && csend <= Reach(c, csbeg, r.value)
      ensures r.Some? ==> forall i :: 0 <= i < |r.value| ==> r.value[i].0 < csend
      ensures FetchedFor(c, old(fetched), fetched, idx, csbeg, csend)
      ensures (healthy ==> r.Some?) && (calm ==> old(Resident()) <= Resident())
      ensures calm && ResidentTo(c, old(Resident()), idx, csbeg, csend) ==> fetched == old(fetched)
      ensures MetaFor(c, old(meta).Keys, meta.Keys, regular, idx, csbeg, csend)
      ensures |old(log)| <= |log| && (r.Some? <==> WellAnswered(c, old(log), log))
      ensures |log| == |old(log)| ==> log == old(log) && ResidentTo(c, old(Resident()), idx, csbeg, csend)
    {
      var choff: nat, chunks: seq<(nat, seq<byte>)> := csbeg, [];
      while choff < csend
        invariant Ok() && choff % c.chlen == 0 && csbeg <= choff
        invariant Gathered(c, idx, csbeg, csend, choff, chunks)
        invariant FetchedFor(c, old(fetched), fetched, idx, csbeg, csend)
        invariant calm ==> old(Resident()) <= Resident()
        invariant calm && ResidentTo(c, old(Resident()), idx, csbeg, csend) ==> fetched == old(fetched)
        invariant MetaFor(c, old(meta).Keys, meta.Keys, regular, idx, csbeg, csend)
        invariant WellAnswered(c, old(log), log) && |old(log)| <= |log|
        invariant |log| == |old(log)| ==>
                    && log == old(log) && Resident() <= old(Resident())
                    && ResidentTo(c, old(Resident()), idx, csbeg, choff)
        decreases csend - choff
      {
        var next := RouteNext(idx, csbeg, csend, choff, chunks, old(fetched), old(meta).Keys);
        if next.None? {
          return None;
        }
        chunks := next.value;
        if |log| == |old(log)| {
          ResidentStep(c, old(Resident()), idx, csbeg, choff);
        }
        NextOnGrid(c, choff);
        choff := choff + c.chlen;
      }
      r := Some(chunks);
    }

    // A read that lies in one block.
    method ReadOne(idx: nat, off: nat, csbeg: nat, buf: array<byte>) returns (ok: bool)
      requires Ok() && idx in c.sources && csbeg <= off && off + buf.Length <= |c.sources[idx]|
      requires csbeg % c.chlen == 0 && csbeg < off + buf.Length <= csbeg + c.chlen
      modifies this`content, this`meta, this`fetched, this`log, buf
      ensures Ok()
      ensures ok ==> buf[..] == c.sources[idx][off..off + buf.Length]
      ensures (healthy ==> ok) && (calm ==> old(Resident()) <= Resident())
      ensures |old(log)| <= |log| && (ok <==> WellAnswered(c, old(log), log))
      ensures FetchedFor(c, old(fetched), fetched, idx, csbeg, off + buf.Length)
      ensures MetaFor(c, old(meta).Keys, meta.Keys, regular, idx, csbeg, off + buf.Length)
    {
      var ch := RouteBlock(Key(idx, csbeg));
      FetchedForMore(c, old(fetched), old(fetched), fetched, idx, csbeg, off + buf.Length, Key(idx, csbeg));
      if ch.None? {
        return false;
      }
      PartOfBlock(c, Key(idx, csbeg), off, buf.Length);
      ok := FillFromBlock(buf, off, csbeg, ch.value);
    }

    // A read over any other number of blocks: first the leader of each group, then every block.
    method ReadMany(idx: nat, off: nat, csbeg: nat, buf: array<byte>) returns (ok: bool)
      requires Ok() && idx in c.sources && csbeg <= off < csbeg + c.chlen && off + buf.Length <= |c.sources[idx]|
      requires csbeg % c.chlen == 0
      modifies this`content, this`meta, this`fetched, this`log, buf
      ensures Ok()
      ensures ok ==> buf[..] == c.sources[idx][off..off + buf.Length]
      ensures (healthy ==> ok) && (calm ==> old(Resident()) <= Resident())
      ensures |old(log)| <= |log| && (ok <==> WellAnswered(c, old(log), log))
      ensures FetchedFor(c, old(fetched), fetched, idx, csbeg, off + buf.Length)
      ensures MetaFor(c, old(meta).Keys, meta.Keys, regular, idx, csbeg, off + buf.Length)
    {
      var csend := off + buf.Length;
      if c.perGroup > 1 {
        RouteLeaders(idx, csbeg, csend);
      }
      ghost var mid := fetched;
      var chunks := RouteAll(idx, csbeg, csend);
      FetchedForTwice(c, old(fetched), mid, fetched, idx, csbeg, csend);
      if chunks.None? {
        return false;
      }
      ok := FillFromBlocks(c, idx, off, csbeg, chunks.value, buf);
    }

    /** The prefetches a read sets off: one missing block per group of the window, while permits are spare. */
    method Readahead(idx: nat, csend: nat, readahead: nat, spare: nat) returns (keys: seq<Key>, left: nat)
      requires Ok() && idx in c.sources
      ensures left + |keys| == spare
      ensures forall i :: 0 <= i < |keys| ==> InWindow(c, idx, csend, readahead, keys[i]) && keys[i] !in Resident()
      ensures forall i, j :: 0 <= i < j < |keys| ==> GroupOf(c, keys[i]).off < GroupOf(c, keys[j]).off
      ensures left > 0 ==>
                forall k :: InWindow(c, idx, csend, readahead, k) && k !in Resident() ==> Represented(c, keys, k)
    {
      var (beg, end) := ReadaheadRange(csend, c.chlen, readahead, |c.sources[idx]|);
      keys, left := PickWindow(c, content.Keys + meta.Keys, idx, beg, end, spare);
      forall i | 0 <= i < |keys| ensures InWindow(c, idx, csend, readahead, keys[i]) {
        RangeIsWindow(c, idx, csend, readahead, keys[i]);
      }
      forall k | InWindow(c, idx, csend, readahead, k) && k !in Resident() && left > 0 ensures Represented(c, keys, k) {
        RangeIsWindow(c, idx, csend, readahead, k);
        assert k == Key(idx, k.off);
      }
    }

    /**
     `Cache::read`: whatever is cached, evicted or fetched, a read that succeeds returns the source's bytes. It succeeds
     exactly if no source had to be read, or the last one that was read gave the block it was read for.
     */
    method Read(idx: nat, off: nat, buf: array<byte>) returns (ok: bool)
      requires Ok() && idx in c.sources && off + buf.Length <= |c.sources[idx]|
      modifies this`content, this`meta, this`fetched, this`log, buf
      ensures Ok()
      ensures ok ==> buf[..] == c.sources[idx][off..off + buf.Length]
      ensures (healthy ==> ok) && (calm ==> old(Resident()) <= Resident())
      ensures ok <==> WellAnswered(c, old(log), log)
      ensures FetchedFor(c, old(fetched), fetched, idx, (off / c.chlen) * c.chlen, off + buf.Length)
      ensures MetaFor(c, old(meta).Keys, meta.Keys, regular, idx, (off / c.chlen) * c.chlen, off + buf.Length)
    {
      var csbeg, csend := (off / c.chlen) * c.chlen, off + buf.Length;
      MulDiv(off / c.chlen, 0, c.chlen);
      Bucket(off, c.chlen, off / c.chlen);
      if csbeg < csend <= csbeg + c.chlen {
        ok := ReadOne(idx, off, csbeg, buf);
      } else {
        ok := ReadMany(idx, off, csbeg, buf);
      }
    }

    /** A read followed by the prefetches it sets off; with permits to spare, the whole window becomes resident. */
    method ReadThenPrefetch(idx: nat, off: nat, buf: array<byte>, readahead: nat, spare: nat)
      returns (ok: bool, left: nat)
      requires Ok() && idx in c.sources && off + buf.Length <= |c.sources[idx]|
      modifies this`content, this`meta, this`fetched, this`log, buf
      ensures Ok()
      ensures ok ==> buf[..] == c.sources[idx][off..off + buf.Length]
      ensures (healthy ==> ok) && (calm ==> old(Resident()) <= Resident())
      ensures calm && left > 0 ==> forall k :: InWindow(c, idx, off + buf.Length, readahead, k) ==> k in Resident()
    {
      left := 0;
      ok := Read(idx, off, buf);
      if !ok {
        return;
      }
      ghost var before := Resident();
      var keys;
      keys, left := Readahead(idx, off + buf.Length, readahead, spare);
      Prefetch(keys);
      if calm && left > 0 {
        WindowResident(c, before, Resident(), fetched, keys, idx, off + buf.Length, readahead);
      }
    }
  }

  // The first n keys are resident.
  ghost predicate FirstResident(keys: seq<Key>, n: nat, resident: set<Key>)
    requires n <= |keys|
  {
    forall j :: 0 <= j < n ==> keys[j] in resident
  }

  lemma OneMoreResident(keys: seq<Key>, n: nat, resident: set<Key>, resident': set<Key>)
    requires n < |keys| && FirstResident(keys, n, resident) && resident <= resident' && keys[n] in resident'
    ensures FirstResident(keys, n + 1, resident')
  {
  }

  // The blocks demanded below x are resident.
  ghost predicate ResidentTo(c: Config, resident: set<Key>, idx: nat, csbeg: nat, x: nat)
    requires c.chlen > 0
  {
    forall k :: Demanded(c, idx, csbeg, x, k) ==> k in resident
  }

  lemma ResidentStep(c: Config, resident: set<Key>, idx: nat, csbeg: nat, choff: nat)
    requires Valid(c) && choff % c.chlen == 0 && ResidentTo(c, resident, idx, csbeg, choff)
    requires Key(idx, choff) in resident
    ensures ResidentTo(c, resident, idx, csbeg, choff + c.chlen)
  {
    WindowStep(c, idx, choff);
    forall k | Demanded(c, idx, csbeg, choff + c.chlen, k) ensures k in resident {
      assert k == Key(idx, k.off);
      assert k.off < choff ==> Demanded(c, idx, csbeg, choff, k);
    }
  }

  // A block that is not the first of its group in the read comes with the one that is.
  lemma FollowsLeader(c: Config, resident: set<Key>, fetched: seq<Key>, idx: nat, csbeg: nat, choff: nat)
    requires Valid(c) && Closed(c, resident, fetched) && ResidentTo(c, resident, idx, csbeg, choff) && csbeg <= choff
    requires csbeg % c.chlen == 0 && choff % c.chlen == 0 && InRange(c, Key(idx, choff))
    requires choff != Max(GroupOf(c, Key(0, choff)).off, csbeg)
    ensures Key(idx, choff) in resident
  {
    var k := Key(idx, choff);
    var g := GroupOf(c, k);
    var leader := Key(idx, Max(g.off, csbeg));
    GroupOnGrid(c, k);
    SameGroup(c, k, leader);
    assert Demanded(c, idx, csbeg, choff, leader);
    WithItsGroup(c, resident, fetched, leader, k);
  }

  /** Once the picks are resident, so is the whole window. */
  lemma WindowResident(c: Config, before: set<Key>, resident: set<Key>, fetched: seq<Key>, keys: seq<Key>, idx: nat,
                       csend: nat, readahead: nat)
    requires Valid(c) && Closed(c, resident, fetched) && before <= resident && idx in c.sources
    requires forall i :: 0 <= i < |keys| ==> keys[i] in resident
    requires forall k :: InWindow(c, idx, csend, readahead, k) && k !in before ==> Represented(c, keys, k)
    ensures forall k :: InWindow(c, idx, csend, readahead, k) ==> k in resident
  {
    forall k | InWindow(c, idx, csend, readahead, k) ensures k in resident {
      if k !in before {
        var i :| 0 <= i < |keys| && GroupOf(c, keys[i]) == GroupOf(c, k);
        WithItsGroup(c, resident, fetched, keys[i], k);
      }
    }
  }

  // ---- One caller, one operation after another ----

  datatype Op = ReadOp(idx: nat, off: nat, len: nat, readahead: nat, spare: nat) | FlipOp

  predicate OpFits(c: Config, op: Op) {
    op.ReadOp? ==> op.idx in c.sources && op.off + op.len <= |c.sources[op.idx]|
  }

  function Wanted(c: Config, op: Op): seq<byte>
    requires OpFits(c, op)
  {
    if op.ReadOp? then c.sources[op.idx][op.off..op.off + op.len] else []
  }

  /**
   From an empty cache, with nothing evicted and nothing failing, any sequence of reads with their readahead, and the
   phase flip at any point: every read returns the source's bytes, and no group is read from its source twice.
   */
  method CalmSession(c: Config, ops: seq<Op>) returns (cache: Cache, results: seq<seq<byte>>)
    requires Valid(c) && forall i :: 0 <= i < |ops| ==> OpFits(c, ops[i])
    ensures |results| == |ops| && forall i :: 0 <= i < |ops| ==> results[i] == Wanted(c, ops[i])
    ensures forall i, j :: 0 <= i < j < |cache.fetched| ==> cache.fetched[i] != cache.fetched[j]
    ensures forall k :: k in cache.content || k in cache.meta ==> GroupOf(c, k) in cache.fetched
  {
    cache := new Cache(c, false, true);
    results := [];
    for i := 0 to |ops|
      invariant fresh(cache) && cache.Ok() && cache.c == c && cache.calm
      invariant |results| == i && forall j :: 0 <= j < i ==> results[j] == Wanted(c, ops[j])
    {
      var result := RunOp(cache, ops[i]);
      results := results + [result];
    }
  }

  method RunOp(cache: Cache, op: Op) returns (result: seq<byte>)
    requires cache.Ok() && cache.calm && OpFits(cache.c, op)
    modifies cache
    ensures cache.Ok() && result == Wanted(cache.c, op)
  {
    match op
    case FlipOp =>
      cache.Flip();
      result := [];
    case ReadOp(idx, off, len, readahead, spare) =>
      var buf := new byte[len];
      var ok, left := cache.ReadThenPrefetch(idx, off, buf, readahead, spare);
      result := buf[..];
  }

  lemma FetchedForTwice(c: Config, before: seq<Key>, mid: seq<Key>, after: seq<Key>, idx: nat, csbeg: nat, csend: nat)
    requires Valid(c) && FetchedFor(c, before, mid, idx, csbeg, csend) && FetchedFor(c, mid, after, idx, csbeg, csend)
    ensures FetchedFor(c, before, after, idx, csbeg, csend)
  {
    forall i | |before| <= i < |after| ensures Touched(c, idx, csbeg, csend, after[i]) {
      assert i < |mid| ==> after[i] == mid[i];
    }
  }

  lemma ClosedMore(c: Config, resident: set<Key>, fetched: seq<Key>, resident': set<Key>, g: Key)
    requires Valid(c) && Closed(c, resident, fetched) && resident <= resident' && g !in fetched
    requires GroupResident(c, resident', g)
    requires forall k :: k in resident' && k !in resident ==> GroupOf(c, k) == g
    ensures Closed(c, resident', fetched + [g])
  {
    var fetched' := fetched + [g];
    forall i | 0 <= i < |fetched'| ensures GroupResident(c, resident', fetched'[i]) {
      assert i < |fetched| ==> GroupResident(c, resident, fetched[i]);
    }
    forall k | k in resident' ensures GroupOf(c, k) in fetched' {
      assert k in resident ==> GroupOf(c, k) in fetched;
      assert fetched'[|fetched|] == g;
    }
  }

  /** In a calm run a block is resident as soon as another of its group is. */
  lemma WithItsGroup(c: Config, resident: set<Key>, fetched: seq<Key>, k: Key, k': Key)
    requires Valid(c) && Closed(c, resident, fetched) && k in resident && GroupOf(c, k') == GroupOf(c, k)
    requires InRange(c, k') && OnGrid(c, k')
    ensures k' in resident
  {
    var i :| 0 <= i < |fetched| && fetched[i] == GroupOf(c, k);
    DemandedIsInGroup(c, k');
    var j: nat :| j < c.perGroup && BlockKey(c, GroupOf(c, k'), j) == k';
    assert GroupResident(c, resident, fetched[i]);
  }
}
