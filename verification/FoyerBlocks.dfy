/**
 Block and fetch-group geometry of the cache (imagesource/src/foyercache.rs):
 which bytes a key stands for, and how a fetched group is cut into blocks.
 */
module FoyerBlocks {
  import opened Basics
  import opened Arith

  datatype Key = Key(idx: nat, off: nat)

  // perGroup blocks of chlen bytes make one fetch group.
  datatype Config = Config(sources: map<nat, seq<byte>>, chlen: nat, perGroup: nat, dual: bool, permits: nat)

  ghost predicate Valid(c: Config) {
    c.chlen > 0 && c.perGroup > 0 && c.permits > 0
  }

  function Group(c: Config): nat {
    c.perGroup * c.chlen
  }

  /** `group_size`: the requested fetch size rounded down to whole blocks, and never below one. */
  function GroupSize(fetchSize: nat, chlen: nat): nat
    requires chlen > 0
  {
    Max(fetchSize / chlen, 1) * chlen
  }

  /** The group is the largest whole number of blocks within the request, or one block. */
  lemma GroupSizeAligned(fetchSize: nat, chlen: nat)
    requires chlen > 0
    ensures exists n: nat :: n > 0 && GroupSize(fetchSize, chlen) == n * chlen
    ensures chlen <= fetchSize ==> GroupSize(fetchSize, chlen) <= fetchSize < GroupSize(fetchSize, chlen) + chlen
    ensures GroupSize(GroupSize(fetchSize, chlen), chlen) == GroupSize(fetchSize, chlen)
  {
    var n := Max(fetchSize / chlen, 1);
    MulDiv(n, 0, chlen);
    Bucket(fetchSize, chlen, fetchSize / chlen);
    if chlen <= fetchSize {
      DivMonotone(chlen, fetchSize, chlen);
    }
  }

  predicate InRange(c: Config, k: Key) {
    k.idx in c.sources && k.off < |c.sources[k.idx]|
  }

  // Keys stand on block boundaries.
  predicate OnGrid(c: Config, k: Key)
    requires c.chlen > 0
  {
    k.off % c.chlen == 0
  }

  // The bytes a key stands for.
  function Block(c: Config, k: Key): seq<byte>
    requires InRange(c, k)
  {
    c.sources[k.idx][k.off..Min(k.off + c.chlen, |c.sources[k.idx]|)]
  }

  // Every cached block is the source's.
  ghost predicate Coherent(c: Config, m: map<Key, seq<byte>>) {
    forall k :: k in m ==> InRange(c, k) && m[k] == Block(c, k)
  }

  function GroupOf(c: Config, k: Key): (g: Key)
    requires c.chlen > 0 && c.perGroup > 0
    ensures g.idx == k.idx && g.off <= k.off < g.off + Group(c) && g.off % Group(c) == 0
  {
    Bucket(k.off, Group(c), k.off / Group(c));
    MulDiv(k.off / Group(c), 0, Group(c));
    Key(k.idx, (k.off / Group(c)) * Group(c))
  }

  function GroupEnd(c: Config, g: Key): nat
    requires g.idx in c.sources
  {
    Min(g.off + Group(c), |c.sources[g.idx]|)
  }

  // A source read of the group g came back with bytes: they may stop short or run on,
  // but where they overlap the request they are the source's own.
  ghost predicate Agrees(c: Config, g: Key, bytes: seq<byte>)
    requires InRange(c, g)
  {
    var n := Min(|bytes|, GroupEnd(c, g) - g.off);
    bytes[..n] == c.sources[g.idx][g.off..g.off + n]
  }

  // The j-th block of a group, and where it ends within the group's bytes.
  function BlockKey(c: Config, g: Key, j: nat): Key {
    Key(g.idx, g.off + j * c.chlen)
  }

  function BlockEnd(c: Config, g: Key, j: nat): nat
    requires InRange(c, g) && BlockKey(c, g, j).off < GroupEnd(c, g)
  {
    Min(BlockKey(c, g, j).off + c.chlen, GroupEnd(c, g)) - g.off
  }

  // The blocks of a group end within it, so only the end of the source can shorten one.
  lemma BlockGeometry(c: Config, g: Key, j: nat)
    requires Valid(c) && InRange(c, g) && BlockKey(c, g, j).off < GroupEnd(c, g)
    ensures j < c.perGroup && InRange(c, BlockKey(c, g, j))
    ensures j * c.chlen < BlockEnd(c, g, j) <= GroupEnd(c, g) - g.off
    ensures g.off + BlockEnd(c, g, j) == Min(BlockKey(c, g, j).off + c.chlen, |c.sources[g.idx]|)
  {
    if c.perGroup <= j {
      MulMonotone(c.perGroup, j, c.chlen);
      assert false;
    }
    MulMonotone(j + 1, c.perGroup, c.chlen);
    assert (j + 1) * c.chlen == j * c.chlen + c.chlen;
  }

  lemma SliceOfPrefix(bytes: seq<byte>, src: seq<byte>, at: nat, n: nat, beg: nat, end: nat)
    requires beg <= end <= n <= |bytes| && at + n <= |src| && bytes[..n] == src[at..at + n]
    ensures bytes[beg..end] == src[at + beg..at + end]
  {
    forall i | 0 <= i < end - beg ensures bytes[beg..end][i] == src[at + beg..at + end][i] {
      assert bytes[..n][beg + i] == src[at..at + n][beg + i];
    }
  }

  /** A block cut out of a group's bytes is the block of the source. */
  lemma CutBlock(c: Config, g: Key, bytes: seq<byte>, j: nat)
    requires Valid(c) && InRange(c, g) && Agrees(c, g, bytes)
    requires BlockKey(c, g, j).off < GroupEnd(c, g) && BlockEnd(c, g, j) <= |bytes|
    ensures InRange(c, BlockKey(c, g, j)) && j < c.perGroup
    ensures j * c.chlen < BlockEnd(c, g, j)
    ensures bytes[j * c.chlen..BlockEnd(c, g, j)] == Block(c, BlockKey(c, g, j))
  {
    BlockGeometry(c, g, j);
    var n := Min(|bytes|, GroupEnd(c, g) - g.off);
    SliceOfPrefix(bytes, c.sources[g.idx], g.off, n, j * c.chlen, BlockEnd(c, g, j));
  }

  /** Every block of the cache's grid is one of the blocks of its group. */
  lemma DemandedIsInGroup(c: Config, k: Key)
    requires Valid(c) && InRange(c, k) && k.off % c.chlen == 0
    ensures InRange(c, GroupOf(c, k))
    ensures exists j: nat :: j < c.perGroup && BlockKey(c, GroupOf(c, k), j) == k
  {
    var q, g := k.off / Group(c), GroupOf(c, k);
    var m := k.off / c.chlen;
    assert k.off == m * c.chlen;
    assert g.off == (q * c.perGroup) * c.chlen;
    assert q * c.perGroup <= m by {
      if m < q * c.perGroup {
        MulMonotone(m + 1, q * c.perGroup, c.chlen);
        assert false;
      }
    }
    var j := m - q * c.perGroup;
    assert j * c.chlen == k.off - g.off;
    assert j < c.perGroup by {
      if c.perGroup <= j {
        MulMonotone(c.perGroup, j, c.chlen);
        assert false;
      }
    }
    assert BlockKey(c, g, j) == k;
  }

  // Every block of group g is among the resident keys.
  ghost predicate GroupResident(c: Config, resident: set<Key>, g: Key) {
    && InRange(c, g)
    && forall j: nat :: BlockKey(c, g, j).off < GroupEnd(c, g) ==> BlockKey(c, g, j) in resident
  }

  // Having gone through the blocks up to the end of the group, all of them and the demanded one were met.
  lemma AllBlocksBelow(c: Config, key: Key, j: nat)
    requires Valid(c) && InRange(c, key) && OnGrid(c, key)
    requires GroupEnd(c, GroupOf(c, key)) <= BlockKey(c, GroupOf(c, key), j).off
    ensures forall i: nat :: BlockKey(c, GroupOf(c, key), i).off < GroupEnd(c, GroupOf(c, key)) ==> i < j
    ensures exists i: nat :: i < j && BlockKey(c, GroupOf(c, key), i) == key
  {
    var g := GroupOf(c, key);
    forall i: nat | BlockKey(c, g, i).off < GroupEnd(c, g) ensures i < j {
      if j <= i {
        MulMonotone(j, i, c.chlen);
        assert false;
      }
    }
    DemandedIsInGroup(c, key);
  }

  lemma GroupOnGrid(c: Config, k: Key)
    requires Valid(c)
    ensures OnGrid(c, GroupOf(c, k))
  {
    var q := k.off / Group(c);
    MulAssoc(q, c.perGroup, c.chlen);
    MulDiv(q * c.perGroup, 0, c.chlen);
  }

  // A key between the start of a group and one of its keys is in it too.
  lemma SameGroup(c: Config, k: Key, k': Key)
    requires Valid(c) && k'.idx == k.idx && GroupOf(c, k).off <= k'.off <= k.off
    ensures GroupOf(c, k') == GroupOf(c, k)
  {
    Bucket(k.off, Group(c), k.off / Group(c));
    Bucket(k'.off, Group(c), k.off / Group(c));
  }

  // The blocks of a group belong to it.
  lemma BlockInGroup(c: Config, k: Key, j: nat)
    requires Valid(c) && j < c.perGroup
    ensures GroupOf(c, BlockKey(c, GroupOf(c, k), j)) == GroupOf(c, k)
  {
    var q := k.off / Group(c);
    MulMonotone(j + 1, c.perGroup, c.chlen);
    assert (j + 1) * c.chlen == j * c.chlen + c.chlen;
    MulDiv(q, j * c.chlen, Group(c));
  }

  // The key does not lie strictly inside the j-th block of its group.
  lemma KeyAtBlock(c: Config, key: Key, j: nat)
    requires Valid(c) && InRange(c, key) && OnGrid(c, key)
    ensures var at := BlockKey(c, GroupOf(c, key), j).off;
            BlockKey(c, GroupOf(c, key), j + 1).off == at + c.chlen && (at < key.off ==> at + c.chlen <= key.off)
  {
    var g := GroupOf(c, key);
    DemandedIsInGroup(c, key);
    var i: nat :| i < c.perGroup && BlockKey(c, g, i) == key;
    assert (j + 1) * c.chlen == j * c.chlen + c.chlen;
    if j < i {
      MulMonotone(j + 1, i, c.chlen);
    } else {
      MulMonotone(i, j, c.chlen);
    }
  }

  // The bytes reach the end of the block at key, counted from the start of its group.
  ghost predicate ReachesEnd(c: Config, key: Key, bytes: seq<byte>) {
    && Valid(c) && InRange(c, key)
    && Min(key.off + c.chlen, |c.sources[key.idx]|) <= GroupOf(c, key).off + |bytes|
  }

  // Cutting goes on up to and over any block that the bytes reach the end of.
  lemma CutsKey(c: Config, key: Key, bytes: seq<byte>, j: nat)
    requires Valid(c) && InRange(c, key) && OnGrid(c, key) && ReachesEnd(c, key, bytes)
    requires BlockKey(c, GroupOf(c, key), j).off <= key.off
    ensures InRange(c, GroupOf(c, key)) && BlockKey(c, GroupOf(c, key), j).off < GroupEnd(c, GroupOf(c, key))
    ensures j * c.chlen <= BlockEnd(c, GroupOf(c, key), j) <= |bytes|
  {
    var g := GroupOf(c, key);
    BlockGeometry(c, g, j);
    KeyAtBlock(c, key, j);
  }
}
