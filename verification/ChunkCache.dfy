/**
 `DecodedChunkCache` (e01/src/readworker.rs): a map with a recency queue,
 evicting the least recently used chunk.
 */
module ChunkCache {
  import opened Basics

  /** `retain(|idx| *idx != x)` */
  function Without(s: seq<nat>, x: nat): (r: seq<nat>)
    ensures forall y :: y in r <==> y in s && y != x
    ensures |r| <= |s| && (x !in s ==> r == s)
  {
    if s == [] then []
    else
      var rest := Without(s[1..], x);
      if s[0] == x then rest else [s[0]] + rest
  }

  // Everything in s was used after time t.
  ghost predicate After(t: nat, s: seq<nat>, used: map<nat, nat>) {
    forall y :: y in s ==> y in used && t < used[y]
  }

  // Every element once, in the order of last use, and before now.
  ghost predicate Ordered(s: seq<nat>, used: map<nat, nat>, now: nat) {
    s != [] ==>
      && s[0] in used && used[s[0]] < now
      && After(used[s[0]], s[1..], used) && Ordered(s[1..], used, now)
  }

  lemma WithoutOrdered(s: seq<nat>, x: nat, used: map<nat, nat>, now: nat)
    requires Ordered(s, used, now)
    ensures Ordered(Without(s, x), used, now)
  {
    if s != [] {
      WithoutOrdered(s[1..], x, used, now);
    }
  }

  lemma OrderedAppend(s: seq<nat>, x: nat, used: map<nat, nat>, now: nat)
    requires Ordered(s, used, now) && x !in s
    ensures Ordered(s + [x], used[x := now], now + 1)
  {
    if s == [] {
      assert s + [x] == [x];
    } else {
      OrderedAppend(s[1..], x, used, now);
      assert (s + [x])[1..] == s[1..] + [x];
    }
  }

  // The queue has one place per key.
  lemma OrderedCount(s: seq<nat>, keys: set<nat>, used: map<nat, nat>, now: nat)
    requires Ordered(s, used, now) && forall x :: x in s <==> x in keys
    ensures |s| == |keys|
    ensures s != [] ==> s[0] !in s[1..]
  {
    if s == [] {
      assert keys == {};
    } else {
      assert s == [s[0]] + s[1..] && s[0] !in s[1..];
      OrderedCount(s[1..], keys - {s[0]}, used, now);
    }
  }

  // The head of the queue went, and everything kept was used after it.
  ghost predicate Evicted(chunks0: map<nat, seq<byte>>, lru0: seq<nat>, chunks: map<nat, seq<byte>>, lru: seq<nat>,
                          used: map<nat, nat>) {
    && lru0 != [] && lru == lru0[1..] && chunks == chunks0 - {lru0[0]}
    && lru0[0] in used && After(used[lru0[0]], lru, used)
  }

  class DecodedChunkCache {
    const capacity: nat
    var chunks: map<nat, seq<byte>>
    var lru: seq<nat>
    ghost var used: map<nat, nat>   // when each key was last used
    ghost var now: nat

    ghost predicate Ok()
      reads this
    {
      InStep() && |chunks| <= capacity
    }

    constructor (capacity: nat)
      ensures Ok() && this.capacity == capacity && chunks == map[]
    {
      this.capacity := capacity;
      chunks, lru, used, now := map[], [], map[], 0;
    }

    // Move or put x to the recent end of the queue.
    method Touch(x: nat)
      requires Ordered(lru, used, now)
      modifies this`lru, this`used, this`now
      ensures lru == Without(old(lru), x) + [x] && Ordered(lru, used, now)
      ensures used == old(used)[x := old(now)] && now == old(now) + 1
    {
      WithoutOrdered(lru, x, used, now);
      lru := Without(lru, x);
      OrderedAppend(lru, x, used, now);
      lru, used, now := lru + [x], used[x := now], now + 1;
    }

    /** A hit returns the chunk and makes it the most recently used. */
    method Get(index: nat) returns (r: Option<seq<byte>>)
      requires Ok()
      modifies this`lru, this`used, this`now
      ensures Ok()
      ensures r == if index in chunks then Some(chunks[index]) else None
      ensures index in chunks ==> lru == Without(old(lru), index) + [index]
      ensures index !in chunks ==> lru == old(lru)
    {
      if index !in chunks {
        return None;
      }
      r := Some(chunks[index]);
      Touch(index);
    }

    ghost predicate InStep()
      reads this
    {
      (forall x :: x in lru <==> x in chunks) && Ordered(lru, used, now)
    }

    // Drop the chunk at the front of the queue.
    method EvictOne()
      requires InStep() && |chunks| > 0
      modifies this`chunks, this`lru
      ensures InStep() && |chunks| == |old(chunks)| - 1
      ensures Evicted(old(chunks), old(lru), chunks, lru, used)
    {
      OrderedCount(lru, chunks.Keys, used, now);
      HeadTail(lru);
      var evicted := lru[0];
      lru := lru[1..];
      assert (chunks - {evicted}).Keys == chunks.Keys - {evicted};
      chunks := chunks - {evicted};
    }

    // The eviction loop.
    method Shrink()
      requires InStep() && 0 < |chunks| <= capacity + 1
      modifies this`chunks, this`lru
      ensures Ok()
      ensures |old(chunks)| <= capacity ==> chunks == old(chunks) && lru == old(lru)
      ensures |old(chunks)| > capacity ==> Evicted(old(chunks), old(lru), chunks, lru, used)
    {
      while |chunks| > capacity
        invariant InStep() && |chunks| <= |old(chunks)|
        invariant |chunks| == |old(chunks)| ==> chunks == old(chunks) && lru == old(lru)
        invariant |chunks| < |old(chunks)| ==> |old(chunks)| > capacity == |chunks|
        invariant |chunks| < |old(chunks)| ==> Evicted(old(chunks), old(lru), chunks, lru, used)
        decreases |chunks|
      {
        EvictOne();
      }
    }

    /** The chunk becomes the most recently used; if the cache overflows, the least recently used one goes. */
    method Insert(index: nat, chunk: seq<byte>)
      requires Ok()
      modifies this
      ensures Ok()
      ensures forall k :: k in chunks ==>
                if k == index && capacity > 0 then chunks[k] == chunk
                else k in old(chunks) && chunks[k] == old(chunks)[k]
      ensures capacity == 0 ==> chunks == old(chunks) && lru == old(lru)
      ensures capacity > 0 && |old(chunks).Keys + {index}| <= capacity ==>
                chunks == old(chunks)[index := chunk] && lru == Without(old(lru), index) + [index]
      ensures capacity > 0 && |old(chunks).Keys + {index}| > capacity ==>
                && index !in old(chunks)
                && Evicted(old(chunks)[index := chunk], old(lru) + [index], chunks, lru, used)
    {
      if capacity == 0 {
        return;
      }
      assert chunks[index := chunk].Keys == chunks.Keys + {index};
      chunks := chunks[index := chunk];
      Touch(index);
      if index in old(chunks) {
        assert old(chunks).Keys + {index} == old(chunks).Keys;
      } else {
        assert lru == old(lru) + [index];
      }
      Shrink();
    }
  }
}
