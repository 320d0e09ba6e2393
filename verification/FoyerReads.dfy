/**
 A read over several blocks whose block calls are interleaved with anything
 else: what they return is what the copy loop needs.
 */
module FoyerReads {
  import opened Basics
  import opened Arith
  import opened FoyerBlocks
  import opened FoyerMachine
  import opened FoyerRuns
  import C = FoyerCache

  // The j-th of the calls ts is for the j-th block from csbeg on, and has returned.
  ghost predicate Returned(c: Config, s: State, ts: seq<nat>, idx: nat, csbeg: nat) {
    forall j :: 0 <= j < |ts| ==> ReturnedBlock(c, s, ts[j], Key(idx, csbeg + j * c.chlen))
  }

  ghost predicate ReturnedBlock(c: Config, s: State, t: nat, k: Key) {
    t in s.tasks && s.tasks[t].key == k && s.tasks[t].pc.Done? && s.tasks[t].pc.reply.Ok?
  }

  ghost predicate AreReplies(c: Config, s: State, ts: seq<nat>, idx: nat, csbeg: nat, chunks: seq<(nat, seq<byte>)>)
    requires Returned(c, s, ts, idx, csbeg)
  {
    && |chunks| == |ts|
    && forall j :: 0 <= j < |ts| ==> IsReply(c, s, ts[j], Key(idx, csbeg + j * c.chlen), chunks[j])
  }

  ghost predicate IsReply(c: Config, s: State, t: nat, k: Key, chunk: (nat, seq<byte>))
    requires ReturnedBlock(c, s, t, k)
  {
    chunk == (k.off, s.tasks[t].pc.reply.value)
  }

  lemma NextOffset(csbeg: nat, j: nat, chlen: nat)
    requires j > 0
    ensures csbeg + j * chlen == csbeg + (j - 1) * chlen + chlen
  {
  }

  /** In every run the replies to the calls of a read are the blocks of the source, one after another. */
  lemma RepliesAreBlocks(c: Config, states: seq<State>, acts: seq<Action>, i: nat, ts: seq<nat>, idx: nat, csbeg: nat,
                         chunks: seq<(nat, seq<byte>)>)
    requires Valid(c) && IsRun(c, states, acts) && i < |states|
    requires Returned(c, states[i], ts, idx, csbeg) && AreReplies(c, states[i], ts, idx, csbeg, chunks)
    ensures C.AreBlocks(c, idx, csbeg, chunks)
    ensures C.Reach(c, csbeg, chunks) == csbeg + |ts| * c.chlen
  {
    RunServesSource(c, states, acts, i);
    var s := states[i];
    forall j | 0 <= j < |ts|
      ensures chunks[j].0 == csbeg + j * c.chlen && InRange(c, Key(idx, chunks[j].0))
      ensures chunks[j].1 == Block(c, Key(idx, chunks[j].0))
    {
      var k := Key(idx, csbeg + j * c.chlen);
      assert ReturnedBlock(c, s, ts[j], k) && IsReply(c, s, ts[j], k, chunks[j]);
    }
    forall j | 0 < j < |ts| ensures chunks[j].0 == chunks[j - 1].0 + c.chlen {
      NextOffset(csbeg, j, c.chlen);
    }
    if |ts| > 0 {
      NextOffset(csbeg, |ts|, c.chlen);
    }
  }

  /** So a read whose calls have all returned fills its buffer with the source, however they were interleaved. */
  method FillFromReplies(c: Config, ghost states: seq<State>, ghost acts: seq<Action>, ghost i: nat, ghost ts: seq<nat>,
                         idx: nat, off: nat, csbeg: nat, chunks: seq<(nat, seq<byte>)>, buf: array<byte>)
    returns (ok: bool)
    requires Valid(c) && IsRun(c, states, acts) && i < |states|
    requires Returned(c, states[i], ts, idx, csbeg) && AreReplies(c, states[i], ts, idx, csbeg, chunks)
    requires idx in c.sources && csbeg <= off < csbeg + c.chlen && off + buf.Length <= |c.sources[idx]|
    requires off + buf.Length <= csbeg + |ts| * c.chlen
    requires forall j :: 0 <= j < |chunks| ==> chunks[j].0 < off + buf.Length
    modifies buf
    ensures ok && buf[..] == c.sources[idx][off..off + buf.Length]
  {
    RepliesAreBlocks(c, states, acts, i, ts, idx, csbeg, chunks);
    ok := C.FillFromBlocks(c, idx, off, csbeg, chunks, buf);
  }
}
