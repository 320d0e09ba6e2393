/**
 Why a `route_block` call fails, under every interleaving: only because a lookup
 for its block failed, or because a source read of its group failed or stopped
 short of its block. Evictions, the phase flip and other calls never make one fail.
 */
module FoyerFaults {
  import opened Basics
  import opened FoyerBlocks
  import opened FoyerMachine
  import opened FoyerRuns

  // The answer holds the block at key.
  ghost predicate Answers(c: Config, key: Key, got: Reply) {
    got.Ok? && ReachesEnd(c, key, got.value)
  }

  ghost predicate FaultFor(c: Config, s: State, a: Action, key: Key)
    requires Valid(c)
  {
    match a
    case LookupFails(t) => t in s.tasks && s.tasks[t].key == key
    case EndRead(f, got) =>
      f in s.latch.fetches && s.latch.fetches[f].group == GroupOf(c, key) && !Answers(c, key, got)
    case _ => false
  }

  // A call that has what it needs: bytes that hold its block, of which the blocks before its own are already cut.
  ghost predicate PcSound(c: Config, key: Key, pc: Pc)
    requires Valid(c)
  {
    match pc
    case Fill(_, bytes, _, j, demanded) =>
      ReachesEnd(c, key, bytes) && (demanded.None? ==> BlockKey(c, GroupOf(c, key), j).off <= key.off)
    case Done(reply) => reply.Ok?
    case _ => true
  }

  ghost predicate FetchSound(c: Config, key: Key, st: FetchState) {
    match st
    case Read(got) => Answers(c, key, got)
    case Finished(result) => Answers(c, key, result)
    case _ => true
  }

  // No call for the key has failed or is about to.
  ghost predicate Sound(c: Config, s: State, key: Key)
    requires Valid(c)
  {
    && (forall t :: t in s.tasks && s.tasks[t].key == key ==> PcSound(c, key, s.tasks[t].pc))
    && (forall f :: f in s.latch.fetches && s.latch.fetches[f].group == GroupOf(c, key) ==>
          FetchSound(c, key, s.latch.fetches[f].st))
  }

  lemma SoundMove(c: Config, s: State, t: nat, s': State, key: Key)
    requires Valid(c) && Sound(c, s, key) && TaskMove(s, t, s')
    requires s.tasks[t].key == key ==> PcSound(c, key, s'.tasks[t].pc)
    ensures Sound(c, s', key)
  {
  }

  lemma SoundFill(c: Config, s: State, t: nat, s': State, key: Key)
    requires Valid(c) && Sound(c, s, key) && FillStepStep(c, s, t, s') && s.tasks[t].key == key
    requires InRange(c, key) && OnGrid(c, key)
    ensures t in s'.tasks && PcSound(c, key, s'.tasks[t].pc)
  {
    assert PcSound(c, key, s.tasks[t].pc);
    var pc := s.tasks[t].pc;
    if pc.demanded.None? {
      CutsKey(c, key, pc.bytes, pc.j);
      KeyAtBlock(c, key, pc.j);
    }
  }

  lemma SoundReceive(c: Config, s: State, t: nat, s': State, key: Key)
    requires Valid(c) && CoherenceInv(c, s) && Sound(c, s, key) && ReceiveStep(s, t, s') && s.tasks[t].key == key
    ensures t in s'.tasks && PcSound(c, key, s'.tasks[t].pc)
  {
    var f := s.tasks[t].pc.fetch;
    assert FetchSound(c, key, s.latch.fetches[f].st);
  }

  lemma SoundHear(c: Config, s: State, t: nat, s': State, key: Key)
    requires Valid(c) && FlightInv(s) && Sound(c, s, key) && HearStep(s, t, s') && s.tasks[t].key == key
    ensures t in s'.tasks && PcSound(c, key, s'.tasks[t].pc)
  {
    assert Followed(s, s.tasks[t].pc.leader, key);
    assert PcSound(c, key, s.tasks[s.tasks[t].pc.leader].pc);
  }

  lemma SoundCall(c: Config, s: State, a: Action, s': State, key: Key)
    requires Valid(c) && CoherenceInv(c, s) && FlightInv(s) && Sound(c, s, key) && Next(c, s, a, s') && OfCall(a)
    requires !FaultFor(c, s, a, key) && InRange(c, key) && OnGrid(c, key)
    ensures Sound(c, s', key)
  {
    Moves(c, s, a, s');
    if s.tasks[a.t].key == key {
      if a.FillStep? {
        SoundFill(c, s, a.t, s', key);
      } else if a.Receive? {
        SoundReceive(c, s, a.t, s', key);
      } else if a.Hear? {
        SoundHear(c, s, a.t, s', key);
      }
    }
    SoundMove(c, s, a.t, s', key);
  }

  lemma SoundSpawn(c: Config, s: State, t: nat, k: Key, prefetch: bool, s': State, key: Key)
    requires Valid(c) && Sound(c, s, key) && SpawnStep(c, s, t, k, prefetch, s')
    ensures Sound(c, s', key)
  {
  }

  lemma SoundJoin(c: Config, s: State, t: nat, f: nat, s': State, key: Key)
    requires Valid(c) && Sound(c, s, key) && JoinOrCreateStep(c, s, t, f, s')
    ensures Sound(c, s', key)
  {
  }

  lemma SoundFetch(c: Config, s: State, f: nat, got: Reply, s': State, key: Key)
    requires Valid(c) && Sound(c, s, key)
    requires || AcquireStep(s, f, s') || StartReadStep(s, f, s') || RetireStep(s, f, s')
             || (EndReadStep(c, s, f, got, s') && !FaultFor(c, s, EndRead(f, got), key))
    ensures Sound(c, s', key)
  {
    if s.latch.fetches[f].group == GroupOf(c, key) {
      assert FetchSound(c, key, s.latch.fetches[f].st);
    }
  }

  lemma SoundKept(c: Config, s: State, a: Action, s': State, key: Key)
    requires Valid(c) && CoherenceInv(c, s) && FlightInv(s) && Sound(c, s, key) && Next(c, s, a, s')
    requires !FaultFor(c, s, a, key) && InRange(c, key) && OnGrid(c, key)
    ensures Sound(c, s', key)
  {
    if a.Spawn? {
      SoundSpawn(c, s, a.t, a.key, a.prefetch, s', key);
    } else if a.JoinOrCreate? {
      SoundJoin(c, s, a.t, a.f, s', key);
    } else if a.Acquire? || a.StartRead? || a.EndRead? || a.Retire? {
      SoundFetch(c, s, a.f, if a.EndRead? then a.got else Err(()), s', key);
    } else if OfCall(a) {
      SoundCall(c, s, a, s', key);
    }
  }

  // Some step before the i-th state was a fault for the key.
  ghost predicate FaultBefore(c: Config, states: seq<State>, acts: seq<Action>, i: nat, key: Key)
    requires Valid(c) && IsRun(c, states, acts) && i < |states|
  {
    exists j: nat :: j < i && FaultFor(c, states[j], acts[j], key)
  }

  lemma SoundStepAt(c: Config, states: seq<State>, acts: seq<Action>, i: nat, key: Key)
    requires Valid(c) && IsRun(c, states, acts) && i < |acts| && Sound(c, states[i], key)
    requires !FaultFor(c, states[i], acts[i], key) && InRange(c, key) && OnGrid(c, key)
    ensures Sound(c, states[i + 1], key)
  {
    RunInv(c, states, acts, i);
    assert StepAt(c, states, acts, i);
    SoundKept(c, states[i], acts[i], states[i + 1], key);
  }

  lemma {:induction false} SoundOrFault(c: Config, states: seq<State>, acts: seq<Action>, i: nat, key: Key)
    requires Valid(c) && IsRun(c, states, acts) && i < |states| && InRange(c, key) && OnGrid(c, key)
    ensures Sound(c, states[i], key) || FaultBefore(c, states, acts, i, key)
    decreases i
  {
    if i > 0 {
      SoundOrFault(c, states, acts, i - 1, key);
      if FaultBefore(c, states, acts, i - 1, key) {
        var j: nat :| j < i - 1 && FaultFor(c, states[j], acts[j], key);
        assert j < i && FaultFor(c, states[j], acts[j], key);
      } else if FaultFor(c, states[i - 1], acts[i - 1], key) {
        assert i - 1 < i && FaultBefore(c, states, acts, i, key);
      } else {
        SoundStepAt(c, states, acts, i - 1, key);
      }
    }
  }

  /**
   A call fails only after a lookup for its block failed, or a source read of its group failed or stopped short of its
   block: never because of evictions, of the phase flip or of what other calls do.
   */
  lemma RunFailsByFault(c: Config, states: seq<State>, acts: seq<Action>, i: nat, t: nat)
    requires Valid(c) && IsRun(c, states, acts) && i < |states| && t in states[i].tasks
    requires states[i].tasks[t].pc.Done? && states[i].tasks[t].pc.reply.Err?
    ensures FaultBefore(c, states, acts, i, states[i].tasks[t].key)
  {
    var key := states[i].tasks[t].key;
    RunInv(c, states, acts, i);
    assert PcOk(c, key, states[i].tasks[t].pc);
    SoundOrFault(c, states, acts, i, key);
    assert Sound(c, states[i], key) ==> PcSound(c, key, states[i].tasks[t].pc);
  }
}
