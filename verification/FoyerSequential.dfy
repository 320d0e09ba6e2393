/**
 Calls made one after another: each group is read from its source at most once,
 in either kind of cache and across the phase flip.
 */
module FoyerSequential {
  import opened FoyerBlocks
  import opened FoyerMachine
  import opened FoyerRuns
  import opened FoyerTwice
  import opened FoyerOnce

  ghost predicate AllDone(s: State) {
    forall t :: t in s.tasks ==> s.tasks[t].pc.Done?
  }

  // A call begins only when those before it are done.
  ghost predicate Sequential(states: seq<State>, acts: seq<Action>) {
    |states| == |acts| + 1 && forall i :: 0 <= i < |acts| && acts[i].Spawn? ==> AllDone(states[i])
  }

  ghost function Resident(s: State): set<Key> {
    s.tiers.content.Keys + s.tiers.meta.Keys
  }

  // The call is waiting for fetch f, or filling in what it brought.
  ghost predicate WorksOn(c: Config, s: State, t: nat, f: nat)
    requires Valid(c) && f in s.latch.fetches
  {
    && t in s.tasks
    && var Task(key, pc) := s.tasks[t];
       var g := s.latch.fetches[f].group;
       || (pc.Await? && pc.fetch == f && pc.owner)
       || (pc.Fill? && pc.owner && GroupOf(c, key) == g
           && forall i: nat :: i < pc.j ==> BlockKey(c, g, i) in Resident(s) || BlockKey(c, g, i) == key)
  }

  ghost predicate Settled(c: Config, s: State, f: nat)
    requires f in s.latch.fetches
  {
    GroupResident(c, Resident(s), s.latch.fetches[f].group)
  }

  // What a call has found out about its block.
  ghost predicate Knows(c: Config, s: State, key: Key, pc: Pc) {
    && (pc.Look? && pc.tier.Content? ==> key !in s.tiers.meta)
    && (pc.Enter? || pc.Lead? ==> key !in Resident(s))
    && (!c.dual ==> !pc.Promote?)
  }

  ghost predicate OneActive(s: State) {
    forall t, t' :: t in s.tasks && t' in s.tasks && !s.tasks[t].pc.Done? && !s.tasks[t'].pc.Done? ==> t == t'
  }

  ghost predicate DistinctGroups(s: State) {
    forall f, f' :: f in s.latch.fetches && f' in s.latch.fetches ==>
      s.latch.fetches[f].group == s.latch.fetches[f'].group ==> f == f'
  }

  ghost predicate SeqInv(c: Config, s: State)
    requires Valid(c)
  {
    && OneActive(s) && DistinctGroups(s) && (!c.dual ==> s.tiers.meta == map[])
    && (forall f :: f in s.latch.fetches ==> Settled(c, s, f) || exists t :: WorksOn(c, s, t, f))
    && (forall t :: t in s.tasks ==> Knows(c, s, s.tasks[t].key, s.tasks[t].pc))
  }

  lemma StillResident(c: Config, a: set<Key>, b: set<Key>, g: Key)
    requires GroupResident(c, a, g) && a <= b
    ensures GroupResident(c, b, g)
  {
  }

  // An active call that works on no fetch: every group fetched is resident.
  lemma AllSettled(c: Config, s: State, t: nat, f: nat)
    requires Valid(c) && SeqInv(c, s) && t in s.tasks && !s.tasks[t].pc.Done? && !s.tasks[t].pc.Await?
    requires !s.tasks[t].pc.Fill?
    requires f in s.latch.fetches
    ensures Settled(c, s, f)
  {
    forall t' ensures !WorksOn(c, s, t', f) {
      if t' in s.tasks && !s.tasks[t'].pc.Done? {
        assert t' == t;
      }
    }
  }

  // The active call moves on without a fetch.
  lemma SeqMove(c: Config, s: State, t: nat, s': State)
    requires Valid(c) && SeqInv(c, s) && s'.latch == s.latch && t in s.tasks && t in s'.tasks
    requires s'.tasks == s.tasks[t := s'.tasks[t]] && s'.tasks[t].key == s.tasks[t].key
    requires !s.tasks[t].pc.Done? && !s.tasks[t].pc.Await? && !s.tasks[t].pc.Fill?
    requires Resident(s) <= Resident(s') && (!c.dual ==> s'.tiers.meta == map[])
    requires Knows(c, s', s.tasks[t].key, s'.tasks[t].pc)
    ensures SeqInv(c, s')
  {
    forall f | f in s'.latch.fetches ensures Settled(c, s', f) {
      AllSettled(c, s, t, f);
      StillResident(c, Resident(s), Resident(s'), s.latch.fetches[f].group);
    }
    forall t' | t' in s'.tasks ensures Knows(c, s', s'.tasks[t'].key, s'.tasks[t'].pc) {
      assert t' != t ==> s'.tasks[t'].pc.Done?;
    }
  }

  lemma SeqCall(c: Config, s: State, a: Action, s': State)
    requires Valid(c) && FlightInv(s) && ShapeInv(c, s) && SeqInv(c, s) && Next(c, s, a, s')
    requires a.LoadPhase? || a.Lookup? || a.DoPromote? || a.GetOrFetch? || a.Hear?
    ensures SeqInv(c, s')
  {
    var t := a.t;
    Moves(c, s, a, s');
    assert Knows(c, s, s.tasks[t].key, s.tasks[t].pc) && (!c.dual ==> PlanIsSingle(s.tasks[t].pc));
    SeqMove(c, s, t, s');
  }

  // Groups, tiers and calls stay as they are.
  lemma SeqSame(c: Config, s: State, s': State)
    requires Valid(c) && SeqInv(c, s) && s'.tasks == s.tasks && s'.tiers == s.tiers
    requires s'.latch.fetches.Keys == s.latch.fetches.Keys
    requires forall f :: f in s.latch.fetches ==> s'.latch.fetches[f].group == s.latch.fetches[f].group
    ensures SeqInv(c, s')
  {
    forall f | f in s'.latch.fetches ensures Settled(c, s', f) || exists t :: WorksOn(c, s', t, f) {
      if !Settled(c, s, f) {
        var t :| WorksOn(c, s, t, f);
        assert WorksOn(c, s', t, f);
      }
    }
  }

  lemma SeqFetch(c: Config, s: State, a: Action, s': State)
    requires Valid(c) && SeqInv(c, s) && Next(c, s, a, s')
    requires a.Acquire? || a.StartRead? || a.EndRead? || a.Retire? || a.Flip?
    ensures SeqInv(c, s')
  {
    FetchSteps(c, s, a, s');
    SeqSame(c, s, s');
  }

  lemma FetchSteps(c: Config, s: State, a: Action, s': State)
    requires Valid(c) && Next(c, s, a, s')
    requires a.Acquire? || a.StartRead? || a.EndRead? || a.Retire? || a.Flip?
    ensures s'.tasks == s.tasks && s'.tiers == s.tiers && s'.flights == s.flights
    ensures s'.latch.fetches.Keys == s.latch.fetches.Keys
    ensures forall f :: f in s.latch.fetches ==> s'.latch.fetches[f].group == s.latch.fetches[f].group
  {
  }

  lemma SeqSpawn(c: Config, s: State, t: nat, key: Key, prefetch: bool, s': State)
    requires Valid(c) && SeqInv(c, s) && SpawnStep(c, s, t, key, prefetch, s') && AllDone(s)
    ensures SeqInv(c, s')
  {
    forall f | f in s'.latch.fetches ensures Settled(c, s', f) {
      assert forall t :: !WorksOn(c, s, t, f);
      assert Settled(c, s, f);
    }
  }

  // No fetch of the group is there yet: its blocks would be resident, or another call would be at work.
  lemma GroupIsNew(c: Config, s: State, t: nat, f: nat)
    requires Valid(c) && SeqInv(c, s) && t in s.tasks && s.tasks[t].pc.Lead? && f in s.latch.fetches
    requires InRange(c, s.tasks[t].key) && OnGrid(c, s.tasks[t].key)
    ensures s.latch.fetches[f].group != GroupOf(c, s.tasks[t].key)
  {
    var key := s.tasks[t].key;
    AllSettled(c, s, t, f);
    assert Knows(c, s, key, s.tasks[t].pc);
    DemandedIsInGroup(c, key);
    var j: nat :| j < c.perGroup && BlockKey(c, GroupOf(c, key), j) == key;
    assert !GroupResident(c, Resident(s), GroupOf(c, key));
  }

  lemma SeqJoin(c: Config, s: State, t: nat, f: nat, s': State)
    requires Valid(c) && LatchInv(s.latch) && SeqInv(c, s) && JoinOrCreateStep(c, s, t, f, s')
    requires InRange(c, s.tasks[t].key) && OnGrid(c, s.tasks[t].key)
    ensures SeqInv(c, s')
  {
    var g := GroupOf(c, s.tasks[t].key);
    forall f' | f' in s.latch.fetches ensures s.latch.fetches[f'].group != g && Settled(c, s, f') {
      GroupIsNew(c, s, t, f');
      AllSettled(c, s, t, f');
    }
    assert g !in s.latch.inflight;
    assert s'.latch.fetches == s.latch.fetches[f := s'.latch.fetches[f]];
    assert s'.latch.fetches[f].group == g && s'.tiers == s.tiers;
    assert WorksOn(c, s', t, f);
    forall f' | f' in s'.latch.fetches && f' != f ensures Settled(c, s', f') {
      assert Settled(c, s, f');
    }
    forall t' | t' in s'.tasks ensures Knows(c, s', s'.tasks[t'].key, s'.tasks[t'].pc) {
      assert t' != t ==> s'.tasks[t'] == s.tasks[t'];
    }
  }

  // At most the active call works on a fetch.
  lemma OnlyWorker(c: Config, s: State, t: nat, t': nat, f: nat)
    requires Valid(c) && SeqInv(c, s) && t in s.tasks && !s.tasks[t].pc.Done? && f in s.latch.fetches
    requires WorksOn(c, s, t', f)
    ensures t' == t
  {
  }

  lemma SeqReceive(c: Config, s: State, t: nat, s': State)
    requires Valid(c) && CoherenceInv(c, s) && CalmInv(c, s) && SeqInv(c, s) && ReceiveStep(s, t, s')
    ensures SeqInv(c, s')
  {
    CalmReceive(c, s, t, s');
    assert s'.latch == s.latch && s'.tasks == s.tasks[t := s'.tasks[t]] && s'.tasks[t].key == s.tasks[t].key;
    forall f | f in s'.latch.fetches ensures Settled(c, s', f) || exists t :: WorksOn(c, s', t, f) {
      if !Settled(c, s, f) {
        var t' :| WorksOn(c, s, t', f);
        OnlyWorker(c, s, t, t', f);
        assert WorksOn(c, s', t, f);
      }
    }
    forall t' | t' in s'.tasks ensures Knows(c, s', s'.tasks[t'].key, s'.tasks[t'].pc) {
      assert t' != t ==> s'.tasks[t'] == s.tasks[t'];
    }
  }

  // One more block: resident now, or the call's own.
  lemma FillOneMore(c: Config, s: State, t: nat, s': State, f: nat)
    requires Valid(c) && FillStepStep(c, s, t, s') && f in s.latch.fetches && s'.latch == s.latch && WorksOn(c, s, t, f)
    requires s'.tasks[t].pc.Fill? && Resident(s) <= Resident(s')
    ensures WorksOn(c, s', t, f)
  {
    var Task(key, Fill(_, bytes, _, j, _)) := s.tasks[t];
    var g := GroupOf(c, key);
    assert s'.tasks[t].pc.j == j + 1 && s'.tasks[t].key == key && s'.tasks[t].pc.owner;
    forall i: nat | i < j + 1 ensures BlockKey(c, g, i) in Resident(s') || BlockKey(c, g, i) == key {
      assert i < j ==> BlockKey(c, g, i) in Resident(s) || BlockKey(c, g, i) == key;
    }
  }

  // Having filled in everything, the call leaves its group resident.
  lemma FillLast(c: Config, s: State, t: nat, s': State, f: nat)
    requires Valid(c) && FillStepStep(c, s, t, s') && f in s.latch.fetches && s'.latch == s.latch && WorksOn(c, s, t, f)
    requires InRange(c, s.tasks[t].key) && OnGrid(c, s.tasks[t].key)
    requires s.tasks[t].key in Resident(s') && Resident(s) <= Resident(s')
    requires GroupEnd(c, GroupOf(c, s.tasks[t].key)) <= BlockKey(c, GroupOf(c, s.tasks[t].key), s.tasks[t].pc.j).off
    ensures Settled(c, s', f)
  {
    var key := s.tasks[t].key;
    AllBlocksBelow(c, key, s.tasks[t].pc.j);
    forall i: nat | BlockKey(c, GroupOf(c, key), i).off < GroupEnd(c, GroupOf(c, key))
      ensures BlockKey(c, GroupOf(c, key), i) in Resident(s')
    {
      assert i < s.tasks[t].pc.j;
    }
  }

  lemma FillTiers(c: Config, s: State, t: nat, s': State)
    requires Valid(c) && FillStepStep(c, s, t, s') && (!c.dual ==> PlanIsSingle(s.tasks[t].pc))
    ensures s'.latch == s.latch && t in s'.tasks && s'.tasks == s.tasks[t := s'.tasks[t]]
    ensures s'.tasks[t].key == s.tasks[t].key
    ensures Resident(s) <= Resident(s') && (!c.dual ==> s'.tiers.meta == s.tiers.meta)
    ensures s'.tasks[t].pc.Fill? <==> Whole(c, GroupOf(c, s.tasks[t].key), s.tasks[t].pc.bytes, s.tasks[t].pc.j)
    ensures !s'.tasks[t].pc.Fill? ==>
              s'.tasks[t].pc.Done? && (s.tasks[t].pc.demanded.Some? ==> s.tasks[t].key in Resident(s'))
  {
  }

  lemma SeqFill(c: Config, s: State, t: nat, s': State)
    requires Valid(c) && CoherenceInv(c, s) && ShapeInv(c, s) && CalmInv(c, s) && SeqInv(c, s)
    requires FillStepStep(c, s, t, s')
    ensures SeqInv(c, s')
  {
    FillMeetsItsBlock(c, s, t);
    FillTiers(c, s, t, s');
    assert PcOk(c, s.tasks[t].key, s.tasks[t].pc);
    forall f | f in s'.latch.fetches ensures Settled(c, s', f) || exists t :: WorksOn(c, s', t, f) {
      if Settled(c, s, f) {
        StillResident(c, Resident(s), Resident(s'), s.latch.fetches[f].group);
      } else {
        var t' :| WorksOn(c, s, t', f);
        OnlyWorker(c, s, t, t', f);
        if s'.tasks[t].pc.Fill? {
          FillOneMore(c, s, t, s', f);
        } else {
          FillLast(c, s, t, s', f);
        }
      }
    }
    forall t' | t' in s'.tasks ensures Knows(c, s', s'.tasks[t'].key, s'.tasks[t'].pc) {
      assert t' != t ==> s'.tasks[t'] == s.tasks[t'] && s'.tasks[t'].pc.Done?;
    }
  }

  lemma SeqKept(c: Config, s: State, a: Action, s': State)
    requires Valid(c) && Inv(c, s) && CalmInv(c, s) && SeqInv(c, s) && Next(c, s, a, s') && CalmStep(c, s, a)
    requires a.Spawn? ==> AllDone(s)
    ensures SeqInv(c, s')
  {
    if a.Spawn? {
      SeqSpawn(c, s, a.t, a.key, a.prefetch, s');
    } else if a.JoinOrCreate? {
      assert PcOk(c, s.tasks[a.t].key, s.tasks[a.t].pc);
      SeqJoin(c, s, a.t, a.f, s');
    } else if a.Receive? {
      SeqReceive(c, s, a.t, s');
    } else if a.FillStep? {
      SeqFill(c, s, a.t, s');
    } else if a.Acquire? || a.StartRead? || a.EndRead? || a.Retire? || a.Flip? {
      SeqFetch(c, s, a, s');
    } else {
      SeqCall(c, s, a, s');
    }
  }

  lemma SeqStepAt(c: Config, states: seq<State>, acts: seq<Action>, i: nat)
    requires Valid(c) && CalmRun(c, states, acts) && Sequential(states, acts) && i < |acts| && SeqInv(c, states[i])
    ensures SeqInv(c, states[i + 1])
  {
    RunInv(c, states, acts, i);
    CalmRunInv(c, states, acts, i);
    assert StepAt(c, states, acts, i);
    SeqKept(c, states[i], acts[i], states[i + 1]);
  }

  lemma {:induction false} SeqRunInv(c: Config, states: seq<State>, acts: seq<Action>, i: nat)
    requires Valid(c) && CalmRun(c, states, acts) && Sequential(states, acts) && i < |states|
    ensures SeqInv(c, states[i])
    decreases i
  {
    if i > 0 {
      SeqRunInv(c, states, acts, i - 1);
      SeqStepAt(c, states, acts, i - 1);
    }
  }

  /** When calls do not overlap, no group is ever fetched twice, and between calls every group fetched is resident. */
  lemma SequentialReadsOnce(c: Config, states: seq<State>, acts: seq<Action>, i: nat)
    requires Valid(c) && CalmRun(c, states, acts) && Sequential(states, acts) && i < |states|
    ensures DistinctGroups(states[i])
    ensures AllDone(states[i]) ==> forall f :: f in states[i].latch.fetches ==> Settled(c, states[i], f)
  {
    SeqRunInv(c, states, acts, i);
    if AllDone(states[i]) {
      forall f | f in states[i].latch.fetches ensures Settled(c, states[i], f) {
        assert forall t :: !WorksOn(c, states[i], t, f);
      }
    }
  }
}
