/**
 What holds in every state a cache run can reach: coherence with the sources,
 the discipline of the metadata tier, and freedom from deadlock.
 */
module FoyerRuns {
  import opened Basics
  import opened FoyerBlocks
  import opened FoyerMachine

  // ---- Coherence ----

  // What a call may carry: only bytes of its own block, or of its own group.
  ghost predicate PcOk(c: Config, key: Key, pc: Pc)
    requires Valid(c)
  {
    && InRange(c, key) && InRange(c, GroupOf(c, key))
    && match pc
       case Promote(b) => b == Block(c, key)
       case Fill(_, bytes, _, _, demanded) =>
         Agrees(c, GroupOf(c, key), bytes) && (demanded.Some? ==> demanded.value == Block(c, key))
       case Done(Ok(b)) => b == Block(c, key)
       case _ => true
  }

  ghost predicate FetchOk(c: Config, fe: Fetch) {
    && InRange(c, fe.group)
    && (fe.st.Read? && fe.st.got.Ok? ==> Agrees(c, fe.group, fe.st.got.value))
    && (fe.st.Finished? && fe.st.result.Ok? ==> Agrees(c, fe.group, fe.st.result.value))
  }

  ghost predicate CoherenceInv(c: Config, s: State)
    requires Valid(c)
  {
    && Coherent(c, s.tiers.content) && Coherent(c, s.tiers.meta)
    && (forall t :: t in s.tasks ==> PcOk(c, s.tasks[t].key, s.tasks[t].pc))
    && (forall f :: f in s.latch.fetches ==> FetchOk(c, s.latch.fetches[f]))
    && (forall t :: t in s.tasks && s.tasks[t].pc.Await? && s.tasks[t].pc.fetch in s.latch.fetches ==>
          s.latch.fetches[s.tasks[t].pc.fetch].group == GroupOf(c, s.tasks[t].key))
  }

  // A call moved on without touching the tiers' coherence.
  lemma CoherentMove(c: Config, s: State, t: nat, s': State)
    requires Valid(c) && CoherenceInv(c, s) && TaskMove(s, t, s')
    requires Coherent(c, s'.tiers.content) && Coherent(c, s'.tiers.meta)
    requires PcOk(c, s.tasks[t].key, s'.tasks[t].pc) && !s'.tasks[t].pc.Await?
    ensures CoherenceInv(c, s')
  {
  }

  // Filling: the block cut out is right, so whatever tier it goes to stays coherent.
  lemma CoherentFill(c: Config, s: State, t: nat, s': State)
    requires Valid(c) && CoherenceInv(c, s) && FillStepStep(c, s, t, s')
    ensures Coherent(c, s'.tiers.content) && Coherent(c, s'.tiers.meta)
    ensures t in s'.tasks && PcOk(c, s.tasks[t].key, s'.tasks[t].pc) && !s'.tasks[t].pc.Await?
  {
    assert PcOk(c, s.tasks[t].key, s.tasks[t].pc);
    var Task(key, Fill(plan, bytes, owner, j, demanded)) := s.tasks[t];
    var g := GroupOf(c, key);
    if Whole(c, g, bytes, j) {
      CutBlock(c, g, bytes, j);
    }
  }

  lemma CoherentJoin(c: Config, s: State, t: nat, f: nat, s': State)
    requires Valid(c) && CoherenceInv(c, s) && LatchInv(s.latch) && OwnerInv(s) && JoinOrCreateStep(c, s, t, f, s')
    ensures CoherenceInv(c, s')
  {
    assert PcOk(c, s.tasks[t].key, s.tasks[t].pc);
  }

  lemma CoherentSpawn(c: Config, s: State, t: nat, key: Key, prefetch: bool, s': State)
    requires Valid(c) && CoherenceInv(c, s) && SpawnStep(c, s, t, key, prefetch, s')
    ensures CoherenceInv(c, s')
  {
    assert InRange(c, GroupOf(c, key));
  }

  lemma CoherentEvict(c: Config, s: State, tier: Tier, key: Key, s': State)
    requires Valid(c) && CoherenceInv(c, s) && EvictStep(s, tier, key, s')
    ensures CoherenceInv(c, s')
  {
  }

  lemma CoherentFetch(c: Config, s: State, f: nat, got: Reply, s': State)
    requires Valid(c) && CoherenceInv(c, s)
    requires AcquireStep(s, f, s') || StartReadStep(s, f, s') || EndReadStep(c, s, f, got, s') || RetireStep(s, f, s')
    ensures CoherenceInv(c, s')
  {
    assert FetchOk(c, s.latch.fetches[f]);
  }

  // What a call's step must leave behind.
  ghost predicate CallCoherent(c: Config, s: State, t: nat, s': State)
    requires Valid(c)
  {
    && Coherent(c, s'.tiers.content) && Coherent(c, s'.tiers.meta)
    && t in s.tasks && t in s'.tasks && PcOk(c, s.tasks[t].key, s'.tasks[t].pc) && !s'.tasks[t].pc.Await?
  }

  lemma CoherentLookup(c: Config, s: State, t: nat, s': State)
    requires Valid(c) && CoherenceInv(c, s)
    requires (LookupStep(s, t, s') || PromoteStep(s, t, s') || GetOrFetchStep(s, t, s'))
    ensures CallCoherent(c, s, t, s')
  {
    assert PcOk(c, s.tasks[t].key, s.tasks[t].pc);
  }

  lemma CoherentHear(c: Config, s: State, t: nat, s': State)
    requires Valid(c) && CoherenceInv(c, s) && FlightInv(s) && HearStep(s, t, s')
    ensures CallCoherent(c, s, t, s')
  {
    assert PcOk(c, s.tasks[t].key, s.tasks[t].pc);
    assert Followed(s, s.tasks[t].pc.leader, s.tasks[t].key);
    assert PcOk(c, s.tasks[t].key, s.tasks[s.tasks[t].pc.leader].pc);
  }

  lemma CoherentReceive(c: Config, s: State, t: nat, s': State)
    requires Valid(c) && CoherenceInv(c, s) && ReceiveStep(s, t, s')
    ensures CallCoherent(c, s, t, s')
  {
    assert PcOk(c, s.tasks[t].key, s.tasks[t].pc);
    assert FetchOk(c, s.latch.fetches[s.tasks[t].pc.fetch]);
  }

  // The remaining calls hand on a block they found, or the bytes of their own group.
  lemma CoherentCall(c: Config, s: State, a: Action, s': State)
    requires Valid(c) && Next(c, s, a, s') && CoherenceInv(c, s) && FlightInv(s)
    requires a.LoadPhase? || a.Lookup? || a.LookupFails? || a.DoPromote? || a.GetOrFetch? || a.Receive? || a.Hear?
    ensures CallCoherent(c, s, a.t, s')
  {
    if a.Receive? {
      CoherentReceive(c, s, a.t, s');
    } else if a.Hear? {
      CoherentHear(c, s, a.t, s');
    } else if a.LoadPhase? || a.LookupFails? {
      assert PcOk(c, s.tasks[a.t].key, s.tasks[a.t].pc);
    } else {
      CoherentLookup(c, s, a.t, s');
    }
  }

  lemma CoherentStep(c: Config, s: State, a: Action, s': State)
    requires Valid(c) && Next(c, s, a, s') && CoherenceInv(c, s) && OwnerInv(s) && FlightInv(s)
    requires OfCall(a)
    ensures CoherenceInv(c, s')
  {
    Moves(c, s, a, s');
    if a.FillStep? {
      CoherentFill(c, s, a.t, s');
    } else {
      CoherentCall(c, s, a, s');
    }
    CoherentMove(c, s, a.t, s');
  }

  lemma CoherenceKept(c: Config, s: State, a: Action, s': State)
    requires Valid(c) && Next(c, s, a, s') && CoherenceInv(c, s) && LatchInv(s.latch) && OwnerInv(s) && FlightInv(s)
    ensures CoherenceInv(c, s')
  {
    if a.Spawn? {
      CoherentSpawn(c, s, a.t, a.key, a.prefetch, s');
    } else if a.JoinOrCreate? {
      CoherentJoin(c, s, a.t, a.f, s');
    } else if a.Acquire? || a.StartRead? || a.EndRead? || a.Retire? {
      CoherentFetch(c, s, a.f, if a.EndRead? then a.got else Err(()), s');
    } else if a.Evict? {
      CoherentEvict(c, s, a.tier, a.key, s');
    } else if !a.Flip? {
      CoherentStep(c, s, a, s');
    }
  }

  // ---- The metadata tier ----

  predicate BoundForMeta(pc: Pc) {
    || pc.Promote?
    || ((pc.Look? || pc.Enter? || pc.Follow? || pc.Lead? || pc.Await? || pc.Fill?) && pc.plan.Metadata?)
  }

  // Whatever is in the metadata tier, or on its way there, was itself asked for in the metadata phase.
  ghost predicate MetaInv(s: State) {
    && (forall k :: k in s.tiers.meta ==> k in s.phase.routed)
    && (forall t :: t in s.tasks && BoundForMeta(s.tasks[t].pc) ==> s.tasks[t].key in s.phase.routed)
  }

  lemma MetaKept(c: Config, s: State, a: Action, s': State)
    requires Valid(c) && Next(c, s, a, s') && MetaInv(s)
    ensures MetaInv(s')
    ensures s.phase.regular ==> s'.phase == s.phase
  {
  }

  /** A call of the metadata phase that gets its block by itself leaves it in the metadata tier. */
  lemma MetaCallLeaves(c: Config, s: State, a: Action, s': State, t: nat)
    requires Valid(c) && Next(c, s, a, s') && t in s.tasks && t in s'.tasks
    requires BoundForMeta(s.tasks[t].pc) && !s.tasks[t].pc.Follow? && s'.tasks[t].pc.Done? && s'.tasks[t].pc.reply.Ok?
    ensures s.tasks[t].key in s'.tiers.meta
  {
    if a.Lookup? {
    } else if a.GetOrFetch? {
    } else if a.DoPromote? {
    } else if a.FillStep? {
    } else if OfCall(a) {
    }
  }

  // ---- Plans and the latch ----

  // Keys lie on the grid, a single-tier cache knows one plan, and the latch is used exactly
  // when a group has several blocks.
  ghost predicate ShapeInv(c: Config, s: State)
    requires Valid(c)
  {
    && (forall t :: t in s.tasks ==> OnGrid(c, s.tasks[t].key) && (!c.dual ==> PlanIsSingle(s.tasks[t].pc)))
    && (forall f :: f in s.latch.fetches ==> (s.latch.fetches[f].latched <==> c.perGroup > 1))
  }

  predicate PlanIsSingle(pc: Pc) {
    pc.Begin? || pc.Promote? || pc.Done? || pc.plan.Single?
  }

  lemma ShapeKept(c: Config, s: State, a: Action, s': State)
    requires Valid(c) && Next(c, s, a, s') && ShapeInv(c, s)
    ensures ShapeInv(c, s')
  {
    match a
    case Spawn(t, key, prefetch) => ShapeSpawn(c, s, t, key, prefetch, s');
    case JoinOrCreate(t, f) => ShapeJoin(c, s, t, f, s');
    case Acquire(f) => ShapeFetch(c, s, f, Err(()), s');
    case StartRead(f) => ShapeFetch(c, s, f, Err(()), s');
    case EndRead(f, got) => ShapeFetch(c, s, f, got, s');
    case Retire(f) => ShapeFetch(c, s, f, Err(()), s');
    case Evict(_, _) =>
    case Flip =>
    case _ => ShapeCall(c, s, a, s');
  }

  lemma ShapeCall(c: Config, s: State, a: Action, s': State)
    requires Valid(c) && Next(c, s, a, s') && ShapeInv(c, s)
    requires OfCall(a)
    ensures ShapeInv(c, s')
  {
    Moves(c, s, a, s');
    PlanKept(c, s, a, s');
    ShapeMove(c, s, a.t, s');
  }

  lemma ShapeMove(c: Config, s: State, t: nat, s': State)
    requires Valid(c) && ShapeInv(c, s) && TaskMove(s, t, s') && (!c.dual ==> PlanIsSingle(s'.tasks[t].pc))
    ensures ShapeInv(c, s')
  {
  }

  lemma ShapeSpawn(c: Config, s: State, t: nat, key: Key, prefetch: bool, s': State)
    requires Valid(c) && ShapeInv(c, s) && SpawnStep(c, s, t, key, prefetch, s')
    ensures ShapeInv(c, s')
  {
  }

  lemma ShapeJoin(c: Config, s: State, t: nat, f: nat, s': State)
    requires Valid(c) && ShapeInv(c, s) && JoinOrCreateStep(c, s, t, f, s')
    ensures ShapeInv(c, s')
  {
  }

  lemma ShapeFetch(c: Config, s: State, f: nat, got: Reply, s': State)
    requires Valid(c) && ShapeInv(c, s)
    requires AcquireStep(s, f, s') || StartReadStep(s, f, s') || EndReadStep(c, s, f, got, s') || RetireStep(s, f, s')
    ensures ShapeInv(c, s')
  {
  }

  lemma PlanKept(c: Config, s: State, a: Action, s': State)
    requires Valid(c) && Next(c, s, a, s') && ShapeInv(c, s)
    requires OfCall(a)
    ensures a.t in s'.tasks && (!c.dual ==> PlanIsSingle(s'.tasks[a.t].pc))
  {
  }

  // ---- Runs ----

  ghost predicate Inv(c: Config, s: State)
    requires Valid(c)
  {
    && PermitInv(c, s) && LatchInv(s.latch) && OwnerInv(s) && FlightInv(s)
    && CoherenceInv(c, s) && MetaInv(s) && ShapeInv(c, s)
  }

  lemma InvStart(c: Config)
    requires Valid(c)
    ensures Inv(c, Start(c))
  {
  }

  lemma InvKept(c: Config, s: State, a: Action, s': State)
    requires Valid(c) && Inv(c, s) && Next(c, s, a, s')
    ensures Inv(c, s')
  {
    PermitKept(c, s, a, s');
    LatchKept(c, s, a, s');
    OwnerKept(c, s, a, s');
    FlightKept(c, s, a, s');
    CoherenceKept(c, s, a, s');
    MetaKept(c, s, a, s');
    ShapeKept(c, s, a, s');
  }

  // A run: states[i] becomes states[i + 1] by acts[i].
  ghost predicate IsRun(c: Config, states: seq<State>, acts: seq<Action>)
    requires Valid(c)
  {
    && |states| == |acts| + 1 && states[0] == Start(c)
    && forall i :: 0 <= i < |acts| ==> StepAt(c, states, acts, i)
  }

  ghost predicate StepAt(c: Config, states: seq<State>, acts: seq<Action>, i: nat)
    requires Valid(c) && i < |acts| < |states|
  {
    Next(c, states[i], acts[i], states[i + 1])
  }

  /** Every state of every run satisfies every invariant. */
  lemma {:induction false} RunInv(c: Config, states: seq<State>, acts: seq<Action>, i: nat)
    requires Valid(c) && IsRun(c, states, acts) && i < |states|
    ensures Inv(c, states[i])
    decreases i
  {
    if i == 0 {
      InvStart(c);
    } else {
      RunInv(c, states, acts, i - 1);
      assert StepAt(c, states, acts, i - 1);
      InvKept(c, states[i - 1], acts[i - 1], states[i]);
    }
  }

  // ---- What a client may rely on ----

  /** A call that succeeds delivers exactly the source's bytes, and so does every cached block. */
  lemma RunServesSource(c: Config, states: seq<State>, acts: seq<Action>, i: nat)
    requires Valid(c) && IsRun(c, states, acts) && i < |states|
    ensures forall t :: t in states[i].tasks && states[i].tasks[t].pc.Done? && states[i].tasks[t].pc.reply.Ok? ==>
              && InRange(c, states[i].tasks[t].key)
              && states[i].tasks[t].pc.reply.value == Block(c, states[i].tasks[t].key)
    ensures Coherent(c, states[i].tiers.content) && Coherent(c, states[i].tiers.meta)
  {
    RunInv(c, states, acts, i);
    forall t | t in states[i].tasks && states[i].tasks[t].pc.Done? && states[i].tasks[t].pc.reply.Ok?
      ensures InRange(c, states[i].tasks[t].key)
      ensures states[i].tasks[t].pc.reply.value == Block(c, states[i].tasks[t].key)
    {
      assert PcOk(c, states[i].tasks[t].key, states[i].tasks[t].pc);
    }
  }

  ghost predicate Unretired(s: State, f: nat) {
    f in s.latch.fetches && !s.latch.fetches[f].st.Finished?
  }

  lemma GroupIsBlock(c: Config, k: Key)
    requires Valid(c) && c.perGroup == 1 && OnGrid(c, k)
    ensures GroupOf(c, k) == k
  {
  }

  // With the latch in use, it alone keeps fetches of one group apart.
  lemma LatchedSingle(c: Config, s: State, f: nat, f': nat)
    requires Valid(c) && Inv(c, s) && c.perGroup > 1
    requires Unretired(s, f) && Unretired(s, f') && s.latch.fetches[f].group == s.latch.fetches[f'].group
    ensures f == f'
  {
  }

  // Without it, a group is a block, and in a single tier one call leads per block.
  lemma UnlatchedSingle(c: Config, s: State, f: nat, f': nat)
    requires Valid(c) && Inv(c, s) && c.perGroup == 1 && !c.dual
    requires Unretired(s, f) && Unretired(s, f') && s.latch.fetches[f].group == s.latch.fetches[f'].group
    ensures f == f'
  {
    var t, t' := s.latch.fetches[f].owner, s.latch.fetches[f'].owner;
    assert Owning(s.tasks[t].pc, f) && Owning(s.tasks[t'].pc, f');
    GroupIsBlock(c, s.tasks[t].key);
    GroupIsBlock(c, s.tasks[t'].key);
    assert PlanIsSingle(s.tasks[t].pc) && PlanIsSingle(s.tasks[t'].pc);
    assert t == t';
  }

  /**
   At most one unretired fetch per group, unless two tiers meet groups of one block, for which
   the latch is not used (FoyerTwice shows that case).
   */
  lemma RunSingleFetch(c: Config, states: seq<State>, acts: seq<Action>, i: nat, f: nat, f': nat)
    requires Valid(c) && (c.perGroup > 1 || !c.dual) && IsRun(c, states, acts) && i < |states|
    requires var s := states[i];
             Unretired(s, f) && Unretired(s, f') && s.latch.fetches[f].group == s.latch.fetches[f'].group
    ensures f == f'
  {
    RunInv(c, states, acts, i);
    if c.perGroup > 1 {
      LatchedSingle(c, states[i], f, f');
    } else {
      UnlatchedSingle(c, states[i], f, f');
    }
  }

  /** An unretired fetch has exactly one owner; a finished or failed one is gone from the latch. */
  lemma RunOneOwner(c: Config, states: seq<State>, acts: seq<Action>, i: nat, f: nat)
    requires Valid(c) && IsRun(c, states, acts) && i < |states|
    ensures var s := states[i];
            && (Unretired(s, f) ==>
                  && (exists t :: t in s.tasks && Owning(s.tasks[t].pc, f))
                  && (forall t, t' :: t in s.tasks && t' in s.tasks ==>
                        Owning(s.tasks[t].pc, f) && Owning(s.tasks[t'].pc, f) ==> t == t'))
            && (f in s.latch.fetches && s.latch.fetches[f].st.Finished? ==>
                  forall g :: g in s.latch.inflight ==> s.latch.inflight[g] != f)
  {
    RunInv(c, states, acts, i);
  }

  // The fetches whose source read is under way.
  ghost function ReadsUnderWay(s: State): set<Holder> {
    set f | f in s.latch.fetches && s.latch.fetches[f].st.Reading? :: OfFetch(f)
  }

  /** Permits are conserved, every source read has its own, and waiting calls have none. */
  lemma RunPermits(c: Config, states: seq<State>, acts: seq<Action>, i: nat)
    requires Valid(c) && IsRun(c, states, acts) && i < |states|
    ensures var s := states[i];
            && s.sem.free + |s.sem.held| == c.permits
            && ReadsUnderWay(s) <= s.sem.held && |ReadsUnderWay(s)| <= c.permits
            && forall t :: t in s.tasks && !MayHold(s.tasks[t].pc) ==> OfTask(t) !in s.sem.held
  {
    RunInv(c, states, acts, i);
    SubsetSize(ReadsUnderWay(states[i]), states[i].sem.held);
  }

  // ---- How keys come to the metadata tier ----

  // The call the action belongs to is about to put its own block there.
  ghost predicate PutsOwnKey(s: State, a: Action, k: Key) {
    (a.DoPromote? || a.FillStep?) && a.t in s.tasks && BoundForMeta(s.tasks[a.t].pc) && s.tasks[a.t].key == k
  }

  /** A key enters as the own key of the call that adds it, never as a sibling, and with the bytes of its block. */
  lemma MetaEntry(c: Config, s: State, a: Action, s': State, k: Key)
    requires Valid(c) && CoherenceInv(c, s) && Next(c, s, a, s') && k in s'.tiers.meta && k !in s.tiers.meta
    ensures PutsOwnKey(s, a, k) && InRange(c, k) && s'.tiers.meta[k] == Block(c, k)
  {
    match a
    case DoPromote(t) => assert PcOk(c, s.tasks[t].key, s.tasks[t].pc);
    case FillStep(t) => assert PcOk(c, s.tasks[t].key, s.tasks[t].pc);
    case _ => MetaOnlyGrowsBy(c, s, a, s');
  }

  lemma MetaOnlyGrowsBy(c: Config, s: State, a: Action, s': State)
    requires Valid(c) && Next(c, s, a, s') && !a.DoPromote? && !a.FillStep?
    ensures s'.tiers.meta.Keys <= s.tiers.meta.Keys
  {
  }

  // A call is bound for the metadata tier from the moment it reads the phase, which is not over then.
  lemma BoundBefore(c: Config, s: State, a: Action, s': State, t: nat)
    requires Valid(c) && Next(c, s, a, s') && t in s'.tasks && BoundForMeta(s'.tasks[t].pc)
    ensures t in s.tasks && s.tasks[t].key == s'.tasks[t].key
    ensures BoundForMeta(s.tasks[t].pc) || (a == LoadPhase(t) && !s.phase.regular)
  {
  }

  lemma {:induction false} RunPhase(c: Config, states: seq<State>, acts: seq<Action>, i: nat, j: nat)
    requires Valid(c) && IsRun(c, states, acts) && i <= j < |states| && states[i].phase.regular
    ensures states[j].phase == states[i].phase
    decreases j
  {
    if i < j {
      RunPhase(c, states, acts, i, j - 1);
      assert StepAt(c, states, acts, j - 1);
      PhaseKept(c, states[j - 1], acts[j - 1], states[j]);
    }
  }

  lemma PhaseKept(c: Config, s: State, a: Action, s': State)
    requires Valid(c) && Next(c, s, a, s') && s.phase.regular
    ensures s'.phase == s.phase
  {
  }

  // Where in the run the call read the phase; it has been bound for the tier ever since.
  lemma {:induction false} BoundSince(c: Config, states: seq<State>, acts: seq<Action>, j: nat, t: nat) returns (i: nat)
    requires Valid(c) && IsRun(c, states, acts) && j < |states| && t in states[j].tasks
    requires BoundForMeta(states[j].tasks[t].pc)
    ensures i < j && acts[i] == LoadPhase(t) && !states[i].phase.regular
    ensures forall m :: i < m <= j ==> BoundWith(states[m], t, states[j].tasks[t].key)
    decreases j
  {
    if j == 0 {
      assert false;
    }
    assert StepAt(c, states, acts, j - 1);
    BoundBefore(c, states[j - 1], acts[j - 1], states[j], t);
    if BoundForMeta(states[j - 1].tasks[t].pc) {
      i := BoundSince(c, states, acts, j - 1, t);
    } else {
      i := j - 1;
    }
  }

  ghost predicate BoundWith(s: State, t: nat, k: Key) {
    t in s.tasks && s.tasks[t].key == k && BoundForMeta(s.tasks[t].pc)
  }

  /**
   In every run, a key enters the metadata tier as the own key of a call that read the phase before the flip:
   at every point after the flip, the call that will add it is already bound for the tier.
   */
  lemma RunMetaEntry(c: Config, states: seq<State>, acts: seq<Action>, i: nat, j: nat, k: Key)
    requires Valid(c) && IsRun(c, states, acts) && i <= j < |acts| && states[i].phase.regular
    requires k in states[j + 1].tiers.meta && k !in states[j].tiers.meta
    ensures PutsOwnKey(states[j], acts[j], k) && BoundWith(states[i], acts[j].t, k)
    ensures InRange(c, k) && states[j + 1].tiers.meta[k] == Block(c, k)
  {
    RunInv(c, states, acts, j);
    assert StepAt(c, states, acts, j);
    MetaEntry(c, states[j], acts[j], states[j + 1], k);
    var t := acts[j].t;
    var m := BoundSince(c, states, acts, j, t);
    if i <= m {
      RunPhase(c, states, acts, i, m);
    }
  }

  /** So after the flip the tier never holds a key that was not asked for before it. */
  lemma {:induction false} RunMetaFrozen(c: Config, states: seq<State>, acts: seq<Action>, i: nat, j: nat)
    requires Valid(c) && IsRun(c, states, acts) && i <= j < |states| && states[i].phase.regular
    ensures states[j].phase == states[i].phase
    ensures forall k :: k in states[j].tiers.meta ==> k in states[i].phase.routed
    decreases j, 1
  {
    RunPhase(c, states, acts, i, j);
    forall k | k in states[j].tiers.meta ensures k in states[i].phase.routed {
      if i == j || k in states[j - 1].tiers.meta {
        MetaHeld(c, states, acts, i, j, k);
      } else {
        RunMetaEntry(c, states, acts, i, j - 1, k);
        RoutedThere(c, states, acts, i, acts[j - 1].t);
      }
    }
  }

  lemma {:induction false} MetaHeld(c: Config, states: seq<State>, acts: seq<Action>, i: nat, j: nat, k: Key)
    requires Valid(c) && IsRun(c, states, acts) && i <= j < |states| && states[i].phase.regular
    requires k in states[j].tiers.meta && (i == j || k in states[j - 1].tiers.meta)
    ensures k in states[i].phase.routed
    decreases j, 0
  {
    if i == j {
      RunInv(c, states, acts, i);
    } else {
      RunMetaFrozen(c, states, acts, i, j - 1);
    }
  }

  lemma RoutedThere(c: Config, states: seq<State>, acts: seq<Action>, i: nat, t: nat)
    requires Valid(c) && IsRun(c, states, acts) && i < |states| && t in states[i].tasks
    requires BoundForMeta(states[i].tasks[t].pc)
    ensures states[i].tasks[t].key in states[i].phase.routed
  {
    RunInv(c, states, acts, i);
  }

  // ---- Progress ----

  // Some call or fetch can take a step of its own.
  ghost predicate CanStep(c: Config, s: State)
    requires Valid(c)
  {
    exists a: Action, s': State :: !a.Spawn? && !a.LookupFails? && !a.Evict? && !a.Flip? && Next(c, s, a, s')
  }

  lemma CallCanStep(c: Config, s: State, t: nat)
    requires Valid(c) && Inv(c, s) && t in s.tasks
    requires MayHold(s.tasks[t].pc) || s.tasks[t].pc.Fill?
    ensures CanStep(c, s)
  {
    assert PcOk(c, s.tasks[t].key, s.tasks[t].pc);
    var pc := s.tasks[t].pc;
    var s': State;
    if pc.Begin? {
      var plan := if !c.dual then Single else if s.phase.regular then Regular else Metadata;
      s' := s.(tasks := Goto(s.tasks, t, Look(plan, if c.dual then Meta else Content)),
               phase := if plan.Metadata? then s.phase.(routed := s.phase.routed + {s.tasks[t].key}) else s.phase);
      assert Next(c, s, LoadPhase(t), s');
    } else if pc.Look? {
      var Task(key, Look(plan, tier)) := s.tasks[t];
      s' := if key !in Select(s.tiers, tier) then
              s.(tasks := Goto(s.tasks, t, if tier.Meta? then Look(plan, Content) else Enter(plan)))
            else if plan.Metadata? && tier.Content? then
              s.(tasks := Goto(s.tasks, t, Promote(s.tiers.content[key])))
            else
              s.(tasks := Goto(s.tasks, t, Done(Ok(Select(s.tiers, tier)[key]))), sem := Drop(s.sem, OfTask(t)));
      assert Next(c, s, Lookup(t), s');
    } else if pc.Promote? {
      s' := s.(tasks := Goto(s.tasks, t, Done(Ok(pc.block))), tiers := Put(s.tiers, Meta, s.tasks[t].key, pc.block),
               sem := Drop(s.sem, OfTask(t)));
      assert Next(c, s, DoPromote(t), s');
    } else {
      CallCanStepLate(c, s, t);
    }
  }

  // A number not yet used as a fetch id.
  lemma Unused(ids: set<nat>) returns (f: nat)
    ensures f !in ids && forall i :: i in ids ==> i < f
  {
    f := 0;
    var left := ids;
    while left != {}
      invariant left <= ids && forall i :: i in ids && i !in left ==> i < f
      decreases left
    {
      var i :| i in left;
      left := left - {i};
      f := if f <= i then i + 1 else f;
    }
  }

  lemma FillCanStep(c: Config, s: State, t: nat)
    requires Valid(c) && t in s.tasks && s.tasks[t].pc.Fill? && InRange(c, GroupOf(c, s.tasks[t].key))
    ensures CanStep(c, s)
  {
    var Task(key, Fill(plan, bytes, owner, j, demanded)) := s.tasks[t];
    var g := GroupOf(c, key);
    var s': State;
    if Whole(c, g, bytes, j) {
      var k, b := BlockKey(c, g, j), bytes[j * c.chlen..BlockEnd(c, g, j)];
      s' := s.(tasks := Goto(s.tasks, t, Fill(plan, bytes, owner, j + 1, if k == key then Some(b) else demanded)),
               tiers := if owner && k != key then Put(s.tiers, Content, k, b) else s.tiers);
    } else if demanded.Some? {
      s' := s.(tasks := Goto(s.tasks, t, Done(Ok(demanded.value))),
               tiers := Put(s.tiers, Sink(plan), key, demanded.value),
               flights := s.flights - {(Sink(plan), key)});
    } else {
      s' := s.(tasks := Goto(s.tasks, t, Done(Err(()))), flights := s.flights - {(Sink(plan), key)});
    }
    assert FillStepStep(c, s, t, s') && Next(c, s, FillStep(t), s');
  }

  lemma CallCanStepLate(c: Config, s: State, t: nat)
    requires Valid(c) && Inv(c, s) && t in s.tasks
    requires s.tasks[t].pc.Enter? || s.tasks[t].pc.Lead? || s.tasks[t].pc.Fill?
    ensures CanStep(c, s)
  {
    assert PcOk(c, s.tasks[t].key, s.tasks[t].pc);
    var Task(key, pc) := s.tasks[t];
    if pc.Enter? {
      var tier := Sink(pc.plan);
      var s' := if key in Select(s.tiers, tier) then
                  s.(tasks := Goto(s.tasks, t, Done(Ok(Select(s.tiers, tier)[key]))), sem := Drop(s.sem, OfTask(t)))
                else if (tier, key) in s.flights then
                  s.(tasks := Goto(s.tasks, t, Follow(pc.plan, s.flights[(tier, key)])), sem := Drop(s.sem, OfTask(t)))
                else
                  s.(tasks := Goto(s.tasks, t, Lead(pc.plan)), flights := s.flights[(tier, key) := t]);
      assert Next(c, s, GetOrFetch(t), s');
    } else if pc.Lead? {
      var f := Unused(s.latch.fetches.Keys);
      var g, latched := GroupOf(c, key), c.perGroup > 1;
      var s' := if latched && g in s.latch.inflight then
                  s.(tasks := Goto(s.tasks, t, Await(pc.plan, s.latch.inflight[g], false)),
                     sem := Drop(s.sem, OfTask(t)))
                else
                  s.(tasks := Goto(s.tasks, t, Await(pc.plan, f, true)),
                     latch := Latch(if latched then s.latch.inflight[g := f] else s.latch.inflight,
                                    s.latch.fetches[f := Fetch(g, t, latched, Queued)]),
                     sem := HandOver(s.sem, OfTask(t), OfFetch(f)));
      assert Next(c, s, JoinOrCreate(t, f), s');
    } else {
      FillCanStep(c, s, t);
    }
  }

  lemma FetchCanStep(c: Config, s: State, f: nat)
    requires Valid(c) && f in s.latch.fetches && !s.latch.fetches[f].st.Finished?
    requires s.latch.fetches[f].st.Queued? ==> OfFetch(f) in s.sem.held || s.sem.free > 0
    ensures CanStep(c, s)
  {
    var fe := s.latch.fetches[f];
    match fe.st {
      case Queued =>
        if OfFetch(f) in s.sem.held {
          assert Next(c, s, StartRead(f), s.(latch := SetFetch(s.latch, f, Reading)));
        } else {
          assert Next(c, s, Acquire(f), s.(sem := Take(s.sem, OfFetch(f))));
        }
      case Reading =>
        var s' := s.(latch := SetFetch(s.latch, f, Read(Err(()))), sem := Drop(s.sem, OfFetch(f)));
        assert Next(c, s, EndRead(f, Err(())), s');
      case Read(got) =>
        var l := SetFetch(s.latch, f, Finished(got));
        var s' := s.(latch := if fe.latched then l.(inflight := l.inflight - {fe.group}) else l);
        assert Next(c, s, Retire(f), s');
    }
  }

  // When no permit is free, somebody who has one can go on.
  lemma HolderCanStep(c: Config, s: State)
    requires Valid(c) && Inv(c, s) && s.sem.free == 0
    ensures CanStep(c, s)
  {
    var h :| h in s.sem.held;
    match h
    case OfTask(t) => CallCanStep(c, s, t);
    case OfFetch(f) => FetchCanStep(c, s, f);
  }

  lemma LeaderCanStep(c: Config, s: State, t: nat)
    requires Valid(c) && Inv(c, s) && t in s.tasks && Leading(s.tasks[t].pc)
    ensures CanStep(c, s)
  {
    if s.tasks[t].pc.Await? {
      var f := s.tasks[t].pc.fetch;
      var st := s.latch.fetches[f].st;
      if st.Finished? {
        var Task(key, Await(plan, _, owner)) := s.tasks[t];
        var s' := match st.result
                  case Err(_) =>
                    s.(tasks := Goto(s.tasks, t, Done(Err(()))), flights := s.flights - {(Sink(plan), key)})
                  case Ok(bytes) => s.(tasks := Goto(s.tasks, t, Fill(plan, bytes, owner, 0, None)));
        assert Next(c, s, Receive(t), s');
      } else if s.sem.free == 0 {
        HolderCanStep(c, s);
      } else {
        FetchCanStep(c, s, f);
      }
    } else {
      CallCanStep(c, s, t);
    }
  }

  /** No run deadlocks: while a call is unfinished, some call or fetch can go on. */
  lemma RunNeverStuck(c: Config, states: seq<State>, acts: seq<Action>, i: nat, t: nat)
    requires Valid(c) && IsRun(c, states, acts) && i < |states|
    requires t in states[i].tasks && !states[i].tasks[t].pc.Done?
    ensures CanStep(c, states[i])
  {
    RunInv(c, states, acts, i);
    var s := states[i];
    var pc := s.tasks[t].pc;
    if pc.Follow? {
      var leader := pc.leader;
      assert Followed(s, leader, s.tasks[t].key);
      if s.tasks[leader].pc.Done? {
        assert Next(c, s, Hear(t), s.(tasks := Goto(s.tasks, t, s.tasks[leader].pc)));
      } else {
        LeaderCanStep(c, s, leader);
      }
    } else if Leading(pc) {
      LeaderCanStep(c, s, t);
    } else {
      CallCanStep(c, s, t);
    }
  }
}
