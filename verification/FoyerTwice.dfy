/**
 Two ways in which concurrent calls read the same bytes of a source twice, with
 nothing evicted and nothing failing (imagesource/src/foyercache.rs). A fetch
 retires from the latch before its owner has inserted the sibling blocks, so a
 call for a sibling can miss in between. And groups of one block do not use the
 latch, so a call for each tier can fetch the same block.
 */
module FoyerTwice {
  import opened Basics
  import opened FoyerBlocks
  import opened FoyerMachine
  import opened FoyerRuns

  // Nothing evicted, no lookup and no source read failed, every source read complete.
  ghost predicate CalmStep(c: Config, s: State, a: Action) {
    && !a.Evict? && !a.LookupFails?
    && (a.EndRead? ==> a.got.Ok? && a.f in s.latch.fetches && s.latch.fetches[a.f].group.idx in c.sources
                       && |a.got.value| == GroupEnd(c, s.latch.fetches[a.f].group) - s.latch.fetches[a.f].group.off)
  }

  ghost predicate CalmRun(c: Config, states: seq<State>, acts: seq<Action>)
    requires Valid(c)
  {
    IsRun(c, states, acts) && forall i :: 0 <= i < |acts| ==> CalmStep(c, states[i], acts[i])
  }

  ghost predicate CalmlyReached(c: Config, s: State)
    requires Valid(c)
  {
    exists states, acts :: CalmRun(c, states, acts) && states[|acts|] == s
  }

  lemma ReachStart(c: Config)
    requires Valid(c)
    ensures CalmlyReached(c, Start(c))
  {
    assert CalmRun(c, [Start(c)], []);
  }

  lemma Reach(c: Config, s: State, a: Action, s': State)
    requires Valid(c) && CalmlyReached(c, s) && Next(c, s, a, s') && CalmStep(c, s, a)
    ensures CalmlyReached(c, s')
  {
    var states, acts :| CalmRun(c, states, acts) && states[|acts|] == s;
    var states', acts' := states + [s'], acts + [a];
    forall i | 0 <= i < |acts'|
      ensures StepAt(c, states', acts', i) && CalmStep(c, states'[i], acts'[i])
    {
      if i < |acts| {
        assert StepAt(c, states, acts, i) && CalmStep(c, states[i], acts[i]);
        assert states'[i] == states[i] && states'[i + 1] == states[i + 1];
      }
    }
    assert CalmRun(c, states', acts');
  }

  // How a call that begins now is routed.
  function PlanAt(c: Config, regular: bool): Plan {
    if !c.dual then Single else if regular then Regular else Metadata
  }

  // A new call for a block that neither tier has, up to the lookup of the last tier.
  lemma CallMisses(c: Config, s: State, t: nat, k: Key) returns (s': State)
    requires Valid(c) && CalmlyReached(c, s) && InRange(c, k) && OnGrid(c, k) && t !in s.tasks && k !in s.tiers.meta
    ensures CalmlyReached(c, s') && s'.tiers == s.tiers && s'.latch == s.latch && s'.sem == s.sem
    ensures s'.flights == s.flights
    ensures s'.phase.regular == s.phase.regular
    ensures s'.tasks == s.tasks[t := Task(k, Look(PlanAt(c, s.phase.regular), Content))]
  {
    var plan := PlanAt(c, s.phase.regular);
    var s1 := s.(tasks := s.tasks[t := Task(k, Begin)]);
    Reach(c, s, Spawn(t, k, false), s1);
    var s2 := s1.(tasks := Goto(s1.tasks, t, Look(plan, if c.dual then Meta else Content)),
                  phase := if plan.Metadata? then s1.phase.(routed := s1.phase.routed + {k}) else s1.phase);
    Reach(c, s1, LoadPhase(t), s2);
    s' := s2;
    if c.dual {
      s' := s2.(tasks := Goto(s2.tasks, t, Look(plan, Content)));
      Reach(c, s2, Lookup(t), s');
    }
    assert s'.tasks == s.tasks[t := Task(k, Look(plan, Content))];
  }

  // From there to the point where it leads in the tier of its phase.
  lemma CallLeads(c: Config, s: State, t: nat, k: Key) returns (s': State)
    requires Valid(c) && CalmlyReached(c, s) && InRange(c, k) && OnGrid(c, k) && t !in s.tasks
    requires k !in s.tiers.content && k !in s.tiers.meta && (Sink(PlanAt(c, s.phase.regular)), k) !in s.flights
    ensures var plan := PlanAt(c, s.phase.regular);
            && CalmlyReached(c, s') && s'.tiers == s.tiers && s'.latch == s.latch && s'.sem == s.sem
            && s'.phase.regular == s.phase.regular
            && s'.tasks == s.tasks[t := Task(k, Lead(plan))] && s'.flights == s.flights[(Sink(plan), k) := t]
  {
    var plan := PlanAt(c, s.phase.regular);
    var s1 := CallMisses(c, s, t, k);
    var s2 := s1.(tasks := Goto(s1.tasks, t, Enter(plan)));
    Reach(c, s1, Lookup(t), s2);
    s' := s2.(tasks := Goto(s2.tasks, t, Lead(plan)), flights := s2.flights[(Sink(plan), k) := t]);
    Reach(c, s2, GetOrFetch(t), s');
    assert s'.tasks == s.tasks[t := Task(k, Lead(plan))];
  }

  // It finds no fetch of its group under way and starts one.
  lemma FetchQueued(c: Config, s: State, t: nat, f: nat) returns (s': State)
    requires Valid(c) && CalmlyReached(c, s) && s.sem.held == {}
    requires t in s.tasks && s.tasks[t].pc.Lead? && f !in s.latch.fetches
    requires GroupOf(c, s.tasks[t].key) !in s.latch.inflight
    ensures CalmlyReached(c, s') && s'.tiers == s.tiers && s'.flights == s.flights && s'.sem == s.sem
    ensures s'.phase == s.phase
    ensures s'.tasks.Keys == s.tasks.Keys
    ensures s'.latch.fetches == s.latch.fetches[f := Fetch(GroupOf(c, s.tasks[t].key), t, c.perGroup > 1, Queued)]
    ensures s'.latch.inflight ==
            if c.perGroup > 1 then s.latch.inflight[GroupOf(c, s.tasks[t].key) := f] else s.latch.inflight
  {
    var Task(key, Lead(plan)) := s.tasks[t];
    var g, latched := GroupOf(c, key), c.perGroup > 1;
    s' := s.(tasks := Goto(s.tasks, t, Await(plan, f, true)),
             latch := Latch(if latched then s.latch.inflight[g := f] else s.latch.inflight,
                            s.latch.fetches[f := Fetch(g, t, latched, Queued)]));
    Reach(c, s, JoinOrCreate(t, f), s');
  }

  lemma FetchReads(c: Config, s: State, f: nat) returns (s': State)
    requires Valid(c) && CalmlyReached(c, s) && s.sem.free > 0 && s.sem.held == {} && f in s.latch.fetches
    requires s.latch.fetches[f].st.Queued?
    ensures CalmlyReached(c, s') && s'.tiers == s.tiers && s'.flights == s.flights && s'.phase == s.phase
    ensures s'.tasks == s.tasks
    ensures s'.sem == Take(s.sem, OfFetch(f)) && s'.latch == SetFetch(s.latch, f, Reading)
  {
    var s1 := s.(sem := Take(s.sem, OfFetch(f)));
    Reach(c, s, Acquire(f), s1);
    s' := s1.(latch := SetFetch(s1.latch, f, Reading));
    Reach(c, s1, StartRead(f), s');
  }

  // The source answers in full and the fetch retires; its owner has yet to hear of it.
  lemma FetchRetires(c: Config, s: State, f: nat) returns (s': State)
    requires Valid(c) && CalmlyReached(c, s) && f in s.latch.fetches && s.latch.fetches[f].st.Reading?
    requires s.sem.held == {OfFetch(f)} && InRange(c, s.latch.fetches[f].group)
    ensures CalmlyReached(c, s') && s'.tiers == s.tiers && s'.tasks == s.tasks && s'.flights == s.flights
    ensures s'.phase == s.phase
    ensures s'.sem == Semaphore(s.sem.free + 1, {}) && s'.latch.fetches.Keys == s.latch.fetches.Keys
    ensures s'.latch.inflight ==
            if s.latch.fetches[f].latched then s.latch.inflight - {s.latch.fetches[f].group} else s.latch.inflight
    ensures s'.latch.fetches[f].group == s.latch.fetches[f].group
    ensures s'.latch.fetches[f].st.Finished? && s'.latch.fetches[f].st.result.Ok?
  {
    var g := s.latch.fetches[f].group;
    var bytes := c.sources[g.idx][g.off..GroupEnd(c, g)];
    var s1 := s.(latch := SetFetch(s.latch, f, Read(Ok(bytes))), sem := Drop(s.sem, OfFetch(f)));
    assert Agrees(c, g, bytes) && |bytes| == GroupEnd(c, g) - g.off;
    Reach(c, s, EndRead(f, Ok(bytes)), s1);
    var l := SetFetch(s1.latch, f, Finished(Ok(bytes)));
    s' := s1.(latch := if s.latch.fetches[f].latched then l.(inflight := l.inflight - {g}) else l);
    Reach(c, s1, Retire(f), s');
  }

  // Start, read and retire a fetch for a call that leads.
  lemma FetchGoesBy(c: Config, s: State, t: nat, f: nat) returns (s': State)
    requires Valid(c) && CalmlyReached(c, s) && s.sem.free > 0 && s.sem.held == {} && f !in s.latch.fetches
    requires t in s.tasks && s.tasks[t].pc.Lead? && GroupOf(c, s.tasks[t].key) !in s.latch.inflight
    requires InRange(c, s.tasks[t].key)
    ensures CalmlyReached(c, s') && s'.tiers == s.tiers && s'.flights == s.flights && s'.phase == s.phase
    ensures s'.sem == s.sem && s'.tasks.Keys == s.tasks.Keys && s'.latch.fetches.Keys == s.latch.fetches.Keys + {f}
    ensures s'.latch.inflight == s.latch.inflight
    ensures s'.latch.fetches[f].group == GroupOf(c, s.tasks[t].key)
    ensures s'.latch.fetches[f].st.Finished? && s'.latch.fetches[f].st.result.Ok?
  {
    var s1 := FetchQueued(c, s, t, f);
    var s2 := FetchReads(c, s1, f);
    s' := FetchRetires(c, s2, f);
  }

  /**
   Two calls that are not for the same block of a single tier can each read the whole group from the source, in a
   run where nothing goes wrong: the second begins after the first fetch has retired and before its owner fills in.
   */
  lemma GroupReadTwice(c: Config, k: Key, k': Key) returns (s: State)
    requires Valid(c) && InRange(c, k) && InRange(c, k') && OnGrid(c, k) && OnGrid(c, k')
    requires GroupOf(c, k) == GroupOf(c, k') && (k != k' || c.dual)
    ensures CalmlyReached(c, s) && s.latch.fetches.Keys == {0, 1}
    ensures s.latch.fetches[0].group == s.latch.fetches[1].group == GroupOf(c, k)
    ensures s.latch.fetches[0].st.Finished? && s.latch.fetches[0].st.result.Ok? && s.latch.fetches[1].st.Reading?
  {
    ReachStart(c);
    var s1 := CallLeads(c, Start(c), 0, k);
    var s2 := FetchGoesBy(c, s1, 0, 0);
    var s3 := s2.(phase := s2.phase.(regular := true));
    Reach(c, s2, Flip, s3);
    var s4 := CallLeads(c, s3, 1, k');
    var s5 := FetchQueued(c, s4, 1, 1);
    s := FetchReads(c, s5, 1);
  }

  /**
   In a cache of two tiers with one block per group, a call from before the phase flip and one
   from after it fetch the same block at the same time.
   */
  lemma BlockFetchedByBothTiers(c: Config, k: Key) returns (s: State)
    requires Valid(c) && c.dual && c.perGroup == 1 && InRange(c, k) && OnGrid(c, k)
    ensures CalmlyReached(c, s) && Unretired(s, 0) && Unretired(s, 1)
    ensures s.latch.fetches[0].group == s.latch.fetches[1].group == k
  {
    ReachStart(c);
    GroupIsBlock(c, k);
    var s1 := CallLeads(c, Start(c), 0, k);
    var s2 := FetchQueued(c, s1, 0, 0);
    var s3 := s2.(phase := s2.phase.(regular := true));
    Reach(c, s2, Flip, s3);
    var s4 := CallLeads(c, s3, 1, k);
    s := FetchQueued(c, s4, 1, 1);
  }
}
