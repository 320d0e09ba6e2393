/**
 When a group is read from its source at most once. Runs here are calm: nothing
 is evicted and no read fails or stops short.
 */
module FoyerOnce {
  import opened Arith
  import opened FoyerBlocks
  import opened FoyerMachine
  import opened FoyerRuns
  import opened FoyerTwice

  // ---- What calm adds to every run ----

  ghost predicate FullReply(c: Config, g: Key, r: Reply) {
    r.Ok? && g.idx in c.sources && |r.value| == GroupEnd(c, g) - g.off
  }

  // A filling call has the whole group in hand and has met its own block if it went past it.
  ghost predicate FillsWhole(c: Config, key: Key, pc: Pc)
    requires Valid(c)
  {
    pc.Fill? ==>
      && key.idx in c.sources && |pc.bytes| == GroupEnd(c, GroupOf(c, key)) - GroupOf(c, key).off
      && forall i: nat :: i < pc.j && BlockKey(c, GroupOf(c, key), i) == key ==> pc.demanded.Some?
  }

  ghost predicate CalmInv(c: Config, s: State)
    requires Valid(c)
  {
    && (forall f :: f in s.latch.fetches && s.latch.fetches[f].st.Read? ==>
          FullReply(c, s.latch.fetches[f].group, s.latch.fetches[f].st.got))
    && (forall f :: f in s.latch.fetches && s.latch.fetches[f].st.Finished? ==>
          FullReply(c, s.latch.fetches[f].group, s.latch.fetches[f].st.result))
    && (forall t :: t in s.tasks ==> FillsWhole(c, s.tasks[t].key, s.tasks[t].pc))
  }

  // A filling call that finds no further block has met its own.
  lemma FillMeetsItsBlock(c: Config, s: State, t: nat)
    requires Valid(c) && CoherenceInv(c, s) && ShapeInv(c, s) && CalmInv(c, s) && t in s.tasks && s.tasks[t].pc.Fill?
    ensures var Task(key, Fill(_, bytes, _, j, demanded)) := s.tasks[t];
            InRange(c, GroupOf(c, key)) && !Whole(c, GroupOf(c, key), bytes, j) ==>
              demanded.Some? && GroupEnd(c, GroupOf(c, key)) <= BlockKey(c, GroupOf(c, key), j).off
  {
    var Task(key, Fill(_, bytes, _, j, demanded)) := s.tasks[t];
    var g := GroupOf(c, key);
    assert PcOk(c, key, s.tasks[t].pc) && FillsWhole(c, key, s.tasks[t].pc);
    if InRange(c, g) && !Whole(c, g, bytes, j) {
      if BlockKey(c, g, j).off < GroupEnd(c, g) {
        BlockGeometry(c, g, j);
        assert false;
      }
      AllBlocksBelow(c, key, j);
    }
  }

  lemma CalmFetch(c: Config, s: State, a: Action, s': State)
    requires Valid(c) && CalmInv(c, s) && Next(c, s, a, s') && CalmStep(c, s, a)
    requires a.Acquire? || a.StartRead? || a.EndRead? || a.Retire?
    ensures CalmInv(c, s')
  {
    assert s'.tasks == s.tasks;
  }

  lemma CalmJoin(c: Config, s: State, t: nat, f: nat, s': State)
    requires Valid(c) && CalmInv(c, s) && JoinOrCreateStep(c, s, t, f, s')
    ensures CalmInv(c, s')
  {
  }

  lemma CalmMove(c: Config, s: State, t: nat, s': State)
    requires Valid(c) && CalmInv(c, s) && TaskMove(s, t, s') && FillsWhole(c, s.tasks[t].key, s'.tasks[t].pc)
    ensures CalmInv(c, s')
  {
  }

  lemma CalmSpawn(c: Config, s: State, t: nat, key: Key, prefetch: bool, s': State)
    requires Valid(c) && CalmInv(c, s) && SpawnStep(c, s, t, key, prefetch, s')
    ensures CalmInv(c, s')
  {
  }

  // A filling call cuts one more block.
  lemma FillGoesOn(c: Config, s: State, t: nat, s': State)
    requires Valid(c) && FillStepStep(c, s, t, s') && FillsWhole(c, s.tasks[t].key, s.tasks[t].pc)
    ensures t in s'.tasks && FillsWhole(c, s.tasks[t].key, s'.tasks[t].pc)
  {
  }

  lemma CalmReceive(c: Config, s: State, t: nat, s': State)
    requires Valid(c) && CoherenceInv(c, s) && CalmInv(c, s) && ReceiveStep(s, t, s')
    ensures t in s'.tasks && FillsWhole(c, s.tasks[t].key, s'.tasks[t].pc) && s'.tasks[t].pc.Fill?
    ensures s'.flights == s.flights
    ensures s'.tiers == s.tiers && s'.tasks[t].pc.owner == s.tasks[t].pc.owner && s'.tasks[t].pc.j == 0
    ensures s'.tasks[t].pc.plan == s.tasks[t].pc.plan
  {
    assert PcOk(c, s.tasks[t].key, s.tasks[t].pc);
    var f := s.tasks[t].pc.fetch;
    assert FullReply(c, s.latch.fetches[f].group, s.latch.fetches[f].st.result);
  }

  lemma CalmKept(c: Config, s: State, a: Action, s': State)
    requires Valid(c) && CoherenceInv(c, s) && CalmInv(c, s) && Next(c, s, a, s') && CalmStep(c, s, a)
    ensures CalmInv(c, s')
  {
    if a.Spawn? {
      CalmSpawn(c, s, a.t, a.key, a.prefetch, s');
    } else if a.JoinOrCreate? {
      CalmJoin(c, s, a.t, a.f, s');
    } else if a.Acquire? || a.StartRead? || a.EndRead? || a.Retire? {
      CalmFetch(c, s, a, s');
    } else if a.FillStep? || a.Receive? {
      CalmFill(c, s, a, s');
    } else if !a.Flip? {
      CalmCall(c, s, a, s');
    }
  }

  lemma CalmFill(c: Config, s: State, a: Action, s': State)
    requires Valid(c) && CoherenceInv(c, s) && CalmInv(c, s) && Next(c, s, a, s') && (a.FillStep? || a.Receive?)
    ensures CalmInv(c, s')
  {
    Moves(c, s, a, s');
    if a.FillStep? {
      FillGoesOn(c, s, a.t, s');
    } else {
      CalmReceive(c, s, a.t, s');
    }
    CalmMove(c, s, a.t, s');
  }

  lemma CalmCall(c: Config, s: State, a: Action, s': State)
    requires Valid(c) && CalmInv(c, s) && Next(c, s, a, s')
    requires a.LoadPhase? || a.Lookup? || a.DoPromote? || a.GetOrFetch? || a.Hear?
    ensures CalmInv(c, s')
  {
    Moves(c, s, a, s');
    CalmMove(c, s, a.t, s');
  }

  // ---- A single tier and a group of one block ----

  // The group has one block that lies in the source.
  predicate OneBlock(c: Config, g: Key)
    requires InRange(c, g)
  {
    c.perGroup == 1 || |c.sources[g.idx]| <= g.off + c.chlen
  }

  lemma OnlyBlock(c: Config, g: Key, k: Key)
    requires Valid(c) && InRange(c, g) && OneBlock(c, g) && InRange(c, k) && OnGrid(c, k) && GroupOf(c, k) == g
    ensures k == g
  {
    DemandedIsInGroup(c, k);
    var j: nat :| j < c.perGroup && BlockKey(c, g, j) == k;
    if j > 0 {
      MulMonotone(1, j, c.chlen);
      assert false;
    }
  }

  ghost predicate HasFetch(s: State, g: Key) {
    exists f :: f in s.latch.fetches && s.latch.fetches[f].group == g
  }

  // The call that leads for block g in the content tier, if there is one, has or has not got as far as its fetch.
  ghost predicate AtLead(s: State, g: Key) {
    (Content, g) in s.flights && s.flights[(Content, g)] in s.tasks && s.tasks[s.flights[(Content, g)]].pc.Lead?
  }

  ghost predicate PastLead(s: State, g: Key) {
    (Content, g) in s.flights && s.flights[(Content, g)] in s.tasks && !s.tasks[s.flights[(Content, g)]].pc.Lead?
  }

  ghost predicate OneFetch(s: State, g: Key) {
    forall f, f' :: f in s.latch.fetches && f' in s.latch.fetches ==>
      s.latch.fetches[f].group == g == s.latch.fetches[f'].group ==> f == f'
  }

  ghost predicate OnceInv(s: State, g: Key) {
    && OneFetch(s, g)
    && (HasFetch(s, g) ==> g in s.tiers.content || PastLead(s, g))
    && (AtLead(s, g) ==> g !in s.tiers.content && !HasFetch(s, g))
  }

  // Steps that touch neither the fetches' groups nor the content tier nor who leads.
  lemma OnceSame(s: State, s': State, g: Key)
    requires OnceInv(s, g) && s'.tiers.content == s.tiers.content && s'.latch.fetches.Keys == s.latch.fetches.Keys
    requires forall f :: f in s.latch.fetches ==> s'.latch.fetches[f].group == s.latch.fetches[f].group
    requires (AtLead(s', g) <==> AtLead(s, g)) && (PastLead(s, g) ==> PastLead(s', g))
    ensures OnceInv(s', g)
  {
  }

  lemma OnceFetch(c: Config, s: State, a: Action, s': State, g: Key)
    requires Valid(c) && OnceInv(s, g) && Next(c, s, a, s')
    requires a.Acquire? || a.StartRead? || a.EndRead? || a.Retire? || a.Flip?
    ensures OnceInv(s', g)
  {
    assert s'.tasks == s.tasks && s'.flights == s.flights && s'.tiers == s.tiers;
    OnceSame(s, s', g);
  }

  // A call that is not leading, before or after, makes no difference.
  lemma OnceMove(s: State, t: nat, s': State, g: Key)
    requires FlightInv(s) && OnceInv(s, g) && s'.flights == s.flights && s'.tiers.content == s.tiers.content
    requires s'.latch == s.latch
    requires t in s'.tasks && s'.tasks == s.tasks[t := s'.tasks[t]] && (t in s.tasks ==> !Leading(s.tasks[t].pc))
    ensures OnceInv(s', g)
  {
    assert (Content, g) in s.flights ==> s.flights[(Content, g)] != t;
    OnceSame(s, s', g);
  }

  lemma OnceGetOrFetch(s: State, t: nat, s': State, g: Key)
    requires FlightInv(s) && OnceInv(s, g) && GetOrFetchStep(s, t, s')
    ensures OnceInv(s', g)
  {
    var key, tier := s.tasks[t].key, Sink(s.tasks[t].pc.plan);
    if s'.tasks[t].pc.Lead? {
      assert (Content, g) in s.flights ==> s.flights[(Content, g)] != t;
      if (tier, key) == (Content, g) {
        assert g !in s.tiers.content && !PastLead(s, g);
      } else {
        OnceSame(s, s', g);
      }
    } else {
      OnceMove(s, t, s', g);
    }
  }

  lemma OnceReceive(c: Config, s: State, t: nat, s': State, g: Key)
    requires Valid(c) && CoherenceInv(c, s) && CalmInv(c, s) && OnceInv(s, g) && ReceiveStep(s, t, s')
    ensures OnceInv(s', g)
  {
    CalmReceive(c, s, t, s');
    OnceSame(s, s', g);
  }

  // The group in question: aligned, with a single block, in a single tier.
  ghost predicate Alone(c: Config, g: Key) {
    Valid(c) && !c.dual && InRange(c, g) && OneBlock(c, g) && GroupOf(c, g) == g
  }

  lemma OnceJoin(c: Config, s: State, t: nat, f: nat, s': State, g: Key)
    requires Alone(c, g) && FlightInv(s) && ShapeInv(c, s) && LatchInv(s.latch) && OnceInv(s, g)
    requires JoinOrCreateStep(c, s, t, f, s')
    requires InRange(c, s.tasks[t].key)
    ensures OnceInv(s', g)
  {
    var key := s.tasks[t].key;
    assert PlanIsSingle(s.tasks[t].pc) && s.flights[(Content, key)] == t;
    if GroupOf(c, key) == g {
      OnlyBlock(c, g, key);
      OnceCreates(s, t, s', g);
    } else {
      OnceElsewhere(s, t, f, s', g);
    }
  }

  // The leader of block g creates the first fetch of it.
  lemma OnceCreates(s: State, t: nat, s': State, g: Key)
    requires OnceInv(s, g) && (Content, g) in s.flights && s.flights[(Content, g)] == t && t in s.tasks
    requires s.tasks[t].pc.Lead?
    requires s'.tiers == s.tiers && s'.flights == s.flights && t in s'.tasks && !s'.tasks[t].pc.Lead?
    requires exists f :: f !in s.latch.fetches && f in s'.latch.fetches
                         && s'.latch.fetches == s.latch.fetches[f := s'.latch.fetches[f]]
    ensures OnceInv(s', g)
  {
    assert AtLead(s, g);
  }

  // A call for another group leaves block g as it was.
  lemma OnceElsewhere(s: State, t: nat, f: nat, s': State, g: Key)
    requires OnceInv(s, g) && s'.tiers == s.tiers && s'.flights == s.flights && t in s.tasks
    requires t in s'.tasks && s'.tasks == s.tasks[t := s'.tasks[t]]
    requires ((Content, g) in s.flights ==> s.flights[(Content, g)] != t)
    requires s'.latch.fetches == s.latch.fetches ||
             (f in s'.latch.fetches && s'.latch.fetches == s.latch.fetches[f := s'.latch.fetches[f]]
              && s'.latch.fetches[f].group != g && f !in s.latch.fetches)
    ensures OnceInv(s', g)
  {
    assert HasFetch(s', g) ==> HasFetch(s, g);
  }

  lemma OnceFill(c: Config, s: State, t: nat, s': State, g: Key)
    requires Alone(c, g) && Inv(c, s) && CalmInv(c, s) && OnceInv(s, g) && FillStepStep(c, s, t, s')
    ensures OnceInv(s', g)
  {
    var Task(key, Fill(plan, bytes, owner, j, demanded)) := s.tasks[t];
    var g2 := GroupOf(c, key);
    assert PcOk(c, key, s.tasks[t].pc) && OnGrid(c, key) && PlanIsSingle(s.tasks[t].pc);
    assert s.flights[(Content, key)] == t;
    FillMeetsItsBlock(c, s, t);
    if Whole(c, g2, bytes, j) {
      BlockGeometry(c, g2, j);
      BlockInGroup(c, key, j);
      if BlockKey(c, g2, j) == g {
        OnlyBlock(c, g, key);
      }
      OnceFilling(s, t, s', g);
    } else {
      OnceFilled(s, t, key, s', g);
    }
  }

  // A sibling other than g goes into the content tier.
  lemma OnceFilling(s: State, t: nat, s': State, g: Key)
    requires OnceInv(s, g) && s'.latch == s.latch && s'.flights == s.flights && t in s.tasks && t in s'.tasks
    requires s.tasks[t].pc.Fill? && s'.tasks[t].pc.Fill? && s'.tasks == s.tasks[t := s'.tasks[t]]
    requires g in s'.tiers.content <==> g in s.tiers.content
    ensures OnceInv(s', g)
  {
    assert (AtLead(s', g) <==> AtLead(s, g)) && (PastLead(s', g) <==> PastLead(s, g));
    assert HasFetch(s', g) <==> HasFetch(s, g);
  }

  // The leader's own block goes in, and its lead ends.
  lemma OnceFilled(s: State, t: nat, key: Key, s': State, g: Key)
    requires FlightInv(s) && OnceInv(s, g) && s'.latch == s.latch && t in s.tasks && t in s'.tasks
    requires s.tasks[t].pc.Fill?
    requires s'.tasks == s.tasks[t := s'.tasks[t]] && s'.flights == s.flights - {(Content, key)}
    requires (Content, key) in s.flights && s.flights[(Content, key)] == t && s.tasks[t].key == key
    requires s'.tiers.content.Keys == s.tiers.content.Keys + {key}
    ensures OnceInv(s', g)
  {
    assert HasFetch(s', g) <==> HasFetch(s, g);
    if key != g && (Content, g) in s.flights {
      assert s.flights[(Content, g)] != t;
    }
  }

  lemma OnceQuiet(c: Config, s: State, a: Action, s': State, g: Key)
    requires Valid(c) && FlightInv(s) && OnceInv(s, g) && Next(c, s, a, s')
    requires a.Spawn? || a.LoadPhase? || a.Lookup? || a.DoPromote? || a.Hear?
    ensures OnceInv(s', g)
  {
    OnceMove(s, a.t, s', g);
  }

  lemma OnceKept(c: Config, s: State, a: Action, s': State, g: Key)
    requires Alone(c, g) && Inv(c, s) && CalmInv(c, s) && OnceInv(s, g) && Next(c, s, a, s') && CalmStep(c, s, a)
    ensures OnceInv(s', g)
  {
    if a.JoinOrCreate? {
      assert PcOk(c, s.tasks[a.t].key, s.tasks[a.t].pc);
      OnceJoin(c, s, a.t, a.f, s', g);
    } else if a.GetOrFetch? {
      OnceGetOrFetch(s, a.t, s', g);
    } else if a.Receive? {
      OnceReceive(c, s, a.t, s', g);
    } else if a.FillStep? {
      OnceFill(c, s, a.t, s', g);
    } else if a.Acquire? || a.StartRead? || a.EndRead? || a.Retire? || a.Flip? {
      OnceFetch(c, s, a, s', g);
    } else {
      OnceQuiet(c, s, a, s', g);
    }
  }

  lemma CalmStepAt(c: Config, states: seq<State>, acts: seq<Action>, i: nat)
    requires Valid(c) && CalmRun(c, states, acts) && i < |acts| && CoherenceInv(c, states[i]) && CalmInv(c, states[i])
    ensures CalmInv(c, states[i + 1])
  {
    assert StepAt(c, states, acts, i);
    CalmKept(c, states[i], acts[i], states[i + 1]);
  }

  lemma {:induction false} RunCoherent(c: Config, states: seq<State>, acts: seq<Action>, i: nat)
    requires Valid(c) && CalmRun(c, states, acts) && i < |states|
    ensures CoherenceInv(c, states[i])
  {
    RunInv(c, states, acts, i);
  }

  lemma {:induction false} CalmRunInv(c: Config, states: seq<State>, acts: seq<Action>, i: nat)
    requires Valid(c) && CalmRun(c, states, acts) && i < |states|
    ensures CalmInv(c, states[i])
    decreases i
  {
    if i > 0 {
      CalmRunInv(c, states, acts, i - 1);
      RunCoherent(c, states, acts, i - 1);
      CalmStepAt(c, states, acts, i - 1);
    }
  }

  lemma OnceStepAt(c: Config, states: seq<State>, acts: seq<Action>, i: nat, g: Key)
    requires Alone(c, g) && CalmRun(c, states, acts) && i < |acts| && OnceInv(states[i], g)
    ensures OnceInv(states[i + 1], g)
  {
    RunInv(c, states, acts, i);
    CalmRunInv(c, states, acts, i);
    assert StepAt(c, states, acts, i);
    OnceKept(c, states[i], acts[i], states[i + 1], g);
  }

  /** In a single tier, a group with one block in the source is read once, whatever is interleaved. */
  lemma {:induction false} AloneReadOnce(c: Config, states: seq<State>, acts: seq<Action>, i: nat, g: Key)
    requires Alone(c, g) && CalmRun(c, states, acts) && i < |states|
    ensures OnceInv(states[i], g)
    decreases i
  {
    if i > 0 {
      AloneReadOnce(c, states, acts, i - 1, g);
      OnceStepAt(c, states, acts, i - 1, g);
    }
  }

  // Some run with no eviction and no failure fetches the group twice.
  ghost predicate CanFetchTwice(c: Config, g: Key)
    requires Valid(c)
  {
    exists s :: CalmlyReached(c, s) && !OneFetch(s, g)
  }

  lemma TwoBlocks(c: Config, g: Key)
    requires Valid(c) && InRange(c, g) && GroupOf(c, g) == g && !OneBlock(c, g)
    ensures var k := Key(g.idx, g.off + c.chlen);
            InRange(c, k) && OnGrid(c, g) && OnGrid(c, k) && GroupOf(c, k) == g && k != g
  {
    var q := g.off / Group(c);
    MulMonotone(2, c.perGroup, c.chlen);
    MulDiv(q, c.chlen, Group(c));
    OnGridAligned(c, g, q);
  }

  lemma OnGridAligned(c: Config, g: Key, q: nat)
    requires Valid(c) && g.off == q * Group(c)
    ensures OnGrid(c, g) && OnGrid(c, Key(g.idx, g.off + c.chlen))
  {
    assert g.off == (q * c.perGroup) * c.chlen;
    MulDiv(q * c.perGroup, 0, c.chlen);
    assert g.off + c.chlen == (q * c.perGroup + 1) * c.chlen;
    MulDiv(q * c.perGroup + 1, 0, c.chlen);
  }

  /** A group can be fetched twice exactly when the cache has two tiers or the group has two blocks in the source. */
  lemma FetchedTwiceExactly(c: Config, g: Key)
    requires Valid(c) && InRange(c, g) && GroupOf(c, g) == g
    ensures CanFetchTwice(c, g) <==> c.dual || !OneBlock(c, g)
  {
    if c.dual || !OneBlock(c, g) {
      OnGridAligned(c, g, g.off / Group(c));
      var k := g;
      if !OneBlock(c, g) {
        TwoBlocks(c, g);
        k := Key(g.idx, g.off + c.chlen);
      }
      var s := GroupReadTwice(c, g, k);
      assert 0 in s.latch.fetches && 1 in s.latch.fetches;
      assert !OneFetch(s, g);
    } else if CanFetchTwice(c, g) {
      var s :| CalmlyReached(c, s) && !OneFetch(s, g);
      var states, acts :| CalmRun(c, states, acts) && states[|acts|] == s;
      AloneReadOnce(c, states, acts, |acts|, g);
    }
  }
}
