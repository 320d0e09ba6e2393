/**
 The cache as a concurrent machine: any number of `route_block` calls, demand
 or prefetch, interleaved one atomic step at a time with group fetches, source
 failures, evictions and the phase flip.
 */
module FoyerMachine {
  import opened Basics
  import opened FoyerBlocks

  datatype Tier = Content | Meta

  // How a call was routed, settled by the phase it saw when it began.
  datatype Plan = Single | Regular | Metadata

  // The tier the demanded block goes to. Siblings always go to the content tier.
  function Sink(p: Plan): Tier {
    if p.Metadata? then Meta else Content
  }

  type Reply = Result<seq<byte>, ()>

  datatype Pc =
    | Begin
    | Look(plan: Plan, tier: Tier)
    | Promote(block: seq<byte>)
    | Enter(plan: Plan)
    | Follow(plan: Plan, leader: nat)
    | Lead(plan: Plan)
    | Await(plan: Plan, fetch: nat, owner: bool)
    | Fill(plan: Plan, bytes: seq<byte>, owner: bool, j: nat, demanded: Option<seq<byte>>)
    | Done(reply: Reply)

  datatype Task = Task(key: Key, pc: Pc)

  // Finished: retired from the latch and visible to those waiting on it.
  datatype FetchState = Queued | Reading | Read(got: Reply) | Finished(result: Reply)

  datatype Fetch = Fetch(group: Key, owner: nat, latched: bool, st: FetchState)

  // Who has a semaphore permit.
  datatype Holder = OfTask(t: nat) | OfFetch(f: nat)

  datatype Tiers = Tiers(content: map<Key, seq<byte>>, meta: map<Key, seq<byte>>)

  // The latch: the unretired fetch of each group, and every fetch ever started.
  datatype Latch = Latch(inflight: map<Key, nat>, fetches: map<nat, Fetch>)

  datatype Semaphore = Semaphore(free: nat, held: set<Holder>)

  // routed is history: the keys of calls that began in the metadata phase.
  datatype Phase = Phase(regular: bool, routed: set<Key>)

  datatype State = State(
    tiers: Tiers,
    flights: map<(Tier, Key), nat>,     // foyer's own single flight: the leading task per tier and key
    latch: Latch,
    tasks: map<nat, Task>,
    sem: Semaphore,
    phase: Phase)

  function Start(c: Config): State {
    State(Tiers(map[], map[]), map[], Latch(map[], map[]), map[], Semaphore(c.permits, {}), Phase(false, {}))
  }

  function Select(ts: Tiers, tier: Tier): map<Key, seq<byte>> {
    if tier.Content? then ts.content else ts.meta
  }

  function Put(ts: Tiers, tier: Tier, k: Key, b: seq<byte>): Tiers {
    if tier.Content? then ts.(content := ts.content[k := b]) else ts.(meta := ts.meta[k := b])
  }

  function Take(sem: Semaphore, h: Holder): Semaphore
    requires sem.free > 0
  {
    Semaphore(sem.free - 1, sem.held + {h})
  }

  // Dropping a permit gives it back; dropping none does nothing.
  function Drop(sem: Semaphore, h: Holder): Semaphore {
    if h in sem.held then Semaphore(sem.free + 1, sem.held - {h}) else sem
  }

  function HandOver(sem: Semaphore, from: Holder, to: Holder): Semaphore {
    if from in sem.held then Semaphore(sem.free, sem.held - {from} + {to}) else sem
  }

  function Goto(tasks: map<nat, Task>, t: nat, pc: Pc): map<nat, Task>
    requires t in tasks
  {
    tasks[t := tasks[t].(pc := pc)]
  }

  function SetFetch(l: Latch, f: nat, st: FetchState): Latch
    requires f in l.fetches
  {
    l.(fetches := l.fetches[f := l.fetches[f].(st := st)])
  }

  datatype Action =
    | Spawn(t: nat, key: Key, prefetch: bool)
    | LoadPhase(t: nat)
    | Lookup(t: nat)
    | LookupFails(t: nat)
    | DoPromote(t: nat)
    | GetOrFetch(t: nat)
    | JoinOrCreate(t: nat, f: nat)
    | Acquire(f: nat)
    | StartRead(f: nat)
    | EndRead(f: nat, got: Reply)
    | Retire(f: nat)
    | Receive(t: nat)
    | FillStep(t: nat)
    | Hear(t: nat)
    | Evict(tier: Tier, key: Key)
    | Flip

  // ---- Steps of a call ----

  ghost predicate SpawnStep(c: Config, s: State, t: nat, key: Key, prefetch: bool, s': State) {
    && t !in s.tasks && InRange(c, key) && c.chlen > 0 && OnGrid(c, key) && (prefetch ==> s.sem.free > 0)
    && s' == s.(tasks := s.tasks[t := Task(key, Begin)],
                sem := if prefetch then Take(s.sem, OfTask(t)) else s.sem)
  }

  ghost predicate LoadPhaseStep(c: Config, s: State, t: nat, s': State) {
    && t in s.tasks && s.tasks[t].pc.Begin?
    && var plan := if !c.dual then Single else if s.phase.regular then Regular else Metadata;
       s' == s.(tasks := Goto(s.tasks, t, Look(plan, if c.dual then Meta else Content)),
                phase := if plan.Metadata? then s.phase.(routed := s.phase.routed + {s.tasks[t].key}) else s.phase)
  }

  ghost predicate LookupStep(s: State, t: nat, s': State) {
    && t in s.tasks && s.tasks[t].pc.Look?
    && var Task(key, Look(plan, tier)) := s.tasks[t];
       if key !in Select(s.tiers, tier) then
         s' == s.(tasks := Goto(s.tasks, t, if tier.Meta? then Look(plan, Content) else Enter(plan)))
       else if plan.Metadata? && tier.Content? then
         s' == s.(tasks := Goto(s.tasks, t, Promote(s.tiers.content[key])))
       else
         s' == s.(tasks := Goto(s.tasks, t, Done(Ok(Select(s.tiers, tier)[key]))), sem := Drop(s.sem, OfTask(t)))
  }

  ghost predicate LookupFailsStep(s: State, t: nat, s': State) {
    && t in s.tasks && s.tasks[t].pc.Look?
    && s' == s.(tasks := Goto(s.tasks, t, Done(Err(()))), sem := Drop(s.sem, OfTask(t)))
  }

  ghost predicate PromoteStep(s: State, t: nat, s': State) {
    && t in s.tasks && s.tasks[t].pc.Promote?
    && var Task(key, Promote(b)) := s.tasks[t];
       s' == s.(tasks := Goto(s.tasks, t, Done(Ok(b))), tiers := Put(s.tiers, Meta, key, b),
                sem := Drop(s.sem, OfTask(t)))
  }

  ghost predicate GetOrFetchStep(s: State, t: nat, s': State) {
    && t in s.tasks && s.tasks[t].pc.Enter?
    && var Task(key, Enter(plan)) := s.tasks[t];
       var tier := Sink(plan);
       if key in Select(s.tiers, tier) then
         s' == s.(tasks := Goto(s.tasks, t, Done(Ok(Select(s.tiers, tier)[key]))), sem := Drop(s.sem, OfTask(t)))
       else if (tier, key) in s.flights then
         s' == s.(tasks := Goto(s.tasks, t, Follow(plan, s.flights[(tier, key)])), sem := Drop(s.sem, OfTask(t)))
       else
         s' == s.(tasks := Goto(s.tasks, t, Lead(plan)), flights := s.flights[(tier, key) := t])
  }

  ghost predicate JoinOrCreateStep(c: Config, s: State, t: nat, f: nat, s': State)
    requires Valid(c)
  {
    && t in s.tasks && s.tasks[t].pc.Lead? && f !in s.latch.fetches
    && var Task(key, Lead(plan)) := s.tasks[t];
       var g := GroupOf(c, key);
       var latched := c.perGroup > 1;
       if latched && g in s.latch.inflight then
         s' == s.(tasks := Goto(s.tasks, t, Await(plan, s.latch.inflight[g], false)), sem := Drop(s.sem, OfTask(t)))
       else
         s' == s.(tasks := Goto(s.tasks, t, Await(plan, f, true)),
                  latch := Latch(if latched then s.latch.inflight[g := f] else s.latch.inflight,
                                 s.latch.fetches[f := Fetch(g, t, latched, Queued)]),
                  sem := HandOver(s.sem, OfTask(t), OfFetch(f)))
  }

  ghost predicate ReceiveStep(s: State, t: nat, s': State) {
    && t in s.tasks && s.tasks[t].pc.Await?
    && var Task(key, Await(plan, f, owner)) := s.tasks[t];
       && f in s.latch.fetches && s.latch.fetches[f].st.Finished?
       && match s.latch.fetches[f].st.result
          case Err(_) => s' == s.(tasks := Goto(s.tasks, t, Done(Err(()))), flights := s.flights - {(Sink(plan), key)})
          case Ok(bytes) => s' == s.(tasks := Goto(s.tasks, t, Fill(plan, bytes, owner, 0, None)))
  }

  // Whether block j of the group came back whole.
  ghost predicate Whole(c: Config, g: Key, bytes: seq<byte>, j: nat)
    requires InRange(c, g)
  {
    BlockKey(c, g, j).off < GroupEnd(c, g) && j * c.chlen <= BlockEnd(c, g, j) <= |bytes|
  }

  ghost predicate FillStepStep(c: Config, s: State, t: nat, s': State)
    requires Valid(c)
  {
    && t in s.tasks && s.tasks[t].pc.Fill? && InRange(c, GroupOf(c, s.tasks[t].key))
    && var Task(key, Fill(plan, bytes, owner, j, demanded)) := s.tasks[t];
       var g := GroupOf(c, key);
       if Whole(c, g, bytes, j) then
         var k, b := BlockKey(c, g, j), bytes[j * c.chlen..BlockEnd(c, g, j)];
         s' == s.(tasks := Goto(s.tasks, t, Fill(plan, bytes, owner, j + 1, if k == key then Some(b) else demanded)),
                  tiers := if owner && k != key then Put(s.tiers, Content, k, b) else s.tiers)
       else match demanded
         case Some(b) =>
           s' == s.(tasks := Goto(s.tasks, t, Done(Ok(b))), tiers := Put(s.tiers, Sink(plan), key, b),
                    flights := s.flights - {(Sink(plan), key)})
         case None =>
           s' == s.(tasks := Goto(s.tasks, t, Done(Err(()))), flights := s.flights - {(Sink(plan), key)})
  }

  ghost predicate HearStep(s: State, t: nat, s': State) {
    && t in s.tasks && s.tasks[t].pc.Follow?
    && var leader := s.tasks[t].pc.leader;
       leader in s.tasks && s.tasks[leader].pc.Done? && s' == s.(tasks := Goto(s.tasks, t, s.tasks[leader].pc))
  }

  // ---- Steps of a fetch ----

  ghost predicate AcquireStep(s: State, f: nat, s': State) {
    && f in s.latch.fetches && s.latch.fetches[f].st.Queued? && OfFetch(f) !in s.sem.held && s.sem.free > 0
    && s' == s.(sem := Take(s.sem, OfFetch(f)))
  }

  ghost predicate StartReadStep(s: State, f: nat, s': State) {
    && f in s.latch.fetches && s.latch.fetches[f].st.Queued? && OfFetch(f) in s.sem.held
    && s' == s.(latch := SetFetch(s.latch, f, Reading))
  }

  // The source answers, fails or panics; the permit goes back.
  ghost predicate EndReadStep(c: Config, s: State, f: nat, got: Reply, s': State) {
    && f in s.latch.fetches && s.latch.fetches[f].st.Reading?
    && (got.Ok? ==> InRange(c, s.latch.fetches[f].group) && Agrees(c, s.latch.fetches[f].group, got.value))
    && s' == s.(latch := SetFetch(s.latch, f, Read(got)), sem := Drop(s.sem, OfFetch(f)))
  }

  ghost predicate RetireStep(s: State, f: nat, s': State) {
    && f in s.latch.fetches && s.latch.fetches[f].st.Read?
    && var fe := s.latch.fetches[f];
       var l := SetFetch(s.latch, f, Finished(fe.st.got));
       s' == s.(latch := if fe.latched then l.(inflight := l.inflight - {fe.group}) else l)
  }

  // ---- Steps of the surroundings ----

  ghost predicate EvictStep(s: State, tier: Tier, key: Key, s': State) {
    s' == s.(tiers := if tier.Content? then s.tiers.(content := s.tiers.content - {key})
                      else s.tiers.(meta := s.tiers.meta - {key}))
  }

  ghost predicate FlipStep(s: State, s': State) {
    s' == s.(phase := s.phase.(regular := true))
  }

  ghost predicate Next(c: Config, s: State, a: Action, s': State)
    requires Valid(c)
  {
    match a
    case Spawn(t, key, prefetch) => SpawnStep(c, s, t, key, prefetch, s')
    case LoadPhase(t) => LoadPhaseStep(c, s, t, s')
    case Lookup(t) => LookupStep(s, t, s')
    case LookupFails(t) => LookupFailsStep(s, t, s')
    case DoPromote(t) => PromoteStep(s, t, s')
    case GetOrFetch(t) => GetOrFetchStep(s, t, s')
    case JoinOrCreate(t, f) => JoinOrCreateStep(c, s, t, f, s')
    case Acquire(f) => AcquireStep(s, f, s')
    case StartRead(f) => StartReadStep(s, f, s')
    case EndRead(f, got) => EndReadStep(c, s, f, got, s')
    case Retire(f) => RetireStep(s, f, s')
    case Receive(t) => ReceiveStep(s, t, s')
    case FillStep(t) => FillStepStep(c, s, t, s')
    case Hear(t) => HearStep(s, t, s')
    case Evict(tier, key) => EvictStep(s, tier, key, s')
    case Flip => FlipStep(s, s')
  }

  // ---- Permits ----

  predicate MayHold(pc: Pc) {
    pc.Begin? || pc.Look? || pc.Promote? || pc.Enter? || pc.Lead?
  }

  // Permits are conserved; a source read has one, and nobody who merely waits does.
  ghost predicate PermitInv(c: Config, s: State) {
    && s.sem.free + |s.sem.held| == c.permits
    && (forall t :: OfTask(t) in s.sem.held ==> t in s.tasks && MayHold(s.tasks[t].pc))
    && (forall f :: OfFetch(f) in s.sem.held ==>
          f in s.latch.fetches && (s.latch.fetches[f].st.Queued? || s.latch.fetches[f].st.Reading?))
    && (forall f :: f in s.latch.fetches && s.latch.fetches[f].st.Reading? ==> OfFetch(f) in s.sem.held)
  }

  // A call moved on: the latch is as it was, and either it dropped its permit or nothing was dropped.
  ghost predicate TaskMove(s: State, t: nat, s': State) {
    && t in s.tasks && t in s'.tasks
    && s'.tasks == s.tasks[t := s'.tasks[t]] && s'.tasks[t].key == s.tasks[t].key
    && s'.latch == s.latch
    && (s'.sem == Drop(s.sem, OfTask(t)) || (s'.sem == s.sem && (MayHold(s.tasks[t].pc) ==> MayHold(s'.tasks[t].pc))))
  }

  // Steps of a call by itself, without the latch.
  predicate OfCall(a: Action) {
    || a.LoadPhase? || a.Lookup? || a.LookupFails? || a.DoPromote?
    || a.GetOrFetch? || a.Receive? || a.FillStep? || a.Hear?
  }

  // The actions after which only one call, its tier and its flight can differ.
  lemma Moves(c: Config, s: State, a: Action, s': State)
    requires Valid(c) && Next(c, s, a, s')
    ensures OfCall(a) ==> TaskMove(s, a.t, s')
    ensures a.Evict? || a.Flip? ==>
              s'.tasks == s.tasks && s'.latch == s.latch && s'.sem == s.sem && s'.flights == s.flights
  {
  }

  lemma PermitMove(c: Config, s: State, t: nat, s': State)
    requires PermitInv(c, s) && TaskMove(s, t, s')
    ensures PermitInv(c, s')
  {
  }

  lemma PermitSpawn(c: Config, s: State, t: nat, key: Key, prefetch: bool, s': State)
    requires PermitInv(c, s) && SpawnStep(c, s, t, key, prefetch, s')
    ensures PermitInv(c, s')
  {
    assert OfTask(t) !in s.sem.held;
  }

  lemma PermitJoin(c: Config, s: State, t: nat, f: nat, s': State)
    requires Valid(c) && PermitInv(c, s) && JoinOrCreateStep(c, s, t, f, s')
    ensures PermitInv(c, s')
  {
    assert OfFetch(f) !in s.sem.held;
    Conserved(s.sem, OfTask(t), OfFetch(f));
    var key := s.tasks[t].key;
    if c.perGroup > 1 && GroupOf(c, key) in s.latch.inflight {
      assert s'.latch == s.latch && s'.sem == Drop(s.sem, OfTask(t));
    } else {
      assert s'.sem == HandOver(s.sem, OfTask(t), OfFetch(f));
      assert s'.latch.fetches == s.latch.fetches[f := s'.latch.fetches[f]];
    }
  }

  // Giving a permit back or handing it over neither makes nor loses one.
  lemma Conserved(sem: Semaphore, from: Holder, to: Holder)
    requires to !in sem.held
    ensures Drop(sem, from).free + |Drop(sem, from).held| == sem.free + |sem.held|
    ensures HandOver(sem, from, to).free + |HandOver(sem, from, to).held| == sem.free + |sem.held|
  {
    if from in sem.held {
      assert to !in sem.held - {from};
    }
  }

  lemma PermitAcquire(c: Config, s: State, f: nat, s': State)
    requires PermitInv(c, s) && AcquireStep(s, f, s')
    ensures PermitInv(c, s')
  {
  }

  lemma PermitStart(c: Config, s: State, f: nat, s': State)
    requires PermitInv(c, s) && StartReadStep(s, f, s')
    ensures PermitInv(c, s')
  {
  }

  lemma PermitEnd(c: Config, s: State, f: nat, got: Reply, s': State)
    requires PermitInv(c, s) && EndReadStep(c, s, f, got, s')
    ensures PermitInv(c, s')
  {
  }

  lemma PermitRetire(c: Config, s: State, f: nat, s': State)
    requires PermitInv(c, s) && RetireStep(s, f, s')
    ensures PermitInv(c, s')
  {
    assert OfFetch(f) !in s.sem.held;
  }

  /** Free permits plus held permits never change, whatever is interleaved. */
  lemma PermitKept(c: Config, s: State, a: Action, s': State)
    requires Valid(c) && Next(c, s, a, s') && PermitInv(c, s)
    ensures PermitInv(c, s')
  {
    match a
    case Spawn(t, key, prefetch) => PermitSpawn(c, s, t, key, prefetch, s');
    case JoinOrCreate(t, f) => PermitJoin(c, s, t, f, s');
    case Acquire(f) => PermitAcquire(c, s, f, s');
    case StartRead(f) => PermitStart(c, s, f, s');
    case EndRead(f, got) => PermitEnd(c, s, f, got, s');
    case Retire(f) => PermitRetire(c, s, f, s');
    case Evict(_, _) =>
    case Flip =>
    case _ =>
      Moves(c, s, a, s');
      PermitMove(c, s, a.t, s');
  }

  // ---- The group latch ----

  // The latch knows exactly the fetches that have not been retired.
  ghost predicate LatchInv(l: Latch) {
    && (forall g :: g in l.inflight ==>
          && l.inflight[g] in l.fetches
          && l.fetches[l.inflight[g]].latched && l.fetches[l.inflight[g]].group == g
          && !l.fetches[l.inflight[g]].st.Finished?)
    && (forall f :: f in l.fetches && l.fetches[f].latched && !l.fetches[f].st.Finished? ==>
          l.fetches[f].group in l.inflight && l.inflight[l.fetches[f].group] == f)
  }

  lemma LatchJoin(c: Config, s: State, t: nat, f: nat, s': State)
    requires Valid(c) && LatchInv(s.latch) && JoinOrCreateStep(c, s, t, f, s')
    ensures LatchInv(s'.latch)
  {
  }

  // A fetch goes on without finishing.
  lemma LatchSet(l: Latch, f: nat, st: FetchState)
    requires LatchInv(l) && f in l.fetches && !l.fetches[f].st.Finished? && !st.Finished?
    ensures LatchInv(SetFetch(l, f, st))
  {
  }

  lemma LatchRetire(s: State, f: nat, s': State)
    requires LatchInv(s.latch) && RetireStep(s, f, s')
    ensures LatchInv(s'.latch)
  {
  }

  lemma LatchKept(c: Config, s: State, a: Action, s': State)
    requires Valid(c) && Next(c, s, a, s') && LatchInv(s.latch)
    ensures LatchInv(s'.latch)
  {
    match a
    case JoinOrCreate(t, f) => LatchJoin(c, s, t, f, s');
    case StartRead(f) => LatchSet(s.latch, f, Reading);
    case EndRead(f, got) => LatchSet(s.latch, f, Read(got));
    case Retire(f) => LatchRetire(s, f, s');
    case Spawn(_, _, _) =>
    case Acquire(_) =>
    case _ => Moves(c, s, a, s');
  }

  // Every fetch in progress has one owner, the call that created it and waits on it.
  ghost predicate OwnerInv(s: State) {
    && (forall t :: t in s.tasks && s.tasks[t].pc.Await? ==> s.tasks[t].pc.fetch in s.latch.fetches)
    && (forall t :: t in s.tasks && s.tasks[t].pc.Await? && s.tasks[t].pc.owner ==>
          s.latch.fetches[s.tasks[t].pc.fetch].owner == t)
    && (forall f :: f in s.latch.fetches && !s.latch.fetches[f].st.Finished? ==>
          s.latch.fetches[f].owner in s.tasks && Owning(s.tasks[s.latch.fetches[f].owner].pc, f))
  }

  predicate Owning(pc: Pc, f: nat) {
    pc.Await? && pc.fetch == f && pc.owner
  }

  lemma OwnerMove(s: State, t: nat, s': State)
    requires OwnerInv(s) && TaskMove(s, t, s') && !s'.tasks[t].pc.Await?
    requires s.tasks[t].pc.Await? ==>
               s.tasks[t].pc.fetch in s.latch.fetches && s.latch.fetches[s.tasks[t].pc.fetch].st.Finished?
    ensures OwnerInv(s')
  {
  }

  lemma OwnerSpawn(c: Config, s: State, t: nat, key: Key, prefetch: bool, s': State)
    requires OwnerInv(s) && SpawnStep(c, s, t, key, prefetch, s')
    ensures OwnerInv(s')
  {
  }

  lemma OwnerJoin(c: Config, s: State, t: nat, f: nat, s': State)
    requires Valid(c) && OwnerInv(s) && LatchInv(s.latch) && JoinOrCreateStep(c, s, t, f, s')
    ensures OwnerInv(s')
  {
  }

  // A fetch goes on, and does not come back once finished.
  lemma OwnerSet(s: State, f: nat, st: FetchState, s': State)
    requires OwnerInv(s) && s'.tasks == s.tasks && f in s.latch.fetches
    requires (s.latch.fetches[f].st.Finished? ==> st.Finished?)
    requires s'.latch.fetches == s.latch.fetches[f := s.latch.fetches[f].(st := st)]
    ensures OwnerInv(s')
  {
  }

  lemma OwnerKept(c: Config, s: State, a: Action, s': State)
    requires Valid(c) && Next(c, s, a, s') && OwnerInv(s) && LatchInv(s.latch)
    ensures OwnerInv(s')
  {
    match a
    case Spawn(t, key, prefetch) => OwnerSpawn(c, s, t, key, prefetch, s');
    case JoinOrCreate(t, f) => OwnerJoin(c, s, t, f, s');
    case Acquire(_) =>
    case StartRead(f) => OwnerSet(s, f, Reading, s');
    case EndRead(f, got) => OwnerSet(s, f, Read(got), s');
    case Retire(f) => OwnerSet(s, f, Finished(s.latch.fetches[f].st.got), s');
    case Evict(_, _) =>
    case Flip =>
    case _ => OwnerCall(c, s, a, s');
  }

  lemma OwnerCall(c: Config, s: State, a: Action, s': State)
    requires Valid(c) && Next(c, s, a, s') && OwnerInv(s)
    requires OfCall(a)
    ensures OwnerInv(s')
  {
    Moves(c, s, a, s');
    NoAwait(c, s, a, s');
    OwnerMove(s, a.t, s');
  }

  // Such a call waits for no fetch afterwards, and before only for a finished one.
  lemma NoAwait(c: Config, s: State, a: Action, s': State)
    requires Valid(c) && Next(c, s, a, s')
    requires OfCall(a)
    ensures a.t in s.tasks && a.t in s'.tasks && !s'.tasks[a.t].pc.Await?
    ensures s.tasks[a.t].pc.Await? ==>
              && s.tasks[a.t].pc.fetch in s.latch.fetches
              && s.latch.fetches[s.tasks[a.t].pc.fetch].st.Finished?
  {
  }

  // ---- foyer's single flight ----

  predicate Leading(pc: Pc) {
    pc.Lead? || pc.Await? || pc.Fill?
  }

  // Per tier and key at most one call leads, and those that follow it wait for the same block.
  ghost predicate FlightInv(s: State) {
    && (forall tk :: tk in s.flights ==>
          && s.flights[tk] in s.tasks && Leading(s.tasks[s.flights[tk]].pc)
          && tk == (Sink(s.tasks[s.flights[tk]].pc.plan), s.tasks[s.flights[tk]].key))
    && (forall t :: t in s.tasks && Leading(s.tasks[t].pc) ==>
          (Sink(s.tasks[t].pc.plan), s.tasks[t].key) in s.flights
          && s.flights[(Sink(s.tasks[t].pc.plan), s.tasks[t].key)] == t)
    && (forall t :: t in s.tasks && s.tasks[t].pc.Follow? ==> Followed(s, s.tasks[t].pc.leader, s.tasks[t].key))
  }

  ghost predicate Followed(s: State, leader: nat, key: Key) {
    leader in s.tasks && s.tasks[leader].key == key && (Leading(s.tasks[leader].pc) || s.tasks[leader].pc.Done?)
  }

  // A call whose lead, if it had one, is kept or given up.
  ghost predicate FlightMove(s: State, t: nat, s': State) {
    && TaskMove(s, t, s')
    && var old', new' := s.tasks[t], s'.tasks[t];
       if Leading(new'.pc) then
         && (Leading(old'.pc) ==> Sink(new'.pc.plan) == Sink(old'.pc.plan) && s'.flights == s.flights)
         && (!Leading(old'.pc) ==>
               && !old'.pc.Done?
               && (Sink(new'.pc.plan), old'.key) !in s.flights
               && s'.flights == s.flights[(Sink(new'.pc.plan), old'.key) := t])
       else if Leading(old'.pc) then new'.pc.Done? && s'.flights == s.flights - {(Sink(old'.pc.plan), old'.key)}
       else
         && s'.flights == s.flights && (old'.pc.Done? ==> new'.pc.Done?)
         && (new'.pc.Follow? ==> Followed(s, new'.pc.leader, old'.key))
  }

  lemma FlightMoved(s: State, t: nat, s': State)
    requires FlightInv(s) && FlightMove(s, t, s')
    ensures FlightInv(s')
  {
  }

  lemma FlightJoin(c: Config, s: State, t: nat, f: nat, s': State)
    requires Valid(c) && FlightInv(s) && JoinOrCreateStep(c, s, t, f, s')
    ensures FlightInv(s')
  {
  }

  lemma FlightSpawn(c: Config, s: State, t: nat, key: Key, prefetch: bool, s': State)
    requires FlightInv(s) && SpawnStep(c, s, t, key, prefetch, s')
    ensures FlightInv(s')
  {
  }

  lemma FlightSame(c: Config, s: State, a: Action, s': State)
    requires Valid(c) && Next(c, s, a, s') && FlightInv(s)
    requires a.Acquire? || a.StartRead? || a.EndRead? || a.Retire? || a.Evict? || a.Flip?
    ensures FlightInv(s')
  {
    assert s'.tasks == s.tasks && s'.flights == s.flights;
  }

  // Calls that do not lead, before or after.
  lemma QuietFlights(s: State, t: nat, s': State)
    requires TaskMove(s, t, s') && s'.flights == s.flights && !Leading(s.tasks[t].pc) && !Leading(s'.tasks[t].pc)
    requires !s'.tasks[t].pc.Follow? && (s.tasks[t].pc.Done? ==> s'.tasks[t].pc.Done?)
    ensures FlightMove(s, t, s')
  {
  }

  lemma BeginFlights(c: Config, s: State, a: Action, s': State)
    requires Valid(c) && Next(c, s, a, s') && (a.LoadPhase? || a.Lookup? || a.LookupFails? || a.DoPromote? || a.Hear?)
    requires FlightInv(s)
    ensures FlightMove(s, a.t, s')
  {
    Moves(c, s, a, s');
    BeginQuiet(c, s, a, s');
    QuietFlights(s, a.t, s');
  }

  lemma BeginQuiet(c: Config, s: State, a: Action, s': State)
    requires Valid(c) && Next(c, s, a, s') && (a.LoadPhase? || a.Lookup? || a.LookupFails? || a.DoPromote? || a.Hear?)
    ensures a.t in s.tasks && a.t in s'.tasks && s'.flights == s.flights && !Leading(s.tasks[a.t].pc)
    ensures !s.tasks[a.t].pc.Done?
    ensures !Leading(s'.tasks[a.t].pc) && !s'.tasks[a.t].pc.Follow?
  {
  }

  lemma GetOrFetchFlights(s: State, t: nat, s': State)
    requires FlightInv(s) && TaskMove(s, t, s') && GetOrFetchStep(s, t, s')
    ensures FlightMove(s, t, s')
  {
  }

  lemma ReceiveFlights(s: State, t: nat, s': State)
    requires TaskMove(s, t, s') && ReceiveStep(s, t, s')
    ensures FlightMove(s, t, s')
  {
  }

  lemma FillFlights(c: Config, s: State, t: nat, s': State)
    requires Valid(c) && TaskMove(s, t, s') && FillStepStep(c, s, t, s')
    ensures FlightMove(s, t, s')
  {
  }

  lemma MovesFlights(c: Config, s: State, a: Action, s': State)
    requires Valid(c) && Next(c, s, a, s') && FlightInv(s)
    requires OfCall(a)
    ensures FlightMove(s, a.t, s')
  {
    Moves(c, s, a, s');
    match a
    case GetOrFetch(t) => GetOrFetchFlights(s, t, s');
    case Receive(t) => ReceiveFlights(s, t, s');
    case FillStep(t) => FillFlights(c, s, t, s');
    case _ => BeginFlights(c, s, a, s');
  }

  lemma FlightKept(c: Config, s: State, a: Action, s': State)
    requires Valid(c) && Next(c, s, a, s') && FlightInv(s)
    ensures FlightInv(s')
  {
    match a
    case Spawn(t, key, prefetch) => FlightSpawn(c, s, t, key, prefetch, s');
    case JoinOrCreate(t, f) => FlightJoin(c, s, t, f, s');
    case Acquire(f) => FlightSame(c, s, a, s');
    case StartRead(f) => FlightSame(c, s, a, s');
    case EndRead(f, got) => FlightSame(c, s, a, s');
    case Retire(f) => FlightSame(c, s, a, s');
    case Evict(_, _) => FlightSame(c, s, a, s');
    case Flip => FlightSame(c, s, a, s');
    case _ => FlightCall(c, s, a, s');
  }

  lemma FlightCall(c: Config, s: State, a: Action, s': State)
    requires Valid(c) && Next(c, s, a, s') && FlightInv(s)
    requires OfCall(a)
    ensures FlightInv(s')
  {
    MovesFlights(c, s, a, s');
    FlightMoved(s, a.t, s');
  }
}
