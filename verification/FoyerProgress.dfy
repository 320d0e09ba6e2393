/**
 Every call finishes: each step of a call or a fetch uses up some of a finite
 amount of work, which only new calls add to.
 */
module FoyerProgress {
  import opened Basics
  import opened FoyerBlocks
  import opened FoyerMachine
  import opened FoyerRuns

  // ---- Sums over finite maps ----

  ghost function SumOver(keys: set<nat>, m: map<nat, nat>): nat
    requires keys <= m.Keys
  {
    if keys == {} then 0
    else
      var k :| k in keys;
      m[k] + SumOver(keys - {k}, m)
  }

  lemma {:induction false} SumSplit(keys: set<nat>, m: map<nat, nat>, x: nat)
    requires keys <= m.Keys && x in keys
    ensures SumOver(keys, m) == m[x] + SumOver(keys - {x}, m)
    decreases |keys|
  {
    var k :| k in keys && SumOver(keys, m) == m[k] + SumOver(keys - {k}, m);
    if k != x {
      SumSplit(keys - {k}, m, x);
      SumSplit(keys - {x}, m, k);
      assert keys - {k} - {x} == keys - {x} - {k};
    }
  }

  lemma {:induction false} SumSame(keys: set<nat>, m: map<nat, nat>, m': map<nat, nat>)
    requires keys <= m.Keys && keys <= m'.Keys && forall k :: k in keys ==> m[k] == m'[k]
    ensures SumOver(keys, m) == SumOver(keys, m')
    decreases |keys|
  {
    if keys != {} {
      var k :| k in keys;
      SumSplit(keys, m, k);
      SumSplit(keys, m', k);
      SumSame(keys - {k}, m, m');
    }
  }

  ghost function Sum(m: map<nat, nat>): nat {
    SumOver(m.Keys, m)
  }

  // Changing or adding one entry.
  lemma SumSet(m: map<nat, nat>, x: nat, v: nat)
    ensures Sum(m[x := v]) == Sum(m) + v - if x in m then m[x] else 0
  {
    var m' := m[x := v];
    SumSplit(m'.Keys, m', x);
    SumSame(m.Keys - {x}, m, m');
    assert m'.Keys - {x} == m.Keys - {x};
    if x in m {
      SumSplit(m.Keys, m, x);
    } else {
      assert m.Keys - {x} == m.Keys;
    }
  }

  // ---- Work ----

  // How many steps a call can still take, its fetch included.
  function CallWork(c: Config, pc: Pc): nat {
    match pc
    case Begin => c.perGroup + 11
    case Look(_, tier) => c.perGroup + if tier.Meta? then 10 else 9
    case Promote(_) => 1
    case Enter(_) => c.perGroup + 8
    case Lead(_) => c.perGroup + 7
    case Await(_, _, _) => c.perGroup + 2
    case Fill(_, _, _, j, _) => Max(c.perGroup - j, 0) + 1
    case Follow(_, _) => 1
    case Done(_) => 0
  }

  function FetchWork(st: FetchState, permit: bool): nat {
    match st
    case Queued => if permit then 3 else 4
    case Reading => 2
    case Read(_) => 1
    case Finished(_) => 0
  }

  function CallsWork(c: Config, tasks: map<nat, Task>): map<nat, nat> {
    map t | t in tasks :: CallWork(c, tasks[t].pc)
  }

  function FetchesWork(l: Latch, sem: Semaphore): map<nat, nat> {
    map f | f in l.fetches :: FetchWork(l.fetches[f].st, OfFetch(f) in sem.held)
  }

  ghost function Work(c: Config, s: State): nat {
    Sum(CallsWork(c, s.tasks)) + Sum(FetchesWork(s.latch, s.sem))
  }

  // Steps of calls and fetches, as opposed to new calls and the surroundings.
  predicate Working(a: Action) {
    !a.Spawn? && !a.Evict? && !a.Flip?
  }

  lemma CallMoves(c: Config, s: State, t: nat, s': State)
    requires TaskMove(s, t, s') && CallWork(c, s'.tasks[t].pc) < CallWork(c, s.tasks[t].pc)
    ensures Work(c, s') < Work(c, s)
  {
    CallSum(c, s, t, s');
    assert FetchesWork(s'.latch, s'.sem) == FetchesWork(s.latch, s.sem);
  }

  lemma CallStepWorks(c: Config, s: State, a: Action, s': State)
    requires Valid(c) && Next(c, s, a, s')
    requires OfCall(a)
    ensures a.t in s.tasks && a.t in s'.tasks && CallWork(c, s'.tasks[a.t].pc) < CallWork(c, s.tasks[a.t].pc)
  {
    if a.FillStep? {
      var Task(key, Fill(_, bytes, _, j, _)) := s.tasks[a.t];
      if Whole(c, GroupOf(c, key), bytes, j) {
        BlockGeometry(c, GroupOf(c, key), j);
      }
    }
  }

  // Apart from fetch f, every fetch is as it was.
  ghost predicate OnlyFetch(s: State, f: nat, s': State) {
    && f in s'.latch.fetches && s'.latch.fetches == s.latch.fetches[f := s'.latch.fetches[f]]
    && forall f' :: f' != f ==> (OfFetch(f') in s'.sem.held <==> OfFetch(f') in s.sem.held)
  }

  ghost function WorkOn(s: State, f: nat): nat {
    if f in s.latch.fetches then FetchWork(s.latch.fetches[f].st, OfFetch(f) in s.sem.held) else 0
  }

  lemma FetchSum(s: State, f: nat, s': State)
    requires OnlyFetch(s, f, s')
    ensures Sum(FetchesWork(s'.latch, s'.sem)) == Sum(FetchesWork(s.latch, s.sem)) + WorkOn(s', f) - WorkOn(s, f)
  {
    var w, w' := FetchesWork(s.latch, s.sem), FetchesWork(s'.latch, s'.sem);
    SumSet(w, f, w'[f]);
    assert w' == w[f := w'[f]];
  }

  lemma FetchStepWorks(c: Config, s: State, a: Action, s': State)
    requires Valid(c) && Next(c, s, a, s') && (a.Acquire? || a.StartRead? || a.EndRead? || a.Retire?)
    ensures s'.tasks == s.tasks && OnlyFetch(s, a.f, s') && WorkOn(s', a.f) < WorkOn(s, a.f)
  {
    match a
    case Acquire(f) => assert s'.latch.fetches == s.latch.fetches[f := s'.latch.fetches[f]];
    case StartRead(_) =>
    case EndRead(_, _) =>
    case Retire(_) =>
  }

  lemma FetchMoves(c: Config, s: State, a: Action, s': State)
    requires Valid(c) && Next(c, s, a, s') && (a.Acquire? || a.StartRead? || a.EndRead? || a.Retire?)
    ensures Work(c, s') < Work(c, s)
  {
    FetchStepWorks(c, s, a, s');
    FetchSum(s, a.f, s');
  }

  lemma CallSum(c: Config, s: State, t: nat, s': State)
    requires t in s.tasks && t in s'.tasks && s'.tasks == s.tasks[t := s'.tasks[t]]
    ensures Sum(CallsWork(c, s'.tasks)) ==
            Sum(CallsWork(c, s.tasks)) + CallWork(c, s'.tasks[t].pc) - CallWork(c, s.tasks[t].pc)
  {
    SumSet(CallsWork(c, s.tasks), t, CallWork(c, s'.tasks[t].pc));
    assert CallsWork(c, s'.tasks) == CallsWork(c, s.tasks)[t := CallWork(c, s'.tasks[t].pc)];
  }

  lemma JoinMoves(c: Config, s: State, t: nat, f: nat, s': State)
    requires Valid(c) && JoinOrCreateStep(c, s, t, f, s')
    ensures Work(c, s') < Work(c, s)
  {
    CallSum(c, s, t, s');
    if f in s'.latch.fetches {
      FetchSum(s, f, s');
    } else {
      assert FetchesWork(s'.latch, s'.sem) == FetchesWork(s.latch, s.sem);
    }
  }

  lemma CallStep(c: Config, s: State, a: Action, s': State)
    requires Valid(c) && Next(c, s, a, s')
    requires OfCall(a)
    ensures Work(c, s') < Work(c, s)
  {
    Moves(c, s, a, s');
    CallStepWorks(c, s, a, s');
    CallMoves(c, s, a.t, s');
  }

  lemma StepWorks(c: Config, s: State, a: Action, s': State)
    requires Valid(c) && Next(c, s, a, s')
    ensures Working(a) ==> Work(c, s') < Work(c, s)
    ensures a.Evict? || a.Flip? ==> Work(c, s') == Work(c, s)
  {
    if a.JoinOrCreate? {
      JoinMoves(c, s, a.t, a.f, s');
    } else if a.Acquire? || a.StartRead? || a.EndRead? || a.Retire? {
      FetchMoves(c, s, a, s');
    } else if Working(a) {
      CallStep(c, s, a, s');
    }
  }

  // How many of the actions are steps of calls and fetches.
  function WorkingSteps(acts: seq<Action>): nat {
    if acts == [] then 0 else WorkingSteps(acts[..|acts| - 1]) + if Working(acts[|acts| - 1]) then 1 else 0
  }

  lemma {:induction false} WorkingSnoc(acts: seq<Action>, i: nat, j: nat)
    requires i < j <= |acts|
    ensures WorkingSteps(acts[i..j]) == WorkingSteps(acts[i..j - 1]) + if Working(acts[j - 1]) then 1 else 0
  {
    assert acts[i..j][..j - i - 1] == acts[i..j - 1];
  }

  lemma RunStepWorks(c: Config, states: seq<State>, acts: seq<Action>, j: nat)
    requires Valid(c) && IsRun(c, states, acts) && j < |acts| && !acts[j].Spawn?
    ensures (if Working(acts[j]) then 1 else 0) + Work(c, states[j + 1]) <= Work(c, states[j])
  {
    assert StepAt(c, states, acts, j);
    StepWorks(c, states[j], acts[j], states[j + 1]);
  }

  /** From any point of any run on, until the next new call, there are no more steps than there is work. */
  lemma {:induction false} WorkRunsOut(c: Config, states: seq<State>, acts: seq<Action>, i: nat, j: nat)
    requires Valid(c) && IsRun(c, states, acts) && i <= j <= |acts|
    requires forall k :: i <= k < j ==> !acts[k].Spawn?
    ensures WorkingSteps(acts[i..j]) + Work(c, states[j]) <= Work(c, states[i])
    decreases j
  {
    if i < j {
      WorkRunsOut(c, states, acts, i, j - 1);
      RunStepWorks(c, states, acts, j - 1);
      WorkingSnoc(acts, i, j);
    }
  }

  /** And when no step is left to take, every call has returned. */
  lemma DoneWhenIdle(c: Config, states: seq<State>, acts: seq<Action>, i: nat, t: nat)
    requires Valid(c) && IsRun(c, states, acts) && i < |states| && t in states[i].tasks
    requires forall a, s' :: Working(a) ==> !Next(c, states[i], a, s')
    ensures states[i].tasks[t].pc.Done?
  {
    if !states[i].tasks[t].pc.Done? {
      RunNeverStuck(c, states, acts, i, t);
    }
  }
}
