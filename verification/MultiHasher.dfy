/**
 `MultiHasher` (e01/src/hasher.rs): one caller hands buffers to N hashing
 threads over channels that hold one message, and takes back the buffer of the
 call before.

 Buffer 0 is the one the channels were primed with; buffer k is the one passed
 to the k-th call of `update`.
 */
module MultiHasher {
  import opened Basics

  datatype Update = Update(data: seq<byte>, len: nat)

  datatype Msg = Msg(len: nat, buf: nat)

  // A worker thread between two of its actions.
  datatype Work = Idle | Hashing(m: Msg) | Returning(buf: nat) | Exited

  // A worker with its two channels and what its digest has taken in.
  datatype Worker = Worker(full: Option<Msg>, work: Work, empty: Option<nat>, hashed: seq<byte>)

  // acc is the reference kept from the last receive.
  datatype Caller = Ready | Sending(i: nat) | Receiving(i: nat, acc: Option<nat>) | Joining(i: nat)

  datatype State = State(workers: seq<Worker>, caller: Caller, updates: seq<Update>)

  ghost predicate Init(s: State) {
    && |s.workers| > 0 && s.caller.Ready? && s.updates == []
    && forall i :: 0 <= i < |s.workers| ==> s.workers[i] == Worker(None, Idle, Some(0), [])
  }

  datatype Action =
    | Call(u: Update)
    | Send
    | Recv
    | Finalize
    | Joined
    | Take(w: nat)
    | Hash(w: nat)
    | PutBack(w: nat)
    | Exit(w: nat)

  // The caller has dropped its ends of this worker's channels.
  predicate Closed(s: State, w: nat) {
    s.caller.Joining? && w <= s.caller.i
  }

  ghost predicate Set(s: State, w: nat, x: Worker, caller: Caller, s': State)
    requires w < |s.workers|
  {
    s' == State(s.workers[w := x], caller, s.updates)
  }

  ghost predicate Next(s: State, a: Action, s': State) {
    var n, k := |s.workers|, |s.updates|;
    match a
    case Call(u) =>
      s.caller.Ready? && u.len <= |u.data| && s' == State(s.workers, Sending(0), s.updates + [u])
    case Send =>
      && s.caller.Sending? && s.caller.i < n && k > 0 && s.workers[s.caller.i].full.None?
      && var i := s.caller.i;
         Set(s, i, s.workers[i].(full := Some(Msg(s.updates[k - 1].len, k))),
             if i + 1 < n then Sending(i + 1) else Receiving(0, None), s')
    case Recv =>
      && s.caller.Receiving? && s.caller.i < n && s.workers[s.caller.i].empty.Some?
      && var i := s.caller.i;
         Set(s, i, s.workers[i].(empty := None),
             if i + 1 < n then Receiving(i + 1, s.workers[i].empty) else Ready, s')
    case Finalize =>
      s.caller.Ready? && s' == s.(caller := Joining(0))
    case Joined =>
      && s.caller.Joining? && s.caller.i < n && s.workers[s.caller.i].work.Exited?
      && s' == s.(caller := Joining(s.caller.i + 1))
    case Take(w) =>
      && w < n && s.workers[w].work.Idle? && s.workers[w].full.Some?
      && Set(s, w, s.workers[w].(full := None, work := Hashing(s.workers[w].full.value)), s.caller, s')
    case Hash(w) =>
      && w < n && s.workers[w].work.Hashing?
      && var m := s.workers[w].work.m;
         && 0 < m.buf <= k && m.len <= |s.updates[m.buf - 1].data|
         && var more := s.updates[m.buf - 1].data[..m.len];
            Set(s, w, s.workers[w].(work := Returning(m.buf), hashed := s.workers[w].hashed + more), s.caller, s')
    case PutBack(w) =>
      && w < n && s.workers[w].work.Returning? && s.workers[w].empty.None? && !Closed(s, w)
      && Set(s, w, s.workers[w].(work := Idle, empty := Some(s.workers[w].work.buf)), s.caller, s')
    case Exit(w) =>
      // the full channel is closed and drained, or handing the buffer back fails
      && w < n && Closed(s, w)
      && (s.workers[w].work.Returning? || (s.workers[w].work.Idle? && s.workers[w].full.None?))
      && Set(s, w, s.workers[w].(work := Exited), s.caller, s')
  }

  // ---- What the digests should see ----

  ghost predicate Lengths(us: seq<Update>) {
    forall i :: 0 <= i < |us| ==> us[i].len <= |us[i].data|
  }

  // The data of the first h updates, each cut to its length.
  ghost function Input(us: seq<Update>, h: nat): seq<byte>
    requires h <= |us| && Lengths(us)
  {
    if h == 0 then [] else Input(us, h - 1) + us[h - 1].data[..us[h - 1].len]
  }

  lemma InputPrefix(us: seq<Update>, u: Update, h: nat)
    requires h <= |us| && Lengths(us) && u.len <= |u.data|
    ensures Input(us + [u], h) == Input(us, h)
  {
  }

  // The lengths of the first h updates together.
  ghost function InputLength(us: seq<Update>, h: nat): nat
    requires h <= |us|
  {
    if h == 0 then 0 else InputLength(us, h - 1) + us[h - 1].len
  }

  /** Byte j of the i-th update comes right behind the updates before it. */
  lemma {:induction false} InputAt(us: seq<Update>, h: nat, i: nat, j: nat)
    requires i < h <= |us| && Lengths(us) && j < us[i].len
    ensures |Input(us, h)| == InputLength(us, h) && InputLength(us, i) + j < InputLength(us, h)
    ensures Input(us, h)[InputLength(us, i) + j] == us[i].data[j]
    decreases h
  {
    InputLengthIs(us, h - 1);
    if i < h - 1 {
      InputAt(us, h - 1, i, j);
    }
  }

  lemma {:induction false} InputLengthIs(us: seq<Update>, h: nat)
    requires h <= |us| && Lengths(us)
    ensures |Input(us, h)| == InputLength(us, h)
    decreases h
  {
    if h > 0 {
      InputLengthIs(us, h - 1);
    }
  }

  // ---- Where the buffers are ----

  // How many messages went to worker i, and how many buffers came back from it.
  function Sent(s: State, i: nat): int {
    if s.caller.Sending? && s.caller.i <= i then |s.updates| - 1 else |s.updates|
  }

  function Received(s: State, i: nat): int {
    if s.caller.Sending? || (s.caller.Receiving? && s.caller.i <= i) then |s.updates| - 1 else |s.updates|
  }

  // The buffers a worker and its channels refer to, oldest first.
  function Holds(w: Worker): seq<nat> {
    (if w.empty.Some? then [w.empty.value] else [])
    + (match w.work case Hashing(m) => [m.buf] case Returning(b) => [b] case _ => [])
    + (if w.full.Some? then [w.full.value.buf] else [])
  }

  function Unhashed(w: Worker): nat {
    (if w.full.Some? then 1 else 0) + (if w.work.Hashing? then 1 else 0)
  }

  ghost predicate MsgOk(us: seq<Update>, m: Msg) {
    0 < m.buf <= |us| && m.len == us[m.buf - 1].len
  }

  // A worker that was sent buffers up to `sent` and gave back those below `received` refers to the
  // one or two in between, and has hashed all but those still waiting.
  ghost predicate WorkerInv(us: seq<Update>, w: Worker, sent: int, received: int)
    requires Lengths(us)
  {
    && 0 <= received <= sent <= |us| && sent <= received + 1
    && (w.full.Some? ==> MsgOk(us, w.full.value))
    && (w.work.Hashing? ==> MsgOk(us, w.work.m))
    && (if w.work.Exited? then sent == received == |us| && w.full.None? && w.hashed == Input(us, sent)
        else
          && Holds(w) == (if sent == received then [received] else [received, sent])
          && Unhashed(w) <= sent && w.hashed == Input(us, sent - Unhashed(w)))
  }

  ghost predicate Fits(s: State, i: nat)
    requires i < |s.workers| && Lengths(s.updates)
  {
    WorkerInv(s.updates, s.workers[i], Sent(s, i), Received(s, i))
  }

  ghost predicate Inv(s: State) {
    && |s.workers| > 0 && Lengths(s.updates)
    && (s.caller.Sending? || s.caller.Receiving? ==> s.caller.i < |s.workers| && |s.updates| > 0)
    && (s.caller.Receiving? ==> s.caller.acc == if s.caller.i > 0 then Some(|s.updates| - 1) else None)
    && (s.caller.Joining? ==> s.caller.i <= |s.workers|)
    && (forall i :: 0 <= i < |s.workers| ==> Fits(s, i))
    && (forall i :: 0 <= i < |s.workers| && s.workers[i].work.Exited? ==> Closed(s, i))
    && (forall i :: 0 <= i < |s.workers| && s.caller.Joining? && i < s.caller.i ==> s.workers[i].work.Exited?)
  }

  lemma InvInit(s: State)
    requires Init(s)
    ensures Inv(s)
  {
  }

  lemma WorkerCalled(us: seq<Update>, u: Update, w: Worker)
    requires Lengths(us) && u.len <= |u.data| && WorkerInv(us, w, |us|, |us|) && !w.work.Exited?
    ensures Lengths(us + [u]) && WorkerInv(us + [u], w, |us|, |us|)
  {
    InputPrefix(us, u, |us| - Unhashed(w));
  }

  lemma InvCall(s: State, u: Update, s': State)
    requires Inv(s) && Next(s, Call(u), s')
    ensures Inv(s')
  {
    forall i | 0 <= i < |s'.workers| ensures Lengths(s'.updates) && Fits(s', i) {
      assert Fits(s, i);
      WorkerCalled(s.updates, u, s.workers[i]);
    }
  }

  // What each action does to the worker it concerns.

  lemma WorkerSend(us: seq<Update>, w: Worker)
    requires Lengths(us) && us != [] && WorkerInv(us, w, |us| - 1, |us| - 1) && w.full.None? && !w.work.Exited?
    ensures WorkerInv(us, w.(full := Some(Msg(us[|us| - 1].len, |us|))), |us|, |us| - 1)
  {
  }

  lemma WorkerRecv(us: seq<Update>, w: Worker)
    requires Lengths(us) && us != [] && WorkerInv(us, w, |us|, |us| - 1) && w.empty.Some? && !w.work.Exited?
    ensures w.empty.value == |us| - 1 && WorkerInv(us, w.(empty := None), |us|, |us|)
  {
    assert Holds(w)[0] == w.empty.value;
    assert Holds(w.(empty := None)) == Holds(w)[1..];
  }

  lemma WorkerTake(us: seq<Update>, w: Worker, sent: int, received: int)
    requires Lengths(us) && WorkerInv(us, w, sent, received) && w.work.Idle? && w.full.Some?
    ensures WorkerInv(us, w.(full := None, work := Hashing(w.full.value)), sent, received)
  {
  }

  // The buffer being hashed is the next one due.
  lemma HashingNext(us: seq<Update>, w: Worker, sent: int, received: int)
    requires Lengths(us) && WorkerInv(us, w, sent, received) && w.work.Hashing?
    ensures w.work.m.buf == sent - Unhashed(w) + 1
  {
    var e := if w.empty.Some? then 1 else 0;
    assert Holds(w)[e] == w.work.m.buf;
    if w.full.Some? {
      assert Holds(w)[e + 1] == w.full.value.buf;
    }
  }

  lemma WorkerHash(us: seq<Update>, w: Worker, sent: int, received: int)
    requires Lengths(us) && WorkerInv(us, w, sent, received) && w.work.Hashing?
    ensures var m := w.work.m;
            && 0 < m.buf <= |us| && m.len <= |us[m.buf - 1].data|
            && var more := us[m.buf - 1].data[..m.len];
               WorkerInv(us, w.(work := Returning(m.buf), hashed := w.hashed + more), sent, received)
  {
    HashingNext(us, w, sent, received);
  }

  lemma WorkerPutBack(us: seq<Update>, w: Worker, sent: int, received: int)
    requires Lengths(us) && WorkerInv(us, w, sent, received) && w.work.Returning? && w.empty.None?
    ensures WorkerInv(us, w.(work := Idle, empty := Some(w.work.buf)), sent, received)
  {
  }

  lemma WorkerExit(us: seq<Update>, w: Worker)
    requires Lengths(us) && WorkerInv(us, w, |us|, |us|) && (w.work.Returning? || (w.work.Idle? && w.full.None?))
    ensures WorkerInv(us, w.(work := Exited), |us|, |us|)
  {
  }

  // Workers that an action does not concern still fit.
  lemma FitsRest(s: State, w: nat, s': State)
    requires Inv(s) && w < |s.workers| == |s'.workers| && s'.updates == s.updates
    requires forall i :: 0 <= i < |s.workers| && i != w ==>
               s'.workers[i] == s.workers[i] && Sent(s', i) == Sent(s, i) && Received(s', i) == Received(s, i)
    ensures forall i :: 0 <= i < |s'.workers| && i != w ==> Fits(s', i)
  {
    forall i | 0 <= i < |s'.workers| && i != w ensures Fits(s', i) {
      assert Fits(s, i);
    }
  }

  lemma InvSend(s: State, s': State)
    requires Inv(s) && Next(s, Send, s')
    ensures Inv(s')
  {
    assert Fits(s, s.caller.i);
    WorkerSend(s.updates, s.workers[s.caller.i]);
    FitsRest(s, s.caller.i, s');
  }

  lemma RecvFits(s: State, s': State)
    requires Inv(s) && Next(s, Recv, s')
    ensures Fits(s', s.caller.i) && s.workers[s.caller.i].empty == Some(|s.updates| - 1)
  {
    assert Fits(s, s.caller.i);
    WorkerRecv(s.updates, s.workers[s.caller.i]);
  }

  lemma InvRecv(s: State, s': State)
    requires Inv(s) && Next(s, Recv, s')
    ensures Inv(s')
  {
    RecvFits(s, s');
    FitsRest(s, s.caller.i, s');
  }

  lemma InvJoin(s: State, a: Action, s': State)
    requires Inv(s) && Next(s, a, s') && (a.Finalize? || a.Joined?)
    ensures Inv(s')
  {
    forall i | 0 <= i < |s'.workers| ensures Fits(s', i) {
      assert Fits(s, i);
    }
  }

  // Only one worker changed, and it still fits.
  lemma InvReplace(s: State, w: nat, x: Worker, s': State)
    requires Inv(s) && w < |s.workers| && s' == State(s.workers[w := x], s.caller, s.updates)
    requires WorkerInv(s.updates, x, Sent(s, w), Received(s, w))
    requires !s.workers[w].work.Exited? && (x.work.Exited? ==> Closed(s, w))
    ensures Inv(s')
  {
    FitsRest(s, w, s');
    assert Fits(s', w);
  }

  lemma WorkerFits(s: State, a: Action, s': State)
    requires Inv(s) && Next(s, a, s') && (a.Take? || a.Hash? || a.PutBack? || a.Exit?)
    ensures WorkerInv(s.updates, s'.workers[a.w], Sent(s, a.w), Received(s, a.w))
  {
    var us, w, sent, received := s.updates, s.workers[a.w], Sent(s, a.w), Received(s, a.w);
    assert Fits(s, a.w);
    match a {
      case Take(_) => WorkerTake(us, w, sent, received);
      case Hash(_) => WorkerHash(us, w, sent, received);
      case PutBack(_) => WorkerPutBack(us, w, sent, received);
      case Exit(_) => WorkerExit(us, w);
    }
  }

  lemma InvWorker(s: State, a: Action, s': State)
    requires Inv(s) && Next(s, a, s') && (a.Take? || a.Hash? || a.PutBack? || a.Exit?)
    ensures Inv(s')
  {
    WorkerFits(s, a, s');
    InvReplace(s, a.w, s'.workers[a.w], s');
  }

  lemma InvKept(s: State, a: Action, s': State)
    requires Inv(s) && Next(s, a, s')
    ensures Inv(s')
  {
    match a
    case Call(u) => InvCall(s, u, s');
    case Send => InvSend(s, s');
    case Recv => InvRecv(s, s');
    case Finalize => InvJoin(s, a, s');
    case Joined => InvJoin(s, a, s');
    case _ => InvWorker(s, a, s');
  }

  // ---- Runs ----

  ghost predicate IsRun(states: seq<State>, acts: seq<Action>) {
    && |states| == |acts| + 1 && Init(states[0])
    && forall i :: 0 <= i < |acts| ==> StepAt(states, acts, i)
  }

  ghost predicate StepAt(states: seq<State>, acts: seq<Action>, i: nat)
    requires i < |acts| < |states|
  {
    Next(states[i], acts[i], states[i + 1])
  }

  lemma {:induction false} RunInv(states: seq<State>, acts: seq<Action>, i: nat)
    requires IsRun(states, acts) && i < |states|
    ensures Inv(states[i])
    decreases i
  {
    if i == 0 {
      InvInit(states[0]);
    } else {
      RunInv(states, acts, i - 1);
      assert StepAt(states, acts, i - 1);
      InvKept(states[i - 1], acts[i - 1], states[i]);
    }
  }

  // A worker, or one of its channels, refers to the buffer.
  ghost predicate Refers(w: Worker, buf: nat) {
    buf in Holds(w)
  }

  /** The last receive of the k-th `update` hands back buffer k - 1, and nobody else refers to it any more. */
  lemma ReturnedBufferUnshared(states: seq<State>, acts: seq<Action>, i: nat)
    requires IsRun(states, acts) && i < |acts|
    requires acts[i].Recv? && states[i + 1].caller.Ready?
    ensures StepAt(states, acts, i)
    ensures var s, s' := states[i], states[i + 1];
            && s.workers[s.caller.i].empty == Some(|s.updates| - 1)
            && (s.caller.acc.Some? ==> s.caller.acc.value == |s.updates| - 1)
            && forall j :: 0 <= j < |s'.workers| ==> !Refers(s'.workers[j], |s.updates| - 1)
  {
    RunInv(states, acts, i);
    RunInv(states, acts, i + 1);
    var s, s' := states[i], states[i + 1];
    assert StepAt(states, acts, i);
    assert Fits(s, s.caller.i);
    WorkerRecv(s.updates, s.workers[s.caller.i]);
    forall j | 0 <= j < |s'.workers| ensures !Refers(s'.workers[j], |s.updates| - 1) {
      assert Fits(s', j);
    }
  }

  /** When every thread is joined, every digest has taken in exactly the updates, in order, cut to their lengths. */
  lemma DigestsComplete(states: seq<State>, acts: seq<Action>, i: nat, w: nat)
    requires IsRun(states, acts) && i < |states| && w < |states[i].workers|
    requires states[i].caller == Joining(|states[i].workers|)
    ensures Lengths(states[i].updates) && states[i].workers[w].hashed == Input(states[i].updates, |states[i].updates|)
  {
    RunInv(states, acts, i);
    assert Fits(states[i], w);
  }

  // ---- Progress ----

  ghost predicate CanStep(s: State) {
    exists a: Action, s': State :: !a.Call? && !a.Finalize? && Next(s, a, s')
  }

  lemma CanHash(s: State, w: nat)
    requires Inv(s) && w < |s.workers| && s.workers[w].work.Hashing?
    ensures CanStep(s)
  {
    var x := s.workers[w];
    var m := x.work.m;
    assert Fits(s, w);
    WorkerHash(s.updates, x, Sent(s, w), Received(s, w));
    var x' := x.(work := Returning(m.buf), hashed := x.hashed + s.updates[m.buf - 1].data[..m.len]);
    assert Next(s, Hash(w), State(s.workers[w := x'], s.caller, s.updates));
  }

  lemma WorkerCanStep(s: State, w: nat)
    requires Inv(s) && w < |s.workers| && !s.workers[w].work.Exited?
    requires s.workers[w].work.Hashing? || (s.workers[w].work.Returning? && s.workers[w].empty.None?)
             || (s.workers[w].work.Idle? && s.workers[w].full.Some?)
             || (Closed(s, w) && (s.workers[w].work.Returning? || s.workers[w].work.Idle?))
    ensures CanStep(s)
  {
    var x := s.workers[w];
    if x.work.Hashing? {
      CanHash(s, w);
    } else if x.work.Idle? && x.full.Some? {
      var x' := x.(full := None, work := Hashing(x.full.value));
      assert Next(s, Take(w), State(s.workers[w := x'], s.caller, s.updates));
    } else if Closed(s, w) {
      assert Next(s, Exit(w), State(s.workers[w := x.(work := Exited)], s.caller, s.updates));
    } else {
      var x' := x.(work := Idle, empty := Some(x.work.buf));
      assert Next(s, PutBack(w), State(s.workers[w := x'], s.caller, s.updates));
    }
  }

  /** `update` and `finalize` never deadlock: until they return, the caller or a worker can go on. */
  lemma NeverStuck(states: seq<State>, acts: seq<Action>, i: nat)
    requires IsRun(states, acts) && i < |states|
    requires !states[i].caller.Ready? && states[i].caller != Joining(|states[i].workers|)
    ensures CanStep(states[i])
  {
    RunInv(states, acts, i);
    var s := states[i];
    var c, k := s.caller.i, |s.updates|;
    var x := s.workers[c];
    assert Fits(s, c);
    if s.caller.Sending? && x.full.None? {
      var x' := x.(full := Some(Msg(s.updates[k - 1].len, k)));
      var caller' := if c + 1 < |s.workers| then Sending(c + 1) else Receiving(0, None);
      assert Next(s, Send, State(s.workers[c := x'], caller', s.updates));
    } else if s.caller.Receiving? && x.empty.Some? {
      var caller' := if c + 1 < |s.workers| then Receiving(c + 1, x.empty) else Ready;
      assert Next(s, Recv, State(s.workers[c := x.(empty := None)], caller', s.updates));
    } else if s.caller.Joining? && x.work.Exited? {
      assert Next(s, Joined, s.(caller := Joining(c + 1)));
    } else {
      WorkerCanStep(s, c);
    }
  }

  // What is left to do before the call in progress returns.
  function Effort(w: Worker): nat {
    (if w.full.Some? then 3 else 0)
    + match w.work case Hashing(_) => 2 case Returning(_) => 1 case _ => 0
  }

  function TotalEffort(ws: seq<Worker>): nat {
    if ws == [] then 0 else Effort(ws[0]) + TotalEffort(ws[1..])
  }

  function CallerEffort(c: Caller, n: nat): int {
    match c
    case Ready => 0
    case Sending(i) => 4 * (n - i) + n
    case Receiving(i, _) => n - i
    case Joining(i) => n - i
  }

  lemma TotalEffortSet(ws: seq<Worker>, w: nat, x: Worker)
    requires w < |ws|
    ensures TotalEffort(ws[w := x]) == TotalEffort(ws) - Effort(ws[w]) + Effort(x)
  {
    if w > 0 {
      TotalEffortSet(ws[1..], w - 1, x);
      assert ws[w := x][1..] == ws[1..][w - 1 := x];
    }
  }

  // Workers still to exit.
  function Alive(ws: seq<Worker>): nat {
    if ws == [] then 0 else (if ws[0].work.Exited? then 0 else 1) + Alive(ws[1..])
  }

  lemma AliveSet(ws: seq<Worker>, w: nat, x: Worker)
    requires w < |ws|
    ensures Alive(ws[w := x]) == Alive(ws) - (if ws[w].work.Exited? then 0 else 1) + if x.work.Exited? then 0 else 1
  {
    if w > 0 {
      AliveSet(ws[1..], w - 1, x);
      assert ws[w := x][1..] == ws[1..][w - 1 := x];
    }
  }

  function Remaining(s: State): int {
    CallerEffort(s.caller, |s.workers|) + TotalEffort(s.workers) + Alive(s.workers)
  }

  lemma StepShrinks(s: State, a: Action, s': State)
    requires Next(s, a, s') && !a.Call? && !a.Finalize?
    ensures Remaining(s') < Remaining(s)
  {
    var w := if a.Send? || a.Recv? || a.Joined? then s.caller.i else a.w;
    TotalEffortSet(s.workers, w, s'.workers[w]);
    AliveSet(s.workers, w, s'.workers[w]);
    assert s'.workers == s.workers[w := s'.workers[w]];
  }

  /** Every step brings the call in progress closer to returning, whatever the schedule. */
  lemma StepsRunOut(states: seq<State>, acts: seq<Action>, i: nat)
    requires IsRun(states, acts) && i < |acts| && !acts[i].Call? && !acts[i].Finalize?
    ensures 0 <= Remaining(states[i + 1]) < Remaining(states[i])
  {
    RunInv(states, acts, i + 1);
    assert StepAt(states, acts, i);
    StepShrinks(states[i], acts[i], states[i + 1]);
  }
}
