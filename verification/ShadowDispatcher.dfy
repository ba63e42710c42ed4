/** The shadow dispatcher of router/internal/shadow/dispatcher.go: request handlers offer tasks to a
    bounded channel without blocking; N workers compete for them and drain the channel before
    they exit. The worker count is the one the router is configured with. */
module ShadowDispatcher {
  import opened Options

  /** A task and the champion prediction it is compared with. */
  datatype Task = Task(transaction: int, championPrediction: nat)

  datatype Worker =
    | Select                              // in the outer select
    | Executing(t: Task, draining: bool)  // in execute(t)
    | Draining                            // in the inner select
    | Exited

  /** `started` is the order in which workers took tasks off the channel; `late` counts tasks accepted
      after `done` was closed. */
  datatype State = State(
    capacity: nat,
    buffer: seq<Task>,
    workers: seq<Worker>,
    done: bool,
    late: nat,
    accepted: seq<Task>,
    dropped: nat,
    started: seq<Task>,
    executed: seq<Task>,
    compared: seq<Task>)

  datatype Event =
    | Accept(t: Task)             // Dispatch: the channel has room
    | HandOff(t: Task, w: nat)    // Dispatch: worker w is waiting on the empty channel
    | Drop(t: Task)               // Dispatch: neither
    | Receive(w: nat)
    | SeeDone(w: nat)
    | DrainReceive(w: nat)
    | DrainEmpty(w: nat)
    | Finish(w: nat, ok: bool)    // execute returns; OnComplete ran if the challenger answered
    | Close

  function Init(capacity: nat, workers: nat): State {
    State(capacity, [], seq(workers, _ => Select), false, 0, [], 0, [], [], [])
  }

  predicate Is(s: State, w: nat, worker: Worker) {
    w < |s.workers| && s.workers[w] == worker
  }

  predicate Enabled(s: State, e: Event) {
    match e
    case Accept(_) => |s.buffer| < s.capacity
    case HandOff(_, w) => s.buffer == [] && Is(s, w, Select)
    case Drop(_) => |s.buffer| >= s.capacity
    case Receive(w) => s.buffer != [] && Is(s, w, Select)
    case SeeDone(w) => s.done && Is(s, w, Select)
    case DrainReceive(w) => s.buffer != [] && Is(s, w, Draining)
    case DrainEmpty(w) => s.buffer == [] && Is(s, w, Draining)
    case Finish(w, _) => w < |s.workers| && s.workers[w].Executing?
    case Close => !s.done
  }

  function Set(s: State, w: nat, worker: Worker): State
    requires w < |s.workers|
  {
    s.(workers := s.workers[w := worker])
  }

  function Take(s: State, w: nat, draining: bool): State
    requires w < |s.workers| && s.buffer != []
  {
    Set(s, w, Executing(s.buffer[0], draining)).(buffer := s.buffer[1..], started := s.started + [s.buffer[0]])
  }

  function Apply(s: State, e: Event): State
    requires Enabled(s, e)
  {
    match e
    case Accept(t) => s.(buffer := s.buffer + [t], accepted := s.accepted + [t], late := s.late + if s.done then 1 else 0)
    case HandOff(t, w) =>
      Set(s, w, Executing(t, false)).(accepted := s.accepted + [t], started := s.started + [t],
                                      late := s.late + if s.done then 1 else 0)
    case Drop(t) => s.(dropped := s.dropped + 1)
    case Receive(w) => Take(s, w, false)
    case SeeDone(w) => Set(s, w, Draining)
    case DrainReceive(w) => Take(s, w, true)
    case DrainEmpty(w) => Set(s, w, Exited)
    case Finish(w, ok) =>
      var t := s.workers[w].t;
      Set(s, w, if s.workers[w].draining then Draining else Select)
      .(executed := s.executed + [t], compared := if ok then s.compared + [t] else s.compared)
    case Close => s.(done := true)
  }

  /** The state after the events, if each was enabled in its turn. */
  function Run(s: State, es: seq<Event>): Option<State> {
    if es == [] then Some(s)
    else
      match Run(s, es[..|es|-1])
      case None => None
      case Some(m) => if Enabled(m, es[|es|-1]) then Some(Apply(m, es[|es|-1])) else None
  }

  // ---------- tasks in the workers' hands ----------

  function InHand(w: Worker, x: Task): nat {
    if w.Executing? && w.t == x then 1 else 0
  }

  /** How many workers are executing task x. */
  function InFlight(ws: seq<Worker>, x: Task): nat {
    if ws == [] then 0 else InHand(ws[0], x) + InFlight(ws[1..], x)
  }

  lemma {:induction false} InFlightUpdate(ws: seq<Worker>, i: nat, w: Worker, x: Task)
    requires i < |ws|
    ensures InFlight(ws[i := w], x) + InHand(ws[i], x) == InFlight(ws, x) + InHand(w, x)
    decreases ws
  {
    if i == 0 {
      assert ws[0 := w][1..] == ws[1..];
    } else {
      InFlightUpdate(ws[1..], i - 1, w, x);
      assert ws[i := w][1..] == ws[1..][i - 1 := w];
    }
  }

  lemma {:induction false} NoneInFlight(ws: seq<Worker>, x: Task)
    requires forall w :: w in ws ==> !w.Executing?
    ensures InFlight(ws, x) == 0
    decreases ws
  {
    if ws != [] { NoneInFlight(ws[1..], x); }
  }

  // ---------- the invariant ----------

  /** Task x was taken as often as it is in flight or executed. */
  ghost predicate Balanced(s: State, x: Task) {
    multiset(s.started)[x] == InFlight(s.workers, x) + multiset(s.executed)[x]
  }

  ghost predicate Conserves(s: State) {
    s.accepted == s.started + s.buffer && forall x: Task :: Balanced(s, x)
  }

  ghost predicate Ordered(s: State) {
    && |s.buffer| <= s.capacity
    && (!s.done ==> s.late == 0)
    && (forall w :: w in s.workers && (w.Draining? || w.Exited? || (w.Executing? && w.draining)) ==> s.done)
    && (s.late == 0 && Exited in s.workers ==> s.buffer == [])
  }

  lemma CountSnoc(ts: seq<Task>, t: Task, x: Task)
    ensures multiset(ts + [t])[x] == multiset(ts)[x] + if t == x then 1 else 0
  {
  }

  /** A worker takes a task. */
  lemma TakeKeepsBalance(s: State, s': State, w: nat, t: Task, draining: bool, x: Task)
    requires Balanced(s, x) && w < |s.workers| && !s.workers[w].Executing?
    requires s'.workers == s.workers[w := Executing(t, draining)] && s'.started == s.started + [t] && s'.executed == s.executed
    ensures Balanced(s', x)
  {
    InFlightUpdate(s.workers, w, Executing(t, draining), x);
    CountSnoc(s.started, t, x);
  }

  /** A worker moves on without its task, if it had one. */
  lemma LeaveKeepsBalance(s: State, s': State, w: nat, next: Worker, x: Task)
    requires Balanced(s, x) && w < |s.workers| && !next.Executing? && s'.workers == s.workers[w := next] && s'.started == s.started
    requires s'.executed == if s.workers[w].Executing? then s.executed + [s.workers[w].t] else s.executed
    ensures Balanced(s', x)
  {
    InFlightUpdate(s.workers, w, next, x);
    if s.workers[w].Executing? { CountSnoc(s.executed, s.workers[w].t, x); }
  }

  lemma StepKeepsBalance(s: State, e: Event, x: Task)
    requires Balanced(s, x) && Enabled(s, e)
    ensures Balanced(Apply(s, e), x)
  {
    hide InFlight;
    var s' := Apply(s, e);
    match e
    case HandOff(t, w) => TakeKeepsBalance(s, s', w, t, false, x);
    case Receive(w) => TakeKeepsBalance(s, s', w, s.buffer[0], false, x);
    case DrainReceive(w) => TakeKeepsBalance(s, s', w, s.buffer[0], true, x);
    case SeeDone(w) => LeaveKeepsBalance(s, s', w, Draining, x);
    case DrainEmpty(w) => LeaveKeepsBalance(s, s', w, Exited, x);
    case Finish(w, _) => LeaveKeepsBalance(s, s', w, s'.workers[w], x);
    case _ =>
  }

  lemma StepConserves(s: State, e: Event)
    requires Conserves(s) && Enabled(s, e)
    ensures Conserves(Apply(s, e))
  {
    var s' := Apply(s, e);
    assert s'.accepted == s'.started + s'.buffer;
    forall x: Task ensures Balanced(s', x) {
      StepKeepsBalance(s, e, x);
    }
  }

  lemma StepKeepsOrdered(s: State, e: Event)
    requires Ordered(s) && Enabled(s, e)
    ensures Ordered(Apply(s, e))
  {
  }

  lemma StepKeepsShape(s: State, e: Event)
    requires Enabled(s, e)
    ensures Apply(s, e).capacity == s.capacity && |Apply(s, e).workers| == |s.workers|
  {
  }

  lemma {:induction false} ReachableInv(capacity: nat, workers: nat, es: seq<Event>)
    requires Run(Init(capacity, workers), es).Some?
    ensures var s := Run(Init(capacity, workers), es).value;
            Conserves(s) && Ordered(s) && s.capacity == capacity && |s.workers| == workers
    decreases es
  {
    if es == [] {
      forall x: Task ensures Balanced(Init(capacity, workers), x) {
        NoneInFlight(Init(capacity, workers).workers, x);
      }
    } else {
      ReachableInv(capacity, workers, es[..|es|-1]);
      var m, e := Run(Init(capacity, workers), es[..|es|-1]).value, es[|es|-1];
      StepConserves(m, e);
      StepKeepsOrdered(m, e);
      StepKeepsShape(m, e);
    }
  }

  // ---------- main results ----------

  /** `wg.Wait()` returns: every worker has exited. */
  predicate ShutdownReturns(s: State) {
    s.done && forall w :: w in s.workers ==> w.Exited?
  }

  /** In every reachable state each task is accepted as often as it is buffered, in flight in some
      worker, or executed, so no accepted task runs twice; and workers take tasks in the order they
      were accepted. */
  lemma TasksConserved(capacity: nat, workers: nat, es: seq<Event>, x: Task)
    requires Run(Init(capacity, workers), es).Some?
    ensures var s := Run(Init(capacity, workers), es).value;
            && multiset(s.accepted)[x] == multiset(s.buffer)[x] + InFlight(s.workers, x) + multiset(s.executed)[x]
            && s.accepted == s.started + s.buffer
            && |s.workers| == workers && |s.buffer| <= capacity
  {
    ReachableInv(capacity, workers, es);
    var s := Run(Init(capacity, workers), es).value;
    assert Balanced(s, x);
    hide InFlight, Run;
  }

  /** The tasks held at the run's Finish events, in order: all of them, or those the challenger answered. */
  function Finished(capacity: nat, workers: nat, es: seq<Event>, answeredOnly: bool): seq<Task>
    requires Run(Init(capacity, workers), es).Some?
  {
    if es == [] then []
    else
      var before := Finished(capacity, workers, es[..|es|-1], answeredOnly);
      match es[|es|-1]
      case Finish(w, ok) =>
        if ok || !answeredOnly then before + [Run(Init(capacity, workers), es[..|es|-1]).value.workers[w].t] else before
      case _ => before
  }

  /** Over every run the executed tasks are those whose execution finished, and the comparisons recorded
      are those, in order, that the challenger answered. */
  lemma {:induction false} ComparedExactly(capacity: nat, workers: nat, es: seq<Event>)
    requires Run(Init(capacity, workers), es).Some?
    ensures var s := Run(Init(capacity, workers), es).value;
            && s.executed == Finished(capacity, workers, es, false)
            && s.compared == Finished(capacity, workers, es, true)
            && s.dropped == Drops(es)
    decreases es
  {
    if es != [] {
      ComparedExactly(capacity, workers, es[..|es|-1]);
      WhatFinishes(Run(Init(capacity, workers), es[..|es|-1]).value, es[|es|-1]);
      hide Apply, Enabled, Init;
    }
  }

  lemma WhatFinishes(s: State, e: Event)
    requires Enabled(s, e)
    ensures var s' := Apply(s, e);
            && (e.Finish? ==> e.w < |s.workers| && s.workers[e.w].Executing?)
            && s'.executed == (if e.Finish? then s.executed + [s.workers[e.w].t] else s.executed)
            && s'.compared == (if e.Finish? && e.ok then s.compared + [s.workers[e.w].t] else s.compared)
            && s'.dropped == s.dropped + if e.Drop? then 1 else 0
  {
  }

  /** No task is compared more often than it is executed. */
  lemma {:induction false} ComparedAmongExecuted(capacity: nat, workers: nat, es: seq<Event>)
    requires Run(Init(capacity, workers), es).Some?
    ensures var s := Run(Init(capacity, workers), es).value; multiset(s.compared) <= multiset(s.executed)
    decreases es
  {
    if es != [] {
      ComparedAmongExecuted(capacity, workers, es[..|es|-1]);
      WhatFinishes(Run(Init(capacity, workers), es[..|es|-1]).value, es[|es|-1]);
      hide Apply, Enabled, Init;
    }
  }

  function Drops(es: seq<Event>): nat {
    if es == [] then 0 else Drops(es[..|es|-1]) + if es[|es|-1].Drop? then 1 else 0
  }

  /** When Shutdown returns, with at least one worker and no task accepted after `done` was closed,
      the channel is empty and what was executed is exactly what was accepted. */
  lemma ShutdownLosesNothing(capacity: nat, workers: nat, es: seq<Event>)
    requires workers >= 1 && Run(Init(capacity, workers), es).Some?
    requires var s := Run(Init(capacity, workers), es).value; ShutdownReturns(s) && s.late == 0
    ensures var s := Run(Init(capacity, workers), es).value;
            s.buffer == [] && multiset(s.executed) == multiset(s.accepted)
  {
    ReachableInv(capacity, workers, es);
    var s := Run(Init(capacity, workers), es).value;
    assert s.workers[0] in s.workers;
    EmptyBufferLosesNothing(s);
  }

  lemma EmptyBufferLosesNothing(s: State)
    requires Conserves(s) && ShutdownReturns(s) && s.buffer == []
    ensures multiset(s.executed) == multiset(s.accepted)
  {
    forall x: Task ensures multiset(s.executed)[x] == multiset(s.accepted)[x] {
      assert Balanced(s, x);
      NoneInFlight(s.workers, x);
    }
  }

  ghost predicate LosesTasks(capacity: nat, workers: nat, es: seq<Event>) {
    var r := Run(Init(capacity, workers), es);
    r.Some? && ShutdownReturns(r.value) && r.value.late == 0 && multiset(r.value.executed) != multiset(r.value.accepted)
  }

  /** The exact condition: with no late dispatch, Shutdown never loses a task if and only if there is a
      worker, or the channel can hold nothing. With SHADOW_WORKERS=0 it returns at once. */
  lemma ShutdownSafeExactly(capacity: nat, workers: nat)
    ensures (forall es :: !LosesTasks(capacity, workers, es)) <==> workers >= 1 || capacity == 0
  {
    if workers >= 1 || capacity == 0 {
      forall es ensures !LosesTasks(capacity, workers, es) {
        NeverLoses(capacity, workers, es);
      }
    } else {
      var es := NoWorkersLose(capacity);
    }
  }

  lemma NeverLoses(capacity: nat, workers: nat, es: seq<Event>)
    requires workers >= 1 || capacity == 0
    ensures !LosesTasks(capacity, workers, es)
  {
    if LosesTasks(capacity, workers, es) {
      if workers >= 1 {
        ShutdownLosesNothing(capacity, workers, es);
      } else {
        ReachableInv(capacity, workers, es);
        EmptyBufferLosesNothing(Run(Init(capacity, workers), es).value);
      }
    }
  }

  lemma NoWorkersLose(capacity: nat) returns (es: seq<Event>)
    requires capacity >= 1
    ensures LosesTasks(capacity, 0, es)
  {
    var s, t := Init(capacity, 0), Task(1, 1);
    var m;
    es, m := Push(s, [], s, Accept(t));
    es, m := Push(s, es, m, Close);
    assert t in multiset(m.accepted);
  }

  // ---------- the drain terminates ----------

  function Rank(w: Worker): nat {
    match w
    case Select => 2
    case Executing(_, draining) => if draining then 2 else 3
    case Draining => 1
    case Exited => 0
  }

  function Ranks(ws: seq<Worker>): nat {
    if ws == [] then 0 else Rank(ws[0]) + Ranks(ws[1..])
  }

  /** An upper bound on the steps the workers still have to take. */
  function Work(s: State): nat {
    2 * |s.buffer| + Ranks(s.workers)
  }

  lemma {:induction false} RanksUpdate(ws: seq<Worker>, i: nat, w: Worker)
    requires i < |ws|
    ensures Ranks(ws[i := w]) + Rank(ws[i]) == Ranks(ws) + Rank(w)
    decreases ws
  {
    if i == 0 {
      assert ws[0 := w][1..] == ws[1..];
    } else {
      RanksUpdate(ws[1..], i - 1, w);
      assert ws[i := w][1..] == ws[1..][i - 1 := w];
    }
  }

  lemma {:induction false} RanksBound(ws: seq<Worker>)
    ensures Ranks(ws) <= 3 * |ws|
    decreases ws
  {
    if ws != [] { RanksBound(ws[1..]); }
  }

  predicate WorkerEvent(e: Event) {
    e.Receive? || e.SeeDone? || e.DrainReceive? || e.DrainEmpty? || e.Finish?
  }

  /** Every step a worker takes uses up work. */
  lemma WorkerStepsUseWork(s: State, e: Event)
    requires Enabled(s, e) && WorkerEvent(e)
    ensures Work(Apply(s, e)) < Work(s)
  {
    RanksUpdate(s.workers, e.w, Apply(s, e).workers[e.w]);
  }

  /** After `done` is closed no worker is ever stuck: until Shutdown can return, some worker has a step. */
  lemma NoWorkerStuck(s: State) returns (e: Event)
    requires s.done && !ShutdownReturns(s)
    ensures WorkerEvent(e) && Enabled(s, e)
  {
    var w :| w in s.workers && !w.Exited?;
    var i: nat :| i < |s.workers| && s.workers[i] == w;
    match w
    case Select => e := SeeDone(i);
    case Executing(_, _) => e := Finish(i, true);
    case Draining => e := if s.buffer == [] then DrainEmpty(i) else DrainReceive(i);
  }

  /** So once `done` is closed and producers are quiet, any run of the workers has at most
      2 * buffered + 3 * workers steps, and a run that cannot be extended lets Shutdown return. */
  lemma {:induction false} DrainTerminates(s: State, es: seq<Event>)
    requires (forall e :: e in es ==> WorkerEvent(e)) && Run(s, es).Some?
    ensures |es| + Work(Run(s, es).value) <= Work(s) <= 2 * |s.buffer| + 3 * |s.workers|
    ensures Run(s, es).value.done == s.done && Run(s, es).value.late == s.late
    ensures s.done && (forall e :: WorkerEvent(e) ==> !Enabled(Run(s, es).value, e)) ==> ShutdownReturns(Run(s, es).value)
    decreases es
  {
    RanksBound(s.workers);
    if es != [] {
      var init := es[..|es|-1];
      DrainTerminates(s, init);
      WorkerStepsUseWork(Run(s, init).value, es[|es|-1]);
    }
    var last := Run(s, es).value;
    if last.done && !ShutdownReturns(last) {
      var e := NoWorkerStuck(last);
    }
  }

  // ---------- dispatching after Shutdown has begun ----------

  ghost predicate StrandsTasks(capacity: nat, workers: nat, es: seq<Event>) {
    var r := Run(Init(capacity, workers), es);
    r.Some? && ShutdownReturns(r.value) && multiset(r.value.executed) != multiset(r.value.accepted)
  }

  /** If producers may still dispatch after `done` is closed, no number of workers makes Shutdown safe: it
      never loses an accepted task if and only if the channel can hold nothing. */
  lemma LateDispatchSafeExactly(capacity: nat, workers: nat)
    ensures (forall es :: !StrandsTasks(capacity, workers, es)) <==> capacity == 0
  {
    if capacity == 0 {
      forall es ensures !StrandsTasks(0, workers, es) {
        UnbufferedNeverStrands(workers, es);
      }
    } else {
      var es, m := LateDispatchMayBeStranded(capacity, workers, Task(1, 1));
    }
  }

  lemma UnbufferedNeverStrands(workers: nat, es: seq<Event>)
    ensures !StrandsTasks(0, workers, es)
  {
    if StrandsTasks(0, workers, es) {
      ReachableInv(0, workers, es);
      EmptyBufferLosesNothing(Run(Init(0, workers), es).value);
    }
  }

  /** For every buffer and any number of workers: a dispatch after `done` may be accepted and never run. */
  lemma LateDispatchMayBeStranded(capacity: nat, workers: nat, t: Task) returns (es: seq<Event>, m: State)
    requires capacity >= 1
    ensures Run(Init(capacity, workers), es) == Some(m) && StrandsTasks(capacity, workers, es)
    ensures m.late == 1 && m.buffer == [t] && m.executed == []
  {
    var s := Init(capacity, workers);
    es, m := ExitRun(capacity, workers, workers);
    es, m := Push(s, es, m, Accept(t));
    assert t in multiset(m.accepted);
  }

  /** After `done` is closed, the first k workers find the channel empty and exit. */
  lemma {:induction false} ExitRun(capacity: nat, workers: nat, k: nat) returns (es: seq<Event>, m: State)
    requires k <= workers
    ensures Run(Init(capacity, workers), es) == Some(m)
    ensures m == Init(capacity, workers).(done := true, workers := seq(workers, i => if i < k then Exited else Select))
    decreases k
  {
    var s := Init(capacity, workers);
    hide Run;
    if k == 0 {
      NoEvents(s);
      es, m := Push(s, [], s, Close);
    } else {
      es, m := ExitRun(capacity, workers, k - 1);
      es, m := Push(s, es, m, SeeDone(k - 1));
      es, m := Push(s, es, m, DrainEmpty(k - 1));
    }
    assert m.workers == seq(workers, i => if i < k then Exited else Select);
  }

  lemma NoEvents(s: State)
    ensures Run(s, []) == Some(s)
  {
  }

  lemma Push(s: State, es: seq<Event>, m: State, e: Event) returns (es': seq<Event>, m': State)
    requires Run(s, es) == Some(m) && Enabled(m, e)
    ensures es' == es + [e] && m' == Apply(m, e) && Run(s, es') == Some(m')
  {
    hide Enabled, Apply;
    es', m' := es + [e], Apply(m, e);
    assert (es + [e])[..|es|] == es;
  }

  // ---------- the methods ----------

  /** The dispatcher's fields, with the workers' positions as ghost state. Each method is one
      goroutine's work between two scheduling points, proved to be a run of the machine. */
  class Dispatcher {
    const capacity: nat
    var ch: seq<Task>
    var done: bool
    var dropped: nat
    var compared: seq<Task>
    ghost var workers: seq<Worker>
    ghost var late: nat
    ghost var accepted: seq<Task>
    ghost var started: seq<Task>
    ghost var executed: seq<Task>

    ghost function View(): State
      reads this
    {
      State(capacity, ch, workers, done, late, accepted, dropped, started, executed, compared)
    }

    /** A worker count below zero starts none. */
    constructor (bufferSize: nat, ghost workers: int)
      ensures View() == Init(bufferSize, if workers > 0 then workers else 0)
    {
      capacity, ch, done, dropped, compared := bufferSize, [], false, 0, [];
      this.workers := seq(if workers > 0 then workers else 0, _ => Select);
      late, accepted, started, executed := 0, [], [], [];
    }

    /** `Dispatch`: accepts exactly when some worker w is parked on the empty channel or there is room, and
        never blocks. */
    method Dispatch(t: Task, parked: bool, ghost w: nat) returns (sent: bool)
      requires parked ==> ch == [] && w < |workers| && workers[w] == Select
      modifies this
      ensures sent <==> parked || |old(ch)| < capacity
      ensures ch == if sent && !parked then old(ch) + [t] else old(ch)
      ensures accepted == (if sent then old(accepted) + [t] else old(accepted)) && dropped == old(dropped) + if sent then 0 else 1
      ensures var e := if !sent then Drop(t) else if parked then HandOff(t, w) else Accept(t);
              Enabled(old(View()), e) && View() == Apply(old(View()), e)
    {
      if parked {
        accepted, started := accepted + [t], started + [t];
        workers := workers[w := Executing(t, false)];
        late := late + if done then 1 else 0;
        return true;
      }
      sent := |ch| < capacity;
      if sent {
        ch := ch + [t];
        accepted := accepted + [t];
        late := late + if done then 1 else 0;
      } else {
        dropped := dropped + 1;
      }
    }

    /** `execute`: the comparison is recorded only if the challenger answers in time. */
    method Execute(ghost w: nat, t: Task, answered: bool)
      requires w < |workers| && workers[w].Executing? && workers[w].t == t
      modifies this
      ensures Enabled(old(View()), Finish(w, answered)) && View() == Apply(old(View()), Finish(w, answered))
      ensures executed == old(executed) + [t] && ch == old(ch) && accepted == old(accepted)
      ensures compared == if answered then old(compared) + [t] else old(compared)
      ensures workers == old(workers)[w := if old(workers)[w].draining then Draining else Select]
    {
      executed := executed + [t];
      workers := workers[w := if workers[w].draining then Draining else Select];
      if answered {
        compared := compared + [t];
      }
    }

    /** The receive of the drain loop: the oldest task. */
    method TakeOldest(ghost w: nat) returns (t: Task)
      requires w < |workers| && workers[w] == Draining && ch != []
      modifies this
      ensures Enabled(old(View()), DrainReceive(w)) && View() == Apply(old(View()), DrainReceive(w))
      ensures t == old(ch)[0] && ch == old(ch)[1..] && workers == old(workers)[w := Executing(t, true)]
      ensures accepted == old(accepted) && executed == old(executed) && compared == old(compared)
    {
      t := ch[0];
      ch := ch[1..];
      started := started + [t];
      workers := workers[w := Executing(t, true)];
    }

    /** One turn of the drain loop: take the oldest task and execute it. */
    method DrainOne(ghost w: nat, answered: bool) returns (ghost es: seq<Event>)
      requires w < |workers| && workers[w] == Draining && ch != []
      modifies this
      ensures es == [DrainReceive(w), Finish(w, answered)] && Run(old(View()), es) == Some(View())
      ensures ch == old(ch)[1..] && workers == old(workers) && accepted == old(accepted)
      ensures compared == if answered then old(compared) + [old(ch)[0]] else old(compared)
      ensures executed == old(executed) + [old(ch)[0]]
    {
      hide Enabled, Apply;
      ghost var s0, m := View(), View();
      NoEvents(s0);
      hide Run;
      var t := TakeOldest(w);
      es, m := Push(s0, [], s0, DrainReceive(w));
      Execute(w, t, answered);
      es, m := Push(s0, es, m, Finish(w, answered));
    }

    /** The drain loop of one worker, the others idle and the producers quiet: it runs every buffered
        task, in order, then exits. `answers(k)` says whether the challenger answers the k-th. */
    method DrainAndExit(ghost w: nat, answers: nat -> bool) returns (ghost es: seq<Event>)
      requires w < |workers| && workers[w] == Draining
      modifies this
      ensures Run(old(View()), es) == Some(View())
      ensures ch == [] && workers == old(workers)[w := Exited]
      ensures executed == old(executed) + old(ch) && accepted == old(accepted)
    {
      hide Enabled, Apply;
      ghost var s0 := View();
      es := [];
      var k := 0;
      while ch != []
        invariant Run(s0, es) == Some(View())
        invariant workers == old(workers) && accepted == old(accepted)
        invariant executed + ch == old(executed) + old(ch)
        decreases |ch|
      {
        ghost var was := executed + ch;
        ghost var one := DrainOne(w, answers(k));
        assert executed + ch == was;
        es := RunConcat(s0, es, one);
        k := k + 1;
      }
      ghost var leave := LeaveDrain(w);
      es := RunConcat(s0, es, leave);
    }

    /** The inner select finds the channel empty. */
    ghost method LeaveDrain(w: nat) returns (es: seq<Event>)
      requires w < |workers| && workers[w] == Draining && ch == []
      modifies this`workers
      ensures Run(old(View()), es) == Some(View()) && workers == old(workers)[w := Exited]
    {
      ghost var s0 := View();
      assert Run(s0, []) == Some(s0);
      hide Run;
      workers := workers[w := Exited];
      ghost var m;
      es, m := Push(s0, [], s0, DrainEmpty(w));
    }
  }

  lemma {:induction false} RunConcat(s: State, es: seq<Event>, es': seq<Event>) returns (all: seq<Event>)
    requires Run(s, es).Some? && Run(Run(s, es).value, es').Some?
    ensures all == es + es' && Run(s, all) == Run(Run(s, es).value, es')
    decreases es'
  {
    hide Enabled, Apply;
    all := es + es';
    if es' == [] {
      assert all == es;
    } else {
      var init := RunConcat(s, es, es'[..|es'|-1]);
      assert all[..|all|-1] == init;
    }
  }
}
