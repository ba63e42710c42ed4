/** From the 200 response to the table: the scoring handler's log goroutine
    (serving/internal/server/handlers.go), the prediction store, and the shutdown order of
    serving/cmd/server/main.go: HTTP server, Drain, store. */
module ServingShutdown {
  import opened Options
  import opened PredictionStore

  /** A request: in its handler; its 200 written but its log goroutine not yet counted by `logWg`;
      its goroutine running; or over, with or without a 200. */
  datatype Request =
    | Absent
    | Handling
    | Answered(r: Record)
    | Logging(r: Record)
    | Over

  /** How far main has come: Returned is the return of the store's Shutdown, Destroyed that of
      `runner.Destroy`. */
  datatype Main = Serving | HttpDown | Drained | Closing | Returned | Destroyed

  /** `clean` records whether `httpServer.Shutdown` returned without error. */
  datatype System = System(
    store: State,
    requests: map<nat, Request>,
    responses: set<Record>,
    main: Main,
    clean: bool)

  datatype Action =
    | Arrive(t: nat)
    | Refuse(t: nat)                 // any answer but 200
    | Answer(t: nat, r: Record)      // writeJSON(w, 200, ...)
    | Spawn(t: nat)                  // logWg.Add(1); go ...; the handler returns
    | LogRecord(t: nat, e: Event)    // store.Log, then logWg.Done
    | StoreWorks(e: Event)           // one step of the flusher
    | StopHttp(clean: bool)
    | Drain
    | CloseStore
    | Return
    | DestroyModel

  function At(s: System, t: nat): Request {
    if t in s.requests then s.requests[t] else Absent
  }

  function Boot(capacity: nat): System {
    System(PredictionStore.Init(capacity), map[], {}, Serving, true)
  }

  predicate FlusherEvent(e: Event) {
    e.Receive? || e.Tick? || e.SeeDone? || e.DrainReceive? || e.DrainEmpty? || e.Copy?
  }

  /** Log called with context.Background(): accepted, handed over, or dropped. */
  predicate LogEvent(e: Event, r: Record) {
    e == Accept(r) || e == HandOff(r) || e == Drop(r)
  }

  /** No handler is running. */
  predicate HandlersGone(s: System) {
    forall t :: t in s.requests ==> s.requests[t].Absent? || s.requests[t].Logging? || s.requests[t].Over?
  }

  /** `logWg` is zero. */
  predicate NoLogging(s: System) {
    forall t :: t in s.requests ==> !s.requests[t].Logging?
  }

  predicate Enabled(s: System, a: Action) {
    match a
    case Arrive(t) => At(s, t).Absent? && s.main.Serving?
    case Refuse(t) => At(s, t).Handling?
    // prediction ids are fresh UUIDs
    case Answer(t, r) => At(s, t).Handling? && forall q :: q in s.responses ==> q.id != r.id
    case Spawn(t) => At(s, t).Answered?
    case LogRecord(t, e) => At(s, t).Logging? && LogEvent(e, At(s, t).r) && PredictionStore.Enabled(s.store, e)
    case StoreWorks(e) => FlusherEvent(e) && PredictionStore.Enabled(s.store, e)
    case StopHttp(clean) => s.main.Serving? && (clean ==> HandlersGone(s))
    case Drain => s.main.HttpDown? && NoLogging(s)
    case CloseStore => s.main.Drained? && PredictionStore.Enabled(s.store, Close)
    case Return => s.main.Closing? && s.store.flusher.Exited?
    case DestroyModel => s.main.Returned?
  }

  function Put(s: System, t: nat, q: Request): System {
    s.(requests := s.requests[t := q])
  }

  function Apply(s: System, a: Action): System
    requires Enabled(s, a)
  {
    match a
    case Arrive(t) => Put(s, t, Handling)
    case Refuse(t) => Put(s, t, Over)
    case Answer(t, r) => Put(s, t, Answered(r)).(responses := s.responses + {r})
    case Spawn(t) => Put(s, t, Logging(At(s, t).r))
    case LogRecord(t, e) => Put(s, t, Over).(store := PredictionStore.Apply(s.store, e))
    case StoreWorks(e) => s.(store := PredictionStore.Apply(s.store, e))
    case StopHttp(clean) => s.(main := HttpDown, clean := clean)
    case Drain => s.(main := Drained)
    case CloseStore => s.(main := Closing, store := PredictionStore.Apply(s.store, Close))
    case Return => s.(main := Returned)
    case DestroyModel => s.(main := Destroyed)
  }

  function RunAll(s: System, actions: seq<Action>): Option<System> {
    if actions == [] then Some(s)
    else
      match RunAll(s, actions[..|actions|-1])
      case None => None
      case Some(m) => if Enabled(m, actions[|actions|-1]) then Some(Apply(m, actions[|actions|-1])) else None
  }

  // ---------- the invariant ----------

  function Pending(q: Request): Option<Record> {
    if q.Answered? || q.Logging? then Some(q.r) else None
  }

  /** Records the store has decided about, accepted first. */
  function Decided(st: State): seq<Record> {
    st.accepted + st.dropped
  }

  ghost predicate RequestInv(s: System, t: nat) {
    Pending(At(s, t)).Some? ==> Pending(At(s, t)).value in s.responses && Pending(At(s, t)).value !in Decided(s.store)
  }

  ghost predicate Apart(s: System, t: nat, u: nat) {
    t != u && Pending(At(s, t)).Some? ==> Pending(At(s, t)) != Pending(At(s, u))
  }

  ghost predicate Tracked(s: System, r: Record) {
    r in Decided(s.store) || exists t: nat :: Pending(At(s, t)) == Some(r)
  }

  ghost predicate Unique(rs: set<Record>) {
    forall p, q :: p in rs && q in rs && p.id == q.id ==> p == q
  }

  predicate Stopped(s: System) {
    s.main.Drained? || s.main.Closing? || StoreClosed(s)
  }

  /** The store's Shutdown has returned. */
  predicate StoreClosed(s: System) {
    s.main.Returned? || s.main.Destroyed?
  }

  /** The flusher has seen the channel empty for the last time. */
  predicate Leaving(f: Flusher) {
    f.Exited? || ((f.Flushing? || f.Retrying?) && f.next.Exit?)
  }

  ghost predicate Settled(s: System) {
    forall t: nat :: At(s, t).Absent? || At(s, t).Over?
  }

  /** The records decided are distinct answers. */
  ghost predicate RecordsInv(s: System) {
    && Unique(s.responses)
    && (forall r :: r in Decided(s.store) ==> r in s.responses)
    && Distinct(Decided(s.store))
  }

  /** How far main has come agrees with the store; a flusher that leaves after a clean stop leaves nothing. */
  ghost predicate MainInv(s: System) {
    && (s.store.done ==> s.main.Closing? || StoreClosed(s))
    && (StoreClosed(s) ==> s.store.flusher.Exited?)
    && (Leaving(s.store.flusher) && s.clean ==> s.store.ch == [])
  }

  /** And with the requests, after a clean stop. */
  ghost predicate StopInv(s: System) {
    && (!s.main.Serving? && s.clean ==> forall t: nat :: !At(s, t).Handling? && !At(s, t).Answered?)
    && (Stopped(s) && s.clean ==> Settled(s))
  }

  ghost predicate GlobalInv(s: System) {
    RecordsInv(s) && MainInv(s) && StopInv(s)
  }

  ghost predicate Inv(s: System) {
    && PredictionStore.Inv(s.store)
    && TableInv(s.store)
    && GlobalInv(s)
    && (forall t: nat :: RequestInv(s, t))
    && (forall t: nat, u: nat :: Apart(s, t, u))
    && (forall r :: r in s.responses ==> Tracked(s, r))
  }

  /** What a store event does to the records decided and to the flusher's last look. */
  lemma StoreStep(st: State, e: Event)
    requires PredictionStore.Enabled(st, e) && PredictionStore.Inv(st)
    ensures var st' := PredictionStore.Apply(st, e);
            && (FlusherEvent(e) || e.Close? ==> st'.accepted == st.accepted && st'.dropped == st.dropped)
            && (FlusherEvent(e) ==> st'.done == st.done)
            && (e.Accept? || e.HandOff? ==> st'.accepted == st.accepted + [e.r] && st'.dropped == st.dropped)
            && (e.Drop? ==> st'.accepted == st.accepted && st'.dropped == st.dropped + [e.r])
            && (e.Accept? || e.HandOff? || e.Drop? ==> st'.done == st.done && st'.flusher == st.flusher)
            && (FlusherEvent(e) && Leaving(st'.flusher) ==> st'.ch == [] || (Leaving(st.flusher) && st'.ch == st.ch))
            && (e.Close? ==> st'.flusher == st.flusher && st'.ch == st.ch)
            && (st.flusher.Exited? ==> st'.flusher.Exited?)
  {
  }

  lemma DecidedGrows(st: State, e: Event, r: Record)
    requires PredictionStore.Enabled(st, e) && LogEvent(e, r) && PredictionStore.Inv(st)
    requires Distinct(Decided(st)) && forall q :: q in Decided(st) ==> q.id != r.id
    ensures var d := Decided(PredictionStore.Apply(st, e));
            Distinct(d) && forall q :: q in d <==> q in Decided(st) || q == r
  {
    StoreStep(st, e);
    var st' := PredictionStore.Apply(st, e);
    var d := Decided(st');
    var k := if e.Drop? then |st.accepted| + |st.dropped| else |st.accepted|;
    assert d == Decided(st)[..k] + [r] + Decided(st)[k..];
    InsertDistinct(Decided(st), k, r);
  }

  lemma InsertDistinct(xs: seq<Record>, k: nat, r: Record)
    requires k <= |xs| && Distinct(xs) && forall q :: q in xs ==> q.id != r.id
    ensures Distinct(xs[..k] + [r] + xs[k..])
    ensures forall q :: q in xs[..k] + [r] + xs[k..] <==> q in xs || q == r
  {
    assert xs == xs[..k] + xs[k..];
  }

  lemma MovesOnlyItsRequest(s: System, a: Action, u: nat)
    requires Enabled(s, a)
    ensures a.StoreWorks? || a.StopHttp? || a.Drain? || a.CloseStore? || a.Return? || a.DestroyModel? || a.t != u ==> At(Apply(s, a), u) == At(s, u)
    ensures a.LogRecord? ==> At(Apply(s, a), a.t).Over?
    ensures a.Answer? ==> At(Apply(s, a), a.t) == Answered(a.r)
    ensures a.Spawn? ==> At(Apply(s, a), a.t) == Logging(At(s, a.t).r)
    ensures a.Arrive? ==> At(Apply(s, a), a.t) == Handling
    ensures a.Refuse? ==> At(Apply(s, a), a.t) == Over
  {
  }

  /** How an action changes the set of decided records. */
  lemma DecidedAfter(s: System, a: Action)
    requires Inv(s) && Enabled(s, a)
    ensures Distinct(Decided(Apply(s, a).store))
    ensures forall q :: q in Decided(Apply(s, a).store) <==>
              q in Decided(s.store) || (a.LogRecord? && q == At(s, a.t).r)
  {
    if a.LogRecord? {
      var r := At(s, a.t).r;
      assert RequestInv(s, a.t);
      DecidedGrows(s.store, a.e, r);
    } else if a.StoreWorks? {
      StoreStep(s.store, a.e);
    } else if a.CloseStore? {
      StoreStep(s.store, Close);
    }
  }

  lemma StepKeepsStore(s: System, a: Action)
    requires Inv(s) && Enabled(s, a)
    ensures PredictionStore.Inv(Apply(s, a).store) && TableInv(Apply(s, a).store)
  {
    AcceptedDistinct(s);
    if a.LogRecord? || a.StoreWorks? {
      PredictionStore.StepKeepsInv(s.store, a.e);
      StepKeepsTableInv(s.store, a.e);
    } else if a.CloseStore? {
      PredictionStore.StepKeepsInv(s.store, Close);
      StepKeepsTableInv(s.store, Close);
    }
  }

  lemma AcceptedDistinct(s: System)
    requires Inv(s)
    ensures Distinct(s.store.accepted)
  {
    DistinctAppend(s.store.accepted, s.store.dropped);
  }

  lemma StepKeepsRequest(s: System, a: Action, t: nat)
    requires Inv(s) && Enabled(s, a)
    ensures RequestInv(Apply(s, a), t)
  {
    DecidedAfter(s, a);
    MovesOnlyItsRequest(s, a, t);
    assert RequestInv(s, t);
    if a.LogRecord? { assert Apart(s, t, a.t); }
  }

  lemma StepKeepsApart(s: System, a: Action, t: nat, u: nat)
    requires Inv(s) && Enabled(s, a)
    ensures Apart(Apply(s, a), t, u)
  {
    MovesOnlyItsRequest(s, a, t);
    MovesOnlyItsRequest(s, a, u);
    assert RequestInv(s, t) && RequestInv(s, u) && Apart(s, t, u);
  }

  lemma StepKeepsTracked(s: System, a: Action, r: Record)
    requires Inv(s) && Enabled(s, a) && r in Apply(s, a).responses
    ensures Tracked(Apply(s, a), r)
  {
    var s' := Apply(s, a);
    DecidedAfter(s, a);
    if r !in s.responses {
      MovesOnlyItsRequest(s, a, a.t);
      assert Pending(At(s', a.t)) == Some(r);
    } else if r !in Decided(s.store) {
      assert Tracked(s, r);
      var t: nat :| Pending(At(s, t)) == Some(r);
      MovesOnlyItsRequest(s, a, t);
      assert Pending(At(s', t)) == Some(r) || (a.LogRecord? && a.t == t);
    }
  }

  lemma StepKeepsRecords(s: System, a: Action)
    requires Inv(s) && Enabled(s, a)
    ensures RecordsInv(Apply(s, a))
  {
    DecidedAfter(s, a);
    if a.LogRecord? { assert RequestInv(s, a.t); }
  }

  lemma StepKeepsMain(s: System, a: Action)
    requires PredictionStore.Inv(s.store) && MainInv(s) && StopInv(s) && Enabled(s, a)
    ensures MainInv(Apply(s, a))
  {
    if a.LogRecord? || a.StoreWorks? {
      StoreStep(s.store, a.e);
    }
    if a.CloseStore? { StoreStep(s.store, Close); }
    hide PredictionStore.Apply, PredictionStore.Enabled;
  }

  lemma StepKeepsStop(s: System, a: Action)
    requires StopInv(s) && Enabled(s, a)
    ensures StopInv(Apply(s, a))
  {
    var s' := Apply(s, a);
    if !s'.main.Serving? && s'.clean {
      forall t: nat ensures !At(s', t).Handling? && !At(s', t).Answered? {
        MovesOnlyItsRequest(s, a, t);
      }
    }
    if Stopped(s') && s'.clean {
      forall t: nat ensures At(s', t).Absent? || At(s', t).Over? {
        MovesOnlyItsRequest(s, a, t);
      }
    }
  }

  lemma StepKeepsInv(s: System, a: Action)
    requires Inv(s) && Enabled(s, a)
    ensures Inv(Apply(s, a))
  {
    var s' := Apply(s, a);
    StepKeepsStore(s, a);
    StepKeepsRecords(s, a);
    StepKeepsMain(s, a);
    StepKeepsStop(s, a);
    forall t: nat ensures RequestInv(s', t) { StepKeepsRequest(s, a, t); }
    forall t: nat, u: nat ensures Apart(s', t, u) { StepKeepsApart(s, a, t, u); }
    forall r | r in s'.responses ensures Tracked(s', r) { StepKeepsTracked(s, a, r); }
  }

  lemma {:induction false} ReachableInv(capacity: nat, actions: seq<Action>)
    requires RunAll(Boot(capacity), actions).Some?
    ensures Inv(RunAll(Boot(capacity), actions).value)
    decreases actions
  {
    if actions != [] {
      ReachableInv(capacity, actions[..|actions|-1]);
      StepKeepsInv(RunAll(Boot(capacity), actions[..|actions|-1]).value, actions[|actions|-1]);
    }
  }

  // ---------- main results ----------

  /** The records of batches whose flush reported success, and of those counted as failed. */
  function Delivered(fs: seq<Finished>): seq<Record> {
    if fs == [] then [] else Delivered(fs[..|fs|-1]) + if fs[|fs|-1].reported then fs[|fs|-1].batch else []
  }

  function Abandoned(fs: seq<Finished>): seq<Record> {
    if fs == [] then [] else Abandoned(fs[..|fs|-1]) + if fs[|fs|-1].reported then [] else fs[|fs|-1].batch
  }

  lemma {:induction false} HandledSplits(fs: seq<Finished>)
    ensures forall r :: r in Handled(fs) <==> r in Delivered(fs) || r in Abandoned(fs)
    decreases fs
  {
    if fs != [] { HandledSplits(fs[..|fs|-1]); }
  }

  lemma {:induction false} HandledOnce(fs: seq<Finished>, r: Record)
    requires Distinct(Handled(fs)) && r in Delivered(fs)
    ensures r !in Abandoned(fs)
    decreases fs
  {
    var init, last := fs[..|fs|-1], fs[|fs|-1].batch;
    DistinctAppend(Handled(init), last);
    HandledSplits(init);
    if r in Delivered(init) {
      HandledOnce(init, r);
      assert r.id in Ids(Handled(init));
      assert r in last ==> r.id in Ids(last);
    } else {
      assert r.id in Ids(last);
      assert r in Abandoned(init) ==> r.id in Ids(Handled(init));
    }
  }

  lemma {:induction false} DeliveredIsStored(fs: seq<Finished>, r: Record)
    requires (forall f :: f in fs ==> Verdict(f)) && r in Delivered(fs)
    ensures r in Stored(fs)
    decreases fs
  {
    var init := fs[..|fs|-1];
    assert fs[|fs|-1] in fs;
    if r in Delivered(init) { DeliveredIsStored(init, r); }
  }

  predicate ExactlyOne(a: bool, b: bool, c: bool) {
    (a && !b && !c) || (!a && b && !c) || (!a && !b && c)
  }

  /** The record is in exactly one place: a batch reported flushed, a batch counted as failed after its
      retry, or the records dropped because the buffer was full. */
  predicate AccountedFor(st: State, r: Record) {
    ExactlyOne(InReported(st.finished, r), InFailed(st.finished, r), r in st.dropped)
  }

  /** A batch with the record was flushed and its flush reported success. */
  predicate InReported(fs: seq<Finished>, r: Record) {
    exists i :: 0 <= i < |fs| && fs[i].reported && r in fs[i].batch
  }

  predicate InFailed(fs: seq<Finished>, r: Record) {
    exists i :: 0 <= i < |fs| && !fs[i].reported && r in fs[i].batch
  }

  lemma {:induction false} DeliveredExactly(fs: seq<Finished>, r: Record)
    ensures r in Delivered(fs) <==> InReported(fs, r)
    ensures r in Abandoned(fs) <==> InFailed(fs, r)
    decreases fs
  {
    if fs != [] {
      var init, last := fs[..|fs|-1], |fs| - 1;
      DeliveredExactly(init, r);
      assert forall i :: 0 <= i < last ==> fs[i] == init[i];
      assert InReported(fs, r) <==> InReported(init, r) || (fs[last].reported && r in fs[last].batch);
      assert InFailed(fs, r) <==> InFailed(init, r) || (!fs[last].reported && r in fs[last].batch);
    }
  }

  /** Once the flusher has left an empty channel and every request is over, no answer is unaccounted for. */
  lemma SettledIsAccountedFor(s: System, r: Record)
    requires Inv(s) && Settled(s) && s.store.flusher.Exited? && s.store.ch == [] && r in s.responses
    ensures AccountedFor(s.store, r) && (InReported(s.store.finished, r) ==> r in s.store.table)
  {
    var fs := s.store.finished;
    DeliveredExactly(fs, r);
    AcceptedDistinct(s);
    DistinctAppend(s.store.accepted, s.store.dropped);
    assert s.store.accepted == Handled(fs);
    HandledSplits(fs);
    assert forall t: nat :: Pending(At(s, t)).None?;
    assert Tracked(s, r);
    if r in Delivered(fs) {
      HandledOnce(fs, r);
      DeliveredIsStored(fs, r);
    }
    assert r in Handled(fs) ==> r.id in Ids(s.store.accepted);
    assert r in s.store.dropped ==> r.id in Ids(s.store.dropped);
  }

  /** If the HTTP server shut down without error, then once main has returned nothing is left in the
      channel or in the flusher's hand, and the record behind every 200 response is accounted for; if its
      batch was reported flushed, it is in the table. */
  lemma EveryResponseAccountedFor(capacity: nat, actions: seq<Action>, r: Record)
    requires RunAll(Boot(capacity), actions).Some?
    requires var s := RunAll(Boot(capacity), actions).value; StoreClosed(s) && s.clean && r in s.responses
    ensures var s := RunAll(Boot(capacity), actions).value;
            && s.store.ch == [] && s.store.batch == []
            && AccountedFor(s.store, r) && (InReported(s.store.finished, r) ==> r in s.store.table)
  {
    ReachableInv(capacity, actions);
    SettledIsAccountedFor(RunAll(Boot(capacity), actions).value, r);
  }

  // ---------- exactly when responses are lost ----------

  /** The run ends with main returned, its HTTP shutdown clean or not, and an answer unaccounted for. */
  ghost predicate Loses(capacity: nat, clean: bool, actions: seq<Action>) {
    var m := RunAll(Boot(capacity), actions);
    && m.Some? && StoreClosed(m.value) && m.value.clean == clean
    && exists r :: r in m.value.responses && !AccountedFor(m.value.store, r)
  }

  /** Likewise, though every handler and every log goroutine was given the time to end. */
  ghost predicate LosesSettled(capacity: nat, clean: bool, actions: seq<Action>) {
    Loses(capacity, clean, actions) && Settled(RunAll(Boot(capacity), actions).value)
  }

  /** Whatever the capacity, no shutdown loses an answer if and only if the HTTP shutdown is clean. */
  lemma ShutdownSafeExactly(capacity: nat, clean: bool)
    ensures (forall actions :: !Loses(capacity, clean, actions)) <==> clean
  {
    if clean {
      forall actions ensures !Loses(capacity, true, actions) {
        CleanNeverLoses(capacity, actions);
      }
    } else {
      var actions, m := AnsweredLate(capacity, Record(1, ""));
    }
  }

  lemma CleanNeverLoses(capacity: nat, actions: seq<Action>)
    ensures !Loses(capacity, true, actions)
  {
    if Loses(capacity, true, actions) {
      var s := RunAll(Boot(capacity), actions).value;
      var r :| r in s.responses && !AccountedFor(s.store, r);
      EveryResponseAccountedFor(capacity, actions, r);
    }
  }

  /** Waiting for the log goroutines would not help: even then no shutdown loses an answer if and only if
      the HTTP shutdown is clean or the channel can hold nothing. */
  lemma SettledShutdownSafeExactly(capacity: nat, clean: bool)
    ensures (forall actions :: !LosesSettled(capacity, clean, actions)) <==> clean || capacity == 0
  {
    if clean || capacity == 0 {
      forall actions ensures !LosesSettled(capacity, clean, actions) {
        SettledNeverLoses(capacity, clean, actions);
      }
    } else {
      var actions, m := LateHandlerIsLost(capacity, Record(1, ""));
    }
  }

  lemma SettledNeverLoses(capacity: nat, clean: bool, actions: seq<Action>)
    requires clean || capacity == 0
    ensures !LosesSettled(capacity, clean, actions)
  {
    if LosesSettled(capacity, clean, actions) {
      var s := RunAll(Boot(capacity), actions).value;
      var r :| r in s.responses && !AccountedFor(s.store, r);
      ReachableInv(capacity, actions);
      CapacityStays(capacity, actions);
      SettledIsAccountedFor(s, r);
    }
  }

  lemma StepKeepsCapacity(s: System, a: Action)
    requires Enabled(s, a)
    ensures Apply(s, a).store.capacity == s.store.capacity
  {
    if a.LogRecord? || a.StoreWorks? {
      StepGrows(s.store, a.e);
    }
  }

  lemma {:induction false} CapacityStays(capacity: nat, actions: seq<Action>)
    requires RunAll(Boot(capacity), actions).Some?
    ensures RunAll(Boot(capacity), actions).value.store.capacity == capacity
    decreases actions
  {
    if actions != [] {
      CapacityStays(capacity, actions[..|actions|-1]);
      StepKeepsCapacity(RunAll(Boot(capacity), actions[..|actions|-1]).value, actions[|actions|-1]);
    }
    hide Apply, Enabled;
  }

  // ---------- exactly when the model outlives its users ----------

  /** A handler still scores or names a version, or will start a log goroutine, which names one too. */
  predicate MayUseModel(q: Request) {
    q.Handling? || q.Answered? || q.Logging?
  }

  /** The run destroys the model while a request may still use it. */
  ghost predicate UsesDestroyedModel(capacity: nat, clean: bool, actions: seq<Action>) {
    var m := RunAll(Boot(capacity), actions);
    m.Some? && m.value.main.Destroyed? && m.value.clean == clean && exists t: nat :: MayUseModel(At(m.value, t))
  }

  /** After `runner.Destroy` no handler and no log goroutine can reach for the model, in any run, if and only
      if the HTTP shutdown is clean. */
  lemma ModelSafeExactly(capacity: nat, clean: bool)
    ensures (forall actions :: !UsesDestroyedModel(capacity, clean, actions)) <==> clean
  {
    if clean {
      forall actions ensures !UsesDestroyedModel(capacity, true, actions) {
        CleanNeverUses(capacity, actions);
      }
    } else {
      var actions, m := ModelDestroyedInHandler(capacity);
    }
  }

  lemma CleanNeverUses(capacity: nat, actions: seq<Action>)
    ensures !UsesDestroyedModel(capacity, true, actions)
  {
    if UsesDestroyedModel(capacity, true, actions) {
      ReachableInv(capacity, actions);
    }
  }

  /** For every store: the model is destroyed while a handler is running. */
  lemma ModelDestroyedInHandler(capacity: nat) returns (actions: seq<Action>, m: System)
    ensures RunAll(Boot(capacity), actions) == Some(m) && UsesDestroyedModel(capacity, false, actions)
  {
    actions, m := DestroyWithHandlerRunning(capacity);
    assert MayUseModel(At(m, 1));
  }

  lemma DestroyWithHandlerRunning(capacity: nat) returns (actions: seq<Action>, m: System)
    ensures RunAll(Boot(capacity), actions) == Some(m) && m.main.Destroyed? && !m.clean && At(m, 1).Handling?
  {
    hide RunAll;
    var s := Boot(capacity);
    actions, m := FlusherLeaves(capacity);
    actions, m := Push(s, actions, m, Return);
    actions, m := Push(s, actions, m, DestroyModel);
  }

  lemma Push(s: System, actions: seq<Action>, m: System, a: Action) returns (actions': seq<Action>, m': System)
    requires RunAll(s, actions) == Some(m) && Enabled(m, a)
    ensures actions' == actions + [a] && m' == Apply(m, a) && RunAll(s, actions') == Some(m')
  {
    hide Enabled, Apply;
    actions', m' := actions + [a], Apply(m, a);
    assert (actions + [a])[..|actions|] == actions;
  }

  /** The HTTP shutdown fails while request 1 is in its handler. */
  lemma HttpStopsWithHandlerRunning(capacity: nat) returns (actions: seq<Action>, m: System)
    ensures RunAll(Boot(capacity), actions) == Some(m)
    ensures m == System(PredictionStore.Init(capacity), map[1 := Handling], {}, HttpDown, false)
  {
    var s := Boot(capacity);
    assert RunAll(s, []) == Some(s);
    hide RunAll;
    actions, m := Push(s, [], s, Arrive(1));
    actions, m := Push(s, actions, m, StopHttp(false));
  }

  /** The store is closed anyway. */
  lemma CloseWithHandlerRunning(capacity: nat) returns (actions: seq<Action>, m: System)
    ensures RunAll(Boot(capacity), actions) == Some(m) && At(m, 1).Handling? && m.main.Closing? && !m.clean && m.responses == {}
    ensures m.requests.Keys == {1} && m.store == PredictionStore.Apply(PredictionStore.Init(capacity), Close)
  {
    hide RunAll;
    var s := Boot(capacity);
    actions, m := HttpStopsWithHandlerRunning(capacity);
    actions, m := Push(s, actions, m, Drain);
    actions, m := Push(s, actions, m, CloseStore);
  }

  /** The flusher leaves. */
  lemma FlusherLeaves(capacity: nat) returns (actions: seq<Action>, m: System)
    ensures RunAll(Boot(capacity), actions) == Some(m) && m.main.Closing? && !m.clean && m.responses == {}
    ensures m.requests.Keys == {1} && At(m, 1).Handling?
    ensures m.store.flusher.Exited? && m.store.ch == [] && m.store.finished == [] && m.store.dropped == [] && m.store.capacity == capacity
  {
    hide RunAll;
    var s := Boot(capacity);
    actions, m := CloseWithHandlerRunning(capacity);
    actions, m := Push(s, actions, m, StoreWorks(SeeDone));
    actions, m := Push(s, actions, m, StoreWorks(DrainEmpty));
  }

  /** And only then does the handler answer. */
  lemma AnswerWithoutFlusher(capacity: nat, r: Record) returns (actions: seq<Action>, m: System)
    ensures RunAll(Boot(capacity), actions) == Some(m) && m.main.Closing? && !m.clean && m.responses == {r}
    ensures m.requests.Keys == {1} && At(m, 1) == Answered(r)
    ensures m.store.flusher.Exited? && m.store.ch == [] && m.store.finished == [] && m.store.dropped == [] && m.store.capacity == capacity
  {
    hide RunAll;
    actions, m := FlusherLeaves(capacity);
    actions, m := Push(Boot(capacity), actions, m, Answer(1, r));
  }

  /** Main returns before the record was logged at all. */
  lemma AnsweredLate(capacity: nat, r: Record) returns (actions: seq<Action>, m: System)
    ensures RunAll(Boot(capacity), actions) == Some(m) && Loses(capacity, false, actions)
  {
    var s := Boot(capacity);
    actions, m := AnswerWithoutFlusher(capacity, r);
    actions, m := Push(s, actions, m, Return);
    assert r in m.responses && !AccountedFor(m.store, r);
  }

  /** Or the record is logged, into a channel whose flusher has gone: it is in no batch and was not
      dropped. So for every store with a buffer and every record. */
  lemma LateHandlerIsLost(capacity: nat, r: Record) returns (actions: seq<Action>, m: System)
    requires capacity >= 1
    ensures RunAll(Boot(capacity), actions) == Some(m) && LosesSettled(capacity, false, actions)
    ensures r in m.responses && m.store.ch == [r] && m.store.finished == [] && m.store.dropped == []
  {
    actions, m := LogWithoutFlusher(capacity, r);
    assert r in m.responses && !AccountedFor(m.store, r);
  }

  lemma LogWithoutFlusher(capacity: nat, r: Record) returns (actions: seq<Action>, m: System)
    requires capacity >= 1
    ensures RunAll(Boot(capacity), actions) == Some(m) && m.main.Returned? && !m.clean && m.responses == {r} && Settled(m)
    ensures m.store.ch == [r] && m.store.finished == [] && m.store.dropped == []
  {
    hide RunAll;
    var s := Boot(capacity);
    actions, m := AnswerWithoutFlusher(capacity, r);
    actions, m := Push(s, actions, m, Spawn(1));
    actions, m := Push(s, actions, m, LogRecord(1, Accept(r)));
    actions, m := Push(s, actions, m, Return);
  }

  // ---------- the handler ----------

  /** A request that is refused, uninterrupted. */
  lemma RefuseRun(s: System, t: nat) returns (actions: seq<Action>, m: System)
    requires s.main.Serving? && At(s, t).Absent?
    ensures actions == [Arrive(t), Refuse(t)]
    ensures RunAll(s, actions) == Some(m) && At(m, t).Over? && m.responses == s.responses
  {
    assert RunAll(s, []) == Some(s);
    hide RunAll;
    actions, m := Push(s, [], s, Arrive(t));
    actions, m := Push(s, actions, m, Refuse(t));
  }

  /** A request that is answered, uninterrupted, up to the start of its log goroutine. */
  lemma AnswerRun(s: System, t: nat, r: Record) returns (actions: seq<Action>, m: System)
    requires s.main.Serving? && At(s, t).Absent? && forall q :: q in s.responses ==> q.id != r.id
    ensures actions == [Arrive(t), Answer(t, r), Spawn(t)]
    ensures RunAll(s, actions) == Some(m) && At(m, t) == Logging(r) && m.responses == s.responses + {r}
  {
    assert RunAll(s, []) == Some(s);
    hide RunAll;
    actions, m := Push(s, [], s, Arrive(t));
    actions, m := Push(s, actions, m, Answer(t, r));
    actions, m := Push(s, actions, m, Spawn(t));
  }

  datatype Lookup = NotFound | LookupError | Found

  datatype Inference = InferenceError | NonFinite | Finite(probability: real)

  const OK := 200

  /** `system` is the machine above as the handler's calls move it. */
  class Handler {
    const threshold: real
    var responses: seq<Record>
    var logging: seq<Record>   // goroutines counted by logWg
    ghost var system: System

    constructor (threshold: real, capacity: nat)
      ensures this.threshold == threshold && responses == [] && logging == [] && system == Boot(capacity)
    {
      this.threshold, responses, logging, system := threshold, [], [], Boot(capacity);
    }

    /** `Handler.Score`, its steps in order. It answers 200 exactly when the body names a non-zero
        transaction, its features are found and inference gives a finite probability; then, and only
        then, it starts one log goroutine, for the very record it answered. */
    method Score(transaction: Option<int>, lookup: Lookup, inference: Inference, r: Record, ghost t: nat)
      returns (status: nat, flagged: bool, ghost actions: seq<Action>)
      requires system.main.Serving? && At(system, t).Absent? && forall q :: q in system.responses ==> q.id != r.id
      modifies this
      ensures RunAll(old(system), actions) == Some(system)
      ensures actions == if status == 200 then [Arrive(t), Answer(t, r), Spawn(t)] else [Arrive(t), Refuse(t)]
      ensures At(system, t) == if status == 200 then Logging(r) else Over
      ensures system.responses == old(system).responses + if status == 200 then {r} else {}
      ensures status == 200 <==> transaction.Some? && transaction.value != 0 && lookup.Found? && inference.Finite?
      ensures status == 400 <==> transaction.None? || transaction.value == 0
      ensures status == 404 <==> transaction.Some? && transaction.value != 0 && lookup.NotFound?
      ensures status in {200, 400, 404, 500}
      ensures status == 200 ==> (flagged <==> inference.probability >= threshold)
      ensures responses == (if status == 200 then old(responses) + [r] else old(responses))
      ensures logging == (if status == 200 then old(logging) + [r] else old(logging))
    {
      flagged := false;
      ghost var refused;
      actions, refused := RefuseRun(system, t);
      if transaction.None? || transaction.value == 0 {
        system := refused;
        return 400, flagged, actions;
      }
      if lookup.NotFound? {
        system := refused;
        return 404, flagged, actions;
      }
      if lookup.LookupError? {
        system := refused;
        return 500, flagged, actions;
      }
      if inference.InferenceError? {
        system := refused;
        return 500, flagged, actions;
      }
      if inference.NonFinite? {
        system := refused;
        return 500, flagged, actions;
      }
      flagged := inference.probability >= threshold;
      responses := responses + [r];
      logging := logging + [r];
      actions, system := AnswerRun(system, t, r);
      status := OK;
    }
  }
}
