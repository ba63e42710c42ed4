/** Replacing the served model under a read-write lock: serving/internal/model/runner.go, with the
    three model reads a scoring request makes in serving/internal/server/handlers.go.
    Any number of threads score, read the version and reload, in any interleaving. */
module HotSwap {
  import opened Options

  datatype Runner = Runner(session: nat, version: string, features: seq<string>)

  /** What the feature sampler answers; Disabled is a nil sampler. */
  datatype Sample = Disabled | Unavailable | Names(names: set<string>)

  predicate Accepts(sample: Sample, features: seq<string>) {
    match sample
    case Disabled => true
    case Unavailable => false
    case Names(ns) => forall f :: f in features ==> f in ns
  }

  /** A reload: NewRunner has created a session (Created), probed it with zeros (Probed), the sample
      has the features (Validated), the write lock is held (Swapping), `s.r` is replaced (Swapped),
      the lock is released but `old.Destroy()` is still to come (Retiring). */
  datatype Stage = Created | Probed | Validated | Swapping | Swapped | Retiring

  /** Where a thread is. A request reads the model up to three times, each under the read lock: to
      score, to name a version in its response, to name one in its log record; `seen` are the
      positions, in the history of installed runners, of the runners it saw. A reload carries the
      runner whose session it answers for: its candidate, and from Swapped on the superseded one. */
  datatype Thread =
    | Idle
    | Request(seen: seq<nat>)   // no lock held
    | Waiting(seen: seq<nat>)   // read lock held, model not yet read
    | Read(seen: seq<nat>)      // read lock held, model read
    | Reload(stage: Stage, runner: Runner)

  datatype State = State(
    cur: Runner,
    closed: bool,
    readers: set<nat>,
    writer: Option<nat>,
    threads: map<nat, Thread>,
    live: set<nat>,
    destroyed: multiset<nat>,
    next: nat,
    history: seq<Runner>)

  datatype Event =
    | Begin(t: nat)
    | RLock(t: nat)
    | ReadModel(t: nat)
    | RUnlock(t: nat)
    | Finish(t: nat)
    | Create(t: nat, version: string, features: seq<string>)
    | Probe(t: nat, accepted: bool)
    | CheckSample(t: nat, sample: Sample)
    | Lock(t: nat)
    | Install(t: nat)
    | Unlock(t: nat)
    | Retire(t: nat)
    | Shutdown

  const MAX_READS := 3

  function At(s: State, t: nat): Thread {
    if t in s.threads then s.threads[t] else Idle
  }

  function Init(version: string, features: seq<string>): State {
    var r := Runner(0, version, features);
    State(r, false, {}, None, map[], {0}, multiset{}, 1, [r])
  }

  predicate InStage(th: Thread, stage: Stage) {
    th.Reload? && th.stage == stage
  }

  predicate EnabledAt(s: State, e: Event, th: Thread)
    requires !e.Shutdown?
  {
    match e
    case Begin(_) => th.Idle? && !s.closed
    case RLock(_) => th.Request? && |th.seen| < MAX_READS && s.writer.None? && !s.closed
    case ReadModel(_) => th.Waiting?
    case RUnlock(_) => th.Read?
    case Finish(_) => th.Request?
    case Create(_, _, _) => th.Idle? && !s.closed
    case Probe(_, _) => InStage(th, Created)
    case CheckSample(_, _) => InStage(th, Probed)
    case Lock(_) => InStage(th, Validated) && s.writer.None? && s.readers == {}
    case Install(_) => InStage(th, Swapping)
    case Unlock(_) => InStage(th, Swapped)
    case Retire(_) => InStage(th, Retiring)
  }

  /** `Swappable.Destroy` runs after the HTTP server has stopped: no request or reload is active. */
  predicate Enabled(s: State, e: Event) {
    if e.Shutdown? then !s.closed && forall t :: t in s.threads ==> s.threads[t].Idle?
    else EnabledAt(s, e, At(s, e.t))
  }

  /** The index of the runner in service. */
  function Latest(s: State): nat {
    if s.history == [] then 0 else |s.history| - 1
  }

  /** Where the event leaves its thread. */
  function Target(s: State, e: Event, th: Thread): Thread
    requires !e.Shutdown? && EnabledAt(s, e, th)
  {
    match e
    case Begin(_) => Request([])
    case RLock(_) => Waiting(th.seen)
    case ReadModel(_) => Read(th.seen + [Latest(s)])
    case RUnlock(_) => Request(th.seen)
    case Finish(_) => Idle
    case Create(_, version, features) => Reload(Created, Runner(s.next, version, features))
    case Probe(_, accepted) => if accepted then Reload(Probed, th.runner) else Idle
    case CheckSample(_, sample) => if Accepts(sample, th.runner.features) then Reload(Validated, th.runner) else Idle
    case Lock(_) => Reload(Swapping, th.runner)
    case Install(_) => Reload(Swapped, s.cur)
    case Unlock(_) => Reload(Retiring, th.runner)
    case Retire(_) => Idle
  }

  /** The session an event destroys. */
  function Destroys(s: State, e: Event): Option<nat> {
    if e.Shutdown? then Some(s.cur.session)
    else
      var th := At(s, e.t);
      if !th.Reload? then None
      else if (e.Probe? && !e.accepted) || (e.CheckSample? && !Accepts(e.sample, th.runner.features)) || e.Retire?
      then Some(th.runner.session) else None
  }

  /** The session an event runs inference on: scoring is a request's first read of the model. */
  function Uses(s: State, e: Event): Option<nat> {
    match e
    case ReadModel(t) => if At(s, t).Waiting? && At(s, t).seen == [] then Some(s.cur.session) else None
    case Probe(t, _) => if At(s, t).Reload? then Some(At(s, t).runner.session) else None
    case _ => None
  }

  function Apply(s: State, e: Event): State
    requires Enabled(s, e)
  {
    var d := Destroys(s, e);
    var live := (if d.Some? then s.live - {d.value} else s.live) + (if e.Create? then {s.next} else {});
    var destroyed := if d.Some? then s.destroyed + multiset{d.value} else s.destroyed;
    if e.Shutdown? then State(s.cur, true, s.readers, s.writer, s.threads, live, destroyed, s.next, s.history)
    else
      var th := At(s, e.t);
      State(if e.Install? then th.runner else s.cur,
            s.closed,
            if e.RLock? then s.readers + {e.t} else if e.RUnlock? then s.readers - {e.t} else s.readers,
            if e.Lock? then Some(e.t) else if e.Unlock? then None else s.writer,
            s.threads[e.t := Target(s, e, th)],
            live,
            destroyed,
            if e.Create? then s.next + 1 else s.next,
            if e.Install? then s.history + [th.runner] else s.history)
  }

  /** The state after the events, if each was enabled in its turn. */
  function Run(s: State, es: seq<Event>): Option<State> {
    if es == [] then Some(s)
    else
      match Run(s, es[..|es|-1])
      case None => None
      case Some(m) => if Enabled(m, es[|es|-1]) then Some(Apply(m, es[|es|-1])) else None
  }

  // ---------- the invariant ----------

  /** The session a thread must destroy or install. */
  function Holds(th: Thread): Option<nat> {
    if th.Reload? then Some(th.runner.session) else None
  }

  predicate Reading(th: Thread) {
    th.Waiting? || th.Read?
  }

  predicate Writing(th: Thread) {
    InStage(th, Swapping) || InStage(th, Swapped)
  }

  /** What holds of one thread: its locks, the session it holds, the indices it has read. */
  ghost predicate ThreadInv(s: State, t: nat) {
    && LocksInv(s, t)
    && HoldsInv(s, t)
    && SeenInv(s, t)
  }

  ghost predicate LocksInv(s: State, t: nat) {
    var th := At(s, t);
    && (t in s.readers <==> Reading(th))
    && (s.writer == Some(t) <==> Writing(th))
    && (s.closed ==> th.Idle?)
  }

  ghost predicate HoldsInv(s: State, t: nat) {
    var th := At(s, t);
    Holds(th).Some? ==> Holds(th).value in s.live && Holds(th).value != s.cur.session
  }

  ghost predicate SeenInv(s: State, t: nat) {
    var th := At(s, t);
    && (th.Request? || Reading(th) ==> Increasing(th.seen, |s.history|) && |th.seen| <= MAX_READS)
    && (th.Waiting? ==> |th.seen| < MAX_READS)
    && (th.Read? ==> th.seen != [] && th.seen[|th.seen|-1] == Latest(s))
  }

  ghost predicate Increasing(xs: seq<nat>, bound: nat) {
    forall a, b :: 0 <= a <= b < |xs| ==> xs[a] <= xs[b] < bound
  }

  ghost predicate Apart(s: State, t: nat, u: nat) {
    t != u && Holds(At(s, t)).Some? ==> Holds(At(s, t)) != Holds(At(s, u))
  }

  ghost predicate Held(s: State, x: nat) {
    exists t: nat :: Holds(At(s, t)) == Some(x)
  }

  ghost predicate GlobalInv(s: State) {
    && (s.writer.Some? ==> s.readers == {})
    && (s.cur.session in s.live <==> !s.closed)
    && (forall x :: x in s.live ==> x < s.next)
    && (forall x: nat :: s.destroyed[x] == if x < s.next && x !in s.live then 1 else 0)
    && s.history != [] && s.history[|s.history|-1] == s.cur
  }

  ghost predicate Inv(s: State) {
    && GlobalInv(s)
    && (forall t: nat :: ThreadInv(s, t))
    && (forall t: nat, u: nat :: Apart(s, t, u))
    && (forall x :: x in s.live && x != s.cur.session ==> Held(s, x))
  }

  lemma MovesOnlyItsThread(s: State, e: Event, u: nat)
    requires Enabled(s, e)
    ensures At(Apply(s, e), u) == if !e.Shutdown? && e.t == u then Target(s, e, At(s, u)) else At(s, u)
  {
  }

  lemma DestroysLive(s: State, e: Event)
    requires GlobalInv(s) && Enabled(s, e) && (!e.Shutdown? ==> ThreadInv(s, e.t))
    ensures Destroys(s, e).Some? ==> Destroys(s, e).value in s.live
  {
  }

  lemma StepKeepsGlobal(s: State, e: Event)
    requires GlobalInv(s) && Enabled(s, e) && (!e.Shutdown? ==> ThreadInv(s, e.t))
    ensures GlobalInv(Apply(s, e))
  {
    DestroysLive(s, e);
  }

  lemma StepKeepsLocks(s: State, e: Event, u: nat)
    requires GlobalInv(s) && Enabled(s, e) && LocksInv(s, u)
    requires !e.Shutdown? ==> LocksInv(s, e.t)
    ensures LocksInv(Apply(s, e), u)
  {
    MovesOnlyItsThread(s, e, u);
  }

  lemma StepKeepsHolds(s: State, e: Event, u: nat)
    requires GlobalInv(s) && Enabled(s, e) && LocksInv(s, u) && HoldsInv(s, u)
    requires !e.Shutdown? ==> HoldsInv(s, e.t) && Apart(s, e.t, u) && Apart(s, u, e.t)
    ensures HoldsInv(Apply(s, e), u)
  {
    MovesOnlyItsThread(s, e, u);
  }

  lemma StepKeepsSeen(s: State, e: Event, u: nat)
    requires GlobalInv(s) && Enabled(s, e) && LocksInv(s, u) && SeenInv(s, u)
    requires !e.Shutdown? ==> LocksInv(s, e.t)
    ensures SeenInv(Apply(s, e), u)
  {
    MovesOnlyItsThread(s, e, u);
  }

  lemma StepKeepsThread(s: State, e: Event, u: nat)
    requires GlobalInv(s) && Enabled(s, e) && ThreadInv(s, u)
    requires !e.Shutdown? ==> ThreadInv(s, e.t) && Apart(s, e.t, u) && Apart(s, u, e.t)
    ensures ThreadInv(Apply(s, e), u)
  {
    hide Enabled, Apply, GlobalInv, LocksInv, HoldsInv, SeenInv;
    StepKeepsLocks(s, e, u);
    StepKeepsHolds(s, e, u);
    StepKeepsSeen(s, e, u);
  }

  lemma StepKeepsApart(s: State, e: Event, t: nat, u: nat)
    requires GlobalInv(s) && Enabled(s, e) && ThreadInv(s, t) && ThreadInv(s, u) && Apart(s, t, u) && Apart(s, u, t)
    ensures Apart(Apply(s, e), t, u)
  {
    MovesOnlyItsThread(s, e, t);
    MovesOnlyItsThread(s, e, u);
  }

  lemma StepKeepsHeld(s: State, e: Event, x: nat)
    requires Inv(s) && Enabled(s, e) && x in Apply(s, e).live && x != Apply(s, e).cur.session
    ensures Held(Apply(s, e), x)
  {
    var s' := Apply(s, e);
    if x in s.live && x != s.cur.session {
      var t: nat :| Holds(At(s, t)) == Some(x);
      MovesOnlyItsThread(s, e, t);
      assert Holds(At(s', t)) == Some(x);
    } else {
      MovesOnlyItsThread(s, e, e.t);
      assert Holds(At(s', e.t)) == Some(x);
    }
  }

  lemma StepKeepsInv(s: State, e: Event)
    requires Inv(s) && Enabled(s, e)
    ensures Inv(Apply(s, e))
  {
    var s' := Apply(s, e);
    StepKeepsGlobal(s, e);
    forall t: nat ensures ThreadInv(s', t) {
      StepKeepsThread(s, e, t);
    }
    forall t: nat, u: nat ensures Apart(s', t, u) {
      StepKeepsApart(s, e, t, u);
    }
    forall x | x in s'.live && x != s'.cur.session ensures Held(s', x) {
      StepKeepsHeld(s, e, x);
    }
  }

  lemma {:induction false} RunKeepsInv(s: State, es: seq<Event>)
    requires Inv(s) && Run(s, es).Some?
    ensures Inv(Run(s, es).value)
    decreases es
  {
    if es != [] {
      RunKeepsInv(s, es[..|es|-1]);
      StepKeepsInv(Run(s, es[..|es|-1]).value, es[|es|-1]);
    }
  }

  lemma ReachableInv(version: string, features: seq<string>, es: seq<Event>)
    requires Run(Init(version, features), es).Some?
    ensures Inv(Run(Init(version, features), es).value)
  {
    InitInv(version, features);
    hide Inv, Init, Run;
    RunKeepsInv(Init(version, features), es);
  }

  lemma InitInv(version: string, features: seq<string>)
    ensures Inv(Init(version, features))
  {
  }

  // ---------- main results: sessions ----------

  /** In every reachable state, inference runs only on a live session, only a live session is
      destroyed, and no session is ever destroyed twice. A request's inference is on the session of the
      runner installed last, a probe's on its own candidate's. */
  lemma NoUseAfterDestroy(version: string, features: seq<string>, es: seq<Event>, e: Event)
    requires Run(Init(version, features), es).Some? && Enabled(Run(Init(version, features), es).value, e)
    ensures var s := Run(Init(version, features), es).value;
            && (Uses(s, e).Some? ==> Uses(s, e).value in s.live && s.destroyed[Uses(s, e).value] == 0)
            && (Destroys(s, e).Some? ==> Destroys(s, e).value in s.live && s.destroyed[Destroys(s, e).value] == 0)
            && (forall x: nat :: Apply(s, e).destroyed[x] <= 1)
            && s.history != []
            && (e.ReadModel? && At(s, e.t).seen == [] ==> Uses(s, e) == Some(s.history[|s.history|-1].session))
            && (e.Probe? ==> Uses(s, e) == Some(At(s, e.t).runner.session))
  {
    hide Run, Init, Inv, Enabled, Apply, Uses, Destroys;
    ReachableInv(version, features, es);
    UsesTheRightSession(Run(Init(version, features), es).value, e);
    DestroysOnce(Run(Init(version, features), es).value, e);
  }

  lemma UsesTheRightSession(s: State, e: Event)
    requires Inv(s) && Enabled(s, e)
    ensures s.history != [] && (Uses(s, e).Some? ==> Uses(s, e).value in s.live && s.destroyed[Uses(s, e).value] == 0)
    ensures e.ReadModel? && At(s, e.t).seen == [] ==> Uses(s, e) == Some(s.history[|s.history|-1].session)
    ensures e.Probe? ==> Uses(s, e) == Some(At(s, e.t).runner.session)
  {
    if !e.Shutdown? { assert ThreadInv(s, e.t); }
  }

  lemma DestroysOnce(s: State, e: Event)
    requires Inv(s) && Enabled(s, e)
    ensures Destroys(s, e).Some? ==> Destroys(s, e).value in s.live && s.destroyed[Destroys(s, e).value] == 0
    ensures forall x: nat :: Apply(s, e).destroyed[x] <= 1
  {
    if !e.Shutdown? { assert ThreadInv(s, e.t); }
    DestroysLive(s, e);
    StepKeepsGlobal(s, e);
    hide Apply;
  }

  /** The live sessions are exactly: the current runner's, until shutdown, and those of
      candidates under validation and superseded runners not yet destroyed, one thread each. */
  lemma LiveSessionsExactly(version: string, features: seq<string>, es: seq<Event>, x: nat)
    requires Run(Init(version, features), es).Some?
    ensures var s := Run(Init(version, features), es).value;
            && (x in s.live <==> (x == s.cur.session && !s.closed) || exists t: nat :: Holds(At(s, t)) == Some(x))
            && (forall t: nat, u: nat :: Holds(At(s, t)) == Some(x) && Holds(At(s, u)) == Some(x) ==> t == u)
  {
    ReachableInv(version, features, es);
    var s := Run(Init(version, features), es).value;
    forall t: nat | Holds(At(s, t)) == Some(x) ensures x in s.live {
      assert ThreadInv(s, t);
    }
    forall t: nat, u: nat | Holds(At(s, t)) == Some(x) && Holds(At(s, u)) == Some(x) ensures t == u {
      assert Apart(s, t, u);
    }
  }

  /** Once `Swappable.Destroy` has run, every session ever created has been destroyed exactly once. */
  lemma NothingLeaksAtShutdown(version: string, features: seq<string>, es: seq<Event>)
    requires Run(Init(version, features), es).Some? && Run(Init(version, features), es).value.closed
    ensures var s := Run(Init(version, features), es).value;
            s.live == {} && forall x: nat :: x < s.next ==> s.destroyed[x] == 1
  {
    ReachableInv(version, features, es);
    var s := Run(Init(version, features), es).value;
    forall t: nat ensures Holds(At(s, t)).None? {
      assert ThreadInv(s, t);
    }
    assert forall x: nat :: !Held(s, x);
    assert s.live == {};
  }

  /** The write lock excludes scoring: while a reloader may replace `s.r`, no thread is inside
      Score or ModelVersion, and at most one reloader holds it. */
  lemma ReadersAndWriterExclude(version: string, features: seq<string>, es: seq<Event>, t: nat, u: nat)
    requires Run(Init(version, features), es).Some?
    ensures var s := Run(Init(version, features), es).value;
            Writing(At(s, t)) ==> !Reading(At(s, u)) && (Writing(At(s, u)) ==> t == u)
  {
    ReachableInv(version, features, es);
    var s := Run(Init(version, features), es).value;
    assert ThreadInv(s, t) && ThreadInv(s, u);
  }

  /** From the moment a thread reads the model until it releases the read lock, the runner it read is
      still the one in service, and its session is live: inference never overlaps a destroy. */
  lemma ReadRunnerStaysInService(version: string, features: seq<string>, es: seq<Event>, t: nat)
    requires Run(Init(version, features), es).Some? && At(Run(Init(version, features), es).value, t).Read?
    ensures var s := Run(Init(version, features), es).value;
            var seen := At(s, t).seen;
            && seen != [] && seen[|seen|-1] < |s.history|
            && s.history[seen[|seen|-1]] == s.cur && s.cur.session in s.live
  {
    ReachableInv(version, features, es);
    assert ThreadInv(Run(Init(version, features), es).value, t);
  }

  /** A runner reaches the lock, and so the service, only after the sample check of the same reload
      accepted all its features: the thread has started no other reload since. */
  lemma {:induction false} InstalledOnlyIfSampled(version: string, features: seq<string>, es: seq<Event>, t: nat) returns (k: nat)
    requires Run(Init(version, features), es).Some?
    requires var th := At(Run(Init(version, features), es).value, t); InStage(th, Validated) || InStage(th, Swapping)
    ensures k < |es| && es[k].CheckSample? && es[k].t == t
    ensures forall n :: k < n < |es| && es[n].Create? ==> es[n].t != t
    ensures Accepts(es[k].sample, At(Run(Init(version, features), es).value, t).runner.features)
    decreases es
  {
    var init, last := es[..|es|-1], es[|es|-1];
    var m := Run(Init(version, features), init).value;
    MovesOnlyItsThread(m, last, t);
    if last.CheckSample? && last.t == t {
      k := |es| - 1;
    } else {
      k := InstalledOnlyIfSampled(version, features, init, t);
    }
  }

  /** A Reload that is refused leaves the runner in service untouched and destroys the candidate. */
  lemma RefusedReloadChangesNothing(version: string, features: seq<string>, es: seq<Event>, e: Event)
    requires Run(Init(version, features), es).Some? && Enabled(Run(Init(version, features), es).value, e)
    requires var s := Run(Init(version, features), es).value;
             (e.Probe? && !e.accepted) || (e.CheckSample? && !Accepts(e.sample, At(s, e.t).runner.features))
    ensures var s := Run(Init(version, features), es).value;
            var s' := Apply(s, e);
            && s'.cur == s.cur && s'.history == s.history && s'.cur.session in s'.live
            && At(s, e.t).runner.session in s.live
            && s'.live == s.live - {At(s, e.t).runner.session} && At(s', e.t).Idle?
  {
    ReachableInv(version, features, es);
    var s := Run(Init(version, features), es).value;
    assert ThreadInv(s, e.t);
  }

  // ---------- main results: which version a request names ----------

  /** How many times `s.r` was replaced in these events. */
  function Installs(es: seq<Event>): nat {
    if es == [] then 0 else Installs(es[..|es|-1]) + if es[|es|-1].Install? then 1 else 0
  }

  lemma {:induction false} InstallsBetween(es: seq<Event>, p: nat, q: nat)
    requires p <= q <= |es|
    ensures Installs(es[..p]) <= Installs(es[..q])
    ensures Installs(es[..p]) == Installs(es[..q]) <==> forall n :: p <= n < q ==> !es[n].Install?
    decreases q
  {
    if p < q {
      InstallsBetween(es, p, q - 1);
      assert es[..q][..q-1] == es[..q-1];
    }
  }

  /** `pos` lists the events of the run at which thread t made its reads. */
  ghost predicate ReadsMadeAt(es: seq<Event>, t: nat, seen: seq<nat>, pos: seq<nat>) {
    && |pos| == |seen|
    && (forall a :: 0 <= a < |pos| ==> pos[a] < |es| && es[pos[a]] == ReadModel(t) && seen[a] == Installs(es[..pos[a]]))
    && (forall a, b :: 0 <= a < b < |pos| ==> pos[a] < pos[b])
  }

  function Reads(th: Thread): seq<nat> {
    if th.Request? || th.Waiting? || th.Read? then th.seen else []
  }

  /** Only its own reads extend what a request has seen, and only installs extend the history. */
  lemma WhatAnEventReads(s: State, e: Event, t: nat)
    requires Enabled(s, e)
    ensures |Apply(s, e).history| == |s.history| + if e.Install? then 1 else 0
    ensures e == ReadModel(t) ==> Reads(At(Apply(s, e), t)) == Reads(At(s, t)) + [Latest(s)]
    ensures e != ReadModel(t) ==> Reads(At(Apply(s, e), t)) == Reads(At(s, t)) || Reads(At(Apply(s, e), t)) == []
  {
    MovesOnlyItsThread(s, e, t);
  }

  /** Every index a request carries counts the installs before the event that read it. */
  lemma {:induction false} RequestPositions(version: string, features: seq<string>, es: seq<Event>, t: nat)
    returns (pos: seq<nat>)
    requires Run(Init(version, features), es).Some?
    ensures var s := Run(Init(version, features), es).value;
            |s.history| == Installs(es) + 1 && ReadsMadeAt(es, t, Reads(At(s, t)), pos)
    decreases es
  {
    pos := [];
    if es != [] {
      var prefix, last := es[..|es|-1], es[|es|-1];
      pos := RequestPositions(version, features, prefix, t);
      var s := Run(Init(version, features), prefix).value;
      hide Enabled, Apply, Init, ReadsMadeAt, Reads, At;
      WhatAnEventReads(s, last, t);
      LaterPositions(es, t, Reads(At(s, t)), pos);
      if last == ReadModel(t) {
        pos := OneMorePosition(es, t, Reads(At(s, t)), pos);
      } else if Reads(At(Apply(s, last), t)) == [] {
        pos := [];
        NoPositions(es, t);
      }
    } else {
      NoPositions(es, t);
    }
  }

  lemma NoPositions(es: seq<Event>, t: nat)
    ensures ReadsMadeAt(es, t, [], [])
  {
  }

  lemma OneMorePosition(es: seq<Event>, t: nat, seen: seq<nat>, pos: seq<nat>) returns (pos': seq<nat>)
    requires es != [] && ReadsMadeAt(es, t, seen, pos) && ReadsMadeAt(es[..|es|-1], t, seen, pos) && es[|es|-1] == ReadModel(t)
    ensures ReadsMadeAt(es, t, seen + [Installs(es[..|es|-1])], pos')
  {
    pos' := pos + [|es| - 1];
  }

  lemma LaterPositions(es: seq<Event>, t: nat, seen: seq<nat>, pos: seq<nat>)
    requires es != [] && ReadsMadeAt(es[..|es|-1], t, seen, pos)
    ensures ReadsMadeAt(es, t, seen, pos)
  {
    forall a | 0 <= a < |pos| ensures es[..|es|-1][..pos[a]] == es[..pos[a]] {
    }
  }

  /** No Reload replaced the runner in this part of the run. */
  predicate NoInstallBetween(es: seq<Event>, p: nat, q: nat) {
    forall n :: p <= n < q && n < |es| ==> !es[n].Install?
  }

  lemma ReadsAreOrdered(version: string, features: seq<string>, es: seq<Event>, t: nat)
    requires Run(Init(version, features), es).Some?
    ensures var s := Run(Init(version, features), es).value;
            var seen := Reads(At(s, t));
            |seen| <= 3 && forall a, b :: 0 <= a < b < |seen| ==> seen[a] <= seen[b] < |s.history|
  {
    ReachableInv(version, features, es);
    assert ThreadInv(Run(Init(version, features), es).value, t);
  }

  /** The runner that scored a request is no later than the one its response names, which is no
      later than the one its log record names; two of them coincide exactly when no Reload
      replaced the runner between the two reads. */
  lemma ReportedVersionsAreOrdered(version: string, features: seq<string>, es: seq<Event>, t: nat)
    returns (pos: seq<nat>)
    requires Run(Init(version, features), es).Some?
    ensures var s := Run(Init(version, features), es).value;
            var seen := Reads(At(s, t));
            && ReadsMadeAt(es, t, seen, pos) && |seen| <= 3
            && (forall a, b :: 0 <= a < b < |seen| ==> seen[a] <= seen[b] < |s.history|)
            && forall a, b :: 0 <= a < b < |seen| ==> (seen[a] == seen[b] <==> NoInstallBetween(es, pos[a], pos[b]))
  {
    hide Run, Init, Reads, At, Installs;
    pos := RequestPositions(version, features, es, t);
    ReadsAreOrdered(version, features, es, t);
    var seen := Reads(At(Run(Init(version, features), es).value, t));
    forall a, b | 0 <= a < b < |seen|
      ensures seen[a] == seen[b] <==> NoInstallBetween(es, pos[a], pos[b])
    {
      CoincideExactly(es, t, seen, pos, a, b);
    }
  }

  lemma CoincideExactly(es: seq<Event>, t: nat, seen: seq<nat>, pos: seq<nat>, a: nat, b: nat)
    requires ReadsMadeAt(es, t, seen, pos) && a < b < |seen|
    ensures pos[a] <= pos[b] < |es|
    ensures seen[a] == seen[b] <==> NoInstallBetween(es, pos[a], pos[b])
  {
    hide Installs;
    InstallsBetween(es, pos[a], pos[b]);
  }

  lemma Push(s: State, es: seq<Event>, m: State, e: Event) returns (es': seq<Event>, m': State)
    requires Run(s, es) == Some(m) && Enabled(m, e)
    ensures es' == es + [e] && m' == Apply(m, e) && Run(s, es') == Some(m')
  {
    hide Enabled, Apply;
    es', m' := es + [e], Apply(m, e);
    assert (es + [e])[..|es|] == es;
  }

  /** One uninterrupted read of the model. */
  lemma ReadAlone(s: State, es: seq<Event>, m: State, t: nat) returns (es': seq<Event>, m': State)
    requires Run(s, es) == Some(m) && At(m, t).Request? && |At(m, t).seen| < MAX_READS
    requires m.writer.None? && m.readers == {} && !m.closed
    ensures Run(s, es') == Some(m') && At(m', t) == Request(At(m, t).seen + [Latest(m)])
    ensures (forall u: nat :: u != t ==> At(m', u) == At(m, u)) && m'.history == m.history && m'.next == m.next
    ensures m'.writer.None? && m'.readers == {} && !m'.closed
  {
    hide Run;
    es', m' := Push(s, es, m, RLock(t));
    es', m' := Push(s, es', m', ReadModel(t));
    es', m' := Push(s, es', m', RUnlock(t));
  }

  /** A candidate that passes every check waits for the write lock. */
  lemma ValidateAlone(s: State, es: seq<Event>, m: State, t: nat, w: string) returns (es': seq<Event>, m': State)
    requires Run(s, es) == Some(m) && At(m, t).Idle? && !m.closed
    ensures Run(s, es') == Some(m')
    ensures At(m', t) == Reload(Validated, Runner(m.next, w, [])) && forall u: nat :: u != t ==> At(m', u) == At(m, u)
    ensures m'.history == m.history && m'.writer == m.writer && m'.readers == m.readers && m'.closed == m.closed
  {
    hide Run;
    es', m' := Push(s, es, m, Create(t, w, []));
    es', m' := CheckAlone(s, es', m', t, Runner(m.next, w, []));
  }

  lemma CheckAlone(s: State, es: seq<Event>, m: State, t: nat, candidate: Runner) returns (es': seq<Event>, m': State)
    requires Run(s, es) == Some(m) && At(m, t) == Reload(Created, candidate)
    ensures Run(s, es') == Some(m')
    ensures At(m', t) == Reload(Validated, candidate) && forall u: nat :: u != t ==> At(m', u) == At(m, u)
    ensures m'.history == m.history && m'.writer == m.writer && m'.readers == m.readers && m'.closed == m.closed
  {
    hide Run;
    es', m' := Push(s, es, m, Probe(t, true));
    es', m' := Push(s, es', m', CheckSample(t, Disabled));
  }

  /** A validated candidate is installed when no lock is held. */
  lemma InstallAlone(s: State, es: seq<Event>, m: State, t: nat) returns (es': seq<Event>, m': State)
    requires Run(s, es) == Some(m) && InStage(At(m, t), Validated) && m.writer.None? && m.readers == {}
    ensures Run(s, es') == Some(m') && m'.cur == At(m, t).runner && m'.history == m.history + [m'.cur]
    ensures m'.writer.None? && m'.readers == {} && m'.closed == m.closed
    ensures forall u: nat :: u != t ==> At(m', u) == At(m, u)
  {
    hide Run;
    es', m' := Push(s, es, m, Lock(t));
    es', m' := Push(s, es', m', Install(t));
    es', m' := Push(s, es', m', Unlock(t));
  }

  /** Thread 1 has scored. */
  lemma ScoreAlone(v: string) returns (es: seq<Event>, m: State)
    ensures Run(Init(v, []), es) == Some(m) && At(m, 1) == Request([0]) && forall u: nat :: u != 1 ==> At(m, u).Idle?
    ensures m.history == [Runner(0, v, [])] && m.next == 1 && m.writer.None? && m.readers == {} && !m.closed
  {
    var s := Init(v, []);
    assert Run(s, []) == Some(s);
    hide Run;
    es, m := Push(s, [], s, Begin(1));
    assert At(m, 1) == Request([]) && (forall u: nat :: u != 1 ==> At(m, u).Idle?) && m.history == s.history && Latest(m) == 0;
    hide Apply, Enabled, At;
    es, m := ReadAlone(s, es, m, 1);
  }

  /** A response need not name the runner that scored it: one Reload between the scoring and the
      second read is enough. */
  lemma ResponseMayNameAnotherRunner(v: string, w: string) returns (es: seq<Event>, m: State)
    requires v != w
    ensures Run(Init(v, []), es) == Some(m)
    ensures Reads(At(m, 1)) == [0, 1] && |m.history| == 2 && m.history[0].version == v && m.history[1].version == w
  {
    hide Run, Apply, Enabled, At;
    es, m := ScoreAlone(v);
    es, m := ValidateAlone(Init(v, []), es, m, 2, w);
    es, m := InstallAlone(Init(v, []), es, m, 2);
    es, m := ReadAlone(Init(v, []), es, m, 1);
  }

  // ---------- the same operations, uninterrupted, on objects ----------

  const MAX_SHOWN := 5

  /** What the sample says about a candidate; at most five missing names are shown. */
  datatype SampleCheck = Passed | SamplerFailed | MissingNames(shown: seq<string>)

  /** `validateAgainstSample`; None is the sampler's error. */
  method ValidateAgainstSample(reply: Option<seq<string>>, featureOrder: seq<string>) returns (check: SampleCheck, ghost at: seq<nat>)
    ensures check.SamplerFailed? <==> reply.None?
    ensures check.Passed? <==> reply.Some? && forall f :: f in featureOrder ==> f in reply.value
    ensures check.MissingNames? ==>
              |check.shown| <= 5 && ShowsFirstMissing(featureOrder, (set n | n in reply.value), check.shown, at)
  {
    at := [];
    if reply.None? {
      return SamplerFailed, at;
    }
    var have := NameSet(reply.value);
    var missing;
    missing, at := FirstMissing(featureOrder, have);
    NothingShown(featureOrder, have, missing, at);
    check := if |missing| > 0 then MissingNames(missing) else Passed;
  }

  /** The loop that fills `have`. */
  method NameSet(names: seq<string>) returns (have: set<string>)
    ensures have == set n | n in names
  {
    have := {};
    for i := 0 to |names|
      invariant have == set n | n in names[..i]
    {
      assert names[..i+1] == names[..i] + [names[i]];
      have := have + {names[i]};
    }
    assert names[..|names|] == names;
  }

  /** The names shown are the missing features at positions `at`, in order, and no missing feature before
      the last of them, or at all if fewer than five are shown, is left out. */
  ghost predicate ShowsFirstMissing(features: seq<string>, have: set<string>, shown: seq<string>, at: seq<nat>) {
    && |at| == |shown|
    && (forall a :: 0 <= a < |at| ==> at[a] < |features| && features[at[a]] == shown[a] && shown[a] !in have)
    && (forall a, b :: 0 <= a < b < |at| ==> at[a] < at[b])
    && (forall i :: 0 <= i < |features| && features[i] !in have && (|shown| < 5 || i <= at[|at|-1]) ==> i in at)
  }

  lemma NothingShown(features: seq<string>, have: set<string>, shown: seq<string>, at: seq<nat>)
    requires ShowsFirstMissing(features, have, shown, at)
    ensures shown == [] <==> forall f :: f in features ==> f in have
  {
    if shown == [] {
      forall f | f in features ensures f in have {
        var i :| 0 <= i < |features| && features[i] == f;
      }
    } else {
      assert features[at[0]] in features && features[at[0]] !in have;
    }
  }

  /** The loop that collects missing names and stops at the fifth. */
  method FirstMissing(featureOrder: seq<string>, have: set<string>) returns (missing: seq<string>, ghost at: seq<nat>)
    ensures |missing| <= 5 && ShowsFirstMissing(featureOrder, have, missing, at)
  {
    missing, at := [], [];
    var i := 0;
    while i < |featureOrder|
      invariant 0 <= i <= |featureOrder| && |missing| < MAX_SHOWN && |at| == |missing|
      invariant forall a :: 0 <= a < |at| ==> at[a] < i && featureOrder[at[a]] == missing[a] && missing[a] !in have
      invariant forall a, b :: 0 <= a < b < |at| ==> at[a] < at[b]
      invariant forall k :: 0 <= k < i && featureOrder[k] !in have ==> k in at
    {
      if featureOrder[i] !in have {
        missing := missing + [featureOrder[i]];
        at := at + [i];
        if |missing| >= MAX_SHOWN {
          return;
        }
      }
      i := i + 1;
    }
  }

  datatype Vector<F> = Vector(values: seq<F>) | MissingFeature(name: string)

  /** The feature vector of `Runner.Score`: in feature order, or the first name the map lacks. */
  method FeatureVector<F>(featureOrder: seq<string>, featureMap: map<string, F>) returns (v: Vector<F>)
    ensures v.Vector? <==> forall f :: f in featureOrder ==> f in featureMap
    ensures v.Vector? ==>
              && |v.values| == |featureOrder|
              && forall i :: 0 <= i < |featureOrder| ==> featureOrder[i] in featureMap && v.values[i] == featureMap[featureOrder[i]]
    ensures v.MissingFeature? ==> exists i :: 0 <= i < |featureOrder| && featureOrder[i] == v.name && v.name !in featureMap
                                              && forall j :: 0 <= j < i ==> featureOrder[j] in featureMap
  {
    var vec: seq<F> := [];
    for i := 0 to |featureOrder|
      invariant |vec| == i
      invariant forall j :: 0 <= j < i ==> featureOrder[j] in featureMap && vec[j] == featureMap[featureOrder[j]]
    {
      if featureOrder[i] !in featureMap {
        return MissingFeature(featureOrder[i]);
      }
      vec := vec + [featureMap[featureOrder[i]]];
    }
    v := Vector(vec);
  }

  /** No thread is inside a call. */
  ghost predicate Quiet(s: State) {
    s.readers == {} && s.writer.None? && forall t: nat :: At(s, t).Idle?
  }

  /** Thread t is at th, and no other thread is inside a call. */
  ghost predicate Alone(s: State, t: nat, th: Thread) {
    At(s, t) == th && forall u: nat :: u != t ==> At(s, u).Idle?
  }

  lemma QuietIsAlone(s: State, t: nat)
    ensures Quiet(s) <==> s.readers == {} && s.writer.None? && Alone(s, t, Idle)
  {
  }

  /** The sessions an event of a thread at th destroys. */
  function Dead(e: Event, th: Thread): set<nat> {
    if th.Reload? && ((e.Probe? && !e.accepted) || (e.CheckSample? && !Accepts(e.sample, th.runner.features)) || e.Retire?)
    then {th.runner.session} else {}
  }

  /** Everything but the threads, one step later. */
  ghost predicate Steps(m: State, e: Event, th: Thread, m': State)
    requires !e.Shutdown?
  {
    && m'.closed == m.closed
    && m'.cur == (if e.Install? && th.Reload? then th.runner else m.cur)
    && m'.history == (if e.Install? && th.Reload? then m.history + [th.runner] else m.history)
    && m'.readers == (if e.RLock? then m.readers + {e.t} else if e.RUnlock? then m.readers - {e.t} else m.readers)
    && m'.writer == (if e.Lock? then Some(e.t) else if e.Unlock? then None else m.writer)
    && m'.live == m.live - Dead(e, th) + (if e.Create? then {m.next} else {})
    && m'.next == if e.Create? then m.next + 1 else m.next
  }

  lemma ApplySteps(m: State, e: Event, th: Thread)
    requires !e.Shutdown? && At(m, e.t) == th && EnabledAt(m, e, th)
    ensures Enabled(m, e) && Steps(m, e, th, Apply(m, e))
  {
  }

  /** One step of the only thread inside a call. */
  lemma Move(s: State, es: seq<Event>, m: State, e: Event, th: Thread) returns (es': seq<Event>, m': State)
    requires Run(s, es) == Some(m) && !e.Shutdown? && Alone(m, e.t, th) && EnabledAt(m, e, th)
    ensures es' == es + [e] && Run(s, es') == Some(m') && Alone(m', e.t, Target(m, e, th))
    ensures Steps(m, e, th, m')
  {
    hide Run, Steps;
    ApplySteps(m, e, th);
    es', m' := Push(s, es, m, e);
    hide Apply;
    forall u: nat ensures u != e.t ==> At(m', u).Idle? {
      MovesOnlyItsThread(m, e, u);
    }
    MovesOnlyItsThread(m, e, e.t);
  }

  /** The events of a score: the read lock around one read of the model. */
  function ReadEvents(t: nat): seq<Event> {
    [RLock(t), ReadModel(t), RUnlock(t)]
  }

  function ScoreEvents(t: nat): seq<Event> {
    [Begin(t)] + ReadEvents(t) + [Finish(t)]
  }

  /** The events of a reload that has created a session: it gets as far as its checks let it. */
  function ReloadEvents(t: nat, version: string, features: seq<string>, accepted: bool, sample: Sample): seq<Event> {
    [Create(t, version, features), Probe(t, accepted)] +
    if !accepted then []
    else [CheckSample(t, sample)] + if Accepts(sample, features) then SwapEvents(t) else []
  }

  function SwapEvents(t: nat): seq<Event> {
    [Lock(t), Install(t), Unlock(t), Retire(t)]
  }

  /** A request that scores and ends, alone. */
  lemma ScoreRun(s: State, t: nat) returns (es: seq<Event>, m: State)
    requires Quiet(s) && !s.closed
    ensures es == ScoreEvents(t) && Run(s, es) == Some(m) && Quiet(m)
    ensures m.cur == s.cur && m.history == s.history && m.closed == s.closed && m.live == s.live
  {
    var n := Latest(s);
    es, m := BeginRun(s, t);
    hide Run, At, Alone, Quiet, EnabledAt, ReadEvents;
    es, m := ReadRun(s, es, m, t);
    es, m := FinishRun(s, es, m, t, [n]);
  }

  lemma BeginRun(s: State, t: nat) returns (es: seq<Event>, m: State)
    requires Quiet(s) && !s.closed
    ensures es == [Begin(t)] && Run(s, es) == Some(m) && Alone(m, t, Request([])) && m.writer.None? && m.readers == {}
    ensures m.cur == s.cur && m.history == s.history && m.closed == s.closed && m.live == s.live
  {
    hide Run, At, Alone, Quiet, Target;
    RunNone(s);
    QuietIsAlone(s, t);
    BeginTarget(s, t);
    es, m := Move(s, [], s, Begin(t), Idle);
  }

  lemma BeginTarget(s: State, t: nat)
    requires !s.closed
    ensures EnabledAt(s, Begin(t), Idle) && Target(s, Begin(t), Idle) == Request([])
  {
  }

  lemma RunNone(s: State)
    ensures Run(s, []) == Some(s)
  {
  }

  lemma FinishRun(s: State, es: seq<Event>, m: State, t: nat, seen: seq<nat>) returns (es': seq<Event>, m': State)
    requires Run(s, es) == Some(m) && Alone(m, t, Request(seen)) && m.writer.None? && m.readers == {}
    ensures es' == es + [Finish(t)] && Run(s, es') == Some(m') && Quiet(m')
    ensures m'.cur == m.cur && m'.history == m.history && m'.closed == m.closed && m'.live == m.live
  {
    hide Run, At, Alone, Quiet;
    es', m' := Move(s, es, m, Finish(t), Request(seen));
    QuietIsAlone(m', t);
  }

  /** Its read of the model, under the read lock. */
  lemma ReadRun(s: State, es: seq<Event>, m: State, t: nat) returns (es': seq<Event>, m': State)
    requires Run(s, es) == Some(m) && Alone(m, t, Request([])) && m.writer.None? && m.readers == {} && !m.closed
    ensures es' == es + ReadEvents(t)
    ensures Run(s, es') == Some(m') && Alone(m', t, Request([Latest(m)])) && m'.writer.None? && m'.readers == {}
    ensures m'.cur == m.cur && m'.history == m.history && m'.closed == m.closed && m'.live == m.live
  {
    hide Run, At, Alone;
    es', m' := Move(s, es, m, RLock(t), Request([]));
    es', m' := Move(s, es', m', ReadModel(t), Waiting([]));
    assert [] + [Latest(m)] == [Latest(m)];
    es', m' := Move(s, es', m', RUnlock(t), Read([Latest(m)]));
  }

  /** A reload up to its probe, alone. */
  lemma ProbeRun(s: State, t: nat, candidate: Runner, accepted: bool) returns (es: seq<Event>, m: State)
    requires Quiet(s) && !s.closed && candidate.session == s.next
    ensures es == [Create(t, candidate.version, candidate.features), Probe(t, accepted)] && Run(s, es) == Some(m)
    ensures Alone(m, t, if accepted then Reload(Probed, candidate) else Idle)
    ensures m.cur == s.cur && m.history == s.history && m.closed == s.closed && m.writer.None? && m.readers == {}
    ensures m.live == if accepted then s.live + {s.next} else s.live - {s.next}
  {
    es, m := CreateRun(s, t, candidate);
    hide Run, At, Alone, Quiet, Accepts;
    es, m := Move(s, es, m, Probe(t, accepted), Reload(Created, candidate));
  }

  lemma CreateRun(s: State, t: nat, candidate: Runner) returns (es: seq<Event>, m: State)
    requires Quiet(s) && !s.closed && candidate.session == s.next
    ensures es == [Create(t, candidate.version, candidate.features)] && Run(s, es) == Some(m)
    ensures Alone(m, t, Reload(Created, candidate))
    ensures m.cur == s.cur && m.history == s.history && m.closed == s.closed && m.writer.None? && m.readers == {}
    ensures m.live == s.live + {s.next}
  {
    hide Run, At, Alone, Quiet, Accepts;
    RunNone(s);
    QuietIsAlone(s, t);
    es, m := Move(s, [], s, Create(t, candidate.version, candidate.features), Idle);
  }

  /** A reload whose candidate fails a check, alone. */
  lemma RefusedRun(s: State, t: nat, version: string, features: seq<string>, accepted: bool, sample: Sample)
    returns (es: seq<Event>, m: State)
    requires Quiet(s) && !s.closed && !(accepted && Accepts(sample, features))
    ensures es == ReloadEvents(t, version, features, accepted, sample) && Run(s, es) == Some(m) && Quiet(m)
    ensures m.cur == s.cur && m.history == s.history && m.closed == s.closed && m.live == s.live - {s.next}
  {
    var candidate := Runner(s.next, version, features);
    es, m := ProbeRun(s, t, candidate, accepted);
    hide Run, At, Alone, Quiet, Accepts;
    if accepted {
      es, m := Move(s, es, m, CheckSample(t, sample), Reload(Probed, candidate));
    }
    QuietIsAlone(m, t);
  }

  /** A reload that succeeds, alone. */
  lemma AcceptedRun(s: State, t: nat, version: string, features: seq<string>, sample: Sample)
    returns (es: seq<Event>, m: State)
    requires Quiet(s) && !s.closed && Accepts(sample, features)
    ensures es == ReloadEvents(t, version, features, true, sample) && Run(s, es) == Some(m) && Quiet(m)
    ensures m.cur == Runner(s.next, version, features) && m.history == s.history + [m.cur] && m.closed == s.closed
    ensures m.live == s.live + {s.next} - {s.cur.session}
  {
    var candidate := Runner(s.next, version, features);
    es, m := CheckedRun(s, t, candidate, sample);
    AcceptedEvents(t, version, features, sample);
    hide Run, At, Alone, Quiet, Accepts, ReloadEvents, SwapEvents;
    es, m := SwapRun(s, es, m, t, candidate);
  }

  lemma AcceptedEvents(t: nat, version: string, features: seq<string>, sample: Sample)
    requires Accepts(sample, features)
    ensures ReloadEvents(t, version, features, true, sample) ==
              [Create(t, version, features), Probe(t, true), CheckSample(t, sample)] + SwapEvents(t)
  {
    hide SwapEvents;
  }

  /** A reload up to its sample check, alone. */
  lemma CheckedRun(s: State, t: nat, candidate: Runner, sample: Sample) returns (es: seq<Event>, m: State)
    requires Quiet(s) && !s.closed && candidate.session == s.next && Accepts(sample, candidate.features)
    ensures es == [Create(t, candidate.version, candidate.features), Probe(t, true), CheckSample(t, sample)] && Run(s, es) == Some(m)
    ensures Alone(m, t, Reload(Validated, candidate)) && m.writer.None? && m.readers == {}
    ensures m.cur == s.cur && m.history == s.history && m.closed == s.closed && m.live == s.live + {s.next}
  {
    es, m := ProbeRun(s, t, candidate, true);
    hide Run, At, Alone, Quiet, Accepts;
    es, m := Move(s, es, m, CheckSample(t, sample), Reload(Probed, candidate));
  }

  /** From the lock to the destruction of the superseded session. */
  lemma SwapRun(s: State, es: seq<Event>, m: State, t: nat, candidate: Runner) returns (es': seq<Event>, m': State)
    requires Run(s, es) == Some(m) && Alone(m, t, Reload(Validated, candidate)) && m.writer.None? && m.readers == {}
    ensures es' == es + SwapEvents(t) && Run(s, es') == Some(m') && Quiet(m')
    ensures m'.cur == candidate && m'.history == m.history + [candidate] && m'.closed == m.closed
    ensures m'.live == m.live - {m.cur.session}
  {
    hide Run, At, Alone, Quiet;
    es', m' := Move(s, es, m, Lock(t), Reload(Validated, candidate));
    es', m' := Move(s, es', m', Install(t), Reload(Swapping, candidate));
    es', m' := Move(s, es', m', Unlock(t), Reload(Swapped, m.cur));
    es', m' := Move(s, es', m', Retire(t), Reload(Retiring, m.cur));
    QuietIsAlone(m', t);
  }

  class Session {
    ghost const id: nat
    var live: bool

    constructor (ghost id: nat)
      ensures live && this.id == id
    {
      this.id := id;
      live := true;
    }

    method Destroy()
      modifies this
      ensures !live
    {
      live := false;
    }
  }

  class LoadedRunner {
    const session: Session
    const version: string
    const features: seq<string>

    constructor (session: Session, version: string, features: seq<string>)
      ensures this.session == session && this.version == version && this.features == features
    {
      this.session, this.version, this.features := session, version, features;
    }
  }

  /** The sampler's answer as the check sees it. */
  function SampleOf(checks: bool, reply: Option<seq<string>>): Sample {
    if !checks then Disabled
    else if reply.None? then Unavailable
    else Names(set n | n in reply.value)
  }

  /** What scoring a transaction comes to. */
  datatype Scored<F> = NoFeature(name: string) | InferenceFailed | Probability(probability: F, featureHash: string)

  /** What the files at the requested paths turn out to be. */
  datatype Artifact = Unreadable | Loadable(version: string, features: seq<string>, probeAccepted: bool)

  /** `machine` is the state machine above, between calls; each call is proved to be a run of it. */
  class Swappable {
    var r: LoadedRunner?
    const checksSample: bool
    ghost var machine: State

    ghost predicate Valid()
      reads this, r, if r != null then {r.session} else {}
    {
      && Inv(machine) && Quiet(machine)
      && (r == null <==> machine.closed)
      && (r != null ==> r.session.live && machine.cur == Runner(r.session.id, r.version, r.features))
    }

    constructor (initial: LoadedRunner, checksSample: bool)
      requires initial.session.live && initial.session.id == 0
      ensures Valid() && r == initial && this.checksSample == checksSample
      ensures machine == Init(initial.version, initial.features)
    {
      r := initial;
      this.checksSample := checksSample;
      machine := Init(initial.version, initial.features);
    }

    /** `Score`: the features go, in the runner's order, to the session in service, which is live; the
        answer is the second probability it gives for that vector, and the vector's hash. `infer` is the
        inference of each model version, None an error. */
    method Score<F>(featureMap: map<string, F>, infer: (string, seq<F>) -> Option<(F, F)>, hash: seq<F> -> string, ghost t: nat)
      returns (answer: Scored<F>, session: Session, ghost vec: seq<F>, ghost es: seq<Event>)
      requires Valid() && r != null
      modifies this`machine
      ensures Valid() && Run(old(machine), es) == Some(machine)
      ensures es == [Begin(t), RLock(t), ReadModel(t), RUnlock(t), Finish(t)]
      ensures session == r.session && session.live
      ensures answer.NoFeature? <==> exists f :: f in r.features && f !in featureMap
      ensures answer.NoFeature? ==> exists i :: 0 <= i < |r.features| && r.features[i] == answer.name && answer.name !in featureMap
                                                && forall j :: 0 <= j < i ==> r.features[j] in featureMap
      ensures !answer.NoFeature? ==>
                && |vec| == |r.features|
                && (forall i :: 0 <= i < |r.features| ==> r.features[i] in featureMap && vec[i] == featureMap[r.features[i]])
                && (infer(r.version, vec).None? ==> answer.InferenceFailed?)
                && (infer(r.version, vec).Some? ==> answer == Probability(infer(r.version, vec).value.1, hash(vec)))
    {
      session := r.session;
      var v := FeatureVector(r.features, featureMap);
      match v {
        case MissingFeature(name) =>
          answer := NoFeature(name);
          vec := [];
        case Vector(values) =>
          var probs := infer(r.version, values);
          answer := if probs.None? then InferenceFailed else Probability(probs.value.1, hash(values));
          vec := values;
      }
      ghost var m;
      es, m := ScoreRun(machine, t);
      RunKeepsInv(machine, es);
      machine := m;
    }

    method ModelVersion() returns (version: string)
      requires Valid() && r != null
      ensures version == r.version == machine.history[|machine.history|-1].version
    {
      version := r.version;
    }

    /** Succeeds exactly when the artifact loads, the model accepts its own feature count, and, if
        sampling is on, the sampler answers with every feature. On success only the new session
        is live; on failure the runner is untouched and any session created is dead again. */
    method Reload(a: Artifact, reply: Option<seq<string>>, ghost t: nat)
      returns (version: Option<string>, ghost created: Option<Session>, ghost es: seq<Event>)
      requires Valid() && r != null
      modifies this, r.session
      ensures Valid() && r != null
      ensures a.Unreadable? ==> es == []
      ensures a.Loadable? && !a.probeAccepted ==> es == [Create(t, a.version, a.features), Probe(t, false)]
      ensures a.Loadable? && a.probeAccepted ==>
                es == [Create(t, a.version, a.features), Probe(t, true), CheckSample(t, SampleOf(checksSample, reply))] +
                      if version.Some? then [Lock(t), Install(t), Unlock(t), Retire(t)] else []
      ensures Run(old(machine), es) == Some(machine)
      ensures created.Some? ==> fresh(created.value)
      ensures created.Some? <==> a.Loadable?
      ensures version.Some? <==>
              && a.Loadable? && a.probeAccepted
              && (checksSample ==> reply.Some? && forall f :: f in a.features ==> f in reply.value)
      ensures version.Some? ==>
                && version.value == a.version && r.version == a.version && r.features == a.features
                && created == Some(r.session) && r.session.live && !old(r.session).live
      ensures version.None? ==> r == old(r) && r.session.live && (created.Some? ==> !created.value.live)
    {
      created, es := None, [];
      if a.Unreadable? {
        return None, created, es;
      }
      hide Inv, Quiet, Run;
      ghost var sample := SampleOf(checksSample, reply);
      var session := new Session(machine.next);
      created := Some(session);
      var candidate := new LoadedRunner(session, a.version, a.features);
      if !a.probeAccepted {
        session.Destroy();
        es := Refused(t, a, sample);
        return None, created, es;
      }
      if checksSample {
        var check, shownAt := ValidateAgainstSample(reply, a.features);
        if !check.Passed? {
          session.Destroy();
          es := Refused(t, a, sample);
          return None, created, es;
        }
      }
      es := SwapIn(candidate, t, sample);
      version := Some(candidate.version);
    }

    /** The end of a reload that passed every check: swap, then destroy the superseded session. */
    method SwapIn(candidate: LoadedRunner, ghost t: nat, ghost sample: Sample) returns (ghost es: seq<Event>)
      requires Valid() && r != null && candidate.session.live && candidate.session != r.session
      requires candidate.session.id == machine.next && Accepts(sample, candidate.features)
      modifies this, r.session
      ensures Valid() && r == candidate && r.session.live && !old(r).session.live
      ensures es == ReloadEvents(t, candidate.version, candidate.features, true, sample) && Run(old(machine), es) == Some(machine)
    {
      ghost var m;
      es, m := AcceptedRun(machine, t, candidate.version, candidate.features, sample);
      RunKeepsInv(machine, es);
      hide Inv, Quiet, Run, ReloadEvents;
      machine := m;
      var superseded := r;
      r := candidate;
      superseded.session.Destroy();
    }

    /** The machine's part of a refused reload. */
    ghost method Refused(t: nat, a: Artifact, sample: Sample) returns (es: seq<Event>)
      requires Valid() && r != null && a.Loadable? && !(a.probeAccepted && Accepts(sample, a.features))
      modifies this`machine
      ensures Valid() && Run(old(machine), es) == Some(machine)
      ensures es == ReloadEvents(t, a.version, a.features, a.probeAccepted, sample)
    {
      ghost var m;
      es, m := RefusedRun(machine, t, a.version, a.features, a.probeAccepted, sample);
      RunKeepsInv(machine, es);
      machine := m;
    }

    method Destroy() returns (ghost es: seq<Event>)
      requires Valid()
      modifies this, if r != null then {r.session} else {}
      ensures Valid() && r == null
      ensures Run(old(machine), es) == Some(machine)
      ensures old(r) != null ==> !old(r).session.live && es == [Event.Shutdown]
    {
      es := [];
      if r != null {
        r.session.Destroy();
        r := null;
        ghost var s, m := machine, machine;
        assert Run(s, []) == Some(s);
        assert forall t :: t in s.threads ==> At(s, t).Idle?;
        es, m := Push(s, [], s, Event.Shutdown);
        RunKeepsInv(s, es);
        machine := m;
      }
    }
  }
}
