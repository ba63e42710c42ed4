/** The router: routing.Decide and AtomicState (router/internal/routing/state.go), the scoring and
    admin handlers (router/internal/server/handlers.go), and the initial state
    (router/cmd/server/main.go). */
module CanaryRouter {
  import opened Options
  import opened RealArithmetic
  import opened Rounding

  datatype RouteState = RouteState(canaryEnabled: bool, challengerPercent: int, shadowPercent: int)

  datatype Route = Champion | Challenger

  /** `routing.Decide` for a draw r from [0, 1). */
  function Decide(st: RouteState, r: real): (Route, bool) {
    (if st.canaryEnabled && r * 100.0 < st.challengerPercent as real then Challenger else Champion,
     !st.canaryEnabled && st.shadowPercent > 0 && r * 100.0 < st.shadowPercent as real)
  }

  // ---------- the split is exact ----------

  /** The i-th of n evenly spaced draws. */
  function Draw(i: nat, n: nat): real
    requires n > 0
  {
    i as real / n as real
  }

  /** How many of the first k draws go to the challenger. */
  function ChallengerDraws(st: RouteState, n: nat, k: nat): nat
    requires n > 0
  {
    if k == 0 then 0
    else ChallengerDraws(st, n, k - 1) + if Decide(st, Draw(k - 1, n)).0.Challenger? then 1 else 0
  }

  function CeilPercent(n: nat, p: nat): nat {
    CeilDiv(Times(n, p), 100)
  }

  /** A hundred times the i-th draw, as a fraction of n. */
  lemma DrawScaled(i: nat, n: nat)
    requires n > 0
    ensures Scaled(Draw(i, n) * 100.0, n as real) == (100 * i) as real
  {
    var x, d := Draw(i, n), n as real;
    assert x * d == i as real;
    Regroup(x, 100.0, d);
  }

  lemma Regroup(x: real, y: real, z: real)
    ensures (x * y) * z == y * (x * z)
  {
  }

  lemma {:induction false} TimesAsReal(n: nat, p: nat)
    ensures Times(n, p) as real == Scaled(p as real, n as real)
    decreases n
  {
    hide Times, Scaled;
    if n == 0 {
      TimesSmall(p);
      ScaledZero(p as real);
    } else {
      TimesAsReal(n - 1, p);
      TimesNext(n - 1, p);
      ScaledNext(p as real, (n - 1) as real);
    }
  }

  lemma BelowCeilPercent(i: nat, n: nat, p: nat)
    ensures i < CeilPercent(n, p) <==> 100 * i < Times(n, p)
  {
    hide Times;
  }

  lemma DrawBelow(i: nat, n: nat, p: nat)
    requires n > 0
    ensures Draw(i, n) * 100.0 < p as real <==> i < CeilPercent(n, p)
  {
    hide Draw, CeilPercent, Times, Scaled;
    DrawScaled(i, n);
    TimesAsReal(n, p);
    ScaledLess(Draw(i, n) * 100.0, p as real, n as real);
    RealsOrdered(Scaled(Draw(i, n) * 100.0, n as real), Scaled(p as real, n as real), 100 * i, Times(n, p));
    BelowCeilPercent(i, n, p);
  }

  lemma RealsOrdered(x: real, y: real, a: int, b: int)
    requires x == a as real && y == b as real
    ensures x < y <==> a < b
  {
  }

  lemma {:induction false} CountBelow(st: RouteState, n: nat, k: nat)
    requires n > 0 && st.canaryEnabled && st.challengerPercent >= 0
    ensures var c := CeilPercent(n, st.challengerPercent); ChallengerDraws(st, n, k) == if k <= c then k else c
    decreases k
  {
    hide Draw, CeilPercent;
    if k > 0 {
      CountBelow(st, n, k - 1);
      DrawBelow(k - 1, n, st.challengerPercent);
    }
  }

  lemma CeilPercentAtMost(n: nat, p: nat)
    requires p <= 100
    ensures CeilPercent(n, p) <= n && (p == 100 ==> CeilPercent(n, p) == n)
  {
    hide Times;
    TimesSwap(n, p);
    TimesSwap(n, 100);
    TimesLe(p, 100, n);
    assert Times(n, 100) == 100 * n by { HundredTimes(n); }
  }

  lemma HundredTimes(n: nat)
    ensures Times(n, 100) == 100 * n
  {
  }

  /** c is ceil(n*p/100), without the quotient. */
  predicate IsShare(c: nat, n: nat, p: nat) {
    100 * (c - 1) < n * p <= 100 * c
  }

  lemma CeilPercentIsShare(n: nat, p: nat)
    ensures IsShare(CeilPercent(n, p), n, p)
  {
  }

  /** With canary enabled and percent p in 0..100, exactly ceil(n*p/100) of n evenly spaced draws go
      to the challenger, for every n. */
  lemma SplitIsExact(st: RouteState, n: nat)
    requires n > 0 && st.canaryEnabled && 0 <= st.challengerPercent <= 100
    ensures IsShare(ChallengerDraws(st, n, n), n, st.challengerPercent)
    ensures ChallengerDraws(st, n, n) <= n && (st.challengerPercent == 100 ==> ChallengerDraws(st, n, n) == n)
  {
    CountBelow(st, n, n);
    CeilPercentAtMost(n, st.challengerPercent);
    CeilPercentIsShare(n, st.challengerPercent);
  }

  /** How many of the first k draws are shadowed. */
  function ShadowDraws(st: RouteState, n: nat, k: nat): nat
    requires n > 0
  {
    if k == 0 then 0 else ShadowDraws(st, n, k - 1) + if Decide(st, Draw(k - 1, n)).1 then 1 else 0
  }

  lemma {:induction false} CountShadowBelow(st: RouteState, n: nat, k: nat)
    requires n > 0 && !st.canaryEnabled && st.shadowPercent >= 0
    ensures var c := CeilPercent(n, st.shadowPercent); ShadowDraws(st, n, k) == if k <= c then k else c
    decreases k
  {
    hide Draw;
    if k > 0 {
      CountShadowBelow(st, n, k - 1);
      DrawBelow(k - 1, n, st.shadowPercent);
    }
  }

  /** With canary disabled and percent p in 0..100, exactly ceil(n*p/100) of n evenly spaced draws are
      shadowed, none at 0 and all at 100; with canary enabled none is. */
  lemma ShadowSplitIsExact(st: RouteState, n: nat)
    requires n > 0 && 0 <= st.shadowPercent <= 100
    ensures !st.canaryEnabled ==> IsShare(ShadowDraws(st, n, n), n, st.shadowPercent)
    ensures st.canaryEnabled || st.shadowPercent == 0 ==> ShadowDraws(st, n, n) == 0
    ensures !st.canaryEnabled && st.shadowPercent == 100 ==> ShadowDraws(st, n, n) == n
  {
    CeilPercentIsShare(n, st.shadowPercent);
    CeilPercentAtMost(n, st.shadowPercent);
    if st.canaryEnabled {
      NoShadowUnderCanary(st, n, n);
    } else {
      CountShadowBelow(st, n, n);
    }
  }

  lemma {:induction false} NoShadowUnderCanary(st: RouteState, n: nat, k: nat)
    requires n > 0 && st.canaryEnabled
    ensures ShadowDraws(st, n, k) == 0
    decreases k
  {
    if k > 0 { NoShadowUnderCanary(st, n, k - 1); }
  }

  /** Raising a percentage only adds draws to the set it governs, the challenger's or the shadow's; and,
      whatever the state, the shadow runs only for a request the champion serves. */
  lemma RaisingPercentOnlyAdds(st: RouteState, canary: int, shadow: int, r: real)
    requires st.challengerPercent <= canary && st.shadowPercent <= shadow
    ensures Decide(st, r).0.Challenger? ==> Decide(st.(challengerPercent := canary), r).0.Challenger?
    ensures Decide(st, r).1 ==> Decide(st.(shadowPercent := shadow), r).1
    ensures Decide(st, r).1 ==> Decide(st, r).0.Champion?
  {
  }

  // ---------- requests and updates, interleaved ----------

  /** An answer of an upstream, marked with the upstream that gave it. */
  datatype Response = Response(from: Route, prediction: nat)

  datatype Task = Task(transaction: int, champion: Response)

  datatype AdminRequest = AdminRequest(authorized: bool, body: Option<RouteState>)

  /** The handler's answer: 401, 400, or accepted. */
  datatype AdminAnswer = Unauthorized | BadRequest | Accepted

  function Admin(req: AdminRequest): AdminAnswer {
    if !req.authorized then Unauthorized
    else
      match req.body
      case None => BadRequest
      case Some(b) =>
        if b.challengerPercent < 0 || b.challengerPercent > 100 then BadRequest
        else if b.shadowPercent < 0 || b.shadowPercent > 100 then BadRequest
        else if b.canaryEnabled && b.shadowPercent > 0 then BadRequest
        else Accepted
  }

  /** A scoring request after it has loaded the state and drawn. */
  datatype Request = Request(transaction: int, live: Route, shadow: bool, loadedAt: nat)

  /** `updates` lists the states installed so far, the initial one first; `offered` the shadow tasks
      handed to the dispatcher, and `sent` every request routed so far. */
  datatype State = State(current: RouteState, updates: seq<RouteState>, requests: map<nat, Request>, offered: seq<Task>, sent: seq<Request>)

  datatype Event =
    | Update(req: AdminRequest)
    | Load(id: nat, transaction: int, draw: real)
    | Reply(id: nat, prediction: nat)
    | UpstreamError(id: nat)

  /** Canary starts disabled; the two percentages come from the environment unchecked. */
  function Init(initialCanary: int, initialShadow: int): State {
    var st := RouteState(false, initialCanary, initialShadow);
    State(st, [st], map[], [], [])
  }

  predicate Enabled(s: State, e: Event) {
    match e
    case Update(_) => true
    case Load(id, transaction, draw) => id !in s.requests && transaction != 0 && 0.0 <= draw < 1.0
    case Reply(id, _) => id in s.requests
    case UpstreamError(id) => id in s.requests
  }

  function Apply(s: State, e: Event): State
    requires Enabled(s, e)
  {
    match e
    case Update(req) =>
      if Admin(req).Accepted? then s.(current := req.body.value, updates := s.updates + [req.body.value]) else s
    case Load(id, transaction, draw) =>
      var (live, shadow) := Decide(s.current, draw);
      var r := Request(transaction, live, shadow, |s.updates|);
      s.(requests := s.requests[id := r], sent := s.sent + [r])
    case Reply(id, prediction) =>
      var r := s.requests[id];
      s.(requests := s.requests - {id},
         offered := if r.shadow then s.offered + [Task(r.transaction, Response(r.live, prediction))] else s.offered)
    case UpstreamError(id) => s.(requests := s.requests - {id})
  }

  function Run(s: State, es: seq<Event>): Option<State> {
    if es == [] then Some(s)
    else
      match Run(s, es[..|es|-1])
      case None => None
      case Some(m) => if Enabled(m, es[|es|-1]) then Some(Apply(m, es[|es|-1])) else None
  }

  /** What the state in force when a request loaded it allows. */
  ghost predicate RequestOk(s: State, r: Request) {
    && 1 <= r.loadedAt <= |s.updates|
    && (r.shadow ==> r.live.Champion?)
    && (r.live.Challenger? ==> s.updates[r.loadedAt-1].canaryEnabled && s.updates[r.loadedAt-1].challengerPercent > 0)
    && (r.shadow ==> !s.updates[r.loadedAt-1].canaryEnabled && s.updates[r.loadedAt-1].shadowPercent > 0)
  }

  predicate StateOk(st: RouteState) {
    st.canaryEnabled ==> st.shadowPercent == 0 && 0 <= st.challengerPercent <= 100
  }

  ghost predicate Inv(s: State) {
    && s.updates != [] && s.current == s.updates[|s.updates|-1]
    && (forall st :: st in s.updates ==> StateOk(st))
    && (forall id :: id in s.requests ==> RequestOk(s, s.requests[id]))
    && (forall r :: r in s.sent ==> RequestOk(s, r))
    && (forall t :: t in s.offered ==> t.champion.from.Champion?)
  }

  lemma StepKeepsInv(s: State, e: Event)
    requires Inv(s) && Enabled(s, e)
    ensures Inv(Apply(s, e))
  {
    if e.Load? {
      DecideJustified(s.current, e.draw);
    }
  }

  lemma DecideJustified(st: RouteState, r: real)
    requires 0.0 <= r
    ensures Decide(st, r).0.Challenger? ==> st.canaryEnabled && st.challengerPercent > 0
    ensures Decide(st, r).1 ==> !st.canaryEnabled && st.shadowPercent > 0 && Decide(st, r).0.Champion?
  {
  }

  lemma {:induction false} ReachableInv(initialCanary: int, initialShadow: int, es: seq<Event>)
    requires Run(Init(initialCanary, initialShadow), es).Some?
    ensures Inv(Run(Init(initialCanary, initialShadow), es).value)
    decreases es
  {
    if es != [] {
      ReachableInv(initialCanary, initialShadow, es[..|es|-1]);
      StepKeepsInv(Run(Init(initialCanary, initialShadow), es[..|es|-1]).value, es[|es|-1]);
    }
  }

  /** In every reachable state, whatever the initial percentages: an enabled canary has no shadow
      traffic, every task offered to the dispatcher carries an answer of the champion, and a request
      goes to the challenger, or to the shadow, only if the state it loaded says so. */
  lemma RoutingSafe(initialCanary: int, initialShadow: int, es: seq<Event>)
    requires Run(Init(initialCanary, initialShadow), es).Some?
    ensures var s := Run(Init(initialCanary, initialShadow), es).value;
            && (s.current.canaryEnabled ==> s.current.shadowPercent == 0)
            && (forall t :: t in s.offered ==> t.champion.from.Champion?)
            && (forall r :: r in s.sent ==> RequestOk(s, r))
  {
    ReachableInv(initialCanary, initialShadow, es);
  }

  predicate NoUpdateAccepted(es: seq<Event>) {
    forall e :: e in es && e.Update? ==> !Admin(e.req).Accepted?
  }

  /** After an accepted disable with both percentages 0, and until the next accepted update, every
      request that loads the state goes to the champion without shadow. Requests that loaded an
      earlier state are not recalled: they are the ones already sent. */
  lemma {:induction false} DisableTakesEffect(s: State, req: AdminRequest, es: seq<Event>)
    requires req.body == Some(RouteState(false, 0, 0)) && Admin(req).Accepted? && NoUpdateAccepted(es)
    requires Run(Apply(s, Update(req)), es).Some?
    ensures var m := Run(Apply(s, Update(req)), es).value;
            && m.current == RouteState(false, 0, 0)
            && |s.sent| <= |m.sent| && m.sent[..|s.sent|] == s.sent
            && forall i :: |s.sent| <= i < |m.sent| ==> m.sent[i].live.Champion? && !m.sent[i].shadow
    decreases es
  {
    if es != [] {
      DisableTakesEffect(s, req, es[..|es|-1]);
      assert es[|es|-1] in es;
    }
  }

  // ---------- the methods ----------

  datatype ScoreAnswer = Malformed | Unavailable | Answered(response: Response)

  class AtomicState {
    var st: RouteState

    constructor (initial: RouteState)
      ensures st == initial
    {
      st := initial;
    }
  }

  lemma Push(s: State, es: seq<Event>, m: State, e: Event) returns (es': seq<Event>, m': State)
    requires Run(s, es) == Some(m) && Enabled(m, e)
    ensures es' == es + [e] && m' == Apply(m, e) && Run(s, es') == Some(m')
  {
    hide Enabled, Apply;
    es', m' := es + [e], Apply(m, e);
    assert (es + [e])[..|es|] == es;
  }

  /** The handler between calls: no request is in progress. */
  class Handler {
    const state: AtomicState
    var offered: seq<Task>
    ghost var updates: seq<RouteState>
    ghost var sent: seq<Request>

    ghost function View(): State
      reads this, state
    {
      State(state.st, updates, map[], offered, sent)
    }

    constructor (initialCanary: int, initialShadow: int)
      ensures View() == Init(initialCanary, initialShadow) && fresh(state)
      ensures state.st == RouteState(false, initialCanary, initialShadow) && offered == []
    {
      state := new AtomicState(RouteState(false, initialCanary, initialShadow));
      offered, updates, sent := [], [RouteState(false, initialCanary, initialShadow)], [];
    }

    /** `handleAdminCanary`: installs the requested state exactly when it answers Accepted, and an accepted
        state never combines canary with shadow. */
    method HandleAdminCanary(req: AdminRequest) returns (answer: AdminAnswer)
      modifies state, this`updates
      ensures answer == Admin(req)
      ensures answer.Unauthorized? <==> !req.authorized
      ensures answer.Accepted? <==>
                && req.authorized && req.body.Some?
                && 0 <= req.body.value.challengerPercent <= 100 && 0 <= req.body.value.shadowPercent <= 100
                && !(req.body.value.canaryEnabled && req.body.value.shadowPercent > 0)
      ensures View() == Apply(old(View()), Update(req))
      ensures state.st == if answer.Accepted? then req.body.value else old(state.st)
      ensures StateOk(old(state.st)) ==> StateOk(state.st)
    {
      if !req.authorized {
        return Unauthorized;
      }
      if req.body.None? {
        return BadRequest;
      }
      var b := req.body.value;
      if b.challengerPercent < 0 || b.challengerPercent > 100 {
        return BadRequest;
      }
      if b.shadowPercent < 0 || b.shadowPercent > 100 {
        return BadRequest;
      }
      if b.canaryEnabled && b.shadowPercent > 0 {
        return BadRequest;
      }
      state.st := b;
      updates := updates + [b];
      answer := Accepted;
    }

    /** `handleScore`: 400 without a transaction, 503 when the chosen upstream fails, else its answer;
        and at most one task offered, only after an answer, and then with the champion's answer. */
    method HandleScore(transaction: Option<int>, draw: real, prediction: Option<nat>)
      returns (answer: ScoreAnswer, ghost es: seq<Event>)
      requires 0.0 <= draw < 1.0
      modifies this
      ensures answer.Malformed? <==> transaction.None? || transaction.value == 0
      ensures answer.Answered? <==> !answer.Malformed? && prediction.Some?
      ensures es == if answer.Malformed? then []
                    else [Load(0, transaction.value, draw),
                          if prediction.Some? then Reply(0, prediction.value) else Event.UpstreamError(0)]
      ensures Run(old(View()), es) == Some(View())
      ensures answer.Answered? ==> answer.response.prediction == prediction.value
      ensures answer.Answered? ==>
                (answer.response.from.Challenger? <==> state.st.canaryEnabled && draw * 100.0 < state.st.challengerPercent as real)
      ensures offered == if answer.Answered? && !state.st.canaryEnabled && draw * 100.0 < state.st.shadowPercent as real
                         then old(offered) + [Task(transaction.value, Response(Champion, prediction.value))] else old(offered)
    {
      ghost var s0 := View();
      es := [];
      if transaction.None? || transaction.value == 0 {
        return Malformed, es;
      }
      var (live, doShadow) := Decide(state.st, draw);
      sent := sent + [Request(transaction.value, live, doShadow, |updates|)];
      ghost var m;
      assert Run(s0, []) == Some(s0);
      es, m := Push(s0, [], s0, Load(0, transaction.value, draw));
      if prediction.None? {
        es, m := Push(s0, es, m, Event.UpstreamError(0));
        assert m.requests == map[];
        return Unavailable, es;
      }
      var resp := Response(live, prediction.value);
      if doShadow {
        offered := offered + [Task(transaction.value, resp)];
      }
      es, m := Push(s0, es, m, Reply(0, prediction.value));
      assert m.requests == map[];
      answer := Answered(resp);
    }
  }
}
