/** The canary control loop of monitoring/scripts/run_canary_evaluator.py: one evaluator process, the
    decision log, the role table, the champion container and the router, where every external call
    may fail, succeed, or take effect with its reply lost, and the process may be killed anywhere.
    Operators, registrations and other pairs' evaluators act at any moment in between. */
module CanaryController {
  import opened Options
  import opened ModelsTable
  import opened CanaryDecisions
  import CanaryRouter

  /** One row of `canary_decisions`; the metrics column keeps the window it was decided on. */
  datatype LogRow = LogRow(champion: Version, challenger: Version, decision: Decision, window: Option<Window>)

  type Router = CanaryRouter.RouteState

  /** What the evaluator asks of the router after a promotion or a rollback. */
  const CANARY_OFF: Router := CanaryRouter.RouteState(false, 0, 0)

  /** The router accepts it from whoever has the token, and then routes to the champion alone. */
  lemma CanaryOffIsAccepted(s: CanaryRouter.State)
    ensures var req := CanaryRouter.AdminRequest(true, Some(CANARY_OFF));
            && CanaryRouter.Admin(req).Accepted?
            && CanaryRouter.Apply(s, CanaryRouter.Update(req)).current == CanaryRouter.RouteState(false, 0, 0)
            && forall r: real :: CanaryRouter.Decide(CANARY_OFF, r) == (CanaryRouter.Champion, false)
  {
  }

  /** How an external write ends for the caller and for the callee. */
  datatype Reply = Done | Failed | ReplyLost

  /** A reload request: refused without effect, effective but unanswered, or answered. */
  datatype ReloadReply = Refused | LoadedUnanswered(v: Version) | Answered(v: Version)

  /** Where the evaluator is; a row index says which stored decision it is applying. */
  datatype Step =
    | Idle
    | Evaluating
    | Writing(d: Decision, window: Option<Window>)
    | Reloading(row: nat)
    | Committing(row: nat)
    | Retiring(row: nat)
    | Disabling

  datatype State = State(
    log: seq<LogRow>,
    models: Rows,
    container: Version,
    router: Router,
    step: Step)

  datatype Event =
    | ReadRouter(answered: bool)
    | EvaluateWindow(w: Option<Window>)   // None: the query or the metrics raised
    | Write(reply: Reply)
    | Reload(reload: ReloadReply)
    | Commit(reply: Reply)
    | RetireRow(reply: Reply)
    | SetRouter(reply: Reply)
    | Crash
    | OperatorRoutes(router: Router)
    | OperatorReloads(v: Version)
    | OtherPairLogs(row: LogRow)
    | OtherRegisters(champion: Version, challenger: Version)
    | OtherPromotes(v: Version)
    | OtherRetires(v: Version)

  predicate IsPair(c: Config, r: LogRow) {
    r.champion == c.champion && r.challenger == c.challenger
  }

  /** The pair's rows, oldest first. */
  function PairRows(c: Config, log: seq<LogRow>): seq<LogRow> {
    if log == [] then []
    else if IsPair(c, log[|log|-1]) then PairRows(c, log[..|log|-1]) + [log[|log|-1]]
    else PairRows(c, log[..|log|-1])
  }

  function Outcomes(rows: seq<LogRow>): seq<Outcome> {
    seq(|rows|, i requires 0 <= i < |rows| => rows[i].decision.outcome)
  }

  /** `_count_consecutive_improvements` on the database. */
  function Consecutive(c: Config, log: seq<LogRow>): nat {
    Min(Streak(Outcomes(PairRows(c, log))), QUERY_LIMIT)
  }

  predicate Enabled(c: Config, s: State, e: Event) {
    match e
    case ReadRouter(_) => s.step.Idle?
    case EvaluateWindow(_) => s.step.Evaluating?
    case Write(_) => s.step.Writing?
    case Reload(_) => s.step.Reloading?
    case Commit(_) => s.step.Committing?
    case RetireRow(_) => s.step.Retiring?
    case SetRouter(_) => s.step.Disabling?
    case Crash => true
    case OperatorRoutes(_) => true
    case OperatorReloads(_) => true
    // one evaluator process per pair
    case OtherPairLogs(row) => !IsPair(c, row)
    case OtherRegisters(_, _) => true
    case OtherPromotes(_) => true
    case OtherRetires(_) => true
  }

  predicate External(e: Event) {
    e.OperatorRoutes? || e.OperatorReloads? || e.OtherPairLogs? || e.OtherRegisters? || e.OtherPromotes? || e.OtherRetires?
  }

  /** What `apply_decision` does first with the row just stored. */
  function AfterWrite(d: Decision, row: nat): Step {
    match d.verdict
    case Promote => Reloading(row)
    case Rollback => Retiring(row)
    case Continue => Idle
  }

  function Apply(c: Config, s: State, e: Event): State
    requires Enabled(c, s, e)
  {
    match e
    case ReadRouter(answered) =>
      s.(step := if answered && s.router.canaryEnabled then Evaluating else Writing(Decision(Continue, Inactive), None))
    case EvaluateWindow(w) =>
      s.(step := if w.None? then Idle else Writing(Evaluate(c, w.value, Consecutive(c, s.log)), w))
    case Write(reply) =>
      if reply.Failed? then s.(step := Idle)
      else s.(log := s.log + [LogRow(c.champion, c.challenger, s.step.d, s.step.window)],
              step := if reply.Done? then AfterWrite(s.step.d, |s.log|) else Idle)
    case Reload(Refused) => s.(step := Idle)
    case Reload(LoadedUnanswered(v)) => s.(container := v, step := Idle)
    case Reload(Answered(v)) =>
      s.(container := v, step := if v == c.challenger then Committing(s.step.row) else Idle)
    case Commit(reply) =>
      s.(models := if reply.Failed? then s.models else ModelsTable.Promote(s.models, c.challenger),
         step := if reply.Done? then Disabling else Idle)
    case RetireRow(reply) =>
      s.(models := if reply.Failed? then s.models else Retire(s.models, c.challenger),
         step := if reply.Done? then Disabling else Idle)
    case SetRouter(reply) => s.(router := if reply.Failed? then s.router else CANARY_OFF, step := Idle)
    case Crash => s.(step := Idle)
    case OperatorRoutes(r) => s.(router := r)
    case OperatorReloads(v) => s.(container := v)
    case OtherPairLogs(row) => s.(log := s.log + [row])
    case OtherRegisters(v, w) => s.(models := Register(s.models, v, w).GetOr(s.models))
    case OtherPromotes(v) => s.(models := ModelsTable.Promote(s.models, v))
    case OtherRetires(v) => s.(models := Retire(s.models, v))
  }

  /** The state after the events, if each was enabled in its turn. */
  function Run(c: Config, s: State, es: seq<Event>): Option<State> {
    if es == [] then Some(s)
    else
      match Run(c, s, es[..|es|-1])
      case None => None
      case Some(m) => if Enabled(c, m, es[|es|-1]) then Some(Apply(c, m, es[|es|-1])) else None
  }

  // ---------- what a recorded promotion rests on ----------

  /** The rows from i - (required - 1) up to i, not including i, are all `improving`. */
  ghost predicate RestsOnStreak(c: Config, rows: seq<LogRow>, i: nat)
    requires i < |rows|
  {
    c.requiredRuns - 1 <= i && forall j :: 0 <= j && i - (c.requiredRuns - 1) <= j < i ==> rows[j].decision.outcome.Improving?
  }

  ghost predicate RowOk(c: Config, base: nat, rows: seq<LogRow>, i: nat)
    requires i < |rows|
  {
    var r := rows[i];
    && (r.decision.verdict.Promote? <==> r.decision.outcome.Promoted?)
    && (r.decision.verdict.Rollback? <==> r.decision.outcome.RolledBack?)
    && (r.decision.outcome.Promoted? ==> RestsOnStreak(c, rows, i) && c.requiredRuns <= QUERY_LIMIT + 1)
    && (r.decision.outcome.Promoted? || r.decision.outcome.Improving? ==> r.window.Some? && GoodWindow(c, r.window.value))
    && (r.decision.outcome.RolledBack? ==>
          r.window.Some? && EnoughData(c, r.window.value) && !GuardrailsClear(c, r.window.value))
  }

  /** The rows from `base` on, those this run of the process wrote. */
  ghost predicate PairInv(c: Config, base: nat, rows: seq<LogRow>) {
    base <= |rows| && forall i :: base <= i < |rows| ==> RowOk(c, base, rows, i)
  }

  /** The row a pending decision would add is one the log may hold. */
  ghost predicate Inv(c: Config, base: nat, s: State) {
    && PairInv(c, base, PairRows(c, s.log))
    && (s.step.Writing? ==>
          PairInv(c, base, PairRows(c, s.log) + [LogRow(c.champion, c.challenger, s.step.d, s.step.window)]))
    && (s.step.Reloading? || s.step.Committing? ==>
          s.step.row < |s.log| && IsPair(c, s.log[s.step.row]) && s.log[s.step.row].decision.verdict.Promote?)
    && (s.step.Retiring? ==>
          s.step.row < |s.log| && IsPair(c, s.log[s.step.row]) && s.log[s.step.row].decision.verdict.Rollback?)
  }

  lemma PairRowsSnoc(c: Config, log: seq<LogRow>, r: LogRow)
    ensures PairRows(c, log + [r]) == if IsPair(c, r) then PairRows(c, log) + [r] else PairRows(c, log)
  {
    assert (log + [r])[..|log|] == log;
  }

  /** The pair's rows are exactly those that name its champion and its challenger, and a row that names
      another version in either place leaves the pair's streak as it was. */
  lemma {:induction false} PairRowsExactly(c: Config, log: seq<LogRow>)
    ensures forall r :: r in PairRows(c, log) <==> r in log && r.champion == c.champion && r.challenger == c.challenger
    decreases log
  {
    if log != [] {
      PairRowsExactly(c, log[..|log|-1]);
      assert log == log[..|log|-1] + [log[|log|-1]];
    }
  }

  lemma OtherRowsDoNotCount(c: Config, log: seq<LogRow>, r: LogRow)
    ensures r.champion != c.champion || r.challenger != c.challenger ==>
              PairRows(c, log + [r]) == PairRows(c, log) && Consecutive(c, log + [r]) == Consecutive(c, log)
    ensures r.champion == c.champion && r.challenger == c.challenger ==> PairRows(c, log + [r]) == PairRows(c, log) + [r]
  {
    PairRowsSnoc(c, log, r);
  }

  lemma EmptyLog(c: Config)
    ensures Outcomes(PairRows(c, [])) == []
  {
  }

  lemma RowOkStays(c: Config, base: nat, rows: seq<LogRow>, r: LogRow, i: nat)
    requires i < |rows| && RowOk(c, base, rows, i)
    ensures RowOk(c, base, rows + [r], i)
  {
  }

  lemma EvaluatedRowOk(c: Config, base: nat, rows: seq<LogRow>, w: Window)
    requires PairInv(c, base, rows)
    ensures var d := Evaluate(c, w, Min(Streak(Outcomes(rows)), QUERY_LIMIT));
            PairInv(c, base, rows + [LogRow(c.champion, c.challenger, d, Some(w))])
  {
    var n := Min(Streak(Outcomes(rows)), QUERY_LIMIT);
    var r := LogRow(c.champion, c.challenger, Evaluate(c, w, n), Some(w));
    OutcomesExactly(c, w, n);
    if r.decision.outcome.Promoted? && c.requiredRuns >= 1 {
      StreakExactly(Outcomes(rows), c.requiredRuns - 1);
      assert forall j :: 0 <= j < |rows| && Outcomes(rows)[j].Improving? ==> rows[j].decision.outcome.Improving?;
      assert RestsOnStreak(c, rows + [r], |rows|);
    }
    forall i | base <= i < |rows| + 1 ensures RowOk(c, base, rows + [r], i) {
      if i < |rows| { RowOkStays(c, base, rows, r, i); }
    }
  }

  lemma InactiveRowOk(c: Config, base: nat, rows: seq<LogRow>)
    requires PairInv(c, base, rows)
    ensures PairInv(c, base, rows + [LogRow(c.champion, c.challenger, Decision(Continue, Inactive), None)])
  {
    var r := LogRow(c.champion, c.challenger, Decision(Continue, Inactive), None);
    forall i | base <= i < |rows| + 1 ensures RowOk(c, base, rows + [r], i) {
      if i < |rows| { RowOkStays(c, base, rows, r, i); }
    }
  }

  lemma StepKeepsPairInv(c: Config, base: nat, s: State, e: Event)
    requires Inv(c, base, s) && Enabled(c, s, e)
    ensures PairInv(c, base, PairRows(c, Apply(c, s, e).log))
  {
    if e.Write? {
      PairRowsSnoc(c, s.log, LogRow(c.champion, c.challenger, s.step.d, s.step.window));
    } else if e.OtherPairLogs? {
      PairRowsSnoc(c, s.log, e.row);
    }
    hide PairInv, PairRows;
  }

  lemma StepKeepsInv(c: Config, base: nat, s: State, e: Event)
    requires Inv(c, base, s) && Enabled(c, s, e)
    ensures Inv(c, base, Apply(c, s, e))
  {
    StepKeepsPairInv(c, base, s, e);
    match e
    case ReadRouter(_) => InactiveRowOk(c, base, PairRows(c, s.log));
    case EvaluateWindow(w) => if w.Some? { EvaluatedRowOk(c, base, PairRows(c, s.log), w.value); }
    case Write(_) => WrittenRow(c, s);
    case OtherPairLogs(row) => PairRowsSnoc(c, s.log, row);
    case _ =>
    hide PairInv, PairRows, Evaluate;
  }

  /** A pending row's verdict is the one the log will hold. */
  lemma WrittenRow(c: Config, s: State)
    requires s.step.Writing?
    ensures var log := s.log + [LogRow(c.champion, c.challenger, s.step.d, s.step.window)];
            IsPair(c, log[|s.log|]) && log[|s.log|].decision == s.step.d
  {
  }

  /** The rows of the pair at the start; this run of the process writes the later ones. */
  function Base(c: Config, s0: State): nat {
    |PairRows(c, s0.log)|
  }

  lemma {:induction false} ReachableInv(c: Config, s0: State, es: seq<Event>)
    requires s0.step.Idle? && Run(c, s0, es).Some?
    ensures Inv(c, Base(c, s0), Run(c, s0, es).value)
    decreases es
  {
    if es != [] {
      ReachableInv(c, s0, es[..|es|-1]);
      StepKeepsInv(c, Base(c, s0), Run(c, s0, es[..|es|-1]).value, es[|es|-1]);
    }
  }

  // ---------- main results: the log ----------

  /** In every run, from any log, a `promoted` row the run records is immediately preceded, among the rows
      of its pair, by required - 1 `improving` rows; and it and each of those that the run recorded was
      decided on a window that met the sample minimum, cleared every guardrail and beat the promotion
      delta. */
  lemma PromotionsRestOnStreaks(c: Config, s0: State, es: seq<Event>, i: nat, j: nat)
    requires s0.step.Idle? && Run(c, s0, es).Some?
    requires var rows := PairRows(c, Run(c, s0, es).value.log);
             Base(c, s0) <= i < |rows| && rows[i].decision.outcome.Promoted? && i - (c.requiredRuns - 1) <= j <= i
    ensures var rows := PairRows(c, Run(c, s0, es).value.log);
            && c.requiredRuns - 1 <= i
            && (j < i ==> rows[j].decision.outcome.Improving?)
            && (j >= Base(c, s0) ==> rows[j].window.Some? && GoodWindow(c, rows[j].window.value))
  {
    ReachableInv(c, s0, es);
    var rows := PairRows(c, Run(c, s0, es).value.log);
    assert RowOk(c, Base(c, s0), rows, i);
    if j >= Base(c, s0) { assert RowOk(c, Base(c, s0), rows, j); }
  }

  /** A `promoted` row the run records is at least `required` rows after any other of the pair, so a
      promotion whose reload fails needs a full new streak. */
  lemma PromotionsAreSpaced(c: Config, s0: State, es: seq<Event>, i: nat, j: nat)
    requires s0.step.Idle? && Run(c, s0, es).Some?
    requires var rows := PairRows(c, Run(c, s0, es).value.log);
             i < j < |rows| && Base(c, s0) <= j && rows[i].decision.outcome.Promoted? && rows[j].decision.outcome.Promoted?
    ensures j - i >= c.requiredRuns
  {
    ReachableInv(c, s0, es);
    assert RowOk(c, Base(c, s0), PairRows(c, Run(c, s0, es).value.log), j);
  }

  /** The query reads ten rows, so a configuration that requires more than eleven runs never promotes. */
  lemma MoreThanElevenRunsNeverPromote(c: Config, s0: State, es: seq<Event>, i: nat)
    requires c.requiredRuns > 11 && s0.step.Idle? && Run(c, s0, es).Some?
    requires Base(c, s0) <= i < |PairRows(c, Run(c, s0, es).value.log)|
    ensures !PairRows(c, Run(c, s0, es).value.log)[i].decision.outcome.Promoted?
  {
    ReachableInv(c, s0, es);
    assert RowOk(c, Base(c, s0), PairRows(c, Run(c, s0, es).value.log), i);
  }

  // ---------- main results: the role table ----------

  ghost predicate WriteAt(c: Config, s0: State, es: seq<Event>, k: nat, verdict: Verdict) {
    && k < |es| && es[k] == Write(Done)
    && Run(c, s0, es[..k]).Some? && Run(c, s0, es[..k]).value.step.Writing?
    && Run(c, s0, es[..k]).value.step.d.verdict == verdict
  }

  ghost predicate OnlyExternal(es: seq<Event>, from: nat, to: nat) {
    to <= |es| && forall j :: from <= j < to ==> External(es[j])
  }

  /** How the evaluator gets to the steps that touch the outside. */
  lemma StepsInto(c: Config, s: State, e: Event)
    requires Enabled(c, s, e)
    ensures External(e) ==> Apply(c, s, e).step == s.step
    ensures !External(e) && Apply(c, s, e).step.Reloading? ==> e == Write(Done) && s.step.Writing? && s.step.d.verdict.Promote?
    ensures !External(e) && Apply(c, s, e).step.Retiring? ==> e == Write(Done) && s.step.Writing? && s.step.d.verdict.Rollback?
    ensures !External(e) && Apply(c, s, e).step.Committing? ==> e == Reload(Answered(c.challenger)) && s.step.Reloading?
  {
  }

  /** A state in which the evaluator is about to reload or to retire was reached by storing the
      matching decision, with nothing of its own in between. */
  lemma {:induction false} DecisionStoredBefore(c: Config, s0: State, es: seq<Event>) returns (k: nat)
    requires s0.step.Idle? && Run(c, s0, es).Some?
    requires Run(c, s0, es).value.step.Reloading? || Run(c, s0, es).value.step.Retiring?
    ensures WriteAt(c, s0, es, k, if Run(c, s0, es).value.step.Reloading? then Promote else Rollback)
    ensures OnlyExternal(es, k + 1, |es|)
    decreases es
  {
    var init, last := es[..|es|-1], es[|es|-1];
    StepsInto(c, Run(c, s0, init).value, last);
    hide Enabled, Apply;
    if External(last) {
      k := DecisionStoredBefore(c, s0, init);
      assert init[..k] == es[..k];
    } else {
      k := |es| - 1;
    }
  }

  /** Likewise, a state in which a promotion is about to commit was reached by a reload that answered
      with the challenger's version, itself preceded by the stored promotion decision. */
  lemma {:induction false} ReloadAnsweredBefore(c: Config, s0: State, es: seq<Event>) returns (k: nat, m: nat)
    requires s0.step.Idle? && Run(c, s0, es).Some? && Run(c, s0, es).value.step.Committing?
    ensures k < m < |es| && WriteAt(c, s0, es, k, Promote) && es[m] == Reload(Answered(c.challenger))
    ensures OnlyExternal(es, k + 1, m) && OnlyExternal(es, m + 1, |es|)
    decreases es
  {
    var init, last := es[..|es|-1], es[|es|-1];
    StepsInto(c, Run(c, s0, init).value, last);
    hide Enabled, Apply, WriteAt, External;
    if External(last) {
      k, m := ReloadAnsweredBefore(c, s0, init);
    } else {
      m := |es| - 1;
      k := DecisionStoredBefore(c, s0, init);
    }
    WriteAtStays(c, s0, es, k, Promote);
  }

  lemma WriteAtStays(c: Config, s0: State, es: seq<Event>, k: nat, verdict: Verdict)
    requires es != [] && WriteAt(c, s0, es[..|es|-1], k, verdict)
    ensures WriteAt(c, s0, es, k, verdict)
  {
    assert es[..|es|-1][..k] == es[..k];
  }

  /** Wherever calls fail or the process is killed: this evaluator changes the role table only in a
      commit that follows the storing of the matching decision row, having done nothing else in
      between but, for a promotion, a reload that the champion container answered with the
      challenger's version. */
  lemma RoleChangesAreJustified(c: Config, s0: State, es: seq<Event>, e: Event) returns (k: nat, m: nat)
    requires s0.step.Idle? && Run(c, s0, es).Some? && Enabled(c, Run(c, s0, es).value, e) && !External(e)
    requires Apply(c, Run(c, s0, es).value, e).models != Run(c, s0, es).value.models
    ensures (e.Commit? || e.RetireRow?) && !e.reply.Failed?
    ensures e.Commit? ==>
              && k < m < |es| && WriteAt(c, s0, es, k, Promote) && es[m] == Reload(Answered(c.challenger))
              && OnlyExternal(es, k + 1, m) && OnlyExternal(es, m + 1, |es|)
    ensures e.RetireRow? ==> WriteAt(c, s0, es, k, Rollback) && OnlyExternal(es, k + 1, |es|)
  {
    k, m := 0, 0;
    if e.Commit? {
      k, m := ReloadAnsweredBefore(c, s0, es);
    } else if e.RetireRow? {
      k := DecisionStoredBefore(c, s0, es);
    }
  }

  /** Only a registration that commits over another champion is unsafe. */
  predicate SafeStep(models: Rows, e: Event) {
    e.OtherRegisters? && Register(models, e.champion, e.challenger).Some? ==> RegistrationSafe(models, e.champion, e.challenger)
  }

  lemma StepKeepsOneChampionExactly(c: Config, s: State, e: Event)
    requires AtMostOneChampion(s.models) && Enabled(c, s, e)
    ensures AtMostOneChampion(Apply(c, s, e).models) <==> SafeStep(s.models, e)
  {
    match e
    case Commit(_) => RoleChangesKeepOneChampion(s.models, c.challenger);
    case RetireRow(_) => RoleChangesKeepOneChampion(s.models, c.challenger);
    case OtherPromotes(v) => RoleChangesKeepOneChampion(s.models, v);
    case OtherRetires(v) => RoleChangesKeepOneChampion(s.models, v);
    case OtherRegisters(v, w) => if Register(s.models, v, w).Some? { RegistrationKeepsOneChampionExactly(s.models, v, w); }
    case _ =>
    hide AtMostOneChampion, RegistrationSafe, Register, ModelsTable.Promote, Retire;
  }

  predicate HasChampion(models: Rows) {
    WithRole(models, Champion) != {}
  }

  /** When a step leaves a champion: a promotion of a registered version, or a retirement or a demotion by
      registration that is not of the only one. */
  predicate ChampionSurvives(c: Config, models: Rows, e: Event) {
    match e
    case Commit(reply) => reply.Failed? || c.challenger in models
    case RetireRow(reply) => reply.Failed? || WithRole(models, Champion) - {c.challenger} != {}
    case OtherPromotes(v) => v in models
    case OtherRetires(v) => WithRole(models, Champion) - {v} != {}
    case OtherRegisters(v, w) => Register(models, v, w).None? || v != w || WithRole(models, Champion) - {w} != {}
    case _ => true
  }

  lemma StepKeepsAChampionExactly(c: Config, s: State, e: Event)
    requires HasChampion(s.models) && Enabled(c, s, e)
    ensures HasChampion(Apply(c, s, e).models) <==> ChampionSurvives(c, s.models, e)
  {
    match e
    case Commit(_) => RoleChangesKeepOneChampion(s.models, c.challenger);
    case RetireRow(_) => RoleChangesKeepOneChampion(s.models, c.challenger);
    case OtherPromotes(v) => RoleChangesKeepOneChampion(s.models, v);
    case OtherRetires(v) => RoleChangesKeepOneChampion(s.models, v);
    case OtherRegisters(v, w) =>
      RegistrationOutcome(s.models, v, w);
      LeftWhenSwapped(WithRole(s.models, Champion), v, w);
    case _ =>
    hide Register, ModelsTable.Promote, Retire, WithRole;
  }

  lemma LeftWhenSwapped(champions: set<Version>, v: Version, w: Version)
    ensures champions + {v} - {w} != {} <==> v != w || champions - {w} != {}
  {
    if v != w {
      assert v in champions + {v} - {w};
    } else {
      assert champions + {v} - {v} == champions - {v};
    }
  }

  ghost predicate After(c: Config, s0: State, es: seq<Event>, n: nat, holds: Rows -> bool)
    requires n <= |es|
  {
    Run(c, s0, es[..n]).Some? && holds(Run(c, s0, es[..n]).value.models)
  }

  ghost predicate StepAt(c: Config, s0: State, es: seq<Event>, n: nat, keeps: (Rows, Event) -> bool)
    requires n < |es|
  {
    Run(c, s0, es[..n]).Some? && keeps(Run(c, s0, es[..n]).value.models, es[n])
  }

  /** The property holds of the role table at every point of the run. */
  ghost predicate Always(c: Config, s0: State, es: seq<Event>, holds: Rows -> bool) {
    forall n :: 0 <= n <= |es| ==> After(c, s0, es, n, holds)
  }

  ghost predicate AtEveryStep(c: Config, s0: State, es: seq<Event>, keeps: (Rows, Event) -> bool) {
    forall n :: 0 <= n < |es| ==> StepAt(c, s0, es, n, keeps)
  }

  ghost predicate KeptExactly(c: Config, s: State, e: Event, holds: Rows -> bool, keeps: (Rows, Event) -> bool) {
    Enabled(c, s, e) && holds(s.models) ==> (holds(Apply(c, s, e).models) <==> keeps(s.models, e))
  }

  lemma AlwaysSnoc(c: Config, s0: State, es: seq<Event>, holds: Rows -> bool, keeps: (Rows, Event) -> bool)
    requires es != []
    ensures Always(c, s0, es, holds) <==> Always(c, s0, es[..|es|-1], holds) && After(c, s0, es, |es|, holds)
    ensures AtEveryStep(c, s0, es, keeps) <==> AtEveryStep(c, s0, es[..|es|-1], keeps) && StepAt(c, s0, es, |es| - 1, keeps)
  {
    var init := es[..|es|-1];
    hide Run;
    assert forall n :: 0 <= n <= |init| ==> init[..n] == es[..n];
    assert forall n :: 0 <= n <= |init| ==> (After(c, s0, es, n, holds) <==> After(c, s0, init, n, holds));
    assert forall n :: 0 <= n < |init| ==> (StepAt(c, s0, es, n, keeps) <==> StepAt(c, s0, init, n, keeps));
  }

  /** What every single step keeps exactly under a condition, a run keeps exactly under it at every step. */
  lemma {:induction false} RunKeepsExactly(c: Config, s0: State, es: seq<Event>, holds: Rows -> bool, keeps: (Rows, Event) -> bool)
    requires holds(s0.models) && Run(c, s0, es).Some?
    requires forall s, e :: KeptExactly(c, s, e, holds, keeps)
    ensures Always(c, s0, es, holds) <==> AtEveryStep(c, s0, es, keeps)
    decreases es
  {
    hide Enabled, Apply;
    assert es[..|es|] == es;
    if es != [] {
      var init := es[..|es|-1];
      RunKeepsExactly(c, s0, init, holds, keeps);
      AlwaysSnoc(c, s0, es, holds, keeps);
      if Always(c, s0, init, holds) {
        assert After(c, s0, init, |init|, holds) && init[..|init|] == init;
        assert KeptExactly(c, Run(c, s0, init).value, es[|es|-1], holds, keeps);
      }
    }
  }

  /** From a table with at most one champion there is at most one at every point of a run exactly when no
      registration in it commits over a champion other than its own two versions. Whatever fails or
      stops, the evaluators keep it. */
  lemma OneChampionExactly(c: Config, s0: State, es: seq<Event>)
    requires AtMostOneChampion(s0.models) && Run(c, s0, es).Some?
    ensures Always(c, s0, es, AtMostOneChampion) <==> AtEveryStep(c, s0, es, SafeStep)
  {
    hide Enabled, Apply, AtMostOneChampion, SafeStep, Run;
    forall s, e ensures KeptExactly(c, s, e, AtMostOneChampion, SafeStep) {
      if AtMostOneChampion(s.models) && Enabled(c, s, e) { StepKeepsOneChampionExactly(c, s, e); }
    }
    RunKeepsExactly(c, s0, es, AtMostOneChampion, SafeStep);
  }

  /** From a table with a champion there is one at every point of a run exactly when every step of it that
      takes effect leaves one: no commit promotes an unregistered challenger, and nobody retires or
      demotes the only champion. */
  lemma ChampionStaysExactly(c: Config, s0: State, es: seq<Event>)
    requires HasChampion(s0.models) && Run(c, s0, es).Some?
    ensures Always(c, s0, es, HasChampion) <==> AtEveryStep(c, s0, es, (m, e) => ChampionSurvives(c, m, e))
  {
    var survives := (m, e) => ChampionSurvives(c, m, e);
    hide Enabled, Apply, HasChampion, ChampionSurvives, Run;
    forall s, e ensures KeptExactly(c, s, e, HasChampion, survives) {
      if HasChampion(s.models) && Enabled(c, s, e) { StepKeepsAChampionExactly(c, s, e); }
    }
    RunKeepsExactly(c, s0, es, HasChampion, survives);
  }

  predicate ExactlyOneChampion(models: Rows) {
    AtMostOneChampion(models) && HasChampion(models)
  }

  /** Both together: exactly one champion at every point exactly when every step meets both conditions. */
  lemma ExactlyOneChampionExactly(c: Config, s0: State, es: seq<Event>)
    requires ExactlyOneChampion(s0.models) && Run(c, s0, es).Some?
    ensures Always(c, s0, es, ExactlyOneChampion) <==> AtEveryStep(c, s0, es, (m, e) => SafeStep(m, e) && ChampionSurvives(c, m, e))
  {
    var keeps := (m, e) => SafeStep(m, e) && ChampionSurvives(c, m, e);
    hide Enabled, Apply, AtMostOneChampion, HasChampion, SafeStep, ChampionSurvives, Run;
    forall s, e ensures KeptExactly(c, s, e, ExactlyOneChampion, keeps) {
      if ExactlyOneChampion(s.models) && Enabled(c, s, e) {
        StepKeepsOneChampionExactly(c, s, e);
        StepKeepsAChampionExactly(c, s, e);
      }
    }
    RunKeepsExactly(c, s0, es, ExactlyOneChampion, keeps);
  }

  /** A commit leaves exactly the challenger champion if it is registered, no champion if not. The
      evaluator itself takes a version out of `retired` exactly when it commits the promotion of a
      challenger that is retired at that moment. */
  lemma CommitOutcome(c: Config, s: State, e: Event)
    requires Enabled(c, s, e) && !External(e)
    ensures var s' := Apply(c, s, e);
            && (e.Commit? && !e.reply.Failed? ==>
                  WithRole(s'.models, Champion) == if c.challenger in s.models then {c.challenger} else {})
            && (WithRole(s.models, Retired) - WithRole(s'.models, Retired) != {} <==>
                  e.Commit? && !e.reply.Failed? && c.challenger in WithRole(s.models, Retired))
  {
    RoleChangesKeepOneChampion(s.models, c.challenger);
    PromotionRevivesExactly(s.models, c.challenger);
    var retired := WithRole(s.models, Retired);
    assert c.challenger in retired <==> retired * {c.challenger} == {c.challenger};
    assert retired <= WithRole(Retire(s.models, c.challenger), Retired);
    hide ModelsTable.Promote, Retire;
  }

  // ---------- runs of the evaluator alone ----------

  /** Nobody else acts. */
  predicate Own(es: seq<Event>) {
    forall e :: e in es ==> !External(e)
  }

  lemma Push(c: Config, s: State, es: seq<Event>, m: State, e: Event) returns (es': seq<Event>, m': State)
    requires Run(c, s, es) == Some(m) && Enabled(c, m, e)
    ensures es' == es + [e] && m' == Apply(c, m, e) && Run(c, s, es') == Some(m')
  {
    hide Enabled, Apply;
    es', m' := es + [e], Apply(c, m, e);
    assert (es + [e])[..|es|] == es;
  }

  lemma {:induction false} RunConcat(c: Config, s: State, es: seq<Event>, es': seq<Event>) returns (all: seq<Event>)
    requires Run(c, s, es).Some? && Run(c, Run(c, s, es).value, es').Some?
    ensures all == es + es' && Run(c, s, all) == Run(c, Run(c, s, es).value, es')
    decreases es'
  {
    hide Enabled, Apply;
    all := es + es';
    if es' == [] {
      assert all == es;
    } else {
      var init := RunConcat(c, s, es, es'[..|es'|-1]);
      assert all[..|all|-1] == init;
    }
  }

  /** The streak the pair's rows end with. */
  function PairStreak(c: Config, s: State): nat {
    Streak(Outcomes(PairRows(c, s.log)))
  }

  /** Between two iterations, with the canary on. */
  predicate Ready(s: State) {
    s.step.Idle? && s.router.canaryEnabled
  }

  predicate BadWindow(c: Config, w: Window) {
    EnoughData(c, w) && !GuardrailsClear(c, w)
  }

  lemma PairStreakSnoc(c: Config, log: seq<LogRow>, r: LogRow)
    requires IsPair(c, r)
    ensures Streak(Outcomes(PairRows(c, log + [r]))) == if r.decision.outcome.Improving? then Streak(Outcomes(PairRows(c, log))) + 1 else 0
  {
    PairRowsSnoc(c, log, r);
    hide PairRows;
    OutcomesSnoc(PairRows(c, log), r);
    StreakSnoc(Outcomes(PairRows(c, log)), r.decision.outcome);
  }

  lemma OutcomesSnoc(rows: seq<LogRow>, r: LogRow)
    ensures Outcomes(rows + [r]) == Outcomes(rows) + [r.decision.outcome]
  {
  }

  lemma StreakSnoc(outcomes: seq<Outcome>, o: Outcome)
    ensures Streak(outcomes + [o]) == if o.Improving? then Streak(outcomes) + 1 else 0
  {
    assert (outcomes + [o])[..|outcomes|] == outcomes;
  }

  /** The evaluator reads the router, decides on window w and stores the row. */
  lemma DecideRun(c: Config, s0: State, es: seq<Event>, m: State, w: Window) returns (es': seq<Event>, m': State)
    requires Own(es) && Run(c, s0, es) == Some(m) && Ready(m)
    ensures Own(es') && Run(c, s0, es') == Some(m') && es <= es'
    ensures var d := Evaluate(c, w, Consecutive(c, m.log));
            && m' == m.(log := m.log + [LogRow(c.champion, c.challenger, d, Some(w))], step := AfterWrite(d, |m.log|))
            && PairStreak(c, m') == if d.outcome.Improving? then PairStreak(c, m) + 1 else 0
  {
    var d := Evaluate(c, w, Consecutive(c, m.log));
    PairStreakSnoc(c, m.log, LogRow(c.champion, c.challenger, d, Some(w)));
    hide Run, Evaluate, Consecutive, PairRows, Streak;
    es', m' := EvaluateRun(c, s0, es, m, w);
    es', m' := Push(c, s0, es', m', Write(Done));
  }

  /** Up to the decision. */
  lemma EvaluateRun(c: Config, s0: State, es: seq<Event>, m: State, w: Window) returns (es': seq<Event>, m': State)
    requires Own(es) && Run(c, s0, es) == Some(m) && Ready(m)
    ensures Own(es') && Run(c, s0, es') == Some(m') && es <= es'
    ensures m' == m.(step := Writing(Evaluate(c, w, Consecutive(c, m.log)), Some(w)))
  {
    hide Run, Evaluate, Consecutive;
    es', m' := Push(c, s0, es, m, ReadRouter(true));
    es', m' := Push(c, s0, es', m', EvaluateWindow(Some(w)));
  }

  /** Good windows, one after the other, until the streak is long enough. */
  lemma {:induction false} ImproveRun(c: Config, s0: State, es: seq<Event>, m: State, w: Window) returns (es': seq<Event>, m': State)
    requires Own(es) && Run(c, s0, es) == Some(m) && Ready(m) && GoodWindow(c, w) && c.requiredRuns <= 11
    ensures Own(es') && Run(c, s0, es') == Some(m') && es <= es' && m' == m.(log := m'.log)
    ensures Consecutive(c, m'.log) >= c.requiredRuns - 1
    decreases c.requiredRuns - PairStreak(c, m)
  {
    es', m' := es, m;
    if PairStreak(c, m) < c.requiredRuns - 1 {
      OutcomesExactly(c, w, Consecutive(c, m.log));
      hide GoodWindow, Evaluate, Run;
      es', m' := DecideRun(c, s0, es, m, w);
      es', m' := ImproveRun(c, s0, es', m', w);
    }
  }

  /** A promotion in which every call succeeds, except perhaps the last. */
  lemma PromoteRun(c: Config, s0: State, es: seq<Event>, m: State, w: Window, disable: Reply) returns (es': seq<Event>, m': State)
    requires Own(es) && Run(c, s0, es) == Some(m) && Ready(m) && GoodWindow(c, w) && c.requiredRuns <= 11
    ensures Own(es') && Run(c, s0, es') == Some(m') && es <= es' && m'.step.Idle?
    ensures m'.models == ModelsTable.Promote(m.models, c.challenger)
    ensures m'.router == if disable.Failed? then m.router else CANARY_OFF
  {
    es', m' := ImproveRun(c, s0, es, m, w);
    OutcomesExactly(c, w, Consecutive(c, m'.log));
    hide Run, Evaluate, Consecutive, GoodWindow;
    es', m' := DecideRun(c, s0, es', m', w);
    es', m' := CommitRun(c, s0, es', m', disable);
  }

  lemma CommitRun(c: Config, s0: State, es: seq<Event>, m: State, disable: Reply) returns (es': seq<Event>, m': State)
    requires Own(es) && Run(c, s0, es) == Some(m) && m.step.Reloading?
    ensures Own(es') && Run(c, s0, es') == Some(m') && es <= es' && m'.step.Idle?
    ensures m'.models == ModelsTable.Promote(m.models, c.challenger)
    ensures m'.router == if disable.Failed? then m.router else CANARY_OFF
  {
    hide Run;
    es', m' := Push(c, s0, es, m, Reload(Answered(c.challenger)));
    es', m' := Push(c, s0, es', m', Commit(Done));
    es', m' := Push(c, s0, es', m', SetRouter(disable));
  }

  /** A rollback in which every call succeeds, except perhaps the last. */
  lemma RollbackRun(c: Config, s0: State, es: seq<Event>, m: State, w: Window, disable: Reply) returns (es': seq<Event>, m': State)
    requires Own(es) && Run(c, s0, es) == Some(m) && Ready(m) && BadWindow(c, w)
    ensures Own(es') && Run(c, s0, es') == Some(m') && es <= es' && m'.step.Idle?
    ensures m'.models == Retire(m.models, c.challenger)
    ensures m'.router == if disable.Failed? then m.router else CANARY_OFF
  {
    OutcomesExactly(c, w, Consecutive(c, m.log));
    hide Run, Evaluate, Consecutive;
    es', m' := DecideRun(c, s0, es, m, w);
    es', m' := Push(c, s0, es', m', RetireRow(Done));
    es', m' := Push(c, s0, es', m', SetRouter(disable));
  }

  // ---------- exactly when the roles are final ----------

  /** With the canary off nothing but an inactive decision can follow. */
  lemma {:induction false} OffChangesNothing(c: Config, s: State, es: seq<Event>)
    requires s.step.Idle? && !s.router.canaryEnabled && Own(es) && Run(c, s, es).Some?
    ensures var m := Run(c, s, es).value;
            && m.models == s.models && m.router == s.router
            && (m.step.Idle? || (m.step.Writing? && m.step.d.verdict.Continue?))
    decreases es
  {
    if es != [] {
      OffChangesNothing(c, s, es[..|es|-1]);
      assert es[|es|-1] in es;
    }
  }

  /** No promotion is under way. */
  predicate NoPromotion(step: Step) {
    !step.Reloading? && !step.Committing? && (step.Writing? ==> !step.d.verdict.Promote?)
  }

  lemma StepWithoutPromotion(c: Config, s: State, e: Event)
    requires c.requiredRuns > 11 && NoPromotion(s.step) && Enabled(c, s, e) && !External(e)
    ensures NoPromotion(Apply(c, s, e).step)
    ensures Apply(c, s, e).models == s.models || Apply(c, s, e).models == Retire(s.models, c.challenger)
  {
    if e.EvaluateWindow? && e.w.Some? {
      OutcomesExactly(c, e.w.value, Consecutive(c, s.log));
    }
    hide Evaluate, Consecutive, Retire;
  }

  /** With more than eleven runs required the evaluator can only retire the challenger. */
  lemma {:induction false} OnlyRetires(c: Config, s: State, es: seq<Event>)
    requires c.requiredRuns > 11 && s.step.Idle? && Own(es) && Run(c, s, es).Some?
    ensures var m := Run(c, s, es).value;
            NoPromotion(m.step) && (m.models == s.models || m.models == Retire(s.models, c.challenger))
    decreases es
  {
    if es != [] {
      OnlyRetires(c, s, es[..|es|-1]);
      assert es[|es|-1] in es;
      StepWithoutPromotion(c, Run(c, s, es[..|es|-1]).value, es[|es|-1]);
      hide Enabled, Apply;
    }
  }

  /** The table is as a rollback would leave it, and as a promotion would if one is possible. */
  predicate NothingToChange(c: Config, models: Rows) {
    Retire(models, c.challenger) == models && (c.requiredRuns <= 11 ==> ModelsTable.Promote(models, c.challenger) == models)
  }

  lemma {:induction false} NothingChanges(c: Config, s: State, es: seq<Event>)
    requires NothingToChange(c, s.models) && s.step.Idle? && Own(es) && Run(c, s, es).Some?
    ensures Run(c, s, es).value.models == s.models
    decreases es
  {
    if c.requiredRuns > 11 {
      OnlyRetires(c, s, es);
    } else if es != [] {
      NothingChanges(c, s, es[..|es|-1]);
      assert es[|es|-1] in es;
      hide Evaluate, Consecutive, ModelsTable.Promote, Retire;
    }
  }

  ghost predicate ChangesRoles(c: Config, s: State, es: seq<Event>) {
    Own(es) && Run(c, s, es).Some? && Run(c, s, es).value.models != s.models
  }

  /** Between two iterations the roles are final, whatever windows come and whatever calls fail, exactly
      when the canary is off or there is nothing left to change. A role change that an iteration has
      made is therefore final only if the router was told, too. */
  lemma RolesFinalExactly(c: Config, s: State, good: Window, bad: Window)
    requires s.step.Idle? && GoodWindow(c, good) && BadWindow(c, bad)
    ensures (forall es :: !ChangesRoles(c, s, es)) <==> !s.router.canaryEnabled || NothingToChange(c, s.models)
  {
    hide GoodWindow, BadWindow;
    if !s.router.canaryEnabled || NothingToChange(c, s.models) {
      forall es ensures !ChangesRoles(c, s, es) {
        if ChangesRoles(c, s, es) {
          if !s.router.canaryEnabled { OffChangesNothing(c, s, es); } else { NothingChanges(c, s, es); }
        }
      }
    } else {
      var es := ChangeRun(c, s, good, bad);
    }
  }

  lemma NoEvents(c: Config, s: State)
    ensures Own([]) && Run(c, s, []) == Some(s)
  {
  }

  lemma ChangeRun(c: Config, s: State, good: Window, bad: Window) returns (es: seq<Event>)
    requires Ready(s) && GoodWindow(c, good) && BadWindow(c, bad) && !NothingToChange(c, s.models)
    ensures ChangesRoles(c, s, es)
  {
    hide GoodWindow, BadWindow, Run;
    NoEvents(c, s);
    var m;
    if Retire(s.models, c.challenger) != s.models {
      es, m := RollbackRun(c, s, [], s, bad, Done);
    } else {
      es, m := PromoteRun(c, s, [], s, good, Done);
    }
  }

  /** A run may leave no champion at all: after a promotion whose call to the router fails the canary stays
      on, and a bad window then retires the promoted challenger. So for every configuration that can
      promote, from every state with the canary on and the challenger registered. */
  lemma RollbackMayLeaveNoChampion(c: Config, s0: State, good: Window, bad: Window) returns (promoted: seq<Event>, es: seq<Event>)
    requires Ready(s0) && c.challenger in s0.models && c.requiredRuns <= 11
    requires GoodWindow(c, good) && BadWindow(c, bad)
    ensures Own(es) && promoted <= es && Run(c, s0, promoted).Some? && Run(c, s0, es).Some?
    ensures WithRole(Run(c, s0, promoted).value.models, Champion) == {c.challenger}
    ensures WithRole(Run(c, s0, es).value.models, Champion) == {}
  {
    hide GoodWindow, BadWindow, Run;
    NoEvents(c, s0);
    var m;
    promoted, m := PromoteRun(c, s0, [], s0, good, Failed);
    es, m := RollbackRun(c, s0, promoted, m, bad, Done);
    RoleChangesKeepOneChampion(s0.models, c.challenger);
    RollbackAfterPromotionLeavesNoChampion(s0.models, c.challenger);
  }

  ghost predicate LosesChampion(c: Config, s: State, es: seq<Event>) {
    Own(es) && Run(c, s, es).Some? && !HasChampion(Run(c, s, es).value.models)
  }

  /** The evaluator alone can leave a table that has a champion without one exactly when the canary is on
      and it can promote at all, or the challenger is the only champion. */
  lemma ChampionLostExactly(c: Config, s: State, good: Window, bad: Window)
    requires s.step.Idle? && HasChampion(s.models) && GoodWindow(c, good) && BadWindow(c, bad)
    ensures (exists es :: LosesChampion(c, s, es)) <==>
              s.router.canaryEnabled && (c.requiredRuns <= 11 || WithRole(s.models, Champion) <= {c.challenger})
  {
    if s.router.canaryEnabled && (c.requiredRuns <= 11 || WithRole(s.models, Champion) <= {c.challenger}) {
      var es := LosingRun(c, s, good, bad);
    } else {
      forall es ensures !LosesChampion(c, s, es) {
        NeverLosesChampion(c, s, es);
      }
    }
  }

  lemma LosingRun(c: Config, s: State, good: Window, bad: Window) returns (es: seq<Event>)
    requires Ready(s) && GoodWindow(c, good) && BadWindow(c, bad)
    requires c.requiredRuns <= 11 || WithRole(s.models, Champion) <= {c.challenger}
    ensures LosesChampion(c, s, es)
  {
    hide GoodWindow, BadWindow, Run;
    NoEvents(c, s);
    RoleChangesKeepOneChampion(s.models, c.challenger);
    var m;
    if WithRole(s.models, Champion) <= {c.challenger} {
      es, m := RollbackRun(c, s, [], s, bad, Done);
    } else if c.challenger in s.models {
      var promoted;
      promoted, es := RollbackMayLeaveNoChampion(c, s, good, bad);
    } else {
      es, m := PromoteRun(c, s, [], s, good, Done);
    }
    hide WithRole;
  }

  lemma NeverLosesChampion(c: Config, s: State, es: seq<Event>)
    requires s.step.Idle? && HasChampion(s.models)
    requires !s.router.canaryEnabled || (c.requiredRuns > 11 && !(WithRole(s.models, Champion) <= {c.challenger}))
    ensures !LosesChampion(c, s, es)
  {
    hide Run, WithRole, ModelsTable.Promote, Retire;
    if LosesChampion(c, s, es) {
      if !s.router.canaryEnabled {
        OffChangesNothing(c, s, es);
      } else {
        OnlyRetires(c, s, es);
        RoleChangesKeepOneChampion(s.models, c.challenger);
      }
    }
  }

  /** A run may promote a version it has retired, which registration refuses to do: after a rollback whose
      call to the router fails the canary stays on, and good windows then promote the challenger. */
  lemma RetiredChallengerMayBePromoted(c: Config, s0: State, good: Window, bad: Window) returns (retired: seq<Event>, es: seq<Event>)
    requires Ready(s0) && c.challenger in s0.models && c.requiredRuns <= 11
    requires GoodWindow(c, good) && BadWindow(c, bad)
    ensures PromotesRetired(c, s0, retired, es) && WithRole(Run(c, s0, es).value.models, Champion) == {c.challenger}
  {
    hide GoodWindow, BadWindow, Run;
    NoEvents(c, s0);
    var m;
    retired, m := RollbackRun(c, s0, [], s0, bad, Failed);
    RoleChangesKeepOneChampion(m.models, c.challenger);
    es, m := PromoteRun(c, s0, retired, m, good, Done);
  }

  /** The challenger is retired after the first part of the run and a champion at its end. */
  ghost predicate PromotesRetired(c: Config, s: State, retired: seq<Event>, es: seq<Event>) {
    && Own(es) && retired <= es && Run(c, s, retired).Some? && Run(c, s, es).Some?
    && c.challenger in WithRole(Run(c, s, retired).value.models, Retired)
    && c.challenger in WithRole(Run(c, s, es).value.models, Champion)
  }

  /** The evaluator alone can promote the challenger after it was retired exactly when the canary is on, it
      can promote at all, and the challenger is registered. */
  lemma RetiredPromotedExactly(c: Config, s: State, good: Window, bad: Window)
    requires s.step.Idle? && GoodWindow(c, good) && BadWindow(c, bad)
    ensures (exists retired, es :: PromotesRetired(c, s, retired, es)) <==>
              s.router.canaryEnabled && c.requiredRuns <= 11 && c.challenger in s.models
  {
    if s.router.canaryEnabled && c.requiredRuns <= 11 && c.challenger in s.models {
      var retired, es := RetiredChallengerMayBePromoted(c, s, good, bad);
    } else {
      forall retired, es ensures !PromotesRetired(c, s, retired, es) {
        NeverPromotesRetired(c, s, retired, es);
      }
    }
  }

  lemma NeverPromotesRetired(c: Config, s: State, retired: seq<Event>, es: seq<Event>)
    requires s.step.Idle? && !(s.router.canaryEnabled && c.requiredRuns <= 11 && c.challenger in s.models)
    ensures !PromotesRetired(c, s, retired, es)
  {
    hide Run;
    if PromotesRetired(c, s, retired, es) {
      OwnPrefix(retired, es);
      if !s.router.canaryEnabled {
        OffChangesNothing(c, s, retired);
        OffChangesNothing(c, s, es);
      } else if c.requiredRuns > 11 {
        OnlyRetires(c, s, retired);
        RetiredStays(c, s, retired, es);
      } else {
        SameVersions(c, s, es);
      }
    }
  }

  lemma OwnPrefix(es: seq<Event>, all: seq<Event>)
    requires es <= all && Own(all)
    ensures Own(es)
  {
    assert forall e :: e in es ==> e in all;
  }

  lemma {:induction false} RetiredStays(c: Config, s: State, retired: seq<Event>, es: seq<Event>)
    requires c.requiredRuns > 11 && s.step.Idle? && Own(es) && retired <= es && Run(c, s, es).Some? && Run(c, s, retired).Some?
    requires c.challenger in WithRole(Run(c, s, retired).value.models, Retired)
    ensures c.challenger in WithRole(Run(c, s, es).value.models, Retired)
    decreases es
  {
    if es != retired {
      var init := es[..|es|-1];
      OwnPrefix(init, es);
      RetiredStays(c, s, retired, init);
      OnlyRetires(c, s, init);
      assert es[|es|-1] in es;
      StepWithoutPromotion(c, Run(c, s, init).value, es[|es|-1]);
      hide Enabled, Apply;
    }
  }

  lemma {:induction false} SameVersions(c: Config, s: State, es: seq<Event>)
    requires Own(es) && Run(c, s, es).Some?
    ensures Run(c, s, es).value.models.Keys == s.models.Keys
    decreases es
  {
    if es != [] {
      SameVersions(c, s, es[..|es|-1]);
      assert es[|es|-1] in es;
      hide Evaluate, Consecutive;
    }
  }

  // ---------- the process ----------

  /** How the external calls of one iteration turn out. */
  datatype Script = Script(
    routerAnswers: bool,
    window: Option<Window>,
    write: Reply,
    reload: ReloadReply,
    roles: Reply,
    disable: Reply)

  /** The row an iteration from state s decides on: an inactive one if the router is unreachable or the
      canary off, else the evaluator's decision on the pair's streak; none if the evaluation raises. */
  function RowFor(c: Config, s: State, script: Script): Option<LogRow> {
    if !script.routerAnswers || !s.router.canaryEnabled
    then Some(LogRow(c.champion, c.challenger, Decision(Continue, Inactive), None))
    else if script.window.None? then None
    else Some(LogRow(c.champion, c.challenger, Evaluate(c, script.window.value, Consecutive(c, s.log)), script.window))
  }

  function DecisionEvents(s: State, script: Script): seq<Event> {
    [ReadRouter(script.routerAnswers)] +
    if script.routerAnswers && s.router.canaryEnabled then [EvaluateWindow(script.window)] else []
  }

  function DisableEvents(script: Script): seq<Event> {
    if script.roles.Done? then [SetRouter(script.disable)] else []
  }

  /** A promotion goes past the reload only if it answered with the challenger's version. */
  function PromotionEvents(c: Config, script: Script): seq<Event> {
    [Reload(script.reload)] +
    if script.reload == Answered(c.challenger) then [Commit(script.roles)] + DisableEvents(script) else []
  }

  function RollbackEvents(script: Script): seq<Event> {
    [RetireRow(script.roles)] + DisableEvents(script)
  }

  /** What the stored decision sets off. */
  function ActionEvents(c: Config, d: Decision, script: Script): seq<Event> {
    match d.verdict
    case Promote => PromotionEvents(c, script)
    case Rollback => RollbackEvents(script)
    case Continue => []
  }

  /** The events of one iteration: a decision, its row, and, only once that is acknowledged, its action. */
  function IterationEvents(c: Config, s: State, script: Script): seq<Event> {
    var row := RowFor(c, s, script);
    if row.None? then DecisionEvents(s, script)
    else
      DecisionEvents(s, script) + [Write(script.write)] +
      if script.write.Done? then ActionEvents(c, row.value.decision, script) else []
  }

  /** The role table after an iteration that decided on `row`. */
  function RolesAfter(c: Config, models: Rows, row: Option<LogRow>, script: Script): Rows {
    if row.None? || !script.write.Done? || script.roles.Failed? then models
    else
      match row.value.decision.verdict
      case Promote => if script.reload == Answered(c.challenger) then ModelsTable.Promote(models, c.challenger) else models
      case Rollback => Retire(models, c.challenger)
      case Continue => models
  }

  /** Whether the iteration stored the row, was told so, and acted on this verdict. */
  predicate Acts(row: Option<LogRow>, script: Script, verdict: Verdict) {
    row.Some? && script.write.Done? && row.value.decision.verdict == verdict
  }

  /** What the champion container serves after an iteration that decided on `row`. */
  function ContainerAfter(container: Version, row: Option<LogRow>, script: Script): Version {
    if Acts(row, script, Promote) && !script.reload.Refused? then script.reload.v else container
  }

  function RouterAfter(c: Config, router: Router, row: Option<LogRow>, script: Script): Router {
    if (Acts(row, script, Rollback) || (Acts(row, script, Promote) && script.reload == Answered(c.challenger)))
       && script.roles.Done? && !script.disable.Failed?
    then CANARY_OFF else router
  }

  /** The champion container serves the one version in role champion. */
  predicate Agree(models: Rows, container: Version) {
    WithRole(models, Champion) == {container}
  }

  /** An iteration that begins in agreement ends in agreement exactly when a promotion either goes through
      for a registered challenger or leaves the container with the version it had, and a rollback either
      fails or is not of the version served. In particular a reload that loads but is not answered, or
      whose commit fails, leaves the container serving a version that no role names. */
  lemma IterationAgreesExactly(c: Config, models: Rows, container: Version, row: Option<LogRow>, script: Script)
    requires Agree(models, container)
    ensures Agree(RolesAfter(c, models, row, script), ContainerAfter(container, row, script)) <==>
              && (Acts(row, script, Promote) && !script.reload.Refused? ==>
                    if script.reload == Answered(c.challenger) && !script.roles.Failed? then c.challenger in models
                    else script.reload.v == container)
              && (Acts(row, script, Rollback) ==> script.roles.Failed? || c.challenger != container)
  {
    RoleChangesKeepOneChampion(models, c.challenger);
    SameSingleton(WithRole(models, Champion), container, ContainerAfter(container, row, script));
    hide WithRole, ModelsTable.Promote, Retire;
  }

  lemma SameSingleton(s: set<Version>, v: Version, w: Version)
    requires s == {v}
    ensures s == {w} <==> v == w
    ensures s - {w} == s <==> v != w
  {
    assert v in s;
  }

  class Evaluator {
    const c: Config
    var log: seq<LogRow>
    const models: Models
    var container: Version
    var router: Router
    ghost var step: Step

    ghost function View(): State
      reads this, models
    {
      State(log, models.rows, container, router, step)
    }

    constructor (c: Config, log: seq<LogRow>, models: Models, container: Version, router: Router)
      ensures this.c == c && this.models == models && View() == State(log, models.rows, container, router, Idle)
    {
      this.c, this.log, this.models, this.container, this.router := c, log, models, container, router;
      step := Idle;
    }

    /** The outcomes of this pair's rows, oldest first: the WHERE clause of the query. */
    method SelectOutcomes() returns (outcomes: seq<Outcome>)
      ensures outcomes == Outcomes(PairRows(c, log))
    {
      hide PairRows;
      EmptyLog(c);
      outcomes := [];
      var i := 0;
      assert log[..0] == [];
      while i < |log|
        invariant 0 <= i <= |log|
        invariant outcomes == Outcomes(PairRows(c, log[..i]))
      {
        assert log[..i+1] == log[..i] + [log[i]];
        PairRowsSnoc(c, log[..i], log[i]);
        if IsPair(c, log[i]) {
          outcomes := outcomes + [log[i].decision.outcome];
        }
        i := i + 1;
      }
      assert log[..i] == log;
    }

    /** `_write_decision`: whether it returned without raising. */
    method WriteDecision(d: Decision, window: Option<Window>, reply: Reply) returns (ok: bool)
      requires step == Writing(d, window)
      modifies this
      ensures ok <==> reply.Done?
      ensures log == if reply.Failed? then old(log) else old(log) + [LogRow(c.champion, c.challenger, d, window)]
      ensures View() == Apply(c, old(View()), Write(reply))
    {
      ghost var row := |log|;
      if !reply.Failed? {
        log := log + [LogRow(c.champion, c.challenger, d, window)];
      }
      ok := reply.Done?;
      step := if ok then AfterWrite(d, row) else Idle;
    }

    /** `_set_router_canary(enabled=False, ...)`, whose errors are only logged. */
    method DisableCanary(reply: Reply)
      requires step.Disabling?
      modifies this
      ensures View() == Apply(c, old(View()), SetRouter(reply))
      ensures router == if reply.Failed? then old(router) else CanaryRouter.RouteState(false, 0, 0)
    {
      if !reply.Failed? {
        router := CANARY_OFF;
      }
      step := Idle;
    }

    /** The promote branch of `apply_decision`. */
    method ApplyPromotion(script: Script) returns (ghost es: seq<Event>)
      requires step.Reloading?
      modifies this, models
      ensures es == PromotionEvents(c, script)
      ensures Run(c, old(View()), es) == Some(View()) && step.Idle? && log == old(log)
      ensures container == if script.reload.Refused? then old(container) else script.reload.v
      ensures models.rows == if script.reload == Answered(c.challenger) && !script.roles.Failed?
                             then ModelsTable.Promote(old(models.rows), c.challenger) else old(models.rows)
      ensures router == if script.reload == Answered(c.challenger) && script.roles.Done? && !script.disable.Failed?
                        then CANARY_OFF else old(router)
    {
      ghost var s0 := View();
      assert Run(c, s0, []) == Some(s0);
      hide Run;
      ghost var m;
      es, m := Push(c, s0, [], s0, Reload(script.reload));
      if script.reload.Refused? {
        step := Idle;
        return;
      }
      container := script.reload.v;
      if script.reload.LoadedUnanswered? || container != c.challenger {
        step := Idle;
        return;
      }
      step := Committing(step.row);
      es, m := Push(c, s0, es, m, Commit(script.roles));
      if !script.roles.Failed? {
        models.PromoteChallenger(c.challenger);
      }
      if !script.roles.Done? {
        step := Idle;
        return;
      }
      step := Disabling;
      es, m := Push(c, s0, es, m, SetRouter(script.disable));
      DisableCanary(script.disable);
    }

    /** The rollback branch of `apply_decision`. */
    method ApplyRollback(script: Script) returns (ghost es: seq<Event>)
      requires step.Retiring?
      modifies this, models
      ensures es == RollbackEvents(script)
      ensures Run(c, old(View()), es) == Some(View()) && step.Idle? && log == old(log) && container == old(container)
      ensures models.rows == if script.roles.Failed? then old(models.rows) else Retire(old(models.rows), c.challenger)
      ensures router == if script.roles.Done? && !script.disable.Failed? then CANARY_OFF else old(router)
    {
      ghost var s0 := View();
      assert Run(c, s0, []) == Some(s0);
      hide Run;
      ghost var m;
      es, m := Push(c, s0, [], s0, RetireRow(script.roles));
      if !script.roles.Failed? {
        models.RetireModel(c.challenger);
      }
      if !script.roles.Done? {
        step := Idle;
        return;
      }
      step := Disabling;
      es, m := Push(c, s0, es, m, SetRouter(script.disable));
      DisableCanary(script.disable);
    }

    /** The part of an iteration that reaches a decision; None if the evaluation raised. */
    method Decide(script: Script) returns (d: Option<Decision>, window: Option<Window>, ghost es: seq<Event>)
      requires step.Idle?
      modifies this`step
      ensures es == DecisionEvents(old(View()), script) && Run(c, old(View()), es) == Some(View())
      ensures d.None? <==> script.routerAnswers && router.canaryEnabled && script.window.None?
      ensures !script.routerAnswers || !router.canaryEnabled ==> d == Some(Decision(Continue, Inactive)) && window == None
      ensures script.routerAnswers && router.canaryEnabled && script.window.Some? ==>
                d == Some(Evaluate(c, script.window.value, Consecutive(c, log))) && window == script.window
      ensures step == if d.None? then Idle else Writing(d.value, window)
    {
      ghost var s0 := View();
      assert Run(c, s0, []) == Some(s0);
      hide Run, PairRows, Evaluate;
      ghost var m;
      es, m := Push(c, s0, [], s0, ReadRouter(script.routerAnswers));
      if !(script.routerAnswers && router.canaryEnabled) {
        d, window := Some(Decision(Continue, Inactive)), None;
        step := Writing(d.value, window);
        return;
      }
      step := Evaluating;
      es, m := Push(c, s0, es, m, EvaluateWindow(script.window));
      window := script.window;
      if window.None? {
        d := None;
        step := Idle;
        return;
      }
      var history := SelectOutcomes();
      var consecutive := CountFromDatabase(history);
      d := Some(Evaluate(c, window.value, consecutive));
      step := Writing(d.value, window);
    }

    /** The action on a decision whose row has just been acknowledged. */
    method ApplyDecision(d: Decision, script: Script) returns (ghost es: seq<Event>)
      requires exists row: nat :: step == AfterWrite(d, row)
      modifies this, models
      ensures es == ActionEvents(c, d, script)
      ensures Run(c, old(View()), es) == Some(View()) && step.Idle? && log == old(log)
      ensures d.verdict.Continue? ==> View() == old(View())
      ensures container == if d.verdict.Promote? && !script.reload.Refused? then script.reload.v else old(container)
      ensures router == if (d.verdict.Rollback? || (d.verdict.Promote? && script.reload == Answered(c.challenger)))
                           && script.roles.Done? && !script.disable.Failed?
                        then CANARY_OFF else old(router)
      ensures d.verdict.Promote? ==>
                models.rows == if script.reload == Answered(c.challenger) && !script.roles.Failed?
                               then ModelsTable.Promote(old(models.rows), c.challenger) else old(models.rows)
      ensures d.verdict.Rollback? ==>
                models.rows == if script.roles.Failed? then old(models.rows) else Retire(old(models.rows), c.challenger)
    {
      es := [];
      if d.verdict.Promote? {
        es := ApplyPromotion(script);
      } else if d.verdict.Rollback? {
        es := ApplyRollback(script);
      }
    }

    /** One iteration of the loop in `main`: exactly these events, and so a run of the machine that ends
        idle; the log grows by the row decided on, unless the write failed. */
    method Iterate(script: Script) returns (ghost es: seq<Event>)
      requires step.Idle?
      modifies this, models
      ensures es == IterationEvents(c, old(View()), script)
      ensures Run(c, old(View()), es) == Some(View()) && step.Idle?
      ensures var row := RowFor(c, old(View()), script);
              && log == (if row.Some? && !script.write.Failed? then old(log) + [row.value] else old(log))
              && models.rows == RolesAfter(c, old(models.rows), row, script)
              && container == ContainerAfter(old(container), row, script)
              && router == RouterAfter(c, old(router), row, script)
    {
      hide Evaluate, Consecutive;
      ghost var s0 := View();
      var d, window;
      d, window, es := Decide(script);
      if d.None? {
        return;
      }
      ghost var m;
      es, m := Push(c, s0, es, View(), Write(script.write));
      ghost var row := |log|;
      var ok := WriteDecision(d.value, window, script.write);
      if !ok {
        return;
      }
      assert step == AfterWrite(d.value, row);
      ghost var rest := ApplyDecision(d.value, script);
      es := RunConcat(c, s0, es, rest);
    }
  }
}
