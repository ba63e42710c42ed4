/** One canary decision: monitoring/canary/evaluator.py. Metric values are the evaluator's inputs,
    computed by libraries that are not part of this model. */
module CanaryDecisions {
  import opened RealArithmetic
  import opened ModelsTable

  datatype Config = Config(
    champion: Version,
    challenger: Version,
    minLabeled: int,
    prAucRollbackDelta: real,
    brierRollbackDelta: real,
    latencyRollbackRatio: real,
    prAucPromoteDelta: real,
    requiredRuns: int)

  datatype Metrics = Metrics(prAuc: real, brier: real, p95TotalMs: real)

  /** One evaluation window: labeled rows per model, and the metrics computed from them. */
  datatype Window = Window(championN: nat, challengerN: nat, champion: Metrics, challenger: Metrics)

  datatype Verdict = Promote | Rollback | Continue

  /** Unknown is what the migration that added the column gave to older rows. */
  datatype Outcome = Improving | NoSignal | InsufficientData | Inactive | RolledBack | Promoted | Unknown

  datatype Decision = Decision(verdict: Verdict, outcome: Outcome)

  /** `evaluate_canary`, given how many consecutive improving runs precede this one. */
  function Evaluate(c: Config, w: Window, consecutive: nat): Decision {
    if w.championN < c.minLabeled || w.challengerN < c.minLabeled then Decision(Continue, InsufficientData)
    else
      var prDelta := w.challenger.prAuc - w.champion.prAuc;
      var brierDelta := w.challenger.brier - w.champion.brier;
      if prDelta < -c.prAucRollbackDelta then Decision(Rollback, RolledBack)
      else if brierDelta > c.brierRollbackDelta then Decision(Rollback, RolledBack)
      else if w.champion.p95TotalMs > 0.0 && w.challenger.p95TotalMs / w.champion.p95TotalMs > c.latencyRollbackRatio
      then Decision(Rollback, RolledBack)
      else if prDelta > c.prAucPromoteDelta then
        if consecutive >= c.requiredRuns - 1 then Decision(Promote, Promoted) else Decision(Continue, Improving)
      else Decision(Continue, NoSignal)
  }

  // ---------- what the documentation asks of a window ----------

  predicate EnoughData(c: Config, w: Window) {
    w.championN >= c.minLabeled && w.challengerN >= c.minLabeled
  }

  /** The latency guardrail applies only when the champion's p95 is positive. */
  predicate LatencyClear(c: Config, w: Window) {
    w.champion.p95TotalMs > 0.0 ==> w.challenger.p95TotalMs <= c.latencyRollbackRatio * w.champion.p95TotalMs
  }

  predicate GuardrailsClear(c: Config, w: Window) {
    && w.champion.prAuc - w.challenger.prAuc <= c.prAucRollbackDelta
    && w.challenger.brier - w.champion.brier <= c.brierRollbackDelta
    && LatencyClear(c, w)
  }

  predicate Better(c: Config, w: Window) {
    w.challenger.prAuc > w.champion.prAuc + c.prAucPromoteDelta
  }

  /** A window that speaks for promotion. */
  predicate GoodWindow(c: Config, w: Window) {
    EnoughData(c, w) && GuardrailsClear(c, w) && Better(c, w)
  }

  /** Each outcome is reached exactly under its conditions, and only a rollback or promotion outcome
      carries a verdict other than `continue`. */
  lemma OutcomesExactly(c: Config, w: Window, consecutive: nat)
    ensures var d := Evaluate(c, w, consecutive);
            && (d.outcome.InsufficientData? <==> !EnoughData(c, w))
            && (d.outcome.RolledBack? <==> EnoughData(c, w) && !GuardrailsClear(c, w))
            && (d.outcome.Promoted? <==> GoodWindow(c, w) && consecutive + 1 >= c.requiredRuns)
            && (d.outcome.Improving? <==> GoodWindow(c, w) && consecutive + 1 < c.requiredRuns)
            && (d.outcome.NoSignal? <==> EnoughData(c, w) && GuardrailsClear(c, w) && !Better(c, w))
            && !d.outcome.Inactive? && !d.outcome.Unknown?
            && (d.verdict.Promote? <==> d.outcome.Promoted?) && (d.verdict.Rollback? <==> d.outcome.RolledBack?)
  {
    if w.champion.p95TotalMs > 0.0 {
      QuotientCompares(w.challenger.p95TotalMs, w.champion.p95TotalMs, c.latencyRollbackRatio);
    }
  }

  /** The configuration of an environment that sets none of the canary variables. */
  function Defaults(champion: Version, challenger: Version): Config {
    Config(champion, challenger, 500, 0.05, 0.02, 3.0, 0.01, 3)
  }

  /** Every threshold is strict: a challenger exactly on all three guardrails is not rolled back, and one
      better by exactly the promotion delta is not improving. */
  lemma BoundariesDoNotFire(c: Config, w: Window, consecutive: nat)
    requires EnoughData(c, w) && c.prAucRollbackDelta >= 0.0 && c.brierRollbackDelta >= 0.0 && c.prAucPromoteDelta >= 0.0
    requires w.challenger.brier == w.champion.brier + c.brierRollbackDelta
    requires w.challenger.p95TotalMs == c.latencyRollbackRatio * w.champion.p95TotalMs
    ensures w.challenger.prAuc == w.champion.prAuc - c.prAucRollbackDelta ==> Evaluate(c, w, consecutive).outcome.NoSignal?
    ensures w.challenger.prAuc == w.champion.prAuc + c.prAucPromoteDelta ==> Evaluate(c, w, consecutive).outcome.NoSignal?
  {
    OutcomesExactly(c, w, consecutive);
  }

  /** Under the defaults: PR-AUC worse by 0.05, Brier worse by 0.02 and p95 at three times the champion's
      do not roll back, and PR-AUC better by 0.01 does not count. 600 and 180 labels are too few however
      good the challenger; with enough of them the same first window is improving. Just beyond each limit
      the outcome changes, and the third good window in a row promotes. */
  lemma DefaultBoundaries(champion: Version, challenger: Version)
    ensures var c := Defaults(champion, challenger);
            var m := Metrics(0.50, 0.10, 10.0);
            && Evaluate(c, Window(500, 500, m, Metrics(0.45, 0.12, 30.0)), 0).outcome.NoSignal?
            && Evaluate(c, Window(500, 500, m, Metrics(0.51, 0.10, 10.0)), 2).outcome.NoSignal?
            && Evaluate(c, Window(600, 180, Metrics(0.498, 0.10, 10.0), Metrics(0.511, 0.10, 10.0)), 0).outcome.InsufficientData?
            && Evaluate(c, Window(600, 500, Metrics(0.498, 0.10, 10.0), Metrics(0.511, 0.10, 10.0)), 0).outcome.Improving?
            && Evaluate(c, Window(500, 500, m, Metrics(0.4499, 0.10, 10.0)), 0).outcome.RolledBack?
            && Evaluate(c, Window(500, 500, m, Metrics(0.50, 0.1201, 10.0)), 0).outcome.RolledBack?
            && Evaluate(c, Window(500, 500, m, Metrics(0.50, 0.10, 30.1)), 0).outcome.RolledBack?
            && Evaluate(c, Window(499, 500, m, Metrics(0.5101, 0.10, 10.0)), 2).outcome.InsufficientData?
            && Evaluate(c, Window(500, 500, m, Metrics(0.5101, 0.10, 10.0)), 1).outcome.Improving?
            && Evaluate(c, Window(500, 500, m, Metrics(0.5101, 0.10, 10.0)), 2).outcome.Promoted?
  {
  }

  // ---------- counting consecutive improvements ----------

  /** The length of the run of `improving` that ends the history. */
  function Streak(outcomes: seq<Outcome>): nat {
    if outcomes == [] || !outcomes[|outcomes|-1].Improving? then 0 else 1 + Streak(outcomes[..|outcomes|-1])
  }

  /** The streak is exactly how far back every outcome is `improving`. */
  lemma {:induction false} StreakExactly(outcomes: seq<Outcome>, k: nat)
    ensures Streak(outcomes) >= k <==> k <= |outcomes| && forall i :: |outcomes| - k <= i < |outcomes| ==> outcomes[i].Improving?
    decreases outcomes
  {
    if outcomes != [] && k > 0 {
      var init := outcomes[..|outcomes|-1];
      StreakExactly(init, k - 1);
      if k <= |outcomes| && forall i :: |outcomes| - k <= i < |outcomes| ==> outcomes[i].Improving? {
        assert forall i :: |init| - (k - 1) <= i < |init| ==> init[i] == outcomes[i];
      }
    }
  }

  const QUERY_LIMIT := 10

  /** The rows the query returns: the last ten of the history, newest first. */
  function NewestFirst(outcomes: seq<Outcome>): seq<Outcome> {
    var n := if |outcomes| < QUERY_LIMIT then |outcomes| else QUERY_LIMIT;
    seq(n, i requires 0 <= i < n => outcomes[|outcomes| - 1 - i])
  }

  /** The loop over `reversed(prior_outcomes)`. */
  method CountFromPrior(prior: seq<Outcome>) returns (count: nat)
    ensures count == Streak(prior)
  {
    count := 0;
    assert prior[..|prior|] == prior;
    while count < |prior| && prior[|prior| - 1 - count].Improving?
      invariant count <= |prior|
      invariant Streak(prior) == count + Streak(prior[..|prior| - count])
    {
      assert prior[..|prior| - count][..|prior| - count - 1] == prior[..|prior| - count - 1];
      count := count + 1;
    }
  }

  /** The loop over the rows of the query. */
  method CountFromRows(rows: seq<Outcome>) returns (count: nat)
    ensures count <= |rows|
    ensures forall i :: 0 <= i < count ==> rows[i].Improving?
    ensures count < |rows| ==> !rows[count].Improving?
  {
    count := 0;
    while count < |rows| && rows[count].Improving?
      invariant count <= |rows| && forall i :: 0 <= i < count ==> rows[i].Improving?
    {
      count := count + 1;
    }
  }

  function Min(a: nat, b: nat): nat {
    if a <= b then a else b
  }

  /** The database path counts min(streak, 10). */
  method CountFromDatabase(history: seq<Outcome>) returns (count: nat)
    ensures count == Min(Streak(history), QUERY_LIMIT)
  {
    var rows := NewestFirst(history);
    count := CountFromRows(rows);
    assert forall i :: |history| - count <= i < |history| ==> history[i] == rows[|history| - 1 - i];
    StreakExactly(history, count);
    StreakExactly(history, count + 1);
    assert count < |rows| ==> history[|history| - 1 - count] == rows[count];
  }

  function Repeat(n: nat): seq<Outcome> {
    seq(n, _ => Improving)
  }

  /** The two paths promote on the same histories exactly when at most 11 runs are required; beyond
      that the database path never promotes, however long the streak. */
  lemma PathsAgreeExactly(required: int)
    ensures (forall h :: Min(Streak(h), QUERY_LIMIT) >= required - 1 <==> Streak(h) >= required - 1) <==> required <= 11
    ensures required > 11 ==> forall h :: !(Min(Streak(h), QUERY_LIMIT) >= required - 1)
  {
    if required > 11 {
      var h := Repeat(required - 1);
      StreakExactly(h, required - 1);
      assert Streak(h) >= required - 1 && !(Min(Streak(h), QUERY_LIMIT) >= required - 1);
    }
  }
}
