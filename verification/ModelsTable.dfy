/** The role table: registration (monitoring/scripts/register_models.py) and the two role changes
    of the canary evaluator (monitoring/scripts/run_canary_evaluator.py). */
module ModelsTable {
  import opened Options

  type Version = string

  datatype Role = Champion | Challenger | Retired

  datatype Row = Row(role: Role, path: string)

  type Rows = map<Version, Row>

  function WithRole(rows: Rows, role: Role): set<Version> {
    set v | v in rows && rows[v].role == role
  }

  predicate AtMostOneChampion(rows: Rows) {
    forall v, w :: v in rows && w in rows && rows[v].role.Champion? && rows[w].role.Champion? ==> v == w
  }

  // ---------- what each statement does ----------

  /** `upsert_model`: None is the RuntimeError that refuses to bring back a retired version. */
  function Upsert(rows: Rows, v: Version, path: string, role: Role): Option<Rows> {
    if v !in rows then Some(rows[v := Row(role, path)])
    else if rows[v].role == role then Some(rows)
    else if rows[v].role.Retired? then None
    else Some(rows[v := Row(role, path)])
  }

  function RetireOtherChallengers(rows: Rows, keep: Version): Rows {
    map v | v in rows :: if rows[v].role.Challenger? && v != keep then rows[v].(role := Retired) else rows[v]
  }

  const CHAMPION_PATH := "/app/artifacts/final_model.onnx"
  const CHALLENGER_PATH := "/app/artifacts/challenger/lgbm_final_model.onnx"

  /** The registration transaction: the table it commits, or None if it aborts. */
  function Register(rows: Rows, champion: Version, challenger: Version): Option<Rows> {
    match Upsert(rows, champion, CHAMPION_PATH, Champion)
    case None => None
    case Some(r1) => Upsert(RetireOtherChallengers(r1, challenger), challenger, CHALLENGER_PATH, Challenger)
  }

  /** The promotion transaction: every champion retired, then the given version made champion. */
  function Promote(rows: Rows, v: Version): Rows {
    map w | w in rows ::
      if w == v then rows[w].(role := Champion)
      else if rows[w].role.Champion? then rows[w].(role := Retired)
      else rows[w]
  }

  function Retire(rows: Rows, v: Version): Rows {
    if v in rows then rows[v := rows[v].(role := Retired)] else rows
  }

  // ---------- registration ----------

  /** A registration commits exactly when neither version is retired. It then leaves the given challenger
      as the only challenger and, if the versions differ, the given champion a champion; it retires the
      other challengers and touches no other role, so older champions stay. */
  lemma RegistrationOutcome(rows: Rows, champion: Version, challenger: Version)
    ensures var r := Register(rows, champion, challenger);
            && (r.Some? <==> champion !in WithRole(rows, Retired) && challenger !in WithRole(rows, Retired))
            && (r.Some? ==>
                  && WithRole(r.value, Challenger) == {challenger}
                  && WithRole(r.value, Champion) == WithRole(rows, Champion) + {champion} - {challenger}
                  && WithRole(r.value, Retired) == WithRole(rows, Retired) + (WithRole(rows, Challenger) - {champion, challenger}))
  {
    hide WithRole, Upsert, RetireOtherChallengers;
    UpsertRoles(rows, champion, CHAMPION_PATH, Champion);
    var r1 := Upsert(rows, champion, CHAMPION_PATH, Champion);
    if r1.Some? {
      var r2 := RetireOtherChallengers(r1.value, challenger);
      RetireOthersRoles(r1.value, challenger);
      UpsertRoles(r2, challenger, CHALLENGER_PATH, Challenger);
      RoleAlgebra(WithRole(rows, Challenger), WithRole(rows, Retired), champion, challenger);
    }
  }

  /** The challengers and the retired through the three statements of a registration of v and w. */
  lemma RoleAlgebra(challengers: set<Version>, retired: set<Version>, v: Version, w: Version)
    requires v !in retired
    ensures ((challengers - {v}) * {w}) + {w} == {w}
    ensures w !in (retired - {v}) + ((challengers - {v}) - {w}) <==> w !in retired
    ensures w !in retired ==> (retired - {v}) + ((challengers - {v}) - {w}) - {w} == retired + (challengers - {v, w})
  {
  }

  /** A version newly given a role gets that role's model path; one that had it keeps its path, as does
      every other version, and no version disappears. */
  lemma RegistrationPaths(rows: Rows, champion: Version, challenger: Version)
    requires Register(rows, champion, challenger).Some?
    ensures var r := Register(rows, champion, challenger).value;
            && r.Keys == rows.Keys + {champion, challenger}
            && (forall v :: v in rows && v != champion && v != challenger ==> r[v].path == rows[v].path)
            && r[challenger].path == (if champion != challenger && challenger in WithRole(rows, Challenger) then rows[challenger].path
                                      else "/app/artifacts/challenger/lgbm_final_model.onnx")
            && (champion != challenger ==>
                  r[champion].path == if champion in WithRole(rows, Champion) then rows[champion].path
                                      else "/app/artifacts/final_model.onnx")
  {
  }

  /** What an upsert does to the three roles; only a retired version asked for another role refuses it. */
  lemma UpsertRoles(rows: Rows, v: Version, path: string, role: Role)
    requires !role.Retired?
    ensures var r := Upsert(rows, v, path, role);
            && (r.Some? <==> v !in WithRole(rows, Retired))
            && (r.Some? ==> forall x: Role :: WithRole(r.value, x) == if x == role then WithRole(rows, x) + {v} else WithRole(rows, x) - {v})
  {
  }

  lemma RetireOthersRoles(rows: Rows, keep: Version)
    ensures var r := RetireOtherChallengers(rows, keep);
            && WithRole(r, Champion) == WithRole(rows, Champion)
            && WithRole(r, Challenger) == WithRole(rows, Challenger) * {keep}
            && WithRole(r, Retired) == WithRole(rows, Retired) + (WithRole(rows, Challenger) - {keep})
  {
  }

  /** A registration ends with the given champion in role champion exactly when the two versions
      differ: identical artifacts leave the one version a challenger. */
  lemma ChampionRegisteredExactlyWhenDistinct(rows: Rows, champion: Version, challenger: Version)
    requires Register(rows, champion, challenger).Some?
    ensures champion in WithRole(Register(rows, champion, challenger).value, Champion) <==> champion != challenger
  {
    RegistrationOutcome(rows, champion, challenger);
  }

  /** The champions left besides the one registered: none if the versions differ, at most one if the
      registration names one version twice. */
  predicate RegistrationSafe(rows: Rows, champion: Version, challenger: Version) {
    var others := WithRole(rows, Champion) - {champion, challenger};
    if champion != challenger then others == {} else forall v, w :: v in others && w in others ==> v == w
  }

  /** Registration does not retire an older champion: it leaves at most one exactly when the champions
      before it were safe in this sense. */
  lemma RegistrationKeepsOneChampionExactly(rows: Rows, champion: Version, challenger: Version)
    requires Register(rows, champion, challenger).Some?
    ensures AtMostOneChampion(Register(rows, champion, challenger).value) <==> RegistrationSafe(rows, champion, challenger)
  {
    RegistrationOutcome(rows, champion, challenger);
    var r := Register(rows, champion, challenger).value;
    var others := WithRole(rows, Champion) - {champion, challenger};
    assert WithRole(r, Champion) == others + ({champion} - {challenger});
    OneChampionIsOneMember(r);
    if AtMostOneChampion(r) {
      forall v | v in others ensures v in WithRole(r, Champion) && (champion != challenger ==> v == champion) {
        assert champion != challenger ==> champion in WithRole(r, Champion);
      }
    }
  }

  lemma OneChampionIsOneMember(rows: Rows)
    ensures AtMostOneChampion(rows) <==> forall v, w :: v in WithRole(rows, Champion) && w in WithRole(rows, Champion) ==> v == w
  {
    assert forall v :: v in rows && rows[v].role.Champion? <==> v in WithRole(rows, Champion);
  }

  /** Any sequence of registrations, committed or aborted. */
  function RegisterAll(rows: Rows, pairs: seq<(Version, Version)>): Rows {
    if pairs == [] then rows
    else
      var before := RegisterAll(rows, pairs[..|pairs|-1]);
      match Register(before, pairs[|pairs|-1].0, pairs[|pairs|-1].1)
      case None => before
      case Some(after) => after
  }

  /** No sequence of registrations moves a version out of `retired`. */
  lemma {:induction false} RetiredStaysRetired(rows: Rows, pairs: seq<(Version, Version)>, v: Version)
    requires v in WithRole(rows, Retired)
    ensures v in WithRole(RegisterAll(rows, pairs), Retired)
    decreases pairs
  {
    if pairs != [] {
      RetiredStaysRetired(rows, pairs[..|pairs|-1], v);
      var before := RegisterAll(rows, pairs[..|pairs|-1]);
      assert before[v].role.Retired?;
    }
  }

  // ---------- promotion and rollback ----------

  /** A promotion leaves exactly one champion, the given version, if that version is registered;
      otherwise it leaves none. Both role changes keep at most one champion. */
  lemma RoleChangesKeepOneChampion(rows: Rows, v: Version)
    ensures WithRole(Promote(rows, v), Champion) == if v in rows then {v} else {}
    ensures WithRole(Retire(rows, v), Champion) == WithRole(rows, Champion) - {v}
    ensures AtMostOneChampion(Promote(rows, v))
    ensures AtMostOneChampion(rows) ==> AtMostOneChampion(Retire(rows, v))
  {
  }

  /** What a promotion does besides: it retires the other champions and nobody else, and changes no path. */
  lemma PromotionOutcome(rows: Rows, v: Version)
    ensures var r := Promote(rows, v);
            && r.Keys == rows.Keys && (forall w :: w in rows ==> r[w].path == rows[w].path)
            && WithRole(r, Challenger) == WithRole(rows, Challenger) - {v}
            && WithRole(r, Retired) == WithRole(rows, Retired) + WithRole(rows, Champion) - {v}
  {
  }

  /** And a rollback: it retires the given version, if registered, and changes nothing else. */
  lemma RollbackOutcome(rows: Rows, v: Version)
    ensures var r := Retire(rows, v);
            && r.Keys == rows.Keys && (forall w :: w in rows ==> r[w].path == rows[w].path)
            && WithRole(r, Challenger) == WithRole(rows, Challenger) - {v}
            && WithRole(r, Retired) == WithRole(rows, Retired) + if v in rows then {v} else {}
  {
  }

  /** A rollback after the promotion of the same version leaves no champion at all. */
  lemma RollbackAfterPromotionLeavesNoChampion(rows: Rows, v: Version)
    ensures WithRole(Retire(Promote(rows, v), v), Champion) == {}
  {
    RoleChangesKeepOneChampion(rows, v);
    RoleChangesKeepOneChampion(Promote(rows, v), v);
  }

  /** Neither UPDATE of a promotion looks at the role it replaces: the only version a promotion can take
      out of `retired` is the one promoted, and it does so exactly when that version is retired. */
  lemma PromotionRevivesExactly(rows: Rows, v: Version)
    ensures WithRole(rows, Retired) - WithRole(Promote(rows, v), Retired) == WithRole(rows, Retired) * {v}
  {
  }

  // ---------- the table ----------

  class Models {
    var rows: Rows

    constructor (rows: Rows)
      ensures this.rows == rows
    {
      this.rows := rows;
    }

    method UpsertModel(v: Version, path: string, role: Role) returns (ok: bool)
      modifies this
      ensures ok <==> v !in old(rows) || old(rows)[v].role == role || !old(rows)[v].role.Retired?
      ensures !ok ==> rows == old(rows)
      ensures ok ==> rows == old(rows)[v := if v in old(rows) && old(rows)[v].role == role then old(rows)[v] else Row(role, path)]
      ensures rows == if ok then Upsert(old(rows), v, path, role).value else old(rows)
    {
      if v !in rows {
        rows := rows[v := Row(role, path)];
        return true;
      }
      var current := rows[v].role;
      if current == role {
        return true;
      }
      if current.Retired? {
        return false;
      }
      rows := rows[v := Row(role, path)];
      ok := true;
    }

    /** The transaction of `main`: an abort restores the table it started from. */
    method RegisterModels(champion: Version, challenger: Version) returns (committed: bool)
      modifies this
      ensures committed <==> Register(old(rows), champion, challenger).Some?
      ensures rows == if committed then Register(old(rows), champion, challenger).value else old(rows)
    {
      var snapshot := rows;
      committed := UpsertModel(champion, CHAMPION_PATH, Champion);
      if committed {
        rows := RetireOtherChallengers(rows, challenger);
        committed := UpsertModel(challenger, CHALLENGER_PATH, Challenger);
      }
      if !committed {
        rows := snapshot;
      }
    }

    /** The two UPDATEs of a promotion. */
    method PromoteChallenger(v: Version)
      modifies this
      ensures rows == Promote(old(rows), v)
    {
      rows := map w | w in rows :: if rows[w].role.Champion? then rows[w].(role := Retired) else rows[w];
      if v in rows {
        rows := rows[v := rows[v].(role := Champion)];
      }
      assert rows == Promote(old(rows), v);
    }

    method RetireModel(v: Version)
      modifies this
      ensures rows == Retire(old(rows), v)
    {
      if v in rows {
        rows := rows[v := rows[v].(role := Retired)];
      }
    }
  }
}
