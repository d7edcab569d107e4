/** What one stage of a policy comes to in the end: for which changes it counts, whom it asks and
    how many of them, and which sources fold and merge. Stated on the compiled policy and on the
    groups of people who can bring its chain to Approved. */
module PolicyConditions {
  import opened Outcomes
  import opened ApprovalPolicies
  import opened ApprovalChains
  import opened ApprovalGuarantees
  import Sorting

  // ---------------------------------------------------------------- the changes a condition is for

  /** The change types, each with and without the need of a CCB, that a condition is for. */
  function ChangesFor(condition: Condition): set<(ChangeType, bool)> {
    match condition
    case Always =>
      {(Standard, false), (Standard, true), (Normal, false), (Normal, true),
       (Emergency, false), (Emergency, true), (OtherType, false), (OtherType, true)}
    case StandardOnly => {(Standard, false), (Standard, true)}
    case NormalOnly => {(Normal, false), (Normal, true)}
    case EmergencyOnly => {(Emergency, false), (Emergency, true)}
    case NonStandard => {(Normal, false), (Normal, true), (Emergency, false), (Emergency, true)}
    case CcbRequired => {(Normal, true), (Emergency, true), (OtherType, true)}
    case CcbRequiredNormal => {(Normal, true)}
    case CcbRequiredEmergency => {(Emergency, true)}
    case OtherCondition => {}
  }

  predicate Counts(s: PolicyStage, ctx: Context) {
    (ctx.changeType, ctx.needsCcb) in ChangesFor(s.condition)
  }

  lemma CountsExactly(s: PolicyStage, ctx: Context)
    ensures Applies(s.condition, ctx) <==> Counts(s, ctx)
  {
    match ctx.changeType
    case Standard =>
    case Normal =>
    case Emergency =>
    case OtherType =>
  }

  lemma {:induction false} RowsWithout(
    a: seq<PolicyStage>, s: PolicyStage, b: seq<PolicyStage>, ctx: Context, covered: set<nat>)
    requires !Counts(s, ctx)
    ensures PolicyRows(a + [s] + b, ctx, covered) == PolicyRows(a + b, ctx, covered)
    decreases a
  {
    var with, without := a + [s] + b, a + b;
    CountsExactly(s, ctx);
    if a == [] {
      assert with[0] == s && with[1..] == b && without == b;
    } else {
      assert with[0] == a[0] && with[1..] == a[1..] + [s] + b && without[0] == a[0] && without[1..] == a[1..] + b;
      RowsWithout(a[1..], s, b, ctx, covered);
      RowsWithout(a[1..], s, b, ctx, Resolve(a[0], ctx, covered).1);
    }
  }

  /** For any other change the policy gives what it gives without the stage. */
  lemma StageDoesNotCount(
    a: seq<PolicyStage>, s: PolicyStage, b: seq<PolicyStage>, ctx: Context, excluded: set<Person>)
    requires !Counts(s, ctx)
    ensures BuildResult(Some(a + [s] + b), ctx, excluded) == BuildResult(Some(a + b), ctx, excluded)
    ensures ResolvePolicy(a + [s] + b, ctx, excluded) == ResolvePolicy(a + b, ctx, excluded)
  {
    RowsWithout(a, s, b, ctx, {});
  }

  lemma {:induction false} NothingCounts(policy: seq<PolicyStage>, ctx: Context, covered: set<nat>)
    requires forall s :: s in policy ==> !Counts(s, ctx)
    ensures PolicyRows(policy, ctx, covered) == []
    decreases policy
  {
    if policy != [] {
      CountsExactly(policy[0], ctx);
      NothingCounts(policy[1..], ctx, covered);
    }
  }

  /** Without a policy, or with one none of whose stages counts, there is no route. */
  lemma NoStageNoRoute(policy: Option<seq<PolicyStage>>, ctx: Context, excluded: set<Person>)
    requires policy.None? || forall s :: s in policy.value ==> !Counts(s, ctx)
    ensures BuildResult(policy, ctx, excluded) == Err(NoRoute)
  {
    if policy.Some? { NothingCounts(policy.value, ctx, {}); }
  }

  // ---------------------------------------------------------------- whom a stage asks

  /** The row of a stage whose source does not depend on which teams were covered before. */
  function OwnRow(s: PolicyStage, ctx: Context): Option<Row> {
    match s.source
    case OwningTeamManager =>
      if ctx.owner.None? then Some(Row({}, None)) else Some(Row(ctx.owner.value.managers, ctx.owner))
    case CiOwners => if s.people == {} then None else Some(Row(s.people, None))
    case CiOwnerTeamManagers => None
    case ServiceCoownerTeamManagers => None
    case TaskTeamManagers => None
    case LineManager => Some(Row(s.people, s.group))
    case RequestTeamManager => Some(Row(s.people, s.group))
    case RequestTeamMembers => Some(Row(s.people, s.group))
    case GroupMembers => Some(Row(s.people, s.group))
    case AuthorityGroups => Some(Row(s.people, s.group))
    case ChosenUsers => Some(Row(s.people, s.group))
    case Administrators => Some(Row(s.people, s.group))
    case OtherSource => Some(Row(s.people, s.group))
  }

  lemma {:induction false} RowIsThere(stages: seq<PolicyStage>, s: PolicyStage, ctx: Context, covered: set<nat>)
    requires s in stages && Counts(s, ctx) && OwnRow(s, ctx).Some?
    ensures StageRow(s, OwnRow(s, ctx).value) in PolicyRows(stages, ctx, covered)
    decreases stages
  {
    if stages[0] == s {
      var rows := Resolve(s, ctx, covered).0;
      assert rows == [OwnRow(s, ctx).value];
      assert Tag(s, rows)[0] == StageRow(s, OwnRow(s, ctx).value);
      assert PolicyRows(stages, ctx, covered)[0] == StageRow(s, OwnRow(s, ctx).value);
    } else {
      assert s in stages[1..];
      RowIsThere(stages[1..], s, ctx, covered);
      RowIsThere(stages[1..], s, ctx, Resolve(stages[0], ctx, covered).1);
    }
  }

  /** Everybody a stage asks in the end: who it finds, or else whom its fallback names. */
  function Asks(s: PolicyStage, ctx: Context, excluded: set<Person>): set<Person>
    requires OwnRow(s, ctx).Some?
  {
    var row := OwnRow(s, ctx).value;
    if !(row.people <= excluded) then row.people - excluded
    else
      match s.fallback
      case Nobody => {}
      case SkipStep => {}
      case TeamMembers => if row.team.Some? && row.team.value.active then row.team.value.members else {}
      case FirstAdministrator => if |ctx.administrators| > 0 then {ctx.administrators[0]} else {}
      case AllAdministrators => set p | p in ctx.administrators
  }

  /** A stage that may pass unasked when it finds nobody. */
  predicate MayPass(s: PolicyStage) { s.source == CiOwners || s.fallback == SkipStep }

  lemma RowOutcomeExactly(s: PolicyStage, ctx: Context, excluded: set<Person>)
    requires OwnRow(s, ctx).Some?
    ensures var row := OwnRow(s, ctx).value;
      var outcome := NormaliseRow(StageRow(s, row), ctx, excluded);
      && (outcome == Dropped <==> row.people <= excluded && MayPass(s))
      && (outcome == Refused <==> !(row.people <= excluded && MayPass(s)) && Asks(s, ctx, excluded) == {})
      && (outcome.Kept? ==>
            && outcome.resolved.stage.approvers == Asks(s, ctx, excluded) && outcome.resolved.stage.source == s.source
            && outcome.resolved.skip == s.skipDuplicates)
  {
    var row := OwnRow(s, ctx).value;
    if row.people <= excluded {
      assert row.people - excluded == {};
    } else {
      var p :| p in row.people && p !in excluded;
      assert p in row.people - excluded;
    }
  }

  lemma {:induction false} RefusedRow(rows: seq<StageRow>, r: StageRow, ctx: Context, excluded: set<Person>)
    requires r in rows && NormaliseRow(r, ctx, excluded) == Refused
    ensures NormaliseAll(rows, ctx, excluded) == Err(NoApprover)
  {
    if rows[0] != r {
      assert r in rows[1..];
      RefusedRow(rows[1..], r, ctx, excluded);
    }
  }

  lemma {:induction false} KeptRow(rows: seq<StageRow>, r: StageRow, ctx: Context, excluded: set<Person>)
    requires r in rows && NormaliseRow(r, ctx, excluded).Kept? && NormaliseAll(rows, ctx, excluded).Ok?
    ensures NormaliseRow(r, ctx, excluded).resolved in NormaliseAll(rows, ctx, excluded).value
  {
    if rows[0] == r {
      assert NormaliseAll(rows, ctx, excluded).value[0] == NormaliseRow(r, ctx, excluded).resolved;
    } else {
      assert r in rows[1..];
      KeptRow(rows[1..], r, ctx, excluded);
    }
  }

  /** A stage that counts and finds nobody, not even through its fallback, refuses the whole policy. */
  lemma StageWithoutApproverRefuses(policy: seq<PolicyStage>, s: PolicyStage, ctx: Context, excluded: set<Person>)
    requires s in policy && Counts(s, ctx) && OwnRow(s, ctx).Some?
    requires Asks(s, ctx, excluded) == {} && !(OwnRow(s, ctx).value.people <= excluded && MayPass(s))
    ensures BuildResult(Some(policy), ctx, excluded) == Err(NoApprover)
  {
    RowIsThere(policy, s, ctx, {});
    RowOutcomeExactly(s, ctx, excluded);
    RefusedRow(PolicyRows(policy, ctx, {}), StageRow(s, OwnRow(s, ctx).value), ctx, excluded);
  }

  lemma {:induction false} LaterStagesKeep(rs: seq<Resolved>, n: nat, yes: set<Person>)
    requires n <= |rs| && AllSatisfied(Compile(rs), yes)
    ensures AllSatisfied(Compile(rs[..n]), yes)
    decreases |rs|
  {
    if n < |rs| {
      var m := |rs| - 1;
      var built := Compile(rs[..m]);
      assert built <= Place(built, rs[m]);
      LaterStagesKeep(rs[..m], n, yes);
      assert rs[..m][..n] == rs[..n];
    } else {
      assert rs[..n] == rs;
    }
  }

  /** What satisfies the compiled stages satisfies every resolved stage that is not marked `skip_duplicates`. */
  lemma UnskippedIsSatisfied(rs: seq<Resolved>, n: nat, yes: set<Person>)
    requires n < |rs| && !rs[n].skip && rs[n].stage.approvers != {} && AllSatisfied(Merge(Compile(rs)), yes)
    ensures Satisfied(rs[n].stage.mode, rs[n].stage.approvers, yes)
  {
    MergeMeaning(Compile(rs), yes);
    LaterStagesKeep(rs, n + 1, yes);
    assert rs[..n + 1][..n] == rs[..n];
    PlaceIsSound(Compile(rs[..n]), rs[n], yes);
  }

  lemma DisjointNeverSatisfies(mode: Mode, approvers: set<Person>, yes: set<Person>)
    requires approvers != {} && approvers !! yes
    ensures !Satisfied(mode, approvers, yes)
  {
    assert approvers * yes == {};
  }

  /** A stage that counts has its say: nobody can bring the chain to Approved without somebody it asks, whatever
      the rest of the policy is. */
  lemma StageHasItsSay(
    policy: seq<PolicyStage>, s: PolicyStage, ctx: Context, excluded: set<Person>, stages: seq<Stage>, yes: set<Person>)
    requires s in policy && Counts(s, ctx) && !s.skipDuplicates && OwnRow(s, ctx).Some?
    requires Asks(s, ctx, excluded) != {} && !(OwnRow(s, ctx).value.people <= excluded && MayPass(s))
    requires BuildResult(Some(policy), ctx, excluded) == Ok(stages) && Startable(stages)
    ensures Asks(s, ctx, excluded) !! yes ==> !CanApprove(Create(stages).value, yes)
  {
    var rows, r := PolicyRows(policy, ctx, {}), StageRow(s, OwnRow(s, ctx).value);
    var rs := ResolvePolicy(policy, ctx, excluded).value;
    RowIsThere(policy, s, ctx, {});
    RowOutcomeExactly(s, ctx, excluded);
    KeptRow(rows, r, ctx, excluded);
    var kept := NormaliseRow(r, ctx, excluded).resolved;
    var n :| 0 <= n < |rs| && rs[n] == kept;
    ApprovingCoalitions(stages, yes);
    if AllSatisfied(stages, yes) && Asks(s, ctx, excluded) !! yes {
      UnskippedIsSatisfied(rs, n, yes);
      DisjointNeverSatisfies(kept.stage.mode, kept.stage.approvers, yes);
    }
  }

  // ---------------------------------------------------------------- how many of them

  /** What a configured mode asks of the people in `asked`. */
  predicate Enough(setting: ModeSetting, team: Option<Team>, asked: set<Person>, yes: set<Person>) {
    match setting
    case SetAll => forall p :: p in asked ==> p in yes
    case SetAny => exists p :: p in asked && p in yes
    case SetMajority => 2 * |asked * yes| > |asked|
    case SetGroupMode =>
      if team.Some? && team.value.approvalMode == SetAny then exists p :: p in asked && p in yes
      else forall p :: p in asked ==> p in yes
    case OtherSetting => exists p :: p in asked && p in yes
  }

  lemma AnyMeansSomebody(asked: set<Person>, yes: set<Person>)
    ensures Satisfied(Any, asked, yes) <==> exists p :: p in asked && p in yes
  {
    if Satisfied(Any, asked, yes) {
      var p :| p in asked * yes;
      assert p in asked && p in yes;
    }
    if p :| p in asked && p in yes { assert p in asked * yes; }
  }

  /** The mode a stage gets in the end, with its rule for a sole approver, asks for what was configured. */
  lemma ModeAsksEnough(setting: ModeSetting, team: Option<Team>, source: Source, asked: set<Person>, yes: set<Person>)
    requires asked != {}
    ensures Satisfied(NormaliseMode(setting, team, source, asked), asked, yes) <==> Enough(setting, team, asked, yes)
  {
    AnyMeansSomebody(asked, yes);
    if |asked| == 1 {
      StricterBoth(All, Any, asked, yes);
      StricterBoth(All, Majority, asked, yes);
    }
  }

  lemma StricterBoth(a: Mode, b: Mode, asked: set<Person>, yes: set<Person>)
    requires |asked| == 1
    ensures Satisfied(a, asked, yes) <==> Satisfied(b, asked, yes)
  {
    if Satisfied(a, asked, yes) { StricterMeans(a, b, asked, yes); }
    if Satisfied(b, asked, yes) { StricterMeans(b, a, asked, yes); }
  }

  /** A policy of one stage that counts: it can be started, and the groups that can approve are exactly those with
      enough of the people it asks. */
  lemma OneStagePolicy(s: PolicyStage, ctx: Context, excluded: set<Person>, yes: set<Person>)
    requires Counts(s, ctx) && OwnRow(s, ctx).Some? && !(OwnRow(s, ctx).value.people <= excluded && MayPass(s))
    requires Asks(s, ctx, excluded) != {} && 0 !in Asks(s, ctx, excluded)
    ensures BuildResult(Some([s]), ctx, excluded).Ok?
    ensures var stages := BuildResult(Some([s]), ctx, excluded).value;
      && Startable(stages)
      && (CanApprove(Create(stages).value, yes) <==>
            Enough(s.mode, OwnRow(s, ctx).value.team, Asks(s, ctx, excluded), yes))
  {
    var asked, row := Asks(s, ctx, excluded), OwnRow(s, ctx).value;
    var stage := Stage(s.source, NormaliseMode(s.mode, row.team, s.source, asked), asked);
    OneStageResolves(s, ctx, excluded);
    OneStageCompiles(Resolved(stage, s.skipDuplicates));
    var p :| p in asked;
    assert p != 0;
    assert [stage][0] == stage && HasApprover(stage);
    ApprovingCoalitions([stage], yes);
    ModeAsksEnough(s.mode, row.team, s.source, asked, yes);
  }

  lemma OneStageResolves(s: PolicyStage, ctx: Context, excluded: set<Person>)
    requires Counts(s, ctx) && OwnRow(s, ctx).Some? && !(OwnRow(s, ctx).value.people <= excluded && MayPass(s))
    requires Asks(s, ctx, excluded) != {}
    ensures var asked, row := Asks(s, ctx, excluded), OwnRow(s, ctx).value;
      ResolvePolicy([s], ctx, excluded)
        == Ok([Resolved(Stage(s.source, NormaliseMode(s.mode, row.team, s.source, asked), asked), s.skipDuplicates)])
  {
    var r := StageRow(s, OwnRow(s, ctx).value);
    RowOutcomeExactly(s, ctx, excluded);
    OneRow(s, ctx);
    var kept := NormaliseRow(r, ctx, excluded).resolved;
    assert [r][1..] == [] && NormaliseAll([], ctx, excluded) == Ok([]) && [kept] + [] == [kept];
    assert NormaliseAll([r], ctx, excluded) == Ok([kept]);
  }

  lemma OneRow(s: PolicyStage, ctx: Context)
    requires Counts(s, ctx) && OwnRow(s, ctx).Some?
    ensures PolicyRows([s], ctx, {}) == [StageRow(s, OwnRow(s, ctx).value)]
  {
    var row := OwnRow(s, ctx).value;
    CountsExactly(s, ctx);
    var (rows, after) := Resolve(s, ctx, {});
    assert rows == [row] && [s][1..] == [] && PolicyRows([], ctx, after) == [];
    assert Tag(s, [row]) + [] == [StageRow(s, row)];
  }

  lemma OneStageCompiles(r: Resolved)
    requires r.stage.approvers != {}
    ensures Merge(Compile([r])) == [r.stage]
  {
    assert [r][..0] == [] && MustApprove([]) == {};
    assert Compile([r]) == [r.stage] by { assert Compile([]) == [] && [] + [r.stage] == [r.stage]; }
    assert [r.stage][..0] == [] && Merge([]) == [] && [] + [r.stage] == [r.stage];
  }

  // ---------------------------------------------------------------- which sources fold and merge

  /** The sources that name particular people. */
  const NAMING: set<Source> :=
    {LineManager, RequestTeamManager, OwningTeamManager, CiOwnerTeamManagers, CiOwners, ServiceCoownerTeamManagers,
     TaskTeamManagers}

  /** The assessments of a change that run at the same time. */
  const ASSESSING: set<Source> :=
    {OwningTeamManager, CiOwnerTeamManagers, CiOwners, ServiceCoownerTeamManagers, TaskTeamManagers}

  /** A sole approver of a stage that names particular people must approve, whatever the mode. */
  lemma SoleApproverMustApprove(setting: ModeSetting, team: Option<Team>, source: Source, p: Person)
    ensures source in NAMING ==> NormaliseMode(setting, team, source, {p}) == All
    ensures source !in NAMING && setting == SetAny ==> NormaliseMode(setting, team, source, {p}) == Any
  {
  }

  /** A second stage over the same people in the same mode disappears exactly when both name particular people. */
  lemma SourcesFold(x: Source, y: Source, mode: Mode, ids: set<Person>)
    requires ids != {}
    ensures var first, second := Stage(x, mode, ids), Stage(y, mode, ids);
      Compile([Resolved(first, false), Resolved(second, false)])
        == if x in NAMING && y in NAMING then [first] else [first, second]
  {
    var first, second := Resolved(Stage(x, mode, ids), false), Resolved(Stage(y, mode, ids), false);
    var rs := [first, second];
    assert rs[..1] == [first] && [first][..0] == [] && MustApprove([]) == {};
    assert Compile([first]) == [first.stage] by { assert Compile([]) == [] && [] + [first.stage] == [first.stage]; }
    MustApproveSnoc([], first.stage);
    assert [] + [first.stage] == [first.stage] && [first.stage][0] == first.stage;
    assert [first.stage] + [second.stage] == [first.stage, second.stage];
  }

  /** Two neighbouring every-approver stages become one exactly when both are assessments. */
  lemma SourcesMerge(x: Source, y: Source, a: set<Person>, b: set<Person>)
    ensures var first, second := Stage(x, All, a), Stage(y, All, b);
      Merge([first, second]) == if x in ASSESSING && y in ASSESSING then [Stage(x, All, a + b)] else [first, second]
  {
    var first, second := Stage(x, All, a), Stage(y, All, b);
    assert [first, second][..1] == [first] && [first][..0] == [];
    assert Merge([first]) == [first] by { assert Merge([]) == [] && [] + [first] == [first]; }
    assert [first] + [second] == [first, second] && [first][..0] + [Stage(x, All, a + b)] == [Stage(x, All, a + b)];
  }

  // ---------------------------------------------------------------- team sources

  /** One more team at the end of the list: it gets a row of its managers, or of nobody when it is inactive, unless
      it is covered or inactive teams are left out. */
  lemma {:induction false} TeamRowsSnoc(teams: seq<Team>, t: Team, covered: set<nat>, skipInactive: bool)
    ensures var (rows, all) := TeamRows(teams, covered, skipInactive);
      TeamRows(teams + [t], covered, skipInactive)
        == if t.id in all || (skipInactive && !t.active) then (rows, all)
           else (rows + [Row(if t.active then t.managers else {}, Some(t))], all + {t.id})
    decreases teams
  {
    var more := teams + [t];
    if teams == [] {
      assert more == [t] && more[1..] == [] && [] + [Row(if t.active then t.managers else {}, Some(t))]
        == [Row(if t.active then t.managers else {}, Some(t))] + [];
    } else {
      var head := teams[0];
      assert more[0] == head && more[1..] == teams[1..] + [t];
      if head.id in covered || (skipInactive && !head.active) {
        TeamRowsSnoc(teams[1..], t, covered, skipInactive);
      } else {
        TeamRowsSnoc(teams[1..], t, covered + {head.id}, skipInactive);
        var row := Row(if t.active then t.managers else {}, Some(t));
        var (rest, all) := TeamRows(teams[1..], covered + {head.id}, skipInactive);
        var first := Row(if head.active then head.managers else {}, Some(head));
        assert [first] + (rest + [row]) == ([first] + rest) + [row];
      }
    }
  }

  /** The teams a source lists: those of the CIs in order of their ids, the co-owning ones without the inactive, and
      those with change tasks. */
  lemma TeamSourcesExactly(s: PolicyStage, ctx: Context, covered: set<nat>)
    ensures s.source == CiOwnerTeamManagers ==>
      exists sorted :: multiset(sorted) == multiset(ctx.ciTeams) && Ascending(sorted)
        && Resolve(s, ctx, covered) == TeamRows(sorted, covered, false)
    ensures s.source == ServiceCoownerTeamManagers ==>
      Resolve(s, ctx, covered) == TeamRows(ctx.coownerTeams, covered, true)
    ensures s.source == TaskTeamManagers ==> Resolve(s, ctx, covered) == TeamRows(ctx.taskTeams, covered, false)
    ensures s.source == OwningTeamManager && ctx.owner.Some? ==>
      Resolve(s, ctx, covered) == ([Row(ctx.owner.value.managers, ctx.owner)], covered + {ctx.owner.value.id})
    ensures s.source !in {OwningTeamManager, CiOwnerTeamManagers, ServiceCoownerTeamManagers, TaskTeamManagers} ==>
      Resolve(s, ctx, covered).1 == covered
  {
    var sorted := Sorting.Sort(TeamLeq, ctx.ciTeams);
    Sorting.SortSorts(TeamLeq, ctx.ciTeams);
    assert multiset(sorted) == multiset(ctx.ciTeams) && Ascending(sorted);
  }

  predicate Ascending(teams: seq<Team>) {
    forall i, j :: 0 <= i < j < |teams| ==> teams[i].id <= teams[j].id
  }
}
