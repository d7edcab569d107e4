/** Compiling an approval policy into the stages of an approval chain
    (serviceops_core/approval_policies.py).

    Resolving a policy yields a list of stages, each with its own approvers and mode.
    The compiler then folds people who already decide into earlier stages and merges
    neighbouring every-approver stages. `Satisfied` gives both lists their meaning:
    which sets of approving people they let through. */
module ApprovalPolicies {
  import opened Outcomes
  import Sorting

  type Person = nat

  datatype Mode = All | Any | Majority

  /** A mode as configured: `OtherSetting` is any text outside the four known ones. */
  datatype ModeSetting = SetAll | SetAny | SetMajority | SetGroupMode | OtherSetting

  datatype Source =
    | LineManager
    | RequestTeamManager
    | RequestTeamMembers
    | OwningTeamManager
    | CiOwnerTeamManagers
    | CiOwners
    | ServiceCoownerTeamManagers
    | TaskTeamManagers
    | GroupMembers
    | AuthorityGroups
    | ChosenUsers
    | Administrators
    | OtherSource

  datatype Condition =
    | Always
    | StandardOnly
    | NormalOnly
    | EmergencyOnly
    | NonStandard
    | CcbRequired
    | CcbRequiredNormal
    | CcbRequiredEmergency
    | OtherCondition

  datatype ChangeType = Standard | Normal | Emergency | OtherType

  datatype Fallback = Nobody | SkipStep | TeamMembers | FirstAdministrator | AllAdministrators

  datatype Team = Team(id: nat, active: bool, managers: set<Person>, members: set<Person>, approvalMode: ModeSetting)

  /** `people` and `group` are what a source without per-team rows finds. */
  datatype PolicyStage = PolicyStage(
    source: Source, mode: ModeSetting, condition: Condition, fallback: Fallback,
    skipDuplicates: bool, people: set<Person>, group: Option<Team>)

  datatype Context = Context(
    changeType: ChangeType, needsCcb: bool, owner: Option<Team>,
    ciTeams: seq<Team>, coownerTeams: seq<Team>, taskTeams: seq<Team>,
    administrators: seq<Person>)

  datatype Row = Row(people: set<Person>, team: Option<Team>)

  datatype Stage = Stage(source: Source, mode: Mode, approvers: set<Person>)

  /** A stage as the policy asks for it, before any folding or merging. */
  datatype Resolved = Resolved(stage: Stage, skip: bool)

  predicate IsPersonSource(s: Source) {
    s in {LineManager, RequestTeamManager, OwningTeamManager, CiOwnerTeamManagers, CiOwners,
          ServiceCoownerTeamManagers, TaskTeamManagers}
  }

  predicate IsParallelSource(s: Source) {
    s in {OwningTeamManager, CiOwnerTeamManagers, CiOwners, ServiceCoownerTeamManagers, TaskTeamManagers}
  }

  predicate TracksTeams(s: Source) {
    s in {OwningTeamManager, CiOwnerTeamManagers, ServiceCoownerTeamManagers, TaskTeamManagers}
  }

  // ---------------------------------------------------------------- meaning

  /** `yes` is a set of people who approve. */
  predicate Satisfied(mode: Mode, approvers: set<Person>, yes: set<Person>) {
    match mode
    case All => approvers <= yes
    case Any => approvers * yes != {}
    case Majority => |approvers * yes| >= |approvers| / 2 + 1
  }

  predicate AllSatisfied(stages: seq<Stage>, yes: set<Person>) {
    forall i :: 0 <= i < |stages| ==> Satisfied(stages[i].mode, stages[i].approvers, yes)
  }

  predicate AllResolvedSatisfied(rs: seq<Resolved>, yes: set<Person>) {
    forall i :: 0 <= i < |rs| ==> Satisfied(rs[i].stage.mode, rs[i].stage.approvers, yes)
  }

  lemma SubsetCard(a: set<Person>, b: set<Person>)
    requires a <= b
    ensures |a| <= |b|
    ensures |b - a| == |b| - |a|
  {
    assert b == a + (b - a);
  }

  /** More approvals never undo a satisfied stage. */
  lemma SatisfiedMonotone(mode: Mode, approvers: set<Person>, yes: set<Person>, more: set<Person>)
    requires yes <= more && Satisfied(mode, approvers, yes)
    ensures Satisfied(mode, approvers, more)
  {
    match mode
    case All =>
    case Any =>
      var p :| p in approvers * yes;
      assert p in approvers * more;
    case Majority =>
      SubsetCard(approvers * yes, approvers * more);
  }

  /** Only the listed approvers matter. */
  lemma SatisfiedRestrict(mode: Mode, approvers: set<Person>, yes: set<Person>)
    ensures Satisfied(mode, approvers, yes) <==> Satisfied(mode, approvers, approvers * yes)
  {
    assert approvers * (approvers * yes) == approvers * yes;
  }

  // ---------------------------------------------------------------- conditions

  predicate Applies(condition: Condition, ctx: Context) {
    match condition
    case Always => true
    case StandardOnly => ctx.changeType == Standard
    case NormalOnly => ctx.changeType == Normal
    case EmergencyOnly => ctx.changeType == Emergency
    case NonStandard => ctx.changeType in {Normal, Emergency}
    case CcbRequired => ctx.changeType != Standard && ctx.needsCcb
    case CcbRequiredNormal => ctx.changeType == Normal && ctx.needsCcb
    case CcbRequiredEmergency => ctx.changeType == Emergency && ctx.needsCcb
    case OtherCondition => false
  }

  // ---------------------------------------------------------------- resolving teams

  predicate TeamLeq(a: Team, b: Team) { a.id <= b.id }

  /** One row for each team not covered yet; every team given a row becomes covered. */
  function TeamRows(teams: seq<Team>, covered: set<nat>, skipInactive: bool): (seq<Row>, set<nat>) {
    if teams == [] then ([], covered)
    else if teams[0].id in covered || (skipInactive && !teams[0].active) then
      TeamRows(teams[1..], covered, skipInactive)
    else
      var (rows, all) := TeamRows(teams[1..], covered + {teams[0].id}, skipInactive);
      ([Row(if teams[0].active then teams[0].managers else {}, Some(teams[0]))] + rows, all)
  }

  /** The rows one policy stage produces, and the teams covered afterwards. */
  function Resolve(stage: PolicyStage, ctx: Context, covered: set<nat>): (seq<Row>, set<nat>) {
    match stage.source
    case OwningTeamManager =>
      (match ctx.owner
       case None => ([Row({}, None)], covered)
       case Some(team) => ([Row(team.managers, Some(team))], covered + {team.id}))
    case CiOwnerTeamManagers => TeamRows(Sorting.Sort(TeamLeq, ctx.ciTeams), covered, false)
    case ServiceCoownerTeamManagers => TeamRows(ctx.coownerTeams, covered, true)
    case TaskTeamManagers => TeamRows(ctx.taskTeams, covered, false)
    case CiOwners => (if stage.people == {} then [] else [Row(stage.people, None)], covered)
    case _ => ([Row(stage.people, stage.group)], covered)
  }

  method CollectTeamRows(teams: seq<Team>, before: set<nat>, skipInactive: bool)
    returns (rows: seq<Row>, covered: set<nat>)
    ensures (rows, covered) == TeamRows(teams, before, skipInactive)
  {
    rows, covered := [], before;
    assert teams[0..] == teams;
    assert [] + TeamRows(teams, before, skipInactive).0 == TeamRows(teams, before, skipInactive).0;
    for i := 0 to |teams|
      invariant TeamRows(teams, before, skipInactive)
             == (var (more, all) := TeamRows(teams[i..], covered, skipInactive); (rows + more, all))
    {
      var team := teams[i];
      assert teams[i..][0] == team && teams[i..][1..] == teams[i + 1..];
      if team.id !in covered && !(skipInactive && !team.active) {
        var row := Row(if team.active then team.managers else {}, Some(team));
        ghost var more := TeamRows(teams[i + 1..], covered + {team.id}, skipInactive).0;
        assert rows + ([row] + more) == (rows + [row]) + more;
        rows := rows + [row];
        covered := covered + {team.id};
      }
    }
    assert teams[|teams|..] == [] && rows + [] == rows;
  }

  /** A row together with the policy stage that produced it. */
  datatype StageRow = StageRow(policy: PolicyStage, row: Row)

  function Tag(stage: PolicyStage, rows: seq<Row>): (r: seq<StageRow>)
    ensures |r| == |rows| && forall i :: 0 <= i < |r| ==> r[i] == StageRow(stage, rows[i])
  {
    seq(|rows|, i requires 0 <= i < |rows| => StageRow(stage, rows[i]))
  }

  /** All rows of the stages that apply, in policy order. */
  function PolicyRows(stages: seq<PolicyStage>, ctx: Context, covered: set<nat>): seq<StageRow> {
    if stages == [] then []
    else if !Applies(stages[0].condition, ctx) then PolicyRows(stages[1..], ctx, covered)
    else
      var (rows, after) := Resolve(stages[0], ctx, covered);
      Tag(stages[0], rows) + PolicyRows(stages[1..], ctx, after)
  }

  predicate AsksTeam(r: StageRow, id: nat) {
    TracksTeams(r.policy.source) && r.row.team.Some? && r.row.team.value.id == id
  }

  ghost predicate NotAsked(earlier: seq<StageRow>, covered: set<nat>, id: nat) {
    id !in covered && forall i :: 0 <= i < |earlier| ==> !AsksTeam(earlier[i], id)
  }

  /** No covered team gets a row again, except from a repeated owning-team stage. */
  ghost predicate FreshTeams(rows: seq<StageRow>, covered: set<nat>) {
    forall j, id :: 0 <= j < |rows| && rows[j].policy.source != OwningTeamManager && AsksTeam(rows[j], id) ==>
      NotAsked(rows[..j], covered, id)
  }

  predicate HasRow(rows: seq<Row>, id: nat) {
    exists i :: 0 <= i < |rows| && rows[i].team.Some? && rows[i].team.value.id == id
  }

  lemma {:induction false} TeamRowsFresh(teams: seq<Team>, covered: set<nat>, skipInactive: bool)
    ensures var (rows, all) := TeamRows(teams, covered, skipInactive);
      && covered <= all
      && NewTeams(rows, covered, all)
      && (forall id :: id in all ==> id in covered || HasRow(rows, id))
      && (forall t :: t in teams && (t.active || !skipInactive) ==> t.id in all)
  {
    if teams != [] {
      var t := teams[0];
      if t.id in covered || (skipInactive && !t.active) {
        TeamRowsFresh(teams[1..], covered, skipInactive);
      } else {
        TeamRowsFresh(teams[1..], covered + {t.id}, skipInactive);
        var (rest, all) := TeamRows(teams[1..], covered + {t.id}, skipInactive);
        var (rows, _) := TeamRows(teams, covered, skipInactive);
        assert rows == [rows[0]] + rest && rows[0].team == Some(t);
        forall id | id in all && id !in covered ensures HasRow(rows, id) {
          HasRowCons(rows[0], rest, id);
        }
      }
    }
  }

  lemma HasRowCons(row: Row, rest: seq<Row>, id: nat)
    ensures HasRow([row] + rest, id) <==> (row.team.Some? && row.team.value.id == id) || HasRow(rest, id)
  {
    var rows := [row] + rest;
    if HasRow(rest, id) {
      var k :| 0 <= k < |rest| && rest[k].team.Some? && rest[k].team.value.id == id;
      assert rows[k + 1] == rest[k];
    }
    assert rows[0] == row;
  }

  lemma {:induction false} PolicyRowsFresh(stages: seq<PolicyStage>, ctx: Context, covered: set<nat>)
    ensures FreshTeams(PolicyRows(stages, ctx, covered), covered)
  {
    if stages != [] {
      if !Applies(stages[0].condition, ctx) {
        PolicyRowsFresh(stages[1..], ctx, covered);
      } else {
        var (rows, after) := Resolve(stages[0], ctx, covered);
        ResolveFresh(stages[0], ctx, covered);
        PolicyRowsFresh(stages[1..], ctx, after);
        var head, tail := Tag(stages[0], rows), PolicyRows(stages[1..], ctx, after);
        var all := head + tail;
        forall j, id | 0 <= j < |all| && all[j].policy.source != OwningTeamManager && AsksTeam(all[j], id)
          ensures NotAsked(all[..j], covered, id)
        {
          if j >= |head| {
            assert all[j] == tail[j - |head|];
            assert NotAsked(tail[..j - |head|], after, id);
            assert all[..j] == head + tail[..j - |head|];
          } else {
            assert all[j] == head[j] && all[..j] == head[..j];
          }
        }
      }
    }
  }

  /** Rows of distinct teams, all of them new. */
  ghost predicate NewTeams(rows: seq<Row>, before: set<nat>, after: set<nat>) {
    && (forall i :: 0 <= i < |rows| ==>
          rows[i].team.Some? && rows[i].team.value.id !in before && rows[i].team.value.id in after)
    && (forall i, j :: 0 <= i < j < |rows| ==> rows[i].team.value.id != rows[j].team.value.id)
  }

  lemma ResolveFresh(stage: PolicyStage, ctx: Context, covered: set<nat>)
    ensures var (rows, after) := Resolve(stage, ctx, covered);
      && covered <= after
      && FreshTeams(Tag(stage, rows), covered)
      && (TracksTeams(stage.source) ==>
            forall i :: 0 <= i < |rows| && rows[i].team.Some? ==> rows[i].team.value.id in after)
  {
    var (rows, after) := Resolve(stage, ctx, covered);
    match stage.source
    case CiOwnerTeamManagers =>
      TeamRowsFresh(Sorting.Sort(TeamLeq, ctx.ciTeams), covered, false);
      assert NewTeams(rows, covered, after);
    case ServiceCoownerTeamManagers =>
      TeamRowsFresh(ctx.coownerTeams, covered, true);
      assert NewTeams(rows, covered, after);
    case TaskTeamManagers =>
      TeamRowsFresh(ctx.taskTeams, covered, false);
      assert NewTeams(rows, covered, after);
    case _ =>
  }

  /** No team is asked twice for one record: a team listed by a CI-owner, co-owner or task stage
      has no row in any earlier team stage, whatever the order of the stages. */
  lemma NoTeamAskedTwice(stages: seq<PolicyStage>, ctx: Context, i: nat, j: nat, id: nat)
    requires i < j < |PolicyRows(stages, ctx, {})|
    requires AsksTeam(PolicyRows(stages, ctx, {})[i], id) && AsksTeam(PolicyRows(stages, ctx, {})[j], id)
    ensures PolicyRows(stages, ctx, {})[j].policy.source == OwningTeamManager
  {
    PolicyRowsFresh(stages, ctx, {});
    var rows := PolicyRows(stages, ctx, {});
    assert AsksTeam(rows[..j][i], id) && AsksTeam(rows[j], id);
  }

  /** A team that does change-task work is always asked somewhere once its stage has been resolved. */
  lemma TaskTeamsAreCovered(stage: PolicyStage, ctx: Context, covered: set<nat>, team: Team)
    requires stage.source == TaskTeamManagers && team in ctx.taskTeams
    ensures team.id in covered || HasRow(Resolve(stage, ctx, covered).0, team.id)
  {
    TeamRowsFresh(ctx.taskTeams, covered, false);
    assert Resolve(stage, ctx, covered) == TeamRows(ctx.taskTeams, covered, false);
  }

  // ---------------------------------------------------------------- normalising rows

  function FallbackPeople(fallback: Fallback, ctx: Context, team: Option<Team>): set<Person> {
    match fallback
    case TeamMembers => if team.Some? && team.value.active then team.value.members else {}
    case FirstAdministrator => if ctx.administrators == [] then {} else {ctx.administrators[0]}
    case AllAdministrators => set p | p in ctx.administrators
    case _ => {}
  }

  function NormaliseMode(setting: ModeSetting, team: Option<Team>, source: Source, approvers: set<Person>): Mode {
    var chosen :=
      if setting != SetGroupMode then setting
      else if team.Some? && team.value.approvalMode in {SetAll, SetAny} then team.value.approvalMode
      else SetAll;
    if IsPersonSource(source) && |approvers| == 1 then All
    else match chosen
      case SetAll => All
      case SetMajority => Majority
      case _ => Any
  }

  datatype RowOutcome = Dropped | Refused | Kept(resolved: Resolved)

  function NormaliseRow(r: StageRow, ctx: Context, excluded: set<Person>): RowOutcome {
    var found := r.row.people - excluded;
    if found == {} && (r.policy.source == CiOwners || r.policy.fallback == SkipStep) then Dropped
    else
      var ids := if found == {} then FallbackPeople(r.policy.fallback, ctx, r.row.team) else found;
      if ids == {} then Refused
      else Kept(Resolved(
        Stage(r.policy.source, NormaliseMode(r.policy.mode, r.row.team, r.policy.source, ids), ids),
        r.policy.skipDuplicates))
  }

  function NormaliseAll(rows: seq<StageRow>, ctx: Context, excluded: set<Person>): (r: Result<seq<Resolved>>)
    ensures r.Err? ==> r.error == NoApprover
  {
    if rows == [] then Ok([])
    else
      match NormaliseRow(rows[0], ctx, excluded)
      case Refused => Err(NoApprover)
      case Dropped => NormaliseAll(rows[1..], ctx, excluded)
      case Kept(r) => Prepend([r], NormaliseAll(rows[1..], ctx, excluded))
  }

  function Prepend(done: seq<Resolved>, rest: Result<seq<Resolved>>): Result<seq<Resolved>> {
    if rest.Ok? then Ok(done + rest.value) else rest
  }

  /** The stages the policy asks for: every applying row with its own people and mode. */
  function ResolvePolicy(stages: seq<PolicyStage>, ctx: Context, excluded: set<Person>): Result<seq<Resolved>> {
    NormaliseAll(PolicyRows(stages, ctx, {}), ctx, excluded)
  }

  /** The mode a setting names when it is one of the three real ones. */
  function Configured(setting: ModeSetting): Mode
    requires setting.SetAll? || setting.SetAny? || setting.SetMajority?
  {
    if setting.SetAll? then All else if setting.SetAny? then Any else Majority
  }

  /** Normalising never changes what a configured mode means: a sole approver simply approves. */
  lemma NormalisingKeepsMeaning(
    setting: ModeSetting, team: Option<Team>, source: Source, ids: set<Person>, yes: set<Person>)
    requires ids != {} && (setting.SetAll? || setting.SetAny? || setting.SetMajority?)
    ensures Satisfied(NormaliseMode(setting, team, source, ids), ids, yes) <==> Satisfied(Configured(setting), ids, yes)
  {
    var mode := Configured(setting);
    if |ids| == 1 {
      if Satisfied(All, ids, yes) { StricterMeans(All, mode, ids, yes); }
      if Satisfied(mode, ids, yes) { StricterMeans(mode, All, ids, yes); }
    }
  }

  /** An excluded person is only ever asked through the fallback, when nobody else was found. */
  lemma ExcludedOnlyThroughFallback(r: StageRow, ctx: Context, excluded: set<Person>)
    requires NormaliseRow(r, ctx, excluded).Kept?
    ensures var ids := NormaliseRow(r, ctx, excluded).resolved.stage.approvers;
      && ids != {}
      && if r.row.people <= excluded then ids <= FallbackPeople(r.policy.fallback, ctx, r.row.team)
         else ids == r.row.people - excluded && ids !! excluded
  {
    if r.row.people <= excluded {
      assert r.row.people - excluded == {};
    } else {
      var p :| p in r.row.people && p !in excluded;
      assert p in r.row.people - excluded;
    }
  }

  // ---------------------------------------------------------------- folding

  /** People who must approve some earlier person stage themselves. */
  function MustApprove(built: seq<Stage>): set<Person> {
    set i, p | 0 <= i < |built| && Mandatory(built[i]) && p in built[i].approvers :: p
  }

  predicate SameStageBuilt(built: seq<Stage>, mode: Mode, ids: set<Person>) {
    exists i :: 0 <= i < |built| && IsPersonSource(built[i].source)
      && built[i].approvers == ids && built[i].mode == mode
  }

  /** None: the stage adds nobody. Some: the people it still has to ask. */
  function Fold(built: seq<Stage>, mode: Mode, ids: set<Person>): Option<set<Person>> {
    var must := MustApprove(built);
    if SameStageBuilt(built, mode, ids) then None
    else if ids !! must then Some(ids)
    else if mode == Any || ids <= must then None
    else Some(ids - must)
  }

  predicate Duplicates(built: seq<Stage>, ids: set<Person>) {
    exists i :: 0 <= i < |built| && built[i].approvers == ids
  }

  function Place(built: seq<Stage>, r: Resolved): seq<Stage> {
    if r.skip && Duplicates(built, r.stage.approvers) then built
    else if !IsPersonSource(r.stage.source) then built + [r.stage]
    else
      match Fold(built, r.stage.mode, r.stage.approvers)
      case None => built
      case Some(ids) => built + [r.stage.(approvers := ids)]
  }

  function Compile(rs: seq<Resolved>): seq<Stage> {
    if rs == [] then [] else Place(Compile(rs[..|rs| - 1]), rs[|rs| - 1])
  }

  /** The same, from the front, on top of stages already built. */
  function CompileOnto(built: seq<Stage>, rs: seq<Resolved>): seq<Stage>
    decreases rs
  {
    if rs == [] then built else CompileOnto(Place(built, rs[0]), rs[1..])
  }

  // ---------------------------------------------------------------- running in parallel

  predicate Mergeable(s: Stage) { IsParallelSource(s.source) && s.mode == All }

  function MergeOne(merged: seq<Stage>, s: Stage): seq<Stage> {
    var n := |merged|;
    if n > 0 && Mergeable(merged[n - 1]) && Mergeable(s)
    then merged[..n - 1] + [merged[n - 1].(approvers := merged[n - 1].approvers + s.approvers)]
    else merged + [s]
  }

  function Merge(built: seq<Stage>): seq<Stage> {
    if built == [] then [] else MergeOne(Merge(built[..|built| - 1]), built[|built| - 1])
  }

  /** What compiling a policy comes to: resolve, fold, merge. */
  function BuildResult(policy: Option<seq<PolicyStage>>, ctx: Context, excluded: set<Person>): Result<seq<Stage>> {
    if policy.None? then Err(NoRoute)
    else
      match ResolvePolicy(policy.value, ctx, excluded)
      case Err(e) => Err(e)
      case Ok(rs) => if rs == [] then Err(NoRoute) else Ok(Merge(Compile(rs)))
  }

  // ---------------------------------------------------------------- the compiler as the source runs it

  method FoldDuplicate(built: seq<Stage>, mode: Mode, ids: set<Person>) returns (folded: bool, remaining: set<Person>)
    ensures folded <==> Fold(built, mode, ids).None?
    ensures !folded ==> Fold(built, mode, ids) == Some(remaining)
  {
    remaining := ids;
    for i := 0 to |built|
      invariant forall k :: 0 <= k < i ==>
        !(IsPersonSource(built[k].source) && built[k].approvers == ids && built[k].mode == mode)
    {
      if IsPersonSource(built[i].source) && built[i].approvers == ids && built[i].mode == mode {
        return true, ids;
      }
    }
    var must: set<Person> := {};
    for i := 0 to |built|
      invariant must == MustApprove(built[..i])
    {
      assert built[..i + 1] == built[..i] + [built[i]];
      MustApproveSnoc(built[..i], built[i]);
      if Mandatory(built[i]) {
        must := must + built[i].approvers;
      }
    }
    assert built[..|built|] == built;
    if ids !! must {
      return false, ids;
    }
    if mode == Any || ids <= must {
      return true, ids;
    }
    return false, ids - must;
  }

  lemma MustApproveSnoc(built: seq<Stage>, s: Stage)
    ensures MustApprove(built + [s])
         == MustApprove(built) + (if Mandatory(s) then s.approvers else {})
  {
    var all := built + [s];
    forall p | p in MustApprove(built) ensures p in MustApprove(all) {
      var i :| 0 <= i < |built| && Mandatory(built[i]) && p in built[i].approvers;
      assert all[i] == built[i];
    }
    if Mandatory(s) {
      assert all[|built|] == s;
    }
  }

  method RunInParallel(built: seq<Stage>) returns (merged: seq<Stage>)
    ensures merged == Merge(built)
  {
    merged := [];
    for i := 0 to |built|
      invariant merged == Merge(built[..i])
    {
      var s := built[i];
      assert built[..i + 1][..i] == built[..i];
      if merged != [] && Mergeable(merged[|merged| - 1]) && Mergeable(s) {
        var previous := merged[|merged| - 1];
        merged := merged[..|merged| - 1] + [previous.(approvers := previous.approvers + s.approvers)];
      } else {
        merged := merged + [s];
      }
    }
    assert built[..|built|] == built;
  }

  method ResolveStage(stage: PolicyStage, ctx: Context, before: set<nat>) returns (rows: seq<Row>, covered: set<nat>)
    ensures (rows, covered) == Resolve(stage, ctx, before)
  {
    covered := before;
    match stage.source {
      case OwningTeamManager =>
        if ctx.owner.None? {
          rows := [Row({}, None)];
        } else {
          covered := covered + {ctx.owner.value.id};
          rows := [Row(ctx.owner.value.managers, ctx.owner)];
        }
      case CiOwnerTeamManagers => rows, covered := CollectTeamRows(Sorting.Sort(TeamLeq, ctx.ciTeams), before, false);
      case ServiceCoownerTeamManagers => rows, covered := CollectTeamRows(ctx.coownerTeams, before, true);
      case TaskTeamManagers => rows, covered := CollectTeamRows(ctx.taskTeams, before, false);
      case CiOwners => rows := if stage.people == {} then [] else [Row(stage.people, None)];
      case _ => rows := [Row(stage.people, stage.group)];
    }
  }

  /** One row of the inner loop: `built` after the row, or None when nobody can approve. */
  method PlaceRow(built: seq<Stage>, r: StageRow, ctx: Context, excluded: set<Person>)
    returns (next: Option<seq<Stage>>)
    ensures match NormaliseRow(r, ctx, excluded)
      case Refused => next == None
      case Dropped => next == Some(built)
      case Kept(resolved) => next == Some(Place(built, resolved))
  {
    var ids := r.row.people - excluded;
    if ids == {} && (r.policy.source == CiOwners || r.policy.fallback == SkipStep) {
      return Some(built);
    }
    if ids == {} {
      ids := FallbackPeople(r.policy.fallback, ctx, r.row.team);
    }
    if ids == {} {
      return None;
    }
    if r.policy.skipDuplicates && Duplicates(built, ids) {
      return Some(built);
    }
    var mode := NormaliseMode(r.policy.mode, r.row.team, r.policy.source, ids);
    if IsPersonSource(r.policy.source) {
      var folded, remaining := FoldDuplicate(built, mode, ids);
      if folded {
        return Some(built);
      }
      ids := remaining;
    }
    next := Some(built + [Stage(r.policy.source, mode, ids)]);
  }

  /** The inner loop: every row of one policy stage in turn. */
  method PlaceRows(built: seq<Stage>, stage: PolicyStage, rows: seq<Row>, ctx: Context, excluded: set<Person>)
    returns (next: Option<seq<Stage>>)
    ensures next == Placed(built, NormaliseAll(Tag(stage, rows), ctx, excluded))
  {
    var now := built;
    ghost var tagged := Tag(stage, rows);
    assert tagged[0..] == tagged;
    for j := 0 to |rows|
      invariant Placed(built, NormaliseAll(tagged, ctx, excluded))
             == Placed(now, NormaliseAll(tagged[j..], ctx, excluded))
    {
      assert tagged[j..][0] == StageRow(stage, rows[j]) && tagged[j..][1..] == tagged[j + 1..];
      next := PlaceRow(now, StageRow(stage, rows[j]), ctx, excluded);
      if next.None? {
        return;
      }
      now := next.value;
    }
    assert tagged[|rows|..] == [];
    next := Some(now);
  }

  ghost function Placed(built: seq<Stage>, rs: Result<seq<Resolved>>): Option<seq<Stage>> {
    if rs.Ok? then Some(CompileOnto(built, rs.value)) else None
  }

  lemma {:induction false} NormaliseAppend(a: seq<StageRow>, b: seq<StageRow>, ctx: Context, excluded: set<Person>)
    ensures var first, second := NormaliseAll(a, ctx, excluded), NormaliseAll(b, ctx, excluded);
      NormaliseAll(a + b, ctx, excluded) == if first.Ok? then Prepend(first.value, second) else first
  {
    var second := NormaliseAll(b, ctx, excluded);
    if a == [] {
      assert a + b == b;
      assert second.Ok? ==> [] + second.value == second.value;
    } else {
      NormaliseAppend(a[1..], b, ctx, excluded);
      assert (a + b)[0] == a[0] && (a + b)[1..] == a[1..] + b;
      var head, tail := NormaliseRow(a[0], ctx, excluded), NormaliseAll(a[1..], ctx, excluded);
      if head.Kept? && tail.Ok? && second.Ok? {
        assert [head.resolved] + (tail.value + second.value) == ([head.resolved] + tail.value) + second.value;
      }
    }
  }

  lemma {:induction false} CompileOntoAppend(built: seq<Stage>, a: seq<Resolved>, b: seq<Resolved>)
    ensures CompileOnto(built, a + b) == CompileOnto(CompileOnto(built, a), b)
    decreases a
  {
    if a == [] {
      assert a + b == b;
    } else {
      CompileOntoAppend(Place(built, a[0]), a[1..], b);
      assert (a + b)[0] == a[0] && (a + b)[1..] == a[1..] + b;
    }
  }

  lemma {:induction false} CompileOntoEmpty(rs: seq<Resolved>)
    ensures CompileOnto([], rs) == Compile(rs)
  {
    if rs != [] {
      var init, last := rs[..|rs| - 1], rs[|rs| - 1];
      CompileOntoEmpty(init);
      CompileOntoAppend([], init, [last]);
      assert rs == init + [last];
      assert [last][1..] == [];
    }
  }

  /** `build_stages`: resolves and compiles in one pass over the policy. It refuses exactly when some
      row finds nobody or no stage applies. Otherwise no stage is empty, nobody in an every-approver
      person stage appears in a later person stage, and, with `skip_duplicates` off, every set of
      people the result lets through is one that the resolved policy lets through. */
  method BuildStages(policy: Option<seq<PolicyStage>>, ctx: Context, excluded: set<Person>)
    returns (r: Result<seq<Stage>>)
    ensures r == BuildResult(policy, ctx, excluded)
    ensures r.Ok? ==> r.value != [] && NobodyEmpty(r.value) && AskedOnce(r.value)
    ensures r.Ok? && (forall stage :: stage in policy.value ==> !stage.skipDuplicates) ==>
      forall yes :: AllSatisfied(r.value, yes) ==>
        AllResolvedSatisfied(ResolvePolicy(policy.value, ctx, excluded).value, yes)
  {
    if policy.None? {
      return Err(NoRoute);
    }
    var stages := policy.value;
    var built: seq<Stage>, covered: set<nat> := [], {};
    assert stages[0..] == stages;
    for i := 0 to |stages|
      invariant Placed([], ResolvePolicy(stages, ctx, excluded))
             == Placed(built, NormaliseAll(PolicyRows(stages[i..], ctx, covered), ctx, excluded))
    {
      var stage := stages[i];
      assert stages[i..][0] == stage && stages[i..][1..] == stages[i + 1..];
      if Applies(stage.condition, ctx) {
        var rows, after := ResolveStage(stage, ctx, covered);
        var next := PlaceRows(built, stage, rows, ctx, excluded);
        PlacedAppend(built, Tag(stage, rows), PolicyRows(stages[i + 1..], ctx, after), ctx, excluded);
        if next.None? {
          return Err(NoApprover);
        }
        built, covered := next.value, after;
      }
    }
    assert stages[|stages|..] == [];
    BuildFacts(stages, ctx, excluded, built);
    if built == [] {
      return Err(NoRoute);
    }
    var merged := RunInParallel(built);
    r := Ok(merged);
  }

  lemma PlacedAppend(built: seq<Stage>, a: seq<StageRow>, b: seq<StageRow>, ctx: Context, excluded: set<Person>)
    ensures var first, second := NormaliseAll(a, ctx, excluded), NormaliseAll(b, ctx, excluded);
      Placed(built, NormaliseAll(a + b, ctx, excluded))
        == if first.Ok? then Placed(CompileOnto(built, first.value), second) else None
  {
    NormaliseAppend(a, b, ctx, excluded);
    var first, second := NormaliseAll(a, ctx, excluded), NormaliseAll(b, ctx, excluded);
    if first.Ok? && second.Ok? {
      CompileOntoAppend(built, first.value, second.value);
    }
  }

  lemma BuildFacts(stages: seq<PolicyStage>, ctx: Context, excluded: set<Person>, built: seq<Stage>)
    requires Placed([], ResolvePolicy(stages, ctx, excluded)) == Some(built)
    ensures built == Compile(ResolvePolicy(stages, ctx, excluded).value)
    ensures built == [] <==> ResolvePolicy(stages, ctx, excluded).value == []
    ensures Merge(built) == [] <==> built == []
    ensures NobodyEmpty(Merge(built)) && AskedOnce(Merge(built))
    ensures (forall stage :: stage in stages ==> !stage.skipDuplicates) ==>
      forall yes :: AllSatisfied(Merge(built), yes) ==>
        AllResolvedSatisfied(ResolvePolicy(stages, ctx, excluded).value, yes)
  {
    var rows := PolicyRows(stages, ctx, {});
    var rs := ResolvePolicy(stages, ctx, excluded).value;
    ResolvedNonEmpty(rows, ctx, excluded);
    CompileOntoEmpty(rs);
    CompileAsksOnce(rs);
    MergeAsksOnce(built);
    CompileEmpty(rs);
    if forall stage :: stage in stages ==> !stage.skipDuplicates {
      SkipsComeFromStages(stages, ctx, {});
      SkipFlags(rows, ctx, excluded);
      NoSkipsAreFaithful(rs);
      forall yes | AllSatisfied(Merge(built), yes) ensures AllResolvedSatisfied(rs, yes) {
        MergeMeaning(built, yes);
        CompiledImpliesResolved(rs, yes);
      }
    }
  }

  // ---------------------------------------------------------------- who must approve is not asked again

  predicate NobodyEmpty(stages: seq<Stage>) {
    forall i :: 0 <= i < |stages| ==> stages[i].approvers != {}
  }

  predicate ResolvedWellFormed(rs: seq<Resolved>) {
    forall i :: 0 <= i < |rs| ==> rs[i].stage.approvers != {}
  }

  predicate Mandatory(s: Stage) { IsPersonSource(s.source) && s.mode == All }

  /** Anyone listed in an every-approver person stage appears in no later person stage. */
  predicate AskedOnce(stages: seq<Stage>) {
    forall i, j :: 0 <= i < j < |stages| && Mandatory(stages[i]) && IsPersonSource(stages[j].source) ==>
      stages[i].approvers !! stages[j].approvers
  }

  lemma {:induction false} ResolvedNonEmpty(rows: seq<StageRow>, ctx: Context, excluded: set<Person>)
    ensures NormaliseAll(rows, ctx, excluded).Ok? ==> ResolvedWellFormed(NormaliseAll(rows, ctx, excluded).value)
  {
    if rows != [] {
      ResolvedNonEmpty(rows[1..], ctx, excluded);
    }
  }

  lemma {:induction false} SkipsComeFromStages(stages: seq<PolicyStage>, ctx: Context, covered: set<nat>)
    ensures forall i :: 0 <= i < |PolicyRows(stages, ctx, covered)| ==>
      PolicyRows(stages, ctx, covered)[i].policy in stages
  {
    if stages != [] {
      if !Applies(stages[0].condition, ctx) {
        SkipsComeFromStages(stages[1..], ctx, covered);
      } else {
        SkipsComeFromStages(stages[1..], ctx, Resolve(stages[0], ctx, covered).1);
      }
    }
  }

  lemma {:induction false} SkipFlags(rows: seq<StageRow>, ctx: Context, excluded: set<Person>)
    requires NormaliseAll(rows, ctx, excluded).Ok?
    requires forall i :: 0 <= i < |rows| ==> !rows[i].policy.skipDuplicates
    ensures forall i :: 0 <= i < |NormaliseAll(rows, ctx, excluded).value| ==>
      !NormaliseAll(rows, ctx, excluded).value[i].skip
  {
    if rows != [] {
      SkipFlags(rows[1..], ctx, excluded);
    }
  }

  lemma AskedOnceSnoc(stages: seq<Stage>, s: Stage)
    requires AskedOnce(stages)
    requires IsPersonSource(s.source) ==> MustApprove(stages) !! s.approvers
    ensures AskedOnce(stages + [s])
  {
    var all := stages + [s];
    forall i, j | 0 <= i < j < |all| && Mandatory(all[i]) && IsPersonSource(all[j].source)
      ensures all[i].approvers !! all[j].approvers
    {
      if j == |stages| {
        assert forall p :: p in all[i].approvers ==> p in MustApprove(stages) by { assert all[i] == stages[i]; }
      }
    }
  }

  lemma {:induction false} CompileAsksOnce(rs: seq<Resolved>)
    requires ResolvedWellFormed(rs)
    ensures NobodyEmpty(Compile(rs)) && AskedOnce(Compile(rs))
  {
    if rs != [] {
      var n := |rs| - 1;
      CompileAsksOnce(rs[..n]);
      var built, s := Compile(rs[..n]), rs[n].stage;
      if IsPersonSource(s.source) {
        match Fold(built, s.mode, s.approvers)
        case None =>
        case Some(ids) =>
          var p :| p in s.approvers && (s.approvers !! MustApprove(built) || p !in MustApprove(built));
          assert p in ids;
          AskedOnceSnoc(built, s.(approvers := ids));
      } else {
        AskedOnceSnoc(built, s);
      }
    }
  }

  lemma {:induction false} CompileEmpty(rs: seq<Resolved>)
    requires ResolvedWellFormed(rs)
    ensures Compile(rs) == [] <==> rs == []
  {
    if |rs| > 1 {
      CompileEmpty(rs[..|rs| - 1]);
    } else if |rs| == 1 {
      assert Compile(rs[..0]) == [];
      assert MustApprove([]) == {};
    }
  }

  lemma MergeOneMust(merged: seq<Stage>, s: Stage)
    ensures MustApprove(MergeOne(merged, s)) == MustApprove(merged) + (if Mandatory(s) then s.approvers else {})
  {
    var n := |merged|;
    if n > 0 && Mergeable(merged[n - 1]) && Mergeable(s) {
      var init, last := merged[..n - 1], merged[n - 1];
      assert merged == init + [last];
      MustApproveSnoc(init, last);
      MustApproveSnoc(init, last.(approvers := last.approvers + s.approvers));
    } else {
      MustApproveSnoc(merged, s);
    }
  }

  lemma {:induction false} MergeMust(built: seq<Stage>)
    ensures MustApprove(Merge(built)) == MustApprove(built)
  {
    if built != [] {
      var init, s := built[..|built| - 1], built[|built| - 1];
      MergeMust(init);
      MergeOneMust(Merge(init), s);
      MustApproveSnoc(init, s);
      assert built == init + [s];
    }
  }

  lemma {:induction false} MergeAsksOnce(built: seq<Stage>)
    requires NobodyEmpty(built) && AskedOnce(built)
    ensures NobodyEmpty(Merge(built)) && AskedOnce(Merge(built))
  {
    if built != [] {
      var init, s := built[..|built| - 1], built[|built| - 1];
      MergeAsksOnce(init);
      MergeMust(init);
      LastIsFresh(built);
      MergeOneAsksOnce(Merge(init), s);
    }
  }

  lemma MergeOneAsksOnce(merged: seq<Stage>, s: Stage)
    requires NobodyEmpty(merged) && AskedOnce(merged) && s.approvers != {}
    requires IsPersonSource(s.source) ==> MustApprove(merged) !! s.approvers
    ensures NobodyEmpty(MergeOne(merged, s)) && AskedOnce(MergeOne(merged, s))
  {
    var m := |merged|;
    if m > 0 && Mergeable(merged[m - 1]) && Mergeable(s) {
      var last := merged[m - 1];
      assert merged == merged[..m - 1] + [last];
      MustApproveSnoc(merged[..m - 1], last);
      LastIsFresh(merged);
      AskedOnceSnoc(merged[..m - 1], last.(approvers := last.approvers + s.approvers));
    } else {
      AskedOnceSnoc(merged, s);
    }
  }

  lemma LastIsFresh(stages: seq<Stage>)
    requires stages != [] && AskedOnce(stages)
    ensures IsPersonSource(stages[|stages| - 1].source) ==>
      MustApprove(stages[..|stages| - 1]) !! stages[|stages| - 1].approvers
  {
  }

  // ---------------------------------------------------------------- exactly when nobody is asked twice

  /** No person is in two person stages. */
  predicate PersonsDisjoint(stages: seq<Stage>) {
    forall i, j :: 0 <= i < j < |stages| && IsPersonSource(stages[i].source) && IsPersonSource(stages[j].source) ==>
      stages[i].approvers !! stages[j].approvers
  }

  predicate Optional(s: Stage) { IsPersonSource(s.source) && s.mode != All }

  /** People in any-approver and majority person stages. */
  function MayApprove(stages: seq<Stage>): set<Person> {
    set i, p | 0 <= i < |stages| && Optional(stages[i]) && p in stages[i].approvers :: p
  }

  lemma MayApproveSnoc(stages: seq<Stage>, s: Stage)
    ensures MayApprove(stages + [s]) == MayApprove(stages) + (if Optional(s) then s.approvers else {})
  {
    var all := stages + [s];
    forall p | p in MayApprove(stages) ensures p in MayApprove(all) {
      var i :| 0 <= i < |stages| && Optional(stages[i]) && p in stages[i].approvers;
      assert all[i] == stages[i];
    }
    if Optional(s) {
      assert all[|stages|] == s;
    }
  }

  /** What one more stage does to disjointness. */
  lemma PersonsDisjointSnoc(stages: seq<Stage>, s: Stage)
    ensures PersonsDisjoint(stages + [s]) <==>
      && PersonsDisjoint(stages)
      && (IsPersonSource(s.source) ==> s.approvers !! MustApprove(stages) && s.approvers !! MayApprove(stages))
  {
    var all := stages + [s];
    if PersonsDisjoint(all) {
      forall i, j | 0 <= i < j < |stages| && IsPersonSource(stages[i].source) && IsPersonSource(stages[j].source)
        ensures stages[i].approvers !! stages[j].approvers
      {
        assert all[i] == stages[i] && all[j] == stages[j];
      }
      if IsPersonSource(s.source) { LastIsDisjoint(stages, s); }
    }
  }

  lemma LastIsDisjoint(stages: seq<Stage>, s: Stage)
    requires IsPersonSource(s.source) && PersonsDisjoint(stages + [s])
    ensures s.approvers !! MustApprove(stages) && s.approvers !! MayApprove(stages)
  {
    var all := stages + [s];
    forall i | 0 <= i < |stages| && IsPersonSource(stages[i].source) ensures stages[i].approvers !! s.approvers {
      assert all[i] == stages[i] && all[|stages|] == s;
    }
  }

  /** The row adds nobody, or only people whom no earlier any-approver or majority stage asks. */
  predicate AsksAnew(built: seq<Stage>, r: Resolved) {
    var skipped := r.skip && Duplicates(built, r.stage.approvers);
    var left := Fold(built, r.stage.mode, r.stage.approvers);
    !skipped && IsPersonSource(r.stage.source) && left.Some? ==> left.value !! MayApprove(built)
  }

  /** Row `n` asks anew when its turn comes. */
  predicate AnewAt(rs: seq<Resolved>, n: nat)
    requires n < |rs|
  {
    AsksAnew(Compile(rs[..n]), rs[n])
  }

  lemma DisjointStep(rs: seq<Resolved>, n: nat)
    requires n < |rs|
    ensures PersonsDisjoint(Compile(rs[..n + 1])) == (PersonsDisjoint(Compile(rs[..n])) && AnewAt(rs, n))
  {
    assert rs[..n + 1][..n] == rs[..n];
    PlaceDisjoint(Compile(rs[..n]), rs[n]);
  }

  lemma {:induction false} DisjointUpTo(rs: seq<Resolved>, n: nat)
    requires n <= |rs|
    ensures PersonsDisjoint(Compile(rs[..n])) == forall k :: 0 <= k < n ==> AnewAt(rs, k)
    decreases n
  {
    if n > 0 {
      DisjointUpTo(rs, n - 1);
      DisjointStep(rs, n - 1);
    }
  }

  lemma PlaceDisjoint(built: seq<Stage>, r: Resolved)
    ensures PersonsDisjoint(Place(built, r)) <==> PersonsDisjoint(built) && AsksAnew(built, r)
  {
    if !(r.skip && Duplicates(built, r.stage.approvers)) {
      PersonsDisjointSnoc(built, r.stage);
      var left := Fold(built, r.stage.mode, r.stage.approvers);
      if left.Some? { PersonsDisjointSnoc(built, r.stage.(approvers := left.value)); }
    }
  }

  lemma MergeOneMay(merged: seq<Stage>, s: Stage)
    ensures MayApprove(MergeOne(merged, s)) == MayApprove(merged) + (if Optional(s) then s.approvers else {})
  {
    var n := |merged|;
    if n > 0 && Mergeable(merged[n - 1]) && Mergeable(s) {
      var init, last := merged[..n - 1], merged[n - 1];
      assert merged == init + [last];
      MayApproveSnoc(init, last);
      MayApproveSnoc(init, last.(approvers := last.approvers + s.approvers));
    } else {
      MayApproveSnoc(merged, s);
    }
  }

  lemma {:induction false} MergeMay(built: seq<Stage>)
    ensures MayApprove(Merge(built)) == MayApprove(built)
  {
    if built != [] {
      var init, s := built[..|built| - 1], built[|built| - 1];
      MergeMay(init);
      MergeOneMay(Merge(init), s);
      MayApproveSnoc(init, s);
      assert built == init + [s];
    }
  }

  lemma MergeOneDisjoint(merged: seq<Stage>, s: Stage)
    requires IsPersonSource(s.source) ==> MustApprove(merged) !! s.approvers
    ensures PersonsDisjoint(MergeOne(merged, s)) <==>
      PersonsDisjoint(merged) && (IsPersonSource(s.source) ==> s.approvers !! MayApprove(merged))
  {
    var n := |merged|;
    PersonsDisjointSnoc(merged, s);
    if n > 0 && Mergeable(merged[n - 1]) && Mergeable(s) {
      var init, last := merged[..n - 1], merged[n - 1];
      assert merged == init + [last];
      PersonsDisjointSnoc(init, last);
      PersonsDisjointSnoc(init, last.(approvers := last.approvers + s.approvers));
      MustApproveSnoc(init, last);
      MayApproveSnoc(init, last);
    }
  }

  /** Merging neither makes nor removes a second request. */
  lemma {:induction false} MergeKeepsDisjoint(built: seq<Stage>)
    requires AskedOnce(built)
    ensures PersonsDisjoint(Merge(built)) <==> PersonsDisjoint(built)
  {
    if built != [] {
      var init, s := built[..|built| - 1], built[|built| - 1];
      MergeKeepsDisjoint(init);
      MergeMust(init);
      MergeMay(init);
      LastIsFresh(built);
      MergeOneDisjoint(Merge(init), s);
      PersonsDisjointSnoc(init, s);
      assert built == init + [s];
    }
  }

  /** The compiled person stages are pairwise disjoint, before and after merging, if and only if every row asks
      anew when its turn comes. */
  lemma {:induction false} NobodyAskedTwiceExactly(rs: seq<Resolved>)
    requires ResolvedWellFormed(rs)
    ensures PersonsDisjoint(Compile(rs)) <==> forall n :: 0 <= n < |rs| ==> AnewAt(rs, n)
    ensures PersonsDisjoint(Merge(Compile(rs))) <==> forall n :: 0 <= n < |rs| ==> AnewAt(rs, n)
  {
    DisjointUpTo(rs, |rs|);
    assert rs[..|rs|] == rs;
    CompileAsksOnce(rs);
    MergeKeepsDisjoint(Compile(rs));
  }

  /** Person 2 is one of several who may approve for the owning team, and again for the CI owners. */
  lemma SomebodyIsAskedTwice()
    ensures var first, second := Stage(OwningTeamManager, Any, {1, 2}), Stage(CiOwners, Any, {2, 3});
      var stages := Merge(Compile([Resolved(first, false), Resolved(second, false)]));
      stages == [first, second] && !PersonsDisjoint(stages)
  {
    var first, second := Stage(OwningTeamManager, Any, {1, 2}), Stage(CiOwners, Any, {2, 3});
    assert 3 in second.approvers && 3 !in first.approvers;
    CompileOfTwo(first, second);
    MergeOfTwo(first, second);
    assert 2 in first.approvers && 2 in second.approvers;
    assert [first, second][0] == first && [first, second][1] == second;
  }

  lemma CompileOfTwo(first: Stage, second: Stage)
    requires first.mode == Any && second.mode == Any && first.approvers != second.approvers
    ensures Compile([Resolved(first, false), Resolved(second, false)]) == [first, second]
  {
    var rs := [Resolved(first, false), Resolved(second, false)];
    assert rs[..1] == [rs[0]] && [rs[0]][..0] == [];
    assert MustApprove([]) == {} && MustApprove([first]) == {};
    assert Compile([rs[0]]) == [first] by { assert Compile([]) == [] && [] + [first] == [first]; }
    assert [first] + [second] == [first, second];
  }

  lemma MergeOfTwo(first: Stage, second: Stage)
    requires !Mergeable(first)
    ensures Merge([first, second]) == [first, second]
  {
    assert [first, second][..1] == [first] && [first][..0] == [];
    assert Merge([first]) == [first] by { assert Merge([]) == [] && [] + [first] == [first]; }
    assert [first] + [second] == [first, second];
  }

  // ---------------------------------------------------------------- meaning is preserved

  lemma {:induction false} MergeMeaning(built: seq<Stage>, yes: set<Person>)
    ensures AllSatisfied(Merge(built), yes) <==> AllSatisfied(built, yes)
  {
    if built != [] {
      var n := |built| - 1;
      var init, s := built[..n], built[n];
      MergeMeaning(init, yes);
      var merged := Merge(init);
      AllSatisfiedSnoc(init, s, yes);
      assert built == init + [s];
      AllSatisfiedSnoc(merged, s, yes);
      var m := |merged|;
      if m > 0 && Mergeable(merged[m - 1]) && Mergeable(s) {
        var last := merged[m - 1];
        assert merged == merged[..m - 1] + [last];
        AllSatisfiedSnoc(merged[..m - 1], last, yes);
        AllSatisfiedSnoc(merged[..m - 1], last.(approvers := last.approvers + s.approvers), yes);
      }
    }
  }

  lemma AllSatisfiedSnoc(stages: seq<Stage>, s: Stage, yes: set<Person>)
    ensures AllSatisfied(stages + [s], yes) <==> AllSatisfied(stages, yes) && Satisfied(s.mode, s.approvers, yes)
  {
    var all := stages + [s];
    assert all[|stages|] == s;
    assert forall i :: 0 <= i < |stages| ==> all[i] == stages[i];
  }

  lemma ResolvedSnoc(rs: seq<Resolved>, yes: set<Person>)
    requires rs != []
    ensures var last := rs[|rs| - 1].stage;
      AllResolvedSatisfied(rs, yes) <==>
        AllResolvedSatisfied(rs[..|rs| - 1], yes) && Satisfied(last.mode, last.approvers, yes)
  {
  }

  lemma MustHaveApproved(built: seq<Stage>, yes: set<Person>)
    requires AllSatisfied(built, yes)
    ensures MustApprove(built) <= yes
  {
  }

  /** Every set of people that satisfies a stage of mode `a` satisfies one of mode `b` over the same `n` people. */
  predicate AtLeastAsStrict(a: Mode, b: Mode, n: nat) {
    || a == All
    || b == Any
    || a == b
    || n <= 1
    || (a == Majority && n == 2)
  }

  /** `AtLeastAsStrict` is exact. */
  lemma StricterExactly(a: Mode, b: Mode, approvers: set<Person>)
    requires approvers != {}
    ensures AtLeastAsStrict(a, b, |approvers|)
      <==> forall yes :: Satisfied(a, approvers, yes) ==> Satisfied(b, approvers, yes)
  {
    if AtLeastAsStrict(a, b, |approvers|) {
      forall yes | Satisfied(a, approvers, yes) ensures Satisfied(b, approvers, yes) {
        StricterMeans(a, b, approvers, yes);
      }
    } else {
      var yes := if a == Any then PickSome(approvers, 1) else PickSome(approvers, |approvers| / 2 + 1);
      assert approvers * yes == yes;
      assert b == All && approvers <= yes ==> yes == approvers;
      assert Satisfied(a, approvers, yes) && !Satisfied(b, approvers, yes);
    }
  }

  lemma StricterMeans(a: Mode, b: Mode, approvers: set<Person>, yes: set<Person>)
    requires approvers != {} && AtLeastAsStrict(a, b, |approvers|) && Satisfied(a, approvers, yes)
    ensures Satisfied(b, approvers, yes)
  {
    SubsetCard(approvers * yes, approvers);
    if approvers <= yes {
      assert approvers * yes == approvers;
    } else if |approvers| <= 2 {
      assert |approvers * yes| < |approvers| by {
        assert |approvers - approvers * yes| != 0;
      }
    }
  }

  /** Some `k` of the given people. */
  ghost function PickSome(from: set<Person>, k: nat): (r: set<Person>)
    requires k <= |from|
    ensures r <= from && |r| == k
  {
    if k == 0 then {}
    else
      var p :| p in from;
      {p} + PickSome(from - {p}, k - 1)
  }

  /** A skipped duplicate loses nothing when a built stage over the same people is at least as strict. */
  predicate SkipIsSafe(built: seq<Stage>, r: Resolved) {
    r.skip && Duplicates(built, r.stage.approvers) ==>
      exists i :: 0 <= i < |built| && built[i].approvers == r.stage.approvers
        && AtLeastAsStrict(built[i].mode, r.stage.mode, |r.stage.approvers|)
  }

  ghost predicate FaithfulSkips(rs: seq<Resolved>) {
    forall n :: 0 <= n < |rs| ==> SkipIsSafe(Compile(rs[..n]), rs[n])
  }

  lemma NoSkipsAreFaithful(rs: seq<Resolved>)
    requires forall i :: 0 <= i < |rs| ==> !rs[i].skip
    ensures FaithfulSkips(rs)
  {
  }

  lemma PlaceIsSound(built: seq<Stage>, r: Resolved, yes: set<Person>)
    requires r.stage.approvers != {} && SkipIsSafe(built, r) && AllSatisfied(Place(built, r), yes)
    ensures AllSatisfied(built, yes) && Satisfied(r.stage.mode, r.stage.approvers, yes)
  {
    var s := r.stage;
    if r.skip && Duplicates(built, s.approvers) {
      var i :| 0 <= i < |built| && built[i].approvers == s.approvers
        && AtLeastAsStrict(built[i].mode, s.mode, |s.approvers|);
      StricterMeans(built[i].mode, s.mode, s.approvers, yes);
    } else if !IsPersonSource(s.source) {
      AllSatisfiedSnoc(built, s, yes);
    } else {
      match Fold(built, s.mode, s.approvers)
      case Some(ids) =>
        AllSatisfiedSnoc(built, s.(approvers := ids), yes);
        MustHaveApproved(built, yes);
        assert s.approvers !! MustApprove(built) ==> s.approvers - MustApprove(built) == s.approvers;
        ReducedImpliesFull(s.mode, s.approvers, MustApprove(built), yes);
      case None =>
        MustHaveApproved(built, yes);
        if !SameStageBuilt(built, s.mode, s.approvers) {
          if s.mode == Any {
            var p :| p in s.approvers && p in MustApprove(built);
            assert p in s.approvers * yes;
          } else {
            assert s.approvers * yes == s.approvers;
          }
        }
    }
  }

  lemma ReducedImpliesFull(mode: Mode, ids: set<Person>, must: set<Person>, yes: set<Person>)
    requires must <= yes && !(mode == Any && !(ids !! must))
    requires Satisfied(mode, ids - must, yes)
    ensures Satisfied(mode, ids, yes)
  {
    if ids !! must {
      assert ids - must == ids;
    } else if mode == Majority {
      SplitMajority(ids, must, yes);
    }
  }

  lemma SplitMajority(ids: set<Person>, must: set<Person>, yes: set<Person>)
    requires must <= yes
    ensures |ids * yes| == |(ids - must) * yes| + |ids * must|
    ensures |ids| == |ids - must| + |ids * must|
  {
    assert ids * yes == (ids - must) * yes + ids * must;
    assert ids == (ids - must) + ids * must;
  }

  /** What a compiled policy lets through, the resolved policy lets through, whatever the modes.
      The only proviso is that `skip_duplicates` never drops a stage stricter than the one it repeats. */
  lemma {:induction false} CompiledImpliesResolved(rs: seq<Resolved>, yes: set<Person>)
    requires ResolvedWellFormed(rs) && FaithfulSkips(rs) && AllSatisfied(Compile(rs), yes)
    ensures AllResolvedSatisfied(rs, yes)
  {
    if rs != [] {
      var n := |rs| - 1;
      PlaceIsSound(Compile(rs[..n]), rs[n], yes);
      forall k | 0 <= k < n ensures SkipIsSafe(Compile(rs[..n][..k]), rs[..n][k]) {
        assert rs[..n][..k] == rs[..k];
        assert SkipIsSafe(Compile(rs[..k]), rs[k]);
      }
      CompiledImpliesResolved(rs[..n], yes);
      ResolvedSnoc(rs, yes);
    }
  }

  /** Folding keeps the exact threshold of this stage. */
  predicate FoldIsExact(built: seq<Stage>, r: Resolved) {
    var ids, must := r.stage.approvers, MustApprove(built);
    IsPersonSource(r.stage.source) && r.stage.mode == Majority && !(ids !! must) && !(ids <= must) ==>
      SameStageBuilt(built, Majority, ids) || OverlapIsExact(ids, must)
  }

  predicate OverlapIsExact(ids: set<Person>, must: set<Person>) {
    |ids * must| == 1 && |ids - must| % 2 == 1
  }

  /** A majority stage that partly overlaps people who already must approve keeps its meaning exactly
      when one person overlaps and an odd number remain; any other overlap raises the threshold. */
  lemma MajorityFoldExactly(ids: set<Person>, must: set<Person>)
    requires !(ids !! must) && !(ids <= must)
    ensures OverlapIsExact(ids, must) <==>
      forall yes :: must <= yes ==> (Satisfied(Majority, ids, yes) <==> Satisfied(Majority, ids - must, yes))
  {
    var rest := ids - must;
    if OverlapIsExact(ids, must) {
      forall yes | must <= yes ensures Satisfied(Majority, ids, yes) <==> Satisfied(Majority, rest, yes) {
        SplitMajority(ids, must, yes);
      }
    } else {
      var some := PickSome(rest, |rest| / 2);
      var yes := must + some;
      SplitMajority(ids, must, yes);
      assert rest * yes == some;
      assert |ids * must| != 0;
      assert Satisfied(Majority, ids, yes) && !Satisfied(Majority, rest, yes);
    }
  }

  /** Two people who must approve, and a majority of three with them: the two satisfy the policy and not what it
      compiles to. */
  lemma MajorityFoldRaisesThreshold()
    ensures var first, second := Stage(OwningTeamManager, All, {1, 2}), Stage(CiOwners, Majority, {1, 2, 3});
      var rs := [Resolved(first, false), Resolved(second, false)];
      && Compile(rs) == [first, second.(approvers := {3})]
      && AllResolvedSatisfied(rs, {1, 2}) && !AllSatisfied(Compile(rs), {1, 2})
  {
    var first, second := Stage(OwningTeamManager, All, {1, 2}), Stage(CiOwners, Majority, {1, 2, 3});
    var rs := [Resolved(first, false), Resolved(second, false)];
    CompileOverlap(first, second);
    assert {1, 2, 3} - {1, 2} == {3};
    assert {1, 2, 3} * {1, 2} == {1, 2} && {3} * {1, 2} == {};
    assert Compile(rs)[1] == second.(approvers := {3});
  }

  lemma CompileOverlap(first: Stage, second: Stage)
    requires Mandatory(first) && IsPersonSource(second.source) && second.mode == Majority
    requires !(first.approvers !! second.approvers) && !(second.approvers <= first.approvers)
    ensures Compile([Resolved(first, false), Resolved(second, false)])
      == [first, second.(approvers := second.approvers - first.approvers)]
  {
    var rs := [Resolved(first, false), Resolved(second, false)];
    assert rs[..1] == [rs[0]] && [rs[0]][..0] == [];
    assert MustApprove([]) == {};
    assert Compile([rs[0]]) == [first] by { assert Compile([]) == [] && [] + [first] == [first]; }
    MustApproveSnoc([], first);
    assert [] + [first] == [first];
    assert MustApprove([first]) == first.approvers;
  }

  ghost predicate ExactFolds(rs: seq<Resolved>) {
    forall n :: 0 <= n < |rs| ==> FoldIsExact(Compile(rs[..n]), rs[n])
  }

  lemma NoMajorityIsExact(rs: seq<Resolved>)
    requires forall i :: 0 <= i < |rs| ==> rs[i].stage.mode != Majority
    ensures ExactFolds(rs)
  {
  }

  lemma PlaceIsComplete(built: seq<Stage>, r: Resolved, yes: set<Person>)
    requires FoldIsExact(built, r) && AllSatisfied(built, yes) && Satisfied(r.stage.mode, r.stage.approvers, yes)
    ensures AllSatisfied(Place(built, r), yes)
  {
    var s := r.stage;
    if !(r.skip && Duplicates(built, s.approvers)) {
      if !IsPersonSource(s.source) {
        AllSatisfiedSnoc(built, s, yes);
      } else {
        match Fold(built, s.mode, s.approvers)
        case None =>
        case Some(ids) =>
          AllSatisfiedSnoc(built, s.(approvers := ids), yes);
          MustHaveApproved(built, yes);
          if s.mode == Majority && ids != s.approvers {
            MajorityFoldExactly(s.approvers, MustApprove(built));
          }
      }
    }
  }

  /** The converse: without a lossy majority overlap, compiling loses no set of people either. */
  lemma {:induction false} ResolvedImpliesCompiled(rs: seq<Resolved>, yes: set<Person>)
    requires ExactFolds(rs) && AllResolvedSatisfied(rs, yes)
    ensures AllSatisfied(Compile(rs), yes)
  {
    if rs != [] {
      var n := |rs| - 1;
      forall k | 0 <= k < n ensures FoldIsExact(Compile(rs[..n][..k]), rs[..n][k]) {
        assert rs[..n][..k] == rs[..k];
        assert FoldIsExact(Compile(rs[..k]), rs[k]);
      }
      ResolvedSnoc(rs, yes);
      ResolvedImpliesCompiled(rs[..n], yes);
      PlaceIsComplete(Compile(rs[..n]), rs[n], yes);
    }
  }

  /** Folding plus parallel merging preserves meaning: the compiled stages and the resolved policy let
      through the same sets of people. */
  lemma CompilePreservesMeaning(rs: seq<Resolved>, yes: set<Person>)
    requires ResolvedWellFormed(rs) && FaithfulSkips(rs) && ExactFolds(rs)
    ensures AllSatisfied(Merge(Compile(rs)), yes) <==> AllResolvedSatisfied(rs, yes)
  {
    MergeMeaning(Compile(rs), yes);
    if AllSatisfied(Compile(rs), yes) {
      CompiledImpliesResolved(rs, yes);
    }
    if AllResolvedSatisfied(rs, yes) {
      ResolvedImpliesCompiled(rs, yes);
    }
  }

  /** A policy whose stages never use `majority` and never skip duplicates, as the default change
      policy, keeps its meaning exactly. */
  lemma DefaultModesPreserveMeaning(stages: seq<PolicyStage>, ctx: Context, excluded: set<Person>, yes: set<Person>)
    requires forall s :: s in stages ==> s.mode != SetMajority && !s.skipDuplicates
    requires ResolvePolicy(stages, ctx, excluded).Ok?
    ensures var rs := ResolvePolicy(stages, ctx, excluded).value;
      AllSatisfied(Merge(Compile(rs)), yes) <==> AllResolvedSatisfied(rs, yes)
  {
    var rows := PolicyRows(stages, ctx, {});
    var rs := ResolvePolicy(stages, ctx, excluded).value;
    SkipsComeFromStages(stages, ctx, {});
    SkipFlags(rows, ctx, excluded);
    ResolvedNonEmpty(rows, ctx, excluded);
    ModesComeFromStages(rows, ctx, excluded);
    NoSkipsAreFaithful(rs);
    NoMajorityIsExact(rs);
    CompilePreservesMeaning(rs, yes);
  }

  lemma {:induction false} ModesComeFromStages(rows: seq<StageRow>, ctx: Context, excluded: set<Person>)
    requires NormaliseAll(rows, ctx, excluded).Ok?
    requires forall i :: 0 <= i < |rows| ==> rows[i].policy.mode != SetMajority
    ensures forall i :: 0 <= i < |NormaliseAll(rows, ctx, excluded).value| ==>
      NormaliseAll(rows, ctx, excluded).value[i].stage.mode != Majority
  {
    if rows != [] {
      ModesComeFromStages(rows[1..], ctx, excluded);
    }
  }

  /** Compiling asks nobody that the policy does not ask. */
  function PeopleAsked(stages: seq<Stage>): set<Person> {
    set i, p | 0 <= i < |stages| && p in stages[i].approvers :: p
  }

  function PeopleResolved(rs: seq<Resolved>): set<Person> {
    set i, p | 0 <= i < |rs| && p in rs[i].stage.approvers :: p
  }

  lemma PeopleAskedSnoc(stages: seq<Stage>, s: Stage)
    ensures PeopleAsked(stages + [s]) == PeopleAsked(stages) + s.approvers
  {
    var all := stages + [s];
    assert all[|stages|] == s;
    forall p | p in PeopleAsked(stages) ensures p in PeopleAsked(all) {
      var i :| 0 <= i < |stages| && p in stages[i].approvers;
      assert all[i] == stages[i];
    }
  }

  lemma {:induction false} CompiledAsksOnlyResolved(rs: seq<Resolved>)
    ensures PeopleAsked(Compile(rs)) <= PeopleResolved(rs)
  {
    if rs != [] {
      var n := |rs| - 1;
      var built, s := Compile(rs[..n]), rs[n].stage;
      CompiledAsksOnlyResolved(rs[..n]);
      assert s.approvers <= PeopleResolved(rs);
      assert PeopleResolved(rs[..n]) <= PeopleResolved(rs);
      PeopleAskedSnoc(built, s);
      var kept := Fold(built, s.mode, s.approvers);
      if kept.Some? {
        PeopleAskedSnoc(built, s.(approvers := kept.value));
      }
    }
  }

  lemma {:induction false} MergedAsksTheSame(built: seq<Stage>)
    ensures PeopleAsked(Merge(built)) == PeopleAsked(built)
  {
    if built != [] {
      var n := |built| - 1;
      var init, s := built[..n], built[n];
      MergedAsksTheSame(init);
      var merged := Merge(init);
      assert built == init + [s];
      PeopleAskedSnoc(init, s);
      PeopleAskedSnoc(merged, s);
      if merged != [] {
        var m := |merged| - 1;
        assert merged == merged[..m] + [merged[m]];
        PeopleAskedSnoc(merged[..m], merged[m]);
        PeopleAskedSnoc(merged[..m], merged[m].(approvers := merged[m].approvers + s.approvers));
      }
    }
  }

  lemma CompileSkippedPair(first: Resolved, second: Resolved)
    requires first.stage.approvers == second.stage.approvers && second.skip
    ensures Compile([first, second]) == [first.stage]
  {
    var rs, built := [first, second], [first.stage];
    assert rs[..1] == [first] && [first][..0] == [];
    assert MustApprove([]) == {};
    assert Compile([first]) == built by { assert Compile([]) == [] && [] + [first.stage] == built; }
    assert built[0].approvers == second.stage.approvers;
    assert Place(built, second) == built;
  }

  /** `skip_duplicates` compares people and not modes: a stage skipped after one over the same people keeps its
      say if and only if the mode of the earlier one is at least as strict. */
  lemma SkippedPairExactly(first: Resolved, second: Resolved)
    requires first.stage.approvers == second.stage.approvers != {} && second.skip
    ensures AtLeastAsStrict(first.stage.mode, second.stage.mode, |first.stage.approvers|) <==>
      forall yes :: AllSatisfied(Compile([first, second]), yes) ==> AllResolvedSatisfied([first, second], yes)
  {
    var rs, ids := [first, second], first.stage.approvers;
    CompileSkippedPair(first, second);
    StricterExactly(first.stage.mode, second.stage.mode, ids);
    forall yes
      ensures AllSatisfied(Compile(rs), yes) <==> Satisfied(first.stage.mode, ids, yes)
      ensures AllResolvedSatisfied(rs, yes) <==>
        Satisfied(first.stage.mode, ids, yes) && Satisfied(second.stage.mode, ids, yes)
    {
      assert rs[0] == first && rs[1] == second;
    }
  }

  /** The instance: an every-approver stage after an any-approver stage over the same people disappears, and any
      one of them then passes alone. */
  lemma WeakSkipLosesMeaning(ids: set<Person>, p: Person)
    requires p in ids && |ids| >= 2
    ensures var rs := [Resolved(Stage(GroupMembers, Any, ids), true), Resolved(Stage(GroupMembers, All, ids), true)];
      && !FaithfulSkips(rs)
      && AllSatisfied(Compile(rs), {p})
      && !AllResolvedSatisfied(rs, {p})
  {
    var first, second := Resolved(Stage(GroupMembers, Any, ids), true), Resolved(Stage(GroupMembers, All, ids), true);
    var rs := [first, second];
    CompileSkippedPair(first, second);
    assert p in ids * {p};
    assert !(ids <= {p}) by {
      if ids <= {p} { SubsetCard(ids, {p}); }
    }
    assert !Satisfied(rs[1].stage.mode, rs[1].stage.approvers, {p});
    if FaithfulSkips(rs) { CompiledImpliesResolved(rs, {p}); }
  }
}
