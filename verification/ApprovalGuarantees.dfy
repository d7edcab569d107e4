/** What an Approved chain guarantees about the policy it was compiled from, and which
    groups of people can bring a chain to Approved at all. */
module ApprovalGuarantees {
  import opened Outcomes
  import opened ApprovalPolicies
  import opened ApprovalChains

  /** Everyone whose vote on some gate is Approved. */
  function ApprovedPeople(c: Chain): set<Person> {
    set i, p | 0 <= i < |c.gates| && p in VotersIn(c.gates[i].votes, VoteState.Approved) :: p
  }

  lemma ApprovedChainSatisfies(c: Chain, stages: seq<Stage>)
    requires Inv(c) && c.state.Approved? && Matches(c, stages)
    ensures AllSatisfied(stages, ApprovedPeople(c))
  {
    forall i | 0 <= i < |stages| ensures Satisfied(stages[i].mode, stages[i].approvers, ApprovedPeople(c)) {
      var yes := VotersIn(c.gates[i].votes, VoteState.Approved);
      assert GateDone(c.gates[i]);
      assert yes <= ApprovedPeople(c);
      SatisfiedMonotone(stages[i].mode, stages[i].approvers, yes, ApprovedPeople(c));
    }
  }

  /** End to end: whatever decisions, cancellations and supersessions happen, a chain compiled by
      `build_stages` that ends Approved satisfies every stage the policy resolved to, each under its own
      mode, by people whose votes are Approved. */
  lemma ApprovedMeansPolicySatisfied(rs: seq<Resolved>, ops: seq<Op>)
    requires ResolvedWellFormed(rs) && FaithfulSkips(rs)
    requires Startable(Merge(Compile(rs)))
    requires Run(Create(Merge(Compile(rs))).value, ops).state.Approved?
    ensures AllResolvedSatisfied(rs, ApprovedPeople(Run(Create(Merge(Compile(rs))).value, ops)))
  {
    var stages := Merge(Compile(rs));
    var start := Create(stages).value;
    CreateInv(stages);
    EveryRunKeepsInv(start, ops);
    var last := Run(start, ops);
    ApprovedChainSatisfies(last, stages);
    MergeMeaning(Compile(rs), ApprovedPeople(last));
    CompiledImpliesResolved(rs, ApprovedPeople(last));
  }

  /** The same for a whole policy with `skip_duplicates` off, from `build_stages` to the last vote. */
  lemma ApprovedMeansEveryStageApproved(
    policy: seq<PolicyStage>, ctx: Context, excluded: set<Person>, stages: seq<Stage>, ops: seq<Op>)
    requires forall s :: s in policy ==> !s.skipDuplicates
    requires BuildResult(Some(policy), ctx, excluded) == Ok(stages) && Create(stages).Ok?
    requires Run(Create(stages).value, ops).state.Approved?
    ensures AllResolvedSatisfied(
      ResolvePolicy(policy, ctx, excluded).value, ApprovedPeople(Run(Create(stages).value, ops)))
  {
    var rows := PolicyRows(policy, ctx, {});
    var rs := ResolvePolicy(policy, ctx, excluded).value;
    ResolvedNonEmpty(rows, ctx, excluded);
    SkipsComeFromStages(policy, ctx, {});
    SkipFlags(rows, ctx, excluded);
    NoSkipsAreFaithful(rs);
    ApprovedMeansPolicySatisfied(rs, ops);
  }

  // ---------------------------------------------------------------- whose approvals count

  /** On Approve the people whose vote is Approved grow by exactly the voter, on Reject not at all. */
  lemma DecisionAddsTheVoter(c: Chain, k: nat, p: Person, d: Decision)
    requires Inv(c) && Decide(c, k, p, d).Ok?
    ensures ApprovedPeople(Decide(c, k, p, d).value) == ApprovedPeople(c) + (if d == Approve then {p} else {})
  {
    var after := Decide(c, k, p, d).value;
    forall q | q in ApprovedPeople(c) ensures q in ApprovedPeople(after) {
      var i :| 0 <= i < |c.gates| && q in VotersIn(c.gates[i].votes, VoteState.Approved);
      StillApproved(c, k, p, d, i, q);
    }
    ApplyAddsOnlyTheVoter(c, Vote(k, p, d));
    if d == Approve { VoterIsApproved(c, k, p); } else { RejectionAddsNobody(c, k, p); }
  }

  lemma VoterIsApproved(c: Chain, k: nat, p: Person)
    requires Inv(c) && Decide(c, k, p, Approve).Ok?
    ensures p in ApprovedPeople(Decide(c, k, p, Approve).value)
  {
    if MetWith(c.gates[k], p) { ApprovalMeetsMode(c, k, p); } else { ApprovalBelowMode(c, k, p); }
    assert p in VotersIn(Decide(c, k, p, Approve).value.gates[k].votes, VoteState.Approved);
  }

  lemma StillApproved(c: Chain, k: nat, p: Person, d: Decision, i: nat, q: Person)
    requires Inv(c) && Decide(c, k, p, d).Ok?
    requires i < |c.gates| && q in VotersIn(c.gates[i].votes, VoteState.Approved)
    ensures q in VotersIn(Decide(c, k, p, d).value.gates[i].votes, VoteState.Approved)
  {
    if d == Approve {
      if MetWith(c.gates[k], p) { ApprovalMeetsMode(c, k, p); } else { ApprovalBelowMode(c, k, p); }
    } else {
      RejectionIsRecorded(c, k, p);
    }
  }

  lemma RejectionAddsNobody(c: Chain, k: nat, p: Person)
    requires Inv(c) && Decide(c, k, p, Reject).Ok?
    ensures ApprovedPeople(Decide(c, k, p, Reject).value) <= ApprovedPeople(c)
  {
    var after := Decide(c, k, p, Reject).value;
    RejectionIsRecorded(c, k, p);
    forall q | q in ApprovedPeople(after) ensures q in ApprovedPeople(c) {
      var i :| 0 <= i < |after.gates| && q in VotersIn(after.gates[i].votes, VoteState.Approved);
      assert (i, q) != (k, p);
      if i == k { assert q in c.gates[k].votes; } else { RetireFacts(c.gates[i], GateState.Cancelled); }
      assert q in VotersIn(c.gates[i].votes, VoteState.Approved);
    }
  }

  lemma RetiringKeepsApprovals(c: Chain)
    ensures ApprovedPeople(Cancel(c)) == ApprovedPeople(c) && ApprovedPeople(Supersede(c)) == ApprovedPeople(c)
  {
    forall i, outcome | 0 <= i < |c.gates|
      ensures VotersIn(Retire(c.gates[i], outcome).votes, VoteState.Approved)
        == VotersIn(c.gates[i].votes, VoteState.Approved)
    {
      RetireFacts(c.gates[i], outcome);
    }
  }

  /** Step `i` of the run is an Approve of `p` that is accepted when its turn comes. */
  predicate ApprovesAt(c: Chain, ops: seq<Op>, i: nat, p: Person)
    requires i < |ops|
  {
    && ops[i].Vote? && ops[i].person == p && ops[i].decision == Approve
    && Decide(Run(c, ops[..i]), ops[i].gate, p, Approve).Ok?
  }

  lemma ApplyAddsApproval(c: Chain, op: Op, p: Person)
    requires Inv(c)
    ensures p in ApprovedPeople(Apply(c, op)) <==>
      p in ApprovedPeople(c)
      || (op.Vote? && op.person == p && op.decision == Approve && Decide(c, op.gate, p, Approve).Ok?)
  {
    RetiringKeepsApprovals(c);
    if op.Vote? && Decide(c, op.gate, op.person, op.decision).Ok? {
      DecisionAddsTheVoter(c, op.gate, op.person, op.decision);
    }
  }

  lemma RunSnoc(c: Chain, ops: seq<Op>, n: nat)
    requires n < |ops|
    ensures Run(c, ops[..n + 1]) == Apply(Run(c, ops[..n]), ops[n])
  {
    assert ops[..n + 1] == ops[..n] + [ops[n]];
    RunAppend(c, ops[..n], [ops[n]]);
    assert [ops[n]][1..] == [];
  }

  lemma {:induction false} ApprovedUpTo(c: Chain, ops: seq<Op>, n: nat, p: Person)
    requires Inv(c) && n <= |ops|
    ensures (p in ApprovedPeople(Run(c, ops[..n]))) ==
      (p in ApprovedPeople(c) || exists i :: 0 <= i < n && ApprovesAt(c, ops, i, p))
    decreases n
  {
    if n == 0 {
      assert ops[..0] == [];
    } else {
      ApprovedUpTo(c, ops, n - 1, p);
      ApprovedStep(c, ops, n - 1, p);
    }
  }

  lemma ApprovedStep(c: Chain, ops: seq<Op>, n: nat, p: Person)
    requires Inv(c) && n < |ops|
    ensures (p in ApprovedPeople(Run(c, ops[..n + 1]))) ==
      (p in ApprovedPeople(Run(c, ops[..n])) || ApprovesAt(c, ops, n, p))
  {
    RunSnoc(c, ops, n);
    EveryRunKeepsInv(c, ops[..n]);
    ApplyAddsApproval(Run(c, ops[..n]), ops[n], p);
  }

  /** Over a whole run of a new chain a person's vote counts as Approved if and only if an Approve of that person
      was accepted. */
  lemma ApprovedMeansDecidedSo(stages: seq<Stage>, ops: seq<Op>, p: Person)
    requires Startable(stages)
    ensures var c := Create(stages).value;
      p in ApprovedPeople(Run(c, ops)) <==> exists i :: 0 <= i < |ops| && ApprovesAt(c, ops, i, p)
  {
    var c := Create(stages).value;
    CreateInv(stages);
    NobodyApprovedYet(stages);
    ApprovedUpTo(c, ops, |ops|, p);
    assert ops[..|ops|] == ops;
  }

  // ---------------------------------------------------------------- who can approve

  /** Only members of `yes` vote. */
  predicate OnlyBy(ops: seq<Op>, yes: set<Person>) {
    forall i :: 0 <= i < |ops| && ops[i].Vote? ==> ops[i].person in yes
  }

  ghost predicate CanApprove(c: Chain, yes: set<Person>) {
    exists ops :: OnlyBy(ops, yes) && Run(c, ops).state.Approved?
  }

  lemma ApprovedBefore(c: Chain, op: Op, i: nat, p: Person)
    requires i < |Apply(c, op).gates| && (op.Vote? ==> p != op.person)
    requires p in VotersIn(Apply(c, op).gates[i].votes, VoteState.Approved)
    ensures i < |c.gates| && p in VotersIn(c.gates[i].votes, VoteState.Approved)
  {
  }

  lemma ApplyAddsOnlyTheVoter(c: Chain, op: Op)
    ensures ApprovedPeople(Apply(c, op)) <= ApprovedPeople(c) + (if op.Vote? then {op.person} else {})
  {
    var d := Apply(c, op);
    forall p | p in ApprovedPeople(d) && (op.Vote? ==> p != op.person) ensures p in ApprovedPeople(c) {
      var i :| 0 <= i < |d.gates| && p in VotersIn(d.gates[i].votes, VoteState.Approved);
      ApprovedBefore(c, op, i, p);
    }
  }

  lemma {:induction false} ApprovalsComeFromVoters(c: Chain, ops: seq<Op>, yes: set<Person>)
    requires OnlyBy(ops, yes) && ApprovedPeople(c) <= yes
    ensures ApprovedPeople(Run(c, ops)) <= yes
    decreases ops
  {
    if ops != [] {
      ApplyAddsOnlyTheVoter(c, ops[0]);
      ApprovalsComeFromVoters(Apply(c, ops[0]), ops[1..], yes);
    }
  }

  /** While the people in `yes` satisfy every stage, one of them still has a vote to cast. */
  lemma SomebodyCanStillVote(c: Chain, stages: seq<Stage>, yes: set<Person>) returns (p: Person)
    requires Inv(c) && c.state.Running? && Matches(c, stages) && AllSatisfied(stages, yes)
    ensures p in yes && Decide(c, c.currentStage - 1, p, Approve).Ok?
  {
    var k := c.currentStage - 1;
    var g := c.gates[k];
    var done := VotersIn(g.votes, VoteState.Approved);
    if g.votes.Keys * yes <= done {
      SatisfiedRestrict(g.mode, g.votes.Keys, yes);
      SatisfiedMonotone(g.mode, g.votes.Keys, g.votes.Keys * yes, done);
    }
    p :| p in g.votes.Keys * yes && p !in done;
  }

  /** A chain for these stages that has not been refused. */
  predicate OnTrack(c: Chain, stages: seq<Stage>) {
    Inv(c) && Matches(c, stages) && (c.state.Running? || c.state.Approved?)
  }

  lemma ApprovalStaysOnTrack(c: Chain, stages: seq<Stage>, k: nat, p: Person)
    requires OnTrack(c, stages) && Decide(c, k, p, Approve).Ok?
    ensures OnTrack(Decide(c, k, p, Approve).value, stages)
  {
    DecideInv(c, k, p, Approve);
    OnTrackStays(c, Decide(c, k, p, Approve).value, stages);
  }

  lemma OnTrackStays(c: Chain, d: Chain, stages: seq<Stage>)
    requires OnTrack(c, stages) && Inv(d) && SameShape(c, d) && (d.state.Running? || d.state.Approved?)
    ensures OnTrack(d, stages)
  {
  }

  /** One of them votes, and the chain is nearer to its end. */
  lemma CoalitionVotes(c: Chain, stages: seq<Stage>, yes: set<Person>) returns (op: Op, d: Chain)
    requires OnTrack(c, stages) && c.state.Running? && AllSatisfied(stages, yes)
    ensures op.Vote? && op.person in yes && d == Apply(c, op)
    ensures OnTrack(d, stages) && OpenCount(d.gates) < OpenCount(c.gates)
  {
    var k := c.currentStage - 1;
    var p := SomebodyCanStillVote(c, stages, yes);
    op := Vote(k, p, Approve);
    d := Decide(c, k, p, Approve).value;
    ApprovalStaysOnTrack(c, stages, k, p);
    DecisionClosesAVote(c, k, p, Approve);
  }

  lemma RunFromFirst(c: Chain, op: Op, d: Chain, more: seq<Op>)
    requires d == Apply(c, op)
    ensures Run(c, [op] + more) == Run(d, more)
  {
    assert ([op] + more)[1..] == more;
  }

  /** People who satisfy every stage bring the chain to Approved without anybody else. */
  lemma {:induction false} CoalitionApproves(c: Chain, stages: seq<Stage>, yes: set<Person>) returns (ops: seq<Op>)
    requires OnTrack(c, stages) && AllSatisfied(stages, yes)
    ensures OnlyBy(ops, yes) && Run(c, ops).state.Approved?
    decreases OpenCount(c.gates)
  {
    ops := [];
    if c.state.Running? {
      var op, d := CoalitionVotes(c, stages, yes);
      var more := CoalitionApproves(d, stages, yes);
      RunFromFirst(c, op, d, more);
      OnlyByCons(op, more, yes);
      ops := [op] + more;
    }
  }

  lemma OnlyByCons(op: Op, more: seq<Op>, yes: set<Person>)
    requires op.Vote? && op.person in yes && OnlyBy(more, yes)
    ensures OnlyBy([op] + more, yes)
  {
  }

  /** The people in `yes` can bring a new chain to Approved on their own exactly when they satisfy every
      one of its stages. */
  lemma ApprovingCoalitions(stages: seq<Stage>, yes: set<Person>)
    requires Startable(stages)
    ensures CanApprove(Create(stages).value, yes) <==> AllSatisfied(stages, yes)
  {
    var start := Create(stages).value;
    CreateInv(stages);
    if AllSatisfied(stages, yes) {
      var ops := CoalitionApproves(start, stages, yes);
    }
    if CanApprove(start, yes) {
      var ops :| OnlyBy(ops, yes) && Run(start, ops).state.Approved?;
      EveryRunKeepsInv(start, ops);
      NobodyApprovedYet(stages);
      ApprovalsComeFromVoters(start, ops, yes);
      ApprovedChainSatisfies(Run(start, ops), stages);
      forall i | 0 <= i < |stages| ensures Satisfied(stages[i].mode, stages[i].approvers, yes) {
        SatisfiedMonotone(stages[i].mode, stages[i].approvers, ApprovedPeople(Run(start, ops)), yes);
      }
    }
  }

  lemma NobodyApprovedYet(stages: seq<Stage>)
    requires Startable(stages)
    ensures ApprovedPeople(Create(stages).value) == {}
  {
  }

  /** A compiled policy always starts: `create_approval_chain` refuses it only over a zero person id. */
  lemma CompiledPolicyStarts(rs: seq<Resolved>)
    requires rs != [] && ResolvedWellFormed(rs) && 0 !in PeopleResolved(rs)
    ensures Startable(Merge(Compile(rs)))
  {
    var stages := Merge(Compile(rs));
    CompileAsksOnce(rs);
    MergeAsksOnce(Compile(rs));
    CompileEmpty(rs);
    CompiledAsksOnlyResolved(rs);
    MergedAsksTheSame(Compile(rs));
    assert stages != [];
    forall i | 0 <= i < |stages| ensures HasApprover(stages[i]) {
      assert stages[i].approvers != {};
      var p :| p in stages[i].approvers;
      assert p in PeopleAsked(stages);
      assert p != 0;
    }
  }

  /** Compiler and interpreter together: the groups that can get a record approved are exactly the groups
      that satisfy the resolved policy. */
  lemma PolicyDecidesWhoCanApprove(rs: seq<Resolved>, yes: set<Person>)
    requires rs != [] && ResolvedWellFormed(rs) && 0 !in PeopleResolved(rs) && FaithfulSkips(rs) && ExactFolds(rs)
    ensures Create(Merge(Compile(rs))).Ok?
    ensures CanApprove(Create(Merge(Compile(rs))).value, yes) <==> AllResolvedSatisfied(rs, yes)
  {
    CompiledPolicyStarts(rs);
    ApprovingCoalitions(Merge(Compile(rs)), yes);
    CompilePreservesMeaning(rs, yes);
  }
}
