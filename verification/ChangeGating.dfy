/** A change ticket and its approval chains: submission, resubmission, votes, state
    transitions and deletion (app.py: allowed_ticket_states, transition_ticket,
    supersede_change_approval; serviceops_core/web/tickets.py: change_delete). */
module ChangeGating {
  import opened Outcomes
  import opened ApprovalPolicies
  import opened ApprovalChains
  import opened ApprovalGuarantees

  datatype TicketState =
    | TicketNew
    | TicketInProgress
    | TicketPending
    | TicketResolved
    | TicketClosed
    | TicketCancelled
    | TicketApproved
    | TicketAwaitingApproval
    | TicketRejected

  /** The lifecycle table, whose contents the guarantees do not depend on. */
  type Transitions = map<TicketState, set<TicketState>>

  /** A chain and the policy stages it was compiled from. */
  datatype Submission = Submission(chain: Chain, resolved: seq<Resolved>)

  /** `submissions` in order of creation: the last one is what `approval_chain_for` finds. */
  datatype Change = Change(ticket: TicketState, submissions: seq<Submission>)

  function Latest(c: Change): Submission
    requires c.submissions != []
  {
    c.submissions[|c.submissions| - 1]
  }

  function WithLatest(c: Change, chain: Chain): Change
    requires c.submissions != []
  {
    var n := |c.submissions| - 1;
    c.(submissions := c.submissions[n := c.submissions[n].(chain := chain)])
  }

  function Listed(table: Transitions, s: TicketState): set<TicketState> {
    if s in table then table[s] else {s}
  }

  function AllowedStates(c: Change, table: Transitions): set<TicketState> {
    if c.submissions == [] then
      if c.ticket in {TicketClosed, TicketCancelled, TicketRejected} then Listed(table, c.ticket)
      else {c.ticket, TicketCancelled}
    else
      match Latest(c).chain.state
      case Running => {c.ticket, TicketCancelled}
      case Rejected => {TicketRejected}
      case Cancelled => {TicketCancelled}
      case _ => Listed(table, c.ticket)
  }

  datatype Event =
    | Submit(policy: Option<seq<PolicyStage>>, context: Context)
    | Ballot(submission: nat, gate: nat, person: Person, decision: Decision)
    | Transition(to: TicketState, openRequiredTask: bool, reviewed: bool)
    | Delete

  /** First submission or resubmission after a material change: a Running or Approved chain is superseded,
      a new one starts. When no route exists the request fails and nothing is kept. */
  function SubmitStep(c: Change, policy: Option<seq<PolicyStage>>, ctx: Context): Result<Change> {
    match BuildResult(policy, ctx, {})
    case Err(e) => Err(e)
    case Ok(stages) =>
      match Create(stages)
      case Err(e) => Err(e)
      case Ok(chain) =>
        var kept := if c.submissions == [] then c else WithLatest(c, Supersede(Latest(c).chain));
        var added := Submission(chain, ResolvePolicy(policy.value, ctx, {}).value);
        Ok(Change(TicketAwaitingApproval, kept.submissions + [added]))
  }

  function TargetState(after: Chain, before: TicketState): TicketState {
    match after.state
    case Approved => TicketApproved
    case Rejected => TicketRejected
    case _ => before
  }

  function BallotStep(c: Change, i: nat, gate: nat, p: Person, d: Decision): Result<Change> {
    if i >= |c.submissions| then Err(NoSuchRecord)
    else
      match Decide(c.submissions[i].chain, gate, p, d)
      case Err(e) => Err(e)
      case Ok(after) =>
        Ok(Change(TargetState(after, c.ticket), c.submissions[i := c.submissions[i].(chain := after)]))
  }

  function TransitionStep(
    c: Change, table: Transitions, to: TicketState, openRequiredTask: bool, reviewed: bool): Result<Change>
  {
    if to !in AllowedStates(c, table) then Err(Conflict)
    else if to in {TicketResolved, TicketClosed} && openRequiredTask then Err(Conflict)
    else if to == TicketClosed && !reviewed then Err(Conflict)
    else
      var stopped := if to == TicketCancelled && c.submissions != [] then WithLatest(c, Cancel(Latest(c).chain)) else c;
      Ok(stopped.(ticket := to))
  }

  function DeleteStep(c: Change): Result<Change> {
    if c.ticket !in {TicketNew, TicketAwaitingApproval} then Err(Conflict)
    else
      var stopped := if c.submissions != [] then WithLatest(c, Cancel(Latest(c).chain)) else c;
      Ok(stopped.(ticket := TicketCancelled))
  }

  function Step(c: Change, table: Transitions, e: Event): Result<Change> {
    match e
    case Submit(policy, ctx) => SubmitStep(c, policy, ctx)
    case Ballot(i, gate, p, d) => BallotStep(c, i, gate, p, d)
    case Transition(to, openRequiredTask, reviewed) => TransitionStep(c, table, to, openRequiredTask, reviewed)
    case Delete => DeleteStep(c)
  }

  /** A refused event changes nothing. */
  function After(c: Change, table: Transitions, e: Event): Change {
    var next := Step(c, table, e);
    if next.Ok? then next.value else c
  }

  function RunEvents(c: Change, table: Transitions, events: seq<Event>): Change
    decreases events
  {
    if events == [] then c else RunEvents(After(c, table, events[0]), table, events[1..])
  }

  /** The ticket row and its chains, updated in place as the source does. */
  class ChangeRecord {
    var ticket: TicketState
    var submissions: seq<Submission>

    function View(): Change
      reads this
    {
      Change(ticket, submissions)
    }

    constructor ()
      ensures View() == Change(TicketNew, [])
    {
      ticket, submissions := TicketNew, [];
    }

    method Transition(table: Transitions, to: TicketState, openRequiredTask: bool, reviewed: bool)
      returns (r: Result<()>)
      modifies this
      ensures r.Ok? ==> TransitionStep(old(View()), table, to, openRequiredTask, reviewed) == Ok(View())
      ensures r.Err? ==> TransitionStep(old(View()), table, to, openRequiredTask, reviewed) == Err(r.error)
      ensures r.Err? ==> View() == old(View())
      ensures KeepsGate(old(View()), View())
    {
      ghost var before := View();
      EventKeepsGate(before, table, Event.Transition(to, openRequiredTask, reviewed));
      if to !in AllowedStates(View(), table) {
        return Err(Conflict);
      }
      if to in {TicketResolved, TicketClosed} && openRequiredTask {
        return Err(Conflict);
      }
      if to == TicketClosed && !reviewed {
        return Err(Conflict);
      }
      if to == TicketCancelled && submissions != [] {
        var n := |submissions| - 1;
        submissions := submissions[n := submissions[n].(chain := Cancel(submissions[n].chain))];
      }
      ticket := to;
      assert View() == TransitionStep(before, table, to, openRequiredTask, reviewed).value;
      return Ok(());
    }

    method Resubmit(policy: Option<seq<PolicyStage>>, ctx: Context) returns (r: Result<()>)
      modifies this
      ensures r.Ok? ==> SubmitStep(old(View()), policy, ctx) == Ok(View())
      ensures r.Err? ==> SubmitStep(old(View()), policy, ctx) == Err(r.error) && View() == old(View())
      ensures KeepsGate(old(View()), View())
    {
      ghost var before := View();
      EventKeepsGate(before, map[], Event.Submit(policy, ctx));
      var stages := BuildStages(policy, ctx, {});
      if stages.Err? {
        return Err(stages.error);
      }
      var chain := Create(stages.value);
      if chain.Err? {
        return Err(chain.error);
      }
      if submissions != [] {
        var n := |submissions| - 1;
        submissions := submissions[n := submissions[n].(chain := Supersede(submissions[n].chain))];
      }
      submissions := submissions + [Submission(chain.value, ResolvePolicy(policy.value, ctx, {}).value)];
      ticket := TicketAwaitingApproval;
      assert View() == SubmitStep(before, policy, ctx).value;
      return Ok(());
    }
  }

  // ---------------------------------------------------------------- the gate

  predicate SubmissionOk(s: Submission) {
    Inv(s.chain) && ResolvedWellFormed(s.resolved) && Matches(s.chain, Merge(Compile(s.resolved)))
  }

  /** No chain but the latest is Running, and the latest chain's state fixes the ticket's state unless it
      is Approved. */
  predicate Gated(c: Change) {
    && (forall i :: 0 <= i < |c.submissions| ==> SubmissionOk(c.submissions[i]))
    && (forall i :: 0 <= i < |c.submissions| - 1 ==> !c.submissions[i].chain.state.Running?)
    && (c.submissions != [] ==>
          match Latest(c).chain.state
          case Running => c.ticket == TicketAwaitingApproval
          case Rejected => c.ticket == TicketRejected
          case Cancelled => c.ticket == TicketCancelled
          case Approved => true
          case Superseded => false)
  }

  lemma SameShapeMatches(c: Chain, d: Chain, stages: seq<Stage>)
    requires Matches(c, stages) && SameShape(c, d)
    ensures Matches(d, stages)
  {
  }

  lemma SubmitKeepsGate(c: Change, policy: Option<seq<PolicyStage>>, ctx: Context)
    requires Gated(c) && SubmitStep(c, policy, ctx).Ok?
    ensures Gated(SubmitStep(c, policy, ctx).value)
  {
    var stages := BuildResult(policy, ctx, {}).value;
    var rs := ResolvePolicy(policy.value, ctx, {}).value;
    ResolvedNonEmpty(PolicyRows(policy.value, ctx, {}), ctx, {});
    CreateInv(stages);
    var kept := if c.submissions == [] then c else WithLatest(c, Supersede(Latest(c).chain));
    if c.submissions != [] { SupersedingStops(c); }
    AddSubmission(kept.submissions, Submission(Create(stages).value, rs));
  }

  predicate AllStopped(submissions: seq<Submission>) {
    forall i :: 0 <= i < |submissions| ==> SubmissionOk(submissions[i]) && !submissions[i].chain.state.Running?
  }

  lemma SupersedingStops(c: Change)
    requires Gated(c) && c.submissions != []
    ensures AllStopped(WithLatest(c, Supersede(Latest(c).chain)).submissions)
  {
    RetireInv(Latest(c).chain);
    SameShapeMatches(Latest(c).chain, Supersede(Latest(c).chain), Merge(Compile(Latest(c).resolved)));
  }

  lemma AddSubmission(stopped: seq<Submission>, s: Submission)
    requires AllStopped(stopped) && SubmissionOk(s) && s.chain.state.Running?
    ensures Gated(Change(TicketAwaitingApproval, stopped + [s]))
  {
  }

  lemma BallotKeepsGate(c: Change, i: nat, gate: nat, p: Person, d: Decision)
    requires Gated(c) && BallotStep(c, i, gate, p, d).Ok?
    ensures i == |c.submissions| - 1
    ensures var after := BallotStep(c, i, gate, p, d).value;
      && Gated(after)
      && (after.ticket == TicketApproved <==> Latest(after).chain.state.Approved?)
      && (after.ticket == TicketRejected <==> d.Reject?)
  {
    var s := c.submissions[i];
    var after := Decide(s.chain, gate, p, d).value;
    DecideInv(s.chain, gate, p, d);
    SameShapeMatches(s.chain, after, Merge(Compile(s.resolved)));
    assert i == |c.submissions| - 1;
    ReplaceLatest(c, after, TargetState(after, c.ticket));
  }

  /** Another chain in the place of the latest one, with a ticket state that fits. */
  lemma ReplaceLatest(c: Change, chain: Chain, ticket: TicketState)
    requires Gated(c) && c.submissions != [] && SubmissionOk(Latest(c).(chain := chain))
    requires match chain.state
      case Running => ticket == TicketAwaitingApproval
      case Rejected => ticket == TicketRejected
      case Cancelled => ticket == TicketCancelled
      case Approved => true
      case Superseded => false
    ensures Gated(WithLatest(c, chain).(ticket := ticket))
  {
  }

  lemma CancelKeepsGate(c: Change)
    requires Gated(c) && c.submissions != []
    requires !Latest(c).chain.state.Rejected?
    ensures Gated(WithLatest(c, Cancel(Latest(c).chain)).(ticket := TicketCancelled))
  {
    RetireInv(Latest(c).chain);
    SameShapeMatches(Latest(c).chain, Cancel(Latest(c).chain), Merge(Compile(Latest(c).resolved)));
    ReplaceLatest(c, Cancel(Latest(c).chain), TicketCancelled);
  }

  lemma TransitionKeepsGate(c: Change, table: Transitions, to: TicketState, openRequiredTask: bool, reviewed: bool)
    requires Gated(c) && TransitionStep(c, table, to, openRequiredTask, reviewed).Ok?
    ensures Gated(TransitionStep(c, table, to, openRequiredTask, reviewed).value)
  {
    if to == TicketCancelled && c.submissions != [] { CancelKeepsGate(c); }
  }

  lemma StepKeepsGate(c: Change, table: Transitions, e: Event)
    requires Gated(c)
    ensures Step(c, table, e).Ok? ==> Gated(Step(c, table, e).value)
  {
    if Step(c, table, e).Ok? {
      match e
      case Submit(policy, ctx) => SubmitKeepsGate(c, policy, ctx);
      case Ballot(i, gate, p, d) => BallotKeepsGate(c, i, gate, p, d);
      case Transition(to, openRequiredTask, reviewed) => TransitionKeepsGate(c, table, to, openRequiredTask, reviewed);
      case Delete => if c.submissions != [] { CancelKeepsGate(c); }
    }
  }

  predicate KeepsGate(before: Change, after: Change) { Gated(before) ==> Gated(after) }

  lemma EventKeepsGate(c: Change, table: Transitions, e: Event)
    ensures KeepsGate(c, After(c, table, e))
  {
    if Gated(c) { StepKeepsGate(c, table, e); }
  }

  lemma AfterKeepsGate(c: Change, table: Transitions, e: Event)
    requires Gated(c)
    ensures Gated(After(c, table, e)) && |After(c, table, e).submissions| >= |c.submissions|
  {
    StepKeepsGate(c, table, e);
  }

  lemma {:induction false} EveryRunKeepsGate(c: Change, table: Transitions, events: seq<Event>)
    requires Gated(c)
    ensures Gated(RunEvents(c, table, events))
    ensures |RunEvents(c, table, events).submissions| >= |c.submissions|
    decreases events
  {
    if events != [] {
      AfterKeepsGate(c, table, events[0]);
      EveryRunKeepsGate(After(c, table, events[0]), table, events[1..]);
    }
  }

  /** Change gating. Start with the first accepted submission and then let any sequence of resubmissions,
      votes, transitions and deletions happen, under any lifecycle table. No chain but the latest is
      Running; and once the ticket is in a state other than Awaiting Approval, Rejected or Cancelled, the
      latest chain is Approved and every stage its policy resolved to is satisfied by people who approved
      that very chain. */
  lemma NoImplementationWithoutApproval(
    ticket: TicketState, policy: Option<seq<PolicyStage>>, ctx: Context, table: Transitions, events: seq<Event>)
    requires SubmitStep(Change(ticket, []), policy, ctx).Ok?
    ensures var after := RunEvents(SubmitStep(Change(ticket, []), policy, ctx).value, table, events);
      && after.submissions != []
      && (forall i :: 0 <= i < |after.submissions| - 1 ==> !after.submissions[i].chain.state.Running?)
      && (after.ticket !in {TicketAwaitingApproval, TicketRejected, TicketCancelled} ==>
            var latest := Latest(after);
            && latest.chain.state.Approved?
            && AllSatisfied(Merge(Compile(latest.resolved)), ApprovedPeople(latest.chain))
            && (FaithfulSkips(latest.resolved) ==> AllResolvedSatisfied(latest.resolved, ApprovedPeople(latest.chain))))
  {
    var start := SubmitStep(Change(ticket, []), policy, ctx).value;
    SubmitKeepsGate(Change(ticket, []), policy, ctx);
    EveryRunKeepsGate(start, table, events);
    var after := RunEvents(start, table, events);
    if after.ticket !in {TicketAwaitingApproval, TicketRejected, TicketCancelled} {
      var latest := Latest(after);
      ApprovedChainSatisfies(latest.chain, Merge(Compile(latest.resolved)));
      MergeMeaning(Compile(latest.resolved), ApprovedPeople(latest.chain));
      if FaithfulSkips(latest.resolved) {
        CompiledImpliesResolved(latest.resolved, ApprovedPeople(latest.chain));
      }
    }
  }

  /** Where a change may go, exactly. Without a chain, or under a Running one, it stays or is cancelled, except that
      a finished change without a chain follows the table; a rejected or cancelled chain holds it; under an
      Approved chain it follows the table, which leaves a state it does not list where it is. */
  predicate MayGo(c: Change, table: Transitions, to: TicketState) {
    var listed := (c.ticket in table && to in table[c.ticket]) || (c.ticket !in table && to == c.ticket);
    if |c.submissions| == 0 then
      if c.ticket == TicketClosed || c.ticket == TicketCancelled || c.ticket == TicketRejected then listed
      else to == c.ticket || to == TicketCancelled
    else
      match c.submissions[|c.submissions| - 1].chain.state
      case Running => to == c.ticket || to == TicketCancelled
      case Rejected => to == TicketRejected
      case Cancelled => to == TicketCancelled
      case Approved => listed
      case Superseded => listed
  }

  /** A transition is accepted if and only if the change may go there, no required task is open when it is to be
      resolved or closed, and there is a review when it is to be closed. Cancelling cancels a Running chain;
      otherwise only the ticket's state changes. */
  lemma TransitionAcceptedExactly(
    c: Change, table: Transitions, to: TicketState, openRequiredTask: bool, reviewed: bool)
    ensures var r := TransitionStep(c, table, to, openRequiredTask, reviewed);
      && (r.Ok? <==>
            && MayGo(c, table, to)
            && !((to == TicketResolved || to == TicketClosed) && openRequiredTask)
            && !(to == TicketClosed && !reviewed))
      && (r.Err? ==> r.error == Conflict)
      && (r.Ok? ==> r.value.ticket == to && |r.value.submissions| == |c.submissions|)
      && (r.Ok? ==> forall i :: 0 <= i < |c.submissions| ==>
            r.value.submissions[i] == if to == TicketCancelled && i == |c.submissions| - 1
              then c.submissions[i].(chain := Cancel(c.submissions[i].chain)) else c.submissions[i])
  {
  }

  /** A change may be deleted while it is New or awaits approval; it is then cancelled with its Running chain. */
  lemma DeleteAcceptedExactly(c: Change)
    ensures DeleteStep(c).Ok? <==> c.ticket == TicketNew || c.ticket == TicketAwaitingApproval
    ensures DeleteStep(c).Err? ==> DeleteStep(c).error == Conflict
    ensures DeleteStep(c).Ok? ==>
      var n := DeleteStep(c).value;
      && n.ticket == TicketCancelled && |n.submissions| == |c.submissions|
      && (forall i :: 0 <= i < |c.submissions| - 1 ==> n.submissions[i] == c.submissions[i])
      && (c.submissions != [] ==>
            Latest(n).resolved == Latest(c).resolved && Latest(n).chain == Cancel(Latest(c).chain))
  {
  }

  /** A vote is refused as the chain it belongs to refuses it. Accepted, it changes that chain only, and the ticket
      becomes Approved or Rejected with it. */
  lemma BallotExactly(c: Change, i: nat, gate: nat, p: Person, d: Decision)
    ensures i >= |c.submissions| ==> BallotStep(c, i, gate, p, d) == Err(NoSuchRecord)
    ensures i < |c.submissions| ==>
      var vote, r := Decide(c.submissions[i].chain, gate, p, d), BallotStep(c, i, gate, p, d);
      && (vote.Err? ==> r == Err(vote.error))
      && (vote.Ok? ==>
            && r.Ok? && |r.value.submissions| == |c.submissions|
            && r.value.submissions[i] == c.submissions[i].(chain := vote.value)
            && (forall j :: 0 <= j < |c.submissions| && j != i ==> r.value.submissions[j] == c.submissions[j])
            && r.value.ticket == (if vote.value.state == ChainState.Approved then TicketApproved
                                  else if vote.value.state == ChainState.Rejected then TicketRejected
                                  else c.ticket))
  {
  }

  /** A submission is refused as its policy is, and otherwise adds one chain for it on top of the earlier ones, of
      which the latest is superseded. */
  lemma SubmitExactly(c: Change, policy: Option<seq<PolicyStage>>, ctx: Context)
    ensures var built := BuildResult(policy, ctx, {});
      && (built.Err? ==> SubmitStep(c, policy, ctx) == Err(built.error))
      && (built.Ok? && Create(built.value).Err? ==> SubmitStep(c, policy, ctx) == Err(BadRequest))
      && (built.Ok? && Create(built.value).Ok? ==>
            var r := SubmitStep(c, policy, ctx);
            && r.Ok? && r.value.ticket == TicketAwaitingApproval && |r.value.submissions| == |c.submissions| + 1
            && Latest(r.value).chain == Create(built.value).value
            && (forall i :: 0 <= i < |c.submissions| - 1 ==> r.value.submissions[i] == c.submissions[i])
            && (c.submissions != [] ==>
                  r.value.submissions[|c.submissions| - 1] == Latest(c).(chain := Supersede(Latest(c).chain))))
  {
  }

  /** A change that never had a chain cannot start being worked on: it keeps its state or is cancelled,
      as long as the table keeps finished tickets finished. */
  lemma {:induction false} ChainlessChangeStaysPut(c: Change, table: Transitions, events: seq<Event>)
    requires c.submissions == []
    requires forall i :: 0 <= i < |events| ==> !events[i].Submit?
    requires forall s :: s in {TicketClosed, TicketCancelled, TicketRejected} ==>
      Listed(table, s) <= {s, TicketCancelled}
    ensures RunEvents(c, table, events).submissions == []
    ensures RunEvents(c, table, events).ticket in {c.ticket, TicketCancelled}
    decreases events
  {
    if events != [] {
      ChainlessChangeStaysPut(After(c, table, events[0]), table, events[1..]);
    }
  }
}
