/** Running compiled stages as an approval chain: gates open one after the other and
    people vote (app.py: create_approval_chain, activate_gate, decide_vote,
    cancel_approval_chain and the superseding half of supersede_change_approval). */
module ApprovalChains {
  import opened Outcomes
  import opened ApprovalPolicies

  datatype ChainState = Running | Approved | Rejected | Cancelled | Superseded

  datatype GateState = Pending | Requested | Approved | Rejected | Cancelled | Superseded

  datatype VoteState = NotRequested | Requested | Approved | Rejected | NoLongerRequired

  datatype Decision = Approve | Reject | OtherDecision

  /** One vote per approver. The gate at index i has sequence i + 1. */
  datatype Gate = Gate(mode: Mode, state: GateState, votes: map<Person, VoteState>)

  datatype Chain = Chain(state: ChainState, currentStage: nat, gates: seq<Gate>)

  // ---------------------------------------------------------------- steps on values

  predicate IsOpen(v: VoteState) { v.NotRequested? || v.Requested? }

  function CloseVotes(votes: map<Person, VoteState>): map<Person, VoteState> {
    map p | p in votes :: if IsOpen(votes[p]) then NoLongerRequired else votes[p]
  }

  function Activate(g: Gate): Gate {
    g.(state := GateState.Requested, votes := map p | p in g.votes :: VoteState.Requested)
  }

  function Retire(g: Gate, outcome: GateState): Gate {
    g.(state := if g.state.Pending? || g.state.Requested? then outcome else g.state, votes := CloseVotes(g.votes))
  }

  function Closed(g: Gate, outcome: GateState, keepState: bool): Gate {
    if keepState then g.(votes := CloseVotes(g.votes)) else Retire(g, outcome)
  }

  function RetireAll(gates: seq<Gate>, outcome: GateState): (r: seq<Gate>)
    ensures |r| == |gates| && forall i :: 0 <= i < |r| ==> r[i] == Retire(gates[i], outcome)
  {
    seq(|gates|, i requires 0 <= i < |gates| => Retire(gates[i], outcome))
  }

  function Cancel(c: Chain): Chain {
    if !c.state.Running? then c
    else c.(state := ChainState.Cancelled, gates := RetireAll(c.gates, GateState.Cancelled))
  }

  function Supersede(c: Chain): Chain {
    if !(c.state.Running? || c.state.Approved?) then c
    else c.(state := ChainState.Superseded, gates := RetireAll(c.gates, GateState.Superseded))
  }

  function VotersIn(votes: map<Person, VoteState>, state: VoteState): set<Person> {
    set p | p in votes && votes[p] == state
  }

  /** The completion test of `decide_vote`, on the votes as they stand after an approval. */
  predicate GateComplete(g: Gate) {
    match g.mode
    case Any => VotersIn(g.votes, VoteState.Approved) != {}
    case All => VotersIn(g.votes, VoteState.Requested) == {}
    case Majority => |VotersIn(g.votes, VoteState.Approved)| >= |g.votes| / 2 + 1
  }

  function Finish(g: Gate): Gate {
    g.(state := GateState.Approved,
       votes := map p | p in g.votes :: if g.votes[p].Requested? then NoLongerRequired else g.votes[p])
  }

  function ApproveVote(c: Chain, k: nat, p: Person): Chain
    requires k < |c.gates|
  {
    var g := c.gates[k].(votes := c.gates[k].votes[p := VoteState.Approved]);
    if !GateComplete(g) then c.(gates := c.gates[k := g])
    else
      var gates := c.gates[k := Finish(g)];
      if k + 1 < |gates|
      then Chain(c.state, k + 2, gates[k + 1 := Activate(gates[k + 1])])
      else Chain(ChainState.Approved, c.currentStage, gates)
  }

  function RejectVote(c: Chain, k: nat, p: Person): Chain
    requires k < |c.gates|
  {
    var g := c.gates[k];
    var rejected := Gate(g.mode, GateState.Rejected, CloseVotes(g.votes[p := VoteState.Rejected]));
    Chain(ChainState.Rejected, c.currentStage, RetireAll(c.gates, GateState.Cancelled)[k := rejected])
  }

  function Decide(c: Chain, k: nat, p: Person, d: Decision): Result<Chain> {
    if k >= |c.gates| || p !in c.gates[k].votes then Err(NoSuchRecord)
    else if d.OtherDecision? then Err(BadRequest)
    else if !c.gates[k].votes[p].Requested? || !c.gates[k].state.Requested? || !c.state.Running? then Err(Conflict)
    else if d.Reject? then Ok(RejectVote(c, k, p))
    else Ok(ApproveVote(c, k, p))
  }

  /** A zero id does not count as an approver. */
  predicate HasApprover(s: Stage) {
    exists p :: p in s.approvers && p != 0
  }

  predicate Startable(stages: seq<Stage>) {
    stages != [] && forall i :: 0 <= i < |stages| ==> HasApprover(stages[i])
  }

  function NewGate(s: Stage): Gate {
    Gate(s.mode, Pending, map p | p in s.approvers :: NotRequested)
  }

  function Create(stages: seq<Stage>): Result<Chain> {
    if !Startable(stages) then Err(BadRequest)
    else
      var gates := seq(|stages|, i requires 0 <= i < |stages| => NewGate(stages[i]));
      Ok(Chain(Running, 1, gates[0 := Activate(gates[0])]))
  }

  // ---------------------------------------------------------------- the chain as the source updates it

  class ApprovalChain {
    var state: ChainState
    var currentStage: nat
    var gates: seq<Gate>

    function View(): Chain
      reads this
    {
      Chain(state, currentStage, gates)
    }

    constructor (stages: seq<Stage>)
      requires Startable(stages)
      ensures Create(stages) == Ok(View())
      ensures Inv(View()) && Matches(View(), stages)
    {
      state, currentStage, gates := Running, 1, [];
      new;
      for i := 0 to |stages|
        invariant state == Running && currentStage == 1
        invariant |gates| == i && forall j :: 0 <= j < i ==> gates[j] == NewGate(stages[j])
      {
        gates := gates + [NewGate(stages[i])];
      }
      assert gates == seq(|stages|, i requires 0 <= i < |stages| => NewGate(stages[i]));
      ActivateGate(0);
      CreateInv(stages);
    }

    method ActivateGate(k: nat)
      requires k < |gates|
      modifies this`gates
      ensures gates == old(gates)[k := Activate(old(gates)[k])]
    {
      gates := gates[k := gates[k].(state := GateState.Requested)];
      gates := gates[k := gates[k].(votes := map p | p in gates[k].votes :: VoteState.Requested)];
    }

    /** Ends every gate except `except` that still waits, and every open vote. */
    method CloseGates(outcome: GateState, except: nat)
      modifies this`gates
      ensures |gates| == |old(gates)|
      ensures forall i :: 0 <= i < |gates| ==> gates[i] == Closed(old(gates)[i], outcome, i == except)
    {
      for i := 0 to |gates|
        invariant |gates| == |old(gates)|
        invariant forall j :: i <= j < |gates| ==> gates[j] == old(gates)[j]
        invariant forall j :: 0 <= j < i ==> gates[j] == Closed(old(gates)[j], outcome, j == except)
      {
        var g := gates[i];
        if i != except && (g.state.Pending? || g.state.Requested?) {
          g := g.(state := outcome);
        }
        gates := gates[i := g.(votes := CloseVotes(g.votes))];
      }
    }

    method RejectBallot(k: nat, p: Person)
      requires k < |gates|
      modifies this
      ensures View() == RejectVote(old(View()), k, p)
    {
      var g := gates[k];
      gates := gates[k := Gate(g.mode, GateState.Rejected, g.votes[p := VoteState.Rejected])];
      state := ChainState.Rejected;
      CloseGates(GateState.Cancelled, k);
      assert gates == RejectVote(old(View()), k, p).gates;
    }

    method ApproveBallot(k: nat, p: Person)
      requires k < |gates|
      modifies this
      ensures View() == ApproveVote(old(View()), k, p)
    {
      gates := gates[k := gates[k].(votes := gates[k].votes[p := VoteState.Approved])];
      if !GateComplete(gates[k]) {
        return;
      }
      gates := gates[k := Finish(gates[k])];
      if k + 1 < |gates| {
        currentStage := k + 2;
        ActivateGate(k + 1);
      } else {
        state := ChainState.Approved;
      }
      assert gates == ApproveVote(old(View()), k, p).gates;
    }

    /** `decide_vote`: refused without any change, or exactly the step of `Decide`. A valid chain stays
        valid with the same modes and voters, and an accepted decision leaves fewer open votes. */
    method DecideVote(k: nat, p: Person, d: Decision) returns (r: Result<()>)
      modifies this
      ensures r.Ok? <==> Decide(old(View()), k, p, d).Ok?
      ensures r.Err? ==> Decide(old(View()), k, p, d) == Err(r.error) && View() == old(View())
      ensures r.Ok? ==> Decide(old(View()), k, p, d) == Ok(View())
      ensures r.Ok? && old(Inv(View())) ==>
        Inv(View()) && SameShape(old(View()), View()) && OpenCount(gates) < old(OpenCount(gates))
    {
      if k >= |gates| || p !in gates[k].votes {
        return Err(NoSuchRecord);
      }
      if d.OtherDecision? {
        return Err(BadRequest);
      }
      if !gates[k].votes[p].Requested? || !gates[k].state.Requested? || !state.Running? {
        return Err(Conflict);
      }
      ghost var before := View();
      if Inv(before) {
        DecideInv(before, k, p, d);
        DecisionClosesAVote(before, k, p, d);
      }
      if d.Reject? {
        RejectBallot(k, p);
      } else {
        ApproveBallot(k, p);
      }
      return Ok(());
    }

    method CancelChain()
      modifies this
      ensures View() == Cancel(old(View()))
      ensures old(Inv(View())) ==> Inv(View()) && SameShape(old(View()), View())
    {
      ghost var before := View();
      if state.Running? {
        state := ChainState.Cancelled;
        CloseGates(GateState.Cancelled, |gates|);
        assert gates == RetireAll(before.gates, GateState.Cancelled);
      }
      if Inv(before) { RetireInv(before); }
    }

    method SupersedeChain()
      modifies this
      ensures View() == Supersede(old(View()))
      ensures old(Inv(View())) ==> Inv(View()) && SameShape(old(View()), View())
    {
      ghost var before := View();
      if state.Running? || state.Approved? {
        state := ChainState.Superseded;
        CloseGates(GateState.Superseded, |gates|);
        assert gates == RetireAll(before.gates, GateState.Superseded);
      }
      if Inv(before) { RetireInv(before); }
    }
  }

  // ---------------------------------------------------------------- what every step keeps

  /** The gate's mode is met by the people whose vote on it is Approved. */
  predicate ModeMet(g: Gate) {
    Satisfied(g.mode, g.votes.Keys, VotersIn(g.votes, VoteState.Approved))
  }

  predicate GateDone(g: Gate) {
    g.state.Approved? && ModeMet(g) && NoOpenVote(g)
  }

  predicate GateOpen(g: Gate) {
    && g.state.Requested?
    && !ModeMet(g)
    && (forall p :: p in g.votes ==> g.votes[p].Requested? || g.votes[p].Approved?)
  }

  predicate GateWaiting(g: Gate) {
    g.state.Pending? && forall p :: p in g.votes ==> g.votes[p].NotRequested?
  }

  predicate NoOpenVote(g: Gate) {
    forall p :: p in g.votes ==> !IsOpen(g.votes[p])
  }

  /** A Running chain has one current gate: earlier gates are Approved with their mode met, the current
      one alone is Requested, later ones wait untouched. Any other chain has no open vote. */
  predicate Inv(c: Chain) {
    && (forall i :: 0 <= i < |c.gates| ==> c.gates[i].votes.Keys != {})
    && (c.state.Running? ==>
          && 1 <= c.currentStage <= |c.gates|
          && (forall i :: 0 <= i < c.currentStage - 1 ==> GateDone(c.gates[i]))
          && GateOpen(c.gates[c.currentStage - 1])
          && (forall i :: c.currentStage <= i < |c.gates| ==> GateWaiting(c.gates[i])))
    && (c.state.Approved? ==> forall i :: 0 <= i < |c.gates| ==> GateDone(c.gates[i]))
    && (!c.state.Running? ==> forall i :: 0 <= i < |c.gates| ==> NoOpenVote(c.gates[i]))
  }

  predicate SameShape(c: Chain, d: Chain) {
    && |c.gates| == |d.gates|
    && forall i :: 0 <= i < |c.gates| ==>
      c.gates[i].mode == d.gates[i].mode && c.gates[i].votes.Keys == d.gates[i].votes.Keys
  }

  predicate Matches(c: Chain, stages: seq<Stage>) {
    && |c.gates| == |stages|
    && forall i :: 0 <= i < |stages| ==>
      c.gates[i].mode == stages[i].mode && c.gates[i].votes.Keys == stages[i].approvers
  }

  /** On an open gate the source's completion test is the meaning of the mode. */
  lemma CompleteMeansMet(g: Gate)
    requires forall p :: p in g.votes ==> g.votes[p].Requested? || g.votes[p].Approved?
    ensures GateComplete(g) <==> ModeMet(g)
  {
    var yes := VotersIn(g.votes, VoteState.Approved);
    assert g.votes.Keys * yes == yes;
    assert |g.votes| == |g.votes.Keys|;
    if g.mode == All && g.votes.Keys <= yes {
      assert VotersIn(g.votes, VoteState.Requested) == {};
    } else if g.mode == All {
      var p :| p in g.votes.Keys && p !in yes;
      assert p in VotersIn(g.votes, VoteState.Requested);
    }
  }

  lemma FreshGateOpen(g: Gate)
    requires g.votes.Keys != {}
    ensures GateOpen(Activate(g)) && Activate(g).votes.Keys == g.votes.Keys
  {
    var h := Activate(g);
    assert h.votes.Keys == g.votes.Keys;
    assert VotersIn(h.votes, VoteState.Approved) == {};
    var p :| p in g.votes;
    assert h.votes.Keys * {} == {};
  }

  lemma CreateInv(stages: seq<Stage>)
    requires Startable(stages)
    ensures Inv(Create(stages).value) && Matches(Create(stages).value, stages)
  {
    var c := Create(stages).value;
    forall i | 0 <= i < |stages| ensures NewGate(stages[i]).votes.Keys != {} {
      var p :| p in stages[i].approvers && p != 0;
      assert p in NewGate(stages[i]).votes;
    }
    FreshGateOpen(NewGate(stages[0]));
    forall i | 0 <= i < |stages| ensures c.gates[i].votes.Keys == stages[i].approvers && c.gates[i].votes.Keys != {} {
      assert NewGate(stages[i]).votes.Keys == stages[i].approvers;
      var p :| p in NewGate(stages[i]).votes;
      assert p in c.gates[i].votes;
    }
  }

  lemma RetireFacts(g: Gate, outcome: GateState)
    ensures Retire(g, outcome).votes.Keys == g.votes.Keys && NoOpenVote(Retire(g, outcome))
    ensures g.votes.Keys != {} ==> Retire(g, outcome).votes.Keys != {}
    ensures VotersIn(Retire(g, outcome).votes, VoteState.Approved) == VotersIn(g.votes, VoteState.Approved)
  {
    assert Retire(g, outcome).votes.Keys == g.votes.Keys;
    if g.votes.Keys != {} {
      var p :| p in g.votes;
      assert p in Retire(g, outcome).votes;
    }
  }

  lemma RetireInv(c: Chain)
    requires Inv(c)
    ensures Inv(Cancel(c)) && SameShape(c, Cancel(c))
    ensures Inv(Supersede(c)) && SameShape(c, Supersede(c))
  {
    forall i, outcome | 0 <= i < |c.gates|
      ensures var g := Retire(c.gates[i], outcome);
        NoOpenVote(g) && g.votes.Keys != {} && g.votes.Keys == c.gates[i].votes.Keys
    {
      RetireFacts(c.gates[i], outcome);
    }
  }

  lemma FinishDone(g: Gate)
    requires ModeMet(g) && forall p :: p in g.votes ==> g.votes[p].Requested? || g.votes[p].Approved?
    ensures GateDone(Finish(g)) && Finish(g).votes.Keys == g.votes.Keys
  {
    assert Finish(g).votes.Keys == g.votes.Keys;
    assert VotersIn(Finish(g).votes, VoteState.Approved) == VotersIn(g.votes, VoteState.Approved);
  }

  predicate SameVoters(g: Gate, h: Gate) { g.mode == h.mode && g.votes.Keys == h.votes.Keys }

  lemma KeepCurrent(c: Chain, g: Gate)
    requires Inv(c) && c.state.Running? && GateOpen(g) && SameVoters(c.gates[c.currentStage - 1], g)
    ensures var d := c.(gates := c.gates[c.currentStage - 1 := g]); Inv(d) && SameShape(c, d)
  {
  }

  lemma MoveOn(c: Chain, done: Gate, next: Gate)
    requires Inv(c) && c.state.Running? && c.currentStage < |c.gates|
    requires GateDone(done) && SameVoters(c.gates[c.currentStage - 1], done)
    requires GateOpen(next) && SameVoters(c.gates[c.currentStage], next)
    ensures var d := Chain(Running, c.currentStage + 1, c.gates[c.currentStage - 1 := done][c.currentStage := next]);
      Inv(d) && SameShape(c, d)
  {
  }

  lemma Conclude(c: Chain, done: Gate)
    requires Inv(c) && c.state.Running? && c.currentStage == |c.gates|
    requires GateDone(done) && SameVoters(c.gates[c.currentStage - 1], done)
    ensures var d := Chain(ChainState.Approved, c.currentStage, c.gates[c.currentStage - 1 := done]);
      Inv(d) && SameShape(c, d)
  {
  }

  lemma ApproveInv(c: Chain, k: nat, p: Person)
    requires Inv(c) && Decide(c, k, p, Approve).Ok?
    ensures Inv(ApproveVote(c, k, p)) && SameShape(c, ApproveVote(c, k, p))
    ensures k == c.currentStage - 1
  {
    assert k == c.currentStage - 1;
    var g := c.gates[k].(votes := c.gates[k].votes[p := VoteState.Approved]);
    assert g.votes.Keys == c.gates[k].votes.Keys;
    CompleteMeansMet(g);
    if !GateComplete(g) {
      KeepCurrent(c, g);
    } else {
      FinishDone(g);
      if k + 1 < |c.gates| {
        FreshGateOpen(c.gates[k + 1]);
        MoveOn(c, Finish(g), Activate(c.gates[k + 1]));
      } else {
        Conclude(c, Finish(g));
      }
    }
  }

  lemma RejectInv(c: Chain, k: nat, p: Person)
    requires Inv(c) && Decide(c, k, p, Reject).Ok?
    ensures Inv(RejectVote(c, k, p)) && SameShape(c, RejectVote(c, k, p))
  {
    var d := RejectVote(c, k, p);
    forall i | 0 <= i < |d.gates|
      ensures d.gates[i].votes.Keys == c.gates[i].votes.Keys && d.gates[i].votes.Keys != {} && NoOpenVote(d.gates[i])
    {
      RetireFacts(c.gates[i], GateState.Cancelled);
      if i == k {
        assert d.gates[k].votes.Keys == c.gates[k].votes.Keys;
        assert p in d.gates[k].votes;
      }
    }
  }

  lemma DecideInv(c: Chain, k: nat, p: Person, d: Decision)
    requires Inv(c) && Decide(c, k, p, d).Ok?
    ensures var after := Decide(c, k, p, d).value;
      && Inv(after) && SameShape(c, after)
      && (after.state.Running? || after.state.Approved? || after.state.Rejected?)
      && (d.Reject? <==> after.state.Rejected?)
  {
    if d.Approve? { ApproveInv(c, k, p); } else { RejectInv(c, k, p); }
  }

  // ---------------------------------------------------------------- what a decision records

  /** The state of a vote after its gate has been closed. */
  function ClosedVote(v: VoteState): VoteState {
    match v
    case NotRequested => NoLongerRequired
    case Requested => NoLongerRequired
    case Approved => VoteState.Approved
    case Rejected => VoteState.Rejected
    case NoLongerRequired => NoLongerRequired
  }

  /** A decision is accepted exactly for somebody who is being asked on the current gate of a Running chain.
      Anything else is refused: an unknown vote, then an unknown decision, then a vote that is not open. */
  lemma DecideAcceptsExactly(c: Chain, k: nat, p: Person, d: Decision)
    requires Inv(c)
    ensures Decide(c, k, p, d).Ok? <==>
      && c.state == Running && d != OtherDecision
      && k + 1 == c.currentStage && p in c.gates[k].votes && c.gates[k].votes[p] == VoteState.Requested
    ensures !(k < |c.gates| && p in c.gates[k].votes) ==> Decide(c, k, p, d) == Err(NoSuchRecord)
    ensures k < |c.gates| && p in c.gates[k].votes && d == OtherDecision ==> Decide(c, k, p, d) == Err(BadRequest)
    ensures k < |c.gates| && p in c.gates[k].votes && d != OtherDecision && Decide(c, k, p, d).Err? ==>
      Decide(c, k, p, d) == Err(Conflict)
  {
  }

  /** A rejection: the vote says so, the gate and the chain are Rejected, the gates still waiting are Cancelled,
      nobody is asked any more, and what others have decided stays. */
  lemma RejectionIsRecorded(c: Chain, k: nat, p: Person)
    requires Inv(c) && Decide(c, k, p, Reject).Ok?
    ensures var after := Decide(c, k, p, Reject).value;
      && after.state == ChainState.Rejected && after.currentStage == c.currentStage && |after.gates| == |c.gates|
      && after.gates[k].votes.Keys == c.gates[k].votes.Keys && after.gates[k].votes[p] == VoteState.Rejected
      && after.gates[k].state == GateState.Rejected
      && (forall i :: 0 <= i < k ==> after.gates[i].state == GateState.Approved)
      && (forall i :: k < i < |c.gates| ==> after.gates[i].state == GateState.Cancelled)
      && (forall i, q :: 0 <= i < |c.gates| && q in c.gates[i].votes && (i, q) != (k, p) ==>
            q in after.gates[i].votes && after.gates[i].votes[q] == ClosedVote(c.gates[i].votes[q]))
  {
    assert k == c.currentStage - 1;
    var after := RejectVote(c, k, p);
    assert after.gates[k].votes.Keys == c.gates[k].votes.Keys;
    forall i | 0 <= i < k ensures after.gates[i].state == GateState.Approved {
      assert GateDone(c.gates[i]);
    }
    forall i | k < i < |c.gates| ensures after.gates[i].state == GateState.Cancelled {
      assert GateWaiting(c.gates[i]);
    }
  }

  /** With the approval of `p` the mode of the gate is met. */
  predicate MetWith(g: Gate, p: Person) {
    Satisfied(g.mode, g.votes.Keys, VotersIn(g.votes, VoteState.Approved) + {p})
  }

  predicate EverybodyAsked(votes: map<Person, VoteState>) {
    forall q :: q in votes ==> votes[q] == VoteState.Requested
  }

  lemma CompleteMeansMetWith(g: Gate, p: Person)
    requires p in g.votes && forall q :: q in g.votes ==> g.votes[q].Requested? || g.votes[q].Approved?
    ensures GateComplete(g.(votes := g.votes[p := VoteState.Approved])) <==> MetWith(g, p)
  {
    var h := g.(votes := g.votes[p := VoteState.Approved]);
    assert h.votes.Keys == g.votes.Keys;
    assert VotersIn(h.votes, VoteState.Approved) == VotersIn(g.votes, VoteState.Approved) + {p};
    CompleteMeansMet(h);
  }

  /** An approval that does not meet the mode of the gate is recorded, and nothing else changes. */
  lemma ApprovalBelowMode(c: Chain, k: nat, p: Person)
    requires Inv(c) && Decide(c, k, p, Approve).Ok? && !MetWith(c.gates[k], p)
    ensures var g := c.gates[k].(votes := c.gates[k].votes[p := VoteState.Approved]);
      Decide(c, k, p, Approve).value == Chain(Running, c.currentStage, c.gates[k := g])
  {
    CompleteMeansMetWith(c.gates[k], p);
  }

  /** An approval that meets the mode of the gate is recorded, the gate is Approved, and who has not voted on it is
      no longer asked. Then the next gate asks everybody, or the chain is Approved after the last one. Nothing else
      changes. */
  lemma ApprovalMeetsMode(c: Chain, k: nat, p: Person)
    requires Inv(c) && Decide(c, k, p, Approve).Ok? && MetWith(c.gates[k], p)
    ensures var after := Decide(c, k, p, Approve).value;
      var last := k + 1 == |c.gates|;
      && |after.gates| == |c.gates|
      && (forall i :: 0 <= i < |c.gates| && i != k && i != k + 1 ==> after.gates[i] == c.gates[i])
      && after.gates[k].mode == c.gates[k].mode && after.gates[k].state == GateState.Approved
      && after.gates[k].votes.Keys == c.gates[k].votes.Keys && after.gates[k].votes[p] == VoteState.Approved
      && (forall q :: q in c.gates[k].votes && q != p ==> after.gates[k].votes[q] == ClosedVote(c.gates[k].votes[q]))
      && after.state == (if last then ChainState.Approved else ChainState.Running)
      && after.currentStage == (if last then c.currentStage else c.currentStage + 1)
      && (!last ==>
            && after.gates[k + 1].state == GateState.Requested && after.gates[k + 1].mode == c.gates[k + 1].mode
            && after.gates[k + 1].votes.Keys == c.gates[k + 1].votes.Keys
            && EverybodyAsked(after.gates[k + 1].votes))
  {
    CompleteMeansMetWith(c.gates[k], p);
    FinishRecords(c.gates[k].(votes := c.gates[k].votes[p := VoteState.Approved]));
    if k + 1 < |c.gates| {
      FreshGateOpen(c.gates[k + 1]);
    }
  }

  lemma FinishRecords(g: Gate)
    ensures Finish(g).votes.Keys == g.votes.Keys && Finish(g).mode == g.mode && Finish(g).state == GateState.Approved
    ensures forall q :: q in g.votes ==>
      Finish(g).votes[q] == if g.votes[q] == VoteState.Requested then NoLongerRequired else g.votes[q]
  {
  }

  /** Cancelling ends a Running chain only, superseding a Running or an Approved one. Both end the gates still
      waiting in the same way and leave what has been decided. */
  lemma RetirementIsRecorded(c: Chain, i: nat, q: Person)
    requires i < |c.gates| && q in c.gates[i].votes
    ensures var after := Cancel(c);
      if c.state == Running then
        && after.state == ChainState.Cancelled
        && after.gates[i].state == EndedState(c.gates[i].state, GateState.Cancelled)
        && after.gates[i].votes[q] == ClosedVote(c.gates[i].votes[q])
      else after == c
    ensures var after := Supersede(c);
      if c.state in {Running, ChainState.Approved} then
        && after.state == ChainState.Superseded
        && after.gates[i].state == EndedState(c.gates[i].state, GateState.Superseded)
        && after.gates[i].votes[q] == ClosedVote(c.gates[i].votes[q])
      else after == c
  {
  }

  function EndedState(before: GateState, outcome: GateState): GateState {
    match before
    case Pending => outcome
    case Requested => outcome
    case Approved => GateState.Approved
    case Rejected => GateState.Rejected
    case Cancelled => GateState.Cancelled
    case Superseded => GateState.Superseded
  }

  /** A chain is refused exactly when it has no stage, or a stage whose approvers are all 0. A new one asks
      everybody on its first gate and nobody else. */
  lemma CreateExactly(stages: seq<Stage>)
    ensures Create(stages).Err? <==> stages == [] || exists i :: 0 <= i < |stages| && stages[i].approvers <= {0}
    ensures Create(stages).Err? ==> Create(stages) == Err(BadRequest)
    ensures Create(stages).Ok? ==>
      var c := Create(stages).value;
      && c.state == Running && c.currentStage == 1 && |c.gates| == |stages|
      && forall i :: 0 <= i < |stages| ==>
        && c.gates[i].mode == stages[i].mode && c.gates[i].votes.Keys == stages[i].approvers
        && c.gates[i].state == (if i == 0 then GateState.Requested else Pending)
        && forall q :: q in c.gates[i].votes ==>
          c.gates[i].votes[q] == if i == 0 then VoteState.Requested else NotRequested
  {
    forall i | 0 <= i < |stages| ensures HasApprover(stages[i]) <==> !(stages[i].approvers <= {0}) {
      if !(stages[i].approvers <= {0}) {
        var p :| p in stages[i].approvers && p !in {0};
        assert p != 0;
      }
    }
    if Startable(stages) { CreateInv(stages); }
  }

  // ---------------------------------------------------------------- whole runs

  datatype Op = Vote(gate: nat, person: Person, decision: Decision) | CancelOp | SupersedeOp

  /** A refused decision changes nothing. */
  function Apply(c: Chain, op: Op): Chain {
    match op
    case Vote(k, p, d) => (var r := Decide(c, k, p, d); if r.Ok? then r.value else c)
    case CancelOp => Cancel(c)
    case SupersedeOp => Supersede(c)
  }

  function Run(c: Chain, ops: seq<Op>): Chain
    decreases ops
  {
    if ops == [] then c else Run(Apply(c, ops[0]), ops[1..])
  }

  lemma ApplyInv(c: Chain, op: Op)
    requires Inv(c)
    ensures Inv(Apply(c, op)) && SameShape(c, Apply(c, op))
  {
    RetireInv(c);
    if op.Vote? && Decide(c, op.gate, op.person, op.decision).Ok? {
      DecideInv(c, op.gate, op.person, op.decision);
    }
  }

  /** Every reachable chain has the shape described by `Inv`, and its gates are those it started with. */
  lemma {:induction false} EveryRunKeepsInv(c: Chain, ops: seq<Op>)
    requires Inv(c)
    ensures Inv(Run(c, ops)) && SameShape(c, Run(c, ops))
    decreases ops
  {
    if ops != [] {
      ApplyInv(c, ops[0]);
      EveryRunKeepsInv(Apply(c, ops[0]), ops[1..]);
    }
  }

  lemma {:induction false} RunAppend(c: Chain, a: seq<Op>, b: seq<Op>)
    ensures Run(c, a + b) == Run(Run(c, a), b)
    decreases a
  {
    if a == [] {
      assert a + b == b;
    } else {
      assert (a + b)[0] == a[0] && (a + b)[1..] == a[1..] + b;
      RunAppend(Apply(c, a[0]), a[1..], b);
    }
  }

  // ---------------------------------------------------------------- progress

  function OpenVoters(g: Gate): set<Person> {
    set p | p in g.votes && IsOpen(g.votes[p])
  }

  function OpenCount(gates: seq<Gate>): nat {
    if gates == [] then 0 else |OpenVoters(gates[0])| + OpenCount(gates[1..])
  }

  lemma {:induction false} OpenCountLess(a: seq<Gate>, b: seq<Gate>, k: nat)
    requires |a| == |b| && k < |a|
    requires forall i :: 0 <= i < |a| ==> OpenVoters(b[i]) <= OpenVoters(a[i])
    requires OpenVoters(b[k]) < OpenVoters(a[k])
    ensures OpenCount(b) < OpenCount(a)
    decreases |a|
  {
    SubsetCard(OpenVoters(b[0]), OpenVoters(a[0]));
    if k == 0 {
      OpenCountAtMost(a[1..], b[1..]);
      var p :| p in OpenVoters(a[0]) - OpenVoters(b[0]);
      assert |OpenVoters(a[0]) - OpenVoters(b[0])| >= 1;
    } else {
      OpenCountLess(a[1..], b[1..], k - 1);
    }
  }

  lemma {:induction false} OpenCountAtMost(a: seq<Gate>, b: seq<Gate>)
    requires |a| == |b|
    requires forall i :: 0 <= i < |a| ==> OpenVoters(b[i]) <= OpenVoters(a[i])
    ensures OpenCount(b) <= OpenCount(a)
  {
    if a != [] {
      SubsetCard(OpenVoters(b[0]), OpenVoters(a[0]));
      OpenCountAtMost(a[1..], b[1..]);
    }
  }

  /** Each accepted decision leaves strictly fewer open votes. */
  lemma DecisionClosesAVote(c: Chain, k: nat, p: Person, d: Decision)
    requires Inv(c) && Decide(c, k, p, d).Ok?
    ensures OpenCount(Decide(c, k, p, d).value.gates) < OpenCount(c.gates)
  {
    var after := Decide(c, k, p, d).value;
    forall i | 0 <= i < |c.gates| ensures OpenVoters(after.gates[i]) <= OpenVoters(c.gates[i]) {
      if d.Approve? { ApproveOpensNone(c, k, p, i); } else { RejectOpensNone(c, k, p, i); }
    }
    assert p in OpenVoters(c.gates[k]);
    assert p !in OpenVoters(after.gates[k]) by { VoterIsDone(c, k, p, d); }
    OpenCountLess(c.gates, after.gates, k);
  }

  lemma VoterIsDone(c: Chain, k: nat, p: Person, d: Decision)
    requires Decide(c, k, p, d).Ok?
    ensures p !in OpenVoters(Decide(c, k, p, d).value.gates[k])
  {
  }

  /** A later gate's votes were open before it was activated. */
  lemma ApproveOpensNone(c: Chain, k: nat, p: Person, i: nat)
    requires Inv(c) && Decide(c, k, p, Approve).Ok? && i < |c.gates|
    ensures OpenVoters(ApproveVote(c, k, p).gates[i]) <= OpenVoters(c.gates[i])
  {
    if i == k + 1 {
      assert GateWaiting(c.gates[i]);
    }
  }

  lemma RejectOpensNone(c: Chain, k: nat, p: Person, i: nat)
    requires Decide(c, k, p, Reject).Ok? && i < |c.gates|
    ensures OpenVoters(RejectVote(c, k, p).gates[i]) <= OpenVoters(c.gates[i])
  {
  }

  lemma AllApprovedMeetsMode(g: Gate)
    requires g.votes.Keys != {} && forall q :: q in g.votes ==> g.votes[q].Approved?
    ensures ModeMet(g)
  {
    assert VotersIn(g.votes, VoteState.Approved) == g.votes.Keys;
    assert g.votes.Keys * g.votes.Keys == g.votes.Keys;
    var q :| q in g.votes;
    assert |g.votes.Keys| >= 1 by { SubsetCard({q}, g.votes.Keys); }
  }

  /** A Running chain always has somebody to ask, and may take either answer from them. */
  lemma RunningHasOpenVote(c: Chain) returns (p: Person)
    requires Inv(c) && c.state.Running?
    ensures p in c.gates[c.currentStage - 1].votes
    ensures Decide(c, c.currentStage - 1, p, Approve).Ok? && Decide(c, c.currentStage - 1, p, Reject).Ok?
  {
    var g := c.gates[c.currentStage - 1];
    if forall q :: q in g.votes ==> g.votes[q].Approved? {
      AllApprovedMeetsMode(g);
    }
    p :| p in g.votes && !g.votes[p].Approved?;
  }

  /** All of `ops` are decisions that are accepted when their turn comes. */
  predicate AllAccepted(c: Chain, ops: seq<Op>)
    decreases ops
  {
    ops != [] ==>
      && ops[0].Vote?
      && Decide(c, ops[0].gate, ops[0].person, ops[0].decision).Ok?
      && AllAccepted(Apply(c, ops[0]), ops[1..])
  }

  lemma {:induction false} AcceptedDecisionsAreBounded(c: Chain, ops: seq<Op>)
    requires Inv(c) && AllAccepted(c, ops)
    ensures |ops| + OpenCount(Run(c, ops).gates) <= OpenCount(c.gates)
    ensures ops != [] ==> var s := Run(c, ops).state; s.Running? || s.Approved? || s.Rejected?
    decreases ops
  {
    if ops != [] {
      ApplyInv(c, ops[0]);
      DecideInv(c, ops[0].gate, ops[0].person, ops[0].decision);
      DecisionClosesAVote(c, ops[0].gate, ops[0].person, ops[0].decision);
      AcceptedDecisionsAreBounded(Apply(c, ops[0]), ops[1..]);
    }
  }

  /** Approval progress: a run of decisions on a chain accepts no more decisions than it had open votes,
      and a run that cannot be continued has ended in Approved or Rejected. */
  lemma DecisionsReachAnOutcome(c: Chain, ops: seq<Op>)
    requires Inv(c) && c.state.Running? && AllAccepted(c, ops)
    ensures |ops| <= OpenCount(c.gates)
    ensures (forall next :: !AllAccepted(c, ops + [next])) ==>
      Run(c, ops).state.Approved? || Run(c, ops).state.Rejected?
  {
    AcceptedDecisionsAreBounded(c, ops);
    EveryRunKeepsInv(c, ops);
    var last := Run(c, ops);
    if last.state.Running? {
      var p := RunningHasOpenVote(last);
      var next := Vote(last.currentStage - 1, p, Approve);
      AcceptedSnoc(c, ops, next);
    }
  }

  lemma {:induction false} AcceptedSnoc(c: Chain, ops: seq<Op>, next: Op)
    requires AllAccepted(c, ops) && next.Vote? && Decide(Run(c, ops), next.gate, next.person, next.decision).Ok?
    ensures AllAccepted(c, ops + [next])
    decreases ops
  {
    if ops == [] {
      assert ops + [next] == [next] && [next][1..] == [];
      assert AllAccepted(Apply(c, next), []);
    } else {
      assert (ops + [next])[0] == ops[0] && (ops + [next])[1..] == ops[1..] + [next];
      AcceptedSnoc(Apply(c, ops[0]), ops[1..], next);
    }
  }
}
