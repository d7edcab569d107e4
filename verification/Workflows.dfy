/** The resumable workflow interpreter (app.py: process_workflow_jobs), with one worker and
    fixed published versions.

    A job runs the action lists of its matching workflows in order. A pass ends with one
    commit, at a wait, at a rate limit or at the end, or with a rollback to the last commit.
    The next pass resumes from `next_action_index`. */
module Workflows {
  import opened Outcomes

  const MAX_ATTEMPTS := 5

  datatype Action = Wait(minutes: nat) | Effect(kind: nat)

  /** The action lists of the workflows that match the job, in match order. */
  type Program = seq<seq<Action>>

  datatype JobState = Pending | Running | Waiting | RateLimited | Retry | Completed | Dead

  datatype ExecutionState = ExecRunning | ExecWaiting | ExecCompleted | ExecRetry | ExecFailed

  /** `steps` are the action indices whose step row is Completed. */
  datatype Execution = Execution(state: ExecutionState, next: nat, steps: set<nat>)

  /** Action `action` of workflow `workflow` was carried out. */
  datatype Entry = Entry(workflow: nat, action: nat)

  /** `execs[i]` is the execution of workflow i, in order of creation; `log` is everything carried out. */
  datatype Job = Job(state: JobState, attempts: nat, execs: seq<Execution>, log: seq<Entry>)

  /** What the surroundings do during one pass. */
  datatype Env = Env(failing: set<Entry>, limited: set<nat>, commitFails: bool)

  // ---------------------------------------------------------------- one pass, on values

  datatype Stretch = Raised | Paused(job: Job) | Through(job: Job)

  function CarryOut(job: Job, i: nat, k: nat): Job
    requires i < |job.execs|
  {
    var x := job.execs[i];
    job.(execs := job.execs[i := x.(next := k + 1, steps := x.steps + {k})], log := job.log + [Entry(i, k)])
  }

  /** The actions of workflow `i` from index `k` on. */
  function RunActions(actions: seq<Action>, job: Job, i: nat, k: nat, env: Env): Stretch
    requires i < |job.execs| && k <= |actions|
    decreases |actions| - k
  {
    if k == |actions| then Through(job)
    else if k in job.execs[i].steps then
      RunActions(actions, job.(execs := job.execs[i := job.execs[i].(next := k + 1)]), i, k + 1, env)
    else if actions[k].Wait? then
      var after := CarryOut(job, i, k);
      Paused(after.(state := Waiting, execs := after.execs[i := after.execs[i].(state := ExecWaiting)]))
    else if Entry(i, k) in env.failing then Raised
    else RunActions(actions, CarryOut(job, i, k), i, k + 1, env)
  }

  function Open(job: Job, i: nat): Job
    requires i <= |job.execs|
  {
    if i < |job.execs| then job.(execs := job.execs[i := job.execs[i].(state := ExecRunning)])
    else job.(execs := job.execs + [Execution(ExecRunning, 0, {})])
  }

  ghost predicate Fits(program: Program, execs: seq<Execution>) {
    |execs| <= |program| && forall j :: 0 <= j < |execs| ==> execs[j].next <= |program[j]|
  }

  /** Start or resume workflow `i`; when its actions run through, its execution is complete. */
  function RunOne(program: Program, job: Job, i: nat, env: Env): Stretch
    requires i < |program| && i <= |job.execs| && Fits(program, job.execs)
  {
    var started := Open(job, i);
    match RunActions(program[i], started, i, started.execs[i].next, env)
    case Raised => Raised
    case Paused(after) => Paused(after)
    case Through(after) =>
      RunActionsKeepsSize(program[i], started, i, started.execs[i].next, env);
      Through(after.(execs := after.execs[i := after.execs[i].(state := ExecCompleted)]))
  }

  lemma RunOneFits(program: Program, job: Job, i: nat, env: Env)
    requires i < |program| && i <= |job.execs| && Fits(program, job.execs)
    ensures var r := RunOne(program, job, i, env);
      !r.Raised? ==> Fits(program, r.job.execs) && i < |r.job.execs| && job.log <= r.job.log
  {
    var started := Open(job, i);
    RunActionsKeepsSize(program[i], started, i, started.execs[i].next, env);
  }

  /** The workflows from `i` on: the job row to commit, or None when something raised. */
  function RunWorkflows(program: Program, job: Job, i: nat, env: Env): Option<Job>
    requires i <= |program| && i <= |job.execs| && Fits(program, job.execs)
    decreases |program| - i
  {
    if i == |program| then Some(job.(state := Completed))
    else if i < |job.execs| && job.execs[i].state.ExecCompleted? then RunWorkflows(program, job, i + 1, env)
    else if i == |job.execs| && i in env.limited then Some(job.(state := RateLimited))
    else
      RunOneFits(program, job, i, env);
      match RunOne(program, job, i, env)
      case Raised => None
      case Paused(after) => Some(after)
      case Through(after) => RunWorkflows(program, after, i + 1, env)
  }

  lemma {:induction false} RunActionsKeepsSize(actions: seq<Action>, job: Job, i: nat, k: nat, env: Env)
    requires i < |job.execs| && k <= |actions| && job.execs[i].next <= |actions|
    ensures var r := RunActions(actions, job, i, k, env);
      !r.Raised? ==>
        && job.log <= r.job.log
        && |r.job.execs| == |job.execs|
        && r.job.execs[i].next <= |actions|
        && (forall j :: 0 <= j < |job.execs| && j != i ==> r.job.execs[j] == job.execs[j])
    decreases |actions| - k
  {
    if k < |actions| {
      if k in job.execs[i].steps {
        RunActionsKeepsSize(actions, job.(execs := job.execs[i := job.execs[i].(next := k + 1)]), i, k + 1, env);
      } else if !actions[k].Wait? {
        RunActionsKeepsSize(actions, CarryOut(job, i, k), i, k + 1, env);
      }
    }
  }

  /** After a rollback: the newest execution is marked, the job is retried or given up. */
  function Recover(job: Job): Job {
    var dead := job.attempts + 1 >= MAX_ATTEMPTS;
    var n := |job.execs|;
    Job(if dead then Dead else Retry, job.attempts + 1,
        if n == 0 then job.execs
        else job.execs[n - 1 := job.execs[n - 1].(state := if dead then ExecFailed else ExecRetry)],
        job.log)
  }

  predicate Due(job: Job) {
    job.state in {Pending, Retry, Waiting, RateLimited}
  }

  function Pass(program: Program, job: Job, env: Env): Job
    requires WellFormed(program, job)
  {
    if !Due(job) then job
    else
      match RunWorkflows(program, job.(state := Running), 0, env)
      case Some(after) => if env.commitFails then Recover(job) else after
      case None => Recover(job)
  }

  // ---------------------------------------------------------------- one pass, as the source runs it

  class WorkflowJob {
    var state: JobState
    var attempts: nat
    var execs: seq<Execution>
    var log: seq<Entry>

    function View(): Job
      reads this
    {
      Job(state, attempts, execs, log)
    }

    constructor ()
      ensures View() == NewJob() && state == Pending
    {
      state, attempts, execs, log := Pending, 0, [], [];
    }

    method Assign(job: Job)
      modifies this
      ensures View() == job
    {
      state, attempts, execs, log := job.state, job.attempts, job.execs, job.log;
    }

    /** The action loop of one execution. Nothing is promised about the fields when it raises: the
        caller rolls back. */
    method RunExecution(actions: seq<Action>, i: nat, env: Env) returns (raised: bool, waiting: bool)
      requires i < |execs| && execs[i].next <= |actions|
      modifies this
      ensures var r := RunActions(actions, old(View()), i, old(execs[i].next), env);
        && raised == r.Raised?
        && waiting == r.Paused?
        && (!raised ==> View() == r.job)
    {
      raised, waiting := false, false;
      ghost var spec := RunActions(actions, View(), i, execs[i].next, env);
      var k := execs[i].next;
      while k < |actions|
        invariant i < |execs| && k <= |actions|
        invariant spec == RunActions(actions, View(), i, k, env)
      {
        if k in execs[i].steps {
          execs := execs[i := execs[i].(next := k + 1)];
        } else if actions[k].Wait? {
          execs := execs[i := Execution(ExecWaiting, k + 1, execs[i].steps + {k})];
          log := log + [Entry(i, k)];
          state := Waiting;
          return false, true;
        } else if Entry(i, k) in env.failing {
          return true, false;
        } else {
          execs := execs[i := execs[i].(next := k + 1, steps := execs[i].steps + {k})];
          log := log + [Entry(i, k)];
        }
        k := k + 1;
      }
    }

    method RunWorkflow(program: Program, i: nat, env: Env) returns (raised: bool, waiting: bool)
      requires i < |program| && i <= |execs| && Fits(program, execs)
      modifies this
      ensures var r := RunOne(program, old(View()), i, env);
        && raised == r.Raised?
        && waiting == r.Paused?
        && (!raised ==> View() == r.job)
    {
      ghost var before := View();
      if i < |execs| {
        execs := execs[i := execs[i].(state := ExecRunning)];
      } else {
        execs := execs + [Execution(ExecRunning, 0, {})];
      }
      ghost var started := View();
      assert started == Open(before, i);
      RunActionsKeepsSize(program[i], started, i, started.execs[i].next, env);
      raised, waiting := RunExecution(program[i], i, env);
      if !raised && !waiting {
        execs := execs[i := execs[i].(state := ExecCompleted)];
      }
    }

    /** The loop over the matching workflows. */
    method RunMatches(program: Program, env: Env) returns (raised: bool)
      requires Fits(program, execs)
      modifies this
      ensures raised <==> RunWorkflows(program, old(View()), 0, env).None?
      ensures !raised ==> RunWorkflows(program, old(View()), 0, env) == Some(View())
    {
      ghost var spec := RunWorkflows(program, View(), 0, env);
      var i, waiting := 0, false;
      while i < |program|
        invariant i <= |program| && i <= |execs| && Fits(program, execs)
        invariant spec == RunWorkflows(program, View(), i, env)
      {
        if i < |execs| && execs[i].state.ExecCompleted? {
          i := i + 1;
          continue;
        }
        if i == |execs| && i in env.limited {
          state := RateLimited;
          return false;
        }
        RunOneFits(program, View(), i, env);
        raised, waiting := RunWorkflow(program, i, env);
        if raised || waiting {
          return;
        }
        i := i + 1;
      }
      state := Completed;
      return false;
    }

    /** One pass over the job: resume, commit, or roll back and schedule a retry. What is committed stays
        a prefix of the straight-line run and only grows. */
    method Process(program: Program, env: Env)
      requires WellFormed(program, View())
      modifies this
      ensures View() == Pass(program, old(View()), env)
      ensures WellFormed(program, View()) && old(log) <= log <= StraightLine(program, |program|)
    {
      var saved := View();
      PassKeepsWellFormed(program, saved, env);
      if !Due(saved) {
        return;
      }
      state := Running;
      var raised := RunMatches(program, env);
      if raised || env.commitFails {
        Assign(Recover(saved));
      }
    }
  }

  // ---------------------------------------------------------------- straight-line execution

  function Entries(i: nat, n: nat): (r: seq<Entry>)
    ensures |r| == n && forall k :: 0 <= k < n ==> r[k] == Entry(i, k)
  {
    seq(n, k requires 0 <= k < n => Entry(i, k))
  }

  /** Running the first `m` workflows to the end, one after the other, without any interruption. */
  function StraightLine(program: Program, m: nat): seq<Entry>
    requires m <= |program|
  {
    if m == 0 then [] else StraightLine(program, m - 1) + Entries(m - 1, |program[m - 1]|)
  }

  function Offset(program: Program, m: nat): nat
    requires m <= |program|
  {
    if m == 0 then 0 else Offset(program, m - 1) + |program[m - 1]|
  }

  lemma {:induction false} StraightLineGrows(program: Program, m: nat, n: nat)
    requires m <= n <= |program|
    ensures |StraightLine(program, m)| == Offset(program, m) <= Offset(program, n)
    ensures StraightLine(program, m) <= StraightLine(program, n)
    decreases n
  {
    if m < n {
      StraightLineGrows(program, m, n - 1);
    } else if m > 0 {
      StraightLineGrows(program, m - 1, m - 1);
    }
  }

  lemma EntryAt(program: Program, i: nat, k: nat)
    requires i < |program| && k < |program[i]|
    ensures var all := StraightLine(program, |program|);
      Offset(program, i) + k < |all| && all[Offset(program, i) + k] == Entry(i, k)
  {
    StraightLineGrows(program, i, i);
    StraightLineGrows(program, i + 1, |program|);
    StraightLineGrows(program, |program|, |program|);
    assert StraightLine(program, i + 1)[Offset(program, i) + k] == Entry(i, k);
  }

  ghost predicate ExecOk(actions: seq<Action>, x: Execution) {
    && x.next <= |actions|
    && (forall k :: k in x.steps <==> 0 <= k < x.next)
    && (x.state.ExecCompleted? ==> x.next == |actions|)
  }

  ghost predicate ExecsOk(program: Program, execs: seq<Execution>) {
    && |execs| <= |program|
    && (forall j :: 0 <= j < |execs| ==> ExecOk(program[j], execs[j]))
    && (forall j :: 0 <= j < |execs| - 1 ==> execs[j].state.ExecCompleted?)
  }

  /** How far the straight-line run has got when the newest execution is at its next action. */
  function Position(program: Program, execs: seq<Execution>): nat
    requires |execs| <= |program|
  {
    if execs == [] then 0 else Offset(program, |execs| - 1) + execs[|execs| - 1].next
  }

  /** What has been carried out is the straight-line run up to the newest execution's next action, and
      every execution but the newest is complete. */
  ghost predicate WellFormed(program: Program, job: Job) {
    && ExecsOk(program, job.execs)
    && |job.log| == Position(program, job.execs) && job.log <= StraightLine(program, |program|)
    && (job.state.Completed? ==>
          |job.execs| == |program| && forall j :: 0 <= j < |job.execs| ==> job.execs[j].state.ExecCompleted?)
    && job.attempts <= MAX_ATTEMPTS
    && (job.state.Dead? ==> job.attempts == MAX_ATTEMPTS)
    && (Due(job) || job.state.Running? ==> job.attempts < MAX_ATTEMPTS)
  }

  /** A pass in progress: the newest execution is `i`. */
  ghost predicate Midway(program: Program, job: Job, i: nat) {
    WellFormed(program, job) && job.state.Running? && |job.execs| == i + 1
  }

  lemma CarryOutOk(program: Program, job: Job, i: nat)
    requires Midway(program, job, i) && job.execs[i].next < |program[i]| && !job.execs[i].state.ExecCompleted?
    ensures var k := job.execs[i].next;
      Midway(program, CarryOut(job, i, k), i) && CarryOut(job, i, k).execs[i].next == k + 1
  {
    EntryAt(program, i, job.execs[i].next);
  }

  lemma {:induction false} RunActionsOk(program: Program, job: Job, i: nat, env: Env)
    requires Midway(program, job, i) && !job.execs[i].state.ExecCompleted?
    ensures var r := RunActions(program[i], job, i, job.execs[i].next, env);
      match r
      case Raised => true
      case Paused(after) => WellFormed(program, after) && after.state.Waiting?
      case Through(after) => Midway(program, after, i) && after.execs[i].next == |program[i]|
    decreases |program[i]| - job.execs[i].next
  {
    var k := job.execs[i].next;
    if k < |program[i]| {
      CarryOutOk(program, job, i);
      if !program[i][k].Wait? {
        RunActionsOk(program, CarryOut(job, i, k), i, env);
      }
    }
  }

  /** A pass in progress before workflow `i`: all earlier executions are complete. */
  ghost predicate Between(program: Program, job: Job, i: nat) {
    && WellFormed(program, job) && job.state.Running?
    && i <= |job.execs|
    && (forall j :: 0 <= j < i ==> job.execs[j].state.ExecCompleted?)
  }

  lemma OpenOk(program: Program, job: Job, i: nat)
    requires Between(program, job, i) && i < |program|
    requires i < |job.execs| ==> !job.execs[i].state.ExecCompleted?
    ensures Midway(program, Open(job, i), i) && !Open(job, i).execs[i].state.ExecCompleted?
  {
  }

  lemma RunOneOk(program: Program, job: Job, i: nat, env: Env)
    requires Between(program, job, i) && i < |program|
    requires i < |job.execs| ==> !job.execs[i].state.ExecCompleted?
    ensures var r := RunOne(program, job, i, env);
      && (r.Paused? ==> WellFormed(program, r.job))
      && (r.Through? ==> Between(program, r.job, i + 1))
  {
    OpenOk(program, job, i);
    RunActionsOk(program, Open(job, i), i, env);
    var r := RunActions(program[i], Open(job, i), i, Open(job, i).execs[i].next, env);
    if r.Through? { CompleteOk(program, r.job, i); }
  }

  /** Completing the newest execution, its actions having run through. */
  lemma CompleteOk(program: Program, job: Job, i: nat)
    requires Midway(program, job, i) && job.execs[i].next == |program[i]|
    ensures Between(program, job.(execs := job.execs[i := job.execs[i].(state := ExecCompleted)]), i + 1)
  {
  }

  /** A pass may end at a rate limit, and when all workflows are behind it. */
  lemma StopOk(program: Program, job: Job, i: nat)
    requires Between(program, job, i)
    ensures WellFormed(program, job.(state := RateLimited))
    ensures i == |program| ==> WellFormed(program, job.(state := Completed))
  {
  }

  lemma {:induction false} RunWorkflowsOk(program: Program, job: Job, i: nat, env: Env)
    requires Between(program, job, i)
    ensures var r := RunWorkflows(program, job, i, env); r.Some? ==> WellFormed(program, r.value)
    decreases |program| - i
  {
    if i == |program| || (i == |job.execs| && i in env.limited) {
      StopOk(program, job, i);
    } else if i < |job.execs| && job.execs[i].state.ExecCompleted? {
      RunWorkflowsOk(program, job, i + 1, env);
    } else {
      RunOneOk(program, job, i, env);
      RunOneFits(program, job, i, env);
      var r := RunOne(program, job, i, env);
      if r.Through? {
        RunWorkflowsOk(program, r.job, i + 1, env);
      }
    }
  }

  /** Nothing carried out is ever taken back within a pass. */
  lemma {:induction false} RunWorkflowsLog(program: Program, job: Job, i: nat, env: Env)
    requires i <= |program| && i <= |job.execs| && Fits(program, job.execs)
    ensures var r := RunWorkflows(program, job, i, env); r.Some? ==> job.log <= r.value.log
    decreases |program| - i
  {
    if i < |program| {
      if i < |job.execs| && job.execs[i].state.ExecCompleted? {
        RunWorkflowsLog(program, job, i + 1, env);
      } else if !(i == |job.execs| && i in env.limited) {
        RunOneFits(program, job, i, env);
        var r := RunOne(program, job, i, env);
        if r.Through? { RunWorkflowsLog(program, r.job, i + 1, env); }
      }
    }
  }

  lemma PassKeepsWellFormed(program: Program, job: Job, env: Env)
    requires WellFormed(program, job)
    ensures WellFormed(program, Pass(program, job, env))
    ensures job.log <= Pass(program, job, env).log
  {
    if Due(job) {
      RunWorkflowsOk(program, job.(state := Running), 0, env);
      RunWorkflowsLog(program, job.(state := Running), 0, env);
    }
  }

  lemma CompletedRanEverything(program: Program, job: Job)
    requires WellFormed(program, job) && job.state.Completed?
    ensures job.log == StraightLine(program, |program|)
  {
    var n := |program|;
    StraightLineGrows(program, n, n);
    if n > 0 {
      assert job.execs[n - 1].next == |program[n - 1]|;
      assert Position(program, job.execs) == Offset(program, n);
    }
    PrefixOfSameLength(job.log, StraightLine(program, n));
  }

  lemma PrefixOfSameLength(a: seq<Entry>, b: seq<Entry>)
    requires a <= b && |a| == |b|
    ensures a == b
  {
  }

  // ---------------------------------------------------------------- whole runs

  function RunPasses(program: Program, job: Job, envs: seq<Env>): (r: Job)
    requires WellFormed(program, job)
    ensures WellFormed(program, r)
    decreases envs
  {
    if envs == [] then job
    else
      PassKeepsWellFormed(program, job, envs[0]);
      RunPasses(program, Pass(program, job, envs[0]), envs[1..])
  }

  function NewJob(): Job { Job(Pending, 0, [], []) }

  /** Resumable execution refines straight-line execution: across any mix of waits, rate limits,
      rollbacks and retries, what has been carried out is a prefix of running all matching workflows
      straight through; each execution has carried out exactly the actions before its next one; and a
      Completed job or execution has run everything. */
  lemma ResumptionRefinesStraightLine(program: Program, envs: seq<Env>)
    ensures var job := RunPasses(program, NewJob(), envs);
      && job.log <= StraightLine(program, |program|)
      && (job.state.Completed? ==> job.log == StraightLine(program, |program|))
      && |job.execs| <= |program|
      && (forall i :: 0 <= i < |job.execs| ==> Of(job.log, i) == Entries(i, job.execs[i].next))
      && (forall i :: 0 <= i < |job.execs| && job.execs[i].state.ExecCompleted? ==> job.execs[i].next == |program[i]|)
      && job.attempts <= MAX_ATTEMPTS
  {
    var job := RunPasses(program, NewJob(), envs);
    if job.state.Completed? { CompletedRanEverything(program, job); }
    forall i | 0 <= i < |job.execs| ensures Of(job.log, i) == Entries(i, job.execs[i].next) {
      OfExpected(program, job, i);
    }
  }

  /** The entries of workflow `i`, in order. */
  function Of(log: seq<Entry>, i: nat): seq<Entry> {
    if log == [] then []
    else Of(log[..|log| - 1], i) + (if log[|log| - 1].workflow == i then [log[|log| - 1]] else [])
  }

  lemma {:induction false} OfAppend(a: seq<Entry>, b: seq<Entry>, i: nat)
    ensures Of(a + b, i) == Of(a, i) + Of(b, i)
    decreases b
  {
    if b == [] {
      assert a + b == a;
    } else {
      var n := |b| - 1;
      assert (a + b)[..|a + b| - 1] == a + b[..n] && (a + b)[|a + b| - 1] == b[n];
      OfAppend(a, b[..n], i);
    }
  }

  lemma {:induction false} OfEntries(j: nat, n: nat, i: nat)
    ensures Of(Entries(j, n), i) == if i == j then Entries(j, n) else []
  {
    if n > 0 {
      assert Entries(j, n)[..n - 1] == Entries(j, n - 1);
      OfEntries(j, n - 1, i);
      assert Entries(j, n) == Entries(j, n - 1) + [Entry(j, n - 1)];
    }
  }

  /** One more block of entries. */
  lemma OfBlock(head: seq<Entry>, j: nat, n: nat, i: nat)
    ensures i == j && Of(head, i) == [] ==> Of(head + Entries(j, n), i) == Entries(j, n)
    ensures i != j ==> Of(head + Entries(j, n), i) == Of(head, i)
  {
    OfAppend(head, Entries(j, n), i);
    OfEntries(j, n, i);
    if i == j {
      assert [] + Entries(j, n) == Entries(j, n);
    } else {
      assert Of(head, i) + [] == Of(head, i);
    }
  }

  lemma {:induction false} OfStraightLine(program: Program, m: nat, i: nat)
    requires m <= |program|
    ensures Of(StraightLine(program, m), i) == if i < m then Entries(i, |program[i]|) else []
    decreases m
  {
    if m > 0 {
      var head, n := StraightLine(program, m - 1), |program[m - 1]|;
      OfStraightLine(program, m - 1, i);
      OfBlock(head, m - 1, n, i);
      assert StraightLine(program, m) == head + Entries(m - 1, n);
    } else {
      assert Of([], i) == [];
    }
  }

  /** The log, block by block. */
  lemma LogBlocks(program: Program, job: Job)
    requires WellFormed(program, job) && job.execs != []
    ensures var n := |job.execs| - 1; job.log == StraightLine(program, n) + Entries(n, job.execs[n].next)
  {
    var n := |job.execs| - 1;
    StraightLineGrows(program, n, n + 1);
    StraightLineGrows(program, n + 1, |program|);
    var block := StraightLine(program, n) + Entries(n, job.execs[n].next);
    assert block <= StraightLine(program, n + 1);
    assert |block| == |job.log|;
  }

  lemma OfExpected(program: Program, job: Job, i: nat)
    requires WellFormed(program, job) && i < |job.execs|
    ensures Of(job.log, i) == Entries(i, job.execs[i].next)
  {
    var n := |job.execs| - 1;
    LogBlocks(program, job);
    EarlierAreThrough(program, job, i);
    OfBlocks(program, job.log, n, job.execs[n].next, i, job.execs[i].next);
  }

  lemma EarlierAreThrough(program: Program, job: Job, i: nat)
    requires WellFormed(program, job) && i < |job.execs|
    ensures i < |job.execs| - 1 ==> job.execs[i].next == |program[i]|
  {
  }

  lemma OfBlocks(program: Program, log: seq<Entry>, n: nat, k: nat, i: nat, next: nat)
    requires i <= n < |program| && log == StraightLine(program, n) + Entries(n, k)
    requires next == if i < n then |program[i]| else k
    ensures Of(log, i) == Entries(i, next)
  {
    OfStraightLine(program, n, i);
    OfBlock(StraightLine(program, n), n, k, i);
  }

  // ---------------------------------------------------------------- rollbacks

  /** Where workflow `i` starts or resumes. */
  function StartOf(job: Job, i: nat): nat {
    if i < |job.execs| then job.execs[i].next else 0
  }

  /** The actions from `from` on all succeed, and none of them waits. */
  predicate Clear(actions: seq<Action>, i: nat, from: nat, to: nat, env: Env)
    requires to <= |actions|
  {
    forall k :: from <= k < to ==> actions[k].Effect? && Entry(i, k) !in env.failing
  }

  /** Some action raises, and nothing before it does or waits. */
  predicate RunsInto(actions: seq<Action>, i: nat, from: nat, env: Env) {
    exists m :: from <= m < |actions| && FailsAt(actions, i, from, m, env)
  }

  predicate FailsAt(actions: seq<Action>, i: nat, from: nat, m: nat, env: Env)
    requires m < |actions|
  {
    Clear(actions, i, from, m, env) && actions[m].Effect? && Entry(i, m) in env.failing
  }

  predicate IsCompleted(job: Job, i: nat) { i < |job.execs| && job.execs[i].state.ExecCompleted? }

  predicate IsLimited(job: Job, i: nat, env: Env) { i >= |job.execs| && i in env.limited }

  /** The pass gets beyond workflow `i`. */
  predicate Passes(program: Program, job: Job, i: nat, env: Env)
    requires i < |program|
  {
    || IsCompleted(job, i)
    || (!IsLimited(job, i, env) && Clear(program[i], i, StartOf(job, i), |program[i]|, env))
  }

  /** The pass, now at workflow `i`, raises in workflow `k`. */
  predicate RaisesIn(program: Program, job: Job, i: nat, k: nat, env: Env) {
    && i <= k < |program|
    && (forall j :: i <= j < k ==> Passes(program, job, j, env))
    && !IsCompleted(job, k) && !IsLimited(job, k, env) && RunsInto(program[k], k, StartOf(job, k), env)
  }

  lemma {:induction false} RunActionsOutcome(program: Program, job: Job, i: nat, env: Env)
    requires Midway(program, job, i) && !job.execs[i].state.ExecCompleted?
    ensures var r, k := RunActions(program[i], job, i, job.execs[i].next, env), job.execs[i].next;
      && (r.Raised? <==> RunsInto(program[i], i, k, env))
      && (r.Through? <==> Clear(program[i], i, k, |program[i]|, env))
    decreases |program[i]| - job.execs[i].next
  {
    var actions, k := program[i], job.execs[i].next;
    if k < |actions| {
      CarryOutOk(program, job, i);
      if actions[k].Wait? {
        assert !Clear(actions, i, k, |actions|, env);
      } else if Entry(i, k) in env.failing {
        assert FailsAt(actions, i, k, k, env);
      } else {
        RunActionsOutcome(program, CarryOut(job, i, k), i, env);
        ClearFromNext(actions, i, k, env);
      }
    }
  }

  lemma ClearFromNext(actions: seq<Action>, i: nat, k: nat, env: Env)
    requires k < |actions| && actions[k].Effect? && Entry(i, k) !in env.failing
    ensures Clear(actions, i, k, |actions|, env) <==> Clear(actions, i, k + 1, |actions|, env)
    ensures RunsInto(actions, i, k, env) <==> RunsInto(actions, i, k + 1, env)
  {
    if RunsInto(actions, i, k, env) {
      var m :| k <= m < |actions| && FailsAt(actions, i, k, m, env);
      assert FailsAt(actions, i, k + 1, m, env);
    }
    if RunsInto(actions, i, k + 1, env) {
      var m :| k + 1 <= m < |actions| && FailsAt(actions, i, k + 1, m, env);
      assert FailsAt(actions, i, k, m, env);
    }
  }

  lemma RunOneOutcome(program: Program, job: Job, i: nat, env: Env)
    requires Between(program, job, i) && i < |program| && !IsCompleted(job, i)
    ensures var r := RunOne(program, job, i, env);
      && (r.Raised? <==> RunsInto(program[i], i, StartOf(job, i), env))
      && (r.Through? <==> Clear(program[i], i, StartOf(job, i), |program[i]|, env))
      && (r.Through? ==> SameFrom(job, r.job, i + 1))
  {
    OpenOk(program, job, i);
    var started := Open(job, i);
    RunActionsOutcome(program, started, i, env);
    RunActionsKeepsSize(program[i], started, i, started.execs[i].next, env);
  }

  /** Nothing has happened yet to the workflows from `i` on. */
  predicate SameFrom(a: Job, b: Job, i: nat) {
    && (|a.execs| == |b.execs| || (|a.execs| <= i && |b.execs| <= i))
    && (forall j :: i <= j < |a.execs| && j < |b.execs| ==> a.execs[j] == b.execs[j])
  }

  lemma RaisesInSame(program: Program, a: Job, b: Job, i: nat, k: nat, env: Env)
    requires SameFrom(a, b, i)
    ensures RaisesIn(program, a, i, k, env) <==> RaisesIn(program, b, i, k, env)
  {
    assert forall j :: i <= j < |program| ==> (Passes(program, a, j, env) <==> Passes(program, b, j, env));
  }

  lemma RaisesLater(program: Program, job: Job, i: nat, k: nat, env: Env)
    requires i < k && i < |program| && Passes(program, job, i, env)
    ensures RaisesIn(program, job, i, k, env) <==> RaisesIn(program, job, i + 1, k, env)
  {
  }

  ghost predicate Raises(program: Program, job: Job, i: nat, env: Env) {
    exists k :: RaisesIn(program, job, i, k, env)
  }

  lemma RaisesNow(program: Program, job: Job, i: nat, env: Env)
    requires i < |program|
    ensures RaisesIn(program, job, i, i, env) <==>
      !IsCompleted(job, i) && !IsLimited(job, i, env) && RunsInto(program[i], i, StartOf(job, i), env)
    ensures !Passes(program, job, i, env) ==> forall k :: RaisesIn(program, job, i, k, env) ==> k == i
    ensures Passes(program, job, i, env) ==> !RaisesIn(program, job, i, i, env)
  {
    forall k | !Passes(program, job, i, env) && RaisesIn(program, job, i, k, env) ensures k == i {
    }
  }

  lemma RaisesUnfolds(program: Program, job: Job, i: nat, env: Env)
    requires i < |program|
    ensures Raises(program, job, i, env) <==>
      RaisesIn(program, job, i, i, env) || (Passes(program, job, i, env) && Raises(program, job, i + 1, env))
  {
    RaisesNow(program, job, i, env);
    if k: nat :| RaisesIn(program, job, i, k, env) && k > i {
      RaisesLater(program, job, i, k, env);
    }
    if Passes(program, job, i, env) && Raises(program, job, i + 1, env) {
      var k: nat :| RaisesIn(program, job, i + 1, k, env);
      RaisesLater(program, job, i, k, env);
    }
  }

  lemma RaisesSame(program: Program, a: Job, b: Job, i: nat, env: Env)
    requires SameFrom(a, b, i)
    ensures Raises(program, a, i, env) <==> Raises(program, b, i, env)
  {
    forall k ensures RaisesIn(program, a, i, k, env) <==> RaisesIn(program, b, i, k, env) {
      RaisesInSame(program, a, b, i, k, env);
    }
  }

  /** The loop over the workflows raises exactly when one of them runs into a failing action and the pass gets
      that far. */
  lemma {:induction false} RunWorkflowsOutcome(program: Program, job: Job, i: nat, env: Env)
    requires Between(program, job, i)
    ensures RunWorkflows(program, job, i, env).None? <==> Raises(program, job, i, env)
    decreases |program| - i
  {
    if i < |program| {
      RaisesUnfolds(program, job, i, env);
      RaisesNow(program, job, i, env);
      if IsCompleted(job, i) {
        RunWorkflowsOutcome(program, job, i + 1, env);
      } else if !IsLimited(job, i, env) {
        RunOneOk(program, job, i, env);
        RunOneFits(program, job, i, env);
        RunOneOutcome(program, job, i, env);
        var r := RunOne(program, job, i, env);
        if r.Through? {
          RunWorkflowsOutcome(program, r.job, i + 1, env);
          RaisesSame(program, job, r.job, i + 1, env);
        }
      }
    }
  }

  /** The pass raises in workflow `k`. */
  predicate RaisesAt(program: Program, job: Job, k: nat, env: Env) { RaisesIn(program, job, 0, k, env) }

  /** A rollback marks the newest execution, whichever workflow raised. So a Completed execution is reopened if
      and only if it is the newest and the commit fails or the pass raises in a workflow that has no execution
      of its own yet. Nothing a rolled-back pass did stays. */
  lemma RollbackReopensNewest(program: Program, job: Job, env: Env, i: nat)
    requires WellFormed(program, job) && Due(job) && IsCompleted(job, i)
    ensures env.commitFails || Raises(program, job, 0, env) ==>
      Pass(program, job, env).log == job.log && |Pass(program, job, env).execs| == |job.execs|
    ensures !IsCompleted(Pass(program, job, env), i) <==>
      && i == |job.execs| - 1
      && (env.commitFails || exists k :: k >= |job.execs| && RaisesAt(program, job, k, env))
  {
    var started := job.(state := Running);
    RunWorkflowsOutcome(program, started, 0, env);
    RaisesSame(program, started, job, 0, env);
    CompletedStays(program, started, 0, env, i);
    if i == |job.execs| - 1 && Raises(program, job, 0, env) {
      var k: nat :| RaisesIn(program, job, 0, k, env);
      assert forall j :: 0 <= j < |job.execs| ==> IsCompleted(job, j);
      assert RaisesAt(program, job, k, env) && k >= |job.execs|;
    }
  }

  lemma RunOneKeepsCompleted(program: Program, job: Job, m: nat, env: Env, i: nat)
    requires m < |program| && m <= |job.execs| && Fits(program, job.execs)
    requires IsCompleted(job, i) && !IsCompleted(job, m)
    ensures var r := RunOne(program, job, m, env);
      !r.Raised? ==> IsCompleted(r.job, i) && |r.job.execs| >= |job.execs|
  {
    var started := Open(job, m);
    RunActionsKeepsSize(program[m], started, m, started.execs[m].next, env);
  }

  /** A pass that commits leaves Completed executions Completed. */
  lemma {:induction false} CompletedStays(program: Program, job: Job, m: nat, env: Env, i: nat)
    requires Between(program, job, m) && IsCompleted(job, i)
    ensures var r := RunWorkflows(program, job, m, env);
      r.Some? ==> IsCompleted(r.value, i) && |r.value.execs| >= |job.execs|
    decreases |program| - m
  {
    if m < |program| {
      if IsCompleted(job, m) {
        CompletedStays(program, job, m + 1, env, i);
      } else if !IsLimited(job, m, env) {
        RunOneOk(program, job, m, env);
        RunOneFits(program, job, m, env);
        RunOneKeepsCompleted(program, job, m, env, i);
        var r := RunOne(program, job, m, env);
        if r.Through? {
          CompletedStays(program, r.job, m + 1, env, i);
        }
      }
    }
  }

  // ---------------------------------------------------------------- how a pass ends

  /** Some action waits, and nothing before it raises or waits. */
  predicate RunsIntoWait(actions: seq<Action>, i: nat, from: nat, env: Env) {
    exists m :: from <= m < |actions| && WaitsAt(actions, i, from, m, env)
  }

  predicate WaitsAt(actions: seq<Action>, i: nat, from: nat, m: nat, env: Env)
    requires m < |actions|
  {
    Clear(actions, i, from, m, env) && actions[m].Wait?
  }

  /** The pass, now at workflow `i`, gets to workflow `k`. */
  predicate Reaches(program: Program, job: Job, i: nat, k: nat, env: Env) {
    i <= k < |program| && !IsCompleted(job, k) && forall j :: i <= j < k ==> Passes(program, job, j, env)
  }

  predicate StopsAtLimit(program: Program, job: Job, i: nat, k: nat, env: Env) {
    Reaches(program, job, i, k, env) && IsLimited(job, k, env)
  }

  predicate StopsAtWait(program: Program, job: Job, i: nat, k: nat, env: Env) {
    Reaches(program, job, i, k, env) && !IsLimited(job, k, env) && RunsIntoWait(program[k], k, StartOf(job, k), env)
  }

  ghost predicate Limits(program: Program, job: Job, i: nat, env: Env) {
    exists k :: StopsAtLimit(program, job, i, k, env)
  }

  ghost predicate Waits(program: Program, job: Job, i: nat, env: Env) {
    exists k :: StopsAtWait(program, job, i, k, env)
  }

  predicate AllPass(program: Program, job: Job, i: nat, env: Env) {
    forall k :: i <= k < |program| ==> Passes(program, job, k, env)
  }

  /** Each workflow runs through, into a wait or into a failure. */
  lemma {:induction false} ThreeWays(actions: seq<Action>, i: nat, from: nat, env: Env)
    requires from <= |actions|
    ensures
      || Clear(actions, i, from, |actions|, env)
      || RunsIntoWait(actions, i, from, env)
      || RunsInto(actions, i, from, env)
    ensures !(Clear(actions, i, from, |actions|, env) && RunsIntoWait(actions, i, from, env))
    ensures !(Clear(actions, i, from, |actions|, env) && RunsInto(actions, i, from, env))
    ensures !(RunsIntoWait(actions, i, from, env) && RunsInto(actions, i, from, env))
    decreases |actions| - from
  {
    if from < |actions| {
      ThreeWays(actions, i, from + 1, env);
      if actions[from].Wait? {
        assert WaitsAt(actions, i, from, from, env);
      } else if Entry(i, from) in env.failing {
        assert FailsAt(actions, i, from, from, env);
      } else {
        ClearFromNext(actions, i, from, env);
        WaitFromNext(actions, i, from, env);
      }
    }
  }

  lemma WaitFromNext(actions: seq<Action>, i: nat, k: nat, env: Env)
    requires k < |actions| && actions[k].Effect? && Entry(i, k) !in env.failing
    ensures RunsIntoWait(actions, i, k, env) <==> RunsIntoWait(actions, i, k + 1, env)
  {
    if RunsIntoWait(actions, i, k, env) {
      var m :| k <= m < |actions| && WaitsAt(actions, i, k, m, env);
      assert WaitsAt(actions, i, k + 1, m, env);
    }
    if RunsIntoWait(actions, i, k + 1, env) {
      var m :| k + 1 <= m < |actions| && WaitsAt(actions, i, k + 1, m, env);
      assert WaitsAt(actions, i, k, m, env);
    }
  }

  lemma StopsUnfold(program: Program, job: Job, i: nat, env: Env)
    requires i < |program|
    ensures Limits(program, job, i, env) <==>
      || (!IsCompleted(job, i) && IsLimited(job, i, env))
      || (Passes(program, job, i, env) && Limits(program, job, i + 1, env))
    ensures Waits(program, job, i, env) <==>
      || (!IsCompleted(job, i) && !IsLimited(job, i, env) && RunsIntoWait(program[i], i, StartOf(job, i), env))
      || (Passes(program, job, i, env) && Waits(program, job, i + 1, env))
  {
    forall k: nat | k > i
      ensures Reaches(program, job, i, k, env) <==> Passes(program, job, i, env) && Reaches(program, job, i + 1, k, env)
    {
    }
    if Limits(program, job, i, env) {
      var k: nat :| StopsAtLimit(program, job, i, k, env);
      if k > i { assert StopsAtLimit(program, job, i + 1, k, env); }
    }
    if Passes(program, job, i, env) && Limits(program, job, i + 1, env) {
      var k: nat :| StopsAtLimit(program, job, i + 1, k, env);
      assert StopsAtLimit(program, job, i, k, env);
    }
    if !IsCompleted(job, i) && IsLimited(job, i, env) { assert StopsAtLimit(program, job, i, i, env); }
    if Waits(program, job, i, env) {
      var k: nat :| StopsAtWait(program, job, i, k, env);
      if k > i { assert StopsAtWait(program, job, i + 1, k, env); }
    }
    if Passes(program, job, i, env) && Waits(program, job, i + 1, env) {
      var k: nat :| StopsAtWait(program, job, i + 1, k, env);
      assert StopsAtWait(program, job, i, k, env);
    }
    if !IsCompleted(job, i) && !IsLimited(job, i, env) && RunsIntoWait(program[i], i, StartOf(job, i), env) {
      assert StopsAtWait(program, job, i, i, env);
    }
  }

  lemma StopsSame(program: Program, a: Job, b: Job, i: nat, env: Env)
    requires SameFrom(a, b, i)
    ensures Limits(program, a, i, env) <==> Limits(program, b, i, env)
    ensures Waits(program, a, i, env) <==> Waits(program, b, i, env)
    ensures AllPass(program, a, i, env) <==> AllPass(program, b, i, env)
  {
    assert forall j :: i <= j < |program| ==> (Passes(program, a, j, env) <==> Passes(program, b, j, env));
    forall k: nat
      ensures StopsAtLimit(program, a, i, k, env) <==> StopsAtLimit(program, b, i, k, env)
      ensures StopsAtWait(program, a, i, k, env) <==> StopsAtWait(program, b, i, k, env)
    {
    }
  }

  predicate NewestWaits(job: Job) {
    |job.execs| > 0 && job.execs[|job.execs| - 1].state == ExecWaiting
  }

  lemma RunOneStops(program: Program, job: Job, i: nat, env: Env)
    requires Between(program, job, i) && i < |program| && !IsCompleted(job, i)
    ensures var r := RunOne(program, job, i, env);
      r.Paused? ==> r.job.state == Waiting && r.job.attempts == job.attempts && NewestWaits(r.job)
    ensures var r := RunOne(program, job, i, env);
      r.Through? ==> r.job.state == job.state && r.job.attempts == job.attempts
  {
    OpenOk(program, job, i);
    RunActionsStops(program, Open(job, i), i, env);
  }

  lemma {:induction false} RunActionsStops(program: Program, job: Job, i: nat, env: Env)
    requires Midway(program, job, i) && !job.execs[i].state.ExecCompleted?
    ensures var r := RunActions(program[i], job, i, job.execs[i].next, env);
      && (r.Paused? ==> r.job.state == Waiting && r.job.attempts == job.attempts && NewestWaits(r.job))
      && (r.Through? ==> r.job.state == job.state && r.job.attempts == job.attempts)
    decreases |program[i]| - job.execs[i].next
  {
    var k := job.execs[i].next;
    if k < |program[i]| {
      CarryOutOk(program, job, i);
      if !program[i][k].Wait? { RunActionsStops(program, CarryOut(job, i, k), i, env); }
    }
  }

  /** The state a committed pass gives the job, and why. */
  lemma {:induction false} RunWorkflowsEnds(program: Program, job: Job, i: nat, env: Env)
    requires Between(program, job, i) && RunWorkflows(program, job, i, env).Some?
    ensures EndsAs(program, job, i, env, RunWorkflows(program, job, i, env).value)
    decreases |program| - i
  {
    if i < |program| {
      if IsCompleted(job, i) {
        RunWorkflowsEnds(program, job, i + 1, env);
        EndsAsLater(program, job, job, i, env, RunWorkflows(program, job, i, env).value);
      } else if IsLimited(job, i, env) {
        StopsUnfold(program, job, i, env);
        AllPassUnfolds(program, job, i, env);
      } else {
        RunOneOk(program, job, i, env);
        RunOneFits(program, job, i, env);
        RunOneOutcome(program, job, i, env);
        RunOneStops(program, job, i, env);
        var r := RunOne(program, job, i, env);
        if r.Through? {
          RunWorkflowsEnds(program, r.job, i + 1, env);
          EndsAsLater(program, job, r.job, i, env, RunWorkflows(program, job, i, env).value);
        } else {
          StopsUnfold(program, job, i, env);
          AllPassUnfolds(program, job, i, env);
          ThreeWays(program[i], i, StartOf(job, i), env);
        }
      }
    }
  }

  /** The pass, now at workflow `i`, ends with `after`, for the reason that `after.state` tells. */
  ghost predicate EndsAs(program: Program, job: Job, i: nat, env: Env, after: Job) {
    && after.attempts == job.attempts && after.state in {Completed, RateLimited, Waiting}
    && (after.state == Completed <==> AllPass(program, job, i, env))
    && (after.state == RateLimited <==> Limits(program, job, i, env))
    && (after.state == Waiting <==> Waits(program, job, i, env))
    && (after.state == Waiting ==> NewestWaits(after))
  }

  lemma EndsAsLater(program: Program, job: Job, next: Job, i: nat, env: Env, after: Job)
    requires i < |program| && Passes(program, job, i, env) && SameFrom(job, next, i + 1)
    requires job.attempts == next.attempts && EndsAs(program, next, i + 1, env, after)
    ensures EndsAs(program, job, i, env, after)
  {
    StopsUnfold(program, job, i, env);
    AllPassUnfolds(program, job, i, env);
    StopsSame(program, job, next, i + 1, env);
  }

  lemma AllPassUnfolds(program: Program, job: Job, i: nat, env: Env)
    requires i < |program|
    ensures AllPass(program, job, i, env) <==> Passes(program, job, i, env) && AllPass(program, job, i + 1, env)
  {
  }

  /** How a pass over a due job ends, exactly. If the commit fails or some workflow raises, it is rolled back: the
      job is Dead at the fifth attempt and in Retry before that. Otherwise the job is Completed if and only if every
      workflow is completed already or runs through, Rate Limited if and only if the pass gets to a new workflow
      that is limited, and Waiting, with its newest execution, if and only if it gets to a workflow that runs into
      a wait. */
  lemma PassOutcome(program: Program, job: Job, env: Env)
    requires WellFormed(program, job) && Due(job)
    ensures var after, undone := Pass(program, job, env), env.commitFails || Raises(program, job, 0, env);
      && (undone ==> after.state == (if job.attempts == 4 then Dead else Retry) && after.attempts == job.attempts + 1)
      && (!undone ==>
            && after.attempts == job.attempts && after.state in {Completed, RateLimited, Waiting}
            && (after.state == Completed <==> AllPass(program, job, 0, env))
            && (after.state == RateLimited <==> Limits(program, job, 0, env))
            && (after.state == Waiting <==> Waits(program, job, 0, env))
            && (after.state == Waiting ==> NewestWaits(after)))
  {
    var started := job.(state := Running);
    RunWorkflowsOutcome(program, started, 0, env);
    RaisesSame(program, started, job, 0, env);
    StopsSame(program, started, job, 0, env);
    if RunWorkflows(program, started, 0, env).Some? { RunWorkflowsEnds(program, started, 0, env); }
  }

  /** A job is taken up exactly in these states, and left alone in the others. */
  lemma DueExactly(program: Program, job: Job, env: Env)
    requires WellFormed(program, job)
    ensures Due(job) <==> job.state == Pending || job.state == Retry || job.state == Waiting || job.state == RateLimited
    ensures !Due(job) ==> Pass(program, job, env) == job
  {
  }

  // ---------------------------------------------------------------- jobs come to an end

  predicate IsWait(program: Program, e: Entry) {
    e.workflow < |program| && e.action < |program[e.workflow]| && program[e.workflow][e.action].Wait?
  }

  function WaitsDone(program: Program, log: seq<Entry>): nat {
    if log == [] then 0 else WaitsDone(program, log[..|log| - 1]) + (if IsWait(program, log[|log| - 1]) then 1 else 0)
  }

  lemma {:induction false} WaitsGrow(program: Program, a: seq<Entry>, b: seq<Entry>)
    requires a <= b
    ensures WaitsDone(program, a) <= WaitsDone(program, b)
    ensures |a| < |b| && IsWait(program, b[|b| - 1]) ==> WaitsDone(program, a) < WaitsDone(program, b)
    decreases |b|
  {
    if |a| < |b| {
      var c := b[..|b| - 1];
      assert a <= c;
      WaitsGrow(program, a, c);
    } else {
      assert a == b;
    }
  }

  /** Waits the job has still before it. */
  function WaitsLeft(program: Program, job: Job): nat
    requires job.log <= StraightLine(program, |program|)
  {
    WaitsGrow(program, job.log, StraightLine(program, |program|));
    WaitsDone(program, StraightLine(program, |program|)) - WaitsDone(program, job.log)
  }

  predicate Quiet(env: Env) { env.failing == {} && env.limited == {} && !env.commitFails }

  lemma {:induction false} PausedEndsInWait(program: Program, job: Job, i: nat, env: Env)
    requires Midway(program, job, i) && !job.execs[i].state.ExecCompleted?
    ensures var r := RunActions(program[i], job, i, job.execs[i].next, env);
      r.Paused? ==> |job.log| < |r.job.log| && IsWait(program, r.job.log[|r.job.log| - 1])
    decreases |program[i]| - job.execs[i].next
  {
    var k := job.execs[i].next;
    if k < |program[i]| {
      CarryOutOk(program, job, i);
      if !program[i][k].Wait? { PausedEndsInWait(program, CarryOut(job, i, k), i, env); }
    }
  }

  /** Something was carried out, and the last thing was a wait. */
  predicate EndsInWait(program: Program, log: seq<Entry>, longer: seq<Entry>) {
    |log| < |longer| && IsWait(program, longer[|longer| - 1])
  }

  lemma RunOneEndsInWait(program: Program, job: Job, i: nat, env: Env)
    requires Between(program, job, i) && i < |program| && !IsCompleted(job, i)
    ensures var r := RunOne(program, job, i, env); r.Paused? ==> EndsInWait(program, job.log, r.job.log)
  {
    OpenOk(program, job, i);
    PausedEndsInWait(program, Open(job, i), i, env);
  }

  lemma {:induction false} WaitingEndsInWait(program: Program, job: Job, i: nat, env: Env)
    requires Between(program, job, i)
    ensures var r := RunWorkflows(program, job, i, env);
      r.Some? && r.value.state == Waiting ==> EndsInWait(program, job.log, r.value.log)
    decreases |program| - i
  {
    if i < |program| {
      if IsCompleted(job, i) {
        WaitingEndsInWait(program, job, i + 1, env);
      } else if !IsLimited(job, i, env) {
        RunOneOk(program, job, i, env);
        RunOneFits(program, job, i, env);
        RunOneEndsInWait(program, job, i, env);
        RunOneStops(program, job, i, env);
        var r := RunOne(program, job, i, env);
        if r.Through? { WaitingEndsInWait(program, r.job, i + 1, env); }
      }
    }
  }

  /** A quiet pass completes the job or gets one wait behind it. */
  lemma QuietPass(program: Program, job: Job, env: Env)
    requires WellFormed(program, job) && Due(job) && Quiet(env)
    ensures var after := Pass(program, job, env);
      && WellFormed(program, after)
      && (after.state == Completed || (after.state == Waiting && WaitsLeft(program, after) < WaitsLeft(program, job)))
  {
    var after := Pass(program, job, env);
    NothingInTheWay(program, job, env);
    PassOutcome(program, job, env);
    PassKeepsWellFormed(program, job, env);
    if after.state == Waiting { WaitingPass(program, job, env); }
    WaitsGrow(program, job.log, after.log);
  }

  lemma NothingInTheWay(program: Program, job: Job, env: Env)
    requires Quiet(env)
    ensures !Raises(program, job, 0, env) && !Limits(program, job, 0, env)
  {
  }

  lemma WaitingPass(program: Program, job: Job, env: Env)
    requires WellFormed(program, job) && Due(job) && Quiet(env) && Pass(program, job, env).state == Waiting
    ensures EndsInWait(program, job.log, Pass(program, job, env).log)
  {
    WaitingEndsInWait(program, job.(state := Running), 0, env);
  }

  /** Once nothing is limited and nothing fails any more, a due job is Completed after at most one pass more than
      it has waits left. */
  lemma {:induction false} QuietJobCompletes(program: Program, job: Job, envs: seq<Env>)
    requires WellFormed(program, job) && (Due(job) || job.state == Completed)
    requires (forall i :: 0 <= i < |envs| ==> Quiet(envs[i])) && |envs| > WaitsLeft(program, job)
    ensures RunPasses(program, job, envs).state == Completed
    decreases envs
  {
    if job.state == Completed {
      CompletedIsFinal(program, job, envs);
    } else {
      QuietPass(program, job, envs[0]);
      var after := Pass(program, job, envs[0]);
      if after.state == Completed {
        CompletedIsFinal(program, after, envs[1..]);
      } else {
        QuietJobCompletes(program, after, envs[1..]);
      }
    }
  }

  /** A new job, in particular, has then carried out the whole straight-line run. */
  lemma NewJobRunsThrough(program: Program, envs: seq<Env>)
    requires forall i :: 0 <= i < |envs| ==> Quiet(envs[i])
    requires |envs| > WaitsDone(program, StraightLine(program, |program|))
    ensures WellFormed(program, NewJob())
    ensures RunPasses(program, NewJob(), envs).log == StraightLine(program, |program|)
  {
    QuietJobCompletes(program, NewJob(), envs);
    CompletedRanEverything(program, RunPasses(program, NewJob(), envs));
  }

  lemma {:induction false} CompletedIsFinal(program: Program, job: Job, envs: seq<Env>)
    requires WellFormed(program, job) && job.state in {Completed, Dead}
    ensures RunPasses(program, job, envs) == job
    decreases envs
  {
    if envs != [] { CompletedIsFinal(program, job, envs[1..]); }
  }

  // ---------------------------------------------------------------- a reachable instance

  /** Workflow 0 is one action, workflow 1 another. */
  const TWO: Program := [[Effect(0)], [Effect(1)]]

  const LIMITED := Env({}, {1}, false)

  const FAILING := Env({Entry(1, 0)}, {}, false)

  function Failing(n: nat): seq<Env> {
    if n == 0 then [] else [FAILING] + Failing(n - 1)
  }

  /** After `n` failing passes, workflow 0 having run to the end before. */
  function Reopened(n: nat): Job {
    Job(if n >= MAX_ATTEMPTS then Dead else Retry, n,
        [Execution(if n >= MAX_ATTEMPTS then ExecFailed else ExecRetry, 1, {0})], [Entry(0, 0)])
  }

  /** Workflow 0 alone. */
  lemma FirstRunsThrough()
    ensures Fits(TWO, [])
    ensures RunOne(TWO, Job(Running, 0, [], []), 0, LIMITED)
      == Through(Job(Running, 0, [Execution(ExecCompleted, 1, {0})], [Entry(0, 0)]))
  {
    var job := Job(Running, 0, [], []);
    var started := Job(Running, 0, [Execution(ExecRunning, 0, {})], []);
    var after := Job(Running, 0, [Execution(ExecRunning, 1, {0})], [Entry(0, 0)]);
    assert Open(job, 0) == started;
    FirstCarriedOut();
    assert RunActions(TWO[0], after, 0, 1, LIMITED) == Through(after);
    assert RunActions(TWO[0], started, 0, 0, LIMITED) == Through(after);
    assert after.execs[0 := after.execs[0].(state := ExecCompleted)] == [Execution(ExecCompleted, 1, {0})];
  }

  lemma FirstCarriedOut()
    ensures CarryOut(Job(Running, 0, [Execution(ExecRunning, 0, {})], []), 0, 0)
      == Job(Running, 0, [Execution(ExecRunning, 1, {0})], [Entry(0, 0)])
  {
    assert {} + {0} == {0} && [] + [Entry(0, 0)] == [Entry(0, 0)];
  }

  lemma LimitedPass()
    ensures WellFormed(TWO, NewJob())
    ensures Pass(TWO, NewJob(), LIMITED) == Job(RateLimited, 0, [Execution(ExecCompleted, 1, {0})], [Entry(0, 0)])
  {
    var job := NewJob().(state := Running);
    var done := Job(Running, 0, [Execution(ExecCompleted, 1, {0})], [Entry(0, 0)]);
    FirstRunsThrough();
    RunOneFits(TWO, job, 0, LIMITED);
    assert RunWorkflows(TWO, done, 1, LIMITED) == Some(done.(state := RateLimited));
  }

  lemma FailingPass(job: Job, n: nat)
    requires WellFormed(TWO, job) && Due(job) && n < MAX_ATTEMPTS
    requires job == Reopened(n) || job == Job(RateLimited, n, [Execution(ExecCompleted, 1, {0})], [Entry(0, 0)])
    ensures Pass(TWO, job, FAILING) == Reopened(n + 1)
  {
    assert RunsInto(TWO[1], 1, 0, FAILING) by { assert FailsAt(TWO[1], 1, 0, 0, FAILING); }
    assert Passes(TWO, job, 0, FAILING);
    assert RaisesIn(TWO, job, 0, 1, FAILING);
    RunWorkflowsOutcome(TWO, job.(state := Running), 0, FAILING);
    RaisesSame(TWO, job, job.(state := Running), 0, FAILING);
  }

  lemma {:induction false} FailingPasses(job: Job, n: nat, more: nat)
    requires WellFormed(TWO, job) && Due(job) && 1 <= more && n + more <= MAX_ATTEMPTS
    requires job == Reopened(n) || job == Job(RateLimited, n, [Execution(ExecCompleted, 1, {0})], [Entry(0, 0)])
    ensures RunPasses(TWO, job, Failing(more)) == Reopened(n + more)
    decreases more
  {
    FailingPass(job, n);
    PassKeepsWellFormed(TWO, job, FAILING);
    var envs := Failing(more);
    assert envs[1..] == Failing(more - 1);
    if more > 1 {
      FailingPasses(Reopened(n + 1), n + 1, more - 1);
    }
  }

  /** A reachable instance: workflow 0 runs to the end, workflow 1 is rate limited and then fails in every pass.
      The Completed execution of workflow 0 is back in Retry after one failure and Failed after five. */
  lemma OtherWorkflowFailsIt(n: nat)
    requires 1 <= n <= MAX_ATTEMPTS
    ensures WellFormed(TWO, NewJob())
    ensures IsCompleted(RunPasses(TWO, NewJob(), [LIMITED]), 0)
    ensures RunPasses(TWO, NewJob(), [LIMITED] + Failing(n)) == Reopened(n)
  {
    LimitedPass();
    PassKeepsWellFormed(TWO, NewJob(), LIMITED);
    var job := Pass(TWO, NewJob(), LIMITED);
    assert [LIMITED][1..] == [] && RunPasses(TWO, job, []) == job;
    assert ([LIMITED] + Failing(n))[1..] == Failing(n);
    FailingPasses(job, 0, n);
  }
}
