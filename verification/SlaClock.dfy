/** The SLA clock of one record, with and without a business schedule (app.py: attach_slas,
    retarget_slas, sync_slas, process_sla_breaches). Times are whole seconds on the
    schedule's wall clock. */
module SlaClock {
  import opened Outcomes
  import BusinessTime

  datatype Schedule = Schedule(calendar: BusinessTime.Calendar, holidays: set<int>)

  /** A definition without a priority, or with an empty one, applies to every priority: `priority` is None. */
  datatype DefinitionRow = DefinitionRow(
    priority: Option<string>, minutes: nat, pauseStates: set<string>, schedule: Option<Schedule>)

  /** A scheduled definition has a duration, and a calendar for which its deadlines exist. */
  predicate HasDeadlines(d: DefinitionRow) {
    d.schedule.Some? ==>
      && d.minutes >= 1
      && BusinessTime.ValidCalendar(d.schedule.value.calendar)
      && BusinessTime.HoldsAMinute(d.schedule.value.calendar)
  }

  type Definition = d: DefinitionRow | HasDeadlines(d) witness DefinitionRow(None, 0, {}, None)

  /** When an SLA that starts at `started` and never pauses is due: after its duration in business minutes, or
      on the wall clock without a schedule. */
  function Target(d: Definition, started: int): int {
    if d.schedule.None? then started + d.minutes * 60
    else
      BusinessTime.Due(d.schedule.value.calendar, d.schedule.value.holidays, BusinessTime.Truncated(started), d.minutes)
  }

  datatype Stage = InProgress | Paused | Completed | Cancelled

  datatype TaskSla = TaskSla(
    definition: nat, stage: Stage, startedAt: int, breachAt: int,
    pausedAt: Option<int>, pausedSeconds: int, breached: bool)

  /** `breaches` lists the row of each Breached event that was recorded. */
  datatype Clock = Clock(now: int, slas: seq<TaskSla>, breaches: seq<nat>)

  const CANCELLING: set<string> := {"Cancelled", "Rejected"}
  const COMPLETING: set<string> :=
    {"Resolved", "Closed", "Completed", "Closed Complete", "Closed Incomplete", "Closed Skipped", "Solved"}

  predicate Running(row: TaskSla) { row.stage.InProgress? || row.stage.Paused? }

  predicate Known(defs: seq<Definition>, slas: seq<TaskSla>) {
    forall i :: 0 <= i < |slas| ==> slas[i].definition < |defs|
  }

  // ---------------------------------------------------------------- steps on values

  function PauseSoFar(row: TaskSla, now: int): int {
    if row.pausedAt.Some? then now - row.pausedAt.value else 0
  }

  function SyncRow(d: Definition, row: TaskSla, state: string, now: int): TaskSla {
    if !Running(row) then row
    else if state in CANCELLING then row.(stage := Cancelled)
    else if state in COMPLETING then row.(stage := Completed)
    else if state in d.pauseStates && row.stage.InProgress? then row.(stage := Paused, pausedAt := Some(now))
    else if state !in d.pauseStates && row.stage.Paused? then
      var paused := PauseSoFar(row, now);
      row.(stage := InProgress, pausedAt := None,
           pausedSeconds := row.pausedSeconds + paused, breachAt := row.breachAt + paused)
    else row
  }

  function Sync(defs: seq<Definition>, slas: seq<TaskSla>, state: string, now: int): (r: seq<TaskSla>)
    requires Known(defs, slas)
    ensures |r| == |slas| && forall i :: 0 <= i < |r| ==> r[i] == SyncRow(defs[slas[i].definition], slas[i], state, now)
  {
    seq(|slas|, i requires 0 <= i < |slas| => SyncRow(defs[slas[i].definition], slas[i], state, now))
  }

  predicate Wanted(defs: seq<Definition>, slas: seq<TaskSla>, d: nat, priority: Option<string>)
    requires d < |defs|
  {
    && (defs[d].priority.None? || defs[d].priority == priority)
    && !(exists i :: 0 <= i < |slas| && slas[i].definition == d && !slas[i].stage.Cancelled?)
  }

  function NewRow(defs: seq<Definition>, d: nat, started: int): TaskSla
    requires d < |defs|
  {
    TaskSla(d, InProgress, started, Target(defs[d], started), None, 0, false)
  }

  /** The definitions from `d` on. */
  function Attach(
    defs: seq<Definition>, slas: seq<TaskSla>, d: nat, priority: Option<string>, started: int): seq<TaskSla>
    requires d <= |defs|
    decreases |defs| - d
  {
    if d == |defs| then slas
    else
      var more := if Wanted(defs, slas, d, priority) then slas + [NewRow(defs, d, started)] else slas;
      Attach(defs, more, d + 1, priority, started)
  }

  predicate IsReplaced(defs: seq<Definition>, row: TaskSla, priority: Option<string>)
    requires row.definition < |defs|
  {
    Running(row) && defs[row.definition].priority.Some? && defs[row.definition].priority != priority
  }

  /** The rows among the first `n` that the new priority replaces. */
  function Replaced(defs: seq<Definition>, slas: seq<TaskSla>, priority: Option<string>, n: nat): (r: seq<nat>)
    requires Known(defs, slas) && n <= |slas|
    ensures forall k :: 0 <= k < |r| ==> r[k] < n && IsReplaced(defs, slas[r[k]], priority)
    ensures forall i :: 0 <= i < n && IsReplaced(defs, slas[i], priority) ==> i in r
  {
    if n == 0 then []
    else Replaced(defs, slas, priority, n - 1) + (if IsReplaced(defs, slas[n - 1], priority) then [n - 1] else [])
  }

  function PausedTotal(row: TaskSla, now: int): int {
    row.pausedSeconds + (if row.stage.Paused? then PauseSoFar(row, now) else 0)
  }

  function EarliestStart(slas: seq<TaskSla>, rows: seq<nat>): (r: int)
    requires rows != [] && forall k :: 0 <= k < |rows| ==> rows[k] < |slas|
    ensures exists k :: 0 <= k < |rows| && slas[rows[k]].startedAt == r
    ensures forall k :: 0 <= k < |rows| ==> r <= slas[rows[k]].startedAt
  {
    var first := slas[rows[0]].startedAt;
    if |rows| == 1 then first
    else
      var rest := EarliestStart(slas, rows[1..]);
      assert forall k :: 1 <= k < |rows| ==> rows[k] == rows[1..][k - 1];
      if first < rest then first else rest
  }

  function LongestPause(slas: seq<TaskSla>, rows: seq<nat>, now: int): (r: int)
    requires rows != [] && forall k :: 0 <= k < |rows| ==> rows[k] < |slas|
    ensures exists k :: 0 <= k < |rows| && PausedTotal(slas[rows[k]], now) == r
    ensures forall k :: 0 <= k < |rows| ==> PausedTotal(slas[rows[k]], now) <= r
  {
    var first := PausedTotal(slas[rows[0]], now);
    if |rows| == 1 then first
    else
      var rest := LongestPause(slas, rows[1..], now);
      assert forall k :: 1 <= k < |rows| ==> rows[k] == rows[1..][k - 1];
      if first > rest then first else rest
  }

  function CancelReplaced(defs: seq<Definition>, slas: seq<TaskSla>, priority: Option<string>): (r: seq<TaskSla>)
    requires Known(defs, slas)
    ensures |r| == |slas|
    ensures forall i :: 0 <= i < |r| ==>
      r[i] == if IsReplaced(defs, slas[i], priority) then slas[i].(stage := Cancelled) else slas[i]
  {
    seq(|slas|, i requires 0 <= i < |slas| =>
      if IsReplaced(defs, slas[i], priority) then slas[i].(stage := Cancelled) else slas[i])
  }

  function WithPause(row: TaskSla, paused: int): TaskSla {
    if paused == 0 then row else row.(pausedSeconds := paused, breachAt := row.breachAt + paused)
  }

  /** The rows from index `first` on take over the paused time. */
  function CarryOver(slas: seq<TaskSla>, first: nat, paused: int): (r: seq<TaskSla>)
    ensures |r| == |slas|
    ensures forall i :: 0 <= i < |r| ==> r[i] == if i >= first then WithPause(slas[i], paused) else slas[i]
  {
    seq(|slas|, i requires 0 <= i < |slas| => if i >= first then WithPause(slas[i], paused) else slas[i])
  }

  /** Retargeting up to, but not including, the final `sync_slas`. */
  function Replace(defs: seq<Definition>, slas: seq<TaskSla>, priority: Option<string>, now: int): seq<TaskSla>
    requires Known(defs, slas)
  {
    var rows := Replaced(defs, slas, priority, |slas|);
    if rows == [] then slas
    else
      var attached := Attach(defs, CancelReplaced(defs, slas, priority), 0, priority, EarliestStart(slas, rows));
      CarryOver(attached, |slas|, LongestPause(slas, rows, now))
  }

  lemma {:induction false} AttachKnown(
    defs: seq<Definition>, slas: seq<TaskSla>, d: nat, priority: Option<string>, started: int)
    requires d <= |defs| && Known(defs, slas)
    ensures var r := Attach(defs, slas, d, priority, started);
      && Known(defs, r) && slas <= r
      && forall i :: |slas| <= i < |r| ==> r[i] == NewRow(defs, r[i].definition, started)
    decreases |defs| - d
  {
    if d < |defs| {
      var more := if Wanted(defs, slas, d, priority) then slas + [NewRow(defs, d, started)] else slas;
      AttachKnown(defs, more, d + 1, priority, started);
    }
  }

  lemma ReplaceKnown(defs: seq<Definition>, slas: seq<TaskSla>, priority: Option<string>, now: int)
    requires Known(defs, slas)
    ensures Known(defs, Replace(defs, slas, priority, now)) && |Replace(defs, slas, priority, now)| >= |slas|
  {
    var rows := Replaced(defs, slas, priority, |slas|);
    if rows != [] {
      AttachKnown(defs, CancelReplaced(defs, slas, priority), 0, priority, EarliestStart(slas, rows));
    }
  }

  function Retarget(
    defs: seq<Definition>, slas: seq<TaskSla>, priority: Option<string>, state: string, now: int): seq<TaskSla>
    requires Known(defs, slas)
  {
    ReplaceKnown(defs, slas, priority, now);
    if Replaced(defs, slas, priority, |slas|) == [] then slas
    else Sync(defs, Replace(defs, slas, priority, now), state, now)
  }

  predicate Breachable(row: TaskSla, now: int) {
    row.stage.InProgress? && !row.breached && row.breachAt <= now
  }

  // ---------------------------------------------------------------- the record's rows, updated in place

  class RecordSlas {
    var slas: seq<TaskSla>

    constructor ()
      ensures slas == []
    {
      slas := [];
    }

    method SyncSlas(defs: seq<Definition>, state: string, now: int)
      requires Known(defs, slas)
      modifies this
      ensures slas == Sync(defs, old(slas), state, now)
    {
      for i := 0 to |slas|
        invariant |slas| == |old(slas)|
        invariant forall j :: i <= j < |slas| ==> slas[j] == old(slas)[j]
        invariant forall j :: 0 <= j < i ==> slas[j] == SyncRow(defs[old(slas)[j].definition], old(slas)[j], state, now)
      {
        var row, pauses := slas[i], defs[slas[i].definition].pauseStates;
        if row.stage.Completed? || row.stage.Cancelled? {
          continue;
        }
        if state in CANCELLING {
          row := row.(stage := Cancelled);
        } else if state in COMPLETING {
          row := row.(stage := Completed);
        } else if state in pauses && row.stage.InProgress? {
          row := row.(stage := Paused, pausedAt := Some(now));
        } else if state !in pauses && row.stage.Paused? {
          var paused := PauseSoFar(row, now);
          row := row.(pausedSeconds := row.pausedSeconds + paused);
          row := row.(breachAt := row.breachAt + paused);
          row := row.(stage := InProgress, pausedAt := None);
        }
        slas := slas[i := row];
      }
      assert slas == Sync(defs, old(slas), state, now);
    }

    method AttachSlas(defs: seq<Definition>, priority: Option<string>, started: int)
      requires Known(defs, slas)
      modifies this
      ensures slas == Attach(defs, old(slas), 0, priority, started)
      ensures Known(defs, slas)
    {
      for d := 0 to |defs|
        invariant Known(defs, slas)
        invariant Attach(defs, old(slas), 0, priority, started) == Attach(defs, slas, d, priority, started)
      {
        if Wanted(defs, slas, d, priority) {
          slas := slas + [NewRow(defs, d, started)];
        }
      }
    }

    method RetargetSlas(defs: seq<Definition>, priority: Option<string>, state: string, now: int)
      requires Known(defs, slas)
      modifies this
      ensures slas == Retarget(defs, old(slas), priority, state, now)
    {
      ghost var before := slas;
      ReplaceKnown(defs, before, priority, now);
      var rows := Replaced(defs, slas, priority, |slas|);
      if rows == [] {
        return;
      }
      var started, paused, count := EarliestStart(slas, rows), LongestPause(slas, rows, now), |slas|;
      slas := CancelReplaced(defs, slas, priority);
      AttachSlas(defs, priority, started);
      slas := CarryOver(slas, count, paused);
      SyncSlas(defs, state, now);
    }

    /** The breach worker's loop; returns the rows it recorded a Breached event for. */
    method ProcessBreaches(now: int, picked: set<nat>) returns (flagged: seq<nat>)
      modifies this
      ensures Clock(now, slas, flagged) == FlagBreaches(Clock(now, old(slas), []), picked)
    {
      flagged := [];
      ghost var before := Clock(now, slas, []);
      for i := 0 to |slas|
        invariant |slas| == |before.slas|
        invariant forall j :: 0 <= j < i ==> slas[j] == FlagRow(before, picked, j)
        invariant forall j :: i <= j < |slas| ==> slas[j] == before.slas[j]
        invariant flagged == FlaggedRows(before, picked, i)
      {
        if i in picked && Breachable(slas[i], now) {
          slas := slas[i := slas[i].(breached := true)];
          flagged := flagged + [i];
        }
      }
      assert slas == FlagBreaches(before, picked).slas;
      assert before.breaches + flagged == flagged;
    }
  }

  // ---------------------------------------------------------------- runs and an independent stopwatch

  datatype Op =
    | Tick(seconds: nat)
    | AttachOp(priority: Option<string>)
    | SyncOp(state: string)
    | RetargetOp(priority: Option<string>, state: string)
    | BreachOp(picked: set<nat>)

  predicate Flagged(c: Clock, picked: set<nat>, n: nat, i: int)
    requires n <= |c.slas|
  {
    0 <= i < n && i in picked && Breachable(c.slas[i], c.now)
  }

  /** The rows among the first `n` that get flagged, in order. */
  function FlaggedRows(c: Clock, picked: set<nat>, n: nat): seq<nat>
    requires n <= |c.slas|
  {
    if n == 0 then []
    else FlaggedRows(c, picked, n - 1) + (if Flagged(c, picked, n, n - 1) then [n - 1] else [])
  }

  /** Flags the picked rows that are due; the worker's batch limit decides which rows it picks. */
  function FlagBreaches(c: Clock, picked: set<nat>): (r: Clock)
    ensures r.now == c.now && |r.slas| == |c.slas|
    ensures forall i :: 0 <= i < |c.slas| ==> r.slas[i] == FlagRow(c, picked, i)
  {
    Clock(c.now, seq(|c.slas|, i requires 0 <= i < |c.slas| => FlagRow(c, picked, i)),
      c.breaches + FlaggedRows(c, picked, |c.slas|))
  }

  function FlagRow(c: Clock, picked: set<nat>, i: nat): TaskSla
    requires i < |c.slas|
  {
    if Flagged(c, picked, |c.slas|, i) then c.slas[i].(breached := true) else c.slas[i]
  }

  lemma {:induction false} CountFlagged(c: Clock, picked: set<nat>, n: nat, i: int)
    requires n <= |c.slas|
    ensures Count(FlaggedRows(c, picked, n), i) == if Flagged(c, picked, n, i) then 1 else 0
    decreases n
  {
    if n > 0 {
      CountFlagged(c, picked, n - 1, i);
      CountAppend(FlaggedRows(c, picked, n - 1), if Flagged(c, picked, n, n - 1) then [n - 1] else [], i);
      assert [n - 1][..0] == [];
    }
  }

  lemma {:induction false} CountAppend(xs: seq<nat>, ys: seq<nat>, x: int)
    ensures Count(xs + ys, x) == Count(xs, x) + Count(ys, x)
    decreases ys
  {
    if ys == [] {
      assert xs + ys == xs;
    } else {
      var n := |ys| - 1;
      assert (xs + ys)[..|xs| + n] == xs + ys[..n];
      CountAppend(xs, ys[..n], x);
    }
  }

  function Count(xs: seq<nat>, x: int): nat {
    if xs == [] then 0 else Count(xs[..|xs| - 1], x) + (if xs[|xs| - 1] == x then 1 else 0)
  }

  function AttachStep(defs: seq<Definition>, slas: seq<TaskSla>, priority: Option<string>, now: int): (r: seq<TaskSla>)
    requires Known(defs, slas)
    ensures Known(defs, r) && |r| >= |slas|
  {
    AttachKnown(defs, slas, 0, priority, now);
    Attach(defs, slas, 0, priority, now)
  }

  function RetargetStep(
    defs: seq<Definition>, slas: seq<TaskSla>, priority: Option<string>, state: string, now: int): (r: seq<TaskSla>)
    requires Known(defs, slas)
    ensures Known(defs, r) && |r| >= |slas|
  {
    ReplaceKnown(defs, slas, priority, now);
    SyncKnown(defs, Replace(defs, slas, priority, now), state, now);
    Retarget(defs, slas, priority, state, now)
  }

  lemma SyncKnown(defs: seq<Definition>, slas: seq<TaskSla>, state: string, now: int)
    requires Known(defs, slas)
    ensures Known(defs, Sync(defs, slas, state, now))
  {
    var r := Sync(defs, slas, state, now);
    forall i | 0 <= i < |r| ensures r[i].definition < |defs| {
      assert r[i].definition == slas[i].definition;
    }
  }

  lemma FlagKnown(defs: seq<Definition>, c: Clock, picked: set<nat>)
    requires Known(defs, c.slas)
    ensures Known(defs, FlagBreaches(c, picked).slas)
  {
    var r := FlagBreaches(c, picked).slas;
    forall i | 0 <= i < |r| ensures r[i].definition < |defs| {
      assert r[i].definition == c.slas[i].definition;
    }
  }

  function Step(defs: seq<Definition>, c: Clock, op: Op): (r: Clock)
    requires Known(defs, c.slas)
    ensures Known(defs, r.slas) && |r.slas| >= |c.slas|
  {
    match op
    case Tick(seconds) => c.(now := c.now + seconds)
    case AttachOp(priority) => c.(slas := AttachStep(defs, c.slas, priority, c.now))
    case SyncOp(state) =>
      SyncKnown(defs, c.slas, state, c.now);
      c.(slas := Sync(defs, c.slas, state, c.now))
    case RetargetOp(priority, state) => c.(slas := RetargetStep(defs, c.slas, priority, state, c.now))
    case BreachOp(picked) =>
      FlagKnown(defs, c, picked);
      FlagBreaches(c, picked)
  }

  /** Seconds each row has really spent In Progress, kept by a stopwatch that only sees time pass. A row
      that replaces several others may take over any of their readings, hence bounds. */
  datatype Watch = Watch(low: seq<int>, high: seq<int>)

  function Least(xs: seq<int>, rows: seq<nat>): (r: int)
    requires rows != [] && forall k :: 0 <= k < |rows| ==> rows[k] < |xs|
    ensures exists k :: 0 <= k < |rows| && xs[rows[k]] == r
    ensures forall k :: 0 <= k < |rows| ==> r <= xs[rows[k]]
  {
    if |rows| == 1 then xs[rows[0]]
    else
      var rest := Least(xs, rows[1..]);
      assert forall k :: 1 <= k < |rows| ==> rows[k] == rows[1..][k - 1];
      if xs[rows[0]] < rest then xs[rows[0]] else rest
  }

  function Most(xs: seq<int>, rows: seq<nat>): (r: int)
    requires rows != [] && forall k :: 0 <= k < |rows| ==> rows[k] < |xs|
    ensures exists k :: 0 <= k < |rows| && xs[rows[k]] == r
    ensures forall k :: 0 <= k < |rows| ==> r >= xs[rows[k]]
  {
    if |rows| == 1 then xs[rows[0]]
    else
      var rest := Most(xs, rows[1..]);
      assert forall k :: 1 <= k < |rows| ==> rows[k] == rows[1..][k - 1];
      if xs[rows[0]] > rest then xs[rows[0]] else rest
  }

  function Extend(xs: seq<int>, n: nat, reading: int): (r: seq<int>)
    ensures |r| == (if n > |xs| then n else |xs|) && xs <= r && forall i :: |xs| <= i < |r| ==> r[i] == reading
    decreases n - |xs|
  {
    if n <= |xs| then xs else Extend(xs + [reading], n, reading)
  }

  function Advance(xs: seq<int>, slas: seq<TaskSla>, seconds: nat): (r: seq<int>)
    requires |xs| == |slas|
    ensures |r| == |xs| && forall i :: 0 <= i < |r| ==>
      r[i] == xs[i] + (if slas[i].stage.InProgress? then seconds else 0)
  {
    seq(|xs|, i requires 0 <= i < |xs| => xs[i] + (if slas[i].stage.InProgress? then seconds else 0))
  }

  function WatchStep(defs: seq<Definition>, c: Clock, w: Watch, op: Op): (r: Watch)
    requires Known(defs, c.slas) && |w.low| == |w.high| == |c.slas|
    ensures |r.low| == |r.high| == |Step(defs, c, op).slas|
  {
    var n := |Step(defs, c, op).slas|;
    match op
    case Tick(seconds) => Watch(Advance(w.low, c.slas, seconds), Advance(w.high, c.slas, seconds))
    case AttachOp(_) => Watch(Extend(w.low, n, 0), Extend(w.high, n, 0))
    case RetargetOp(priority, _) =>
      var rows := Replaced(defs, c.slas, priority, |c.slas|);
      if rows == [] then w
      else Watch(Extend(w.low, n, Least(w.low, rows)), Extend(w.high, n, Most(w.high, rows)))
    case _ => w
  }

  // ---------------------------------------------------------------- what every step keeps

  /** Un-paused seconds since the start, as the row tells them. */
  function Active(row: TaskSla, now: int): int {
    now - row.startedAt - PausedTotal(row, now)
  }

  /** The un-paused seconds the target allows from the start on. Without a schedule this is the duration. */
  function Allowance(d: Definition, started: int): int { Target(d, started) - started }

  /** The target follows the start, the duration and the pauses; a row that still runs tells the time the
      stopwatch measured; a breach was flagged no earlier than the duration allows. */
  predicate RowOk(defs: seq<Definition>, row: TaskSla, now: int, low: int, high: int) {
    && row.definition < |defs|
    && row.breachAt == Target(defs[row.definition], row.startedAt) + row.pausedSeconds
    && (row.stage.InProgress? ==> row.pausedAt.None?)
    && (row.stage.Paused? ==> row.pausedAt.Some?)
    && (Running(row) ==> low <= Active(row, now) <= high)
    && (row.breached ==> high >= Allowance(defs[row.definition], row.startedAt))
  }

  predicate RowsOk(defs: seq<Definition>, c: Clock, w: Watch) {
    && |w.low| == |w.high| == |c.slas|
    && (forall i :: 0 <= i < |c.slas| ==> RowOk(defs, c.slas[i], c.now, w.low[i], w.high[i]))
  }

  ghost predicate Inv(defs: seq<Definition>, c: Clock, w: Watch) {
    && RowsOk(defs, c, w)
    && (forall i :: Count(c.breaches, i) == (if 0 <= i < |c.slas| && c.slas[i].breached then 1 else 0))
  }

  lemma SyncRowOk(defs: seq<Definition>, row: TaskSla, state: string, now: int, low: int, high: int)
    requires RowOk(defs, row, now, low, high)
    ensures RowOk(defs, SyncRow(defs[row.definition], row, state, now), now, low, high)
    ensures SyncRow(defs[row.definition], row, state, now).breached == row.breached
  {
  }

  lemma ReplaceOk(defs: seq<Definition>, c: Clock, w: Watch, priority: Option<string>, i: nat)
    requires Known(defs, c.slas) && RowsOk(defs, c, w)
    requires Replaced(defs, c.slas, priority, |c.slas|) != []
    requires i < |Replace(defs, c.slas, priority, c.now)|
    ensures var rows := Replaced(defs, c.slas, priority, |c.slas|);
      var row := Replace(defs, c.slas, priority, c.now)[i];
      if i < |c.slas| then RowOk(defs, row, c.now, w.low[i], w.high[i]) && row.breached == c.slas[i].breached
      else RowOk(defs, row, c.now, Least(w.low, rows), Most(w.high, rows)) && !row.breached
  {
    ReplaceRows(defs, c.slas, priority, c.now, i);
    if i < |c.slas| {
      assert RowOk(defs, c.slas[i], c.now, w.low[i], w.high[i]);
    } else {
      var rows := Replaced(defs, c.slas, priority, |c.slas|);
      InheritedReading(defs, c, w, rows);
      InheritedRowOk(defs, Replace(defs, c.slas, priority, c.now)[i].definition, c.now, EarliestStart(c.slas, rows),
        LongestPause(c.slas, rows, c.now), Least(w.low, rows), Most(w.high, rows));
    }
  }

  lemma InheritedRowOk(defs: seq<Definition>, d: nat, now: int, started: int, paused: int, low: int, high: int)
    requires d < |defs| && low <= now - started - paused <= high
    ensures RowOk(defs, WithPause(NewRow(defs, d, started), paused), now, low, high)
  {
  }

  lemma ReplaceRows(defs: seq<Definition>, slas: seq<TaskSla>, priority: Option<string>, now: int, i: nat)
    requires Known(defs, slas) && Replaced(defs, slas, priority, |slas|) != []
    requires i < |Replace(defs, slas, priority, now)|
    ensures var rows, r := Replaced(defs, slas, priority, |slas|), Replace(defs, slas, priority, now)[i];
      && (i < |slas| ==> r == slas[i] || r == slas[i].(stage := Cancelled))
      && (i >= |slas| ==>
            && r.definition < |defs|
            && r == WithPause(NewRow(defs, r.definition, EarliestStart(slas, rows)), LongestPause(slas, rows, now)))
  {
    var rows := Replaced(defs, slas, priority, |slas|);
    AttachKnown(defs, CancelReplaced(defs, slas, priority), 0, priority, EarliestStart(slas, rows));
  }

  /** The start and the pause time taken over give a reading between those of the replaced rows. */
  lemma InheritedReading(defs: seq<Definition>, c: Clock, w: Watch, rows: seq<nat>)
    requires RowsOk(defs, c, w) && rows != []
    requires forall k :: 0 <= k < |rows| ==> rows[k] < |c.slas| && Running(c.slas[rows[k]])
    ensures var reading := c.now - EarliestStart(c.slas, rows) - LongestPause(c.slas, rows, c.now);
      Least(w.low, rows) <= reading <= Most(w.high, rows)
  {
    var a :| 0 <= a < |rows| && c.slas[rows[a]].startedAt == EarliestStart(c.slas, rows);
    var b :| 0 <= b < |rows| && PausedTotal(c.slas[rows[b]], c.now) == LongestPause(c.slas, rows, c.now);
    assert RowOk(defs, c.slas[rows[a]], c.now, w.low[rows[a]], w.high[rows[a]]);
    assert RowOk(defs, c.slas[rows[b]], c.now, w.low[rows[b]], w.high[rows[b]]);
  }

  lemma ReplacedRowOk(defs: seq<Definition>, c: Clock, w: Watch, priority: Option<string>, state: string, i: nat)
    requires Known(defs, c.slas) && RowsOk(defs, c, w)
    requires Replaced(defs, c.slas, priority, |c.slas|) != []
    requires i < |RetargetStep(defs, c.slas, priority, state, c.now)|
    ensures var rows := Replaced(defs, c.slas, priority, |c.slas|);
      var row := RetargetStep(defs, c.slas, priority, state, c.now)[i];
      if i < |c.slas| then RowOk(defs, row, c.now, w.low[i], w.high[i]) && row.breached == c.slas[i].breached
      else RowOk(defs, row, c.now, Least(w.low, rows), Most(w.high, rows)) && !row.breached
  {
    var rows := Replaced(defs, c.slas, priority, |c.slas|);
    ReplaceKnown(defs, c.slas, priority, c.now);
    ReplaceOk(defs, c, w, priority, i);
    var row := Replace(defs, c.slas, priority, c.now)[i];
    if i < |c.slas| {
      SyncRowOk(defs, row, state, c.now, w.low[i], w.high[i]);
    } else {
      SyncRowOk(defs, row, state, c.now, Least(w.low, rows), Most(w.high, rows));
    }
  }

  lemma RetargetRowOk(defs: seq<Definition>, c: Clock, w: Watch, op: Op, i: nat)
    requires Known(defs, c.slas) && RowsOk(defs, c, w) && op.RetargetOp? && i < |Step(defs, c, op).slas|
    ensures var row, v := Step(defs, c, op).slas[i], WatchStep(defs, c, w, op);
      && RowOk(defs, row, c.now, v.low[i], v.high[i])
      && row.breached == (i < |c.slas| && c.slas[i].breached)
  {
    if Replaced(defs, c.slas, op.priority, |c.slas|) == [] {
      assert RowOk(defs, c.slas[i], c.now, w.low[i], w.high[i]);
    } else {
      ReplacedRowOk(defs, c, w, op.priority, op.state, i);
    }
  }

  lemma BreachRowOk(defs: seq<Definition>, c: Clock, w: Watch, picked: set<nat>, i: nat)
    requires RowsOk(defs, c, w) && i < |c.slas|
    ensures RowOk(defs, FlagRow(c, picked, i), c.now, w.low[i], w.high[i])
  {
    assert RowOk(defs, c.slas[i], c.now, w.low[i], w.high[i]);
  }

  /** The rows themselves. */
  lemma StepKeepsRows(defs: seq<Definition>, c: Clock, w: Watch, op: Op, i: nat)
    requires Known(defs, c.slas) && RowsOk(defs, c, w) && i < |Step(defs, c, op).slas|
    ensures var n, v := Step(defs, c, op), WatchStep(defs, c, w, op); RowOk(defs, n.slas[i], n.now, v.low[i], v.high[i])
  {
    if i < |c.slas| { assert RowOk(defs, c.slas[i], c.now, w.low[i], w.high[i]); }
    match op
    case Tick(_) =>
    case AttachOp(priority) => AttachKnown(defs, c.slas, 0, priority, c.now);
    case SyncOp(state) => SyncRowOk(defs, c.slas[i], state, c.now, w.low[i], w.high[i]);
    case RetargetOp(priority, state) => RetargetRowOk(defs, c, w, op, i);
    case BreachOp(picked) => BreachRowOk(defs, c, w, picked, i);
  }

  /** Which rows are flagged: only the breach worker flags, and only what it picks. */
  lemma StepKeepsFlags(defs: seq<Definition>, c: Clock, w: Watch, op: Op, i: nat)
    requires Known(defs, c.slas) && RowsOk(defs, c, w) && i < |Step(defs, c, op).slas|
    ensures Step(defs, c, op).slas[i].breached ==
      (i < |c.slas| && (c.slas[i].breached || (op.BreachOp? && Flagged(c, op.picked, |c.slas|, i))))
  {
    match op
    case AttachOp(priority) => AttachKnown(defs, c.slas, 0, priority, c.now);
    case RetargetOp(priority, state) => RetargetRowOk(defs, c, w, op, i);
    case _ =>
  }

  lemma StepKeepsInv(defs: seq<Definition>, c: Clock, w: Watch, op: Op)
    requires Known(defs, c.slas) && Inv(defs, c, w)
    ensures Inv(defs, Step(defs, c, op), WatchStep(defs, c, w, op))
  {
    var n, v := Step(defs, c, op), WatchStep(defs, c, w, op);
    forall i | 0 <= i < |n.slas| ensures RowOk(defs, n.slas[i], n.now, v.low[i], v.high[i]) {
      StepKeepsRows(defs, c, w, op, i);
    }
    forall i ensures Count(n.breaches, i) == (if 0 <= i < |n.slas| && n.slas[i].breached then 1 else 0) {
      if 0 <= i < |n.slas| { StepKeepsFlags(defs, c, w, op, i); }
      if op.BreachOp? {
        CountAppend(c.breaches, FlaggedRows(c, op.picked, |c.slas|), i);
        CountFlagged(c, op.picked, |c.slas|, i);
      }
    }
  }

  /** No definition has two rows that are not cancelled. */
  predicate OnePerDefinition(slas: seq<TaskSla>) {
    forall i, j :: 0 <= i < j < |slas| && !slas[i].stage.Cancelled? && !slas[j].stage.Cancelled? ==>
      slas[i].definition != slas[j].definition
  }

  /** Attaching gives every definition that applies exactly one row that is not cancelled. */
  lemma {:induction false} AttachOncePerDefinition(
    defs: seq<Definition>, slas: seq<TaskSla>, d: nat, priority: Option<string>, started: int)
    requires d <= |defs| && OnePerDefinition(slas)
    ensures OnePerDefinition(Attach(defs, slas, d, priority, started))
    ensures forall k :: d <= k < |defs| && (defs[k].priority.None? || defs[k].priority == priority) ==>
      HasRow(Attach(defs, slas, d, priority, started), k)
    ensures forall k :: HasRow(slas, k) ==> HasRow(Attach(defs, slas, d, priority, started), k)
    decreases |defs| - d
  {
    if d < |defs| {
      var more := if Wanted(defs, slas, d, priority) then slas + [NewRow(defs, d, started)] else slas;
      forall k | HasRow(slas, k) ensures HasRow(more, k) {
        var i :| 0 <= i < |slas| && slas[i].definition == k && !slas[i].stage.Cancelled?;
        assert more[i] == slas[i];
      }
      if Wanted(defs, slas, d, priority) {
        assert more[|slas|].definition == d;
      }
      AttachOncePerDefinition(defs, more, d + 1, priority, started);
    }
  }

  predicate HasRow(slas: seq<TaskSla>, d: nat) {
    exists i :: 0 <= i < |slas| && slas[i].definition == d && !slas[i].stage.Cancelled?
  }

  lemma StepOncePerDefinition(defs: seq<Definition>, c: Clock, op: Op)
    requires Known(defs, c.slas) && OnePerDefinition(c.slas)
    ensures OnePerDefinition(Step(defs, c, op).slas)
  {
    match op
    case AttachOp(priority) => AttachOncePerDefinition(defs, c.slas, 0, priority, c.now);
    case SyncOp(state) => SyncOncePerDefinition(defs, c.slas, state, c.now);
    case RetargetOp(priority, state) => RetargetOncePerDefinition(defs, c.slas, priority, state, c.now);
    case _ =>
  }

  lemma RetargetOncePerDefinition(
    defs: seq<Definition>, slas: seq<TaskSla>, priority: Option<string>, state: string, now: int)
    requires Known(defs, slas) && OnePerDefinition(slas)
    ensures OnePerDefinition(Retarget(defs, slas, priority, state, now))
  {
    if Replaced(defs, slas, priority, |slas|) != [] {
      ReplaceKnown(defs, slas, priority, now);
      ReplaceOncePerDefinition(defs, slas, priority, now);
      SyncOncePerDefinition(defs, Replace(defs, slas, priority, now), state, now);
    }
  }

  lemma SyncOncePerDefinition(defs: seq<Definition>, slas: seq<TaskSla>, state: string, now: int)
    requires Known(defs, slas) && OnePerDefinition(slas)
    ensures OnePerDefinition(Sync(defs, slas, state, now))
  {
    var r := Sync(defs, slas, state, now);
    forall i | 0 <= i < |r|
      ensures r[i].definition == slas[i].definition && (slas[i].stage.Cancelled? ==> r[i].stage.Cancelled?)
    {
      assert r[i] == SyncRow(defs[slas[i].definition], slas[i], state, now);
    }
  }

  lemma ReplaceOncePerDefinition(defs: seq<Definition>, slas: seq<TaskSla>, priority: Option<string>, now: int)
    requires Known(defs, slas) && OnePerDefinition(slas) && Replaced(defs, slas, priority, |slas|) != []
    ensures OnePerDefinition(Replace(defs, slas, priority, now))
  {
    var rows := Replaced(defs, slas, priority, |slas|);
    var cancelled := CancelReplaced(defs, slas, priority);
    assert OnePerDefinition(cancelled);
    AttachOncePerDefinition(defs, cancelled, 0, priority, EarliestStart(slas, rows));
    var attached := Attach(defs, cancelled, 0, priority, EarliestStart(slas, rows));
    var r := CarryOver(attached, |slas|, LongestPause(slas, rows, now));
    assert forall i :: 0 <= i < |r| ==> r[i].definition == attached[i].definition && r[i].stage == attached[i].stage;
  }

  function Run(defs: seq<Definition>, c: Clock, ops: seq<Op>): (r: Clock)
    requires Known(defs, c.slas)
    ensures Known(defs, r.slas)
    decreases ops
  {
    if ops == [] then c else Run(defs, Step(defs, c, ops[0]), ops[1..])
  }

  function RunWatch(defs: seq<Definition>, c: Clock, w: Watch, ops: seq<Op>): (r: Watch)
    requires Known(defs, c.slas) && |w.low| == |w.high| == |c.slas|
    ensures |r.low| == |r.high| == |Run(defs, c, ops).slas|
    decreases ops
  {
    if ops == [] then w else RunWatch(defs, Step(defs, c, ops[0]), WatchStep(defs, c, w, ops[0]), ops[1..])
  }

  lemma {:induction false} EveryRunKeepsInv(defs: seq<Definition>, c: Clock, w: Watch, ops: seq<Op>)
    requires Known(defs, c.slas) && Inv(defs, c, w) && OnePerDefinition(c.slas)
    ensures Inv(defs, Run(defs, c, ops), RunWatch(defs, c, w, ops)) && OnePerDefinition(Run(defs, c, ops).slas)
    decreases ops
  {
    if ops != [] {
      StepOncePerDefinition(defs, c, ops[0]);
      StepKeepsInv(defs, c, w, ops[0]);
      EveryRunKeepsInv(defs, Step(defs, c, ops[0]), WatchStep(defs, c, w, ops[0]), ops[1..]);
    }
  }

  /** What the target means: the duration on the wall clock, or with a schedule the earliest time by which that
      many whole business minutes fit into opening hours. */
  ghost predicate IsTarget(d: Definition, started: int, x: int) {
    if d.schedule.None? then x == started + d.minutes * 60
    else
      BusinessTime.FitsBy(
        d.schedule.value.calendar, d.schedule.value.holidays, BusinessTime.Truncated(started), d.minutes, x)
  }

  lemma TargetIsRight(d: Definition, started: int)
    ensures IsTarget(d, started, Target(d, started))
  {
    if d.schedule.Some? {
      BusinessTime.DueFits(
        d.schedule.value.calendar, d.schedule.value.holidays, BusinessTime.Truncated(started), d.minutes);
    }
  }

  /** The SLA clock over every run, with or without a schedule: the target is always the deadline of the start
      plus the paused time; a running row's own account of un-paused time agrees with the stopwatch; a breach is
      flagged at most once, and only after the stopwatch has reached what the target allows. */
  lemma SlaClockIsRight(defs: seq<Definition>, now: int, ops: seq<Op>)
    ensures var c := Run(defs, Clock(now, [], []), ops);
      var w := RunWatch(defs, Clock(now, [], []), Watch([], []), ops);
      forall i :: 0 <= i < |c.slas| ==>
        && IsTarget(defs[c.slas[i].definition], c.slas[i].startedAt, c.slas[i].breachAt - c.slas[i].pausedSeconds)
        && (Running(c.slas[i]) ==> w.low[i] <= Active(c.slas[i], c.now) <= w.high[i])
        && (forall j :: i < j < |c.slas| && !c.slas[i].stage.Cancelled? && !c.slas[j].stage.Cancelled? ==>
              c.slas[i].definition != c.slas[j].definition)
        && Count(c.breaches, i) <= 1
        && (Count(c.breaches, i) == 1 ==> w.high[i] >= Allowance(defs[c.slas[i].definition], c.slas[i].startedAt))
  {
    var start, watch := Clock(now, [], []), Watch([], []);
    assert Inv(defs, start, watch);
    EveryRunKeepsInv(defs, start, watch, ops);
    var c, w := Run(defs, start, ops), RunWatch(defs, start, watch, ops);
    forall i | 0 <= i < |c.slas|
      ensures RowOk(defs, c.slas[i], c.now, w.low[i], w.high[i])
      ensures IsTarget(defs[c.slas[i].definition], c.slas[i].startedAt, c.slas[i].breachAt - c.slas[i].pausedSeconds)
    {
      TargetIsRight(defs[c.slas[i].definition], c.slas[i].startedAt);
    }
  }

  /** No retarget in the run replaces two running rows at once. */
  predicate SingleReplacements(defs: seq<Definition>, c: Clock, ops: seq<Op>)
    requires Known(defs, c.slas)
    decreases ops
  {
    ops == [] ||
    (&& (ops[0].RetargetOp? ==> |Replaced(defs, c.slas, ops[0].priority, |c.slas|)| <= 1)
     && SingleReplacements(defs, Step(defs, c, ops[0]), ops[1..]))
  }

  /** Then the stopwatch has one reading: retargeting, also in the middle of a pause, neither loses nor
      double-counts a second. */
  lemma {:induction false} SingleReplacementIsExact(defs: seq<Definition>, c: Clock, w: Watch, ops: seq<Op>)
    requires Known(defs, c.slas) && Inv(defs, c, w) && w.low == w.high && SingleReplacements(defs, c, ops)
    ensures var d, v := Run(defs, c, ops), RunWatch(defs, c, w, ops);
      v.low == v.high && forall i :: 0 <= i < |d.slas| && Running(d.slas[i]) ==> Active(d.slas[i], d.now) == v.low[i]
    decreases ops
  {
    if ops != [] {
      StepKeepsInv(defs, c, w, ops[0]);
      var v := WatchStep(defs, c, w, ops[0]);
      assert v.low == v.high;
      SingleReplacementIsExact(defs, Step(defs, c, ops[0]), v, ops[1..]);
    } else {
      forall i | 0 <= i < |c.slas| && Running(c.slas[i]) ensures Active(c.slas[i], c.now) == w.low[i] {
        assert RowOk(defs, c.slas[i], c.now, w.low[i], w.high[i]);
      }
    }
  }

  /** What the breach worker does to a row, exactly: it flags the picked rows that are In Progress, not flagged yet
      and past their target, records one event for each, and changes nothing else. */
  lemma BreachesExactly(defs: seq<Definition>, c: Clock, picked: set<nat>, i: nat)
    requires Known(defs, c.slas) && i < |c.slas|
    ensures var n := Step(defs, c, BreachOp(picked));
      var due := i in picked && c.slas[i].stage == InProgress && !c.slas[i].breached && c.slas[i].breachAt <= c.now;
      && n.now == c.now && |n.slas| == |c.slas|
      && n.slas[i] == c.slas[i].(breached := c.slas[i].breached || due)
      && Count(n.breaches, i) == Count(c.breaches, i) + (if due then 1 else 0)
  {
    CountAppend(c.breaches, FlaggedRows(c, picked, |c.slas|), i);
    CountFlagged(c, picked, |c.slas|, i);
  }

  /** What the record's state does to a running row, exactly. */
  lemma SyncExactly(defs: seq<Definition>, c: Clock, state: string, i: nat)
    requires Known(defs, c.slas) && i < |c.slas| && c.slas[i].stage in {InProgress, Paused}
    requires c.slas[i].stage == Paused ==> c.slas[i].pausedAt.Some?
    ensures var row, after := c.slas[i], Step(defs, c, SyncOp(state)).slas[i];
      var pauses := state in defs[row.definition].pauseStates;
      var ends := state in {"Cancelled", "Rejected"};
      var completes := state in {"Resolved", "Closed", "Completed", "Closed Complete", "Closed Incomplete",
                                 "Closed Skipped", "Solved"};
      && (ends ==> after == row.(stage := Cancelled))
      && (!ends && completes ==> after == row.(stage := Completed))
      && (!ends && !completes && pauses && row.stage == InProgress ==>
            after == row.(stage := Paused, pausedAt := Some(c.now)))
      && (!ends && !completes && pauses == (row.stage == Paused) ==> after == row)
      && (!ends && !completes && !pauses && row.stage == Paused ==>
            var length := c.now - row.pausedAt.value;
            after == row.(stage := InProgress, pausedAt := None,
                          pausedSeconds := row.pausedSeconds + length, breachAt := row.breachAt + length))
  {
  }

  /** A running row of a definition for another priority. */
  predicate Outdated(defs: seq<Definition>, row: TaskSla, priority: Option<string>)
    requires row.definition < |defs|
  {
    && (row.stage == InProgress || row.stage == Paused)
    && defs[row.definition].priority != None && defs[row.definition].priority != priority
  }

  /** What a change of priority does, exactly, when it makes no running row outdated: nothing. */
  lemma RetargetWithoutOutdated(defs: seq<Definition>, c: Clock, priority: Option<string>, state: string)
    requires Known(defs, c.slas) && forall i :: 0 <= i < |c.slas| ==> !Outdated(defs, c.slas[i], priority)
    ensures Step(defs, c, RetargetOp(priority, state)) == c
  {
    NoneReplaced(defs, c.slas, priority, |c.slas|);
  }

  lemma {:induction false} NoneReplaced(defs: seq<Definition>, slas: seq<TaskSla>, priority: Option<string>, n: nat)
    requires Known(defs, slas) && n <= |slas| && forall i :: 0 <= i < |slas| ==> !Outdated(defs, slas[i], priority)
    ensures Replaced(defs, slas, priority, n) == []
    decreases n
  {
    if n > 0 { NoneReplaced(defs, slas, priority, n - 1); }
  }

  /** A change of priority that replaces rows: each row of the result is a replaced or attached one, synced. */
  lemma RetargetedRow(defs: seq<Definition>, c: Clock, priority: Option<string>, state: string, i: nat)
    requires Known(defs, c.slas) && Replaced(defs, c.slas, priority, |c.slas|) != []
    requires i < |Step(defs, c, RetargetOp(priority, state)).slas|
    ensures var r := Replace(defs, c.slas, priority, c.now);
      && Known(defs, r) && i < |r|
      && Step(defs, c, RetargetOp(priority, state)).slas[i] == SyncRow(defs[r[i].definition], r[i], state, c.now)
  {
    ReplaceKnown(defs, c.slas, priority, c.now);
  }

  lemma ReplaceOldRow(defs: seq<Definition>, slas: seq<TaskSla>, priority: Option<string>, now: int, i: nat)
    requires Known(defs, slas) && Replaced(defs, slas, priority, |slas|) != [] && i < |slas|
    ensures var r := Replace(defs, slas, priority, now);
      i < |r| && r[i] == if IsReplaced(defs, slas[i], priority) then slas[i].(stage := Cancelled) else slas[i]
  {
    var rows := Replaced(defs, slas, priority, |slas|);
    AttachKeeps(defs, CancelReplaced(defs, slas, priority), 0, priority, EarliestStart(slas, rows));
  }

  lemma ReplaceNewRow(defs: seq<Definition>, slas: seq<TaskSla>, priority: Option<string>, now: int, i: nat)
    requires Known(defs, slas) && Replaced(defs, slas, priority, |slas|) != []
    requires |slas| <= i < |Replace(defs, slas, priority, now)|
    ensures var row := Replace(defs, slas, priority, now)[i];
      && For(defs, row.definition, priority)
      && row.startedAt == EarliestStart(slas, Replaced(defs, slas, priority, |slas|))
  {
    var start := EarliestStart(slas, Replaced(defs, slas, priority, |slas|));
    var cancelled := CancelReplaced(defs, slas, priority);
    AttachKnown(defs, cancelled, 0, priority, start);
    AttachedApply(defs, cancelled, 0, priority, start, i);
  }

  lemma SomeReplaced(defs: seq<Definition>, slas: seq<TaskSla>, priority: Option<string>, o: nat)
    requires Known(defs, slas) && o < |slas| && Outdated(defs, slas[o], priority)
    ensures var rows := Replaced(defs, slas, priority, |slas|);
      && rows != []
      && (forall k :: 0 <= k < |rows| ==> rows[k] < |slas| && Outdated(defs, slas[rows[k]], priority))
      && (forall j :: 0 <= j < |slas| && Outdated(defs, slas[j], priority) ==> j in rows)
  {
    assert o in Replaced(defs, slas, priority, |slas|);
  }

  /** And otherwise: outdated rows are cancelled, and all other rows follow the record's state. */
  lemma RetargetOldRow(defs: seq<Definition>, c: Clock, priority: Option<string>, state: string, o: nat, i: nat)
    requires Known(defs, c.slas) && o < |c.slas| && Outdated(defs, c.slas[o], priority) && i < |c.slas|
    ensures Step(defs, c, RetargetOp(priority, state)).slas[i]
      == if Outdated(defs, c.slas[i], priority) then c.slas[i].(stage := Cancelled)
         else SyncRow(defs[c.slas[i].definition], c.slas[i], state, c.now)
  {
    SomeReplaced(defs, c.slas, priority, o);
    RetargetedRow(defs, c, priority, state, i);
    ReplaceOldRow(defs, c.slas, priority, c.now, i);
  }

  predicate For(defs: seq<Definition>, d: nat, priority: Option<string>) {
    d < |defs| && (defs[d].priority == None || defs[d].priority == priority)
  }

  /** A new row is one of a definition for the new priority or for all, and starts when the first of the outdated
      rows did. */
  lemma RetargetNewRow(
    defs: seq<Definition>, slas: seq<TaskSla>, priority: Option<string>, state: string, now: int, o: nat, i: nat)
    requires Known(defs, slas) && o < |slas| && Outdated(defs, slas[o], priority)
    requires |slas| <= i < |Retarget(defs, slas, priority, state, now)|
    ensures var row := Retarget(defs, slas, priority, state, now)[i];
      For(defs, row.definition, priority) && FirstStart(defs, slas, priority, row.startedAt)
  {
    EarliestIsFirst(defs, slas, priority, o);
    RetargetedIdentity(defs, slas, priority, state, now, i);
    ReplaceNewRow(defs, slas, priority, now, i);
  }

  lemma SyncKeepsIdentity(d: Definition, row: TaskSla, state: string, now: int)
    ensures var after := SyncRow(d, row, state, now);
      after.definition == row.definition && after.startedAt == row.startedAt
  {
  }

  lemma RetargetedIdentity(
    defs: seq<Definition>, slas: seq<TaskSla>, priority: Option<string>, state: string, now: int, i: nat)
    requires Known(defs, slas) && Replaced(defs, slas, priority, |slas|) != []
    requires i < |Retarget(defs, slas, priority, state, now)|
    ensures i < |Replace(defs, slas, priority, now)|
    ensures var row, r := Retarget(defs, slas, priority, state, now)[i], Replace(defs, slas, priority, now)[i];
      row.definition == r.definition && row.startedAt == r.startedAt
  {
    ReplaceKnown(defs, slas, priority, now);
    var r := Replace(defs, slas, priority, now)[i];
    SyncKeepsIdentity(defs[r.definition], r, state, now);
  }

  predicate FirstStart(defs: seq<Definition>, slas: seq<TaskSla>, priority: Option<string>, start: int)
    requires Known(defs, slas)
  {
    && (forall j :: 0 <= j < |slas| && Outdated(defs, slas[j], priority) ==> start <= slas[j].startedAt)
    && exists j :: 0 <= j < |slas| && Outdated(defs, slas[j], priority) && start == slas[j].startedAt
  }

  lemma EarliestIsFirst(defs: seq<Definition>, slas: seq<TaskSla>, priority: Option<string>, o: nat)
    requires Known(defs, slas) && o < |slas| && Outdated(defs, slas[o], priority)
    ensures Replaced(defs, slas, priority, |slas|) != []
    ensures FirstStart(defs, slas, priority, EarliestStart(slas, Replaced(defs, slas, priority, |slas|)))
  {
    var rows := Replaced(defs, slas, priority, |slas|);
    SomeReplaced(defs, slas, priority, o);
    var a :| 0 <= a < |rows| && slas[rows[a]].startedAt == EarliestStart(slas, rows);
    assert Outdated(defs, slas[rows[a]], priority);
    forall j | 0 <= j < |slas| && Outdated(defs, slas[j], priority)
      ensures EarliestStart(slas, rows) <= slas[j].startedAt
    {
      var k :| 0 <= k < |rows| && rows[k] == j;
    }
  }

  lemma {:induction false} AttachedApply(
    defs: seq<Definition>, slas: seq<TaskSla>, d: nat, priority: Option<string>, started: int, i: nat)
    requires d <= |defs| && |slas| <= i < |Attach(defs, slas, d, priority, started)|
    ensures For(defs, Attach(defs, slas, d, priority, started)[i].definition, priority)
    decreases |defs| - d
  {
    if d < |defs| {
      var more := if Wanted(defs, slas, d, priority) then slas + [NewRow(defs, d, started)] else slas;
      if i < |more| {
        AttachKeeps(defs, more, d + 1, priority, started);
      } else {
        AttachedApply(defs, more, d + 1, priority, started, i);
      }
    }
  }

  lemma {:induction false} AttachKeeps(
    defs: seq<Definition>, slas: seq<TaskSla>, d: nat, priority: Option<string>, started: int)
    requires d <= |defs|
    ensures slas <= Attach(defs, slas, d, priority, started)
    decreases |defs| - d
  {
    if d < |defs| {
      var more := if Wanted(defs, slas, d, priority) then slas + [NewRow(defs, d, started)] else slas;
      AttachKeeps(defs, more, d + 1, priority, started);
    }
  }

  /** Rows that have ended stay as they are, whatever happens to the record. */
  lemma EndedRowsStay(defs: seq<Definition>, c: Clock, op: Op, i: nat)
    requires Known(defs, c.slas) && i < |c.slas| && c.slas[i].stage in {Completed, Cancelled}
    ensures Step(defs, c, op).slas[i] == c.slas[i]
  {
    match op
    case AttachOp(priority) => AttachKnown(defs, c.slas, 0, priority, c.now);
    case RetargetOp(priority, state) => EndedRowRetargeted(defs, c, priority, state, i);
    case _ =>
  }

  lemma EndedRowRetargeted(defs: seq<Definition>, c: Clock, priority: Option<string>, state: string, i: nat)
    requires Known(defs, c.slas) && i < |c.slas| && c.slas[i].stage in {Completed, Cancelled}
    ensures Step(defs, c, RetargetOp(priority, state)).slas[i] == c.slas[i]
  {
    if o: nat :| o < |c.slas| && Outdated(defs, c.slas[o], priority) {
      RetargetOldRow(defs, c, priority, state, o, i);
    } else {
      RetargetWithoutOutdated(defs, c, priority, state);
    }
  }

  /** A breach is only ever flagged on a row that is In Progress and has used up its duration. */
  lemma BreachOnlyWhenDue(defs: seq<Definition>, c: Clock, w: Watch, op: Op, i: nat)
    requires Known(defs, c.slas) && RowsOk(defs, c, w) && i < |c.slas|
    requires !c.slas[i].breached && Step(defs, c, op).slas[i].breached
    ensures op.BreachOp? && c.slas[i].stage.InProgress?
    ensures Active(c.slas[i], c.now) >= Allowance(defs[c.slas[i].definition], c.slas[i].startedAt)
  {
    StepKeepsFlags(defs, c, w, op, i);
    assert RowOk(defs, c.slas[i], c.now, w.low[i], w.high[i]);
  }

  // ---------------------------------------------------------------- pauses and business time

  predicate Pauses(d: Definition, state: string) {
    state in d.pauseStates && state !in CANCELLING && state !in COMPLETING
  }

  predicate Resumes(d: Definition, state: string) {
    state !in d.pauseStates && state !in CANCELLING && state !in COMPLETING
  }

  /** Attached at `start`, paused from `p` to `q`. */
  function OnePause(start: int, p: int, q: int, pause: string, resume: string): seq<Op>
    requires start <= p <= q
  {
    [AttachOp(None), Tick(p - start), SyncOp(pause), Tick(q - p), SyncOp(resume)]
  }

  lemma RunUnfolds(defs: seq<Definition>, c: Clock, ops: seq<Op>)
    requires Known(defs, c.slas) && ops != []
    ensures Run(defs, c, ops) == Run(defs, Step(defs, c, ops[0]), ops[1..])
  {
  }

  /** One pause moves the target by the length of the pause on the wall clock. */
  lemma OnePauseMovesTarget(d: Definition, start: int, p: int, q: int, pause: string, resume: string)
    requires d.priority.None? && start <= p <= q && Pauses(d, pause) && Resumes(d, resume)
    ensures Run([d], Clock(start, [], []), OnePause(start, p, q, pause, resume)).slas
      == [TaskSla(0, InProgress, start, Target(d, start) + (q - p), None, q - p, false)]
  {
    var defs, ops := [d], OnePause(start, p, q, pause, resume);
    var row := TaskSla(0, InProgress, start, Target(d, start), None, 0, false);
    var c0 := Clock(start, [], []);
    var c1 := Clock(start, [row], []);
    var c2 := Clock(p, [row], []);
    var c3 := Clock(p, [row.(stage := Paused, pausedAt := Some(p))], []);
    var c4 := c3.(now := q);
    var c5 := Clock(q, [row.(pausedSeconds := q - p, breachAt := Target(d, start) + (q - p))], []);
    assert Step(defs, c0, ops[0]) == c1 by { AttachOne(d, start); }
    assert Step(defs, c1, ops[1]) == c2 && Step(defs, c3, ops[3]) == c4;
    assert Step(defs, c2, ops[2]) == c3;
    assert Step(defs, c4, ops[4]) == c5;
    RunUnfolds(defs, c0, ops);
    RunUnfolds(defs, c1, ops[1..]);
    RunUnfolds(defs, c2, ops[2..]);
    RunUnfolds(defs, c3, ops[3..]);
    RunUnfolds(defs, c4, ops[4..]);
    assert ops[1..][1..] == ops[2..] && ops[2..][1..] == ops[3..] && ops[3..][1..] == ops[4..] && ops[4..][1..] == [];
  }

  lemma AttachOne(d: Definition, started: int)
    requires d.priority.None?
    ensures Attach([d], [], 0, None, started) == [TaskSla(0, InProgress, started, Target(d, started), None, 0, false)]
  {
    var row := NewRow([d], 0, started);
    assert [] + [row] == [row];
    assert Attach([d], [row], 1, None, started) == [row];
  }

  /** Un-paused business minutes from the start to the target that one pause from `p` to `q` leaves. */
  function BusinessUsed(d: Definition, start: int, p: int, q: int): nat
    requires d.schedule.Some?
  {
    var (cal, holidays) := (d.schedule.value.calendar, d.schedule.value.holidays);
    BusinessTime.Elapsed(cal, holidays, start, p) + BusinessTime.Elapsed(cal, holidays, q, Target(d, start) + (q - p))
  }

  /** The pause is added on the wall clock, so a scheduled SLA need not get its business minutes. It does if and
      only if the time from `p` to the old target and the time from `q` to the new one, which are equally long,
      hold equally many business minutes; it gets fewer exactly when the later stretch holds fewer. */
  lemma PauseKeepsBusinessTimeExactly(d: Definition, start: int, p: int, q: int)
    requires d.schedule.Some? && BusinessTime.OpensOnTheMinute(d.schedule.value.calendar)
    requires BusinessTime.OnTheMinute(start) && BusinessTime.OnTheMinute(p) && BusinessTime.OnTheMinute(q)
    requires start <= p <= Target(d, start) && p <= q
    ensures var (cal, holidays, target) := (d.schedule.value.calendar, d.schedule.value.holidays, Target(d, start));
      var before := BusinessTime.Elapsed(cal, holidays, p, target);
      var after := BusinessTime.Elapsed(cal, holidays, q, target + (q - p));
      && (BusinessUsed(d, start, p, q) == d.minutes <==> after == before)
      && (BusinessUsed(d, start, p, q) < d.minutes <==> after < before)
  {
    var (cal, holidays) := (d.schedule.value.calendar, d.schedule.value.holidays);
    BusinessTime.DeadlineIsEarliest(cal, holidays, start, d.minutes);
    var n := BusinessTime.MinutesBetween(start, p);
    BusinessTime.ElapsedSplits(cal, holidays, start, n, Target(d, start));
  }

  const NINE_TO_FIVE: BusinessTime.Calendar := BusinessTime.Calendar({0, 1, 2, 3, 4}, 32400, 61200)

  const EIGHT_HOURS: DefinitionRow := DefinitionRow(None, 480, {"Pending"}, Some(Schedule(NINE_TO_FIVE, {})))

  /** Eight business hours from Monday 09:00, paused from Monday 16:00 to Tuesday 08:00: the target moves from
      Monday 17:00 to Tuesday 09:00, when seven business hours have been used. */
  lemma OvernightPauseLosesAnHour()
    ensures HasDeadlines(EIGHT_HOURS)
    ensures Run([EIGHT_HOURS], Clock(32400, [], []), OnePause(32400, 57600, 115200, "Pending", "Open")).slas
      == [TaskSla(0, InProgress, 32400, 118800, None, 57600, false)]
    ensures BusinessUsed(EIGHT_HOURS, 32400, 57600, 115200) == 420
  {
    NineToFiveDue();
    NineToFiveUsed();
    OnePauseMovesTarget(EIGHT_HOURS, 32400, 57600, 115200, "Pending", "Open");
  }

  lemma NineToFiveUsed()
    ensures HasDeadlines(EIGHT_HOURS) && BusinessUsed(EIGHT_HOURS, 32400, 57600, 115200) == 420
  {
    NineToFiveDue();
    MondayElapsed();
    TuesdayElapsed();
  }

  lemma MondayElapsed()
    ensures BusinessTime.Elapsed(NINE_TO_FIVE, {}, 32400, 57600) == 420
  {
    assert 0 in NINE_TO_FIVE.weekdays;
    BusinessTime.RoomIsElapsed(NINE_TO_FIVE, {}, 32400, 420);
    BusinessTime.RoomSplits(NINE_TO_FIVE, {}, 32400, 57600);
  }

  lemma TuesdayElapsed()
    ensures BusinessTime.Elapsed(NINE_TO_FIVE, {}, 115200, 118800) == 0
  {
    assert 0 in NINE_TO_FIVE.weekdays;
    BusinessTime.RoomIsElapsed(NINE_TO_FIVE, {}, 115200, 60);
    BusinessTime.RoomSplits(NINE_TO_FIVE, {}, 115200, 118800);
  }

  lemma NineToFiveDue()
    ensures HasDeadlines(EIGHT_HOURS) && Target(EIGHT_HOURS, 32400) == 61200
  {
    assert 0 in NINE_TO_FIVE.weekdays;
    var n := BusinessTime.LoopStep(NINE_TO_FIVE, {}, BusinessTime.Cursor(32400, 480));
    assert n == BusinessTime.Cursor(61200, 0);
    BusinessTime.DueUnfolds(NINE_TO_FIVE, {}, 32400, 480);
  }
}
