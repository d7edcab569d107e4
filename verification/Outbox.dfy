/** Outbox delivery by many workers (app.py: process_outbox).

    A worker claims due events under a lease and commits the claim, visits the delivery
    targets of one event after the other, and commits each event's outcome on its own.
    Time passes and workers crash between any two steps. Everything a worker does between
    two commits is private to it until the commit.

    A worker commits an outcome only while its lease runs: `Finalise` is enabled only
    before the deadline. A worker that misses the deadline can go on visiting targets but
    has to crash in the end. */
module Outbox {
  import opened Outcomes
  import opened Basics

  type EventId = int
  type WorkerId = int

  const LEASE_SECONDS := 1800
  const MAX_ATTEMPTS := 5

  datatype Target = Apns | WebPush | Smtp | Connection(id: nat)

  datatype EventState = Pending | Retry | Processing | Completed | Dead

  datatype Event = Event(state: EventState, attempts: nat, availableAt: int)

  datatype Delivery = Delivered | Skipped | Failed

  datatype Record = Record(event: EventId, target: Target, outcome: Delivery)

  /** One pass over the targets in force for an event: `plan[..visited]` is behind it, `added` are the
      delivery records its session has not committed yet. */
  datatype Pass = Pass(plan: seq<Target>, visited: nat, added: seq<Record>)

  datatype Worker = Idle | Busy(deadline: int, queue: seq<EventId>, pass: Option<Pass>)

  /** `sent` is what went out on the network. `abandoned` holds the deliveries whose worker crashed or
      outlived its lease before committing their record. */
  datatype State = State(
    clock: int, events: map<EventId, Event>, records: seq<Record>, workers: map<WorkerId, Worker>,
    sent: multiset<(EventId, Target)>, abandoned: set<(EventId, Target)>)

  // ---------------------------------------------------------------- steps

  /** A connection is settled by a Delivered record, a channel by Delivered or Skipped. */
  predicate Settles(r: Record) {
    r.outcome.Delivered? || (r.outcome.Skipped? && !r.target.Connection?)
  }

  predicate Settled(records: seq<Record>, e: EventId, t: Target) {
    exists i :: 0 <= i < |records| && records[i].event == e && records[i].target == t && Settles(records[i])
  }

  predicate Claimable(ev: Event, clock: int) {
    (ev.state.Pending? || ev.state.Retry? || ev.state.Processing?) && ev.availableAt <= clock
  }

  function Power2(n: nat): nat { if n == 0 then 1 else 2 * Power2(n - 1) }

  function Backoff(attempts: nat): nat {
    if Power2(attempts) * 5 < 300 then Power2(attempts) * 5 else 300
  }

  predicate HasFailure(added: seq<Record>) {
    exists i :: 0 <= i < |added| && added[i].outcome.Failed?
  }

  /** The event row as the end of a pass leaves it. */
  function Settle(ev: Event, failed: bool, clock: int): Event {
    var attempts := ev.attempts + 1;
    if !failed then ev.(state := Completed, attempts := attempts)
    else Event(if attempts >= MAX_ATTEMPTS then Dead else Retry, attempts, clock + Backoff(attempts))
  }

  datatype Step =
    | Tick(seconds: nat)
    | Enqueue(event: EventId)
    | Claim(worker: WorkerId, startedAt: int, batch: seq<EventId>)
    | Begin(worker: WorkerId, plan: seq<Target>)
    | Visit(worker: WorkerId, outcome: Delivery)
    | Finalise(worker: WorkerId)
    | Crash(worker: WorkerId)

  function WorkerAt(s: State, w: WorkerId): Worker {
    if w in s.workers then s.workers[w] else Idle
  }

  predicate Live(s: State, w: WorkerId) {
    WorkerAt(s, w).Busy? && s.clock < WorkerAt(s, w).deadline
  }

  predicate InPass(s: State, w: WorkerId) {
    var k := WorkerAt(s, w);
    k.Busy? && k.queue != [] && k.pass.Some?
  }

  /** The worker has visited every target of its event. */
  predicate PassEnded(s: State, w: WorkerId) {
    && InPass(s, w)
    && WorkerAt(s, w).queue[0] in s.events
    && WorkerAt(s, w).pass.value.visited == |WorkerAt(s, w).pass.value.plan|
  }

  predicate Enabled(s: State, step: Step) {
    match step
    case Tick(_) => true
    case Enqueue(e) => e !in s.events
    case Claim(w, startedAt, batch) =>
      && WorkerAt(s, w).Idle?
      && startedAt <= s.clock
      && batch != [] && NoRepeats(batch)
      && (forall i :: 0 <= i < |batch| ==> batch[i] in s.events && Claimable(s.events[batch[i]], s.clock))
    case Begin(w, plan) =>
      var k := WorkerAt(s, w);
      k.Busy? && k.queue != [] && k.pass.None? && NoRepeats(plan)
    case Visit(w, outcome) =>
      && InPass(s, w)
      && WorkerAt(s, w).pass.value.visited < |WorkerAt(s, w).pass.value.plan|
      && (outcome.Skipped? ==> !NextTarget(s, w).Connection?)
    case Finalise(w) => PassEnded(s, w) && s.clock < WorkerAt(s, w).deadline
    case Crash(w) => WorkerAt(s, w).Busy?
  }

  function NextTarget(s: State, w: WorkerId): Target
    requires InPass(s, w) && WorkerAt(s, w).pass.value.visited < |WorkerAt(s, w).pass.value.plan|
  {
    WorkerAt(s, w).pass.value.plan[WorkerAt(s, w).pass.value.visited]
  }

  /** The deliveries a worker has made and not committed. */
  function Uncommitted(k: Worker): set<(EventId, Target)> {
    if k.Busy? && k.pass.Some? then
      set i | 0 <= i < |k.pass.value.added| && k.pass.value.added[i].outcome.Delivered? ::
        (k.pass.value.added[i].event, k.pass.value.added[i].target)
    else {}
  }

  function Next(s: State, step: Step): State
    requires Enabled(s, step)
  {
    match step
    case Tick(seconds) =>
      var later := s.clock + seconds;
      s.(clock := later,
         abandoned := s.abandoned + set w, d | w in s.workers && s.workers[w].Busy?
           && s.clock < s.workers[w].deadline <= later && d in Uncommitted(s.workers[w]) :: d)
    case Enqueue(e) => s.(events := s.events[e := Event(Pending, 0, s.clock)])
    case Claim(w, startedAt, batch) =>
      var deadline := startedAt + LEASE_SECONDS;
      s.(events := map e | e in s.events ::
           if e in batch then s.events[e].(state := Processing, availableAt := deadline) else s.events[e],
         workers := s.workers[w := Busy(deadline, batch, None)])
    case Begin(w, plan) => s.(workers := s.workers[w := WorkerAt(s, w).(pass := Some(Pass(plan, 0, [])))])
    case Visit(w, outcome) => VisitStep(s, w, outcome)
    case Finalise(w) => Commit(s, w)
    case Crash(w) =>
      s.(workers := s.workers[w := Idle], abandoned := s.abandoned + Uncommitted(WorkerAt(s, w)))
  }

  /** Commits the outcome of an ended pass: the event row and the delivery records. */
  function Commit(s: State, w: WorkerId): State
    requires PassEnded(s, w)
  {
    var k := WorkerAt(s, w);
    var e, added := k.queue[0], k.pass.value.added;
    s.(events := s.events[e := Settle(s.events[e], HasFailure(added), s.clock)],
       records := s.records + added,
       workers := s.workers[w := if |k.queue| == 1 then Idle else Busy(k.deadline, k.queue[1..], None)])
  }

  /** The pass after one more target: nothing happens when the target is settled. */
  function VisitPass(records: seq<Record>, e: EventId, p: Pass, outcome: Delivery): Pass
    requires p.visited < |p.plan|
  {
    var t := p.plan[p.visited];
    Pass(p.plan, p.visited + 1, if Settled(records, e, t) then p.added else p.added + [Record(e, t, outcome)])
  }

  function VisitStep(s: State, w: WorkerId, outcome: Delivery): State
    requires Enabled(s, Visit(w, outcome))
  {
    var k := WorkerAt(s, w);
    var e, t := k.queue[0], NextTarget(s, w);
    var sends := !Settled(s.records, e, t) && outcome.Delivered?;
    s.(workers := s.workers[w := k.(pass := Some(VisitPass(s.records, e, k.pass.value, outcome)))],
       sent := if sends then s.sent + multiset{(e, t)} else s.sent,
       abandoned := if sends && !Live(s, w) then s.abandoned + {(e, t)} else s.abandoned)
  }

  // ---------------------------------------------------------------- what every step keeps

  predicate SameDelivery(a: Record, b: Record) { a.event == b.event && a.target == b.target }

  /** Each (event, target) has at most one settling record. */
  predicate SettledOnce(records: seq<Record>) {
    forall i, j :: 0 <= i < j < |records| && SameDelivery(records[i], records[j]) ==>
      !(Settles(records[i]) && Settles(records[j]))
  }

  predicate EventOk(ev: Event) {
    match ev.state
    case Completed => ev.attempts <= MAX_ATTEMPTS
    case Dead => ev.attempts == MAX_ATTEMPTS
    case _ => ev.attempts < MAX_ATTEMPTS
  }

  /** What a pass has recorded so far: one uncommitted record for each visited target that was not settled. */
  predicate PassOk(records: seq<Record>, e: EventId, p: Pass) {
    && p.visited <= |p.plan| && NoRepeats(p.plan)
    && (forall i :: 0 <= i < |p.added| ==>
          p.added[i].event == e && p.added[i].target in p.plan[..p.visited]
          && (p.added[i].outcome.Skipped? ==> !p.added[i].target.Connection?))
    && (forall i, j :: 0 <= i < j < |p.added| ==> p.added[i].target != p.added[j].target)
    && (forall i :: 0 <= i < p.visited ==> Settled(records, e, p.plan[i]) || RecordedIn(p.added, p.plan[i]))
  }

  predicate RecordedIn(added: seq<Record>, t: Target) {
    exists i :: 0 <= i < |added| && added[i].target == t
  }

  predicate NothingSettled(records: seq<Record>, p: Pass) {
    forall i :: 0 <= i < |p.added| ==> !Settled(records, p.added[i].event, p.added[i].target)
  }

  predicate WorkerOk(s: State, w: WorkerId) {
    var k := WorkerAt(s, w);
    k.Busy? ==>
      && k.queue != [] && NoRepeats(k.queue)
      && (forall i :: 0 <= i < |k.queue| ==> k.queue[i] in s.events)
      && (k.pass.Some? ==> PassOk(s.records, k.queue[0], k.pass.value))
      && (Live(s, w) ==>
            && (forall i :: 0 <= i < |k.queue| ==>
                  s.events[k.queue[i]].state.Processing? && s.events[k.queue[i]].availableAt == k.deadline)
            && (k.pass.Some? ==> NothingSettled(s.records, k.pass.value)))
  }

  /** No event has two live holders. */
  predicate OneHolder(s: State) {
    forall v, w :: v in s.workers && w in s.workers && v != w && Live(s, v) && Live(s, w) ==>
      forall i, j :: 0 <= i < |s.workers[v].queue| && 0 <= j < |s.workers[w].queue| ==>
        s.workers[v].queue[i] != s.workers[w].queue[j]
  }

  predicate DeliveredIn(records: seq<Record>, e: EventId, t: Target) {
    Record(e, t, Delivered) in records
  }

  predicate InFlight(s: State, e: EventId, t: Target) {
    exists w :: w in s.workers && Live(s, w) && (e, t) in Uncommitted(s.workers[w])
  }

  /** A delivery nobody abandoned went out at most once, and if it went out, its record is committed or
      still with a live worker. */
  predicate SentOk(s: State, e: EventId, t: Target) {
    (e, t) !in s.abandoned ==>
      s.sent[(e, t)] <= 1 && (s.sent[(e, t)] == 1 ==> DeliveredIn(s.records, e, t) || InFlight(s, e, t))
  }

  ghost predicate Inv(s: State) {
    && (forall e :: e in s.events ==> EventOk(s.events[e]))
    && (forall w :: w in s.workers ==> WorkerOk(s, w))
    && OneHolder(s)
    && SettledOnce(s.records)
    && (forall e, t :: SentOk(s, e, t))
  }

  function Start(clock: int): State {
    State(clock, map[], [], map[], multiset{}, {})
  }

  lemma SettledGrows(a: seq<Record>, b: seq<Record>, e: EventId, t: Target)
    ensures Settled(a, e, t) ==> Settled(a + b, e, t)
    ensures Settled(a + b, e, t) ==>
      Settled(a, e, t) || (exists i :: 0 <= i < |b| && b[i].event == e && b[i].target == t && Settles(b[i]))
  {
    if Settled(a, e, t) {
      var i :| 0 <= i < |a| && a[i].event == e && a[i].target == t && Settles(a[i]);
      assert (a + b)[i] == a[i];
    }
  }

  lemma TickKeepsInv(s: State, seconds: nat)
    requires Inv(s)
    ensures Inv(Next(s, Tick(seconds)))
  {
    var n := Next(s, Tick(seconds));
    forall w | w in n.workers ensures WorkerOk(n, w) {
      assert WorkerOk(s, w);
    }
    forall e, t ensures SentOk(n, e, t) {
      assert SentOk(s, e, t);
      if (e, t) !in n.abandoned && n.sent[(e, t)] == 1 && !DeliveredIn(n.records, e, t) {
        var w :| w in s.workers && Live(s, w) && (e, t) in Uncommitted(s.workers[w]);
        assert Live(n, w);
      }
    }
  }

  lemma EnqueueKeepsInv(s: State, e: EventId)
    requires Inv(s) && Enabled(s, Enqueue(e))
    ensures Inv(Next(s, Enqueue(e)))
  {
    var n := Next(s, Enqueue(e));
    forall w | w in n.workers ensures WorkerOk(n, w) {
      assert WorkerOk(s, w);
    }
    SentUnchanged(s, n);
  }

  lemma SentUnchanged(s: State, n: State)
    requires s.sent == n.sent && s.abandoned == n.abandoned && s.records == n.records
    requires forall e, t :: SentOk(s, e, t)
    requires forall w :: w in s.workers && Live(s, w) ==>
      w in n.workers && Live(n, w) && Uncommitted(n.workers[w]) == Uncommitted(s.workers[w])
    ensures forall e, t :: SentOk(n, e, t)
  {
    forall e, t ensures SentOk(n, e, t) {
      assert SentOk(s, e, t);
    }
  }

  lemma ClaimKeepsWorkers(s: State, w: WorkerId, startedAt: int, batch: seq<EventId>, v: WorkerId)
    requires Inv(s) && Enabled(s, Claim(w, startedAt, batch)) && v in Next(s, Claim(w, startedAt, batch)).workers
    ensures WorkerOk(Next(s, Claim(w, startedAt, batch)), v)
    ensures v != w && Live(s, v) ==> forall i :: 0 <= i < |s.workers[v].queue| ==> s.workers[v].queue[i] !in batch
  {
    if v != w {
      assert WorkerOk(s, v);
    }
  }

  lemma ClaimKeepsInv(s: State, w: WorkerId, startedAt: int, batch: seq<EventId>)
    requires Inv(s) && Enabled(s, Claim(w, startedAt, batch))
    ensures Inv(Next(s, Claim(w, startedAt, batch)))
  {
    var n := Next(s, Claim(w, startedAt, batch));
    forall v | v in n.workers
      ensures WorkerOk(n, v)
      ensures v != w && Live(s, v) ==> forall i :: 0 <= i < |s.workers[v].queue| ==> s.workers[v].queue[i] !in batch
    {
      ClaimKeepsWorkers(s, w, startedAt, batch, v);
    }
    forall e | e in n.events ensures EventOk(n.events[e]) {
      assert EventOk(s.events[e]);
    }
    SentUnchanged(s, n);
  }

  lemma BeginKeepsInv(s: State, w: WorkerId, plan: seq<Target>)
    requires Inv(s) && Enabled(s, Begin(w, plan))
    ensures Inv(Next(s, Begin(w, plan)))
  {
    var n := Next(s, Begin(w, plan));
    forall v | v in n.workers ensures WorkerOk(n, v) {
      assert WorkerOk(s, v);
      if v != w { SameWorkerOk(s, n, v); }
    }
    SentUnchanged(s, n);
  }

  lemma NextIsNotRecorded(records: seq<Record>, e: EventId, p: Pass)
    requires PassOk(records, e, p) && p.visited < |p.plan|
    ensures !RecordedIn(p.added, p.plan[p.visited])
  {
  }

  lemma VisitedTargets(records: seq<Record>, e: EventId, p: Pass, outcome: Delivery, i: nat)
    requires PassOk(records, e, p) && p.visited < |p.plan| && i <= p.visited
    ensures Settled(records, e, p.plan[i]) || RecordedIn(VisitPass(records, e, p, outcome).added, p.plan[i])
  {
    var q := VisitPass(records, e, p, outcome);
    if i == p.visited && !Settled(records, e, p.plan[i]) {
      assert q.added[|p.added|].target == p.plan[i];
    } else if !Settled(records, e, p.plan[i]) {
      var j :| 0 <= j < |p.added| && p.added[j].target == p.plan[i];
      assert q.added[j] == p.added[j];
    }
  }

  lemma VisitPassOk(records: seq<Record>, e: EventId, p: Pass, outcome: Delivery)
    requires PassOk(records, e, p) && p.visited < |p.plan|
    requires outcome.Skipped? ==> !p.plan[p.visited].Connection?
    ensures PassOk(records, e, VisitPass(records, e, p, outcome))
    ensures NothingSettled(records, p) ==> NothingSettled(records, VisitPass(records, e, p, outcome))
  {
    var q := VisitPass(records, e, p, outcome);
    NextIsNotRecorded(records, e, p);
    assert p.plan[..p.visited + 1] == p.plan[..p.visited] + [p.plan[p.visited]];
    forall i | 0 <= i < q.visited ensures Settled(records, e, q.plan[i]) || RecordedIn(q.added, q.plan[i]) {
      VisitedTargets(records, e, p, outcome, i);
    }
  }

  lemma VisitKeepsSent(s: State, w: WorkerId, outcome: Delivery, a: EventId, b: Target)
    requires (forall v :: v in s.workers ==> WorkerOk(s, v)) && OneHolder(s)
    requires SentOk(s, a, b) && Enabled(s, Visit(w, outcome))
    ensures SentOk(VisitStep(s, w, outcome), a, b)
  {
    var n := VisitStep(s, w, outcome);
    var e, t := s.workers[w].queue[0], NextTarget(s, w);
    if (a, b) !in n.abandoned {
      if n.sent != s.sent && (a, b) == (e, t) {
        assert WorkerOk(s, w);
        NextIsNotRecorded(s.records, e, s.workers[w].pass.value);
        NotInFlight(s, w, e, t);
        assert n.workers[w].pass.value.added[|s.workers[w].pass.value.added|] == Record(e, t, outcome);
        assert (e, t) in Uncommitted(n.workers[w]) && Live(n, w);
      } else if InFlight(s, a, b) {
        var v :| v in s.workers && Live(s, v) && (a, b) in Uncommitted(s.workers[v]);
        StillUncommitted(s, w, outcome, v, a, b);
        assert Live(n, v);
      }
    }
  }

  /** A worker is as good as before when nothing it looks at has changed. */
  lemma SameWorkerOk(s: State, n: State, v: WorkerId)
    requires WorkerOk(s, v) && WorkerAt(n, v) == WorkerAt(s, v)
    requires n.events == s.events && n.records == s.records && n.clock == s.clock
    ensures WorkerOk(n, v)
  {
  }

  lemma VisitKeepsWorkers(s: State, w: WorkerId, outcome: Delivery, v: WorkerId)
    requires WorkerOk(s, v) && Enabled(s, Visit(w, outcome)) && v in s.workers
    ensures WorkerOk(VisitStep(s, w, outcome), v)
  {
    if v == w {
      VisitPassOk(s.records, s.workers[w].queue[0], s.workers[w].pass.value, outcome);
    } else {
      SameWorkerOk(s, VisitStep(s, w, outcome), v);
    }
  }

  lemma VisitKeepsHolders(s: State, w: WorkerId, outcome: Delivery)
    requires OneHolder(s) && Enabled(s, Visit(w, outcome))
    ensures OneHolder(VisitStep(s, w, outcome))
  {
    var n := VisitStep(s, w, outcome);
    assert forall v :: v in n.workers ==> v in s.workers && (Live(n, v) <==> Live(s, v));
    assert forall v :: v in n.workers && Live(n, v) ==> n.workers[v].queue == s.workers[v].queue;
  }

  lemma VisitKeepsInv(s: State, w: WorkerId, outcome: Delivery)
    requires Inv(s) && Enabled(s, Visit(w, outcome))
    ensures Inv(Next(s, Visit(w, outcome)))
  {
    var n := VisitStep(s, w, outcome);
    VisitKeepsHolders(s, w, outcome);
    forall v | v in n.workers ensures WorkerOk(n, v) {
      VisitKeepsWorkers(s, w, outcome, v);
    }
    forall a, b ensures SentOk(n, a, b) {
      VisitKeepsSent(s, w, outcome, a, b);
    }
  }

  lemma StillUncommitted(s: State, w: WorkerId, outcome: Delivery, v: WorkerId, a: EventId, b: Target)
    requires Enabled(s, Visit(w, outcome)) && v in s.workers && (a, b) in Uncommitted(s.workers[v])
    ensures (a, b) in Uncommitted(VisitStep(s, w, outcome).workers[v])
  {
    var added := s.workers[v].pass.value.added;
    var i :| 0 <= i < |added| && added[i].outcome.Delivered? && (added[i].event, added[i].target) == (a, b);
    assert VisitStep(s, w, outcome).workers[v].pass.value.added[i] == added[i];
  }

  /** A live worker about to deliver to a target that is not settled: nobody holds such a delivery yet. */
  lemma NotInFlight(s: State, w: WorkerId, e: EventId, t: Target)
    requires (forall v :: v in s.workers ==> WorkerOk(s, v)) && OneHolder(s)
    requires InPass(s, w) && Live(s, w) && w in s.workers && e == s.workers[w].queue[0]
    requires !RecordedIn(s.workers[w].pass.value.added, t) && !Settled(s.records, e, t)
    ensures !InFlight(s, e, t) && !DeliveredIn(s.records, e, t)
  {
    forall v | v in s.workers && Live(s, v) ensures (e, t) !in Uncommitted(s.workers[v]) {
      assert WorkerOk(s, v);
      if v != w && s.workers[v].pass.Some? {
        assert s.workers[v].queue[0] != s.workers[w].queue[0];
      }
    }
  }

  /** Nothing the pass would settle has been settled meanwhile. */
  predicate NoneSettledMeanwhile(records: seq<Record>, p: Pass) {
    forall i :: 0 <= i < |p.added| && Settles(p.added[i]) ==> !Settled(records, p.added[i].event, p.added[i].target)
  }

  predicate HeldByOther(s: State, w: WorkerId, e: EventId) {
    exists v :: v in s.workers && v != w && Live(s, v) && e in s.workers[v].queue
  }

  /** A commit that nobody has got in the way of. */
  predicate Clean(s: State, w: WorkerId)
    requires PassEnded(s, w)
  {
    var k := WorkerAt(s, w);
    && !Finished(s.events[k.queue[0]])
    && !HeldByOther(s, w, k.queue[0])
    && NoneSettledMeanwhile(s.records, k.pass.value)
  }

  /** Before the deadline every commit is clean. */
  lemma LiveIsClean(s: State, w: WorkerId)
    requires Inv(s) && PassEnded(s, w) && Live(s, w)
    ensures Clean(s, w)
  {
    assert WorkerOk(s, w);
    assert s.workers[w].queue[0] in s.workers[w].queue;
  }

  /** A commit keeps settling records unique if and only if nothing in it was settled meanwhile. */
  lemma CommitSettlesOnce(s: State, w: WorkerId)
    requires WorkerOk(s, w) && SettledOnce(s.records) && PassEnded(s, w)
    ensures SettledOnce(Commit(s, w).records) <==> NoneSettledMeanwhile(s.records, WorkerAt(s, w).pass.value)
  {
    var records, p := Commit(s, w).records, s.workers[w].pass.value;
    if SettledOnce(records) {
      forall i | 0 <= i < |p.added| && Settles(p.added[i])
        ensures !Settled(s.records, p.added[i].event, p.added[i].target)
      {
        assert records[|s.records| + i] == p.added[i];
        forall j | 0 <= j < |s.records| ensures !(SameDelivery(s.records[j], p.added[i]) && Settles(s.records[j])) {
          assert records[j] == s.records[j];
        }
      }
    }
    if NoneSettledMeanwhile(s.records, p) {
      forall i, j | 0 <= i < j < |records| && SameDelivery(records[i], records[j])
        ensures !(Settles(records[i]) && Settles(records[j]))
      {
        if i < |s.records| <= j {
          assert records[j] == p.added[j - |s.records|] && records[i] == s.records[i];
        }
      }
    }
  }

  lemma CommitKeepsSent(s: State, w: WorkerId, a: EventId, b: Target)
    requires SentOk(s, a, b) && PassEnded(s, w)
    ensures SentOk(Commit(s, w), a, b)
  {
    var n := Commit(s, w);
    var added := s.workers[w].pass.value.added;
    if (a, b) !in n.abandoned && n.sent[(a, b)] == 1 {
      if DeliveredIn(s.records, a, b) {
        assert Record(a, b, Delivered) in n.records;
      } else {
        var v :| v in s.workers && Live(s, v) && (a, b) in Uncommitted(s.workers[v]);
        if v == w {
          var i :| 0 <= i < |added| && added[i].outcome.Delivered? && (added[i].event, added[i].target) == (a, b);
          assert n.records[|s.records| + i] == Record(a, b, Delivered);
        } else {
          assert Live(n, v) && (a, b) in Uncommitted(n.workers[v]);
        }
      }
    }
  }

  lemma CommitKeepsHolders(s: State, w: WorkerId)
    requires (forall e :: e in s.events ==> EventOk(s.events[e])) && OneHolder(s)
    requires PassEnded(s, w) && !Finished(s.events[WorkerAt(s, w).queue[0]])
    ensures OneHolder(Commit(s, w))
    ensures forall e :: e in Commit(s, w).events ==> EventOk(Commit(s, w).events[e])
  {
  }

  lemma CommitKeepsInv(s: State, w: WorkerId)
    requires Inv(s) && PassEnded(s, w) && Clean(s, w)
    ensures Inv(Commit(s, w))
  {
    var n := Commit(s, w);
    CommitSettlesOnce(s, w);
    CommitKeepsHolders(s, w);
    forall v | v in n.workers ensures WorkerOk(n, v) {
      CommitWorkerOk(s, w, v);
    }
    forall a, b ensures SentOk(n, a, b) {
      CommitKeepsSent(s, w, a, b);
    }
  }

  lemma CommitWorkerOk(s: State, w: WorkerId, v: WorkerId)
    requires WorkerOk(s, w) && WorkerOk(s, v) && PassEnded(s, w) && Clean(s, w) && v in s.workers
    ensures WorkerOk(Commit(s, w), v)
  {
    var n := Commit(s, w);
    var e, p := s.workers[w].queue[0], s.workers[w].pass.value;
    if v != w && s.workers[v].Busy? {
      var k := s.workers[v];
      assert Live(s, v) ==> e !in k.queue;
      if k.pass.Some? { CommitPassOk(s.records, p.added, e, k.queue[0], k.pass.value); }
    }
  }

  /** Another worker's pass, when records of event `e` are added. */
  lemma CommitPassOk(records: seq<Record>, added: seq<Record>, e: EventId, f: EventId, p: Pass)
    requires PassOk(records, f, p) && forall i :: 0 <= i < |added| ==> added[i].event == e
    ensures PassOk(records + added, f, p)
    ensures e != f && NothingSettled(records, p) ==> NothingSettled(records + added, p)
  {
    forall i | 0 <= i < p.visited ensures Settled(records + added, f, p.plan[i]) || RecordedIn(p.added, p.plan[i]) {
      SettledGrows(records, added, f, p.plan[i]);
    }
    if e != f && NothingSettled(records, p) {
      forall i | 0 <= i < |p.added| ensures !Settled(records + added, p.added[i].event, p.added[i].target) {
        SettledGrows(records, added, p.added[i].event, p.added[i].target);
      }
    }
  }

  lemma FinaliseKeepsInv(s: State, w: WorkerId)
    requires Inv(s) && Enabled(s, Finalise(w))
    ensures Inv(Next(s, Finalise(w)))
  {
    LiveIsClean(s, w);
    CommitKeepsInv(s, w);
  }

  lemma CrashKeepsSent(s: State, w: WorkerId, e: EventId, t: Target)
    requires SentOk(s, e, t) && Enabled(s, Crash(w))
    ensures SentOk(Next(s, Crash(w)), e, t)
  {
    var n := Next(s, Crash(w));
    assert SentOk(s, e, t);
    if (e, t) !in n.abandoned && InFlight(s, e, t) {
      var v :| v in s.workers && Live(s, v) && (e, t) in Uncommitted(s.workers[v]);
      assert v != w && Live(n, v);
    }
  }

  lemma CrashKeepsInv(s: State, w: WorkerId)
    requires Inv(s) && Enabled(s, Crash(w))
    ensures Inv(Next(s, Crash(w)))
  {
    var n := Next(s, Crash(w));
    forall v | v in n.workers ensures WorkerOk(n, v) {
      assert WorkerOk(s, v);
    }
    forall e, t ensures SentOk(n, e, t) {
      CrashKeepsSent(s, w, e, t);
    }
  }

  lemma StepKeepsInv(s: State, step: Step)
    requires Inv(s) && Enabled(s, step)
    ensures Inv(Next(s, step))
  {
    match step
    case Tick(seconds) => TickKeepsInv(s, seconds);
    case Enqueue(e) => EnqueueKeepsInv(s, e);
    case Claim(w, startedAt, batch) => ClaimKeepsInv(s, w, startedAt, batch);
    case Begin(w, plan) => BeginKeepsInv(s, w, plan);
    case Visit(w, outcome) => VisitKeepsInv(s, w, outcome);
    case Finalise(w) => FinaliseKeepsInv(s, w);
    case Crash(w) => CrashKeepsInv(s, w);
  }

  // ---------------------------------------------------------------- whole runs

  predicate ValidRun(s: State, steps: seq<Step>)
    decreases steps
  {
    steps == [] || (Enabled(s, steps[0]) && ValidRun(Next(s, steps[0]), steps[1..]))
  }

  function Run(s: State, steps: seq<Step>): State
    requires ValidRun(s, steps)
    decreases steps
  {
    if steps == [] then s else Run(Next(s, steps[0]), steps[1..])
  }

  lemma {:induction false} EveryRunKeepsInv(s: State, steps: seq<Step>)
    requires Inv(s) && ValidRun(s, steps)
    ensures Inv(Run(s, steps))
    decreases steps
  {
    if steps != [] {
      StepKeepsInv(s, steps[0]);
      EveryRunKeepsInv(Next(s, steps[0]), steps[1..]);
    }
  }

  /** Outbox safety over all interleavings, crashes and lease expiries. */
  lemma OutboxSafety(clock: int, steps: seq<Step>)
    requires ValidRun(Start(clock), steps)
    ensures var s := Run(Start(clock), steps);
      && OneHolder(s)
      && SettledOnce(s.records)
      && (forall e :: e in s.events ==> s.events[e].attempts <= MAX_ATTEMPTS)
      && (forall e, t :: (e, t) !in s.abandoned ==> s.sent[(e, t)] <= 1)
  {
    assert Inv(Start(clock));
    EveryRunKeepsInv(Start(clock), steps);
    var s := Run(Start(clock), steps);
    forall e, t | (e, t) !in s.abandoned ensures s.sent[(e, t)] <= 1 {
      assert SentOk(s, e, t);
    }
  }

  /** An unfinished event is due again within one lease, whatever happens to its worker. */
  ghost predicate NeverStuck(s: State) {
    forall e :: e in s.events && !Finished(s.events[e]) ==> s.events[e].availableAt <= s.clock + LEASE_SECONDS
  }

  lemma BackoffBounds(attempts: nat)
    requires attempts >= 1
    ensures 10 <= Backoff(attempts) <= 300
    ensures Backoff(attempts) <= Backoff(attempts + 1) <= 2 * Backoff(attempts)
  {
    assert Power2(attempts + 1) == 2 * Power2(attempts);
    assert Power2(attempts) >= 2 by { PowerGrows(attempts - 1); }
  }

  lemma {:induction false} PowerGrows(n: nat)
    ensures Power2(n) >= 1
  {
    if n > 0 { PowerGrows(n - 1); }
  }

  lemma {:induction false} EveryRunNeverStuck(s: State, steps: seq<Step>)
    requires NeverStuck(s) && ValidRun(s, steps)
    ensures NeverStuck(Run(s, steps))
    ensures forall e :: e in s.events ==> e in Run(s, steps).events
    decreases steps
  {
    if steps != [] {
      if steps[0].Finalise? {
        var e := WorkerAt(s, steps[0].worker).queue[0];
        BackoffBounds(s.events[e].attempts + 1);
      }
      EveryRunNeverStuck(Next(s, steps[0]), steps[1..]);
    }
  }

  /** Self-healing: no event is ever lost. After any run every event that was enqueued is still there, and
      an unfinished one can be claimed by anybody once one lease has gone by. */
  lemma NoEventIsLost(clock: int, steps: seq<Step>, e: EventId)
    requires ValidRun(Start(clock), steps) && e in Run(Start(clock), steps).events
    ensures var s := Run(Start(clock), steps);
      Finished(s.events[e]) || Claimable(Next(s, Tick(LEASE_SECONDS)).events[e], Next(s, Tick(LEASE_SECONDS)).clock)
  {
    EveryRunNeverStuck(Start(clock), steps);
  }

  predicate Finished(ev: Event) { ev.state.Completed? || ev.state.Dead? }

  lemma FinishedStays(s: State, step: Step, e: EventId)
    requires Inv(s) && Enabled(s, step) && e in s.events && Finished(s.events[e])
    ensures e in Next(s, step).events && Next(s, step).events[e] == s.events[e]
  {
    if step.Finalise? {
      assert WorkerOk(s, step.worker) && Live(s, step.worker);
    }
  }

  /** Completed and Dead are absorbing. */
  lemma {:induction false} FinishedForever(s: State, steps: seq<Step>, e: EventId)
    requires Inv(s) && ValidRun(s, steps) && e in s.events && Finished(s.events[e])
    ensures e in Run(s, steps).events && Run(s, steps).events[e] == s.events[e]
    decreases steps
  {
    if steps != [] {
      FinishedStays(s, steps[0], e);
      StepKeepsInv(s, steps[0]);
      FinishedForever(Next(s, steps[0]), steps[1..], e);
    }
  }

  /** An event becomes Completed only when a pass ends in which every target in force is settled by a
      committed record; it becomes Dead only at the fifth failed pass. */
  lemma CompletedMeansAllSettled(s: State, step: Step, e: EventId)
    requires Inv(s) && Enabled(s, step) && e in s.events && !Finished(s.events[e])
    requires Finished(Next(s, step).events[e])
    ensures step.Finalise? && InPass(s, step.worker) && WorkerAt(s, step.worker).queue[0] == e
    ensures Next(s, step).events[e].state.Completed? ==>
      forall t :: t in WorkerAt(s, step.worker).pass.value.plan ==> Settled(Next(s, step).records, e, t)
    ensures Next(s, step).events[e].state.Dead? ==>
      Next(s, step).events[e].attempts == MAX_ATTEMPTS && HasFailure(WorkerAt(s, step.worker).pass.value.added)
  {
    var w := step.worker;
    assert WorkerOk(s, w);
    var p := s.workers[w].pass.value;
    var n := Next(s, step);
    if n.events[e].state.Completed? {
      forall t | t in p.plan ensures Settled(n.records, e, t) {
        var i :| 0 <= i < |p.plan| && p.plan[i] == t;
        SettledGrows(s.records, p.added, e, t);
        if !Settled(s.records, e, t) {
          var j :| 0 <= j < |p.added| && p.added[j].target == t;
          assert Settles(p.added[j]);
          assert n.records[|s.records| + j] == p.added[j];
        }
      }
    }
  }

  /** The seconds until the next attempt, after the given number of attempts. */
  function Delay(attempts: nat): nat {
    match attempts
    case 1 => 10
    case 2 => 20
    case 3 => 40
    case 4 => 80
    case 5 => 160
    case _ => 300
  }

  lemma DelaysAreRight(attempts: nat)
    requires attempts >= 1
    ensures Backoff(attempts) == Delay(attempts)
  {
    assert Power2(0) == 1 && Power2(1) == 2 && Power2(2) == 4 && Power2(3) == 8 && Power2(4) == 16 && Power2(5) == 32;
    assert Power2(6) == 64;
    if attempts > 6 { PowerIsMonotone(6, attempts); }
  }

  lemma {:induction false} PowerIsMonotone(m: nat, n: nat)
    requires m <= n
    ensures Power2(m) <= Power2(n)
    decreases n
  {
    if m < n { PowerIsMonotone(m, n - 1); }
  }

  /** What the other steps do, exactly: a new event is Pending and due at once; a claim marks its events only, with
      the deadline as their next due time; a crash loses the pass and nothing else. */
  lemma StepsExactly(s: State, step: Step)
    requires Enabled(s, step)
    ensures var n := Next(s, step);
      && (step.Tick? ==> n.clock == s.clock + step.seconds && n.events == s.events && n.records == s.records)
      && (!step.Tick? ==> n.clock == s.clock)
      && (step.Enqueue? ==> n.events == s.events[step.event := Event(Pending, 0, s.clock)] && n.workers == s.workers)
      && (step.Claim? ==>
            && n.events.Keys == s.events.Keys && n.records == s.records
            && (forall e :: e in s.events ==>
                  n.events[e] == if e in step.batch
                    then Event(Processing, s.events[e].attempts, step.startedAt + 1800) else s.events[e])
            && WorkerAt(n, step.worker) == Busy(step.startedAt + 1800, step.batch, None))
      && (step.Crash? ==> n.events == s.events && n.records == s.records && WorkerAt(n, step.worker) == Idle)
  {
  }

  /** An event can be claimed exactly when it is due and not finished. */
  lemma ClaimableExactly(s: State, w: WorkerId, e: EventId)
    requires WorkerAt(s, w).Idle? && e in s.events
    ensures Enabled(s, Claim(w, s.clock, [e])) <==>
      s.events[e].state in {Pending, Retry, Processing} && s.events[e].availableAt <= s.clock
  {
    assert [e][0] == e;
  }

  /** What a visit does, exactly. A target settled before is passed by. Otherwise its outcome is recorded in the
      pass, a delivery goes out, and it is abandoned at once if the lease is over. */
  lemma VisitExactly(s: State, w: WorkerId, outcome: Delivery)
    requires Enabled(s, Visit(w, outcome))
    ensures var n, k, t := Next(s, Visit(w, outcome)), WorkerAt(s, w), NextTarget(s, w);
      var e, p := k.queue[0], k.pass.value;
      var settled := HasPrior(s.records, e, t);
      var added := if settled then p.added else p.added + [Record(e, t, outcome)];
      && n.events == s.events && n.records == s.records
      && WorkerAt(n, w) == Busy(k.deadline, k.queue, Some(Pass(p.plan, p.visited + 1, added)))
      && (forall v :: v != w ==> WorkerAt(n, v) == WorkerAt(s, v))
      && n.sent == (if !settled && outcome == Delivered then s.sent + multiset{(e, t)} else s.sent)
      && n.abandoned == (if !settled && outcome == Delivered && s.clock >= k.deadline
                         then s.abandoned + {(e, t)} else s.abandoned)
  {
    PriorSettles(s.records, WorkerAt(s, w).queue[0], NextTarget(s, w));
  }

  /** An earlier record that makes another delivery needless: Delivered, or Skipped on a channel. */
  predicate HasPrior(records: seq<Record>, e: EventId, t: Target) {
    Record(e, t, Delivered) in records || (Record(e, t, Skipped) in records && t in {Apns, WebPush, Smtp})
  }

  lemma PriorSettles(records: seq<Record>, e: EventId, t: Target)
    ensures Settled(records, e, t) <==> HasPrior(records, e, t)
  {
    if Settled(records, e, t) {
      var i :| 0 <= i < |records| && records[i].event == e && records[i].target == t && Settles(records[i]);
      assert records[i] == Record(e, t, records[i].outcome);
    }
  }

  /** A failure in the pass is a target that no record settles, before or after the commit. */
  lemma FailureIsUnsettled(s: State, w: WorkerId)
    requires Inv(s) && Enabled(s, Finalise(w))
    ensures HasFailure(WorkerAt(s, w).pass.value.added) <==>
      !AllSettled(Commit(s, w).records, WorkerAt(s, w).queue[0], WorkerAt(s, w).pass.value.plan)
  {
    assert WorkerOk(s, w) && Live(s, w);
    var e, p, records := s.workers[w].queue[0], s.workers[w].pass.value, Commit(s, w).records;
    if i :| 0 <= i < |p.added| && p.added[i].outcome.Failed? {
      var t := p.added[i].target;
      assert t in p.plan[..p.visited] && t in p.plan;
      SettledGrows(s.records, p.added, e, t);
      assert !Settled(records, e, t);
    } else {
      forall t | t in p.plan ensures Settled(records, e, t) {
        NoFailureSettles(s.records, e, p, t);
      }
    }
  }

  predicate AllSettled(records: seq<Record>, e: EventId, plan: seq<Target>) {
    forall t :: t in plan ==> Settled(records, e, t)
  }

  lemma NoFailureSettles(records: seq<Record>, e: EventId, p: Pass, t: Target)
    requires PassOk(records, e, p) && p.visited == |p.plan| && t in p.plan && !HasFailure(p.added)
    ensures Settled(records + p.added, e, t)
  {
    var i :| 0 <= i < |p.plan| && p.plan[i] == t;
    SettledGrows(records, p.added, e, t);
    if !Settled(records, e, t) {
      var j :| 0 <= j < |p.added| && p.added[j].target == t;
      assert (records + p.added)[|records| + j] == p.added[j] && Settles(p.added[j]);
    }
  }

  /** How a pass ends, exactly. The event is Completed if and only if every target of the pass is settled by a
      committed record. Otherwise it is Dead at the fifth attempt and in Retry before that, due after 10, 20, 40,
      80 or 160 seconds. The attempt counts, the records of the pass are kept, and no other event changes. */
  lemma FinaliseOutcome(s: State, w: WorkerId)
    requires Inv(s) && Enabled(s, Finalise(w))
    ensures var n, e, p := Next(s, Finalise(w)), WorkerAt(s, w).queue[0], WorkerAt(s, w).pass.value;
      && n.clock == s.clock && n.records == s.records + p.added
      && n.events.Keys == s.events.Keys && (forall f :: f in s.events && f != e ==> n.events[f] == s.events[f])
      && n.events[e].attempts == s.events[e].attempts + 1
      && (n.events[e].state == Completed <==> AllSettled(n.records, e, p.plan))
      && (n.events[e].state != Completed ==>
            && n.events[e].state == (if s.events[e].attempts == 4 then Dead else Retry)
            && n.events[e].availableAt == s.clock + Delay(s.events[e].attempts + 1))
  {
    assert WorkerOk(s, w) && Live(s, w);
    var e := s.workers[w].queue[0];
    assert EventOk(s.events[e]);
    FailureIsUnsettled(s, w);
    DelaysAreRight(s.events[e].attempts + 1);
  }

  /** The shape of a worker that has delivered `t` for `e` and not committed. */
  function Holding(deadline: int, e: EventId, t: Target): Worker {
    Busy(deadline, [e], Some(Pass([t], 1, [Record(e, t, Delivered)])))
  }

  /** One worker alone takes a due event, delivers it to one target, and has not committed. */
  lemma DeliverOnce(s: State, w: WorkerId, e: EventId, t: Target) returns (n: State)
    requires WorkerAt(s, w).Idle? && e in s.events && Claimable(s.events[e], s.clock) && !Settled(s.records, e, t)
    ensures ValidRun(s, [Claim(w, s.clock, [e]), Begin(w, [t]), Visit(w, Delivered)])
    ensures n == Run(s, [Claim(w, s.clock, [e]), Begin(w, [t]), Visit(w, Delivered)])
    ensures WorkerAt(n, w) == Holding(s.clock + LEASE_SECONDS, e, t)
    ensures forall v :: v != w ==> WorkerAt(n, v) == WorkerAt(s, v)
    ensures n.clock == s.clock && n.records == s.records && n.sent == s.sent + multiset{(e, t)}
    ensures e in n.events && n.events[e].state.Processing? && n.events[e].availableAt == s.clock + LEASE_SECONDS
  {
    var a, b, c := Claim(w, s.clock, [e]), Begin(w, [t]), Visit(w, Delivered);
    var s1 := Next(s, a);
    var s2 := Next(s1, b);
    assert InPass(s2, w) && NextTarget(s2, w) == t;
    n := Next(s2, c);
    assert [] + [Record(e, t, Delivered)] == [Record(e, t, Delivered)];
    assert n.workers[w].pass.value == Pass([t], 1, [Record(e, t, Delivered)]);
    assert [c][1..] == [] && [b, c][1..] == [c] && [a, b, c][1..] == [b, c];
    assert ValidRun(n, []) && Run(n, []) == n;
    Unroll(s2, [c], n);
    Unroll(s1, [b, c], n);
    Unroll(s, [a, b, c], n);
  }

  /** A run after which (e, t) has gone out more often than before. */
  ghost predicate CanSend(s: State, e: EventId, t: Target) {
    exists steps :: ValidRun(s, steps) && Run(s, steps).sent[(e, t)] > s.sent[(e, t)]
  }

  lemma StepAfterSettled(s: State, step: Step, e: EventId, t: Target)
    requires Enabled(s, step) && Settled(s.records, e, t)
    ensures Settled(Next(s, step).records, e, t) && Next(s, step).sent[(e, t)] == s.sent[(e, t)]
  {
    if step.Finalise? {
      SettledGrows(s.records, WorkerAt(s, step.worker).pass.value.added, e, t);
    }
  }

  /** A settled delivery never goes out again, whatever happens. */
  lemma {:induction false} SettledIsNeverSentAgain(s: State, steps: seq<Step>, e: EventId, t: Target)
    requires ValidRun(s, steps) && Settled(s.records, e, t)
    ensures Run(s, steps).sent[(e, t)] == s.sent[(e, t)]
    decreases steps
  {
    if steps != [] {
      StepAfterSettled(s, steps[0], e, t);
      SettledIsNeverSentAgain(Next(s, steps[0]), steps[1..], e, t);
    }
  }

  /** A worker id nobody uses. */
  ghost function SpareWorker(s: State): (w: WorkerId)
    ensures w !in s.workers
  {
    UpperBound(s.workers.Keys, 0) + 1
  }

  /** Wait until the event is due, then let a spare worker take and deliver it. */
  lemma UnsettledCanBeSent(s: State, e: EventId, t: Target) returns (steps: seq<Step>)
    requires e in s.events && !Finished(s.events[e]) && !Settled(s.records, e, t)
    ensures ValidRun(s, steps) && Run(s, steps).sent[(e, t)] == s.sent[(e, t)] + 1
  {
    var wait: nat := if s.events[e].availableAt > s.clock then s.events[e].availableAt - s.clock else 0;
    var due, w := Next(s, Tick(wait)), SpareWorker(s);
    var last := DeliverOnce(due, w, e, t);
    var rest := [Claim(w, due.clock, [e]), Begin(w, [t]), Visit(w, Delivered)];
    steps := [Tick(wait)] + rest;
    assert steps[1..] == rest;
    Unroll(s, steps, last);
  }

  /** The worker is at event `e` and has `t` still before it. */
  predicate Approaches(k: Worker, e: EventId, t: Target) {
    && k.Busy? && k.queue != [] && k.queue[0] == e
    && (k.pass.None? || (k.pass.value.visited <= |k.pass.value.plan| && t in k.pass.value.plan[k.pass.value.visited..]))
  }

  /** Somebody may still deliver a finished event: a worker that took it and has outlived its lease. */
  predicate LateWorker(s: State, e: EventId, t: Target) {
    exists w :: w in s.workers && Approaches(s.workers[w], e, t)
  }

  lemma StepWithoutLateWorker(s: State, step: Step, e: EventId, t: Target)
    requires Inv(s) && Enabled(s, step) && e in s.events && Finished(s.events[e]) && !LateWorker(s, e, t)
    ensures !LateWorker(Next(s, step), e, t) && Next(s, step).sent[(e, t)] == s.sent[(e, t)]
  {
    var n := Next(s, step);
    if step.Visit? {
      assert WorkerOk(s, step.worker) && !Approaches(WorkerAt(s, step.worker), e, t);
    }
    forall w | w in n.workers ensures !Approaches(n.workers[w], e, t) {
      if w in s.workers { assert WorkerOk(s, w) && !Approaches(s.workers[w], e, t); }
    }
  }

  lemma {:induction false} FinishedIsNotSentAgain(s: State, steps: seq<Step>, e: EventId, t: Target)
    requires Inv(s) && ValidRun(s, steps) && e in s.events && Finished(s.events[e]) && !LateWorker(s, e, t)
    ensures Run(s, steps).sent[(e, t)] == s.sent[(e, t)]
    decreases steps
  {
    if steps != [] {
      StepWithoutLateWorker(s, steps[0], e, t);
      FinishedStays(s, steps[0], e);
      StepKeepsInv(s, steps[0]);
      FinishedIsNotSentAgain(Next(s, steps[0]), steps[1..], e, t);
    }
  }

  /** A late worker reaches the target by visiting the ones before it. */
  lemma {:induction false} LateWorkerCanSend(s: State, w: WorkerId, e: EventId, t: Target) returns (steps: seq<Step>)
    requires w in s.workers && Approaches(s.workers[w], e, t) && s.workers[w].pass.Some? && !Settled(s.records, e, t)
    ensures ValidRun(s, steps) && Run(s, steps).sent[(e, t)] > s.sent[(e, t)]
    decreases |s.workers[w].pass.value.plan| - s.workers[w].pass.value.visited
  {
    var p := s.workers[w].pass.value;
    var step := if NextTarget(s, w) == t then Visit(w, Delivered) else Visit(w, Failed);
    var n := Next(s, step);
    if NextTarget(s, w) == t {
      steps := [step];
      assert steps[1..] == [] && Run(n, []) == n;
      Unroll(s, steps, n);
    } else {
      assert p.plan[p.visited..] == [p.plan[p.visited]] + p.plan[p.visited + 1..];
      var rest := LateWorkerCanSend(n, w, e, t);
      steps := [step] + rest;
      assert steps[1..] == rest;
      Unroll(s, steps, Run(n, rest));
    }
  }

  lemma LateWorkerSends(s: State, e: EventId, t: Target)
    requires LateWorker(s, e, t) && !Settled(s.records, e, t)
    ensures CanSend(s, e, t)
  {
    var w :| w in s.workers && Approaches(s.workers[w], e, t);
    if s.workers[w].pass.Some? {
      var steps := LateWorkerCanSend(s, w, e, t);
    } else {
      var n := Next(s, Begin(w, [t]));
      assert n.workers[w].pass.value.plan[0..] == [t];
      var rest := LateWorkerCanSend(n, w, e, t);
      var steps := [Begin(w, [t])] + rest;
      assert steps[1..] == rest;
      Unroll(s, steps, Run(n, rest));
    }
  }

  /** Exactly when a delivery can still go out, from every state the protocol can be in: no settling record is
      committed, and the event is unfinished or a worker that has outlived its lease is still on its way to the
      target. Whether it has gone out before makes no difference. */
  lemma CanSendExactly(s: State, e: EventId, t: Target)
    requires Inv(s) && e in s.events
    ensures CanSend(s, e, t) <==> !Settled(s.records, e, t) && (!Finished(s.events[e]) || LateWorker(s, e, t))
  {
    if Settled(s.records, e, t) {
      forall steps | ValidRun(s, steps) ensures Run(s, steps).sent[(e, t)] == s.sent[(e, t)] {
        SettledIsNeverSentAgain(s, steps, e, t);
      }
    } else if !Finished(s.events[e]) {
      var steps := UnsettledCanBeSent(s, e, t);
    } else if LateWorker(s, e, t) {
      LateWorkerSends(s, e, t);
    } else {
      forall steps | ValidRun(s, steps) ensures Run(s, steps).sent[(e, t)] == s.sent[(e, t)] {
        FinishedIsNotSentAgain(s, steps, e, t);
      }
    }
  }

  /** The instance the crash of a worker produces: a delivery that is out but not committed goes out again
      after the crash. The records stay unique, the network sees the event twice. */
  lemma CrashCanDeliverTwice(s: State, w: WorkerId, e: EventId, t: Target) returns (steps: seq<Step>)
    requires Inv(s) && w in s.workers && Live(s, w) && (e, t) in Uncommitted(s.workers[w])
    ensures steps != [] && steps[0] == Crash(w)
    ensures ValidRun(s, steps) && Run(s, steps).sent[(e, t)] == s.sent[(e, t)] + 1
  {
    assert WorkerOk(s, w);
    var down := Next(s, Crash(w));
    var rest := UnsettledCanBeSent(down, e, t);
    steps := [Crash(w)] + rest;
    assert steps[1..] == rest;
    Unroll(s, steps, Run(down, rest));
  }

  lemma Unroll(s: State, steps: seq<Step>, last: State)
    requires steps != [] && Enabled(s, steps[0])
    requires ValidRun(Next(s, steps[0]), steps[1..]) && Run(Next(s, steps[0]), steps[1..]) == last
    ensures ValidRun(s, steps) && Run(s, steps) == last
  {
  }

  lemma {:induction false} Append(s: State, a: seq<Step>, b: seq<Step>)
    requires ValidRun(s, a) && ValidRun(Run(s, a), b)
    ensures ValidRun(s, a + b) && Run(s, a + b) == Run(Run(s, a), b)
    decreases a
  {
    if a == [] {
      assert a + b == b;
    } else {
      assert (a + b)[0] == a[0] && (a + b)[1..] == a[1..] + b;
      Append(Next(s, a[0]), a[1..], b);
    }
  }

  const EVENT: EventId := 1
  const TARGET: Target := Connection(1)

  /** From the start: one event, taken and delivered by worker 1, not committed. */
  lemma FirstDelivery() returns (steps: seq<Step>)
    ensures ValidRun(Start(0), steps)
    ensures var n := Run(Start(0), steps);
      && n.clock == 0 && n.records == [] && n.sent == multiset{(EVENT, TARGET)}
      && WorkerAt(n, 1) == Holding(LEASE_SECONDS, EVENT, TARGET) && WorkerAt(n, 2).Idle?
      && EVENT in n.events && n.events[EVENT].state.Processing? && n.events[EVENT].availableAt == LEASE_SECONDS
  {
    var first := Next(Start(0), Enqueue(EVENT));
    var n := DeliverOnce(first, 1, EVENT, TARGET);
    var rest := [Claim(1, 0, [EVENT]), Begin(1, [TARGET]), Visit(1, Delivered)];
    steps := [Enqueue(EVENT)] + rest;
    assert steps[1..] == rest;
    Unroll(Start(0), steps, n);
    assert multiset{} + multiset{(EVENT, TARGET)} == multiset{(EVENT, TARGET)};
  }

  /** The crash at work: one event is enqueued, and goes out twice. */
  lemma CrashDeliversTwice() returns (steps: seq<Step>)
    ensures ValidRun(Start(0), steps) && Run(Start(0), steps).sent[(EVENT, TARGET)] == 2
  {
    var first := FirstDelivery();
    var n := Run(Start(0), first);
    EveryRunKeepsInv(Start(0), first);
    assert n.workers[1].pass.value.added[0] == Record(EVENT, TARGET, Delivered);
    var rest := CrashCanDeliverTwice(n, 1, EVENT, TARGET);
    Append(Start(0), first, rest);
    steps := first + rest;
  }

  // ---------------------------------------------------------------- commits after the deadline

  /** What a commit does when it comes too late: settling records stay unique if and only if nothing in the pass
      was settled meanwhile, and finished events stay as they are if and only if this one is unfinished. */
  lemma LateCommitExactly(s: State, w: WorkerId)
    requires Inv(s) && PassEnded(s, w)
    ensures SettledOnce(Commit(s, w).records) <==> NoneSettledMeanwhile(s.records, WorkerAt(s, w).pass.value)
    ensures !Finished(s.events[WorkerAt(s, w).queue[0]]) <==>
      forall e :: e in s.events && Finished(s.events[e]) ==> Commit(s, w).events[e] == s.events[e]
  {
    assert WorkerOk(s, w);
    CommitSettlesOnce(s, w);
    var e := WorkerAt(s, w).queue[0];
    assert Commit(s, w).events[e].attempts == s.events[e].attempts + 1;
  }

  datatype AnyStep = OnTime(step: Step) | Late(worker: WorkerId)

  predicate AnyEnabled(s: State, a: AnyStep) {
    match a
    case OnTime(step) => Enabled(s, step)
    case Late(w) => PassEnded(s, w) && !Live(s, w) && Clean(s, w)
  }

  function AnyNext(s: State, a: AnyStep): State
    requires AnyEnabled(s, a)
  {
    match a
    case OnTime(step) => Next(s, step)
    case Late(w) => Commit(s, w)
  }

  predicate ValidAnyRun(s: State, steps: seq<AnyStep>)
    decreases steps
  {
    steps != [] ==> AnyEnabled(s, steps[0]) && ValidAnyRun(AnyNext(s, steps[0]), steps[1..])
  }

  function AnyRun(s: State, steps: seq<AnyStep>): State
    requires ValidAnyRun(s, steps)
    decreases steps
  {
    if steps == [] then s else AnyRun(AnyNext(s, steps[0]), steps[1..])
  }

  lemma AnyStepKeepsInv(s: State, a: AnyStep)
    requires Inv(s) && AnyEnabled(s, a)
    ensures Inv(AnyNext(s, a))
  {
    match a
    case OnTime(step) => StepKeepsInv(s, step);
    case Late(w) => CommitKeepsInv(s, w);
  }

  lemma AnyStepKeepsFinished(s: State, a: AnyStep, e: EventId)
    requires Inv(s) && AnyEnabled(s, a) && e in s.events && Finished(s.events[e])
    ensures e in AnyNext(s, a).events && AnyNext(s, a).events[e] == s.events[e]
  {
    if a.OnTime? { FinishedStays(s, a.step, e); }
  }

  /** The protocol is as safe as before when workers commit after their deadline, as long as nobody has taken
      over, finished or settled what they commit. */
  lemma {:induction false} CleanLateCommitsAreSafe(s: State, steps: seq<AnyStep>)
    requires Inv(s) && ValidAnyRun(s, steps)
    ensures Inv(AnyRun(s, steps))
    ensures forall e :: e in s.events && Finished(s.events[e]) ==>
      e in AnyRun(s, steps).events && AnyRun(s, steps).events[e] == s.events[e]
    decreases steps
  {
    if steps != [] {
      AnyStepKeepsInv(s, steps[0]);
      forall e | e in s.events && Finished(s.events[e])
        ensures e in AnyNext(s, steps[0]).events && AnyNext(s, steps[0]).events[e] == s.events[e]
      {
        AnyStepKeepsFinished(s, steps[0], e);
      }
      CleanLateCommitsAreSafe(AnyNext(s, steps[0]), steps[1..]);
    }
  }

  /** Two workers that have both delivered to the same target commit one after the other. */
  lemma BothCommit(s: State, d1: int, d2: int)
    requires WorkerAt(s, 1) == Holding(d1, EVENT, TARGET) && WorkerAt(s, 2) == Holding(d2, EVENT, TARGET)
    requires EVENT in s.events && s.records == [] && s.clock < d2
    ensures Enabled(s, Finalise(2)) && PassEnded(Commit(s, 2), 1)
    ensures !SettledOnce(Commit(Commit(s, 2), 1).records)
  {
    var delivered := Record(EVENT, TARGET, Delivered);
    assert Commit(s, 2).records == [delivered] && WorkerAt(Commit(s, 2), 1) == WorkerAt(s, 1);
    var records := Commit(Commit(s, 2), 1).records;
    assert records == [delivered, delivered];
    assert SameDelivery(records[0], records[1]) && Settles(records[0]) && Settles(records[1]);
  }

  lemma OneStep(s: State, step: Step)
    requires Enabled(s, step)
    ensures ValidRun(s, [step]) && Run(s, [step]) == Next(s, step)
  {
    assert [step][1..] == [] && ValidRun(Next(s, step), []) && Run(Next(s, step), []) == Next(s, step);
    Unroll(s, [step], Next(s, step));
  }

  /** A commit that is not clean: worker 1 outlives its lease, worker 2 delivers and commits, then worker 1 commits
      as well, and the delivery is recorded twice. */
  lemma LateCommitRecordsTwice() returns (steps: seq<Step>)
    ensures ValidRun(Start(0), steps) && PassEnded(Run(Start(0), steps), 1)
    ensures !SettledOnce(Commit(Run(Start(0), steps), 1).records)
  {
    var first := FirstDelivery();
    var n := Run(Start(0), first);
    OneStep(n, Tick(LEASE_SECONDS));
    var late := Next(n, Tick(LEASE_SECONDS));
    var again := DeliverOnce(late, 2, EVENT, TARGET);
    BothCommit(again, LEASE_SECONDS, 2 * LEASE_SECONDS);
    OneStep(again, Finalise(2));
    var claim := [Claim(2, late.clock, [EVENT]), Begin(2, [TARGET]), Visit(2, Delivered)];
    Append(Start(0), first, [Tick(LEASE_SECONDS)]);
    Append(Start(0), first + [Tick(LEASE_SECONDS)], claim);
    Append(Start(0), first + [Tick(LEASE_SECONDS)] + claim, [Finalise(2)]);
    steps := first + [Tick(LEASE_SECONDS)] + claim + [Finalise(2)];
  }
}
