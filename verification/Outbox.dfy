/**
  * The outbox: any number of sender jobs claim queued rows, hand them to the provider and record the
  * outcome, while jobs may die at any point and stale claims are released by the clock.
  */
module Outbox {
  import opened Util

  type RowId = nat
  type JobId = nat

  datatype Status = PendingApproval | Queued | Sending | Sent | Failed

  datatype Row = Row(
    status: Status, lockedAt: Option<nat>, attempts: nat, sentAt: Option<nat>, createdAt: nat, needsApproval: bool)

  const CLAIM_TIMEOUT_S: nat := 900

  // ---- What each transaction does to the table ----

  function NewRow(now: nat, requiresApproval: bool): Row {
    Row(if requiresApproval then PendingApproval else Queued, None, 0, None, now, requiresApproval)
  }

  predicate Stale(row: Row, now: nat) {
    row.status == Sending && row.lockedAt.Some? && row.lockedAt.value + CLAIM_TIMEOUT_S < now
  }

  function Released(rows: map<RowId, Row>, now: nat): map<RowId, Row> {
    map r | r in rows :: if Stale(rows[r], now) then rows[r].(status := Queued, lockedAt := None) else rows[r]
  }

  function Claimed(rows: map<RowId, Row>, chosen: set<RowId>, now: nat): map<RowId, Row> {
    map r | r in rows :: if r in chosen then rows[r].(status := Sending, lockedAt := Some(now)) else rows[r]
  }

  /** What the provider call came to, as `send_one` sees it. */
  datatype Outcome = Accepted | Transient | Permanent

  function Settled(row: Row, outcome: Outcome, now: nat): Row {
    match outcome
    case Accepted => row.(status := Sent, sentAt := Some(now))
    case Transient => row.(status := Queued, attempts := row.attempts + 1)
    case Permanent => row.(status := Failed, attempts := row.attempts + 1)
  }

  // ---- The protocol ----

  /** Where a job is: between rows, waiting for the provider, or holding an unrecorded acceptance. */
  datatype Phase = Between | Submitted(row: RowId) | Acknowledged(row: RowId)

  datatype Job = Job(start: nat, claimed: seq<RowId>, phase: Phase)

  /**
    * `accepted` counts provider acceptances per row; `unrecorded` those whose job died before the
    * commit, or whose reply was lost or misread as a failure.
    */
  datatype World = World(
    rows: map<RowId, Row>, jobs: map<JobId, Job>, now: nat,
    accepted: multiset<RowId>, unrecorded: multiset<RowId>, approved: set<RowId>)

  datatype Action =
    | Tick(seconds: nat)
    | Queue(row: RowId, requiresApproval: bool)
    | Approve(row: RowId)
    | Start(job: JobId)
    | Release(job: JobId)
    | Claim(job: JobId, chosen: seq<RowId>)
    | Begin(job: JobId)
    | Accept(job: JobId)
    | Record(job: JobId)
    | Refuse(job: JobId, outcome: Outcome)
    | LoseReply(job: JobId, outcome: Outcome)
    | Die(job: JobId)

  /** No job lives longer than `longest`: the worker's job timeout, a setting with the same default of 900 s. */
  ghost predicate LivesWithin(jobs: map<JobId, Job>, now: nat, longest: nat) {
    forall j :: j in jobs ==> now <= jobs[j].start + longest
  }

  ghost predicate Enabled(w: World, a: Action, longest: nat) {
    Possible(w, a) && (a.Tick? ==> LivesWithin(w.jobs, w.now + a.seconds, longest))
  }

  ghost predicate Possible(w: World, a: Action) {
    match a
    case Tick(seconds) => true
    case Queue(row, _) => row !in w.rows
    case Approve(row) => row in w.rows && w.rows[row].status !in {Sent, Sending}
    case Start(job) => job !in w.jobs
    case Release(job) => job in w.jobs
    case Claim(job, chosen) =>
      job in w.jobs && w.jobs[job].phase == Between && w.jobs[job].claimed == [] && NoRepeats(chosen)
      && forall r :: r in chosen ==> r in w.rows && w.rows[r].status == Queued
    case Begin(job) => job in w.jobs && w.jobs[job].phase == Between && w.jobs[job].claimed != []
    case Accept(job) => job in w.jobs && w.jobs[job].phase.Submitted?
    case Record(job) => job in w.jobs && w.jobs[job].phase.Acknowledged?
    case Refuse(job, outcome) => job in w.jobs && w.jobs[job].phase.Submitted? && outcome != Accepted
    case LoseReply(job, outcome) => job in w.jobs && w.jobs[job].phase.Acknowledged? && outcome != Accepted
    case Die(job) => job in w.jobs
  }

  function WithRow(w: World, r: RowId, row: Row): World {
    w.(rows := w.rows[r := row])
  }

  function ApprovedRow(w: World, r: RowId): World
    requires r in w.rows
  {
    WithRow(w, r, w.rows[r].(status := Queued)).(approved := w.approved + {r})
  }

  function WithJob(w: World, j: JobId, job: Job): World {
    w.(jobs := w.jobs[j := job])
  }

  function SettleRow(rows: map<RowId, Row>, r: RowId, outcome: Outcome, now: nat): map<RowId, Row> {
    if r in rows then rows[r := Settled(rows[r], outcome, now)] else rows
  }

  ghost function Next(w: World, a: Action): World
    requires Possible(w, a)
  {
    match a
    case Tick(seconds) => w.(now := w.now + seconds)
    case Queue(row, requiresApproval) => WithRow(w, row, NewRow(w.now, requiresApproval))
    case Approve(row) => ApprovedRow(w, row)
    case Start(job) => WithJob(w, job, Job(w.now, [], Between))
    case Release(job) => w.(rows := Released(w.rows, w.now))
    case Claim(job, chosen) =>
      WithJob(w, job, w.jobs[job].(claimed := chosen)).(rows := Claimed(w.rows, Elements(chosen), w.now))
    case Begin(job) =>
      var held, row := w.jobs[job].claimed, w.jobs[job].claimed[0];
      if row in w.rows then
        var busy := WithJob(w, job, w.jobs[job].(claimed := held[1..], phase := Submitted(row)));
        WithRow(busy, row, w.rows[row].(status := Sending))
      else WithJob(w, job, w.jobs[job].(claimed := held[1..]))
    case Accept(job) =>
      var row := w.jobs[job].phase.row;
      WithJob(w, job, w.jobs[job].(phase := Acknowledged(row))).(accepted := w.accepted + multiset{row})
    case Record(job) =>
      WithJob(w, job, w.jobs[job].(phase := Between))
        .(rows := SettleRow(w.rows, w.jobs[job].phase.row, Accepted, w.now))
    case Refuse(job, outcome) =>
      WithJob(w, job, w.jobs[job].(phase := Between)).(rows := SettleRow(w.rows, w.jobs[job].phase.row, outcome, w.now))
    case LoseReply(job, outcome) =>
      var row := w.jobs[job].phase.row;
      WithJob(w, job, w.jobs[job].(phase := Between))
        .(rows := SettleRow(w.rows, row, outcome, w.now), unrecorded := w.unrecorded + multiset{row})
    case Die(job) =>
      var gone := w.(jobs := w.jobs - {job});
      if w.jobs[job].phase.Acknowledged? then gone.(unrecorded := w.unrecorded + multiset{w.jobs[job].phase.row})
      else gone
  }

  // ---- Invariant ----

  ghost predicate Holds(job: Job, r: RowId) {
    r in job.claimed || (!job.phase.Between? && job.phase.row == r)
  }

  /** A held row is being sent under a claim taken during the job's life. */
  ghost predicate HeldProperly(w: World, job: Job, r: RowId) {
    && r in w.rows && w.rows[r].status == Sending
    && w.rows[r].lockedAt.Some? && job.start <= w.rows[r].lockedAt.value
  }

  ghost predicate OneHolder(jobs: map<JobId, Job>) {
    && (forall i, j, r :: i in jobs && j in jobs && Holds(jobs[i], r) && Holds(jobs[j], r) ==> i == j)
    && (forall j :: j in jobs ==> NoRepeats(jobs[j].claimed))
    && (forall j :: j in jobs && !jobs[j].phase.Between? ==> jobs[j].phase.row !in jobs[j].claimed)
  }

  ghost predicate Awaiting(w: World, r: RowId) {
    exists j :: j in w.jobs && w.jobs[j].phase == Acknowledged(r)
  }

  /** Every acceptance is recorded, about to be recorded, or counted as unrecorded. */
  ghost predicate Accounted(w: World, r: RowId) {
    w.accepted[r] == w.unrecorded[r]
      + (if r in w.rows && w.rows[r].status == Sent then 1 else 0) + (if Awaiting(w, r) then 1 else 0)
  }

  ghost predicate ApprovedFirst(w: World, r: RowId) {
    && (r !in w.rows ==> w.accepted[r] == 0)
    && (r in w.rows && w.rows[r].status == PendingApproval ==> w.accepted[r] == 0)
    && (r in w.rows && w.rows[r].needsApproval && w.rows[r].status != PendingApproval ==> r in w.approved)
  }

  ghost predicate Inv(w: World) {
    && LivesWithin(w.jobs, w.now, CLAIM_TIMEOUT_S)
    && (forall j :: j in w.jobs ==> w.jobs[j].start <= w.now)
    && (forall j, r :: j in w.jobs && Holds(w.jobs[j], r) ==> HeldProperly(w, w.jobs[j], r))
    && OneHolder(w.jobs)
    && forall r :: Accounted(w, r) && ApprovedFirst(w, r)
  }

  /** A hold comes from an earlier hold of the same job, or from this very claim of a queued row. */
  lemma HoldsBefore(w: World, a: Action, j: JobId, r: RowId)
    requires Inv(w) && Enabled(w, a, CLAIM_TIMEOUT_S) && j in Next(w, a).jobs && Holds(Next(w, a).jobs[j], r)
    ensures j in w.jobs && Next(w, a).jobs[j].start == w.jobs[j].start
    ensures Holds(w.jobs[j], r) || (a.Claim? && a.job == j && r in a.chosen && w.rows[r].status == Queued)
  {
  }

  lemma StepKeepsHeld(w: World, a: Action, j: JobId, r: RowId)
    requires Inv(w) && Enabled(w, a, CLAIM_TIMEOUT_S) && j in Next(w, a).jobs && Holds(Next(w, a).jobs[j], r)
    ensures HeldProperly(Next(w, a), Next(w, a).jobs[j], r)
  {
    HoldsBefore(w, a, j, r);
    if Holds(w.jobs[j], r) {
      assert HeldProperly(w, w.jobs[j], r);
      assert !Stale(w.rows[r], w.now);
      if (a.Record? || a.Refuse? || a.LoseReply?) && a.job != j {
        assert Holds(w.jobs[a.job], w.jobs[a.job].phase.row);
      }
    }
  }

  lemma AwaitingSteps(w: World, a: Action, r: RowId)
    requires Inv(w) && Enabled(w, a, CLAIM_TIMEOUT_S)
    ensures var next, done := Next(w, a), a.Record? || a.LoseReply? || a.Die?;
      && (a.Accept? && w.jobs[a.job].phase.row == r ==> !Awaiting(w, r) && Awaiting(next, r))
      && (done && w.jobs[a.job].phase == Acknowledged(r) ==> Awaiting(w, r) && !Awaiting(next, r))
      && (!(a.Accept? && w.jobs[a.job].phase.row == r) && !(done && w.jobs[a.job].phase == Acknowledged(r)) ==>
            (Awaiting(w, r) <==> Awaiting(next, r)))
  {
    var next := Next(w, a);
    if a.Accept? && w.jobs[a.job].phase.row == r {
      assert next.jobs[a.job].phase == Acknowledged(r);
    }
    if Awaiting(w, r) {
      var j :| j in w.jobs && w.jobs[j].phase == Acknowledged(r);
      assert Holds(w.jobs[j], r);
      if a.Accept? {
        assert Holds(w.jobs[a.job], w.jobs[a.job].phase.row);
      }
      if j in next.jobs && next.jobs[j].phase == Acknowledged(r) {
        assert Awaiting(next, r);
      }
    }
    if Awaiting(next, r) {
      var j :| j in next.jobs && next.jobs[j].phase == Acknowledged(r);
      assert Holds(next.jobs[j], r);
    }
  }

  /** The row a job works on is being sent. */
  lemma WorkedRowIsSending(w: World, a: Action)
    requires Inv(w) && Enabled(w, a, CLAIM_TIMEOUT_S)
    ensures (a.Accept? || a.Record? || a.Refuse? || a.LoseReply?) ==>
      var r := w.jobs[a.job].phase.row; r in w.rows && w.rows[r].status == Sending
    ensures a.Begin? ==>
      var r := w.jobs[a.job].claimed[0]; r in w.rows && w.rows[r].status == Sending
  {
    match a
    case Begin(job) => assert Holds(w.jobs[job], w.jobs[job].claimed[0]);
    case Accept(job) => assert Holds(w.jobs[job], w.jobs[job].phase.row);
    case Record(job) => assert Holds(w.jobs[job], w.jobs[job].phase.row);
    case Refuse(job, outcome) => assert Holds(w.jobs[job], w.jobs[job].phase.row);
    case LoseReply(job, outcome) => assert Holds(w.jobs[job], w.jobs[job].phase.row);
    case _ =>
  }

  lemma StepKeepsAccounted(w: World, a: Action, r: RowId)
    requires Inv(w) && Enabled(w, a, CLAIM_TIMEOUT_S)
    ensures Accounted(Next(w, a), r)
  {
    hide Awaiting, OneHolder, HeldProperly, LivesWithin;
    assert Accounted(w, r);
    AwaitingSteps(w, a, r);
    WorkedRowIsSending(w, a);
  }

  lemma StepKeepsApprovedFirst(w: World, a: Action, r: RowId)
    requires Inv(w) && Enabled(w, a, CLAIM_TIMEOUT_S)
    ensures ApprovedFirst(Next(w, a), r)
  {
    hide Awaiting, OneHolder, HeldProperly, LivesWithin;
    assert Accounted(w, r) && ApprovedFirst(w, r);
    WorkedRowIsSending(w, a);
  }

  lemma StepKeepsOneHolder(w: World, a: Action)
    requires Inv(w) && Enabled(w, a, CLAIM_TIMEOUT_S)
    ensures OneHolder(Next(w, a).jobs)
  {
    var next := Next(w, a);
    forall i, j, r | i in next.jobs && j in next.jobs && Holds(next.jobs[i], r) && Holds(next.jobs[j], r)
      ensures i == j
    {
      HoldsBefore(w, a, i, r);
      HoldsBefore(w, a, j, r);
      if Holds(w.jobs[i], r) {
        assert HeldProperly(w, w.jobs[i], r);
      }
      if Holds(w.jobs[j], r) {
        assert HeldProperly(w, w.jobs[j], r);
      }
    }
  }

  lemma StepKeepsClock(w: World, a: Action)
    requires Inv(w) && Enabled(w, a, CLAIM_TIMEOUT_S)
    ensures LivesWithin(Next(w, a).jobs, Next(w, a).now, CLAIM_TIMEOUT_S)
    ensures forall j :: j in Next(w, a).jobs ==> Next(w, a).jobs[j].start <= Next(w, a).now
  {
  }

  lemma StepKeepsInv(w: World, a: Action)
    requires Inv(w) && Enabled(w, a, CLAIM_TIMEOUT_S)
    ensures Inv(Next(w, a))
  {
    hide Next, OneHolder, LivesWithin, HeldProperly, Accounted, ApprovedFirst, Holds;
    StepKeepsClock(w, a);
    StepKeepsOneHolder(w, a);
    var next := Next(w, a);
    forall j, r | j in next.jobs && Holds(next.jobs[j], r) ensures HeldProperly(next, next.jobs[j], r) {
      StepKeepsHeld(w, a, j, r);
    }
    forall r ensures Accounted(next, r) && ApprovedFirst(next, r) {
      StepKeepsAccounted(w, a, r);
      StepKeepsApprovedFirst(w, a, r);
    }
  }

  lemma AwaitingIsSending(w: World, r: RowId)
    requires Inv(w)
    ensures Awaiting(w, r) ==> r in w.rows && w.rows[r].status == Sending
  {
    if Awaiting(w, r) {
      var j :| j in w.jobs && w.jobs[j].phase == Acknowledged(r);
      assert Holds(w.jobs[j], r) && HeldProperly(w, w.jobs[j], r);
    }
  }

  // ---- Every run ----

  ghost predicate Steps(worlds: seq<World>, actions: seq<Action>, longest: nat) {
    && |worlds| == |actions| + 1
    && forall i :: 0 <= i < |actions| ==>
      Enabled(worlds[i], actions[i], longest) && worlds[i + 1] == Next(worlds[i], actions[i])
  }

  ghost predicate Run(worlds: seq<World>, actions: seq<Action>, longest: nat) {
    && Steps(worlds, actions, longest)
    && worlds[0] == World(map[], map[], worlds[0].now, multiset{}, multiset{}, worlds[0].approved)
  }

  lemma {:induction false} RunKeepsInv(worlds: seq<World>, actions: seq<Action>, longest: nat, i: nat)
    requires Run(worlds, actions, longest) && longest <= CLAIM_TIMEOUT_S && i <= |actions|
    ensures Inv(worlds[i])
    decreases i
  {
    hide Inv, Possible, Next;
    if i == 0 {
      NothingYet(worlds[0]);
    } else {
      RunKeepsInv(worlds, actions, longest, i - 1);
      assert Enabled(worlds[i - 1], actions[i - 1], CLAIM_TIMEOUT_S);
      StepKeepsInv(worlds[i - 1], actions[i - 1]);
    }
  }

  lemma NothingYet(w: World)
    requires w == World(map[], map[], w.now, multiset{}, multiset{}, w.approved)
    ensures Inv(w)
  {
  }

  /** No two live jobs ever hold the same row. */
  lemma NoDoubleHold(
    worlds: seq<World>, actions: seq<Action>, longest: nat, n: nat, i: JobId, j: JobId, r: RowId)
    requires Run(worlds, actions, longest) && longest <= CLAIM_TIMEOUT_S && n <= |actions|
    requires i in worlds[n].jobs && Holds(worlds[n].jobs[i], r) && j in worlds[n].jobs && Holds(worlds[n].jobs[j], r)
    ensures i == j
  {
    RunKeepsInv(worlds, actions, longest, n);
  }

  /**
    * A row is accepted by the provider at most once more than its acceptances went unrecorded, and
    * exactly that often once it is `sent` or no job awaits its commit.
    */
  lemma BoundedRedelivery(worlds: seq<World>, actions: seq<Action>, longest: nat, n: nat, r: RowId)
    requires Run(worlds, actions, longest) && longest <= CLAIM_TIMEOUT_S && n <= |actions|
    ensures var w := worlds[n];
      && w.accepted[r] <= 1 + w.unrecorded[r]
      && (r in w.rows && w.rows[r].status == Sent ==> w.accepted[r] == 1 + w.unrecorded[r])
      && (w.jobs == map[] && !(r in w.rows && w.rows[r].status == Sent) ==> w.accepted[r] == w.unrecorded[r])
  {
    RunKeepsInv(worlds, actions, longest, n);
    assert Accounted(worlds[n], r);
    AwaitingIsSending(worlds[n], r);
  }

  /** A message that needs approval reaches the provider only after `approve`. */
  lemma NothingSentBeforeApproval(worlds: seq<World>, actions: seq<Action>, longest: nat, n: nat, r: RowId)
    requires Run(worlds, actions, longest) && longest <= CLAIM_TIMEOUT_S && n <= |actions|
    requires r in worlds[n].rows && worlds[n].rows[r].needsApproval && worlds[n].accepted[r] > 0
    ensures r in worlds[n].approved
  {
    RunKeepsInv(worlds, actions, longest, n);
    assert ApprovedFirst(worlds[n], r);
  }

  // ---- What a refusal does ----

  /** The action reports a failed attempt on the row its job works on. */
  ghost predicate Fails(w: World, a: Action, r: RowId) {
    && (a.Refuse? || a.LoseReply?) && a.outcome != Accepted
    && a.job in w.jobs && !w.jobs[a.job].phase.Between? && w.jobs[a.job].phase.row == r
  }

  /** Only an approval takes a failed row back. */
  lemma FailedStays(w: World, a: Action, r: RowId)
    requires Inv(w) && Enabled(w, a, CLAIM_TIMEOUT_S) && a != Approve(r)
    requires r in w.rows && w.rows[r].status == Failed
    ensures var next := Next(w, a);
      && r in next.rows && next.rows[r].status == Failed && next.accepted[r] == w.accepted[r]
  {
    hide Awaiting, OneHolder, HeldProperly, LivesWithin, Accounted, ApprovedFirst;
    WorkedRowIsSending(w, a);
  }

  lemma PermanentFails(w: World, a: Action, r: RowId)
    requires Inv(w) && Enabled(w, a, CLAIM_TIMEOUT_S) && Fails(w, a, r) && a.outcome == Permanent
    ensures var next := Next(w, a);
      && r in next.rows && next.rows[r].status == Failed && next.accepted[r] == w.accepted[r]
  {
    hide Awaiting, OneHolder, HeldProperly, LivesWithin, Accounted, ApprovedFirst;
    WorkedRowIsSending(w, a);
  }

  /**
    * After a permanent failure, and until an approval of the row, no job can ever claim it and the
    * provider does not accept it again.
    */
  lemma {:induction false} PermanentIsFinal(
    worlds: seq<World>, actions: seq<Action>, longest: nat, n: nat, m: nat, r: RowId)
    requires Run(worlds, actions, longest) && longest <= CLAIM_TIMEOUT_S && n < m <= |actions|
    requires Fails(worlds[n], actions[n], r) && actions[n].outcome == Permanent
    requires forall i :: n < i < m ==> actions[i] != Approve(r)
    ensures worlds[m].accepted[r] == worlds[n].accepted[r]
    ensures r in worlds[m].rows && worlds[m].rows[r].status == Failed
    ensures forall j, chosen :: r in chosen ==> !Enabled(worlds[m], Claim(j, chosen), longest)
    decreases m
  {
    hide Inv, Next;
    RunKeepsInv(worlds, actions, longest, m - 1);
    assert Enabled(worlds[m - 1], actions[m - 1], CLAIM_TIMEOUT_S);
    if m == n + 1 {
      PermanentFails(worlds[n], actions[n], r);
    } else {
      PermanentIsFinal(worlds, actions, longest, n, m - 1, r);
      FailedStays(worlds[m - 1], actions[m - 1], r);
    }
  }

  /** After a transient failure the row is free at once: any job between rows can claim it. */
  lemma TransientIsRetried(
    worlds: seq<World>, actions: seq<Action>, longest: nat, n: nat, r: RowId, j: JobId)
    requires Run(worlds, actions, longest) && longest <= CLAIM_TIMEOUT_S && n < |actions|
    requires Fails(worlds[n], actions[n], r) && actions[n].outcome == Transient
    requires j in worlds[n + 1].jobs && worlds[n + 1].jobs[j].phase == Between && worlds[n + 1].jobs[j].claimed == []
    ensures Enabled(worlds[n + 1], Claim(j, [r]), longest)
  {
    hide Awaiting, OneHolder, HeldProperly, LivesWithin, Accounted, ApprovedFirst;
    RunKeepsInv(worlds, actions, longest, n);
    assert Enabled(worlds[n], actions[n], CLAIM_TIMEOUT_S);
    WorkedRowIsSending(worlds[n], actions[n]);
  }

  /** Waiting for approval, queued or failed: an approval of the row lets any job between rows claim it at once. */
  lemma ApprovalFrees(w: World, r: RowId, j: JobId, longest: nat)
    requires r in w.rows && w.rows[r].status in {PendingApproval, Queued, Failed}
    requires j in w.jobs && w.jobs[j].phase == Between && w.jobs[j].claimed == []
    ensures Enabled(w, Approve(r), longest) && Enabled(Next(w, Approve(r)), Claim(j, [r]), longest)
    ensures Next(w, Approve(r)).rows[r].attempts == w.rows[r].attempts
  {
  }

  /** How often an attempt on the row failed so far. */
  ghost function Failures(worlds: seq<World>, actions: seq<Action>, n: nat, r: RowId): nat
    requires n <= |actions| < |worlds|
  {
    if n == 0 then 0
    else
      Failures(worlds, actions, n - 1, r)
      + if Fails(worlds[n - 1], actions[n - 1], r) then 1 else 0
  }

  /** `attempts` counts the failed attempts, lost replies included. */
  lemma {:induction false} AttemptsAreFailures(
    worlds: seq<World>, actions: seq<Action>, longest: nat, n: nat, r: RowId)
    requires Run(worlds, actions, longest) && longest <= CLAIM_TIMEOUT_S && n <= |actions|
    ensures if r in worlds[n].rows
      then worlds[n].rows[r].attempts == Failures(worlds, actions, n, r)
      else Failures(worlds, actions, n, r) == 0
    decreases n
  {
    if n > 0 {
      AttemptsAreFailures(worlds, actions, longest, n - 1, r);
      hide Run;
      OneStepCounts(worlds, actions, longest, n, r);
    }
  }

  lemma OneStepCounts(worlds: seq<World>, actions: seq<Action>, longest: nat, n: nat, r: RowId)
    requires Run(worlds, actions, longest) && longest <= CLAIM_TIMEOUT_S && 0 < n <= |actions|
    ensures var w, next := worlds[n - 1], worlds[n];
      var fails := Fails(w, actions[n - 1], r);
      && (r in w.rows ==> r in next.rows && next.rows[r].attempts == w.rows[r].attempts + if fails then 1 else 0)
      && (r !in w.rows && r in next.rows ==> next.rows[r].attempts == 0)
      && (r !in w.rows ==> !fails)
  {
    hide Awaiting, OneHolder, HeldProperly, Accounted, ApprovedFirst;
    RunKeepsInv(worlds, actions, longest, n - 1);
    var w, a := worlds[n - 1], actions[n - 1];
    assert Enabled(w, a, CLAIM_TIMEOUT_S);
    WorkedRowIsSending(w, a);
  }

  // ---- Where the times of a row come from ----

  ghost predicate Claims(a: Action, r: RowId) {
    a.Claim? && r in a.chosen
  }

  ghost predicate Delivers(w: World, a: Action, r: RowId) {
    a.Record? && a.job in w.jobs && w.jobs[a.job].phase == Acknowledged(r)
  }

  /** More than fifteen minutes have passed since the claim of a row that is still being sent. */
  ghost predicate Overdue(w: World, r: RowId) {
    r in w.rows && w.rows[r].status == Sending && w.rows[r].lockedAt.Some? && w.now - w.rows[r].lockedAt.value > 900
  }

  /** When the row was last claimed, unless that claim has been released since. */
  ghost function ClaimedAt(worlds: seq<World>, actions: seq<Action>, n: nat, r: RowId): Option<nat>
    requires n <= |actions| < |worlds|
  {
    if n == 0 then None
    else if Claims(actions[n - 1], r) then Some(worlds[n - 1].now)
    else if actions[n - 1].Release? && Overdue(worlds[n - 1], r) then None
    else ClaimedAt(worlds, actions, n - 1, r)
  }

  /** When a delivery of the row was last recorded. */
  ghost function DeliveredAt(worlds: seq<World>, actions: seq<Action>, n: nat, r: RowId): Option<nat>
    requires n <= |actions| < |worlds|
  {
    if n == 0 then None
    else if Delivers(worlds[n - 1], actions[n - 1], r) then Some(worlds[n - 1].now)
    else DeliveredAt(worlds, actions, n - 1, r)
  }

  ghost predicate WasQueued(worlds: seq<World>, actions: seq<Action>, n: nat, r: RowId, row: Row)
    requires n <= |actions| < |worlds|
  {
    exists k :: 0 <= k < n && actions[k] == Action.Queue(r, row.needsApproval) && worlds[k].now == row.createdAt
  }

  ghost predicate Chronicled(worlds: seq<World>, actions: seq<Action>, n: nat, r: RowId)
    requires n <= |actions| < |worlds|
  {
    if r in worlds[n].rows
    then
      && worlds[n].rows[r].lockedAt == ClaimedAt(worlds, actions, n, r)
      && worlds[n].rows[r].sentAt == DeliveredAt(worlds, actions, n, r)
      && WasQueued(worlds, actions, n, r, worlds[n].rows[r])
    else ClaimedAt(worlds, actions, n, r) == None && DeliveredAt(worlds, actions, n, r) == None
  }

  /** In every state of a run: the lock is the last claim not released, the sent date the last recorded delivery. */
  lemma {:induction false} TimesAreEvents(
    worlds: seq<World>, actions: seq<Action>, longest: nat, n: nat, r: RowId)
    requires Run(worlds, actions, longest) && longest <= CLAIM_TIMEOUT_S && n <= |actions|
    ensures Chronicled(worlds, actions, n, r)
    decreases n
  {
    if n > 0 {
      TimesAreEvents(worlds, actions, longest, n - 1, r);
      RunKeepsInv(worlds, actions, longest, n - 1);
      assert Enabled(worlds[n - 1], actions[n - 1], CLAIM_TIMEOUT_S);
      hide Run;
      assert worlds[n] == Next(worlds[n - 1], actions[n - 1]) by {
        StepOf(worlds, actions, longest, n - 1);
      }
      OneStepChronicled(worlds, actions, n, r);
    }
  }

  lemma StepOf(worlds: seq<World>, actions: seq<Action>, longest: nat, i: nat)
    requires Run(worlds, actions, longest) && i < |actions|
    ensures Enabled(worlds[i], actions[i], longest) && worlds[i + 1] == Next(worlds[i], actions[i])
  {
  }

  lemma OneStepChronicled(worlds: seq<World>, actions: seq<Action>, n: nat, r: RowId)
    requires 0 < n <= |actions| < |worlds| && Chronicled(worlds, actions, n - 1, r)
    requires Inv(worlds[n - 1]) && Enabled(worlds[n - 1], actions[n - 1], CLAIM_TIMEOUT_S)
    requires worlds[n] == Next(worlds[n - 1], actions[n - 1])
    ensures Chronicled(worlds, actions, n, r)
  {
    hide Awaiting, OneHolder, HeldProperly, LivesWithin, Accounted, ApprovedFirst;
    var w, a, next := worlds[n - 1], actions[n - 1], worlds[n];
    WorkedRowIsSending(w, a);
    if r in w.rows {
      assert next.rows[r].createdAt == w.rows[r].createdAt && next.rows[r].needsApproval == w.rows[r].needsApproval;
    } else if r in next.rows {
      assert actions[n - 1] == Action.Queue(r, next.rows[r].needsApproval);
    }
  }

  // ---- How long jobs may live ----

  ghost predicate Reached(w: World, longest: nat) {
    exists worlds, actions :: Run(worlds, actions, longest) && worlds[|actions|] == w
  }

  /** No row is held by two live jobs. */
  ghost predicate HeldOnce(w: World) {
    forall i, j, r :: i in w.jobs && j in w.jobs && Holds(w.jobs[i], r) && Holds(w.jobs[j], r) ==> i == j
  }

  ghost predicate DeliveredOnce(w: World) {
    forall r :: w.accepted[r] <= 1 + w.unrecorded[r]
  }

  /** Rows have one holder in every reachable world precisely when jobs live no longer than the claim timeout. */
  lemma NoDoubleHoldIff(longest: nat)
    ensures (forall w | Reached(w, longest) :: HeldOnce(w)) <==> longest <= CLAIM_TIMEOUT_S
  {
    hide Run, HeldOnce;
    if longest <= CLAIM_TIMEOUT_S {
      forall w | Reached(w, longest) ensures HeldOnce(w) {
        ReachedKeepsInv(w, longest);
        OneHolderHoldsOnce(w);
      }
    } else {
      var w, end := OverlongJob(longest);
    }
  }

  /** And so is redelivery bounded by the unrecorded acceptances. */
  lemma BoundedRedeliveryIff(longest: nat)
    ensures (forall w | Reached(w, longest) :: DeliveredOnce(w)) <==> longest <= CLAIM_TIMEOUT_S
  {
    hide Run, DeliveredOnce;
    if longest <= CLAIM_TIMEOUT_S {
      forall w | Reached(w, longest) ensures DeliveredOnce(w) {
        ReachedKeepsInv(w, longest);
        AccountedDeliversOnce(w);
      }
    } else {
      var w, end := OverlongJob(longest);
    }
  }

  lemma ReachedKeepsInv(w: World, longest: nat)
    requires Reached(w, longest) && longest <= CLAIM_TIMEOUT_S
    ensures Inv(w)
  {
    hide Inv, Enabled, Next;
    var worlds, actions :| Run(worlds, actions, longest) && worlds[|actions|] == w;
    RunKeepsInv(worlds, actions, longest, |actions|);
  }

  lemma OneHolderHoldsOnce(w: World)
    requires Inv(w)
    ensures HeldOnce(w)
  {
  }

  lemma AccountedDeliversOnce(w: World)
    requires Inv(w)
    ensures DeliveredOnce(w)
  {
    hide Awaiting, OneHolder, HeldProperly;
    forall r ensures w.accepted[r] <= 1 + w.unrecorded[r] {
      assert Accounted(w, r);
      AwaitingIsSending(w, r);
    }
  }

  lemma Onward(w: World, a: Action, longest: nat) returns (next: World)
    requires Reached(w, longest) && Enabled(w, a, longest)
    ensures next == Next(w, a) && Reached(next, longest)
  {
    hide Possible, Next;
    next := Next(w, a);
    var worlds, actions :| Run(worlds, actions, longest) && worlds[|actions|] == w;
    var more, done := worlds + [next], actions + [a];
    forall i | 0 <= i < |done| ensures Enabled(more[i], done[i], longest)
      ensures more[i + 1] == Next(more[i], done[i])
    {
      assert i < |actions| ==> more[i] == worlds[i] && more[i + 1] == worlds[i + 1] && done[i] == actions[i];
    }
    assert Run(more, done, longest) && more[|done|] == next;
  }

  lemma EmptyIsReached(longest: nat) returns (w: World)
    ensures Reached(w, longest) && w == World(map[], map[], 0, multiset{}, multiset{}, {})
  {
    w := World(map[], map[], 0, multiset{}, multiset{}, {});
    var worlds, actions: seq<Action> := [w], [];
    assert Run(worlds, actions, longest) && worlds[|actions|] == w;
  }

  /** One row, queued and claimed by one job at time zero. */
  lemma RowIsClaimed(r: RowId, j: JobId, longest: nat) returns (w: World)
    ensures Reached(w, longest)
    ensures w == World(
      map[r := Row(Sending, Some(0), 0, None, 0, false)], map[j := Job(0, [r], Between)], 0, multiset{}, multiset{}, {})
  {
    hide Reached;
    w := EmptyIsReached(longest);
    w := Onward(w, Action.Queue(r, false), longest);
    w := Onward(w, Start(j), longest);
    w := Onward(w, Claim(j, [r]), longest);
    assert w.rows == map[r := Row(Sending, Some(0), 0, None, 0, false)];
  }

  /** A job that outlives the timeout: its row is released, claimed again, and delivered by both jobs. */
  lemma OverlongJob(longest: nat) returns (held: World, sent: World)
    requires longest > CLAIM_TIMEOUT_S
    ensures Reached(held, longest) && !HeldOnce(held)
    ensures Reached(sent, longest) && !DeliveredOnce(sent)
  {
    hide Reached, HeldOnce, DeliveredOnce;
    var w := SlowJob(longest);
    w := Onward(w, Start(1), longest);
    w := Onward(w, Release(1), longest);
    held := Onward(w, Claim(1, [0]), longest);
    assert held.jobs == map[0 := Job(0, [], Submitted(0)), 1 := Job(CLAIM_TIMEOUT_S + 1, [0], Between)];
    HeldTwice(held, 0, 1, 0);
    sent := BothDeliver(held, longest);
  }

  lemma SlowJob(longest: nat) returns (w: World)
    requires longest > CLAIM_TIMEOUT_S
    ensures Reached(w, longest)
    ensures w == World(
      map[0 := Row(Sending, Some(0), 0, None, 0, false)], map[0 := Job(0, [], Submitted(0))],
      CLAIM_TIMEOUT_S + 1, multiset{}, multiset{}, {})
  {
    hide Reached;
    w := RowIsClaimed(0, 0, longest);
    w := Onward(w, Begin(0), longest);
    w := Onward(w, Tick(CLAIM_TIMEOUT_S + 1), longest);
    assert w.rows == map[0 := Row(Sending, Some(0), 0, None, 0, false)];
  }

  lemma HeldTwice(w: World, i: JobId, j: JobId, r: RowId)
    requires i != j && i in w.jobs && j in w.jobs && Holds(w.jobs[i], r) && Holds(w.jobs[j], r)
    ensures !HeldOnce(w)
  {
  }

  lemma BothDeliver(held: World, longest: nat) returns (sent: World)
    requires Reached(held, longest) && 0 in held.rows && held.accepted == multiset{} && held.unrecorded == multiset{}
    requires held.jobs.Keys == {0, 1} && held.jobs[0].phase == Submitted(0)
    requires held.jobs[1].claimed == [0] && held.jobs[1].phase == Between
    ensures Reached(sent, longest) && !DeliveredOnce(sent)
  {
    hide Reached;
    sent := Onward(held, Begin(1), longest);
    sent := Onward(sent, Accept(0), longest);
    sent := Onward(sent, Accept(1), longest);
    assert sent.accepted[0] == 2 && sent.unrecorded[0] == 0;
  }

  // ---- Approval of rows that are not pending ----

  /**
    * `approve` does not look at the old status. It keeps every promise above exactly when the row
    * was not sent already and no live job holds it; a row that is neither `sent` nor `sending` is safe.
    */
  lemma ApproveKeepsInvIff(w: World, r: RowId)
    requires Inv(w) && r in w.rows
    ensures Inv(ApprovedRow(w, r)) <==>
      w.rows[r].status != Sent && forall j :: j in w.jobs ==> !Holds(w.jobs[j], r)
    ensures w.rows[r].status !in {Sent, Sending} ==> Inv(ApprovedRow(w, r))
  {
    hide Holds;
    var next := ApprovedRow(w, r);
    AwaitingIsSending(w, r);
    if j :| j in w.jobs && Holds(w.jobs[j], r) {
      assert HeldProperly(w, w.jobs[j], r);
      assert j in next.jobs && !HeldProperly(next, next.jobs[j], r);
    } else if w.rows[r].status == Sent {
      assert Accounted(w, r) && !Accounted(next, r);
    } else {
      forall j, o | j in next.jobs && Holds(next.jobs[j], o) ensures HeldProperly(next, next.jobs[j], o) {
        assert HeldProperly(w, w.jobs[j], o);
      }
      forall o ensures Accounted(next, o) && ApprovedFirst(next, o) {
        assert Accounted(w, o) && ApprovedFirst(w, o);
      }
    }
  }

  /**
    * What the condition is for: approving a row that was already sent lets any job deliver it
    * again with nothing unrecorded in between.
    */
  lemma ApprovingSentRowResends(w: World, r: RowId, j: JobId) returns (worlds: seq<World>, actions: seq<Action>)
    requires Inv(w) && r in w.rows && w.rows[r].status == Sent && j !in w.jobs
    ensures Steps(worlds, actions, CLAIM_TIMEOUT_S) && worlds[0] == ApprovedRow(w, r)
    ensures var end := worlds[|actions|];
      end.unrecorded == w.unrecorded && end.accepted[r] == 2 + end.unrecorded[r]
  {
    assert Accounted(w, r);
    AwaitingIsSending(w, r);
    var requeued := ApprovedRow(w, r);
    var started := Next(requeued, Start(j));
    var claimed := Next(started, Claim(j, [r]));
    var begun := Next(claimed, Begin(j));
    worlds := [requeued, started, claimed, begun, Next(begun, Accept(j))];
    actions := [Start(j), Claim(j, [r]), Begin(j), Accept(j)];
  }

  /** Runs reach such states: one row queued, claimed, accepted and recorded by one job. */
  lemma SentRowIsReached(r: RowId, j: JobId) returns (w: World)
    ensures Reached(w, CLAIM_TIMEOUT_S) && Inv(w)
    ensures r in w.rows && w.rows[r].status == Sent && w.jobs.Keys == {j}
  {
    hide Reached, Inv;
    w := RowIsClaimed(r, j, CLAIM_TIMEOUT_S);
    w := Onward(w, Begin(j), CLAIM_TIMEOUT_S);
    w := Onward(w, Accept(j), CLAIM_TIMEOUT_S);
    w := Onward(w, Record(j), CLAIM_TIMEOUT_S);
    ReachedKeepsInv(w, CLAIM_TIMEOUT_S);
  }

  /** Approving a row that a live job holds, in a state that runs reach, lets a second job hold it. */
  lemma ApprovingHeldRowDoubles(r: RowId, i: JobId, j: JobId)
    returns (w: World, worlds: seq<World>, actions: seq<Action>)
    requires i != j
    ensures Reached(w, CLAIM_TIMEOUT_S) && r in w.rows && i in w.jobs && Holds(w.jobs[i], r)
    ensures Steps(worlds, actions, CLAIM_TIMEOUT_S) && worlds[0] == ApprovedRow(w, r)
    ensures var jobs := worlds[|actions|].jobs;
      i in jobs && j in jobs && Holds(jobs[i], r) && Holds(jobs[j], r)
  {
    hide Reached;
    w := RowIsClaimed(r, i, CLAIM_TIMEOUT_S);
    var requeued := ApprovedRow(w, r);
    var started := Next(requeued, Start(j));
    worlds, actions := [requeued, started, Next(started, Claim(j, [r]))], [Start(j), Claim(j, [r])];
  }

  // ---- The table's transactions, and one undisturbed `send_pending` ----

  /** The `limit` oldest queued rows. */
  ghost predicate OldestQueued(rows: map<RowId, Row>, limit: nat, chosen: seq<RowId>) {
    && NoRepeats(chosen) && |chosen| <= limit
    && (forall r :: r in chosen ==> r in rows && rows[r].status == Queued)
    && (forall r :: r in rows && rows[r].status == Queued && r !in chosen ==>
          |chosen| == limit && forall c :: c in chosen ==> rows[c].createdAt <= rows[r].createdAt)
    && forall i, j :: 0 <= i < j < |chosen| ==> rows[chosen[i]].createdAt <= rows[chosen[j]].createdAt
  }

  lemma HasOldest(rows: map<RowId, Row>, among: set<RowId>)
    requires among != {} && among <= rows.Keys
    ensures exists r :: r in among && forall o :: o in among ==> rows[r].createdAt <= rows[o].createdAt
  {
    var key: map<nat, (int, int)> := map r | r in among :: (rows[r].createdAt as int, 0);
    HasLeast(among, key);
    var r :| r in among && forall o :: o in among ==> NotAfter(key[r], key[o]);
    forall o | o in among ensures rows[r].createdAt <= rows[o].createdAt {
      assert NotAfter(key[r], key[o]);
    }
  }

  /** The queued rows are those taken, oldest first, and those left, none of them older. */
  ghost predicate Taken(rows: map<RowId, Row>, claimed: seq<RowId>, left: set<RowId>) {
    && NoRepeats(claimed)
    && (forall r :: r in left <==> r in rows && rows[r].status == Queued && r !in claimed)
    && (forall r :: r in claimed ==> r in rows && rows[r].status == Queued)
    && (forall c, r :: c in claimed && r in left ==> rows[c].createdAt <= rows[r].createdAt)
    && (forall i, j :: 0 <= i < j < |claimed| ==> rows[claimed[i]].createdAt <= rows[claimed[j]].createdAt)
  }

  lemma NoneTaken(rows: map<RowId, Row>, left: set<RowId>)
    requires forall r :: r in left <==> r in rows && rows[r].status == Queued
    ensures Taken(rows, [], left)
  {
  }

  lemma TakeNext(rows: map<RowId, Row>, claimed: seq<RowId>, left: set<RowId>, r: RowId)
    requires Taken(rows, claimed, left) && r in left && left <= rows.Keys
    requires forall o :: o in left ==> rows[r].createdAt <= rows[o].createdAt
    ensures Taken(rows, claimed + [r], left - {r})
  {
    assert forall i :: 0 <= i < |claimed| ==> claimed[i] in claimed && claimed[i] != r;
  }

  lemma TakenIsOldest(rows: map<RowId, Row>, limit: nat, claimed: seq<RowId>, left: set<RowId>)
    requires Taken(rows, claimed, left) && |claimed| <= limit && (left == {} || |claimed| == limit)
    ensures OldestQueued(rows, limit, claimed)
  {
    assert forall r :: r in rows && rows[r].status == Queued && r !in claimed ==> r in left;
  }

  function Delivered(rows: map<RowId, Row>, done: set<RowId>, outcomes: RowId -> Outcome, now: nat): map<RowId, Row> {
    map r | r in rows :: if r in done then Settled(rows[r].(status := Sending), outcomes(r), now) else rows[r]
  }

  /** What one attempt leaves: accepted rows are sent, transient failures queued again, permanent ones over. */
  predicate Concludes(before: Row, outcome: Outcome, now: nat, after: Row) {
    && (after.status == Sent <==> outcome == Accepted)
    && (after.status == Queued <==> outcome == Transient)
    && (after.status == Failed <==> outcome == Permanent)
    && after.sentAt == (if outcome == Accepted then Some(now) else before.sentAt)
    && after.attempts == before.attempts + (if outcome == Accepted then 0 else 1)
    && after.createdAt == before.createdAt && after.needsApproval == before.needsApproval
  }

  lemma DeliveredConclude(
    rows: map<RowId, Row>, limit: nat, todo: seq<RowId>, outcomes: RowId -> Outcome, claimedAt: nat, now: nat)
    requires OldestQueued(Released(rows, claimedAt), limit, todo)
    ensures
      var chosen := Elements(todo);
      var end := Delivered(Claimed(Released(rows, claimedAt), chosen, claimedAt), chosen, outcomes, now);
      forall r :: r in end && r in todo ==> r in rows && Concludes(rows[r], outcomes(r), now, end[r])
  {
  }

  /** Delivering one more row of a list without repeats. */
  lemma DeliverOne(rows: map<RowId, Row>, todo: seq<RowId>, i: nat, outcomes: RowId -> Outcome, now: nat)
    requires i < |todo| && NoRepeats(todo) && todo[i] in rows
    ensures var before, row := Delivered(rows, Elements(todo[..i]), outcomes, now), todo[i];
      && row in before && before[row] == rows[row]
      && Delivered(rows, Elements(todo[..i + 1]), outcomes, now)
        == before[row := Settled(rows[row].(status := Sending), outcomes(row), now)]
    ensures (set r | r in todo[..i + 1] && outcomes(r) == Accepted)
      == (set r | r in todo[..i] && outcomes(r) == Accepted) + (if outcomes(todo[i]) == Accepted then {todo[i]} else {})
    ensures todo[i] !in todo[..i]
  {
    assert todo[..i + 1] == todo[..i] + [todo[i]];
  }

  lemma DeliverNone(rows: map<RowId, Row>, limit: nat, todo: seq<RowId>, outcomes: RowId -> Outcome, now: nat)
    requires OldestQueued(rows, limit, todo)
    ensures NoRepeats(todo) && forall r :: r in todo ==> r in Claimed(rows, Elements(todo), now)
    ensures var claimed := Claimed(rows, Elements(todo), now); Delivered(claimed, {}, outcomes, now) == claimed
  {
  }

  class OutboxTable {
    var rows: map<RowId, Row>

    constructor ()
      ensures rows == map[]
    {
      rows := map[];
    }

    method Queue(row: RowId, now: nat, requiresApproval: bool)
      requires row !in rows
      modifies this
      ensures rows == old(rows)[row := NewRow(now, requiresApproval)]
    {
      var status := if requiresApproval then PendingApproval else Status.Queued;
      rows := rows[row := Row(status, None, 0, None, now, requiresApproval)];
    }

    method Approve(row: RowId)
      requires row in rows
      modifies this
      ensures rows == old(rows)[row := old(rows)[row].(status := Queued)]
    {
      rows := rows[row := rows[row].(status := Status.Queued)];
    }

    method ReleaseStaleClaims(now: nat) returns (released: nat)
      modifies this
      ensures rows == Released(old(rows), now)
      ensures released == |set r | r in old(rows) && Stale(old(rows)[r], now)|
    {
      var stale := set r | r in rows && Stale(rows[r], now);
      rows := map r | r in rows :: if r in stale then rows[r].(status := Status.Queued, lockedAt := None) else rows[r];
      released := |stale|;
    }

    method ClaimOldest(now: nat, limit: nat) returns (claimed: seq<RowId>)
      modifies this
      ensures OldestQueued(old(rows), limit, claimed) && rows == Claimed(old(rows), Elements(claimed), now)
    {
      hide Claimed, Elements, Taken, OldestQueued;
      claimed := [];
      var left := set r | r in rows && rows[r].status == Status.Queued;
      NoneTaken(rows, left);
      while left != {} && |claimed| < limit
        invariant rows == old(rows) && Taken(rows, claimed, left) && |claimed| <= limit
        invariant left <= rows.Keys
        decreases left
      {
        HasOldest(rows, left);
        var r :| r in left && forall o :: o in left ==> rows[r].createdAt <= rows[o].createdAt;
        TakeNext(rows, claimed, left, r);
        claimed, left := claimed + [r], left - {r};
      }
      TakenIsOldest(rows, limit, claimed, left);
      rows := Claimed(rows, Elements(claimed), now);
    }

    /** One row: mark it, call the provider, record the outcome. */
    method SendOne(row: RowId, outcome: Outcome, now: nat) returns (sent: bool)
      requires row in rows
      modifies this
      ensures rows == old(rows)[row := Settled(old(rows)[row].(status := Sending), outcome, now)]
      ensures sent <==> outcome == Accepted
      ensures Concludes(old(rows)[row], outcome, now, rows[row]) && rows[row].lockedAt == old(rows)[row].lockedAt
    {
      var sending := rows[row].(status := Sending);
      rows := rows[row := sending];
      match outcome {
        case Accepted => rows := rows[row := sending.(status := Sent, sentAt := Some(now))];
        case Transient => rows := rows[row := sending.(status := Status.Queued, attempts := sending.attempts + 1)];
        case Permanent => rows := rows[row := sending.(status := Failed, attempts := sending.attempts + 1)];
      }
      sent := outcome == Accepted;
    }

    method SendPending(now: nat, limit: nat, outcomes: RowId -> Outcome) returns (sent: nat, ghost claimed: seq<RowId>)
      modifies this
      ensures OldestQueued(Released(old(rows), now), limit, claimed)
      ensures var todo := Elements(claimed);
        rows == Delivered(Claimed(Released(old(rows), now), todo, now), todo, outcomes, now)
      ensures sent == |set r | r in claimed && outcomes(r) == Accepted|
      ensures forall r :: r in rows && r in claimed ==>
        r in old(rows) && Concludes(old(rows)[r], outcomes(r), now, rows[r])
    {
      hide Released, Claimed, OldestQueued, Delivered;
      var released := ReleaseStaleClaims(now);
      ghost var waiting := rows;
      var todo := ClaimOldest(now, limit);
      DeliverNone(waiting, limit, todo, outcomes, now);
      claimed := todo;
      ghost var before := rows;
      assert Elements(todo[..0]) == {};
      sent := 0;
      for i := 0 to |todo|
        invariant claimed == todo && NoRepeats(todo) && forall r :: r in todo ==> r in before
        invariant rows == Delivered(before, Elements(todo[..i]), outcomes, now)
        invariant sent == |set r | r in todo[..i] && outcomes(r) == Accepted|
      {
        var row := todo[i];
        DeliverOne(before, todo, i, outcomes, now);
        var accepted := SendOne(row, outcomes(row), now);
        if accepted {
          sent := sent + 1;
        }
      }
      assert todo[..|todo|] == todo;
      DeliveredConclude(old(rows), limit, todo, outcomes, now, now);
    }
  }
}
