/**
 One outbox worker as the program it is: reap, claim a batch, deliver row by
 row, tick after tick. Database statements may fail unless `healthy`; without
 failures every message ends up SENT or FAILED after at most five sends.
 */
module NotificationWorker {
  import opened Bounds
  import opened EnrollmentDomain
  import opened NotificationOutbox
  import opened NotificationLease
  import opened NotificationSafety
  import opened Ordering

  // ---------------------------------------------------------------- which rows a claim selects

  /** Rows are numbered in the order of their creation. */
  function CreationKeys(rows: Rows): map<RowId, SortKey> {
    map id | id in rows :: (id as int, 0)
  }

  function Eligible(rows: Rows, now: Time): set<RowId> {
    set id | id in rows && Claimable(rows[id], now)
  }

  /** The rows a claim takes: ORDER BY created_at LIMIT 20. */
  function Selected(rows: Rows, now: Time): (ids: seq<RowId>)
    ensures forall i :: 0 <= i < |ids| ==> ids[i] in rows && Claimable(rows[ids[i]], now)
    ensures DistinctIds(ids) && |ids| <= BATCH
  {
    var sorted := Sorted(CreationKeys(rows), Eligible(rows, now));
    SortedPositions(CreationKeys(rows), Eligible(rows, now));
    sorted[..Min(BATCH, |sorted|)]
  }

  lemma SelectedIsFull(rows: Rows, now: Time)
    ensures |Selected(rows, now)| == Min(BATCH, |Eligible(rows, now)|)
  {
    SortedIsAscending(CreationKeys(rows), Eligible(rows, now));
  }

  /** A claim takes the rows oldest first and passes over no older row. */
  lemma SelectedPicksOldest(rows: Rows, now: Time, i: nat, x: RowId)
    requires i < |Selected(rows, now)| && x in Eligible(rows, now) && x !in Selected(rows, now)[..i]
    ensures Selected(rows, now)[i] <= x
  {
    PrefixComesFirst(CreationKeys(rows), Eligible(rows, now), i, x);
    assert Selected(rows, now)[..i] == Sorted(CreationKeys(rows), Eligible(rows, now))[..i];
  }

  // ---------------------------------------------------------------- the work left

  /** How many more sends a row may cost. */
  function Left(rows: Rows, id: RowId): nat {
    if id in rows && rows[id].channel == ChannelEmail && !Finished(rows[id]) && rows[id].attempts <= MAX_DELIVERY_ATTEMPTS then
      MAX_DELIVERY_ATTEMPTS - rows[id].attempts
    else 0
  }

  /** The sum over the rows numbered below n. */
  function Budget(rows: Rows, n: nat): nat {
    if n == 0 then 0 else Budget(rows, n - 1) + Left(rows, n - 1)
  }

  lemma {:induction false} BudgetAfterWrite(rows: Rows, rows': Rows, n: nat, id: RowId)
    requires forall x: nat :: x < n && x != id ==> Left(rows, x) == Left(rows', x)
    ensures Budget(rows', n) == Budget(rows, n) + if id < n then Left(rows', id) - Left(rows, id) else 0
  {
    if n > 0 {
      BudgetAfterWrite(rows, rows', n - 1, id);
    }
  }

  lemma {:induction false} BudgetCoversRow(rows: Rows, n: nat, id: RowId)
    requires id < n
    ensures Left(rows, id) <= Budget(rows, n)
  {
    if id < n - 1 {
      BudgetCoversRow(rows, n - 1, id);
    }
  }

  /** A message costs at most five sends. */
  lemma {:induction false} BudgetIsAtMostFivePerRow(rows: Rows, n: nat)
    requires forall id :: id in rows ==> RowOk(rows[id])
    ensures Budget(rows, n) <= MAX_DELIVERY_ATTEMPTS * |set id | id in rows && id < n|
  {
    if n > 0 {
      BudgetIsAtMostFivePerRow(rows, n - 1);
      var less, all := set id | id in rows && id < n - 1, set id | id in rows && id < n;
      if n - 1 in rows {
        assert all == less + {n - 1};
      } else {
        assert all == less;
      }
    }
  }

  ghost predicate AllFinished(rows: Rows) {
    forall id :: id in rows && rows[id].channel == ChannelEmail ==> Finished(rows[id])
  }

  /**
   Rows are numbered below n, and from `horizon` on every unfinished message
   can be claimed: its retry time has come and its lease, if any, is over.
   */
  ghost predicate Steady(rows: Rows, n: nat, horizon: Time) {
    forall id :: id in rows ==> id < n && RowSteady(rows[id], horizon)
  }

  predicate RowSteady(r: Row, horizon: Time) {
    && RowOk(r)
    && (r.nextAttempt.Some? ==> r.nextAttempt.value <= horizon)
    && (r.claimedAt.Some? ==> r.claimedAt.value + LEASE_THRESHOLD <= horizon)
  }

  lemma NothingLeftMeansFinished(rows: Rows, n: nat, horizon: Time)
    requires Steady(rows, n, horizon) && Budget(rows, n) == 0
    ensures AllFinished(rows)
  {
    forall id | id in rows && rows[id].channel == ChannelEmail ensures Finished(rows[id]) {
      BudgetCoversRow(rows, n, id);
    }
  }

  lemma ReapKeepsBudget(rows: Rows, n: nat, horizon: Time, now: Time)
    requires Steady(rows, n, horizon)
    ensures Steady(ReapRows(rows, now), n, horizon) && Budget(ReapRows(rows, now), n) == Budget(rows, n)
  {
    BudgetAfterWrite(rows, ReapRows(rows, now), n, n);
  }

  /** Past the horizon, reaping leaves something to claim unless all is finished. */
  lemma {:induction false} SomethingToClaim(rows: Rows, n: nat, m: nat, horizon: Time, reaped: Time, now: Time)
    requires Steady(rows, n, horizon) && horizon < reaped <= now && Budget(rows, m) > 0
    ensures Eligible(ReapRows(rows, reaped), now) != {}
  {
    if Left(rows, m - 1) > 0 {
      assert m - 1 in Eligible(ReapRows(rows, reaped), now);
    } else {
      SomethingToClaim(rows, n, m - 1, horizon, reaped, now);
    }
  }

  // ---------------------------------------------------------------- one delivery

  /** The row is leased and the job's copy of its attempts is current. */
  predicate JobCurrent(rows: Rows, j: Job) {
    Restampable(rows, j.row) && rows[j.row].channel == ChannelEmail && rows[j.row].attempts == j.attempts
  }

  /** A message handed to the mail server, and whether it took it. */
  datatype Sent = Sent(row: RowId, ok: bool)

  /** What one delivery may do to the rows: give up before the send, lose the outcome, or record it. */
  ghost predicate DeliveryEffect(rows: Rows, rows': Rows, j: Job, sent: seq<Sent>, from: Time, to: Time, healthy: bool) {
    if sent == [] then rows' == rows && (healthy ==> !Restampable(rows, j.row))
    else
      && |sent| == 1 && sent[0].row == j.row && Restampable(rows, j.row)
      && exists stamp, at :: from <= stamp <= at <= to && StampedOutcome(rows, rows', j, stamp, sent[0].ok, at, healthy)
  }

  predicate StampedOutcome(rows: Rows, rows': Rows, j: Job, stamp: Time, ok: bool, at: Time, healthy: bool) {
    || rows' == RecordRow(RestampRow(rows, j.row, stamp), j.row, stamp, j.attempts, ok, at)
    || (!healthy && rows' == RestampRow(rows, j.row, stamp))
  }

  lemma OutcomeSpends(rows: Rows, rows': Rows, j: Job, stamp: Time, ok: bool, at: Time, healthy: bool, horizon: Time)
    requires JobCurrent(rows, j) && RowSteady(rows[j.row], horizon) && StampedOutcome(rows, rows', j, stamp, ok, at, healthy)
    requires stamp <= at && at + MAX_BACKOFF <= horizon
    ensures rows'.Keys == rows.Keys && RowSteady(rows'[j.row], horizon)
    ensures Left(rows', j.row) <= Left(rows, j.row) - if healthy then 1 else 0
    ensures forall id :: id in rows && id != j.row ==> rows'[id] == rows[id]
  {
    BackoffNeverShrinks(j.attempts + 1, j.attempts + 1);
  }

  /** A delivery writes no other row, never adds to the budget, and a recorded one lowers it. */
  lemma DeliverySpends(rows: Rows, rows': Rows, j: Job, sent: seq<Sent>, from: Time, to: Time, healthy: bool,
                       n: nat, horizon: Time)
    requires Steady(rows, n, horizon) && JobCurrent(rows, j) && DeliveryEffect(rows, rows', j, sent, from, to, healthy)
    requires to + MAX_BACKOFF <= horizon
    ensures Steady(rows', n, horizon)
    ensures Budget(rows', n) <= Budget(rows, n)
    ensures |sent| <= 1 && (healthy ==> sent != [] && Budget(rows', n) < Budget(rows, n))
    ensures rows'.Keys == rows.Keys && forall id :: id in rows && id != j.row ==> rows'[id] == rows[id]
    ensures SentWasTaken(rows, rows', sent)
  {
    if sent != [] {
      var stamp, at :| from <= stamp <= at <= to && StampedOutcome(rows, rows', j, stamp, sent[0].ok, at, healthy);
      OutcomeSpends(rows, rows', j, stamp, sent[0].ok, at, healthy, horizon);
    }
    BudgetAfterWrite(rows, rows', n, j.row);
  }

  /** Whatever became SENT was taken by the mail server. */
  ghost predicate SentWasTaken(rows: Rows, rows': Rows, sends: seq<Sent>) {
    forall id :: id in rows' && rows'[id].status == DeliverySent ==>
      (id in rows && rows[id].status == DeliverySent) || Sent(id, true) in sends
  }

  lemma SentAddsUp(rows: Rows, rows': Rows, rows'': Rows, sends: seq<Sent>, sends': seq<Sent>)
    requires SentWasTaken(rows, rows', sends) && sends <= sends'
    requires SentWasTaken(rows', rows'', sends') || SentWasTaken(rows', rows'', sends'[|sends|..])
    ensures SentWasTaken(rows, rows'', sends')
  {
    forall id | id in rows'' && rows''[id].status == DeliverySent
      ensures (id in rows && rows[id].status == DeliverySent) || Sent(id, true) in sends'
    {
      assert sends' == sends + sends'[|sends|..];
    }
  }

  ghost predicate JobsPending(rows: Rows, jobs: seq<Job>, k: nat) {
    && (forall i :: k <= i < |jobs| ==> JobCurrent(rows, jobs[i]))
    && (forall i, j :: k <= i < j < |jobs| ==> jobs[i].row != jobs[j].row)
  }

  lemma ClaimStartsJobs(rows: Rows, now: Time, n: nat, horizon: Time)
    requires Steady(rows, n, horizon)
    ensures JobsPending(ClaimRows(rows, Selected(rows, now), now), JobsFor(rows, Selected(rows, now), now), 0)
    ensures Steady(ClaimRows(rows, Selected(rows, now), now), n, Max(horizon, now + LEASE_THRESHOLD))
    ensures Budget(ClaimRows(rows, Selected(rows, now), now), n) == Budget(rows, n)
  {
    var ids := Selected(rows, now);
    var rows' := ClaimRows(rows, ids, now);
    forall x | x in ids ensures x in rows && Claimable(rows[x], now) {
      var i :| 0 <= i < |ids| && ids[i] == x;
    }
    BudgetAfterWrite(rows, rows', n, n);
    forall i | 0 <= i < |ids| ensures JobCurrent(rows', JobsFor(rows, ids, now)[i]) {
      assert ids[i] in ids;
    }
  }

  lemma NothingSentYet(rows: Rows, reaped: Time, now: Time)
    ensures SentWasTaken(rows, ClaimRows(ReapRows(rows, reaped), Selected(ReapRows(rows, reaped), now), now), [])
  {
  }

  /** Reaping and claiming keep the budget, and past the horizon they find a job if any is left. */
  lemma PassStarts(rows: Rows, reaped: Time, now: Time, n: nat, horizon: Time)
    requires Steady(rows, n, horizon) && reaped <= now
    ensures var rows' := ReapRows(rows, reaped);
      var jobs, rows'' := JobsFor(rows', Selected(rows', now), now), ClaimRows(rows', Selected(rows', now), now);
      && JobsPending(rows'', jobs, 0)
      && Steady(rows'', n, Max(horizon, now + LEASE_THRESHOLD))
      && Budget(rows'', n) == Budget(rows, n)
      && (jobs == [] ==> Steady(rows'', n, horizon))
      && (horizon < reaped && Budget(rows, n) > 0 ==> jobs != [])
      && SentWasTaken(rows, rows'', [])
  {
    ReapKeepsBudget(rows, n, horizon, reaped);
    var rows' := ReapRows(rows, reaped);
    ClaimStartsJobs(rows', now, n, horizon);
    SelectedIsFull(rows', now);
    NothingSentYet(rows, reaped, now);
    if Selected(rows', now) == [] {
      assert ClaimRows(rows', Selected(rows', now), now) == rows';
    }
    if horizon < reaped && Budget(rows, n) > 0 {
      SomethingToClaim(rows, n, n, horizon, reaped, now);
    }
  }

  // ---------------------------------------------------------------- many passes

  /** `k` pauses in a row. */
  function Span(k: nat, pause: Time): Time {
    if k == 0 then 0 else Span(k - 1, pause) + pause
  }

  lemma {:induction false} SpanIsProduct(k: nat, pause: Time)
    ensures Span(k, pause) == k * pause
  {
    if k > 0 {
      SpanIsProduct(k - 1, pause);
    }
  }

  lemma {:induction false} SpanGrows(j: nat, k: nat, pause: Time)
    requires j <= k && pause > 0
    ensures Span(j, pause) <= Span(k, pause)
  {
    if j < k {
      SpanGrows(j, k - 1, pause);
    }
  }

  /** That many pauses outlast every retry delay and every lease. */
  function IdlePauses(pause: Time): nat
    requires pause > 0
  {
    MAX_BACKOFF / pause + 1
  }

  lemma IdleOutlastsBackoff(pause: Time)
    requires pause > 0
    ensures MAX_BACKOFF < Span(IdlePauses(pause), pause)
  {
    SpanIsProduct(IdlePauses(pause), pause);
  }

  /** A measure of the passes still needed: each send may take `idle` idle passes and one more. */
  function Passes(budget: nat, idle: nat, wait: nat): nat {
    if budget == 0 then wait else idle + 1 + Passes(budget - 1, idle, wait)
  }

  lemma {:induction false} PassesDrop(budget: nat, budget': nat, idle: nat, wait: nat)
    requires budget' <= budget
    ensures budget' < budget ==> Passes(budget', idle, idle) < Passes(budget, idle, wait)
    ensures Passes(budget', idle, idle) <= Passes(budget, idle, idle)
    ensures wait > 0 ==> Passes(budget, idle, wait) == Passes(budget, idle, wait - 1) + 1
    decreases budget
  {
    if budget' < budget {
      PassesDrop(budget - 1, budget', idle, wait);
      if budget' == budget - 1 {
        NoWaitNoLess(budget', idle, wait);
      }
    } else if budget > 0 {
      PassesDrop(budget - 1, budget - 1, idle, wait);
    }
  }

  lemma {:induction false} NoWaitNoLess(budget: nat, idle: nat, wait: nat)
    ensures Passes(budget, idle, idle) <= Passes(budget, idle, wait) + idle
  {
    if budget > 0 {
      NoWaitNoLess(budget - 1, idle, wait);
    }
  }

  lemma {:induction false} PassesIsProduct(budget: nat, idle: nat)
    ensures Passes(budget, idle, idle) == (budget + 1) * (idle + 1) - 1
  {
    if budget > 0 {
      PassesIsProduct(budget - 1, idle);
      assert (budget + 1) * (idle + 1) == budget * (idle + 1) + idle + 1;
    }
  }

  lemma FiveSendsEach(rows: Rows, n: nat)
    requires forall id :: id in rows ==> id < n && RowOk(rows[id])
    ensures Budget(rows, n) <= MAX_DELIVERY_ATTEMPTS * |rows|
  {
    BudgetIsAtMostFivePerRow(rows, n);
    assert (set id | id in rows && id < n) == rows.Keys;
  }

  lemma EnoughPasses(budget: nat, bound: nat, idle: nat)
    requires budget <= bound
    ensures Passes(budget, idle, idle) < (bound + 1) * (idle + 1)
  {
    PassesDrop(bound, budget, idle, idle);
    PassesIsProduct(bound, idle);
  }

  /** After k passes from `rows` with `sent` sends: what is left, and how far it is. */
  ghost predicate Underway(rows: Rows, rows': Rows, n: nat, sent: int, k: nat, idle: nat, wait: nat) {
    && Budget(rows', n) <= Budget(rows, n)
    && sent <= Budget(rows, n) - Budget(rows', n)
    && (Budget(rows', n) > 0 ==> k + Passes(Budget(rows', n), idle, wait) <= Passes(Budget(rows, n), idle, idle))
  }

  lemma OneMorePass(rows: Rows, was: Rows, now: Rows, n: nat, sent: int, more: int, k: nat, idle: nat,
                    wait: nat, wait': nat)
    requires Underway(rows, was, n, sent, k, idle, wait)
    requires Budget(now, n) <= Budget(was, n) && more <= Budget(was, n) - Budget(now, n)
    requires Budget(now, n) > 0 ==> Passes(Budget(now, n), idle, wait') < Passes(Budget(was, n), idle, wait)
    ensures Underway(rows, now, n, sent + more, k + 1, idle, wait')
  {
  }

  /** The passes made outnumber those that could leave work. */
  lemma EnoughTicks(rows: Rows, rows': Rows, n: nat, horizon: Time, sent: int, ticks: nat, idle: nat, wait: nat)
    requires Underway(rows, rows', n, sent, ticks, idle, wait) && Steady(rows', n, horizon)
    requires forall id :: id in rows ==> id < n && RowOk(rows[id])
    ensures sent <= MAX_DELIVERY_ATTEMPTS * |rows|
    ensures ticks >= (MAX_DELIVERY_ATTEMPTS * |rows| + 1) * (idle + 1) ==> AllFinished(rows')
  {
    FiveSendsEach(rows, n);
    EnoughPasses(Budget(rows, n), MAX_DELIVERY_ATTEMPTS * |rows|, idle);
    if Budget(rows', n) == 0 {
      NothingLeftMeansFinished(rows', n, horizon);
    }
  }

  // ---------------------------------------------------------------- where a worker may start

  /** No stamp lies in the future, no retry further away than the longest delay. */
  ghost predicate Dated(s: Outbox) {
    && (forall id :: id in s.rows ==> RowDated(s.rows[id], s.clock))
    && (forall w :: w in s.workers && s.workers[w].Recording? ==> s.workers[w].at <= s.clock)
  }

  predicate RowDated(r: Row, clock: Time) {
    && (r.claimedAt.Some? ==> r.claimedAt.value <= clock)
    && (r.nextAttempt.Some? ==> r.nextAttempt.value <= clock + MAX_BACKOFF)
  }

  lemma StepKeepsDated(s: Outbox, a: Action)
    requires Dated(s) && Enabled(s, a)
    ensures Dated(Next(s, a))
  {
    var s' := Next(s, a);
    forall id | id in s'.rows ensures RowDated(s'.rows[id], s'.clock) {
      if a.RecordOutcome? {
        var attempts := s.workers[a.w].job.attempts + 1;
        BackoffNeverShrinks(attempts, attempts);
      }
    }
  }

  /** Whatever the replicas did, a worker that takes over can finish from there. */
  lemma {:induction false} EveryReachableOutboxIsSteady(ss: seq<Outbox>, acts: seq<Action>, i: nat, n: nat)
    requires IsRun(ss, acts) && i < |ss| && forall id :: id in ss[i].rows ==> id < n
    ensures Steady(ss[i].rows, n, ss[i].clock + MAX_BACKOFF)
  {
    OutboxInvariant(ss, acts, i);
    EveryReachableOutboxIsDated(ss, acts, i);
  }

  lemma {:induction false} EveryReachableOutboxIsDated(ss: seq<Outbox>, acts: seq<Action>, i: nat)
    requires IsRun(ss, acts) && i < |ss|
    ensures Dated(ss[i])
  {
    if i > 0 {
      EveryReachableOutboxIsDated(ss, acts, i - 1);
      StepKeepsDated(ss[i - 1], acts[i - 1]);
    }
  }

  // ---------------------------------------------------------------- the worker's statements as steps of the machine

  lemma ClaimReaches(s: Outbox, w: WorkerId, now: Time) returns (s': Outbox)
    requires w in s.workers && s.workers[w].Claiming? && s.clock <= now
    ensures Reached(s, s') && s'.rows == ClaimRows(s.rows, Selected(s.rows, now), now) && s'.clock == now
    ensures s'.workers == s.workers[w := Delivering(JobsFor(s.rows, Selected(s.rows, now), now))]
  {
    WaitReaches(s, now);
    var t, a := s.(clock := now), Claim(w, Selected(s.rows, now), now);
    s' := Next(t, a);
    StepReaches(t, a);
    ReachedFurther(s, t, s');
  }

  /** A worker that breaks off, or has nothing left to deliver, starts again from the top. */
  lemma PassEnds(s: Outbox, w: WorkerId, now: Time) returns (s': Outbox)
    requires w in s.workers && s.clock <= now && (s.workers[w].Idle? || s.workers[w].Claiming? || s.workers[w] == Delivering([]))
    ensures Reached(s, s') && s'.rows == s.rows && s'.clock == now && s'.workers == s.workers[w := Idle]
  {
    WaitReaches(s, now);
    var t := s.(clock := now);
    var a := if s.workers[w].Delivering? then FinishDrain(w) else Crash(w);
    s' := Next(t, a);
    StepReaches(t, a);
    ReachedFurther(s, t, s');
  }

  /** What reaping and claiming may do to the rows: nothing, reap only, or both. */
  ghost predicate BatchEffect(rows: Rows, rows': Rows, jobs: seq<Job>, failed: bool, from: Time, to: Time) {
    if failed then (rows' == rows && from <= to) || exists reaped :: ReapedOnly(rows, rows', reaped, from, to)
    else exists reaped :: ReapedAndClaimed(rows, rows', jobs, reaped, from, to)
  }

  predicate ReapedOnly(rows: Rows, rows': Rows, reaped: Time, from: Time, to: Time) {
    from <= reaped <= to && rows' == ReapRows(rows, reaped)
  }

  predicate ReapedAndClaimed(rows: Rows, rows': Rows, jobs: seq<Job>, reaped: Time, from: Time, to: Time) {
    var ids := Selected(ReapRows(rows, reaped), to);
    && from <= reaped <= to
    && rows' == ClaimRows(ReapRows(rows, reaped), ids, to) && jobs == JobsFor(ReapRows(rows, reaped), ids, to)
  }

  lemma BatchReaches(s: Outbox, w: WorkerId, rows': Rows, jobs: seq<Job>, failed: bool, to: Time) returns (s': Outbox)
    requires w in s.workers && s.workers[w].Idle? && BatchEffect(s.rows, rows', jobs, failed, s.clock, to)
    ensures Reached(s, s') && s'.rows == rows' && s'.clock == to
    ensures s'.workers == s.workers[w := if failed then Idle else Delivering(jobs)]
  {
    if failed && rows' == s.rows && s.clock <= to {
      s' := PassEnds(s, w, to);
    } else {
      var reaped :| if failed then ReapedOnly(s.rows, rows', reaped, s.clock, to)
                    else ReapedAndClaimed(s.rows, rows', jobs, reaped, s.clock, to);
      var t := ReapReaches(s, w, reaped);
      if failed {
        s' := PassEnds(t, w, to);
      } else {
        s' := ClaimReaches(t, w, to);
      }
      ReachedFurther(s, t, s');
    }
  }

  /** A delivery gives up, or re-stamps, sends, and records or loses the outcome. */
  lemma DeliveryReaches(s: Outbox, w: WorkerId, rows': Rows, sent: seq<Sent>, to: Time, healthy: bool) returns (s': Outbox)
    requires w in s.workers && s.workers[w].Delivering? && s.workers[w].queue != [] && s.clock <= to
    requires DeliveryEffect(s.rows, rows', s.workers[w].queue[0], sent, s.clock, to, healthy)
    ensures Reached(s, s') && s'.rows == rows' && s'.clock == to
    ensures s'.workers == s.workers[w := Delivering(s.workers[w].queue[1..])]
  {
    WaitReaches(s, to);
    var t := s.(clock := to);
    if sent == [] {
      s' := Next(t, GiveUp(w));
      StepReaches(t, GiveUp(w));
    } else {
      var stamp, at :| s.clock <= stamp <= at <= to && StampedOutcome(s.rows, rows', s.workers[w].queue[0], stamp, sent[0].ok, at, healthy);
      s' := SendReaches(t, w, rows', stamp, sent[0].ok, at, healthy);
    }
    ReachedFurther(s, t, s');
  }

  lemma SendReaches(s: Outbox, w: WorkerId, rows': Rows, stamp: Time, ok: bool, at: Time, healthy: bool) returns (s': Outbox)
    requires w in s.workers && s.workers[w].Delivering? && s.workers[w].queue != [] && stamp <= at <= s.clock
    requires Restampable(s.rows, s.workers[w].queue[0].row)
    requires StampedOutcome(s.rows, rows', s.workers[w].queue[0], stamp, ok, at, healthy)
    ensures Reached(s, s') && s'.rows == rows' && s'.clock == s.clock
    ensures s'.workers == s.workers[w := Delivering(s.workers[w].queue[1..])]
  {
    var job := s.workers[w].queue[0];
    var t := Next(s, Restamp(w, stamp));
    StepReaches(s, Restamp(w, stamp));
    var u := Next(t, Send(w, ok, at));
    StepReaches(t, Send(w, ok, at));
    var a := if rows' == RecordRow(t.rows, job.row, stamp, job.attempts, ok, at) then RecordOutcome(w) else GiveUp(w);
    s' := Next(u, a);
    StepReaches(u, a);
    ReachedFurther(s, t, u);
    ReachedFurther(s, u, s');
  }

  // ---------------------------------------------------------------- the worker

  class OutboxWorker {
    var rows: Rows
    var clock: Time
    var sends: seq<Sent>
    const me: WorkerId
    ghost var machine: Outbox

    /** The worker takes its place, idle, among the replicas of any outbox. */
    constructor (me: WorkerId, ghost outbox: Outbox, rows: Rows, clock: Time)
      requires rows == outbox.rows && clock == outbox.clock && me in outbox.workers && outbox.workers[me].Idle?
      ensures this.rows == rows && this.clock == clock && sends == []
      ensures machine == outbox && At(Idle)
    {
      this.rows, this.clock, sends := rows, clock, [];
      this.me, machine := me, outbox;
    }

    /** The tables are those of the machine, where this worker stands at `x`. */
    ghost predicate At(x: Worker)
      reads this
    {
      machine.rows == rows && machine.clock == clock && me in machine.workers && machine.workers[me] == x
    }

    /** Reading the clock: some time has passed. */
    method Now() returns (t: Time)
      modifies this`clock
      ensures old(clock) <= clock == t
    {
      t := *;
      if t < clock {
        t := clock;
      }
      clock := t;
    }

    /** Whether the next statement fails. */
    static method Fault(healthy: bool) returns (failed: bool)
      ensures healthy ==> !failed
    {
      failed := *;
      if healthy {
        failed := false;
      }
    }

    method ReapStuckSending(healthy: bool) returns (failed: bool)
      modifies this`rows, this`clock
      ensures old(clock) <= clock && (healthy ==> !failed)
      ensures rows == if failed then old(rows) else ReapRows(old(rows), clock)
    {
      var now := Now();
      failed := Fault(healthy);
      if !failed {
        rows := ReapRows(rows, now);
      }
    }

    /** All or nothing: the leases are written in one transaction. */
    method Claim(healthy: bool) returns (jobs: seq<Job>, failed: bool)
      modifies this`rows, this`clock
      ensures old(clock) <= clock && (healthy ==> !failed)
      ensures failed ==> rows == old(rows) && jobs == []
      ensures !failed ==> rows == ClaimRows(old(rows), Selected(old(rows), clock), clock)
      ensures !failed ==> jobs == JobsFor(old(rows), Selected(old(rows), clock), clock)
    {
      var now := Now();
      jobs := [];
      failed := Fault(healthy);
      if failed {
        return;
      }
      var ids := Selected(rows, now);
      var claimed := JobsFor(rows, ids, now);
      var tx, k := rows, 0;
      while k < |claimed|
        invariant k <= |claimed| && tx == ClaimRows(rows, ids[..k], now)
        invariant rows == old(rows) && clock == now
      {
        failed := Fault(healthy);
        if failed {
          return;
        }
        tx := tx[ids[k] := Leased(tx[ids[k]], now)];
        assert ids[..k + 1] == ids[..k] + [ids[k]] && ids[k] !in ids[..k];
        k := k + 1;
      }
      failed := Fault(healthy);
      if !failed {
        assert ids[..k] == ids;
        rows, jobs := tx, claimed;
      }
    }

    method Deliver(j: Job, healthy: bool)
      modifies this`rows, this`clock, this`sends
      ensures old(clock) <= clock
      ensures |old(sends)| <= |sends| && sends[..|old(sends)|] == old(sends)
      ensures DeliveryEffect(old(rows), rows, j, sends[|old(sends)|..], old(clock), clock, healthy)
    {
      var ownClaim := Now();
      var failed := Fault(healthy);
      if failed || !Restampable(rows, j.row) {
        return;
      }
      rows := RestampRow(rows, j.row, ownClaim);
      var now := Now();
      var ok: bool := *;
      sends := sends + [Sent(j.row, ok)];
      assert sends[|old(sends)|..] == [Sent(j.row, ok)];
      failed := Fault(healthy);
      if ok {
        if !failed && OwnsLease(rows, j.row, ownClaim) {
          var r := rows[j.row];
          rows := rows[j.row := r.(status := DeliverySent, claimedAt := None, writes := r.writes + 1)];
        }
        assert StampedOutcome(old(rows), rows, j, ownClaim, ok, now, healthy);
        return;
      }
      var attempts := j.attempts + 1;
      if attempts >= MAX_DELIVERY_ATTEMPTS {
        if !failed && OwnsLease(rows, j.row, ownClaim) {
          var r := rows[j.row];
          rows := rows[j.row := r.(status := DeliveryFailed, attempts := attempts, claimedAt := None, writes := r.writes + 1)];
        }
        assert StampedOutcome(old(rows), rows, j, ownClaim, ok, now, healthy);
        return;
      }
      var next := now + RetryBackoff(attempts);
      if !failed && OwnsLease(rows, j.row, ownClaim) {
        var r := rows[j.row];
        rows := rows[j.row := r.(status := DeliveryPending, attempts := attempts, claimedAt := None,
                                 nextAttempt := Some(next), writes := r.writes + 1)];
      }
      assert StampedOutcome(old(rows), rows, j, ownClaim, ok, now, healthy);
    }

    /** One delivery as steps of the machine. */
    method DeliverOne(queue: seq<Job>, healthy: bool)
      requires queue != [] && At(Delivering(queue))
      modifies this
      ensures old(clock) <= clock && old(sends) <= sends
      ensures DeliveryEffect(old(rows), rows, queue[0], sends[|old(sends)|..], old(clock), clock, healthy)
      ensures At(Delivering(queue[1..])) && Reached(old(machine), machine)
    {
      Deliver(queue[0], healthy);
      machine := DeliveryReaches(machine, me, rows, sends[|old(sends)|..], clock, healthy);
    }

    /** After k deliveries since `start`, `rows0` and `sends0`. */
    ghost predicate DeliveredUpTo(start: Outbox, rows0: Rows, sends0: seq<Sent>, jobs: seq<Job>, healthy: bool, n: nat,
                                  horizon: Time, k: nat)
      requires k <= |jobs|
      reads this
    {
      && At(Delivering(jobs[k..])) && Reached(start, machine)
      && JobsPending(rows, jobs, k) && Steady(rows, n, Max(horizon, clock + MAX_BACKOFF))
      && sends0 <= sends && SentWasTaken(rows0, rows, sends)
      && Budget(rows, n) <= Budget(rows0, n)
      && (healthy ==> |sends| - |sends0| <= Budget(rows0, n) - Budget(rows, n) && Budget(rows, n) + k <= Budget(rows0, n))
    }

    method DeliverNext(ghost start: Outbox, ghost rows0: Rows, ghost sends0: seq<Sent>, jobs: seq<Job>, healthy: bool,
                       ghost n: nat, ghost horizon: Time, k: nat)
      requires k < |jobs| && DeliveredUpTo(start, rows0, sends0, jobs, healthy, n, horizon, k)
      modifies this
      ensures old(clock) <= clock && DeliveredUpTo(start, rows0, sends0, jobs, healthy, n, horizon, k + 1)
    {
      assert jobs[k..][1..] == jobs[k + 1..];
      DeliverOne(jobs[k..], healthy);
      DeliverySpends(old(rows), rows, jobs[k], sends[|old(sends)|..], old(clock), clock, healthy, n, Max(horizon, clock + MAX_BACKOFF));
      SentAddsUp(rows0, old(rows), rows, old(sends), sends);
      ReachedFurther(start, old(machine), machine);
    }

    /** The loop over the claimed rows. */
    method DeliverAll(jobs: seq<Job>, healthy: bool, ghost n: nat, ghost horizon: Time)
      requires At(Delivering(jobs))
      requires JobsPending(rows, jobs, 0) && Steady(rows, n, Max(horizon, clock + MAX_BACKOFF))
      modifies this
      ensures old(clock) <= clock && Steady(rows, n, Max(horizon, clock + MAX_BACKOFF))
      ensures Budget(rows, n) <= Budget(old(rows), n)
      ensures healthy ==> |sends| - |old(sends)| <= Budget(old(rows), n) - Budget(rows, n)
      ensures healthy && jobs != [] ==> Budget(rows, n) < Budget(old(rows), n)
      ensures jobs == [] ==> rows == old(rows)
      ensures old(sends) <= sends && SentWasTaken(old(rows), rows, sends)
      ensures At(Delivering([])) && Reached(old(machine), machine)
    {
      ReachedSelf(machine);
      var k := 0;
      while k < |jobs|
        invariant k <= |jobs| && old(clock) <= clock && (k == 0 ==> rows == old(rows))
        invariant DeliveredUpTo(old(machine), old(rows), old(sends), jobs, healthy, n, horizon, k)
      {
        DeliverNext(old(machine), old(rows), old(sends), jobs, healthy, n, horizon, k);
        k := k + 1;
      }
    }

    /** The first half of a pass, on the tables: reap, then claim. */
    method ReapAndClaim(healthy: bool, ghost n: nat, ghost horizon: Time) returns (jobs: seq<Job>, failed: bool)
      requires Steady(rows, n, horizon)
      modifies this`rows, this`clock
      ensures old(clock) <= clock && (healthy ==> !failed) && JobsPending(rows, jobs, 0)
      ensures Steady(rows, n, Max(horizon, clock + MAX_BACKOFF)) && (jobs == [] ==> Steady(rows, n, horizon))
      ensures Budget(rows, n) == Budget(old(rows), n) && SentWasTaken(old(rows), rows, [])
      ensures healthy && horizon < old(clock) && Budget(old(rows), n) > 0 ==> jobs != []
      ensures BatchEffect(old(rows), rows, jobs, failed, old(clock), clock)
    {
      jobs := [];
      failed := ReapStuckSending(healthy);
      ReapKeepsBudget(old(rows), n, horizon, clock);
      if failed {
        return;
      }
      ghost var reaped := clock;
      jobs, failed := Claim(healthy);
      if failed {
        assert ReapedOnly(old(rows), rows, reaped, old(clock), clock);
        return;
      }
      assert ReapedAndClaimed(old(rows), rows, jobs, reaped, old(clock), clock);
      PassStarts(old(rows), reaped, clock, n, horizon);
    }

    /** The first half of a pass as steps of the machine. */
    method TakeBatch(healthy: bool, ghost n: nat, ghost horizon: Time) returns (jobs: seq<Job>, failed: bool)
      requires Steady(rows, n, horizon) && At(Idle)
      modifies this`rows, this`clock, this`machine
      ensures At(if failed then Idle else Delivering(jobs)) && Reached(old(machine), machine)
      ensures old(clock) <= clock && (healthy ==> !failed) && JobsPending(rows, jobs, 0)
      ensures Steady(rows, n, Max(horizon, clock + MAX_BACKOFF)) && (jobs == [] ==> Steady(rows, n, horizon))
      ensures Budget(rows, n) == Budget(old(rows), n) && SentWasTaken(old(rows), rows, [])
      ensures healthy && horizon < old(clock) && Budget(old(rows), n) > 0 ==> jobs != []
    {
      jobs, failed := ReapAndClaim(healthy, n, horizon);
      machine := BatchReaches(machine, me, rows, jobs, failed, clock);
    }

    /**
     One pass. It never adds to the work left; without failures every send is
     paid for by the budget, and past the horizon something is sent as long as
     anything is left.
     */
    method Drain(healthy: bool, ghost n: nat, ghost horizon: Time) returns (failed: bool)
      requires Steady(rows, n, horizon) && At(Idle)
      modifies this
      ensures At(Idle) && Reached(old(machine), machine)
      ensures old(clock) <= clock && (healthy ==> !failed)
      ensures Steady(rows, n, Max(horizon, clock + MAX_BACKOFF))
      ensures old(sends) <= sends && SentWasTaken(old(rows), rows, sends)
      ensures Budget(rows, n) <= Budget(old(rows), n)
      ensures healthy ==> |sends| - |old(sends)| <= Budget(old(rows), n) - Budget(rows, n)
      ensures healthy && Budget(rows, n) == Budget(old(rows), n) ==> Steady(rows, n, horizon)
      ensures healthy && horizon < old(clock) && Budget(old(rows), n) > 0 ==> Budget(rows, n) < Budget(old(rows), n)
    {
      var jobs;
      jobs, failed := TakeBatch(healthy, n, horizon);
      ghost var claimed := rows;
      if failed {
        return;
      }
      ghost var claim := machine;
      DeliverAll(jobs, healthy, n, horizon);
      SentAddsUp(old(rows), claimed, rows, [], sends);
      ReachedFurther(old(machine), claim, machine);
      ghost var delivered := machine;
      machine := PassEnds(delivered, me, clock);
      ReachedFurther(old(machine), delivered, machine);
    }

    /** One tick of the timer, at least `pause` after the last pass: it brings the end nearer. */
    method TickOnce(pause: Time, healthy: bool, ghost n: nat, ghost idle: nat, ghost wait: nat, ghost horizon: Time)
      returns (ghost wait': nat, ghost horizon': Time)
      requires pause > 0 && idle == IdlePauses(pause) && wait <= idle
      requires horizon < clock + Span(wait, pause) && Steady(rows, n, horizon) && At(Idle)
      modifies this
      ensures At(Idle) && Reached(old(machine), machine)
      ensures wait' <= idle && horizon' < clock + Span(wait', pause) && Steady(rows, n, horizon')
      ensures old(sends) <= sends && SentWasTaken(old(rows), rows, sends)
      ensures Budget(rows, n) <= Budget(old(rows), n)
      ensures healthy ==> |sends| - |old(sends)| <= Budget(old(rows), n) - Budget(rows, n)
      ensures healthy && Budget(rows, n) > 0 ==> Passes(Budget(rows, n), idle, wait') < Passes(Budget(old(rows), n), idle, wait)
    {
      clock := clock + pause;
      var _ := Now();
      WaitReaches(machine, clock);
      machine := machine.(clock := clock);
      ghost var ticked := machine;
      var failed := Drain(healthy, n, horizon);
      ReachedFurther(old(machine), ticked, machine);
      PassesDrop(Budget(old(rows), n), Budget(rows, n), idle, wait);
      SpanGrows(wait, idle, pause);
      IdleOutlastsBackoff(pause);
      if healthy && Budget(rows, n) == Budget(old(rows), n) && wait > 0 {
        wait', horizon' := wait - 1, horizon;
      } else {
        wait', horizon' := idle, Max(horizon, clock + MAX_BACKOFF);
      }
    }

    /** After k passes since `start`, `rows0` and `sends0`. */
    ghost predicate Running(start: Outbox, rows0: Rows, sends0: seq<Sent>, pause: Time, healthy: bool, n: nat,
                            k: nat, wait: nat, horizon: Time)
      requires pause > 0
      reads this
    {
      && At(Idle) && Reached(start, machine)
      && wait <= IdlePauses(pause) && horizon < clock + Span(wait, pause) && Steady(rows, n, horizon)
      && sends0 <= sends && SentWasTaken(rows0, rows, sends)
      && (healthy ==> Underway(rows0, rows, n, |sends| - |sends0|, k, IdlePauses(pause), wait))
    }

    method OnePass(ghost start: Outbox, ghost rows0: Rows, ghost sends0: seq<Sent>, pause: Time, healthy: bool, ghost n: nat,
                   ghost k: nat, ghost wait: nat, ghost horizon: Time)
      returns (ghost wait': nat, ghost horizon': Time)
      requires pause > 0 && Running(start, rows0, sends0, pause, healthy, n, k, wait, horizon)
      modifies this
      ensures Running(start, rows0, sends0, pause, healthy, n, k + 1, wait', horizon')
    {
      wait', horizon' := TickOnce(pause, healthy, n, IdlePauses(pause), wait, horizon);
      SentAddsUp(rows0, old(rows), rows, old(sends), sends);
      ReachedFurther(start, old(machine), machine);
      if healthy {
        OneMorePass(rows0, old(rows), rows, n, |old(sends)| - |sends0|, |sends| - |old(sends)|, k, IdlePauses(pause), wait, wait');
      }
    }

    /** `ticks` passes, at least `pause` apart. */
    method RunPasses(ticks: nat, pause: Time, healthy: bool, ghost n: nat) returns (ghost wait: nat, ghost horizon: Time)
      requires pause > 0 && Steady(rows, n, clock + MAX_BACKOFF) && At(Idle)
      modifies this
      ensures Running(old(machine), old(rows), old(sends), pause, healthy, n, ticks, wait, horizon)
    {
      wait, horizon := IdlePauses(pause), clock + MAX_BACKOFF;
      IdleOutlastsBackoff(pause);
      ReachedSelf(machine);
      var k := 0;
      while k < ticks
        invariant k <= ticks && Running(old(machine), old(rows), old(sends), pause, healthy, n, k, wait, horizon)
      {
        wait, horizon := OnePass(old(machine), old(rows), old(sends), pause, healthy, n, k, wait, horizon);
        k := k + 1;
      }
    }

    /**
     `ticks` passes, at least `pause` apart: a run of the lease machine. Whatever
     becomes SENT was taken by the mail server. Without crashes and failures a
     row costs at most five sends, and enough passes finish every message.
     */
    method Run(ticks: nat, pause: Time, healthy: bool, ghost n: nat)
      requires pause > 0 && Steady(rows, n, clock + MAX_BACKOFF) && At(Idle)
      modifies this
      ensures At(Idle) && Reached(old(machine), machine)
      ensures old(sends) <= sends && SentWasTaken(old(rows), rows, sends)
      ensures healthy ==> |sends| - |old(sends)| <= MAX_DELIVERY_ATTEMPTS * |old(rows)|
      ensures healthy && ticks >= (MAX_DELIVERY_ATTEMPTS * |old(rows)| + 1) * (IdlePauses(pause) + 1) ==> AllFinished(rows)
    {
      ghost var wait, horizon := RunPasses(ticks, pause, healthy, n);
      if healthy {
        EnoughTicks(old(rows), rows, n, horizon, |sends| - |old(sends)|, ticks, IdlePauses(pause), wait);
      }
    }
  }
}
