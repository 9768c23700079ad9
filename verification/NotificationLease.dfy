/**
 The outbox lease protocol: any number of worker replicas reap, claim,
 re-stamp, send and record, while the clock runs and workers crash. Reaping,
 claiming, re-stamping and recording are single atomic statements.
 */
module NotificationLease {
  import opened EnrollmentDomain
  import opened NotificationOutbox

  // ---------------------------------------------------------------- constants and arithmetic

  /** Nanoseconds, as in Go's time.Duration. */
  type Time = int

  const SECOND := 1_000_000_000
  const MAX_DELIVERY_ATTEMPTS := 5
  const LEASE_THRESHOLD := 60 * SECOND
  const BATCH := 20

  const BASE_BACKOFF := 30 * SECOND
  const MAX_BACKOFF := 300 * SECOND
  const MAX_INT64 := 0x7FFF_FFFF_FFFF_FFFF

  function Pow2(k: nat): nat {
    if k == 0 then 1 else 2 * Pow2(k - 1)
  }

  /** The value of a signed 64-bit machine integer after wrap-around. */
  function Wrap64(x: int): int {
    var m := x % 0x1_0000_0000_0000_0000;
    if m > MAX_INT64 then m - 0x1_0000_0000_0000_0000 else m
  }

  /** x << k on a signed 64-bit integer. */
  function ShiftLeft64(x: int, k: nat): int {
    Wrap64(x * Pow2(k))
  }

  function RetryBackoff(attempt: int): Time {
    var n := if attempt < 1 then 1 else attempt;
    if n > 10 then MAX_BACKOFF
    else
      var d := ShiftLeft64(BASE_BACKOFF, n - 1);
      if d <= 0 || d > MAX_BACKOFF then MAX_BACKOFF else d
  }

  lemma {:induction false} Pow2Grows(j: nat, k: nat)
    requires j <= k
    ensures 1 <= Pow2(j) <= Pow2(k)
  {
    if k > 0 {
      if j == k {
        Pow2Grows(j - 1, j - 1);
      } else {
        Pow2Grows(j, k - 1);
      }
    }
  }

  lemma Pow2Small()
    ensures Pow2(3) == 8 && Pow2(4) == 16 && Pow2(9) == 512
  {
    assert Pow2(3) == 2 * Pow2(2);
    assert Pow2(5) == 2 * Pow2(4);
    assert Pow2(7) == 2 * Pow2(6);
    assert Pow2(9) == 2 * Pow2(8);
  }

  /** For the attempts that are shifted at all, the 64-bit shift is the exact product. */
  lemma ShiftIsExact(k: nat)
    requires k <= 9
    ensures ShiftLeft64(BASE_BACKOFF, k) == BASE_BACKOFF * Pow2(k) <= MAX_INT64
  {
    Pow2Small();
    Pow2Grows(k, 9);
    WrapIsExact(BASE_BACKOFF * Pow2(k));
  }

  lemma WrapIsExact(x: int)
    requires 0 <= x <= MAX_INT64
    ensures Wrap64(x) == x
  {
  }

  /** The delay doubles from 30 seconds up to a cap of 5 minutes, for every machine integer. */
  lemma BackoffIsCappedDoubling(attempt: int)
    ensures var n := if attempt < 1 then 1 else attempt;
      RetryBackoff(attempt) == if BASE_BACKOFF * Pow2(n - 1) < MAX_BACKOFF then BASE_BACKOFF * Pow2(n - 1) else MAX_BACKOFF
  {
    var n := if attempt < 1 then 1 else attempt;
    Pow2Small();
    if n > 10 {
      Pow2Grows(4, n - 1);
    } else {
      ShiftIsExact(n - 1);
      Pow2Grows(n - 1, n - 1);
    }
  }

  lemma BackoffNeverShrinks(a: int, b: int)
    requires a <= b
    ensures 0 < RetryBackoff(a) <= RetryBackoff(b) <= MAX_BACKOFF
  {
    BackoffIsCappedDoubling(a);
    BackoffIsCappedDoubling(b);
    Pow2Grows((if a < 1 then 1 else a) - 1, (if b < 1 then 1 else b) - 1);
  }

  // ---------------------------------------------------------------- rows and statements

  type RowId = nat
  type WorkerId = nat

  datatype Delivery = DeliveryPending | DeliverySending | DeliverySent | DeliveryFailed

  /** One notification; `writes` is history: how often its lease or outcome was written. */
  datatype Row = Row(channel: Channel, status: Delivery, attempts: int,
                     claimedAt: Option<Time>, nextAttempt: Option<Time>, writes: nat)

  type Rows = map<RowId, Row>

  const NEW_EMAIL := Row(ChannelEmail, DeliveryPending, 0, None, None, 0)
  const NEW_IN_APP := Row(ChannelInApp, DeliveryPending, 0, None, None, 0)

  /** The pure decision of the reaper. */
  predicate IsLeaseExpired(claimedAt: Time, now: Time) {
    now - claimedAt > LEASE_THRESHOLD
  }

  /** The row matches the reaper's WHERE clause. */
  predicate Stuck(r: Row, now: Time) {
    r.channel == ChannelEmail && r.status == DeliverySending && r.claimedAt.Some? && IsLeaseExpired(r.claimedAt.value, now)
  }

  function Released(r: Row): Row {
    r.(status := DeliveryPending, claimedAt := None, writes := r.writes + 1)
  }

  function ReapRows(rows: Rows, now: Time): Rows {
    map id | id in rows :: if Stuck(rows[id], now) then Released(rows[id]) else rows[id]
  }

  /** The row matches the claim's WHERE clause. */
  predicate Claimable(r: Row, now: Time) {
    && r.channel == ChannelEmail && r.status == DeliveryPending
    && (r.nextAttempt.None? || r.nextAttempt.value <= now)
  }

  function Leased(r: Row, stamp: Time): Row {
    r.(status := DeliverySending, claimedAt := Some(stamp), writes := r.writes + 1)
  }

  function ClaimRows(rows: Rows, ids: seq<RowId>, stamp: Time): Rows {
    map id | id in rows :: if id in ids then Leased(rows[id], stamp) else rows[id]
  }

  /** The guard of every write that records an outcome. */
  predicate OwnsLease(rows: Rows, id: RowId, stamp: Time) {
    id in rows && rows[id].status == DeliverySending && rows[id].claimedAt == Some(stamp)
  }

  /** The guard of the re-stamp: it does not ask whose lease it is. */
  predicate Restampable(rows: Rows, id: RowId) {
    id in rows && rows[id].status == DeliverySending
  }

  function RestampRow(rows: Rows, id: RowId, stamp: Time): Rows {
    if Restampable(rows, id) then rows[id := rows[id].(claimedAt := Some(stamp), writes := rows[id].writes + 1)] else rows
  }

  /** What recording the outcome of a send makes of the row; `attempts` is the job's copy. */
  function Recorded(r: Row, attempts: int, ok: bool, now: Time): Row {
    if ok then r.(status := DeliverySent, claimedAt := None, writes := r.writes + 1)
    else if attempts + 1 >= MAX_DELIVERY_ATTEMPTS then
      r.(status := DeliveryFailed, attempts := attempts + 1, claimedAt := None, writes := r.writes + 1)
    else
      r.(status := DeliveryPending, attempts := attempts + 1, claimedAt := None,
         nextAttempt := Some(now + RetryBackoff(attempts + 1)), writes := r.writes + 1)
  }

  function RecordRow(rows: Rows, id: RowId, stamp: Time, attempts: int, ok: bool, now: Time): Rows {
    if OwnsLease(rows, id, stamp) then rows[id := Recorded(rows[id], attempts, ok, now)] else rows
  }

  // ---------------------------------------------------------------- workers

  /** A claimed row with the attempt count copied at the claim; `claimed` and `writes` are history. */
  datatype Job = Job(row: RowId, attempts: int, claimed: Time, writes: nat)

  datatype Worker =
    | Idle
    | Claiming
    | Delivering(queue: seq<Job>)
    | Sending(job: Job, stamp: Time, writes: nat, rest: seq<Job>)
    | Recording(job: Job, stamp: Time, writes: nat, ok: bool, at: Time, rest: seq<Job>)

  /** An outcome write that took effect. */
  datatype Record = Record(row: RowId, stamp: Time, ok: bool)

  /** `used` are the stamps written so far, row by row; `history` the outcomes recorded. */
  datatype Outbox = Outbox(rows: Rows, workers: map<WorkerId, Worker>, clock: Time,
                           used: set<(RowId, Time)>, history: seq<Record>)

  /** Clock readings (`now`, `stamp`, `at`) are taken before the statement they go into. */
  datatype Action =
    | Enqueue(inApp: RowId, email: RowId)
    | Start(w: WorkerId)
    | Reap(w: WorkerId, now: Time)
    | Claim(w: WorkerId, ids: seq<RowId>, stamp: Time)
    | FinishDrain(w: WorkerId)
    | Restamp(w: WorkerId, stamp: Time)
    | Send(w: WorkerId, ok: bool, at: Time)
    | RecordOutcome(w: WorkerId)
    | GiveUp(w: WorkerId)
    | Crash(w: WorkerId)
    | Tick(delay: Time)

  predicate Init(s: Outbox) {
    s.rows == map[] && s.workers == map[] && s.used == {} && s.history == []
  }

  predicate DistinctIds(ids: seq<RowId>) {
    forall i, j :: 0 <= i < j < |ids| ==> ids[i] != ids[j]
  }

  predicate Enabled(s: Outbox, a: Action) {
    match a
    case Enqueue(inApp, email) => inApp != email && inApp !in s.rows && email !in s.rows
    case Start(w) => w !in s.workers
    case Reap(w, now) => w in s.workers && s.workers[w].Idle? && now <= s.clock
    case Claim(w, ids, stamp) =>
      && w in s.workers && s.workers[w].Claiming? && stamp <= s.clock
      && |ids| <= BATCH && DistinctIds(ids)
      && forall i :: 0 <= i < |ids| ==> ids[i] in s.rows && Claimable(s.rows[ids[i]], stamp)
    case FinishDrain(w) => w in s.workers && s.workers[w].Delivering? && s.workers[w].queue == []
    case Restamp(w, stamp) => w in s.workers && s.workers[w].Delivering? && s.workers[w].queue != [] && stamp <= s.clock
    case Send(w, _, at) => w in s.workers && s.workers[w].Sending? && at <= s.clock
    case RecordOutcome(w) => w in s.workers && s.workers[w].Recording?
    case GiveUp(w) =>
      w in s.workers && (s.workers[w].Sending? || s.workers[w].Recording? || (s.workers[w].Delivering? && s.workers[w].queue != []))
    case Crash(w) => w in s.workers
    case Tick(delay) => delay >= 0
  }

  function JobsFor(rows: Rows, ids: seq<RowId>, stamp: Time): seq<Job>
    requires forall i :: 0 <= i < |ids| ==> ids[i] in rows
  {
    seq(|ids|, i requires 0 <= i < |ids| => Job(ids[i], rows[ids[i]].attempts, stamp, rows[ids[i]].writes + 1))
  }

  /** The jobs a worker still has to start. */
  function Queue(x: Worker): seq<Job> {
    match x
    case Delivering(queue) => queue
    case Sending(_, _, _, rest) => rest
    case Recording(_, _, _, _, _, rest) => rest
    case _ => []
  }

  function Next(s: Outbox, a: Action): Outbox
    requires Enabled(s, a)
  {
    match a
    case Enqueue(inApp, email) => s.(rows := s.rows[inApp := NEW_IN_APP][email := NEW_EMAIL])
    case Start(w) => s.(workers := s.workers[w := Idle])
    case Reap(w, now) => s.(rows := ReapRows(s.rows, now), workers := s.workers[w := Claiming])
    case Claim(w, ids, stamp) =>
      s.(rows := ClaimRows(s.rows, ids, stamp),
         workers := s.workers[w := Delivering(JobsFor(s.rows, ids, stamp))],
         used := s.used + set i | 0 <= i < |ids| :: (ids[i], stamp))
    case FinishDrain(w) => s.(workers := s.workers[w := Idle])
    case Restamp(w, stamp) =>
      var job, rest := s.workers[w].queue[0], s.workers[w].queue[1..];
      if Restampable(s.rows, job.row) then
        s.(rows := RestampRow(s.rows, job.row, stamp),
           workers := s.workers[w := Sending(job, stamp, s.rows[job.row].writes + 1, rest)],
           used := s.used + {(job.row, stamp)})
      else s.(workers := s.workers[w := Delivering(rest)])
    case Send(w, ok, at) =>
      var x := s.workers[w];
      s.(workers := s.workers[w := Recording(x.job, x.stamp, x.writes, ok, at, x.rest)])
    case RecordOutcome(w) =>
      var x := s.workers[w];
      s.(rows := RecordRow(s.rows, x.job.row, x.stamp, x.job.attempts, x.ok, x.at),
         workers := s.workers[w := Delivering(x.rest)],
         history := if OwnsLease(s.rows, x.job.row, x.stamp) then s.history + [Record(x.job.row, x.stamp, x.ok)] else s.history)
    case GiveUp(w) =>
      var x := s.workers[w];
      s.(workers := s.workers[w := Delivering(if x.Delivering? then x.queue[1..] else Queue(x))])
    case Crash(w) => s.(workers := s.workers[w := Idle])
    case Tick(delay) => s.(clock := s.clock + delay)
  }

  ghost predicate IsRun(ss: seq<Outbox>, acts: seq<Action>) {
    && |ss| == |acts| + 1
    && Init(ss[0])
    && forall i :: 0 <= i < |acts| ==> Enabled(ss[i], acts[i]) && ss[i + 1] == Next(ss[i], acts[i])
  }

  // ---------------------------------------------------------------- what can be reached

  /** The state after the actions, if each is enabled in its turn. */
  function Play(s: Outbox, acts: seq<Action>): Option<Outbox>
    decreases |acts|
  {
    if acts == [] then Some(s)
    else if Enabled(s, acts[0]) then Play(Next(s, acts[0]), acts[1..])
    else None
  }

  ghost predicate Reached(s: Outbox, s': Outbox) {
    exists acts :: Play(s, acts) == Some(s')
  }

  lemma {:induction false} PlayConcat(s: Outbox, a: seq<Action>, b: seq<Action>)
    requires Play(s, a).Some?
    ensures Play(s, a + b) == Play(Play(s, a).value, b)
    decreases |a|
  {
    if a == [] {
      assert a + b == b;
    } else {
      assert (a + b)[0] == a[0] && (a + b)[1..] == a[1..] + b;
      PlayConcat(Next(s, a[0]), a[1..], b);
    }
  }

  lemma ReachedSelf(s: Outbox)
    ensures Reached(s, s)
  {
    assert Play(s, []) == Some(s);
  }

  lemma ReachedFurther(s: Outbox, s': Outbox, s'': Outbox)
    requires Reached(s, s') && Reached(s', s'')
    ensures Reached(s, s'')
  {
    var a, b :| Play(s, a) == Some(s') && Play(s', b) == Some(s'');
    PlayConcat(s, a, b);
  }

  lemma StepReaches(s: Outbox, a: Action)
    requires Enabled(s, a)
    ensures Reached(s, Next(s, a))
  {
    assert Play(Next(s, a), []) == Some(Next(s, a));
    assert [a][1..] == [];
    assert Play(s, [a]) == Some(Next(s, a));
  }

  /** Time passes. */
  lemma WaitReaches(s: Outbox, now: Time)
    requires s.clock <= now
    ensures Reached(s, s.(clock := now))
  {
    StepReaches(s, Tick(now - s.clock));
  }

  lemma ReapReaches(s: Outbox, w: WorkerId, now: Time) returns (s': Outbox)
    requires w in s.workers && s.workers[w].Idle? && s.clock <= now
    ensures Reached(s, s') && s'.rows == ReapRows(s.rows, now) && s'.clock == now && s'.workers == s.workers[w := Claiming]
  {
    WaitReaches(s, now);
    var t := s.(clock := now);
    s' := Next(t, Reap(w, now));
    StepReaches(t, Reap(w, now));
    ReachedFurther(s, t, s');
  }
}
