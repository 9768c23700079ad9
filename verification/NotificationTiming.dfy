/**
 Mutual exclusion of the outbox workers under the timing their lease assumes,
 and the exact condition without it.
 */
module NotificationTiming {
  import opened EnrollmentDomain
  import opened NotificationOutbox
  import opened NotificationLease
  import opened NotificationSafety

  // ---------------------------------------------------------------- the timing hypothesis

  /**
   Every worker re-stamps a row within the lease threshold of its claim, and
   finishes, gives up or crashes within the threshold of its re-stamp.
   */
  ghost predicate Timely(s: Outbox) {
    forall w, i :: w in s.workers && 0 <= i < |Holds(s.workers[w])| ==>
      s.clock <= Holds(s.workers[w])[i].since + LEASE_THRESHOLD
  }

  ghost predicate TimelyRun(ss: seq<Outbox>, acts: seq<Action>) {
    IsRun(ss, acts) && forall i :: 0 <= i < |ss| ==> Timely(ss[i])
  }

  // ---------------------------------------------------------------- exclusive ownership

  /** The lease is the worker's own and its copy of the attempts is current. */
  predicate Owned(rows: Rows, h: Hold) {
    OwnsLease(rows, h.row, h.since) && rows[h.row].attempts == h.attempts
  }

  ghost predicate AllOwned(s: Outbox) {
    forall w, i :: w in s.workers && 0 <= i < |Holds(s.workers[w])| ==> Owned(s.rows, Holds(s.workers[w])[i])
  }

  /** No row is held twice, by two workers or by one. */
  ghost predicate Exclusive(s: Outbox) {
    forall v, w, i, j :: IsHold(s, v, i) && IsHold(s, w, j) && (v != w || i != j) ==>
      Holds(s.workers[v])[i].row != Holds(s.workers[w])[j].row
  }

  /** Failed sends recorded for a row. */
  function Failures(history: seq<Record>, id: RowId): nat {
    if history == [] then 0
    else
      var last := history[|history| - 1];
      Failures(history[..|history| - 1], id) + if last.row == id && !last.ok then 1 else 0
  }

  ghost predicate AttemptsCounted(s: Outbox) {
    && (forall id :: id in s.rows ==> s.rows[id].attempts == Failures(s.history, id))
    && (forall k :: 0 <= k < |s.history| ==> s.history[k].row in s.rows)
  }

  ghost predicate LeaseInv(s: Outbox) {
    AllOwned(s) && Exclusive(s) && AttemptsCounted(s)
  }

  /** The reap finds a row that a live worker has held for longer than the threshold. */
  ghost predicate ReapsHeld(s: Outbox, a: Action) {
    a.Reap? && exists w, i :: IsHold(s, w, i) && IsLeaseExpired(Holds(s.workers[w])[i].since, a.now)
  }

  /** A row whose holder is in time is not reaped. */
  lemma HeldRowsAreNotReaped(s: Outbox, w: WorkerId, i: nat, now: Time)
    requires AllOwned(s) && IsHold(s, w, i) && !IsLeaseExpired(Holds(s.workers[w])[i].since, now)
    ensures Holds(s.workers[w])[i].row in s.rows
    ensures ReapRows(s.rows, now)[Holds(s.workers[w])[i].row] == s.rows[Holds(s.workers[w])[i].row]
  {
    assert Owned(s.rows, Holds(s.workers[w])[i]);
  }

  /** The worker is done with the row it was on. */
  predicate Pops(s: Outbox, a: Action, w: WorkerId)
    requires Enabled(s, a)
  {
    || (a.RecordOutcome? && a.w == w)
    || (a.GiveUp? && a.w == w)
    || (a.Restamp? && a.w == w && !Restampable(s.rows, s.workers[w].queue[0].row))
  }

  /** Where a hold after the step comes from. */
  lemma HoldSource(s: Outbox, a: Action, w: WorkerId, i: nat) returns (k: nat)
    requires Enabled(s, a) && w in Next(s, a).workers && i < |Holds(Next(s, a).workers[w])|
    ensures !(a.Claim? && a.w == w) ==>
      && w in s.workers && k < |Holds(s.workers[w])|
      && Holds(s.workers[w])[k].row == Holds(Next(s, a).workers[w])[i].row
      && Holds(s.workers[w])[k].attempts == Holds(Next(s, a).workers[w])[i].attempts
      && (a.Restamp? && a.w == w && k == 0 ==>
            i == 0 && Restampable(s.rows, Holds(s.workers[w])[0].row) && Holds(Next(s, a).workers[w])[i].since == a.stamp)
      && (!(a.Restamp? && a.w == w && k == 0) ==> Holds(s.workers[w])[k] == Holds(Next(s, a).workers[w])[i])
      && k == if Pops(s, a, w) then i + 1 else i
  {
    HoldsAfter(s, a, w);
    k := if Pops(s, a, w) then i + 1 else i;
    if w in s.workers && !(a.Claim? && a.w == w) {
      var h, h' := Holds(s.workers[w]), Holds(Next(s, a).workers[w]);
      if Pops(s, a, w) {
        assert h' == h[1..];
      } else if a.Restamp? && a.w == w {
        assert i > 0 ==> h'[i] == h[1..][i - 1];
      } else {
        assert (a.Crash? && a.w == w) || h' == h;
      }
    }
  }

  /** The step leaves the rows others hold alone. */
  lemma OthersRowsKept(s: Outbox, a: Action, w: WorkerId, k: nat)
    requires LeaseInv(s) && !ReapsHeld(s, a) && Enabled(s, a)
    requires w in s.workers && k < |Holds(s.workers[w])|
    requires a.RecordOutcome? || a.Restamp? ==> a.w != w || k > 0
    ensures var id := Holds(s.workers[w])[k].row;
      id in s.rows && id in Next(s, a).rows && Next(s, a).rows[id] == s.rows[id]
  {
    var h := Holds(s.workers[w])[k];
    assert Owned(s.rows, h);
    match a
    case Reap(_, now) =>
      assert IsHold(s, w, k);
      HeldRowsAreNotReaped(s, w, k, now);
    case RecordOutcome(v) => assert Holds(s.workers[v])[0].row != h.row;
    case Restamp(v, _) => assert Holds(s.workers[v])[0].row != h.row;
    case _ =>
  }

  lemma StepKeepsOwned(s: Outbox, a: Action)
    requires LeaseInv(s) && !ReapsHeld(s, a) && Enabled(s, a)
    ensures AllOwned(Next(s, a))
  {
    var s' := Next(s, a);
    forall w, i | w in s'.workers && 0 <= i < |Holds(s'.workers[w])| ensures Owned(s'.rows, Holds(s'.workers[w])[i]) {
      if a.Claim? && a.w == w {
        HoldsAfter(s, a, w);
        assert a.ids[i] in a.ids;
      } else {
        var k := HoldSource(s, a, w, i);
        assert Owned(s.rows, Holds(s.workers[w])[k]);
        if !(a.Restamp? && a.w == w && k == 0) {
          OthersRowsKept(s, a, w, k);
        }
      }
    }
  }

  /** A claimed row is held by nobody else. */
  lemma ClaimedRowsWereFree(s: Outbox, a: Action, w: WorkerId, k: nat, m: nat)
    requires LeaseInv(s) && Enabled(s, a) && a.Claim? && m < |a.ids|
    requires w in s.workers && k < |Holds(s.workers[w])|
    ensures Holds(s.workers[w])[k].row != a.ids[m]
  {
    assert Owned(s.rows, Holds(s.workers[w])[k]);
  }

  /** Two holds that were there before the step. */
  lemma OldHoldsStayExclusive(s: Outbox, a: Action, v: WorkerId, w: WorkerId, i: nat, j: nat)
    requires LeaseInv(s) && Enabled(s, a) && IsHold(Next(s, a), v, i) && IsHold(Next(s, a), w, j) && (v != w || i != j)
    requires !(a.Claim? && (a.w == v || a.w == w))
    ensures Holds(Next(s, a).workers[v])[i].row != Holds(Next(s, a).workers[w])[j].row
  {
    var m := HoldSource(s, a, v, i);
    var n := HoldSource(s, a, w, j);
    assert IsHold(s, v, m) && IsHold(s, w, n) && (v != w || m != n);
  }

  /** A claimed row and one held before, or two claimed rows. */
  lemma NewHoldIsExclusive(s: Outbox, a: Action, v: WorkerId, w: WorkerId, i: nat, j: nat)
    requires LeaseInv(s) && Enabled(s, a) && IsHold(Next(s, a), v, i) && IsHold(Next(s, a), w, j) && (v != w || i != j)
    requires a.Claim? && a.w == v
    ensures Holds(Next(s, a).workers[v])[i].row != Holds(Next(s, a).workers[w])[j].row
  {
    HoldsAfter(s, a, v);
    if v == w {
      assert a.ids[i] != a.ids[j];
    } else {
      var n := HoldSource(s, a, w, j);
      ClaimedRowsWereFree(s, a, w, n, i);
    }
  }

  lemma StepKeepsExclusive(s: Outbox, a: Action)
    requires LeaseInv(s) && Enabled(s, a)
    ensures Exclusive(Next(s, a))
  {
    var s' := Next(s, a);
    forall v, w, i, j | IsHold(s', v, i) && IsHold(s', w, j) && (v != w || i != j)
      ensures Holds(s'.workers[v])[i].row != Holds(s'.workers[w])[j].row
    {
      if a.Claim? && a.w == v {
        NewHoldIsExclusive(s, a, v, w, i, j);
      } else if a.Claim? && a.w == w {
        NewHoldIsExclusive(s, a, w, v, j, i);
      } else {
        OldHoldsStayExclusive(s, a, v, w, i, j);
      }
    }
  }

  lemma FailuresSnoc(history: seq<Record>, r: Record, id: RowId)
    ensures Failures(history + [r], id) == Failures(history, id) + if r.row == id && !r.ok then 1 else 0
  {
    assert (history + [r])[..|history + [r]| - 1] == history;
  }

  lemma {:induction false} NoFailuresOfStrangers(history: seq<Record>, id: RowId)
    requires forall k :: 0 <= k < |history| ==> history[k].row != id
    ensures Failures(history, id) == 0
  {
    if history != [] {
      NoFailuresOfStrangers(history[..|history| - 1], id);
    }
  }

  lemma StepCountsAttempts(s: Outbox, a: Action)
    requires LeaseInv(s) && Enabled(s, a)
    ensures AttemptsCounted(Next(s, a))
    ensures forall id :: id in s.rows ==> id in Next(s, a).rows && Next(s, a).rows[id].attempts >= s.rows[id].attempts
  {
    var s' := Next(s, a);
    match a
    case RecordOutcome(w) =>
      var x := s.workers[w];
      assert Owned(s.rows, Holds(x)[0]);
      forall id | id in s'.rows ensures s'.rows[id].attempts == Failures(s'.history, id) {
        FailuresSnoc(s.history, Record(x.job.row, x.stamp, x.ok), id);
      }
    case Enqueue(inApp, email) =>
      NoFailuresOfStrangers(s.history, inApp);
      NoFailuresOfStrangers(s.history, email);
    case _ =>
  }

  /** A reaped row is no longer owned by the worker that still holds it. */
  lemma ReapingHeldBreaksLease(s: Outbox, a: Action)
    requires Inv(s) && LeaseInv(s) && Enabled(s, a) && ReapsHeld(s, a)
    ensures !AllOwned(Next(s, a))
  {
    var w, i :| IsHold(s, w, i) && IsLeaseExpired(Holds(s.workers[w])[i].since, a.now);
    var h := Holds(s.workers[w])[i];
    assert HoldOk(s.rows, h) && Owned(s.rows, h);
    HoldsAfter(s, a, w);
    assert Holds(Next(s, a).workers[w])[i] == h && !Owned(Next(s, a).rows, h);
  }

  /** One step keeps every holder the only and true owner of its row exactly if it reaps no held row. */
  lemma StepKeepsLeasesExactlyWhen(s: Outbox, a: Action)
    requires Inv(s) && LeaseInv(s) && Enabled(s, a)
    ensures LeaseInv(Next(s, a)) <==> !ReapsHeld(s, a)
  {
    if ReapsHeld(s, a) {
      ReapingHeldBreaksLease(s, a);
    } else {
      StepKeepsOwned(s, a);
      StepKeepsExclusive(s, a);
      StepCountsAttempts(s, a);
    }
  }

  /** Every state up to the n-th. */
  ghost predicate LeasesHold(ss: seq<Outbox>, n: nat)
    requires n < |ss|
  {
    LeaseInv(ss[n]) && (n > 0 ==> LeasesHold(ss, n - 1))
  }

  /** None of the first n actions. */
  ghost predicate NoHeldReaped(ss: seq<Outbox>, acts: seq<Action>, n: nat)
    requires n <= |acts| && n <= |ss|
  {
    n > 0 ==> !ReapsHeld(ss[n - 1], acts[n - 1]) && NoHeldReaped(ss, acts, n - 1)
  }

  lemma InitLeaseInv(s: Outbox)
    requires Init(s)
    ensures LeaseInv(s)
  {
  }

  lemma {:induction false} LeasesHeldAt(ss: seq<Outbox>, n: nat, i: nat)
    requires n < |ss| && LeasesHold(ss, n) && i <= n
    ensures LeaseInv(ss[i])
  {
    if i < n {
      LeasesHeldAt(ss, n - 1, i);
    }
  }

  lemma {:induction false} NoneReapedUpTo(ss: seq<Outbox>, acts: seq<Action>, n: nat)
    requires n <= |acts| && n <= |ss| && forall i :: 0 <= i < n ==> !ReapsHeld(ss[i], acts[i])
    ensures NoHeldReaped(ss, acts, n)
  {
    if n > 0 {
      NoneReapedUpTo(ss, acts, n - 1);
    }
  }

  /**
   In every run, with no assumption on stamps or timing: at every moment up to
   the n-th each row has at most one live holder, which owns its lease, and
   attempt_count equals the failed sends recorded, if and only if no reap up to
   then released a row that a live worker held for longer than the threshold.
   */
  lemma {:induction false} LeasesHoldExactlyWhen(ss: seq<Outbox>, acts: seq<Action>, n: nat)
    requires IsRun(ss, acts) && n <= |acts|
    ensures LeasesHold(ss, n) <==> NoHeldReaped(ss, acts, n)
  {
    if n == 0 {
      InitLeaseInv(ss[0]);
    } else {
      LeasesHoldExactlyWhen(ss, acts, n - 1);
      if LeasesHold(ss, n - 1) {
        OutboxInvariant(ss, acts, n - 1);
        StepKeepsLeasesExactlyWhen(ss[n - 1], acts[n - 1]);
      }
    }
  }

  /**
   In a timely run every row has at most one live holder at any moment, each
   holder truly owns its lease, and attempt_count equals the failed sends
   recorded for the row.
   */
  lemma MutualExclusion(ss: seq<Outbox>, acts: seq<Action>, i: nat)
    requires TimelyRun(ss, acts) && i < |ss|
    ensures LeaseInv(ss[i])
  {
    forall j | 0 <= j < i ensures !ReapsHeld(ss[j], acts[j]) {
      assert Timely(ss[j]) && Enabled(ss[j], acts[j]);
    }
    NoneReapedUpTo(ss, acts, i);
    LeasesHoldExactlyWhen(ss, acts, i);
  }

  /** The failing outcome of a job that copied the count before others added to it lowers attempt_count; nothing else does. */
  lemma AttemptsDropExactlyWhen(s: Outbox, a: Action, id: RowId)
    requires Enabled(s, a) && id in s.rows
    ensures id in Next(s, a).rows
    ensures Next(s, a).rows[id].attempts < s.rows[id].attempts <==>
      a.RecordOutcome? && RecordsStaleFailure(s, s.workers[a.w], id)
  {
  }

  predicate RecordsStaleFailure(s: Outbox, x: Worker, id: RowId)
    requires id in s.rows
  {
    && x.Recording? && x.job.row == id && !x.ok && OwnsLease(s.rows, id, x.stamp)
    && x.job.attempts + 1 < s.rows[id].attempts
  }

  /** As long as no held row is reaped attempt_count never decreases. */
  lemma {:induction false} AttemptsNeverDecrease(ss: seq<Outbox>, acts: seq<Action>, i: nat, j: nat, id: RowId)
    requires IsRun(ss, acts) && i <= j < |ss| && NoHeldReaped(ss, acts, j) && id in ss[i].rows
    ensures id in ss[j].rows && ss[i].rows[id].attempts <= ss[j].rows[id].attempts
  {
    if i < j {
      AttemptsNeverDecrease(ss, acts, i, j - 1, id);
      LeasesHoldExactlyWhen(ss, acts, j - 1);
      StepCountsAttempts(ss[j - 1], acts[j - 1]);
    }
  }

  /** As long as no held row is reaped no send is in vain: every outcome that is recorded takes effect. */
  lemma OutcomesAlwaysCount(ss: seq<Outbox>, acts: seq<Action>, i: nat)
    requires IsRun(ss, acts) && i < |acts| && NoHeldReaped(ss, acts, i) && acts[i].RecordOutcome?
    ensures |ss[i + 1].history| == |ss[i].history| + 1
  {
    LeasesHoldExactlyWhen(ss, acts, i);
    assert Owned(ss[i].rows, Holds(ss[i].workers[acts[i].w])[0]);
  }

  /** Two workers are in the middle of sending the same row. */
  ghost predicate SentTwiceAtOnce(s: Outbox, v: WorkerId, w: WorkerId) {
    && v in s.workers && w in s.workers && v != w
    && s.workers[v].Sending? && s.workers[w].Sending? && s.workers[v].job.row == s.workers[w].job.row
  }

  /** A row with one holder is being sent by at most one worker. */
  lemma ExclusiveSends(s: Outbox, v: WorkerId, w: WorkerId)
    requires Exclusive(s)
    ensures !SentTwiceAtOnce(s, v, w)
  {
    if SentTwiceAtOnce(s, v, w) {
      assert IsHold(s, v, 0) && IsHold(s, w, 0);
    }
  }
}
