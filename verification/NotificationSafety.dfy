/**
 What the outbox protocol guarantees: unconditionally, with pairwise distinct
 stamps, and under the timing its comments assume.
 */
module NotificationSafety {
  import opened EnrollmentDomain
  import opened NotificationOutbox
  import opened NotificationLease

  // ---------------------------------------------------------------- what a worker holds

  /** A row a worker believes to hold: since which stamp, and the job's copy of the attempts. */
  datatype Hold = Hold(row: RowId, since: Time, writes: nat, attempts: int)

  function HoldsOf(q: seq<Job>): seq<Hold> {
    seq(|q|, i requires 0 <= i < |q| => Hold(q[i].row, q[i].claimed, q[i].writes, q[i].attempts))
  }

  /** The row being sent first, then those still queued. */
  function Holds(x: Worker): seq<Hold> {
    match x
    case Idle | Claiming => []
    case Delivering(queue) => HoldsOf(queue)
    case Sending(job, stamp, writes, rest) => [Hold(job.row, stamp, writes, job.attempts)] + HoldsOf(rest)
    case Recording(job, stamp, writes, _, _, rest) => [Hold(job.row, stamp, writes, job.attempts)] + HoldsOf(rest)
  }

  predicate IsHold(s: Outbox, w: WorkerId, i: int) {
    w in s.workers && 0 <= i < |Holds(s.workers[w])|
  }

  /** How one worker's holds change in a step. */
  lemma HoldsAfter(s: Outbox, a: Action, w: WorkerId)
    requires Enabled(s, a) && w in Next(s, a).workers
    ensures var h := if w in s.workers then Holds(s.workers[w]) else [];
      var h' := Holds(Next(s, a).workers[w]);
      match a
      case Claim(v, ids, stamp) =>
        if v == w then
          |h'| == |ids| && forall i :: 0 <= i < |ids| ==>
            h'[i] == Hold(ids[i], stamp, s.rows[ids[i]].writes + 1, s.rows[ids[i]].attempts)
        else h' == h
      case Restamp(v, stamp) =>
        if v == w then
          h != [] && if Restampable(s.rows, h[0].row) then
            h' == [Hold(h[0].row, stamp, s.rows[h[0].row].writes + 1, h[0].attempts)] + h[1..]
          else h' == h[1..]
        else h' == h
      case RecordOutcome(v) => if v == w then h != [] && h' == h[1..] else h' == h
      case GiveUp(v) => if v == w then h != [] && h' == h[1..] else h' == h
      case Crash(v) => if v == w then h' == [] else h' == h
      case _ => h' == h
  {
    if w in s.workers && s.workers[w].Delivering? && s.workers[w].queue != [] {
      assert HoldsOf(s.workers[w].queue[1..]) == HoldsOf(s.workers[w].queue)[1..];
    }
  }

  // ---------------------------------------------------------------- unconditional facts

  predicate RowOk(r: Row) {
    && (r.claimedAt.Some? <==> r.status == DeliverySending)
    && (r.status == DeliveryFailed ==> r.attempts == MAX_DELIVERY_ATTEMPTS)
    && (r.status != DeliveryFailed ==> 0 <= r.attempts < MAX_DELIVERY_ATTEMPTS)
    && (r.channel == ChannelInApp ==> r == NEW_IN_APP)
  }

  predicate HoldOk(rows: Rows, h: Hold) {
    h.row in rows && rows[h.row].channel == ChannelEmail && 0 <= h.attempts < MAX_DELIVERY_ATTEMPTS
  }

  ghost predicate AllHoldsOk(s: Outbox) {
    forall w, i :: w in s.workers && 0 <= i < |Holds(s.workers[w])| ==> HoldOk(s.rows, Holds(s.workers[w])[i])
  }

  ghost predicate Inv(s: Outbox) {
    (forall id :: id in s.rows ==> RowOk(s.rows[id])) && AllHoldsOk(s)
  }

  predicate Finished(r: Row) {
    r.status == DeliverySent || r.status == DeliveryFailed
  }

  /** The rows after a step: none disappears, and finished and in-app rows do not change. */
  lemma StepKeepsRows(s: Outbox, a: Action, id: RowId)
    requires Inv(s) && Enabled(s, a) && id in s.rows
    ensures id in Next(s, a).rows
    ensures Next(s, a).rows[id].channel == s.rows[id].channel
    ensures Finished(s.rows[id]) || s.rows[id].channel == ChannelInApp ==> Next(s, a).rows[id] == s.rows[id]
  {
    if a.RecordOutcome? {
      assert HoldOk(s.rows, Holds(s.workers[a.w])[0]);
    }
    if a.Restamp? {
      assert HoldOk(s.rows, Holds(s.workers[a.w])[0]);
    }
  }

  lemma StepKeepsRowOk(s: Outbox, a: Action, id: RowId)
    requires Inv(s) && Enabled(s, a) && id in Next(s, a).rows
    ensures RowOk(Next(s, a).rows[id])
  {
    if id in s.rows {
      assert RowOk(s.rows[id]);
      if a.RecordOutcome? || a.Restamp? {
        assert HoldOk(s.rows, Holds(s.workers[a.w])[0]);
      }
    }
  }

  lemma StepKeepsHolds(s: Outbox, a: Action)
    requires Inv(s) && Enabled(s, a)
    ensures AllHoldsOk(Next(s, a))
  {
    var s' := Next(s, a);
    forall w, i | w in s'.workers && 0 <= i < |Holds(s'.workers[w])| ensures HoldOk(s'.rows, Holds(s'.workers[w])[i]) {
      HoldsAfter(s, a, w);
      var h' := Holds(s'.workers[w])[i];
      if a.Claim? && a.w == w {
        assert RowOk(s.rows[a.ids[i]]);
        StepKeepsRows(s, a, h'.row);
      } else {
        var h := Holds(s.workers[w]);
        assert exists k :: 0 <= k < |h| && h[k].row == h'.row && h[k].attempts == h'.attempts by {
          assert (h[i].row == h'.row && h[i].attempts == h'.attempts)
                 || (i + 1 < |h| && h[i + 1].row == h'.row && h[i + 1].attempts == h'.attempts);
        }
        var k :| 0 <= k < |h| && h[k].row == h'.row && h[k].attempts == h'.attempts;
        assert HoldOk(s.rows, h[k]);
        StepKeepsRows(s, a, h'.row);
      }
    }
  }

  lemma StepKeepsInv(s: Outbox, a: Action)
    requires Inv(s) && Enabled(s, a)
    ensures Inv(Next(s, a))
  {
    forall id | id in Next(s, a).rows ensures RowOk(Next(s, a).rows[id]) {
      StepKeepsRowOk(s, a, id);
    }
    StepKeepsHolds(s, a);
  }

  /**
   For any number of workers, crashes and reaps: claimed_at is set exactly in
   SENDING, unfinished rows have 0 to 4 attempts, FAILED rows exactly 5, every
   job's copy of the attempts is at most 4, and in-app rows are as inserted.
   */
  lemma {:induction false} OutboxInvariant(ss: seq<Outbox>, acts: seq<Action>, i: nat)
    requires IsRun(ss, acts) && i < |ss|
    ensures Inv(ss[i])
  {
    if i > 0 {
      OutboxInvariant(ss, acts, i - 1);
      StepKeepsInv(ss[i - 1], acts[i - 1]);
    }
  }

  /** Once SENT or FAILED a row never changes again, and an in-app row never does. */
  lemma {:induction false} FinishedRowsAreFrozen(ss: seq<Outbox>, acts: seq<Action>, i: nat, j: nat, id: RowId)
    requires IsRun(ss, acts) && i <= j < |ss| && id in ss[i].rows
    requires Finished(ss[i].rows[id]) || ss[i].rows[id].channel == ChannelInApp
    ensures id in ss[j].rows && ss[j].rows[id] == ss[i].rows[id]
  {
    if i < j {
      FinishedRowsAreFrozen(ss, acts, i, j - 1, id);
      OutboxInvariant(ss, acts, j - 1);
      StepKeepsRows(ss[j - 1], acts[j - 1], id);
    }
  }

  /** A successful send of the row has been recorded. */
  ghost predicate RecordedOk(history: seq<Record>, id: RowId) {
    exists k :: 0 <= k < |history| && history[k].row == id && history[k].ok
  }

  lemma RecordedOkSnoc(history: seq<Record>, r: Record, id: RowId)
    ensures RecordedOk(history + [r], id) <==> RecordedOk(history, id) || (r.row == id && r.ok)
  {
    var h := history + [r];
    if RecordedOk(history, id) {
      var k :| 0 <= k < |history| && history[k].row == id && history[k].ok;
      assert h[k] == history[k];
    }
    if r.row == id && r.ok {
      assert h[|history|] == r;
    }
  }

  predicate IsSent(s: Outbox, id: RowId) {
    id in s.rows && s.rows[id].status == DeliverySent
  }

  lemma StepKeepsSent(s: Outbox, a: Action, id: RowId)
    requires Inv(s) && Enabled(s, a) && (IsSent(s, id) <==> RecordedOk(s.history, id))
    ensures IsSent(Next(s, a), id) <==> RecordedOk(Next(s, a).history, id)
  {
    if id in s.rows {
      StepKeepsRows(s, a, id);
    }
    match a
    case RecordOutcome(w) =>
      var x := s.workers[w];
      RecordedOkSnoc(s.history, Record(x.job.row, x.stamp, x.ok), id);
    case _ =>
      assert Next(s, a).history == s.history;
  }

  /** A row is SENT exactly when a successful send of it was recorded. */
  lemma {:induction false} SentExactlyWhenRecorded(ss: seq<Outbox>, acts: seq<Action>, i: nat, id: RowId)
    requires IsRun(ss, acts) && i < |ss|
    ensures IsSent(ss[i], id) <==> RecordedOk(ss[i].history, id)
  {
    if i > 0 {
      SentExactlyWhenRecorded(ss, acts, i - 1, id);
      OutboxInvariant(ss, acts, i - 1);
      StepKeepsSent(ss[i - 1], acts[i - 1], id);
    }
  }

  // ---------------------------------------------------------------- distinct stamps

  /** No stamp is ever written twice into the same row. */
  predicate FreshStamps(s: Outbox, a: Action)
    requires Enabled(s, a)
  {
    match a
    case Claim(_, ids, stamp) => forall i :: 0 <= i < |ids| ==> (ids[i], stamp) !in s.used
    case Restamp(w, stamp) => (s.workers[w].queue[0].row, stamp) !in s.used
    case _ => true
  }

  /** A hold still owns its row exactly if nobody has written the row since. */
  predicate HoldExact(s: Outbox, h: Hold) {
    && h.row in s.rows
    && (h.row, h.since) in s.used
    && h.writes <= s.rows[h.row].writes
    && (OwnsLease(s.rows, h.row, h.since) <==> s.rows[h.row].writes == h.writes)
  }

  ghost predicate AllExact(s: Outbox) {
    forall w, i :: w in s.workers && 0 <= i < |Holds(s.workers[w])| ==> HoldExact(s, Holds(s.workers[w])[i])
  }

  ghost predicate StampsUsed(s: Outbox) {
    forall id :: id in s.rows && s.rows[id].claimedAt.Some? ==> (id, s.rows[id].claimedAt.value) in s.used
  }

  predicate SameLease(g: Hold, h: Hold) {
    g.row == h.row && g.since == h.since
  }

  /** Two workers never hold a row under the same stamp. */
  ghost predicate HoldsDistinct(s: Outbox) {
    forall v, w, i, j :: IsHold(s, v, i) && IsHold(s, w, j) && v != w ==>
      !SameLease(Holds(s.workers[v])[i], Holds(s.workers[w])[j])
  }

  ghost predicate StampInv(s: Outbox) {
    AllExact(s) && StampsUsed(s) && HoldsDistinct(s)
  }

  /** How a step writes one row: not at all, or once, leaving no lease or a freshly stamped one. */
  lemma StepWritesRow(s: Outbox, a: Action, id: RowId)
    requires Inv(s) && Enabled(s, a) && FreshStamps(s, a) && id in s.rows
    ensures id in Next(s, a).rows
    ensures var r, r' := s.rows[id], Next(s, a).rows[id];
      r' == r
      || (r'.writes == r.writes + 1
          && (r'.claimedAt.None? || ((id, r'.claimedAt.value) !in s.used && (id, r'.claimedAt.value) in Next(s, a).used)))
    ensures s.used <= Next(s, a).used
  {
    if a.Claim? && id in a.ids {
      var i :| 0 <= i < |a.ids| && a.ids[i] == id;
      assert (a.ids[i], a.stamp) in Next(s, a).used;
    }
  }

  /** A hold that survives the step untouched stays exact. */
  lemma ExactStays(s: Outbox, a: Action, h: Hold)
    requires Inv(s) && Enabled(s, a) && FreshStamps(s, a) && HoldExact(s, h)
    ensures HoldExact(Next(s, a), h)
  {
    StepWritesRow(s, a, h.row);
  }

  /** A claimed row is held under the claim's stamp. */
  lemma ClaimedIsExact(s: Outbox, a: Action, i: nat)
    requires Inv(s) && Enabled(s, a) && FreshStamps(s, a) && a.Claim? && i < |a.ids|
    ensures HoldExact(Next(s, a), Hold(a.ids[i], a.stamp, s.rows[a.ids[i]].writes + 1, s.rows[a.ids[i]].attempts))
  {
    assert a.ids[i] in a.ids;
    assert (a.ids[i], a.stamp) in Next(s, a).used;
  }

  lemma RestampedIsExact(s: Outbox, a: Action, id: RowId, attempts: int)
    requires Enabled(s, a) && a.Restamp? && s.workers[a.w].queue[0].row == id && Restampable(s.rows, id)
    ensures HoldExact(Next(s, a), Hold(id, a.stamp, s.rows[id].writes + 1, attempts))
  {
  }

  lemma KeptIsExact(s: Outbox, a: Action, w: WorkerId, h: Hold)
    requires Inv(s) && AllExact(s) && Enabled(s, a) && FreshStamps(s, a) && w in s.workers && h in Holds(s.workers[w])
    ensures HoldExact(Next(s, a), h)
  {
    var k :| 0 <= k < |Holds(s.workers[w])| && Holds(s.workers[w])[k] == h;
    assert HoldExact(s, Holds(s.workers[w])[k]);
    ExactStays(s, a, h);
  }

  /** A hold after a step is one the worker had, or comes from its claim or its re-stamp. */
  lemma WhereHoldsComeFrom(s: Outbox, a: Action, w: WorkerId, i: nat)
    requires Enabled(s, a) && w in Next(s, a).workers && i < |Holds(Next(s, a).workers[w])|
    ensures var h' := Holds(Next(s, a).workers[w])[i];
      || (w in s.workers && h' in Holds(s.workers[w]))
      || (a.Claim? && a.w == w && i < |a.ids| && h' == Hold(a.ids[i], a.stamp, s.rows[a.ids[i]].writes + 1, s.rows[a.ids[i]].attempts))
      || (a.Restamp? && a.w == w && Restampable(s.rows, s.workers[w].queue[0].row)
          && h' == Hold(s.workers[w].queue[0].row, a.stamp, s.rows[s.workers[w].queue[0].row].writes + 1, h'.attempts))
  {
    HoldsAfter(s, a, w);
    if !(a.Claim? && a.w == w) && w in s.workers {
      var h, h' := Holds(s.workers[w]), Holds(Next(s, a).workers[w]);
      assert (a.Restamp? && a.w == w && i == 0 && Restampable(s.rows, h[0].row)) || h'[i] == h[i] || (i + 1 < |h| && h'[i] == h[i + 1]);
    }
  }

  lemma StepKeepsExact(s: Outbox, a: Action)
    requires Inv(s) && StampInv(s) && Enabled(s, a) && FreshStamps(s, a)
    ensures AllExact(Next(s, a))
  {
    var s' := Next(s, a);
    forall w, i | w in s'.workers && 0 <= i < |Holds(s'.workers[w])| ensures HoldExact(s', Holds(s'.workers[w])[i]) {
      WhereHoldsComeFrom(s, a, w, i);
      var h' := Holds(s'.workers[w])[i];
      if w in s.workers && h' in Holds(s.workers[w]) {
        KeptIsExact(s, a, w, h');
      } else if a.Claim? {
        ClaimedIsExact(s, a, i);
      } else {
        RestampedIsExact(s, a, s.workers[w].queue[0].row, h'.attempts);
      }
    }
  }

  /** The holds of a worker after a step are old ones and, at most, freshly stamped ones. */
  lemma OldOrFresh(s: Outbox, a: Action, w: WorkerId, i: nat)
    requires Enabled(s, a) && FreshStamps(s, a) && w in Next(s, a).workers && i < |Holds(Next(s, a).workers[w])|
    ensures var h' := Holds(Next(s, a).workers[w])[i];
      || (w in s.workers && h' in Holds(s.workers[w]))
      || ((a.Claim? || a.Restamp?) && a.w == w && (h'.row, h'.since) !in s.used)
  {
    WhereHoldsComeFrom(s, a, w, i);
  }

  lemma StepKeepsDistinct(s: Outbox, a: Action)
    requires Inv(s) && StampInv(s) && Enabled(s, a) && FreshStamps(s, a)
    ensures HoldsDistinct(Next(s, a))
  {
    var s' := Next(s, a);
    forall v, w, i, j | IsHold(s', v, i) && IsHold(s', w, j) && v != w
      ensures !SameLease(Holds(s'.workers[v])[i], Holds(s'.workers[w])[j])
    {
      OldOrFresh(s, a, v, i);
      OldOrFresh(s, a, w, j);
      var g, h := Holds(s'.workers[v])[i], Holds(s'.workers[w])[j];
      if v in s.workers && g in Holds(s.workers[v]) {
        var m :| 0 <= m < |Holds(s.workers[v])| && Holds(s.workers[v])[m] == g;
        assert HoldExact(s, Holds(s.workers[v])[m]);
      }
      if w in s.workers && h in Holds(s.workers[w]) {
        var n :| 0 <= n < |Holds(s.workers[w])| && Holds(s.workers[w])[n] == h;
        assert HoldExact(s, Holds(s.workers[w])[n]);
      }
    }
  }

  ghost predicate DistinctRun(ss: seq<Outbox>, acts: seq<Action>) {
    IsRun(ss, acts) && forall i :: 0 <= i < |acts| ==> FreshStamps(ss[i], acts[i])
  }

  lemma {:induction false} StampInvariant(ss: seq<Outbox>, acts: seq<Action>, i: nat)
    requires DistinctRun(ss, acts) && i < |ss|
    ensures StampInv(ss[i])
  {
    if i > 0 {
      StampInvariant(ss, acts, i - 1);
      OutboxInvariant(ss, acts, i - 1);
      var s, a := ss[i - 1], acts[i - 1];
      StepKeepsExact(s, a);
      StepKeepsDistinct(s, a);
      forall id | id in ss[i].rows && ss[i].rows[id].claimedAt.Some?
        ensures (id, ss[i].rows[id].claimedAt.value) in ss[i].used
      {
        if id in s.rows {
          StepWritesRow(s, a, id);
        }
      }
    }
  }

  /**
   With distinct stamps and no assumption on timing, recording an outcome takes
   effect exactly when nobody has reaped, re-claimed or re-stamped the row
   since the recording worker's own re-stamp.
   */
  lemma OutcomeCountsExactlyWhenUntouched(ss: seq<Outbox>, acts: seq<Action>, i: nat)
    requires DistinctRun(ss, acts) && i < |acts| && acts[i].RecordOutcome?
    ensures var x := ss[i].workers[acts[i].w];
      && x.job.row in ss[i].rows
      && (ss[i + 1].rows != ss[i].rows <==> ss[i].rows[x.job.row].writes == x.writes)
      && (|ss[i + 1].history| == |ss[i].history| + 1 <==> ss[i].rows[x.job.row].writes == x.writes)
  {
    StampInvariant(ss, acts, i);
    var s, x := ss[i], ss[i].workers[acts[i].w];
    assert HoldExact(s, Holds(x)[0]);
    if OwnsLease(s.rows, x.job.row, x.stamp) {
      assert ss[i + 1].rows[x.job.row].writes == s.rows[x.job.row].writes + 1;
    }
  }

  /** With distinct stamps at most one worker owns a row at a time: only its outcome can be recorded. */
  lemma OneOwner(ss: seq<Outbox>, acts: seq<Action>, i: nat, v: WorkerId, w: WorkerId, m: nat, n: nat)
    requires DistinctRun(ss, acts) && i < |ss| && v in ss[i].workers && w in ss[i].workers && v != w
    requires m < |Holds(ss[i].workers[v])| && n < |Holds(ss[i].workers[w])|
    requires Holds(ss[i].workers[v])[m].row == Holds(ss[i].workers[w])[n].row
    ensures !(OwnsLease(ss[i].rows, Holds(ss[i].workers[v])[m].row, Holds(ss[i].workers[v])[m].since)
              && OwnsLease(ss[i].rows, Holds(ss[i].workers[w])[n].row, Holds(ss[i].workers[w])[n].since))
  {
    StampInvariant(ss, acts, i);
    assert IsHold(ss[i], v, m) && IsHold(ss[i], w, n);
    assert !SameLease(Holds(ss[i].workers[v])[m], Holds(ss[i].workers[w])[n]);
  }

  /**
   A re-stamp takes over somebody else's lease exactly when the row was written
   since the worker's own claim, and that is exactly when claimed_at is no
   longer the claim's stamp: the comparison the re-stamp does not make.
   */
  lemma RestampTakesOverExactlyWhen(ss: seq<Outbox>, acts: seq<Action>, i: nat)
    requires DistinctRun(ss, acts) && i < |acts| && acts[i].Restamp?
    requires Restampable(ss[i].rows, ss[i].workers[acts[i].w].queue[0].row)
    ensures var job := ss[i].workers[acts[i].w].queue[0];
      && (ss[i].rows[job.row].claimedAt != Some(job.claimed) <==> ss[i].rows[job.row].writes > job.writes)
      && OwnsLease(ss[i + 1].rows, job.row, acts[i].stamp)
  {
    StampInvariant(ss, acts, i);
    assert HoldExact(ss[i], Holds(ss[i].workers[acts[i].w])[0]);
  }

  // ---------------------------------------------------------------- recorded outcomes

  /** A recorded stamp is spent, and nothing is recorded for a row after it was sent. */
  ghost predicate HistoryInv(s: Outbox) {
    && (forall k :: 0 <= k < |s.history| ==>
          && s.history[k].row in s.rows
          && (s.history[k].row, s.history[k].stamp) in s.used
          && s.rows[s.history[k].row].claimedAt != Some(s.history[k].stamp)
          && (s.history[k].ok ==> s.rows[s.history[k].row].status == DeliverySent))
    && (forall j, k :: 0 <= j < k < |s.history| && s.history[j].row == s.history[k].row ==>
          s.history[j].stamp != s.history[k].stamp && !s.history[j].ok)
  }

  lemma StepKeepsHistory(s: Outbox, a: Action)
    requires Inv(s) && StampInv(s) && HistoryInv(s) && Enabled(s, a) && FreshStamps(s, a)
    ensures HistoryInv(Next(s, a))
  {
    var s' := Next(s, a);
    forall k | 0 <= k < |s.history|
      ensures s.history[k].row in s'.rows && (s.history[k].row, s.history[k].stamp) in s'.used
      ensures s'.rows[s.history[k].row].claimedAt != Some(s.history[k].stamp)
      ensures s.history[k].ok ==> s'.rows[s.history[k].row].status == DeliverySent
    {
      StepWritesRow(s, a, s.history[k].row);
      StepKeepsRows(s, a, s.history[k].row);
    }
    if a.RecordOutcome? {
      assert HoldExact(s, Holds(s.workers[a.w])[0]);
    }
  }

  /** Each re-stamp records at most one outcome, and each row becomes SENT at most once, finally. */
  lemma {:induction false} OutcomesAreRecordedOnce(ss: seq<Outbox>, acts: seq<Action>, i: nat)
    requires DistinctRun(ss, acts) && i < |ss|
    ensures HistoryInv(ss[i])
  {
    if i > 0 {
      OutcomesAreRecordedOnce(ss, acts, i - 1);
      OutboxInvariant(ss, acts, i - 1);
      StampInvariant(ss, acts, i - 1);
      StepKeepsHistory(ss[i - 1], acts[i - 1]);
    }
  }
}
