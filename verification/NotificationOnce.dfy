/**
 How often the mail server takes a message: at most once as long as no held row
 is reaped and no outcome of a successful send is lost, and exactly when it can
 take a message (again).
 */
module NotificationOnce {
  import opened Bounds
  import opened EnrollmentDomain
  import EnrollmentStore
  import opened NotificationOutbox
  import opened NotificationLease
  import opened NotificationSafety
  import opened NotificationTiming

  // ---------------------------------------------------------------- what the mail server has taken

  /** The step hands the message to the mail server, which takes it. */
  predicate Takes(s: Outbox, a: Action, id: RowId) {
    a.Send? && a.ok && a.w in s.workers && s.workers[a.w].Sending? && s.workers[a.w].job.row == id
  }

  /** How many of the first n steps did. */
  function Taken(ss: seq<Outbox>, acts: seq<Action>, n: nat, id: RowId): nat
    requires n <= |acts| && n <= |ss|
  {
    if n == 0 then 0 else Taken(ss, acts, n - 1, id) + if Takes(ss[n - 1], acts[n - 1], id) then 1 else 0
  }

  /** The worker knows that the message was taken and is about to record it. */
  predicate KnowsTaken(x: Worker, id: RowId) {
    x.Recording? && x.ok && x.job.row == id
  }

  ghost predicate SomeoneKnows(s: Outbox, id: RowId) {
    exists w :: w in s.workers && KnowsTaken(s.workers[w], id)
  }

  /** The message was taken at most once, and if it was, the table or a live worker knows. */
  ghost predicate Once(s: Outbox, taken: nat, id: RowId) {
    taken <= 1 && (taken == 1 <==> IsSent(s, id) || SomeoneKnows(s, id))
  }

  /** The worker about to record a taken message crashes or fails to write it. */
  predicate LosesTaken(s: Outbox, a: Action, id: RowId) {
    (a.Crash? || a.GiveUp?) && a.w in s.workers && KnowsTaken(s.workers[a.w], id)
  }

  // ---------------------------------------------------------------- one step

  /** A row that is being sent, or whose outcome is being recorded, is not SENT yet, and nobody else knows of it. */
  lemma HolderIsAlone(s: Outbox, w: WorkerId, id: RowId)
    requires LeaseInv(s) && w in s.workers && (s.workers[w].Sending? || s.workers[w].Recording?) && s.workers[w].job.row == id
    ensures !IsSent(s, id) && OwnsLease(s.rows, id, s.workers[w].stamp)
    ensures forall v :: v in s.workers && v != w ==> !KnowsTaken(s.workers[v], id)
  {
    assert IsHold(s, w, 0) && Owned(s.rows, Holds(s.workers[w])[0]);
    forall v | v in s.workers && v != w ensures !KnowsTaken(s.workers[v], id) {
      if KnowsTaken(s.workers[v], id) {
        assert IsHold(s, v, 0);
      }
    }
  }

  /** Knowledge of a message changes only at the worker that acts. */
  lemma KnowledgeStays(s: Outbox, a: Action, id: RowId)
    requires Enabled(s, a)
    requires a.Send? ==> !(a.ok && s.workers[a.w].job.row == id)
    requires (a.RecordOutcome? || a.GiveUp? || a.Crash?) ==> !KnowsTaken(s.workers[a.w], id)
    ensures SomeoneKnows(Next(s, a), id) <==> SomeoneKnows(s, id)
  {
    if v :| v in s.workers && KnowsTaken(s.workers[v], id) {
      assert v in Next(s, a).workers && KnowsTaken(Next(s, a).workers[v], id);
    }
    if v :| v in Next(s, a).workers && KnowsTaken(Next(s, a).workers[v], id) {
      assert v in s.workers && KnowsTaken(s.workers[v], id);
    }
  }

  /** Only a recorded success makes a row SENT, and SENT rows stay so. */
  lemma SentStays(s: Outbox, a: Action, id: RowId)
    requires Inv(s) && Enabled(s, a)
    requires a.RecordOutcome? ==> s.workers[a.w].job.row != id
    ensures IsSent(Next(s, a), id) <==> IsSent(s, id)
  {
    if id in s.rows {
      StepKeepsRows(s, a, id);
    }
  }

  /** After a worker lost or wrote down what it knew, nobody knows. */
  lemma NobodyElseKnows(s: Outbox, a: Action, id: RowId)
    requires Enabled(s, a) && (a.Send? || a.RecordOutcome? || a.GiveUp? || a.Crash?)
    requires forall v :: v in s.workers && v != a.w ==> !KnowsTaken(s.workers[v], id)
    requires !KnowsTaken(Next(s, a).workers[a.w], id)
    ensures !SomeoneKnows(Next(s, a), id)
  {
    forall v | v in Next(s, a).workers ensures !KnowsTaken(Next(s, a).workers[v], id) {
      assert v != a.w ==> v in s.workers && Next(s, a).workers[v] == s.workers[v];
    }
  }

  function TakenAfter(s: Outbox, a: Action, taken: nat, id: RowId): nat {
    taken + if Takes(s, a, id) then 1 else 0
  }

  lemma SendKeepsOnce(s: Outbox, a: Action, taken: nat, id: RowId)
    requires Inv(s) && LeaseInv(s) && Enabled(s, a) && a.Send? && s.workers[a.w].job.row == id && Once(s, taken, id)
    ensures Once(Next(s, a), TakenAfter(s, a, taken, id), id)
  {
    HolderIsAlone(s, a.w, id);
    SentStays(s, a, id);
    if a.ok {
      assert KnowsTaken(Next(s, a).workers[a.w], id);
    } else {
      NobodyElseKnows(s, a, id);
    }
  }

  lemma RecordKeepsOnce(s: Outbox, a: Action, taken: nat, id: RowId)
    requires Inv(s) && LeaseInv(s) && Enabled(s, a) && a.RecordOutcome? && s.workers[a.w].job.row == id && Once(s, taken, id)
    ensures Once(Next(s, a), taken, id)
  {
    HolderIsAlone(s, a.w, id);
    NobodyElseKnows(s, a, id);
    if s.workers[a.w].ok {
      assert KnowsTaken(s.workers[a.w], id);
    }
  }

  lemma LosingBreaksOnce(s: Outbox, a: Action, taken: nat, id: RowId)
    requires Inv(s) && LeaseInv(s) && Enabled(s, a) && LosesTaken(s, a, id) && Once(s, taken, id)
    ensures !Once(Next(s, a), taken, id)
  {
    HolderIsAlone(s, a.w, id);
    NobodyElseKnows(s, a, id);
    SentStays(s, a, id);
    assert SomeoneKnows(s, id);
  }

  /** A step keeps a message taken at most once, and known if taken, exactly if it does not lose a taken one. */
  lemma StepKeepsOnceExactlyWhen(s: Outbox, a: Action, taken: nat, id: RowId)
    requires Inv(s) && LeaseInv(s) && Enabled(s, a) && Once(s, taken, id)
    ensures Once(Next(s, a), TakenAfter(s, a, taken, id), id) <==> !LosesTaken(s, a, id)
  {
    if LosesTaken(s, a, id) {
      LosingBreaksOnce(s, a, taken, id);
    } else if a.Send? && s.workers[a.w].job.row == id {
      SendKeepsOnce(s, a, taken, id);
    } else if a.RecordOutcome? && s.workers[a.w].job.row == id {
      RecordKeepsOnce(s, a, taken, id);
    } else {
      KnowledgeStays(s, a, id);
      SentStays(s, a, id);
    }
  }

  // ---------------------------------------------------------------- over runs

  /** In every state up to the n-th the message was taken at most once, and is known if it was. */
  ghost predicate OnceUpTo(ss: seq<Outbox>, acts: seq<Action>, n: nat, id: RowId)
    requires n <= |acts| && n < |ss|
  {
    Once(ss[n], Taken(ss, acts, n, id), id) && (n > 0 ==> OnceUpTo(ss, acts, n - 1, id))
  }

  /** None of the first n actions loses the message after it was taken. */
  ghost predicate NothingLost(ss: seq<Outbox>, acts: seq<Action>, n: nat, id: RowId)
    requires n <= |acts| && n <= |ss|
  {
    n > 0 ==> !LosesTaken(ss[n - 1], acts[n - 1], id) && NothingLost(ss, acts, n - 1, id)
  }

  /**
   In every run, with no assumption on stamps or timing: at every moment up to
   the n-th each row has one live holder, which owns its lease, and the message
   was taken at most once and is SENT or about to be recorded as soon as it
   was, if and only if up to then no reap released a row held for longer than
   the threshold and no worker crashed, or failed to write, between the
   successful send of this message and its record.
   */
  lemma {:induction false} TakenOnceExactlyWhen(ss: seq<Outbox>, acts: seq<Action>, n: nat, id: RowId)
    requires IsRun(ss, acts) && n <= |acts|
    ensures LeasesHold(ss, n) && OnceUpTo(ss, acts, n, id) <==> NoHeldReaped(ss, acts, n) && NothingLost(ss, acts, n, id)
  {
    LeasesHoldExactlyWhen(ss, acts, n);
    if n > 0 {
      TakenOnceExactlyWhen(ss, acts, n - 1, id);
      if LeasesHold(ss, n) && OnceUpTo(ss, acts, n - 1, id) {
        OutboxInvariant(ss, acts, n - 1);
        StepKeepsOnceExactlyWhen(ss[n - 1], acts[n - 1], Taken(ss, acts, n - 1, id), id);
      }
    }
  }

  /** Then the mail server takes no message twice, and no two workers send one at once. */
  lemma NoMessageIsTakenTwice(ss: seq<Outbox>, acts: seq<Action>, n: nat, id: RowId, v: WorkerId, w: WorkerId)
    requires IsRun(ss, acts) && n <= |acts| && NoHeldReaped(ss, acts, n)
    ensures NothingLost(ss, acts, n, id) ==> Taken(ss, acts, n, id) <= 1
    ensures !SentTwiceAtOnce(ss[n], v, w)
  {
    TakenOnceExactlyWhen(ss, acts, n, id);
    LeasesHoldExactlyWhen(ss, acts, n);
    ExclusiveSends(ss[n], v, w);
  }

  // ---------------------------------------------------------------- what may still be taken

  /** In some continuation the mail server takes the message. */
  ghost predicate CanBeTaken(s: Outbox, id: RowId) {
    exists s', a :: Reached(s, s') && Enabled(s', a) && Takes(s', a, id)
  }

  ghost predicate SomeoneSends(s: Outbox, id: RowId) {
    exists w :: w in s.workers && s.workers[w].Sending? && s.workers[w].job.row == id
  }

  /** The row is a message that is neither SENT nor FAILED. */
  predicate Unfinished(s: Outbox, id: RowId) {
    id in s.rows && s.rows[id].channel == ChannelEmail && !Finished(s.rows[id])
  }

  lemma StepStartsNoSend(s: Outbox, a: Action, id: RowId)
    requires Inv(s) && Enabled(s, a) && id in s.rows && !Unfinished(s, id) && !SomeoneSends(s, id)
    ensures Inv(Next(s, a)) && id in Next(s, a).rows && !Unfinished(Next(s, a), id) && !SomeoneSends(Next(s, a), id)
  {
    StepKeepsInv(s, a);
    StepKeepsRows(s, a, id);
    assert RowOk(s.rows[id]);
    if w :| w in Next(s, a).workers && Next(s, a).workers[w].Sending? && Next(s, a).workers[w].job.row == id {
      assert w in s.workers && s.workers[w].Sending? && s.workers[w].job.row == id;
    }
  }

  lemma {:induction false} RunStartsNoSend(s: Outbox, acts: seq<Action>, id: RowId)
    requires Inv(s) && id in s.rows && !Unfinished(s, id) && !SomeoneSends(s, id) && Play(s, acts).Some?
    ensures !SomeoneSends(Play(s, acts).value, id)
    decreases |acts|
  {
    if acts != [] {
      StepStartsNoSend(s, acts[0], id);
      RunStartsNoSend(Next(s, acts[0]), acts[1..], id);
    }
  }

  /** A new worker waits until the row can be reaped and retried, and reaps. */
  lemma BecomesClaimable(s: Outbox, id: RowId) returns (w: WorkerId, s': Outbox)
    requires Inv(s) && Unfinished(s, id)
    ensures Reached(s, s') && w in s'.workers && s'.workers[w] == Claiming
    ensures id in s'.rows && Claimable(s'.rows[id], s'.clock)
  {
    w := EnrollmentStore.Unused(s.workers.Keys);
    var started := Next(s, Start(w));
    StepReaches(s, Start(w));
    var r := s.rows[id];
    assert RowOk(r);
    var late := Max(s.clock, Max(if r.claimedAt.Some? then r.claimedAt.value + LEASE_THRESHOLD + 1 else s.clock,
                                 if r.nextAttempt.Some? then r.nextAttempt.value else s.clock));
    s' := ReapReaches(started, w, late);
    ReachedFurther(s, started, s');
  }

  /** Then it claims the row and re-stamps it. */
  lemma BecomesSent(s: Outbox, w: WorkerId, id: RowId) returns (s': Outbox)
    requires w in s.workers && s.workers[w] == Claiming && id in s.rows && Claimable(s.rows[id], s.clock)
    ensures Reached(s, s') && w in s'.workers && s'.workers[w].Sending? && s'.workers[w].job.row == id
  {
    var claim: Action := Claim(w, [id], s.clock);
    var claimed := Next(s, claim);
    StepReaches(s, claim);
    assert id in [id] && Restampable(claimed.rows, id);
    s' := Next(claimed, Restamp(w, s.clock));
    StepReaches(claimed, Restamp(w, s.clock));
    ReachedFurther(s, claimed, s');
  }

  /** A stored message can still be taken if and only if it is neither SENT nor FAILED, or somebody is sending it. */
  lemma CanBeTakenExactlyWhen(s: Outbox, id: RowId)
    requires Inv(s) && id in s.rows
    ensures CanBeTaken(s, id) <==> Unfinished(s, id) || SomeoneSends(s, id)
  {
    if w :| w in s.workers && s.workers[w].Sending? && s.workers[w].job.row == id {
      ReachedSelf(s);
      assert Takes(s, Send(w, true, s.clock), id);
    } else if Unfinished(s, id) {
      var w, s' := BecomesClaimable(s, id);
      var s'' := BecomesSent(s', w, id);
      ReachedFurther(s, s', s'');
      assert Takes(s'', Send(w, true, s''.clock), id);
    } else if CanBeTaken(s, id) {
      var s', a :| Reached(s, s') && Enabled(s', a) && Takes(s', a, id);
      var acts :| Play(s, acts) == Some(s');
      RunStartsNoSend(s, acts, id);
    }
  }

  /** As long as the leases hold, a message the mail server has taken may be taken again until it is SENT, and no longer. */
  lemma TakenAgainExactlyUntilSent(s: Outbox, id: RowId)
    requires Inv(s) && LeaseInv(s) && Once(s, 1, id)
    ensures CanBeTaken(s, id) <==> !IsSent(s, id)
  {
    if v :| v in s.workers && KnowsTaken(s.workers[v], id) {
      HolderIsAlone(s, v, id);
      assert IsHold(s, v, 0) && HoldOk(s.rows, Holds(s.workers[v])[0]);
    }
    if w :| w in s.workers && s.workers[w].Sending? && s.workers[w].job.row == id {
      HolderIsAlone(s, w, id);
    }
    CanBeTakenExactlyWhen(s, id);
  }

  /** A taken message that was lost can be taken again. */
  lemma LostMessageCanBeTakenAgain(s: Outbox, a: Action, id: RowId)
    requires Inv(s) && LeaseInv(s) && Enabled(s, a) && LosesTaken(s, a, id)
    ensures CanBeTaken(Next(s, a), id)
  {
    HolderIsAlone(s, a.w, id);
    assert HoldOk(s.rows, Holds(s.workers[a.w])[0]);
    StepKeepsInv(s, a);
    CanBeTakenExactlyWhen(Next(s, a), id);
  }
}
