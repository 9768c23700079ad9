/** Runs of the outbox that send a message twice. */
module NotificationWitnesses {
  import opened EnrollmentDomain
  import opened NotificationOutbox
  import opened NotificationLease
  import opened NotificationSafety
  import opened NotificationTiming
  import opened NotificationOnce

  // ---------------------------------------------------------------- orderly runs

  const LATE := LEASE_THRESHOLD + 1
  const LEASED := NEW_EMAIL.(status := DeliverySending)

  /** The message of every run below. */
  const MESSAGE: RowId := 1

  /** The worker re-stamps the stamp of its own claim. */
  predicate RestampsOwnClaim(s: Outbox, a: Action)
    requires Enabled(s, a) && a.Restamp?
  {
    var job := s.workers[a.w].queue[0];
    job.row in s.rows && s.rows[job.row].claimedAt == Some(job.claimed)
  }

  /** Every re-stamp finds the stamp of the worker's own claim, and nobody crashes or fails to write. */
  ghost predicate Orderly(ss: seq<Outbox>, acts: seq<Action>)
    requires IsRun(ss, acts)
  {
    forall i :: 0 <= i < |acts| ==>
      !acts[i].Crash? && !acts[i].GiveUp? && (acts[i].Restamp? ==> RestampsOwnClaim(ss[i], acts[i]))
  }

  /** In no state is the message being sent by two workers at once. */
  ghost predicate NeverAtOnce(ss: seq<Outbox>) {
    forall i :: 0 <= i < |ss| ==> OneSender(ss[i])
  }

  ghost predicate OneSender(s: Outbox) {
    forall v, w :: !SentTwiceAtOnce(s, v, w)
  }

  /** An orderly run without overlapping sends that ends in `s` and in which the message was taken `taken` times. */
  ghost predicate LeadsTo(ss: seq<Outbox>, acts: seq<Action>, s: Outbox, taken: nat) {
    && DistinctRun(ss, acts) && Orderly(ss, acts) && NeverAtOnce(ss)
    && ss[|acts|] == s && Taken(ss, acts, |acts|, MESSAGE) == taken
  }

  lemma {:induction false} TakenInPrefix(ss: seq<Outbox>, acts: seq<Action>, ss': seq<Outbox>, acts': seq<Action>, n: nat)
    requires ss <= ss' && acts <= acts' && n <= |acts| && n <= |ss|
    ensures Taken(ss', acts', n, MESSAGE) == Taken(ss, acts, n, MESSAGE)
  {
    if n > 0 {
      TakenInPrefix(ss, acts, ss', acts', n - 1);
    }
  }

  /** One more step of a run with distinct stamps. */
  lemma Extend(ss: seq<Outbox>, acts: seq<Action>, a: Action) returns (ss': seq<Outbox>, acts': seq<Action>)
    requires DistinctRun(ss, acts) && Enabled(ss[|acts|], a) && FreshStamps(ss[|acts|], a)
    ensures DistinctRun(ss', acts') && ss'[|acts'|] == Next(ss[|acts|], a)
    ensures ss' == ss + [Next(ss[|acts|], a)] && acts' == acts + [a]
  {
    ss', acts' := ss + [Next(ss[|acts|], a)], acts + [a];
  }

  /** The step keeps the run orderly. */
  predicate InOrder(s: Outbox, a: Action)
    requires Enabled(s, a)
  {
    FreshStamps(s, a) && !a.Crash? && !a.GiveUp? && (a.Restamp? ==> RestampsOwnClaim(s, a))
  }

  lemma ExtendOrderly(ss: seq<Outbox>, acts: seq<Action>, a: Action) returns (ss': seq<Outbox>, acts': seq<Action>)
    requires DistinctRun(ss, acts) && Orderly(ss, acts) && Enabled(ss[|acts|], a) && InOrder(ss[|acts|], a)
    ensures DistinctRun(ss', acts') && Orderly(ss', acts')
    ensures ss' == ss + [Next(ss[|acts|], a)] && acts' == acts + [a]
  {
    ss', acts' := Extend(ss, acts, a);
    forall i | 0 <= i < |acts'|
      ensures !acts'[i].Crash? && !acts'[i].GiveUp? && (acts'[i].Restamp? ==> RestampsOwnClaim(ss'[i], acts'[i]))
    {
      assert i < |acts| ==> ss'[i] == ss[i] && acts'[i] == acts[i];
    }
  }

  lemma Step(ss: seq<Outbox>, acts: seq<Action>, s: Outbox, taken: nat, a: Action)
    returns (ss': seq<Outbox>, acts': seq<Action>)
    requires LeadsTo(ss, acts, s, taken) && Enabled(s, a) && InOrder(s, a) && OneSender(Next(s, a))
    ensures LeadsTo(ss', acts', Next(s, a), taken + if Takes(s, a, MESSAGE) then 1 else 0)
  {
    ss', acts' := ExtendOrderly(ss, acts, a);
    TakenInPrefix(ss, acts, ss', acts', |acts|);
  }

  // ---------------------------------------------------------------- two workers and a message

  /** Rows 0 and 1 as one submission queues them, row 1 as given. */
  function World(message: Row, first: Worker, second: Worker, clock: Time, used: set<(RowId, Time)>): Outbox {
    Outbox(map[0 := NEW_IN_APP, MESSAGE := message], map[1 := first, 2 := second], clock, used, [])
  }

  function Claimed(stamp: Time, writes: nat): Row {
    LEASED.(claimedAt := Some(stamp), writes := writes)
  }

  lemma TwoWorkers() returns (ss: seq<Outbox>, acts: seq<Action>)
    ensures LeadsTo(ss, acts, World(NEW_EMAIL, Idle, Idle, 0, {}), 0)
  {
    var s0 := Outbox(map[], map[], 0, {}, []);
    ss, acts := [s0], [];
    ss, acts := Step(ss, acts, s0, 0, Enqueue(0, MESSAGE));
    var s1 := Next(s0, Enqueue(0, MESSAGE));
    ss, acts := Step(ss, acts, s1, 0, Start(1));
    var s2 := Next(s1, Start(1));
    ss, acts := Step(ss, acts, s2, 0, Start(2));
    assert Next(s2, Start(2)) == World(NEW_EMAIL, Idle, Idle, 0, {});
  }

  /** A worker claims the message. */
  lemma ClaimsMessage(s: Outbox, w: WorkerId, stamp: Time)
    requires w in s.workers && s.workers[w].Claiming? && stamp <= s.clock
    requires MESSAGE in s.rows && Claimable(s.rows[MESSAGE], stamp)
    ensures var a: Action := Claim(w, [MESSAGE], stamp);
      Enabled(s, a) && Next(s, a) == s.(
        rows := s.rows[MESSAGE := Leased(s.rows[MESSAGE], stamp)],
        workers := s.workers[w := Delivering([Job(MESSAGE, s.rows[MESSAGE].attempts, stamp, s.rows[MESSAGE].writes + 1)])],
        used := s.used + {(MESSAGE, stamp)})
  {
    var ids: seq<RowId> := [MESSAGE];
    var a: Action := Claim(w, ids, stamp);
    assert forall id :: id in ids <==> id == MESSAGE;
    assert (ids[0], stamp) in Next(s, a).used;
    assert Next(s, a).used == s.used + {(MESSAGE, stamp)};
    assert JobsFor(s.rows, ids, stamp) == [Job(MESSAGE, s.rows[MESSAGE].attempts, stamp, s.rows[MESSAGE].writes + 1)];
    assert ClaimRows(s.rows, ids, stamp) == s.rows[MESSAGE := Leased(s.rows[MESSAGE], stamp)];
  }

  /** A reap touches the message only if its lease is over. */
  lemma ReapsMessage(message: Row, now: Time)
    ensures ReapRows(map[0 := NEW_IN_APP, MESSAGE := message], now)
         == map[0 := NEW_IN_APP, MESSAGE := if Stuck(message, now) then Released(message) else message]
  {
  }

  lemma FirstReap() returns (ss: seq<Outbox>, acts: seq<Action>)
    ensures LeadsTo(ss, acts, World(NEW_EMAIL, Claiming, Idle, 0, {}), 0)
  {
    ss, acts := TwoWorkers();
    ReapsMessage(NEW_EMAIL, 0);
    var s := World(NEW_EMAIL, Idle, Idle, 0, {});
    assert Next(s, Reap(1, 0)) == World(NEW_EMAIL, Claiming, Idle, 0, {});
    ss, acts := Step(ss, acts, s, 0, Reap(1, 0));
  }

  /** Worker 1 claims it. */
  lemma FirstClaim() returns (ss: seq<Outbox>, acts: seq<Action>)
    ensures LeadsTo(ss, acts, Stalled(0), 0)
  {
    ss, acts := FirstReap();
    var reaped := World(NEW_EMAIL, Claiming, Idle, 0, {});
    ClaimsMessage(reaped, 1, 0);
    ss, acts := Step(ss, acts, reaped, 0, Claim(1, [MESSAGE], 0));
  }

  /** Worker 1 has claimed the message at 0 and does nothing. */
  function Stalled(clock: Time): Outbox {
    World(Claimed(0, 1), Delivering([Job(MESSAGE, 0, 0, 1)]), Idle, clock, {(MESSAGE, 0)})
  }

  /** Worker 1 re-stamps its claim, starts to send, and is still sending after the threshold. */
  lemma SlowSend() returns (ss: seq<Outbox>, acts: seq<Action>)
    ensures LeadsTo(ss, acts, World(Claimed(1, 2), Sending(Job(MESSAGE, 0, 0, 1), 1, 2, []), Idle, LATE + 1,
                                    {(MESSAGE, 0), (MESSAGE, 1)}), 0)
  {
    ss, acts := FirstClaim();
    ss, acts := Step(ss, acts, Stalled(0), 0, Tick(1));
    var s1 := Stalled(1);
    assert [Job(MESSAGE, 0, 0, 1)][1..] == [];
    ss, acts := Step(ss, acts, s1, 0, Restamp(1, 1));
    var s2 := Next(s1, Restamp(1, 1));
    assert s2 == World(Claimed(1, 2), Sending(Job(MESSAGE, 0, 0, 1), 1, 2, []), Idle, 1, {(MESSAGE, 0), (MESSAGE, 1)});
    ss, acts := Step(ss, acts, s2, 0, Tick(LEASE_THRESHOLD + 1));
  }

  /** Worker 2 reaps the row after the threshold, whatever worker 1 is doing. */
  lemma Reaped(ss: seq<Outbox>, acts: seq<Action>, message: Row, x: Worker, clock: Time, used: set<(RowId, Time)>, taken: nat)
    returns (ss': seq<Outbox>, acts': seq<Action>)
    requires LeadsTo(ss, acts, World(message, x, Idle, clock, used), taken) && Stuck(message, clock)
    ensures LeadsTo(ss', acts', World(Released(message), x, Claiming, clock, used), taken)
  {
    ReapsMessage(message, clock);
    var s, s' := World(message, x, Idle, clock, used), World(Released(message), x, Claiming, clock, used);
    assert Next(s, Reap(2, clock)) == s';
    ss', acts' := Step(ss, acts, s, taken, Reap(2, clock));
  }

  /** And claims it. */
  lemma Reclaimed(ss: seq<Outbox>, acts: seq<Action>, message: Row, x: Worker, clock: Time, used: set<(RowId, Time)>, taken: nat)
    returns (ss': seq<Outbox>, acts': seq<Action>)
    requires LeadsTo(ss, acts, World(message, x, Idle, clock, used), taken)
    requires Stuck(message, clock) && message.nextAttempt.None? && (MESSAGE, clock) !in used
    ensures LeadsTo(ss', acts', Retaken(message, x, clock, used), taken)
  {
    ss', acts' := Reaped(ss, acts, message, x, clock, used, taken);
    var s := World(Released(message), x, Claiming, clock, used);
    ClaimsMessage(s, 2, clock);
    assert Next(s, Claim(2, [MESSAGE], clock)) == Retaken(message, x, clock, used);
    ss', acts' := Step(ss', acts', s, taken, Claim(2, [MESSAGE], clock));
  }

  function Retaken(message: Row, x: Worker, clock: Time, used: set<(RowId, Time)>): Outbox {
    World(Leased(Released(message), clock), x, Delivering([Job(MESSAGE, message.attempts, clock, message.writes + 2)]), clock,
          used + {(MESSAGE, clock)})
  }

  // ---------------------------------------------------------------- two sends at once

  /**
   Without the timing a message is sent twice at once, even with distinct
   stamps and a lease taken a moment ago: worker 1 stalls, worker 2 reaps,
   claims and starts sending, and then worker 1 wakes up, re-stamps the row,
   which is SENDING again, and sends too. The re-stamp never compares claimed_at.
   */
  lemma DoubleSendIsPossible()
    ensures exists ss, acts :: DistinctRun(ss, acts) && SentTwiceAtOnce(ss[|acts|], 1, 2)
  {
    var ss, acts := FirstClaim();
    ss, acts := Step(ss, acts, Stalled(0), 0, Tick(LATE));
    ss, acts := Reclaimed(ss, acts, Claimed(0, 1), Delivering([Job(MESSAGE, 0, 0, 1)]), LATE, {(MESSAGE, 0)}, 0);
    ss, acts := Extend(ss, acts, Tick(2));
    ss, acts := Extend(ss, acts, Restamp(2, LATE + 1));
    ss, acts := Extend(ss, acts, Restamp(1, LATE + 2));
    assert SentTwiceAtOnce(ss[|acts|], 1, 2);
  }

  /**
   Comparing claimed_at in the re-stamp would not be enough: here every
   re-stamp finds its own claim, but worker 1's send outlasts the threshold,
   and worker 2 reaps, claims and sends the row meanwhile.
   */
  lemma SlowSendIsSentTwice()
    ensures exists ss, acts :: DistinctRun(ss, acts) && Orderly(ss, acts) && SentTwiceAtOnce(ss[|acts|], 1, 2)
  {
    var ss, acts := SlowSend();
    ss, acts := Reclaimed(ss, acts, Claimed(1, 2), Sending(Job(MESSAGE, 0, 0, 1), 1, 2, []), LATE + 1, {(MESSAGE, 0), (MESSAGE, 1)}, 0);
    ss, acts := ExtendOrderly(ss, acts, Tick(1));
    ss, acts := ExtendOrderly(ss, acts, Restamp(2, LATE + 2));
    assert SentTwiceAtOnce(ss[|acts|], 1, 2);
  }

  // ---------------------------------------------------------------- one send after the other

  /** The mail server takes worker 1's slow send, and worker 2 reaps and claims the row before that is recorded. */
  lemma TakenButNotRecorded() returns (ss: seq<Outbox>, acts: seq<Action>)
    ensures LeadsTo(ss, acts, World(Claimed(LATE + 1, 4), Recording(Job(MESSAGE, 0, 0, 1), 1, 2, true, LATE + 1, []),
                                    Delivering([Job(MESSAGE, 0, LATE + 1, 4)]), LATE + 1,
                                    {(MESSAGE, 0), (MESSAGE, 1), (MESSAGE, LATE + 1)}), 1)
  {
    ss, acts := SlowSend();
    var used := {(MESSAGE, 0), (MESSAGE, 1)};
    var x := Sending(Job(MESSAGE, 0, 0, 1), 1, 2, []);
    var s0 := World(Claimed(1, 2), x, Idle, LATE + 1, used);
    ss, acts := Step(ss, acts, s0, 0, Send(1, true, LATE + 1));
    var y := Recording(Job(MESSAGE, 0, 0, 1), 1, 2, true, LATE + 1, []);
    assert Next(s0, Send(1, true, LATE + 1)) == World(Claimed(1, 2), y, Idle, LATE + 1, used);
    ss, acts := Reclaimed(ss, acts, Claimed(1, 2), y, LATE + 1, used, 1);
    assert used + {(MESSAGE, LATE + 1)} == {(MESSAGE, 0), (MESSAGE, 1), (MESSAGE, LATE + 1)};
  }

  /**
   Nor do overlapping sends or crashes have to be: here every re-stamp finds
   its own claim, nobody crashes and every write succeeds, no row is ever being
   sent by two workers at once, and still the mail server takes the message
   twice, from worker 1 and then from worker 2.
   */
  lemma TakenTwiceInTurn()
    ensures exists ss, acts ::
      DistinctRun(ss, acts) && Orderly(ss, acts) && NeverAtOnce(ss) && Taken(ss, acts, |acts|, MESSAGE) == 2
  {
    var ss, acts := TakenButNotRecorded();
    var s0 := World(Claimed(LATE + 1, 4), Recording(Job(MESSAGE, 0, 0, 1), 1, 2, true, LATE + 1, []),
                    Delivering([Job(MESSAGE, 0, LATE + 1, 4)]), LATE + 1, {(MESSAGE, 0), (MESSAGE, 1), (MESSAGE, LATE + 1)});
    ss, acts := Step(ss, acts, s0, 1, Tick(1));
    var s1 := Next(s0, Tick(1));
    ss, acts := Step(ss, acts, s1, 1, Restamp(2, LATE + 2));
    var s2 := Next(s1, Restamp(2, LATE + 2));
    ss, acts := Step(ss, acts, s2, 1, Send(2, true, LATE + 2));
    assert LeadsTo(ss, acts, Next(s2, Send(2, true, LATE + 2)), 2);
  }
}
