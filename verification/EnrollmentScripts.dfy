/**
 The four transaction scripts as straight-line code over the tables. Each
 computes exactly what the machine does when its transaction runs with no other
 in between; a script that fails half-way leaves the tables untouched.
 */
module EnrollmentScripts {
  import opened EnrollmentDomain
  import opened NotificationOutbox
  import opened EnrollmentStore
  import opened EnrollmentMachine

  // ---------------------------------------------------------------- a transaction alone

  /** The outcome of running one transaction to its end with no other. */
  datatype Solo = Solo(db: Store, arrivals: nat, x: Txn)

  function SoloStep(q: Solo, c: Choice): Solo {
    Solo(AfterCommit(q.db, q.x),
         if q.x.Submitting? && q.x.spc.Insert? then q.arrivals + 1 else q.arrivals,
         Advanced(q.db, q.arrivals, q.x, c))
  }

  function RunSolo(q: Solo, c: Choice, fuel: nat): Solo
    decreases fuel
  {
    if q.x.Done? || fuel == 0 then q else RunSolo(SoloStep(q, c), c, fuel - 1)
  }

  /** The longest script has eight statements. */
  const LONGEST := 8

  function Executed(db: Store, arrivals: nat, cmd: Command, c: Choice): Solo {
    RunSolo(Solo(db, arrivals, Started(cmd)), c, LONGEST)
  }

  /** The submission ended by making its row. */
  predicate Creates(q: Solo) {
    q.x.Done? && q.x.out.SubmitOk? && !q.x.out.existed
  }

  /** The part of a system that one transaction sees. */
  function Part(s: System, t: TxnId): Solo
    requires t in s.txns
  {
    Solo(s.db, s.arrivals, s.txns[t])
  }

  lemma SoloStepIsRun(s: System, t: TxnId, c: Choice)
    requires t in s.txns && !s.txns[t].Done?
    requires forall u :: u in s.txns && u != t ==> Held(s.txns[u]) == {}
    requires MayGenerate(s, t, c)
    ensures Enabled(s, Run(t, c))
    ensures var s' := Next(s, Run(t, c));
      t in s'.txns && Part(s', t) == SoloStep(Part(s, t), c) && SameOthers(s, s', t) && s'.issued <= s.issued + {c.id}
  {
  }

  /** The id is still unused if the transaction has an insert before it. */
  predicate MayGenerate(s: System, t: TxnId, c: Choice)
    requires t in s.txns
  {
    s.txns[t].Submitting? && !s.txns[t].spc.CommitSubmit? && !s.txns[t].spc.FindKeyAgain? ==> c.id !in s.issued
  }

  /** The other transactions are as before. */
  ghost predicate SameOthers(s: System, s': System, t: TxnId) {
    forall u :: u != t ==> (u in s'.txns <==> u in s.txns) && (u in s.txns ==> s'.txns[u] == s.txns[u])
  }

  /** The transaction's own statements lead to where the script is after at most `fuel` of its own. */
  ghost predicate RunsAlone(s: System, t: TxnId, c: Choice, fuel: nat, acts: seq<Action>)
    requires t in s.txns
  {
    && |acts| <= fuel && (forall i :: 0 <= i < |acts| ==> acts[i] == Run(t, c))
    && Play(s, acts).Some? && t in Play(s, acts).value.txns
    && Part(Play(s, acts).value, t) == RunSolo(Part(s, t), c, fuel)
    && SameOthers(s, Play(s, acts).value, t) && Play(s, acts).value.issued <= s.issued + {c.id}
  }

  lemma NothingToRun(s: System, t: TxnId, c: Choice, fuel: nat)
    requires t in s.txns && (fuel == 0 || s.txns[t].Done?)
    ensures RunsAlone(s, t, c, fuel, [])
  {
  }

  lemma OneStatementMore(s: System, t: TxnId, c: Choice, fuel: nat, rest: seq<Action>)
    requires fuel > 0 && Enabled(s, Run(t, c)) && t in Next(s, Run(t, c)).txns
    requires Part(Next(s, Run(t, c)), t) == SoloStep(Part(s, t), c)
    requires SameOthers(s, Next(s, Run(t, c)), t) && Next(s, Run(t, c)).issued <= s.issued + {c.id}
    requires RunsAlone(Next(s, Run(t, c)), t, c, fuel - 1, rest)
    ensures RunsAlone(s, t, c, fuel, [Run(t, c)] + rest)
  {
    var s' := Next(s, Run(t, c));
    PlayFirst(s, Run(t, c), rest);
    OthersStaySame(s, s', Play(s', rest).value, t);
    assert RunSolo(Part(s, t), c, fuel) == RunSolo(SoloStep(Part(s, t), c), c, fuel - 1);
  }

  /**
   In a system where nobody else holds a row, a transaction's statements are
   enabled one after the other, and running them is the script's run; the other
   transactions stay as they were.
   */
  lemma {:induction false} SoloRunsInMachine(s: System, t: TxnId, c: Choice, fuel: nat) returns (acts: seq<Action>)
    requires t in s.txns && MayGenerate(s, t, c)
    requires forall u :: u in s.txns && u != t ==> Held(s.txns[u]) == {}
    ensures RunsAlone(s, t, c, fuel, acts)
    decreases fuel
  {
    if fuel == 0 || s.txns[t].Done? {
      acts := [];
      NothingToRun(s, t, c, fuel);
    } else {
      SoloStepGoesOn(s, t, c);
      var rest := SoloRunsInMachine(Next(s, Run(t, c)), t, c, fuel - 1);
      acts := [Run(t, c)] + rest;
      OneStatementMore(s, t, c, fuel, rest);
    }
  }

  /** After its statement the transaction is where the script is, and nothing is in its way. */
  lemma SoloStepGoesOn(s: System, t: TxnId, c: Choice)
    requires t in s.txns && !s.txns[t].Done? && MayGenerate(s, t, c)
    requires forall u :: u in s.txns && u != t ==> Held(s.txns[u]) == {}
    ensures Enabled(s, Run(t, c))
    ensures var s' := Next(s, Run(t, c));
      && t in s'.txns && MayGenerate(s', t, c)
      && (forall u :: u in s'.txns && u != t ==> Held(s'.txns[u]) == {})
      && Part(s', t) == SoloStep(Part(s, t), c) && SameOthers(s, s', t) && s'.issued <= s.issued + {c.id}
  {
    SoloStepIsRun(s, t, c);
    CommitKeepsGenerators(s, t, c);
  }

  lemma OthersStaySame(s: System, s': System, s'': System, t: TxnId)
    requires SameOthers(s, s', t) && SameOthers(s', s'', t)
    ensures SameOthers(s, s'', t)
  {
  }

  /** Only INSERT uses up generated values, and it comes once. */
  lemma CommitKeepsGenerators(s: System, t: TxnId, c: Choice)
    requires Enabled(s, Run(t, c))
    ensures var s' := Next(s, Run(t, c));
      s'.txns[t].Submitting? && !s'.txns[t].spc.CommitSubmit? && !s'.txns[t].spc.FindKeyAgain? ==> s'.issued == s.issued
    ensures s.txns[t].Submitting? && s.txns[t].spc.Insert? ==>
      !(Next(s, Run(t, c)).txns[t].Submitting? && !Next(s, Run(t, c)).txns[t].spc.CommitSubmit?
        && !Next(s, Run(t, c)).txns[t].spc.FindKeyAgain?)
  {
  }

  /** The two counts of a decision, and then its ruling on them. */
  lemma CountsBeforeRuling(db: Store, arrivals: nat, input: DecisionInput, row: Request, gid: GroupId, capacity: int,
                           c: Choice, fuel: nat)
    requires fuel >= 5
    ensures RunSolo(Solo(db, arrivals, Deciding(input, CountGroup(row, gid, capacity))), c, fuel) ==
      RunSolo(Ruled(db, arrivals, input, row, gid, capacity, c), c, fuel - 3)
  {
    var q := Solo(db, arrivals, Deciding(input, CountGroup(row, gid, capacity)));
    var q1 := SoloStep(q, c);
    assert q1.x == Deciding(input, CountStudent(row, gid, capacity, |AcceptedIn(db.requests, gid)|));
    var q2 := SoloStep(q1, c);
    assert RunSolo(q1, c, fuel - 1) == RunSolo(q2, c, fuel - 2);
  }

  function Ruled(db: Store, arrivals: nat, input: DecisionInput, row: Request, gid: GroupId, capacity: int, c: Choice): Solo {
    var groupAccepted, studentAccepted := |AcceptedIn(db.requests, gid)|, |AcceptedOf(db.requests, row.student, row.semester)|;
    SoloStep(Solo(db, arrivals, Deciding(input, Update(row, gid, capacity, groupAccepted, studentAccepted))), c)
  }

  // ---------------------------------------------------------------- the scripts

  class Tables {
    var groups: map<GroupId, Group>
    var students: map<StudentId, Student>
    var requests: Requests
    var audit: seq<Event>
    var decisions: seq<DecisionRow>
    var adjustments: seq<AdjustmentRow>
    var outbox: seq<Notice>
    var arrivals: nat

    function Db(): Store
      reads this
    {
      Store(groups, students, requests, audit, decisions, adjustments, outbox)
    }

    /** Writes both notification rows of the open transaction, or none. */
    method Notify(m: Message, failing: nat) returns (ok: bool, notices: seq<Notice>)
      ensures ok <==> failing >= 2
      ensures ok ==> notices == Rows(m)
    {
      var box := new TransactionOutbox();
      ok := box.Enqueue(m, failing);
      notices := box.inserted;
    }

    /** `failing` is the outbox insert that the database refuses, if below 2. */
    method Cancel(input: CancelInput, ghost c: Choice, failing: nat) returns (out: Outcome)
      modifies this
      ensures var alone := Executed(old(Db()), old(arrivals), CmdCancel(input), c);
        if alone.x == Done(Committed) && failing < 2 then
          out == Failed(ErrDatabase) && Db() == old(Db()) && arrivals == old(arrivals)
        else Solo(Db(), arrivals, Done(out)) == alone
    {
      ghost var q0 := Solo(Db(), arrivals, Started(CmdCancel(input)));
      ghost var q1 := SoloStep(q0, c);
      ghost var q2 := SoloStep(q1, c);
      assert RunSolo(q0, c, 8) == RunSolo(q1, c, 7);
      if input.request !in requests {
        return Failed(ErrNotFound);
      }
      var row := requests[input.request];
      if row.student != input.student {
        return Failed(ErrForbidden);
      }
      if row.status.IsTerminal() {
        return Failed(ErrNotCancelable);
      }
      assert RunSolo(q1, c, 7) == RunSolo(q2, c, 6);
      var ok, notices := Notify(Message(row.student, RequestCancelledByStudent, input.request), failing);
      if !ok {
        return Failed(ErrDatabase);
      }
      requests := requests[input.request := row.(status := StatusCancelledByStudent)];
      audit := audit + [EnrollmentCancelledByStudent(input.request, input.student, row.status)];
      outbox := outbox + notices;
      return Committed;
    }

    method AdjustCapacity(input: AdjustInput, ghost c: Choice) returns (out: Outcome)
      modifies this
      ensures Solo(Db(), arrivals, Done(out)) == Executed(old(Db()), old(arrivals), CmdAdjust(input), c)
    {
      ghost var q0 := Solo(Db(), arrivals, Started(CmdAdjust(input)));
      ghost var q1 := SoloStep(q0, c);
      assert RunSolo(q0, c, 8) == RunSolo(q1, c, 7);
      if input.group !in groups {
        return Failed(ErrNoRows);
      }
      var prev := groups[input.group].capacity;
      if input.capacity < 0 {
        return Failed(ErrCheckViolation);
      }
      assert RunSolo(q1, c, 7) == RunSolo(SoloStep(q1, c), c, 6);
      groups := groups[input.group := groups[input.group].(capacity := input.capacity)];
      adjustments := adjustments + [AdjustmentRow(input.group, prev, input.capacity)];
      audit := audit + [GroupCapacityAdjusted(input.group, prev, input.capacity)];
      return Committed;
    }

    /** Locks the request and the group whose seats the decision counts. */
    method LockForDecision(input: DecisionInput, ghost c: Choice) returns (res: Result<(Request, GroupId, int), Error>, ghost fuel: nat)
      ensures res.Err? ==>
        Solo(Db(), arrivals, Done(Failed(res.error))) == Executed(Db(), arrivals, CmdDecide(input), c) && res.error != ErrDatabase
      ensures res.Ok? ==>
        && input.request in requests && requests[input.request] == res.value.0
        && fuel >= 5
        && RunSolo(Solo(Db(), arrivals, Deciding(input, CountGroup(res.value.0, res.value.1, res.value.2))), c, fuel)
           == Executed(Db(), arrivals, CmdDecide(input), c)
    {
      ghost var q := Solo(Db(), arrivals, Started(CmdDecide(input)));
      ghost var target := Executed(Db(), arrivals, CmdDecide(input), c);
      fuel := LONGEST - 1;
      assert RunSolo(SoloStep(q, c), c, fuel) == target;
      if input.request !in requests {
        return Err(ErrRequestNotFound), fuel;
      }
      var row := requests[input.request];
      var capacityGroup := row.group;
      if input.decision == DecisionCreateGroupAcceptance {
        if input.target.None? {
          return Err(ErrTargetGroupRequired), fuel;
        }
        q := SoloStep(q, c);
        fuel := fuel - 1;
        assert q.x == Deciding(input, LockTarget(row)) && RunSolo(SoloStep(q, c), c, fuel) == target;
        if input.target.value !in groups {
          return Err(ErrTargetGroupNotFound), fuel;
        }
        if groups[input.target.value].offering != row.offering {
          return Err(ErrTargetGroupOfferingMismatch), fuel;
        }
        capacityGroup := input.target.value;
      }
      q := SoloStep(q, c);
      fuel := fuel - 1;
      assert q.x == Deciding(input, LockSeats(row, capacityGroup)) && RunSolo(SoloStep(q, c), c, fuel) == target;
      if capacityGroup !in groups {
        return Err(ErrNoRows), fuel;
      }
      return Ok((row, capacityGroup, groups[capacityGroup].capacity)), fuel;
    }

    /** Counts, rules, and checks the index the move could violate. */
    method RuleOnDecision(input: DecisionInput, row: Request, gid: GroupId, capacity: int, ghost c: Choice, ghost fuel: nat)
      returns (res: Result<RequestStatus, Error>)
      requires input.request in requests && requests[input.request] == row && fuel >= 5
      ensures res.Err? ==> res.error != ErrDatabase
      ensures RunSolo(Solo(Db(), arrivals, Deciding(input, CountGroup(row, gid, capacity))), c, fuel) ==
        if res.Err? then Solo(Db(), arrivals, Done(Failed(res.error)))
        else RunSolo(Solo(Db(), arrivals, Deciding(input, CommitDecide(row, gid, res.value))), c, fuel - 3)
    {
      CountsBeforeRuling(Db(), arrivals, input, row, gid, capacity, c, fuel);
      var groupAccepted := |AcceptedIn(requests, gid)|;
      var studentAccepted := |AcceptedOf(requests, row.student, row.semester)|;
      res := ApplyDecision(input.decision,
        DecisionContext(row.status, input.reason, capacity, groupAccepted, studentAccepted, input.target.Some?));
      if res.Ok? && input.decision == DecisionCreateGroupAcceptance && res.value.IsActive()
         && ActiveEntries(requests, row.student, row.semester, gid) - {input.request} != {} {
        return Err(ErrDuplicateActiveInTargetGroup);
      }
    }

    method Decide(input: DecisionInput, ghost c: Choice, failing: nat) returns (out: Outcome)
      modifies this
      ensures var alone := Executed(old(Db()), old(arrivals), CmdDecide(input), c);
        if alone.x == Done(Committed) && NotifyFor(input.decision).Some? && failing < 2 then
          out == Failed(ErrDatabase) && Db() == old(Db()) && arrivals == old(arrivals)
        else Solo(Db(), arrivals, Done(out)) == alone
    {
      ghost var target := Executed(Db(), arrivals, CmdDecide(input), c);
      var locked, fuel := LockForDecision(input, c);
      if locked.Err? {
        return Failed(locked.error);
      }
      var (row, gid, capacity) := locked.value;
      var ruling := RuleOnDecision(input, row, gid, capacity, c, fuel);
      if ruling.Err? {
        return Failed(ruling.error);
      }
      var next := ruling.value;
      ghost var q := Solo(Db(), arrivals, Deciding(input, CommitDecide(row, gid, next)));
      assert RunSolo(SoloStep(q, c), c, fuel - 4) == target;
      var notices: seq<Notice> := [];
      match NotifyFor(input.decision) {
        case Some(kind) =>
          var ok, both := Notify(Message(row.student, kind, input.request), failing);
          if !ok {
            return Failed(ErrDatabase);
          }
          notices := both;
        case None =>
      }
      if input.decision == DecisionCreateGroupAcceptance {
        requests := requests[input.request := row.(status := next, group := gid)];
      } else {
        requests := requests[input.request := row.(status := next)];
      }
      decisions := decisions + [DecisionRow(input.request, input.decision, row.status, next)];
      audit := audit + [EnrollmentDecision(input.request, input.decision, row.status, next)];
      outbox := outbox + notices;
      return Committed;
    }

    /** The checks before seats are counted: group, student, window and limit. */
    method Admit(input: SubmitInput, c: Choice) returns (res: Result<(Group, Shift), Error>)
      requires !HasKey(Db(), input)
      ensures res.Err? ==>
        Solo(Db(), arrivals, Done(Failed(res.error))) == Executed(Db(), arrivals, CmdSubmit(input), c) && res.error != ErrDatabase
      ensures res.Ok? ==>
        RunSolo(Solo(Db(), arrivals, Submitting(input, CountSeats(res.value.0, res.value.1))), c, 3)
        == Executed(Db(), arrivals, CmdSubmit(input), c)
    {
      ghost var q := SoloStep(Solo(Db(), arrivals, Started(CmdSubmit(input))), c);
      ghost var target := Executed(Db(), arrivals, CmdSubmit(input), c);
      assert q.x == Submitting(input, LockGroup) && RunSolo(q, c, 7) == target;
      assert RunSolo(SoloStep(q, c), c, 6) == target;
      if input.group !in groups || !groups[input.group].active {
        return Err(ErrGroupNotFound);
      }
      var g := groups[input.group];
      q := SoloStep(q, c);
      assert q.x == Submitting(input, LockStudent(g)) && RunSolo(SoloStep(q, c), c, 5) == target;
      if input.student !in students || !students[input.student].active {
        return Err(ErrStudentNotFound);
      }
      var studentShift := students[input.student].shift;
      q := SoloStep(q, c);
      assert q.x == Submitting(input, CheckWindow(g, studentShift)) && RunSolo(SoloStep(q, c), c, 4) == target;
      if !c.windowOpen {
        return Err(ErrWindowClosed);
      }
      q := SoloStep(q, c);
      assert q.x == Submitting(input, CountActive(g, studentShift)) && RunSolo(SoloStep(q, c), c, 3) == target;
      var activeCount := |ActiveOf(requests, input.student, input.semester)|;
      match ValidateSubmissionAllowed(activeCount) {
        case Some(e) => return Err(e);
        case None => return Ok((g, studentShift));
      }
    }

    /** Counts the seats, classifies, and checks the index the new row could violate. */
    method Place(input: SubmitInput, g: Group, studentShift: Shift, c: Choice) returns (res: Result<Request, Error>)
      requires !HasKey(Db(), input)
      ensures res.Err? ==> res.error != ErrDatabase
      ensures RunSolo(Solo(Db(), arrivals, Submitting(input, CountSeats(g, studentShift))), c, 3) ==
        if res.Err? then Solo(Db(), arrivals + 1, Done(Failed(res.error)))
        else RunSolo(Solo(Db(), arrivals + 1, Submitting(input, CommitSubmit(c.id, res.value))), c, 1)
      ensures res.Ok? ==> Submits(input, res.value) && res.value.offering == g.offering && res.value.arrival == arrivals
    {
      ghost var q := Solo(Db(), arrivals, Submitting(input, CountSeats(g, studentShift)));
      ghost var target := RunSolo(q, c, 3);
      var occ := GroupOccupancy(g.capacity, |AcceptedIn(requests, input.group)|, |PendingDirectIn(requests, input.group)|);
      q := SoloStep(q, c);
      assert q.x == Submitting(input, Insert(g, studentShift, occ)) && RunSolo(q, c, 2) == target;
      assert RunSolo(SoloStep(q, c), c, 1) == target;
      var (priority, status) := Classify(studentShift, g.shift, occ);
      if ActiveEntries(requests, input.student, input.semester, input.group) != {} {
        return Err(ErrDuplicateActiveRequest);
      }
      return Ok(Request(input.semester, input.student, g.offering, input.group, studentShift, g.shift,
                        priority, status, arrivals, input.key));
    }

    /** The row with its audit event and both notifications, or nothing. */
    method RecordSubmission(id: RequestId, row: Request, failing: nat) returns (ok: bool)
      modifies this
      ensures ok <==> failing >= 2
      ensures Db() == (if ok then SubmitCommitted(old(Db()), id, row) else old(Db())) && arrivals == old(arrivals)
    {
      var notices;
      ok, notices := Notify(Message(row.student, RequestSubmitted, id), failing);
      if ok {
        requests := requests[id := row];
        audit := audit + [EnrollmentSubmitted(id, row.student, row.status, row.priority, row.group)];
        outbox := outbox + notices;
      }
    }

    /** The sequence gives its number up even if the rest of the transaction fails. */
    method Submit(input: SubmitInput, c: Choice, failing: nat) returns (out: Outcome)
      modifies this
      ensures var alone := Executed(old(Db()), old(arrivals), CmdSubmit(input), c);
        if Creates(alone) && failing < 2 then
          out == Failed(ErrDatabase) && Db() == old(Db()) && arrivals == old(arrivals) + 1
        else Solo(Db(), arrivals, Done(out)) == alone
    {
      ghost var target := Executed(Db(), arrivals, CmdSubmit(input), c);
      assert RunSolo(SoloStep(Solo(Db(), arrivals, Started(CmdSubmit(input))), c), c, 7) == target;
      if HasKey(Db(), input) {
        return FoundByKey(Db(), input);
      }
      var admitted := Admit(input, c);
      if admitted.Err? {
        return Failed(admitted.error);
      }
      var (g, studentShift) := admitted.value;
      var placed := Place(input, g, studentShift, c);
      arrivals := arrivals + 1;
      if placed.Err? {
        return Failed(placed.error);
      }
      var row := placed.value;
      ghost var q := Solo(Db(), arrivals, Submitting(input, CommitSubmit(c.id, row)));
      assert RunSolo(SoloStep(q, c), c, 0) == target;
      var ok := RecordSubmission(c.id, row, failing);
      if !ok {
        return Failed(ErrDatabase);
      }
      return SubmitOk(c.id, g.offering, row.status, row.priority, row.arrival, false);
    }
  }
}
