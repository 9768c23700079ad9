/**
 What each transaction comes to when it runs with no other in between: exactly
 when it takes effect, and with what effect.
 */
module EnrollmentAlone {
  import opened EnrollmentDomain
  import opened EnrollmentStore
  import opened EnrollmentMachine
  import opened EnrollmentScripts

  // ---------------------------------------------------------------- submit

  /** The request has the next arrival number, and a direct seat exactly if shift and room allow. */
  predicate IsNewRequest(db: Store, arrivals: nat, input: SubmitInput, row: Request)
    requires input.group in db.groups && input.student in db.students
  {
    var g := db.groups[input.group];
    var same := db.students[input.student].shift == g.shift;
    var room := |AcceptedIn(db.requests, input.group)| + |PendingDirectIn(db.requests, input.group)| < g.capacity;
    && Submits(input, row) && row.offering == g.offering && row.arrival == arrivals
    && row.studentShift == db.students[input.student].shift && row.groupShift == g.shift
    && (row.priority == PriorityDirectSameShift <==> same && room)
    && (row.priority == PriorityWaitlistSameShift <==> same && !room)
    && (row.status == StatusPendingReview <==> same && room)
    && (row.status == StatusWaitlistSameShift <==> same && !room)
    && (row.status == StatusWaitlistOppositeShift <==> !same)
  }

  predicate GroupOpen(db: Store, input: SubmitInput) {
    input.group in db.groups && db.groups[input.group].active
  }

  predicate StudentActive(db: Store, input: SubmitInput) {
    input.student in db.students && db.students[input.student].active
  }

  predicate BelowCap(db: Store, input: SubmitInput) {
    |ActiveOf(db.requests, input.student, input.semester)| < MAX_ELECTIVES_PER_SEMESTER
  }

  predicate NoActiveThere(db: Store, input: SubmitInput) {
    ActiveEntries(db.requests, input.student, input.semester, input.group) == {}
  }

  /** Nothing stands in the way of a new request. */
  predicate MayCreate(db: Store, input: SubmitInput, windowOpen: bool) {
    !HasKey(db, input) && GroupOpen(db, input) && StudentActive(db, input) && windowOpen && BelowCap(db, input) && NoActiveThere(db, input)
  }

  /** The checks passed by the time the submission stands at a statement. */
  predicate SubmitPassed(db: Store, input: SubmitInput, windowOpen: bool, pc: SubmitPc) {
    && !pc.FindKeyAgain?
    && (!pc.FindKey? ==> !HasKey(db, input))
    && (!pc.FindKey? && !pc.LockGroup? ==> GroupOpen(db, input))
    && (!pc.FindKey? && !pc.LockGroup? && !pc.LockStudent? ==> StudentActive(db, input))
    && (pc.CountActive? || pc.CountSeats? || pc.Insert? || pc.CommitSubmit? ==> windowOpen)
    && (pc.CountSeats? || pc.Insert? || pc.CommitSubmit? ==> BelowCap(db, input))
    && (pc.CommitSubmit? ==> NoActiveThere(db, input))
  }

  /** What it has read and written by then. */
  predicate SubmitRead(db: Store, arrivals: nat, input: SubmitInput, c: Choice, pc: SubmitPc) {
    match pc
    case LockStudent(g) => input.group in db.groups && g == db.groups[input.group]
    case CheckWindow(g, shift) => ReadBoth(db, input, g, shift)
    case CountActive(g, shift) => ReadBoth(db, input, g, shift)
    case CountSeats(g, shift) => ReadBoth(db, input, g, shift)
    case Insert(g, shift, occ) =>
      && ReadBoth(db, input, g, shift) && occ.capacity == g.capacity
      && occ.DirectSlotsTaken() == |AcceptedIn(db.requests, input.group)| + |PendingDirectIn(db.requests, input.group)|
    case CommitSubmit(id, row) =>
      id == c.id && input.group in db.groups && input.student in db.students && IsNewRequest(db, arrivals, input, row)
    case _ => true
  }

  predicate ReadBoth(db: Store, input: SubmitInput, g: Group, shift: Shift) {
    input.group in db.groups && g == db.groups[input.group] && input.student in db.students && shift == db.students[input.student].shift
  }

  /** A new row with its audit event and messages and the answer about it, or no change. */
  predicate SubmitEnds(db: Store, arrivals: nat, input: SubmitInput, c: Choice, q: Solo) {
    if MayCreate(db, input, c.windowOpen) then
      && q.x.Done? && q.x.out.SubmitOk? && q.x.out.request == c.id && c.id in q.db.requests
      && IsNewRequest(db, arrivals, input, q.db.requests[c.id])
      && q.db == SubmitCommitted(db, c.id, q.db.requests[c.id])
      && var r := q.db.requests[c.id];
         q.x.out == SubmitOk(c.id, r.offering, r.status, r.priority, r.arrival, false)
    else
      && q.x.Done? && q.db == db
      && (q.x.out.SubmitOk? <==> HasKey(db, input))
      && (q.x.out.SubmitOk? ==> q.x.out.existed)
  }

  predicate SubmitAt(db: Store, arrivals: nat, input: SubmitInput, c: Choice, q: Solo) {
    if q.x.Done? then SubmitEnds(db, arrivals, input, c, q)
    else
      && q.x.Submitting? && q.x.submit == input && q.db == db
      && (!q.x.spc.CommitSubmit? ==> q.arrivals == arrivals)
      && SubmitPassed(db, input, c.windowOpen, q.x.spc) && SubmitRead(db, arrivals, input, c, q.x.spc)
  }

  /** How many statements are left at most. */
  function SubmitLeft(x: Txn): nat {
    if !x.Submitting? then 0
    else
      match x.spc
      case FindKey => 8
      case LockGroup => 7
      case LockStudent(_) => 6
      case CheckWindow(_, _) => 5
      case CountActive(_, _) => 4
      case CountSeats(_, _) => 3
      case Insert(_, _, _) => 2
      case _ => 1
  }

  lemma SubmitMoves(db: Store, arrivals: nat, input: SubmitInput, c: Choice, q: Solo)
    requires SubmitAt(db, arrivals, input, c, q) && !q.x.Done?
    ensures SubmitAt(db, arrivals, input, c, SoloStep(q, c)) && SubmitLeft(SoloStep(q, c).x) < SubmitLeft(q.x)
  {
  }

  lemma {:induction false} SubmitWalks(db: Store, arrivals: nat, input: SubmitInput, c: Choice, q: Solo, n: nat)
    requires SubmitAt(db, arrivals, input, c, q) && SubmitLeft(q.x) <= n
    ensures SubmitEnds(db, arrivals, input, c, RunSolo(q, c, n))
    decreases n
  {
    if !q.x.Done? {
      SubmitMoves(db, arrivals, input, c, q);
      SubmitWalks(db, arrivals, input, c, SoloStep(q, c), n - 1);
    }
  }

  /**
   A submission creates a request if and only if its key is new, group and
   student are active, the window is open, the cap leaves room and the student
   holds no active request there; otherwise it changes nothing.
   */
  lemma SubmitCreatesExactlyWhen(db: Store, arrivals: nat, input: SubmitInput, c: Choice)
    ensures SubmitEnds(db, arrivals, input, c, Executed(db, arrivals, CmdSubmit(input), c))
  {
    SubmitWalks(db, arrivals, input, c, Solo(db, arrivals, Started(CmdSubmit(input))), LONGEST);
  }

  // ---------------------------------------------------------------- cancel

  /** A student cancels a request if and only if it exists, is the student's own, and is open. */
  lemma CancelTakesEffectExactlyWhen(db: Store, arrivals: nat, input: CancelInput, c: Choice)
    ensures var q := Executed(db, arrivals, CmdCancel(input), c);
      if input.request in db.requests && db.requests[input.request].student == input.student
         && !db.requests[input.request].status.IsTerminal() then
        q.x == Done(Committed) && q.db == CancelCommitted(db, input.request, db.requests[input.request])
      else q.x.Done? && q.x.out.Failed? && q.db == db
  {
    var q := Solo(db, arrivals, Started(CmdCancel(input)));
    assert RunSolo(q, c, 8) == RunSolo(SoloStep(q, c), c, 7);
    if !SoloStep(q, c).x.Done? {
      assert RunSolo(SoloStep(q, c), c, 7) == RunSolo(SoloStep(SoloStep(q, c), c), c, 6);
    }
  }

  // ---------------------------------------------------------------- adjust

  /** A capacity is set if and only if the group exists and the capacity is not negative; the old one is recorded. */
  lemma AdjustTakesEffectExactlyWhen(db: Store, arrivals: nat, input: AdjustInput, c: Choice)
    ensures var q := Executed(db, arrivals, CmdAdjust(input), c);
      if input.group in db.groups && input.capacity >= 0 then
        q.x == Done(Committed) && q.db == AdjustCommitted(db, input.group, db.groups[input.group].capacity, input.capacity)
      else q.x.Done? && q.x.out.Failed? && q.db == db
  {
    var q := Solo(db, arrivals, Started(CmdAdjust(input)));
    assert RunSolo(q, c, 8) == RunSolo(SoloStep(q, c), c, 7);
    if !SoloStep(q, c).x.Done? {
      assert RunSolo(SoloStep(q, c), c, 7) == RunSolo(SoloStep(SoloStep(q, c), c), c, 6);
    }
  }

  // ---------------------------------------------------------------- decide

  /** The group whose seats a decision counts. */
  function CountedGroup(input: DecisionInput, row: Request): GroupId {
    if input.decision == DecisionCreateGroupAcceptance && input.target.Some? then input.target.value else row.group
  }

  predicate TargetFits(db: Store, input: DecisionInput, row: Request) {
    input.decision == DecisionCreateGroupAcceptance ==>
      input.target.Some? && input.target.value in db.groups && db.groups[input.target.value].offering == row.offering
  }

  /** What the rules say of the decision on the committed counts. */
  function Verdict(db: Store, input: DecisionInput): Result<RequestStatus, Error>
    requires input.request in db.requests && CountedGroup(input, db.requests[input.request]) in db.groups
  {
    var row := db.requests[input.request];
    var g := CountedGroup(input, row);
    ApplyDecision(input.decision,
      DecisionContext(row.status, input.reason, db.groups[g].capacity, |AcceptedIn(db.requests, g)|,
                      |AcceptedOf(db.requests, row.student, row.semester)|, input.target.Some?))
  }

  /** The student has no other active request in the group moved to. */
  predicate MoveIsFree(db: Store, input: DecisionInput, row: Request) {
    input.decision == DecisionCreateGroupAcceptance && input.target.Some? ==>
      ActiveEntries(db.requests, row.student, row.semester, input.target.value) - {input.request} == {}
  }

  predicate MayDecide(db: Store, input: DecisionInput) {
    && input.request in db.requests
    && TargetFits(db, input, db.requests[input.request])
    && CountedGroup(input, db.requests[input.request]) in db.groups
    && Verdict(db, input).Ok?
    && MoveIsFree(db, input, db.requests[input.request])
  }

  /** Reason, status and room as the store shows them. */
  predicate Admissible(db: Store, input: DecisionInput)
    requires input.request in db.requests && CountedGroup(input, db.requests[input.request]) in db.groups
  {
    var row := db.requests[input.request];
    var g := CountedGroup(input, row);
    && ReasonIsValid(input.reason) && !input.decision.DecisionUnknown?
    && (if input.decision == DecisionAdminCancel then row.status == StatusAccepted || !row.status.IsTerminal()
        else !row.status.IsTerminal())
    && (input.decision.IsAcceptance() ==>
          && |AcceptedIn(db.requests, g)| < db.groups[g].capacity
          && |AcceptedOf(db.requests, row.student, row.semester)| < MAX_ELECTIVES_PER_SEMESTER
          && (input.decision == DecisionCreateGroupAcceptance ==> input.target.Some?))
  }

  /** The rules admit a decision exactly if it is admissible, and it leads to the status it names. */
  lemma VerdictExactlyWhen(db: Store, input: DecisionInput)
    requires input.request in db.requests && CountedGroup(input, db.requests[input.request]) in db.groups
    ensures Verdict(db, input).Ok? <==> Admissible(db, input)
    ensures Verdict(db, input).Ok? ==> NamesStatus(input.decision, Verdict(db, input).value)
  {
    var row := db.requests[input.request];
    var g := CountedGroup(input, row);
    var ctx := DecisionContext(row.status, input.reason, db.groups[g].capacity, |AcceptedIn(db.requests, g)|,
                               |AcceptedOf(db.requests, row.student, row.semester)|, input.target.Some?);
    if input.decision.IsAcceptance() {
      AcceptsExactlyWhen(input.decision, ctx);
    } else {
      OtherDecisionsApplyExactlyWhen(input.decision, ctx);
    }
    if ApplyDecision(input.decision, ctx).Ok? {
      DecisionGivesItsStatus(input.decision, ctx);
    }
  }

  predicate DecideEnds(db: Store, input: DecisionInput, q: Solo) {
    if MayDecide(db, input) then
      var row := db.requests[input.request];
      && q.x == Done(Committed)
      && q.db == DecideCommitted(db, input.request, row, input.decision, CountedGroup(input, row), Verdict(db, input).value)
    else q.x.Done? && q.x.out.Failed? && q.db == db
  }

  predicate DecideRead(db: Store, input: DecisionInput, row: Request, gid: GroupId) {
    && input.request in db.requests && row == db.requests[input.request]
    && TargetFits(db, input, row) && gid == CountedGroup(input, row)
  }

  predicate DecideAt(db: Store, input: DecisionInput, q: Solo) {
    if q.x.Done? then DecideEnds(db, input, q)
    else
      && q.x.Deciding? && q.x.decide == input && q.db == db
      && match q.x.dpc
         case LockRequest => true
         case LockTarget(row) =>
           input.request in db.requests && row == db.requests[input.request] && input.decision == DecisionCreateGroupAcceptance
         case LockSeats(row, gid) => DecideRead(db, input, row, gid)
         case CountGroup(row, gid, capacity) =>
           DecideRead(db, input, row, gid) && gid in db.groups && capacity == db.groups[gid].capacity
         case CountStudent(row, gid, capacity, accepted) =>
           && DecideRead(db, input, row, gid) && gid in db.groups && capacity == db.groups[gid].capacity
           && accepted == |AcceptedIn(db.requests, gid)|
         case Update(row, gid, capacity, accepted, studentAccepted) =>
           && DecideRead(db, input, row, gid) && gid in db.groups
           && Ruling(input, row, capacity, accepted, studentAccepted) == Verdict(db, input)
         case CommitDecide(row, gid, next) =>
           DecideRead(db, input, row, gid) && MayDecide(db, input) && next == Verdict(db, input).value
  }

  function DecideLeft(x: Txn): nat {
    if !x.Deciding? then 0
    else
      match x.dpc
      case LockRequest => 7
      case LockTarget(_) => 6
      case LockSeats(_, _) => 5
      case CountGroup(_, _, _) => 4
      case CountStudent(_, _, _, _) => 3
      case Update(_, _, _, _, _) => 2
      case CommitDecide(_, _, _) => 1
  }

  /** A move that is ruled admissible is an acceptance, so the index on active requests applies to it. */
  lemma DecideMoves(db: Store, input: DecisionInput, c: Choice, q: Solo)
    requires DecideAt(db, input, q) && !q.x.Done?
    ensures DecideAt(db, input, SoloStep(q, c)) && DecideLeft(SoloStep(q, c).x) < DecideLeft(q.x)
  {
  }

  lemma {:induction false} DecideWalks(db: Store, input: DecisionInput, c: Choice, q: Solo, n: nat)
    requires DecideAt(db, input, q) && DecideLeft(q.x) <= n
    ensures DecideEnds(db, input, RunSolo(q, c, n))
    decreases n
  {
    if !q.x.Done? {
      DecideMoves(db, input, c, q);
      DecideWalks(db, input, c, SoloStep(q, c), n - 1);
    }
  }

  /**
   A decision takes effect if and only if the request exists, a named target
   belongs to its offering, reason, status and room allow it on the counts of
   the target or own group, and a move meets no other active request; it leads
   to the status it names. Otherwise it changes nothing.
   */
  lemma DecisionTakesEffectExactlyWhen(db: Store, arrivals: nat, input: DecisionInput, c: Choice)
    ensures DecideEnds(db, input, Executed(db, arrivals, CmdDecide(input), c))
    ensures MayDecide(db, input) <==>
      && input.request in db.requests
      && TargetFits(db, input, db.requests[input.request])
      && CountedGroup(input, db.requests[input.request]) in db.groups
      && Admissible(db, input)
      && MoveIsFree(db, input, db.requests[input.request])
    ensures MayDecide(db, input) ==> NamesStatus(input.decision, Verdict(db, input).value)
  {
    if input.request in db.requests && CountedGroup(input, db.requests[input.request]) in db.groups {
      VerdictExactlyWhen(db, input);
    }
    DecideWalks(db, input, c, Solo(db, arrivals, Started(CmdDecide(input))), LONGEST);
  }
}
