/**
 Submit, Cancel, Decide and AdjustCapacity as concurrent transactions under
 READ COMMITTED. One step of the machine is one SQL statement of one
 transaction (or a commit, a rollback, or an unrelated committed change). A
 statement reads the store as committed at that moment; a statement with
 FOR UPDATE can only run while no other transaction holds the row.
 */
module EnrollmentMachine {
  import opened EnrollmentDomain
  import opened EnrollmentStore

  type TxnId = nat

  // ---------------------------------------------------------------- commands and outcomes

  datatype SubmitInput = SubmitInput(semester: SemesterId, student: StudentId, group: GroupId, key: string)
  datatype CancelInput = CancelInput(request: RequestId, student: StudentId)
  datatype DecisionInput = DecisionInput(request: RequestId, decision: DecisionType, reason: string,
                                         target: Option<GroupId>)
  datatype AdjustInput = AdjustInput(group: GroupId, capacity: int)

  datatype Outcome =
    | SubmitOk(request: RequestId, offering: OfferingId, status: RequestStatus,
               priority: PriorityGroup, arrival: nat, existed: bool)
    | Committed
    | Failed(error: Error)

  /** A replay answers with the stored row. */
  function Existing(id: RequestId, r: Request): Outcome {
    SubmitOk(id, r.offering, r.status, r.priority, r.arrival, true)
  }

  /** The row is the one the input asks for. */
  predicate Submits(input: SubmitInput, row: Request) {
    && row.semester == input.semester && row.student == input.student
    && row.group == input.group && row.key == input.key
  }

  // ---------------------------------------------------------------- transactions

  /** The next statement of a submission, with what it has read so far. */
  datatype SubmitPc =
    | FindKey
    | LockGroup
    | LockStudent(g: Group)
    | CheckWindow(g: Group, shift: Shift)
    | CountActive(g: Group, shift: Shift)
    | CountSeats(g: Group, shift: Shift)
    | Insert(g: Group, shift: Shift, occ: GroupOccupancy)
    | CommitSubmit(id: RequestId, row: Request)
    | FindKeyAgain

  datatype CancelPc =
    | LockOwnRequest
    | CommitCancel(row: Request)

  datatype DecidePc =
    | LockRequest
    | LockTarget(row: Request)
    | LockSeats(row: Request, gid: GroupId)
    | CountGroup(row: Request, gid: GroupId, capacity: int)
    | CountStudent(row: Request, gid: GroupId, capacity: int, accepted: nat)
    | Update(row: Request, gid: GroupId, capacity: int, accepted: nat, studentAccepted: nat)
    | CommitDecide(row: Request, gid: GroupId, next: RequestStatus)

  datatype AdjustPc =
    | LockCapacity
    | CommitAdjust(prev: Group)

  datatype Txn =
    | Submitting(submit: SubmitInput, spc: SubmitPc)
    | Cancelling(cancel: CancelInput, cpc: CancelPc)
    | Deciding(decide: DecisionInput, dpc: DecidePc)
    | Adjusting(adjust: AdjustInput, apc: AdjustPc)
    | Done(out: Outcome)

  /** A row that FOR UPDATE can lock. */
  datatype Resource =
    | RequestRow(request: RequestId)
    | GroupRow(group: GroupId)
    | StudentRow(student: StudentId)
  {
    /** The order in which every transaction acquires its rows. */
    function Rank(): nat {
      match this
      case RequestRow(_) => 0
      case GroupRow(_) => 1
      case StudentRow(_) => 2
    }
  }

  /** The rows a transaction holds locked, given where it stands. */
  function Held(x: Txn): set<Resource> {
    match x
    case Submitting(input, FindKey) => {}
    case Submitting(input, LockGroup) => {}
    case Submitting(input, LockStudent(_)) => {GroupRow(input.group)}
    case Submitting(input, FindKeyAgain) => {}
    case Submitting(input, _) => {GroupRow(input.group), StudentRow(input.student)}
    case Cancelling(input, LockOwnRequest) => {}
    case Cancelling(input, _) => {RequestRow(input.request)}
    case Deciding(input, LockRequest) => {}
    case Deciding(input, LockTarget(_)) => {RequestRow(input.request)}
    case Deciding(input, LockSeats(_, gid)) =>
      if input.decision == DecisionCreateGroupAcceptance then {RequestRow(input.request), GroupRow(gid)}
      else {RequestRow(input.request)}
    case Deciding(input, pc) => {RequestRow(input.request), GroupRow(pc.gid)}
    case Adjusting(input, LockCapacity) => {}
    case Adjusting(input, _) => {GroupRow(input.group)}
    case Done(_) => {}
  }

  /** The row the next statement has to lock, if it finds one to lock. */
  function Wants(db: Store, x: Txn): Option<Resource> {
    match x
    case Submitting(input, LockGroup) =>
      if input.group in db.groups && db.groups[input.group].active then Some(GroupRow(input.group)) else None
    case Submitting(input, LockStudent(_)) =>
      if input.student in db.students && db.students[input.student].active then Some(StudentRow(input.student)) else None
    case Cancelling(input, LockOwnRequest) =>
      if input.request in db.requests then Some(RequestRow(input.request)) else None
    case Deciding(input, LockRequest) =>
      if input.request in db.requests then Some(RequestRow(input.request)) else None
    case Deciding(input, LockTarget(_)) =>
      if input.target.Some? && input.target.value in db.groups then Some(GroupRow(input.target.value)) else None
    case Deciding(input, LockSeats(_, gid)) =>
      if gid in db.groups then Some(GroupRow(gid)) else None
    case Adjusting(input, LockCapacity) =>
      if input.group in db.groups then Some(GroupRow(input.group)) else None
    case _ => None
  }

  /** The next step of the transaction is its commit. */
  predicate AtCommit(x: Txn) {
    match x
    case Submitting(_, pc) => pc.CommitSubmit?
    case Cancelling(_, pc) => pc.CommitCancel?
    case Deciding(_, pc) => pc.CommitDecide?
    case Adjusting(_, pc) => pc.CommitAdjust?
    case Done(_) => false
  }

  // ---------------------------------------------------------------- the system

  /**
   `arrivals` is the next value of enrollment_arrival_seq, which rollbacks do
   not give back; `issued` are the request ids generated so far.
   */
  datatype System = System(db: Store, txns: map<TxnId, Txn>, arrivals: nat, issued: set<RequestId>)

  /** What the environment decides in a step: the window, the generated id, the index reported first. */
  datatype Choice = Choice(windowOpen: bool, id: RequestId, keyIndexFirst: bool)

  datatype Command =
    | CmdSubmit(submit: SubmitInput)
    | CmdCancel(cancel: CancelInput)
    | CmdDecide(decide: DecisionInput)
    | CmdAdjust(adjust: AdjustInput)

  datatype Action =
    | Begin(t: TxnId, cmd: Command)
    | Run(t: TxnId, choice: Choice)
    | Abort(t: TxnId)
    | CreateGroup(group: GroupId, row: Group)
    | SetGroupActive(group: GroupId, active: bool)
    | PutStudent(student: StudentId, person: Student)
    | SkipArrival

  predicate Init(s: System) {
    s == System(EMPTY_STORE, map[], 0, {})
  }

  function Started(cmd: Command): Txn {
    match cmd
    case CmdSubmit(input) => Submitting(input, FindKey)
    case CmdCancel(input) => Cancelling(input, LockOwnRequest)
    case CmdDecide(input) => Deciding(input, LockRequest)
    case CmdAdjust(input) => Adjusting(input, LockCapacity)
  }

  /** No transaction other than `t` holds the row. */
  predicate FreeFor(s: System, t: TxnId, r: Resource) {
    forall u :: u in s.txns && u != t ==> r !in Held(s.txns[u])
  }

  predicate Free(s: System, r: Resource) {
    forall u :: u in s.txns ==> r !in Held(s.txns[u])
  }

  predicate Enabled(s: System, a: Action) {
    match a
    case Begin(t, _) => t !in s.txns
    case Run(t, c) =>
      && t in s.txns
      && !s.txns[t].Done?
      && (Wants(s.db, s.txns[t]).Some? ==> FreeFor(s, t, Wants(s.db, s.txns[t]).value))
      && (s.txns[t].Submitting? && s.txns[t].spc.Insert? ==> c.id !in s.issued)
    case Abort(t) => t in s.txns && !s.txns[t].Done?
    case CreateGroup(g, row) => g !in s.db.groups && row.capacity >= 0
    case SetGroupActive(g, _) => g in s.db.groups && Free(s, GroupRow(g))
    case PutStudent(st, _) => Free(s, StudentRow(st))
    case SkipArrival => true
  }

  // ---------------------------------------------------------------- statements

  /** SELECT ... WHERE idempotency_key: any matching row (there is at most one). */
  predicate HasKey(db: Store, input: SubmitInput) {
    KeyEntries(db.requests, input.student, input.semester, input.key) != {}
  }

  function FoundByKey(db: Store, input: SubmitInput): Outcome
    requires HasKey(db, input)
  {
    var id := Greatest(KeyEntries(db.requests, input.student, input.semester, input.key));
    Existing(id, db.requests[id])
  }

  function SubmitStep(db: Store, arrivals: nat, input: SubmitInput, pc: SubmitPc, c: Choice): Txn {
    match pc
    case FindKey =>
      if HasKey(db, input) then Done(FoundByKey(db, input)) else Submitting(input, LockGroup)
    case LockGroup =>
      if input.group in db.groups && db.groups[input.group].active then Submitting(input, LockStudent(db.groups[input.group]))
      else Done(Failed(ErrGroupNotFound))
    case LockStudent(g) =>
      if input.student in db.students && db.students[input.student].active then
        Submitting(input, CheckWindow(g, db.students[input.student].shift))
      else Done(Failed(ErrStudentNotFound))
    case CheckWindow(g, shift) =>
      if c.windowOpen then Submitting(input, CountActive(g, shift)) else Done(Failed(ErrWindowClosed))
    case CountActive(g, shift) =>
      (match ValidateSubmissionAllowed(|ActiveOf(db.requests, input.student, input.semester)|)
       case Some(e) => Done(Failed(e))
       case None => Submitting(input, CountSeats(g, shift)))
    case CountSeats(g, shift) =>
      Submitting(input, Insert(g, shift,
        GroupOccupancy(g.capacity, |AcceptedIn(db.requests, input.group)|, |PendingDirectIn(db.requests, input.group)|)))
    case Insert(g, shift, occ) =>
      var (priority, status) := Classify(shift, g.shift, occ);
      var dupKey := HasKey(db, input);
      var dupActive := ActiveEntries(db.requests, input.student, input.semester, input.group) != {};
      if dupKey && (c.keyIndexFirst || !dupActive) then Submitting(input, FindKeyAgain)
      else if dupActive then Done(Failed(ErrDuplicateActiveRequest))
      else Submitting(input, CommitSubmit(c.id,
        Request(input.semester, input.student, g.offering, input.group, shift, g.shift, priority, status, arrivals, input.key)))
    case FindKeyAgain =>
      if HasKey(db, input) then Done(FoundByKey(db, input)) else Done(Failed(ErrDatabase))
    case CommitSubmit(id, row) =>
      Done(SubmitOk(id, row.offering, row.status, row.priority, row.arrival, false))
  }

  function CancelStep(db: Store, input: CancelInput, pc: CancelPc): Txn {
    match pc
    case LockOwnRequest =>
      if input.request !in db.requests then Done(Failed(ErrNotFound))
      else if db.requests[input.request].student != input.student then Done(Failed(ErrForbidden))
      else if db.requests[input.request].status.IsTerminal() then Done(Failed(ErrNotCancelable))
      else Cancelling(input, CommitCancel(db.requests[input.request]))
    case CommitCancel(_) => Done(Committed)
  }

  /** The request row a decision works from, and the group whose seats it counts. */
  function DecideStep(db: Store, input: DecisionInput, pc: DecidePc): Txn {
    match pc
    case LockRequest =>
      if input.request !in db.requests then Done(Failed(ErrRequestNotFound))
      else if input.decision != DecisionCreateGroupAcceptance then
        Deciding(input, LockSeats(db.requests[input.request], db.requests[input.request].group))
      else if input.target.None? then Done(Failed(ErrTargetGroupRequired))
      else Deciding(input, LockTarget(db.requests[input.request]))
    case LockTarget(row) =>
      if input.target.None? || input.target.value !in db.groups then Done(Failed(ErrTargetGroupNotFound))
      else if db.groups[input.target.value].offering != row.offering then Done(Failed(ErrTargetGroupOfferingMismatch))
      else Deciding(input, LockSeats(row, input.target.value))
    case LockSeats(row, gid) =>
      if gid !in db.groups then Done(Failed(ErrNoRows))
      else Deciding(input, CountGroup(row, gid, db.groups[gid].capacity))
    case CountGroup(row, gid, capacity) =>
      Deciding(input, CountStudent(row, gid, capacity, |AcceptedIn(db.requests, gid)|))
    case CountStudent(row, gid, capacity, accepted) =>
      Deciding(input, Update(row, gid, capacity, accepted, |AcceptedOf(db.requests, row.student, row.semester)|))
    case Update(row, gid, capacity, accepted, studentAccepted) =>
      (match Ruling(input, row, capacity, accepted, studentAccepted)
       case Err(e) => Done(Failed(e))
       case Ok(next) =>
         if input.decision == DecisionCreateGroupAcceptance && next.IsActive()
            && ActiveEntries(db.requests, row.student, row.semester, gid) - {input.request} != {} then
           Done(Failed(ErrDuplicateActiveInTargetGroup))
         else Deciding(input, CommitDecide(row, gid, next)))
    case CommitDecide(_, _, _) => Done(Committed)
  }

  function Ruling(input: DecisionInput, row: Request, capacity: int, accepted: nat, studentAccepted: nat)
    : Result<RequestStatus, Error>
  {
    ApplyDecision(input.decision,
      DecisionContext(row.status, input.reason, capacity, accepted, studentAccepted, input.target.Some?))
  }

  function AdjustStep(db: Store, input: AdjustInput, pc: AdjustPc): Txn {
    match pc
    case LockCapacity =>
      if input.group !in db.groups then Done(Failed(ErrNoRows))
      else if input.capacity < 0 then Done(Failed(ErrCheckViolation))
      else Adjusting(input, CommitAdjust(db.groups[input.group]))
    case CommitAdjust(_) => Done(Committed)
  }

  /** Where a transaction stands after its next step. */
  function Advanced(db: Store, arrivals: nat, x: Txn, c: Choice): Txn {
    match x
    case Submitting(input, pc) => SubmitStep(db, arrivals, input, pc, c)
    case Cancelling(input, pc) => CancelStep(db, input, pc)
    case Deciding(input, pc) => DecideStep(db, input, pc)
    case Adjusting(input, pc) => AdjustStep(db, input, pc)
    case Done(_) => x
  }

  /** The store after the buffered writes of a committing transaction are applied. */
  function AfterCommit(db: Store, x: Txn): Store {
    match x
    case Submitting(_, CommitSubmit(id, row)) => SubmitCommitted(db, id, row)
    case Cancelling(input, CommitCancel(row)) =>
      if input.request in db.requests then CancelCommitted(db, input.request, row) else db
    case Deciding(input, CommitDecide(row, gid, next)) =>
      if input.request in db.requests then DecideCommitted(db, input.request, row, input.decision, gid, next) else db
    case Adjusting(input, CommitAdjust(prev)) =>
      if input.group in db.groups then AdjustCommitted(db, input.group, prev.capacity, input.capacity) else db
    case _ => db
  }

  function Next(s: System, a: Action): System
    requires Enabled(s, a)
  {
    match a
    case Begin(t, cmd) => s.(txns := s.txns[t := Started(cmd)])
    case Run(t, c) =>
      var x := s.txns[t];
      var x' := Advanced(s.db, s.arrivals, x, c);
      if x.Submitting? && x.spc.Insert? then
        System(s.db, s.txns[t := x'], s.arrivals + 1, s.issued + {c.id})
      else
        s.(db := AfterCommit(s.db, x), txns := s.txns[t := x'])
    case Abort(t) => s.(txns := s.txns[t := Done(Failed(ErrDatabase))])
    case CreateGroup(g, row) => s.(db := GroupInserted(s.db, g, row))
    case SetGroupActive(g, active) =>
      s.(db := s.db.(groups := s.db.groups[g := s.db.groups[g].(active := active)]))
    case PutStudent(st, person) => s.(db := s.db.(students := s.db.students[st := person]))
    case SkipArrival => s.(arrivals := s.arrivals + 1)
  }

  // ---------------------------------------------------------------- sequences of actions

  /** The state after the actions, if each is enabled in its turn. */
  function Play(s: System, acts: seq<Action>): Option<System>
    decreases |acts|
  {
    if acts == [] then Some(s)
    else if Enabled(s, acts[0]) then Play(Next(s, acts[0]), acts[1..])
    else None
  }

  lemma PlayFirst(s: System, a: Action, rest: seq<Action>)
    requires Enabled(s, a)
    ensures Play(s, [a] + rest) == Play(Next(s, a), rest)
  {
    assert ([a] + rest)[1..] == rest;
  }

  lemma {:induction false} PlayFurther(s: System, acts: seq<Action>, a: Action)
    requires Play(s, acts).Some? && Enabled(Play(s, acts).value, a)
    ensures Play(s, acts + [a]) == Some(Next(Play(s, acts).value, a))
    decreases |acts|
  {
    if acts == [] {
      assert acts + [a] == [a] && [a][1..] == [];
    } else {
      assert (acts + [a])[0] == acts[0] && (acts + [a])[1..] == acts[1..] + [a];
      PlayFurther(Next(s, acts[0]), acts[1..], a);
    }
  }

  /** Some steps lead from the one state to the other. */
  ghost predicate Reached(s: System, s': System) {
    exists acts :: Play(s, acts) == Some(s')
  }

  lemma ReachedSelf(s: System)
    ensures Reached(s, s)
  {
    assert Play(s, []) == Some(s);
  }
}
