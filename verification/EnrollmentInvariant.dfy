/**
 The invariant of the enrollment machine, and why one transaction's step keeps
 what every other transaction has read under its locks.
 */
module EnrollmentInvariant {
  import opened EnrollmentDomain
  import opened EnrollmentStore
  import opened EnrollmentMachine

  // ---------------------------------------------------------------- the committed rows

  /** What a stored or pending row says about itself. */
  predicate RowConsistent(r: Request) {
    && r.status != StatusSubmitted
    && (r.status == StatusWaitlistSameShift ==> r.priority == PriorityWaitlistSameShift)
    && (r.status == StatusWaitlistOppositeShift ==> r.priority == PriorityWaitlistOppositeShift)
    && (r.priority == PriorityDirectSameShift && !r.status.IsTerminal() ==> r.status == StatusPendingReview)
    && (r.priority == PriorityWaitlistOppositeShift <==> r.studentShift != r.groupShift)
  }

  predicate OfferingMatches(db: Store, r: Request) {
    r.group in db.groups && db.groups[r.group].offering == r.offering
  }

  predicate SameKey(a: Request, b: Request) {
    a.student == b.student && a.semester == b.semester && a.key == b.key
  }

  predicate SameSeat(a: Request, b: Request) {
    a.student == b.student && a.semester == b.semester && a.group == b.group
  }

  /** uq_request_idempotency. */
  ghost predicate KeysUnique(rs: Requests) {
    forall i, j :: i in rs && j in rs && SameKey(rs[i], rs[j]) ==> i == j
  }

  /** uq_active_request_per_group. */
  ghost predicate ActiveUnique(rs: Requests) {
    forall i, j :: i in rs && j in rs && SameSeat(rs[i], rs[j]) && rs[i].status.IsActive() && rs[j].status.IsActive() ==> i == j
  }

  ghost predicate ArrivalsUnique(rs: Requests) {
    forall i, j :: i in rs && j in rs && rs[i].arrival == rs[j].arrival ==> i == j
  }

  ghost predicate AtMostFour(rs: Requests) {
    forall st, sem :: |ActiveOf(rs, st, sem)| <= MAX_ELECTIVES_PER_SEMESTER
  }

  ghost predicate CapacitiesOk(db: Store) {
    forall g :: g in db.groups ==> db.groups[g].capacity >= 0
  }

  // ---------------------------------------------------------------- the open transactions

  ghost predicate LocksExclusive(txns: map<TxnId, Txn>) {
    forall t, u :: t in txns && u in txns && t != u ==> Held(txns[t]) !! Held(txns[u])
  }

  predicate GroupIs(db: Store, gid: GroupId, g: Group) {
    gid in db.groups && db.groups[gid] == g
  }

  predicate RequestIs(db: Store, id: RequestId, row: Request) {
    id in db.requests && db.requests[id] == row
  }

  ghost predicate BelowLimit(db: Store, st: StudentId, sem: SemesterId) {
    |ActiveOf(db.requests, st, sem)| < MAX_ELECTIVES_PER_SEMESTER
  }

  ghost predicate SubmitHolds(db: Store, input: SubmitInput, pc: SubmitPc) {
    match pc
    case FindKey | LockGroup | FindKeyAgain => true
    case LockStudent(g) => GroupIs(db, input.group, g)
    case CheckWindow(g, _) => GroupIs(db, input.group, g)
    case CountActive(g, _) => GroupIs(db, input.group, g)
    case CountSeats(g, _) => GroupIs(db, input.group, g) && BelowLimit(db, input.student, input.semester)
    case Insert(g, _, occ) =>
      && GroupIs(db, input.group, g) && BelowLimit(db, input.student, input.semester)
      && occ.capacity == g.capacity
      && |AcceptedIn(db.requests, input.group)| <= occ.acceptedCount
      && |PendingDirectIn(db.requests, input.group)| <= occ.pendingDirectCount
    case CommitSubmit(_, row) =>
      && BelowLimit(db, input.student, input.semester)
      && Submits(input, row)
      && RowConsistent(row) && row.status.IsActive() && row.status != StatusAccepted
      && OfferingMatches(db, row)
      && KeyEntries(db.requests, input.student, input.semester, input.key) == {}
      && ActiveEntries(db.requests, input.student, input.semester, input.group) == {}
      && (IsPendingDirect(row) ==>
            |AcceptedIn(db.requests, input.group)| + |PendingDirectIn(db.requests, input.group)| < db.groups[input.group].capacity)
  }

  /** The group a decision counts: the target of a move, the request's own group otherwise. */
  ghost predicate SeatGroup(db: Store, input: DecisionInput, row: Request, gid: GroupId) {
    && RequestIs(db, input.request, row)
    && gid in db.groups && db.groups[gid].offering == row.offering
    && (if input.decision == DecisionCreateGroupAcceptance then input.target == Some(gid) else gid == row.group)
  }

  ghost predicate DecideHolds(db: Store, input: DecisionInput, pc: DecidePc) {
    match pc
    case LockRequest => true
    case LockTarget(row) => RequestIs(db, input.request, row) && input.decision == DecisionCreateGroupAcceptance
    case LockSeats(row, gid) => SeatGroup(db, input, row, gid)
    case CountGroup(row, gid, capacity) => SeatGroup(db, input, row, gid) && db.groups[gid].capacity == capacity
    case CountStudent(row, gid, capacity, accepted) =>
      && SeatGroup(db, input, row, gid) && db.groups[gid].capacity == capacity
      && |AcceptedIn(db.requests, gid)| <= accepted
    case Update(row, gid, capacity, accepted, studentAccepted) =>
      && SeatGroup(db, input, row, gid) && db.groups[gid].capacity == capacity
      && |AcceptedIn(db.requests, gid)| <= accepted
      && (!row.status.IsTerminal() ==> studentAccepted < MAX_ELECTIVES_PER_SEMESTER)
    case CommitDecide(row, gid, next) =>
      && SeatGroup(db, input, row, gid)
      && MayBecome(row.status, next) && next != StatusCancelledByStudent
      && NamesStatus(input.decision, next)
      && (next == StatusAccepted ==> |AcceptedIn(db.requests, gid)| < db.groups[gid].capacity)
      && (input.decision == DecisionCreateGroupAcceptance ==>
            ActiveEntries(db.requests, row.student, row.semester, gid) - {input.request} == {})
  }

  ghost predicate TxnOk(db: Store, x: Txn) {
    match x
    case Submitting(input, pc) => SubmitHolds(db, input, pc)
    case Cancelling(input, LockOwnRequest) => true
    case Cancelling(input, CommitCancel(row)) =>
      RequestIs(db, input.request, row) && !row.status.IsTerminal() && row.student == input.student
    case Deciding(input, pc) => DecideHolds(db, input, pc)
    case Adjusting(input, LockCapacity) => true
    case Adjusting(input, CommitAdjust(prev)) => GroupIs(db, input.group, prev) && input.capacity >= 0
    case Done(_) => true
  }

  predicate IsPending(x: Txn) {
    x.Submitting? && x.spc.CommitSubmit?
  }

  /** An inserted, uncommitted row has an id and an arrival number no committed row has. */
  ghost predicate PendingFresh(s: System, id: RequestId, row: Request) {
    && id in s.issued && id !in s.db.requests
    && row.arrival < s.arrivals
    && (forall q :: q in s.db.requests ==> s.db.requests[q].arrival != row.arrival)
  }

  ghost predicate PendingsFresh(s: System) {
    forall t :: t in s.txns && IsPending(s.txns[t]) ==> PendingFresh(s, s.txns[t].spc.id, s.txns[t].spc.row)
  }

  /** Nor does any other uncommitted row. */
  ghost predicate PendingsDistinct(txns: map<TxnId, Txn>) {
    forall t, u :: t in txns && u in txns && t != u && IsPending(txns[t]) && IsPending(txns[u]) ==>
      txns[t].spc.id != txns[u].spc.id && txns[t].spc.row.arrival != txns[u].spc.row.arrival
  }

  ghost predicate TxnsOk(s: System) {
    forall t :: t in s.txns ==> TxnOk(s.db, s.txns[t])
  }

  /** What the committed rows satisfy among themselves. */
  ghost predicate StoreOk(db: Store) {
    && CapacitiesOk(db)
    && (forall id :: id in db.requests ==> RowConsistent(db.requests[id]) && OfferingMatches(db, db.requests[id]))
    && KeysUnique(db.requests) && ActiveUnique(db.requests) && ArrivalsUnique(db.requests)
    && AtMostFour(db.requests)
  }

  /** The generators are ahead of every committed row. */
  ghost predicate Generated(s: System) {
    forall id :: id in s.db.requests ==> id in s.issued && s.db.requests[id].arrival < s.arrivals
  }

  ghost predicate Inv(s: System) {
    && StoreOk(s.db) && Generated(s)
    && LocksExclusive(s.txns) && TxnsOk(s)
    && PendingsFresh(s) && PendingsDistinct(s.txns)
  }

  // ---------------------------------------------------------------- stability under other transactions

  /** Nobody else raises a count of a group whose row one holds. */
  ghost predicate GroupStable(db: Store, db': Store, g: GroupId) {
    && (g in db.groups ==> g in db'.groups && db'.groups[g] == db.groups[g])
    && AcceptedIn(db'.requests, g) <= AcceptedIn(db.requests, g)
    && PendingDirectIn(db'.requests, g) <= PendingDirectIn(db.requests, g)
    && (forall st, sem :: ActiveEntries(db'.requests, st, sem, g) <= ActiveEntries(db.requests, st, sem, g))
  }

  /** Nobody else adds to the requests of a student whose row one holds. */
  ghost predicate StudentStable(db: Store, db': Store, st: StudentId) {
    && (forall sem :: ActiveOf(db'.requests, st, sem) <= ActiveOf(db.requests, st, sem))
    && (forall sem, key :: KeyEntries(db'.requests, st, sem, key) <= KeyEntries(db.requests, st, sem, key))
  }

  ghost predicate RequestStable(db: Store, db': Store, id: RequestId) {
    id in db.requests ==> id in db'.requests && db'.requests[id] == db.requests[id]
  }

  /** A group's offering never changes. */
  ghost predicate OfferingsFixed(db: Store, db': Store) {
    forall g :: g in db.groups ==> g in db'.groups && db'.groups[g].offering == db.groups[g].offering
  }

  ghost predicate Stable(db: Store, db': Store, r: Resource) {
    match r
    case RequestRow(id) => RequestStable(db, db', id)
    case GroupRow(g) => GroupStable(db, db', g)
    case StudentRow(st) => StudentStable(db, db', st)
  }

  /** Whatever a transaction has established under its locks survives the others. */
  lemma StableKeepsTxn(x: Txn, db: Store, db': Store)
    requires TxnOk(db, x)
    requires OfferingsFixed(db, db')
    requires forall r :: r in Held(x) ==> Stable(db, db', r)
    ensures TxnOk(db', x)
  {
    match x
    case Submitting(input, pc) =>
      if GroupRow(input.group) in Held(x) {
        assert Stable(db, db', GroupRow(input.group));
        SubsetCardinality(AcceptedIn(db'.requests, input.group), AcceptedIn(db.requests, input.group));
        SubsetCardinality(PendingDirectIn(db'.requests, input.group), PendingDirectIn(db.requests, input.group));
      }
      if StudentRow(input.student) in Held(x) {
        assert Stable(db, db', StudentRow(input.student));
        SubsetCardinality(ActiveOf(db'.requests, input.student, input.semester), ActiveOf(db.requests, input.student, input.semester));
      }
    case Cancelling(input, pc) =>
      if pc.CommitCancel? {
        assert Stable(db, db', RequestRow(input.request));
      }
    case Deciding(input, pc) =>
      if !pc.LockRequest? {
        assert Stable(db, db', RequestRow(input.request));
        if !pc.LockTarget? && !pc.LockSeats? {
          assert Stable(db, db', GroupRow(pc.gid));
          SubsetCardinality(AcceptedIn(db'.requests, pc.gid), AcceptedIn(db.requests, pc.gid));
        }
      }
    case Adjusting(input, pc) =>
      if pc.CommitAdjust? {
        assert Stable(db, db', GroupRow(input.group));
      }
    case Done(_) =>
  }

  /** A commit disturbs no row but the ones its transaction holds. */
  lemma {:induction false} CommitIsStable(db: Store, x: Txn, r: Resource)
    requires TxnOk(db, x) && AtCommit(x)
    requires IsPending(x) ==> x.spc.id !in db.requests
    requires r !in Held(x)
    ensures Stable(db, AfterCommit(db, x), r)
  {
    match x
    case Submitting(_, _) =>
    case Cancelling(_, _) =>
    case Deciding(_, _) => DecideIsStable(db, x, r);
    case Adjusting(_, _) =>
  }

  lemma DecideIsStable(db: Store, x: Txn, r: Resource)
    requires TxnOk(db, x) && AtCommit(x) && x.Deciding? && r !in Held(x)
    ensures Stable(db, AfterCommit(db, x), r)
  {
    assert db.requests[x.decide.request] == x.dpc.row;
    match r
    case RequestRow(_) =>
    case StudentRow(_) =>
    case GroupRow(g) => assert g != x.dpc.gid;
  }

  lemma CommitFixesOfferings(db: Store, x: Txn)
    requires TxnOk(db, x)
    ensures OfferingsFixed(db, AfterCommit(db, x))
  {
  }
}
