/**
 The committed tables behind enrollment, the counts the transactions read from
 them, and the four committed changes.
 */
module EnrollmentStore {
  import opened EnrollmentDomain
  import opened NotificationOutbox

  type Uuid = nat
  type RequestId = Uuid
  type GroupId = Uuid
  type StudentId = Uuid
  type SemesterId = Uuid
  type OfferingId = Uuid

  datatype Group = Group(offering: OfferingId, shift: Shift, capacity: int, active: bool)

  datatype Student = Student(shift: Shift, active: bool)

  datatype Request = Request(
    semester: SemesterId,
    student: StudentId,
    offering: OfferingId,
    group: GroupId,
    studentShift: Shift,
    groupShift: Shift,
    priority: PriorityGroup,
    status: RequestStatus,
    arrival: nat,
    key: string)

  /** Rows of audit_events that concern requests and capacities. */
  datatype Event =
    | EnrollmentSubmitted(request: RequestId, student: StudentId, status: RequestStatus,
                          priority: PriorityGroup, group: GroupId)
    | EnrollmentCancelledByStudent(request: RequestId, student: StudentId, previous: RequestStatus)
    | EnrollmentDecision(request: RequestId, decision: DecisionType, previous: RequestStatus, next: RequestStatus)
    | GroupCreated(group: GroupId, capacity: int)
    | GroupCapacityAdjusted(group: GroupId, previousCapacity: int, capacity: int)

  /** Rows of enrollment_decisions. */
  datatype DecisionRow = DecisionRow(request: RequestId, decision: DecisionType,
                                     previous: RequestStatus, next: RequestStatus)

  /** Rows of group_capacity_adjustments. */
  datatype AdjustmentRow = AdjustmentRow(group: GroupId, previous: int, capacity: int)

  type Requests = map<RequestId, Request>

  datatype Store = Store(
    groups: map<GroupId, Group>,
    students: map<StudentId, Student>,
    requests: Requests,
    audit: seq<Event>,
    decisions: seq<DecisionRow>,
    adjustments: seq<AdjustmentRow>,
    outbox: seq<Notice>)

  const EMPTY_STORE := Store(map[], map[], map[], [], [], [], [])

  // ---------------------------------------------------------------- what the SELECTs count

  /** A student's active requests in a semester. */
  function ActiveOf(rs: Requests, st: StudentId, sem: SemesterId): set<RequestId> {
    set id | id in rs && rs[id].student == st && rs[id].semester == sem && rs[id].status.IsActive()
  }

  /** A student's accepted requests in a semester. */
  function AcceptedOf(rs: Requests, st: StudentId, sem: SemesterId): set<RequestId> {
    set id | id in rs && rs[id].student == st && rs[id].semester == sem && rs[id].status == StatusAccepted
  }

  function AcceptedIn(rs: Requests, g: GroupId): set<RequestId> {
    set id | id in rs && rs[id].group == g && rs[id].status == StatusAccepted
  }

  predicate IsPendingDirect(r: Request) {
    r.status == StatusPendingReview && r.priority == PriorityDirectSameShift
  }

  function PendingDirectIn(rs: Requests, g: GroupId): set<RequestId> {
    set id | id in rs && rs[id].group == g && IsPendingDirect(rs[id])
  }

  predicate HoldsSeat(r: Request, g: GroupId) {
    r.group == g && (r.status == StatusAccepted || IsPendingDirect(r))
  }

  /** The direct seats of a group that are spoken for. */
  function TakenIn(rs: Requests, g: GroupId): set<RequestId> {
    set id | id in rs && HoldsSeat(rs[id], g)
  }

  /** The rows of the partial unique index uq_active_request_per_group under one key. */
  function ActiveEntries(rs: Requests, st: StudentId, sem: SemesterId, g: GroupId): set<RequestId> {
    set id | id in rs && rs[id].student == st && rs[id].semester == sem && rs[id].group == g && rs[id].status.IsActive()
  }

  /** The rows of the unique index uq_request_idempotency under one key. */
  function KeyEntries(rs: Requests, st: StudentId, sem: SemesterId, key: string): set<RequestId> {
    set id | id in rs && rs[id].student == st && rs[id].semester == sem && rs[id].key == key
  }

  /** What one student's requests in one semester look like. */
  function View(rs: Requests, st: StudentId, sem: SemesterId): Requests {
    map id | id in rs && rs[id].student == st && rs[id].semester == sem :: rs[id]
  }

  /** The two occupancy counts are disjoint, so the seats taken are their sum. */
  lemma TakenIsSum(rs: Requests, g: GroupId)
    ensures |TakenIn(rs, g)| == |AcceptedIn(rs, g)| + |PendingDirectIn(rs, g)|
  {
    assert AcceptedIn(rs, g) !! PendingDirectIn(rs, g);
    assert TakenIn(rs, g) == AcceptedIn(rs, g) + PendingDirectIn(rs, g);
  }

  lemma {:induction false} SubsetCardinality<T>(a: set<T>, b: set<T>)
    requires a <= b
    ensures |a| <= |b|
  {
    if a != {} {
      var x :| x in a;
      SubsetCardinality(a - {x}, b - {x});
    }
  }

  lemma SetWithOrWithout(a: set<RequestId>, b: set<RequestId>, id: RequestId, with: bool)
    requires b == if with then a + {id} else a - {id}
    ensures |b| == |a| + (if with then 1 else 0) - (if id in a then 1 else 0)
  {
    assert a == if id in a then (a - {id}) + {id} else a - {id};
    assert b == if with then (a - {id}) + {id} else a - {id};
  }

  lemma AcceptedAfterWrite(rs: Requests, id: RequestId, row: Request, g: GroupId)
    ensures |AcceptedIn(rs[id := row], g)| ==
              |AcceptedIn(rs, g)|
              + (if row.group == g && row.status == StatusAccepted then 1 else 0)
              - (if id in AcceptedIn(rs, g) then 1 else 0)
  {
    var a, b, with := AcceptedIn(rs, g), AcceptedIn(rs[id := row], g), row.group == g && row.status == StatusAccepted;
    assert b == if with then a + {id} else a - {id};
    SetWithOrWithout(a, b, id, with);
  }

  lemma TakenAfterWrite(rs: Requests, id: RequestId, row: Request, g: GroupId)
    ensures |TakenIn(rs[id := row], g)| ==
              |TakenIn(rs, g)| + (if HoldsSeat(row, g) then 1 else 0) - (if id in TakenIn(rs, g) then 1 else 0)
  {
    var a, b, with := TakenIn(rs, g), TakenIn(rs[id := row], g), HoldsSeat(row, g);
    assert b == if with then a + {id} else a - {id};
    SetWithOrWithout(a, b, id, with);
  }

  lemma ActiveAfterInsert(rs: Requests, id: RequestId, row: Request, st: StudentId, sem: SemesterId)
    requires id !in rs
    ensures |ActiveOf(rs[id := row], st, sem)| <=
              |ActiveOf(rs, st, sem)| + (if row.student == st && row.semester == sem then 1 else 0)
  {
    var a, b, with := ActiveOf(rs, st, sem), ActiveOf(rs[id := row], st, sem),
      row.student == st && row.semester == sem && row.status.IsActive();
    assert b == if with then a + {id} else a - {id};
    SetWithOrWithout(a, b, id, with);
  }

  lemma {:induction false} MaxExists(s: set<nat>)
    requires s != {}
    ensures exists m :: m in s && forall n :: n in s ==> n <= m
  {
    var x :| x in s;
    if s - {x} == {} {
      assert s == {x};
    } else {
      MaxExists(s - {x});
      var m :| m in s - {x} && forall n :: n in s - {x} ==> n <= m;
      var top := if m < x then x else m;
      assert top in s;
      forall n | n in s ensures n <= top {
        assert n == x || n in s - {x};
      }
    }
  }

  function Greatest(s: set<nat>): (m: nat)
    requires s != {}
    ensures m in s && forall n :: n in s ==> n <= m
  {
    MaxExists(s);
    var m :| m in s && forall n :: n in s ==> n <= m;
    m
  }

  /** A number not used yet. */
  function Unused(used: set<nat>): (n: nat)
    ensures n !in used
  {
    if used == {} then 0 else Greatest(used) + 1
  }

  // ---------------------------------------------------------------- the committed changes

  function SubmitCommitted(db: Store, id: RequestId, row: Request): Store {
    db.(requests := db.requests[id := row],
        audit := db.audit + [EnrollmentSubmitted(id, row.student, row.status, row.priority, row.group)],
        outbox := db.outbox + Rows(Message(row.student, RequestSubmitted, id)))
  }

  /** `row` is the request as the transaction read it under its lock. */
  function CancelCommitted(db: Store, id: RequestId, row: Request): Store
    requires id in db.requests
  {
    db.(requests := db.requests[id := db.requests[id].(status := StatusCancelledByStudent)],
        audit := db.audit + [EnrollmentCancelledByStudent(id, row.student, row.status)],
        outbox := db.outbox + Rows(Message(row.student, RequestCancelledByStudent, id)))
  }

  /** Which message a decision sends; MOVE_TO_REVIEW is silent. */
  function NotifyFor(dt: DecisionType): Option<NoticeType> {
    if dt.IsAcceptance() then Some(RequestAccepted)
    else if dt == DecisionReject then Some(RequestRejected)
    else if dt == DecisionAdminCancel then Some(RequestCancelledByAdmin)
    else None
  }

  /** The message, if any, names the status. */
  predicate TellsStatus(told: Option<NoticeType>, next: RequestStatus) {
    && (told == Some(RequestAccepted) <==> next == StatusAccepted)
    && (told == Some(RequestRejected) <==> next == StatusRejected)
    && (told == Some(RequestCancelledByAdmin) <==> next == StatusCancelledByAdmin)
    && (told == None <==> next == StatusPendingReview)
  }

  lemma MessageNamesOutcome(dt: DecisionType, next: RequestStatus)
    requires NamesStatus(dt, next)
    ensures TellsStatus(NotifyFor(dt), next)
  {
  }

  function DecideCommitted(db: Store, id: RequestId, row: Request, dt: DecisionType,
                           g: GroupId, next: RequestStatus): Store
    requires id in db.requests
  {
    var updated :=
      if dt == DecisionCreateGroupAcceptance then db.requests[id].(status := next, group := g)
      else db.requests[id].(status := next);
    db.(requests := db.requests[id := updated],
        audit := db.audit + [EnrollmentDecision(id, dt, row.status, next)],
        decisions := db.decisions + [DecisionRow(id, dt, row.status, next)],
        outbox := db.outbox +
          match NotifyFor(dt)
          case Some(kind) => Rows(Message(row.student, kind, id))
          case None => [])
  }

  function AdjustCommitted(db: Store, g: GroupId, prev: int, capacity: int): Store
    requires g in db.groups
  {
    db.(groups := db.groups[g := db.groups[g].(capacity := capacity)],
        audit := db.audit + [GroupCapacityAdjusted(g, prev, capacity)],
        adjustments := db.adjustments + [AdjustmentRow(g, prev, capacity)])
  }

  function GroupInserted(db: Store, g: GroupId, group: Group): Store {
    db.(groups := db.groups[g := group],
        audit := db.audit + [GroupCreated(g, group.capacity)])
  }
}
