/**
 The audit trail: replaying it rebuilds the statuses and capacities, and it
 accounts for every decision row, adjustment row and outbox row.
 */
module EnrollmentTrail {
  import opened EnrollmentDomain
  import opened NotificationOutbox
  import opened EnrollmentStore
  import opened EnrollmentMachine
  import opened EnrollmentInvariant
  import opened EnrollmentSafety
  import opened EnrollmentTheorems

  // ---------------------------------------------------------------- replay

  /** What a reader of the trail knows. */
  datatype Ledger = Ledger(status: map<RequestId, RequestStatus>, capacity: map<GroupId, int>)

  /** Applies one event; None when its recorded previous value contradicts the ledger. */
  function ApplyEvent(l: Ledger, e: Event): Option<Ledger> {
    match e
    case EnrollmentSubmitted(id, _, status, _, _) =>
      if id in l.status then None else Some(l.(status := l.status[id := status]))
    case EnrollmentCancelledByStudent(id, _, previous) =>
      if id in l.status && l.status[id] == previous then Some(l.(status := l.status[id := StatusCancelledByStudent])) else None
    case EnrollmentDecision(id, _, previous, next) =>
      if id in l.status && l.status[id] == previous then Some(l.(status := l.status[id := next])) else None
    case GroupCreated(g, capacity) =>
      if g in l.capacity then None else Some(l.(capacity := l.capacity[g := capacity]))
    case GroupCapacityAdjusted(g, previous, capacity) =>
      if g in l.capacity && l.capacity[g] == previous then Some(l.(capacity := l.capacity[g := capacity])) else None
  }

  function Replay(log: seq<Event>): Option<Ledger> {
    if log == [] then Some(Ledger(map[], map[]))
    else
      match Replay(log[..|log| - 1])
      case None => None
      case Some(l) => ApplyEvent(l, log[|log| - 1])
  }

  lemma ReplaySnoc(log: seq<Event>, e: Event)
    ensures Replay(log + [e]) == (match Replay(log) case None => None case Some(l) => ApplyEvent(l, e))
  {
    assert (log + [e])[..|log + [e]| - 1] == log;
  }

  /** What the tables say now. */
  function LedgerOf(db: Store): Ledger {
    Ledger(map id | id in db.requests :: db.requests[id].status, map g | g in db.groups :: db.groups[g].capacity)
  }

  // ---------------------------------------------------------------- tables derived from the trail

  function DecisionsIn(log: seq<Event>): seq<DecisionRow> {
    if log == [] then []
    else
      var e := log[|log| - 1];
      DecisionsIn(log[..|log| - 1])
      + if e.EnrollmentDecision? then [DecisionRow(e.request, e.decision, e.previous, e.next)] else []
  }

  function AdjustmentsIn(log: seq<Event>): seq<AdjustmentRow> {
    if log == [] then []
    else
      var e := log[|log| - 1];
      AdjustmentsIn(log[..|log| - 1])
      + if e.GroupCapacityAdjusted? then [AdjustmentRow(e.group, e.previousCapacity, e.capacity)] else []
  }

  /** The message an event tells the student who owns the request, if it tells any. */
  function MessageOf(e: Event, rs: Requests): Option<Message> {
    match e
    case EnrollmentSubmitted(id, _, _, _, _) =>
      if id in rs then Some(Message(rs[id].student, RequestSubmitted, id)) else None
    case EnrollmentCancelledByStudent(id, _, _) =>
      if id in rs then Some(Message(rs[id].student, RequestCancelledByStudent, id)) else None
    case EnrollmentDecision(id, dt, _, _) =>
      (match NotifyFor(dt)
       case Some(kind) => if id in rs then Some(Message(rs[id].student, kind, id)) else None
       case None => None)
    case _ => None
  }

  function NoticesFor(e: Event, rs: Requests): seq<Notice> {
    match MessageOf(e, rs)
    case Some(m) => Rows(m)
    case None => []
  }

  function NoticesIn(log: seq<Event>, rs: Requests): seq<Notice> {
    if log == [] then [] else NoticesIn(log[..|log| - 1], rs) + NoticesFor(log[|log| - 1], rs)
  }

  lemma DerivedSnoc(log: seq<Event>, e: Event, rs: Requests)
    ensures NoticesIn(log + [e], rs) == NoticesIn(log, rs) + NoticesFor(e, rs)
    ensures DecisionsIn(log + [e]) == DecisionsIn(log)
              + if e.EnrollmentDecision? then [DecisionRow(e.request, e.decision, e.previous, e.next)] else []
    ensures AdjustmentsIn(log + [e]) == AdjustmentsIn(log)
              + if e.GroupCapacityAdjusted? then [AdjustmentRow(e.group, e.previousCapacity, e.capacity)] else []
  {
    assert (log + [e])[..|log + [e]| - 1] == log;
  }

  predicate Concerns(e: Event, id: RequestId) {
    (e.EnrollmentSubmitted? || e.EnrollmentCancelledByStudent? || e.EnrollmentDecision?) && e.request == id
  }

  /** Every event is about a stored request. */
  ghost predicate EventsStored(log: seq<Event>, rs: Requests) {
    forall i, id :: 0 <= i < |log| && Concerns(log[i], id) ==> id in rs
  }

  /** The owner of a request never changes, so neither do the messages of past events. */
  lemma {:induction false} NoticesKeep(log: seq<Event>, rs: Requests, rs': Requests)
    requires EventsStored(log, rs)
    requires forall id :: id in rs ==> id in rs' && rs'[id].student == rs[id].student
    ensures NoticesIn(log, rs') == NoticesIn(log, rs)
  {
    if log != [] {
      var e := log[|log| - 1];
      NoticesKeep(log[..|log| - 1], rs, rs');
      assert e.EnrollmentSubmitted? || e.EnrollmentCancelledByStudent? || e.EnrollmentDecision? ==> Concerns(e, e.request);
      assert NoticesFor(e, rs') == NoticesFor(e, rs);
    }
  }

  // ---------------------------------------------------------------- the trail accounts for the store

  ghost predicate TrailOk(db: Store) {
    && Replay(db.audit) == Some(LedgerOf(db))
    && db.decisions == DecisionsIn(db.audit)
    && db.adjustments == AdjustmentsIn(db.audit)
    && EventsStored(db.audit, db.requests)
    && db.outbox == NoticesIn(db.audit, db.requests)
  }

  /** One committed event keeps the account if it fits the change it records. */
  lemma EventKeepsTrail(db: Store, db': Store, e: Event)
    requires TrailOk(db) && db'.audit == db.audit + [e]
    requires ApplyEvent(LedgerOf(db), e) == Some(LedgerOf(db'))
    requires db'.decisions == db.decisions
              + if e.EnrollmentDecision? then [DecisionRow(e.request, e.decision, e.previous, e.next)] else []
    requires db'.adjustments == db.adjustments
              + if e.GroupCapacityAdjusted? then [AdjustmentRow(e.group, e.previousCapacity, e.capacity)] else []
    requires db'.outbox == db.outbox + NoticesFor(e, db'.requests)
    requires forall id :: id in db.requests ==> id in db'.requests && db'.requests[id].student == db.requests[id].student
    requires forall id :: Concerns(e, id) ==> id in db'.requests
    ensures TrailOk(db')
  {
    ReplaySnoc(db.audit, e);
    DerivedSnoc(db.audit, e, db'.requests);
    NoticesKeep(db.audit, db.requests, db'.requests);
  }

  lemma SubmitKeepsTrail(db: Store, id: RequestId, row: Request)
    requires TrailOk(db) && id !in db.requests
    ensures TrailOk(SubmitCommitted(db, id, row))
  {
    var db' := SubmitCommitted(db, id, row);
    assert LedgerOf(db') == LedgerOf(db).(status := LedgerOf(db).status[id := row.status]);
    EventKeepsTrail(db, db', EnrollmentSubmitted(id, row.student, row.status, row.priority, row.group));
  }

  lemma CancelKeepsTrail(db: Store, id: RequestId, row: Request)
    requires TrailOk(db) && RequestIs(db, id, row)
    ensures TrailOk(CancelCommitted(db, id, row))
  {
    var db' := CancelCommitted(db, id, row);
    assert LedgerOf(db') == LedgerOf(db).(status := LedgerOf(db).status[id := StatusCancelledByStudent]);
    EventKeepsTrail(db, db', EnrollmentCancelledByStudent(id, row.student, row.status));
  }

  lemma DecideKeepsTrail(db: Store, id: RequestId, row: Request, dt: DecisionType, g: GroupId, next: RequestStatus)
    requires TrailOk(db) && RequestIs(db, id, row)
    ensures TrailOk(DecideCommitted(db, id, row, dt, g, next))
  {
    var db' := DecideCommitted(db, id, row, dt, g, next);
    assert LedgerOf(db') == LedgerOf(db).(status := LedgerOf(db).status[id := next]);
    EventKeepsTrail(db, db', EnrollmentDecision(id, dt, row.status, next));
  }

  lemma AdjustKeepsTrail(db: Store, g: GroupId, prev: Group, capacity: int)
    requires TrailOk(db) && GroupIs(db, g, prev)
    ensures TrailOk(AdjustCommitted(db, g, prev.capacity, capacity))
  {
    var db' := AdjustCommitted(db, g, prev.capacity, capacity);
    assert LedgerOf(db') == LedgerOf(db).(capacity := LedgerOf(db).capacity[g := capacity]);
    EventKeepsTrail(db, db', GroupCapacityAdjusted(g, prev.capacity, capacity));
  }

  lemma CommitKeepsTrail(s: System, t: TxnId)
    requires Inv(s) && TrailOk(s.db) && t in s.txns && AtCommit(s.txns[t])
    ensures TrailOk(AfterCommit(s.db, s.txns[t]))
  {
    assert TxnOk(s.db, s.txns[t]);
    assert IsPending(s.txns[t]) ==> PendingFresh(s, s.txns[t].spc.id, s.txns[t].spc.row);
    match s.txns[t]
    case Submitting(_, CommitSubmit(id, row)) => SubmitKeepsTrail(s.db, id, row);
    case Cancelling(input, CommitCancel(row)) => CancelKeepsTrail(s.db, input.request, row);
    case Deciding(input, CommitDecide(row, gid, next)) => DecideKeepsTrail(s.db, input.request, row, input.decision, gid, next);
    case Adjusting(input, CommitAdjust(prev)) => AdjustKeepsTrail(s.db, input.group, prev, input.capacity);
  }

  lemma StepKeepsTrail(s: System, a: Action)
    requires Inv(s) && TrailOk(s.db) && Enabled(s, a)
    ensures TrailOk(Next(s, a).db)
  {
    var db' := Next(s, a).db;
    match a
    case Run(t, c) =>
      if AtCommit(s.txns[t]) {
        CommitKeepsTrail(s, t);
      } else {
        assert db' == s.db;
      }
    case CreateGroup(g, row) =>
      assert LedgerOf(db') == LedgerOf(s.db).(capacity := LedgerOf(s.db).capacity[g := row.capacity]);
      EventKeepsTrail(s.db, db', GroupCreated(g, row.capacity));
    case SetGroupActive(g, active) =>
      assert LedgerOf(db') == LedgerOf(s.db);
    case _ =>
  }

  /**
   In every reachable state the audit trail replays without contradiction to
   exactly the stored statuses and capacities, and the decision, adjustment and
   outbox tables hold exactly the rows its events call for, in order; a
   transaction that rolled back left none.
   */
  lemma {:induction false} TrailRebuildsStore(ss: seq<System>, acts: seq<Action>, i: nat)
    requires IsRun(ss, acts) && i < |ss|
    ensures TrailOk(ss[i].db)
  {
    if i == 0 {
      assert LedgerOf(ss[0].db) == Ledger(map[], map[]);
    } else {
      TrailRebuildsStore(ss, acts, i - 1);
      RunKeepsInv(ss, acts, i - 1);
      StepKeepsTrail(ss[i - 1], acts[i - 1]);
    }
  }

  // ---------------------------------------------------------------- messages

  /** How many committed events send this message. */
  function Sends(log: seq<Event>, rs: Requests, m: Message): nat {
    if log == [] then 0
    else Sends(log[..|log| - 1], rs, m) + if MessageOf(log[|log| - 1], rs) == Some(m) then 1 else 0
  }

  lemma {:induction false} NoticesPerSend(log: seq<Event>, rs: Requests, m: Message, c: Channel)
    ensures CountOn(NoticesIn(log, rs), m, c) == Sends(log, rs, m)
  {
    if log != [] {
      var e := log[|log| - 1];
      NoticesPerSend(log[..|log| - 1], rs, m, c);
      CountOnAppend(NoticesIn(log[..|log| - 1], rs), NoticesFor(e, rs), m, c);
      OneRowPerChannel(e, rs, m, c);
    }
  }

  lemma OneRowPerChannel(e: Event, rs: Requests, m: Message, c: Channel)
    ensures CountOn(NoticesFor(e, rs), m, c) == if MessageOf(e, rs) == Some(m) then 1 else 0
  {
    match MessageOf(e, rs)
    case None =>
    case Some(m') =>
      CountOnAppend([Notice(m', ChannelInApp)], [Notice(m', ChannelEmail)], m, c);
      assert Rows(m') == [Notice(m', ChannelInApp)] + [Notice(m', ChannelEmail)];
      assert [Notice(m', ChannelInApp)][..0] == [] && [Notice(m', ChannelEmail)][..0] == [];
  }

  function SubmissionsOf(log: seq<Event>, id: RequestId): nat {
    if log == [] then 0
    else SubmissionsOf(log[..|log| - 1], id)
         + if log[|log| - 1].EnrollmentSubmitted? && log[|log| - 1].request == id then 1 else 0
  }

  lemma {:induction false} SubmittedOnce(log: seq<Event>, id: RequestId)
    requires Replay(log).Some?
    ensures SubmissionsOf(log, id) == if id in Replay(log).value.status then 1 else 0
  {
    if log != [] {
      SubmittedOnce(log[..|log| - 1], id);
    }
  }

  lemma {:induction false} SendsOfSubmission(log: seq<Event>, rs: Requests, id: RequestId)
    requires id in rs
    ensures Sends(log, rs, Message(rs[id].student, RequestSubmitted, id)) == SubmissionsOf(log, id)
  {
    if log != [] {
      SendsOfSubmission(log[..|log| - 1], rs, id);
    }
  }

  /**
   Each message is in the outbox once per channel for every committed event
   that sends it; in particular each stored request was announced exactly once
   on each channel.
   */
  lemma OutboxMatchesTrail(ss: seq<System>, acts: seq<Action>, i: nat, m: Message, c: Channel)
    requires IsRun(ss, acts) && i < |ss|
    ensures CountOn(ss[i].db.outbox, m, c) == Sends(ss[i].db.audit, ss[i].db.requests, m)
    ensures m.kind == RequestSubmitted && m.request in ss[i].db.requests
              && m.recipient == ss[i].db.requests[m.request].student ==>
            CountOn(ss[i].db.outbox, m, c) == 1
  {
    var db := ss[i].db;
    TrailRebuildsStore(ss, acts, i);
    NoticesPerSend(db.audit, db.requests, m, c);
    if m.kind == RequestSubmitted && m.request in db.requests && m.recipient == db.requests[m.request].student {
      SubmittedOnce(db.audit, m.request);
      SendsOfSubmission(db.audit, db.requests, m.request);
    }
  }

  // ---------------------------------------------------------------- arrival order

  /** The event is a submission to the group, of a stored request. */
  predicate SubmittedTo(db: Store, e: Event, g: GroupId) {
    e.EnrollmentSubmitted? && e.group == g && e.request in db.requests
  }

  /** Arrival numbers of one group's submissions, in the order they were committed. */
  ghost predicate ArrivalsFollowCommits(db: Store) {
    forall g, i, j :: 0 <= i < j < |db.audit| && SubmittedTo(db, db.audit[i], g) && SubmittedTo(db, db.audit[j], g)
      ==> db.requests[db.audit[i].request].arrival < db.requests[db.audit[j].request].arrival
  }

  /** An uncommitted row has a later arrival number than all committed submissions to its group. */
  ghost predicate LatestInGroup(db: Store, row: Request) {
    forall i :: 0 <= i < |db.audit| && SubmittedTo(db, db.audit[i], row.group)
      ==> db.requests[db.audit[i].request].arrival < row.arrival
  }

  ghost predicate OrderInv(s: System) {
    && EventsStored(s.db.audit, s.db.requests)
    && ArrivalsFollowCommits(s.db)
    && forall t :: t in s.txns && IsPending(s.txns[t]) ==> LatestInGroup(s.db, s.txns[t].spc.row)
  }

  ghost predicate ArrivalsKept(rs: Requests, rs': Requests) {
    forall id :: id in rs ==> id in rs' && rs'[id].arrival == rs[id].arrival
  }

  lemma SubmissionsAreStored(db: Store, i: nat)
    requires EventsStored(db.audit, db.requests) && i < |db.audit| && db.audit[i].EnrollmentSubmitted?
    ensures db.audit[i].request in db.requests
  {
    assert Concerns(db.audit[i], db.audit[i].request);
  }

  /** Appending an event that is no submission to the row's group. */
  lemma AppendKeepsLatest(db: Store, db': Store, e: Event, row: Request)
    requires LatestInGroup(db, row) && EventsStored(db.audit, db.requests)
    requires ArrivalsKept(db.requests, db'.requests)
    requires db'.audit == db.audit + [e]
    requires e.EnrollmentSubmitted? ==> e.group != row.group
    ensures LatestInGroup(db', row)
  {
    forall i | 0 <= i < |db'.audit| && SubmittedTo(db', db'.audit[i], row.group)
      ensures db'.requests[db'.audit[i].request].arrival < row.arrival
    {
      assert i < |db.audit|;
      SubmissionsAreStored(db, i);
      assert SubmittedTo(db, db.audit[i], row.group);
    }
  }

  /** Appending an event that, if it is a submission, has the latest number of its group. */
  lemma AppendKeepsOrder(db: Store, db': Store, e: Event)
    requires ArrivalsFollowCommits(db) && EventsStored(db.audit, db.requests)
    requires ArrivalsKept(db.requests, db'.requests)
    requires db'.audit == db.audit + [e]
    requires e.EnrollmentSubmitted? ==>
      e.request in db'.requests && e.group == db'.requests[e.request].group && LatestInGroup(db, db'.requests[e.request])
    ensures ArrivalsFollowCommits(db')
  {
    forall g, i, j | 0 <= i < j < |db'.audit| && SubmittedTo(db', db'.audit[i], g) && SubmittedTo(db', db'.audit[j], g)
      ensures db'.requests[db'.audit[i].request].arrival < db'.requests[db'.audit[j].request].arrival
    {
      SubmissionsAreStored(db, i);
      assert SubmittedTo(db, db.audit[i], g);
      if j < |db.audit| {
        SubmissionsAreStored(db, j);
        assert SubmittedTo(db, db.audit[j], g);
      }
    }
  }

  /** The event a step commits, if it commits one. */
  function EventOf(s: System, a: Action): Option<Event>
    requires Enabled(s, a)
  {
    match a
    case Run(t, _) =>
      (match s.txns[t]
       case Submitting(_, CommitSubmit(id, row)) =>
         Some(EnrollmentSubmitted(id, row.student, row.status, row.priority, row.group))
       case Cancelling(input, CommitCancel(row)) => Some(EnrollmentCancelledByStudent(input.request, row.student, row.status))
       case Deciding(input, CommitDecide(row, _, next)) => Some(EnrollmentDecision(input.request, input.decision, row.status, next))
       case Adjusting(input, CommitAdjust(prev)) => Some(GroupCapacityAdjusted(input.group, prev.capacity, input.capacity))
       case _ => None)
    case CreateGroup(g, row) => Some(GroupCreated(g, row.capacity))
    case _ => None
  }

  lemma StepAppends(s: System, a: Action)
    requires Inv(s) && Enabled(s, a)
    ensures Next(s, a).db.audit == s.db.audit + (match EventOf(s, a) case Some(e) => [e] case None => [])
  {
    if a.Run? {
      assert TxnOk(s.db, s.txns[a.t]);
    }
  }

  lemma StepKeepsArrivals(s: System, a: Action)
    requires Inv(s) && Enabled(s, a)
    ensures ArrivalsKept(s.db.requests, Next(s, a).db.requests)
  {
    forall id | id in s.db.requests
      ensures id in Next(s, a).db.requests && Next(s, a).db.requests[id].arrival == s.db.requests[id].arrival
    {
      StepKeepsRequests(s, a, id);
    }
  }

  /** Two transactions never insert into one group at once. */
  lemma OneInserterPerGroup(s: System, t: TxnId, u: TxnId)
    requires Inv(s) && t in s.txns && u in s.txns && t != u && IsPending(s.txns[t]) && IsPending(s.txns[u])
    ensures s.txns[t].spc.row.group != s.txns[u].spc.row.group
  {
    assert TxnOk(s.db, s.txns[t]) && TxnOk(s.db, s.txns[u]);
    assert GroupRow(s.txns[t].submit.group) in Held(s.txns[t]) && GroupRow(s.txns[u].submit.group) in Held(s.txns[u]);
  }

  lemma PendingStaysLatest(s: System, a: Action, u: TxnId)
    requires Inv(s) && OrderInv(s) && Enabled(s, a)
    requires u in s.txns && IsPending(s.txns[u]) && (a.Run? ==> a.t != u)
    ensures LatestInGroup(Next(s, a).db, s.txns[u].spc.row)
  {
    StepAppends(s, a);
    StepKeepsArrivals(s, a);
    var row := s.txns[u].spc.row;
    match EventOf(s, a)
    case Some(e) =>
      if a.Run? && IsPending(s.txns[a.t]) {
        OneInserterPerGroup(s, a.t, u);
      }
      AppendKeepsLatest(s.db, Next(s, a).db, e, row);
    case None =>
      assert Next(s, a).db.audit == s.db.audit;
      forall i | 0 <= i < |s.db.audit| && SubmittedTo(Next(s, a).db, s.db.audit[i], row.group)
        ensures Next(s, a).db.requests[s.db.audit[i].request].arrival < row.arrival
      {
        SubmissionsAreStored(s.db, i);
        assert SubmittedTo(s.db, s.db.audit[i], row.group);
      }
  }

  /** INSERT draws a number later than all that are committed. */
  lemma InsertedIsLatest(s: System, t: TxnId, c: Choice)
    requires Inv(s) && Enabled(s, Run(t, c)) && !AtCommit(s.txns[t])
    requires IsPending(Next(s, Run(t, c)).txns[t])
    ensures Next(s, Run(t, c)).db == s.db
    ensures LatestInGroup(s.db, Next(s, Run(t, c)).txns[t].spc.row)
  {
    IsInsert(s.db, s.arrivals, s.txns[t], c);
  }

  lemma StepKeepsOrder(s: System, a: Action)
    requires Inv(s) && TrailOk(s.db) && OrderInv(s) && Enabled(s, a)
    ensures OrderInv(Next(s, a))
  {
    var s' := Next(s, a);
    StepKeepsTrail(s, a);
    StepKeepsCommitOrder(s, a);
    forall u | u in s'.txns && IsPending(s'.txns[u]) ensures LatestInGroup(s'.db, s'.txns[u].spc.row) {
      if a.Run? && a.t == u {
        if !AtCommit(s.txns[u]) {
          InsertedIsLatest(s, u, a.choice);
        }
      } else {
        PendingStaysLatest(s, a, u);
      }
    }
  }

  lemma StepKeepsCommitOrder(s: System, a: Action)
    requires Inv(s) && OrderInv(s) && Enabled(s, a)
    ensures ArrivalsFollowCommits(Next(s, a).db)
  {
    var s' := Next(s, a);
    StepAppends(s, a);
    StepKeepsArrivals(s, a);
    match EventOf(s, a)
    case Some(e) =>
      assert e.EnrollmentSubmitted? ==> a.Run? && IsPending(s.txns[a.t]) && s'.db.requests[e.request] == s.txns[a.t].spc.row;
      AppendKeepsOrder(s.db, s'.db, e);
    case None =>
      forall g, i, j | 0 <= i < j < |s.db.audit| && SubmittedTo(s'.db, s.db.audit[i], g) && SubmittedTo(s'.db, s.db.audit[j], g)
        ensures s'.db.requests[s.db.audit[i].request].arrival < s'.db.requests[s.db.audit[j].request].arrival
      {
        SubmissionsAreStored(s.db, i);
        SubmissionsAreStored(s.db, j);
        assert SubmittedTo(s.db, s.db.audit[i], g) && SubmittedTo(s.db, s.db.audit[j], g);
      }
  }

  /**
   Within a group, the official arrival order is the order in which the
   submissions were committed, despite rollbacks and gaps in the sequence.
   */
  lemma {:induction false} ArrivalOrderIsCommitOrder(ss: seq<System>, acts: seq<Action>, i: nat)
    requires IsRun(ss, acts) && i < |ss|
    ensures OrderInv(ss[i])
  {
    if i > 0 {
      ArrivalOrderIsCommitOrder(ss, acts, i - 1);
      RunKeepsInv(ss, acts, i - 1);
      TrailRebuildsStore(ss, acts, i - 1);
      StepKeepsOrder(ss[i - 1], acts[i - 1]);
    }
  }

  // ---------------------------------------------------------------- what decisions did and what was told

  /** The decision led to its own status, along the lifecycle, and its message names that status. */
  predicate DecidedAndTold(e: Event) {
    e.EnrollmentDecision? ==>
      NamesStatus(e.decision, e.next) && MayBecome(e.previous, e.next) && TellsStatus(NotifyFor(e.decision), e.next)
  }

  ghost predicate AllDecidedAndTold(log: seq<Event>) {
    forall i :: 0 <= i < |log| ==> DecidedAndTold(log[i])
  }

  lemma EventIsTold(s: System, a: Action)
    requires Inv(s) && Enabled(s, a) && EventOf(s, a).Some?
    ensures DecidedAndTold(EventOf(s, a).value)
  {
    var e := EventOf(s, a).value;
    if e.EnrollmentDecision? {
      assert TxnOk(s.db, s.txns[a.t]);
      MessageNamesOutcome(e.decision, e.next);
    }
  }

  lemma StepDecidesAndTells(s: System, a: Action)
    requires Inv(s) && Enabled(s, a) && AllDecidedAndTold(s.db.audit)
    ensures AllDecidedAndTold(Next(s, a).db.audit)
  {
    StepAppends(s, a);
    if EventOf(s, a).Some? {
      EventIsTold(s, a);
    }
  }

  /**
   In every run each decision on the trail led to the status it names and no
   other decision does, never back from a settled status, and the message it
   sends names that status; only a move to review is silent.
   */
  lemma {:induction false} DecisionsAreToldAsDecided(ss: seq<System>, acts: seq<Action>, n: nat)
    requires IsRun(ss, acts) && n < |ss|
    ensures AllDecidedAndTold(ss[n].db.audit)
  {
    if n > 0 {
      DecisionsAreToldAsDecided(ss, acts, n - 1);
      RunKeepsInv(ss, acts, n - 1);
      StepDecidesAndTells(ss[n - 1], acts[n - 1]);
    }
  }

  // ---------------------------------------------------------------- which group a request sits in

  /** The group a request was submitted to: the only group the trail names for it. */
  function SubmittedGroup(log: seq<Event>, id: RequestId): Option<GroupId> {
    if log == [] then None
    else
      var e := log[|log| - 1];
      if e.EnrollmentSubmitted? && e.request == id then Some(e.group) else SubmittedGroup(log[..|log| - 1], id)
  }

  lemma SubmittedGroupSnoc(log: seq<Event>, e: Event, id: RequestId)
    ensures SubmittedGroup(log + [e], id) ==
      if e.EnrollmentSubmitted? && e.request == id then Some(e.group) else SubmittedGroup(log, id)
  {
    assert (log + [e])[..|log + [e]| - 1] == log;
  }

  /** The step commits a create-group acceptance of the request. */
  predicate AcceptsByCreateGroup(s: System, a: Action, id: RequestId) {
    && a.Run? && a.t in s.txns && s.txns[a.t].Deciding? && AtCommit(s.txns[a.t])
    && s.txns[a.t].decide.request == id && s.txns[a.t].decide.decision == DecisionCreateGroupAcceptance
  }

  /** The target it names is not the group the request sits in already. */
  predicate MovesAway(s: System, a: Action, id: RequestId) {
    AcceptsByCreateGroup(s, a, id) && s.txns[a.t].dpc.gid != s.txns[a.t].dpc.row.group
  }

  /** One of the first n steps moved the request. */
  ghost predicate Moved(ss: seq<System>, acts: seq<Action>, n: nat, id: RequestId)
    requires n <= |acts| && n <= |ss|
  {
    n > 0 && (MovesAway(ss[n - 1], acts[n - 1], id) || Moved(ss, acts, n - 1, id))
  }

  lemma GroupStep(s: System, a: Action, id: RequestId)
    requires Inv(s) && Enabled(s, a) && id in s.db.requests
    ensures id in Next(s, a).db.requests
    ensures Next(s, a).db.requests[id].group == if AcceptsByCreateGroup(s, a, id) then s.txns[a.t].dpc.gid else s.db.requests[id].group
    ensures AcceptsByCreateGroup(s, a, id) ==>
      && s.txns[a.t].dpc.row == s.db.requests[id]
      && !s.db.requests[id].status.IsTerminal() && Next(s, a).db.requests[id].status.IsTerminal()
    ensures s.db.requests[id].status.IsTerminal() ==> Next(s, a).db.requests[id].status.IsTerminal()
  {
    StepKeepsRequests(s, a, id);
    if a.Run? {
      assert TxnOk(s.db, s.txns[a.t]);
      assert IsPending(s.txns[a.t]) ==> PendingFresh(s, s.txns[a.t].spc.id, s.txns[a.t].spc.row);
    }
  }

  /** A request that appears was inserted into the group its event names. */
  lemma NewcomerStep(s: System, a: Action, id: RequestId)
    requires Inv(s) && Enabled(s, a) && id !in s.db.requests && id in Next(s, a).db.requests
    ensures EventOf(s, a).Some? && EventOf(s, a).value.EnrollmentSubmitted? && EventOf(s, a).value.request == id
    ensures Next(s, a).db.requests[id].group == EventOf(s, a).value.group
  {
    assert TxnOk(s.db, s.txns[a.t]);
  }

  lemma NoSecondSubmission(s: System, a: Action, id: RequestId)
    requires Inv(s) && Enabled(s, a) && id in s.db.requests
    ensures SubmittedGroup(Next(s, a).db.audit, id) == SubmittedGroup(s.db.audit, id)
  {
    StepAppends(s, a);
    match EventOf(s, a)
    case Some(e) =>
      if a.Run? && IsPending(s.txns[a.t]) {
        assert PendingFresh(s, s.txns[a.t].spc.id, s.txns[a.t].spc.row);
      }
      SubmittedGroupSnoc(s.db.audit, e, id);
    case None =>
      assert Next(s, a).db.audit == s.db.audit;
  }

  lemma {:induction false} MovedIsStored(ss: seq<System>, acts: seq<Action>, n: nat, id: RequestId)
    requires IsRun(ss, acts) && n < |ss| && Moved(ss, acts, n, id)
    ensures id in ss[n].db.requests
  {
    RunKeepsInv(ss, acts, n - 1);
    var s, a := ss[n - 1], acts[n - 1];
    if MovesAway(s, a, id) {
      assert TxnOk(s.db, s.txns[a.t]);
    } else {
      MovedIsStored(ss, acts, n - 1, id);
    }
    GroupStep(s, a, id);
  }

  /**
   In every run a stored request sits in the group it was submitted to, as the
   trail says, if and only if no create-group acceptance has named another
   group for it: the trail does not record that group.
   */
  lemma {:induction false} SubmittedGroupHoldsExactlyWhen(ss: seq<System>, acts: seq<Action>, n: nat, id: RequestId)
    requires IsRun(ss, acts) && n < |ss| && id in ss[n].db.requests
    ensures SubmittedGroup(ss[n].db.audit, id).Some?
    ensures ss[n].db.requests[id].group == SubmittedGroup(ss[n].db.audit, id).value <==> !Moved(ss, acts, n, id)
    ensures Moved(ss, acts, n, id) ==> ss[n].db.requests[id].status.IsTerminal()
  {
    if n > 0 {
      var s, a := ss[n - 1], acts[n - 1];
      RunKeepsInv(ss, acts, n - 1);
      if id in s.db.requests {
        SubmittedGroupHoldsExactlyWhen(ss, acts, n - 1, id);
        GroupStep(s, a, id);
        NoSecondSubmission(s, a, id);
      } else {
        if Moved(ss, acts, n - 1, id) {
          MovedIsStored(ss, acts, n - 1, id);
        }
        NewcomerStep(s, a, id);
        StepAppends(s, a);
        SubmittedGroupSnoc(s.db.audit, EventOf(s, a).value, id);
      }
    }
  }

  /** The trail records a create-group acceptance of the request. */
  predicate RecordsMove(log: seq<Event>, id: RequestId) {
    exists i :: 0 <= i < |log| && IsMoveOf(log[i], id)
  }

  predicate IsMoveOf(e: Event, id: RequestId) {
    e.EnrollmentDecision? && e.request == id && e.decision == DecisionCreateGroupAcceptance
  }

  lemma {:induction false} MovesAreRecorded(ss: seq<System>, acts: seq<Action>, n: nat, id: RequestId)
    requires IsRun(ss, acts) && n < |ss| && Moved(ss, acts, n, id)
    ensures RecordsMove(ss[n].db.audit, id)
  {
    var s, a := ss[n - 1], acts[n - 1];
    RunKeepsInv(ss, acts, n - 1);
    StepAppends(s, a);
    if MovesAway(s, a, id) {
      assert IsMoveOf(ss[n].db.audit[|s.db.audit|], id);
    } else {
      MovesAreRecorded(ss, acts, n - 1, id);
      var i :| 0 <= i < |s.db.audit| && IsMoveOf(s.db.audit[i], id);
      assert ss[n].db.audit[i] == s.db.audit[i];
    }
  }

  /** A trail without a create-group acceptance of a request determines its group, over all runs that leave this trail. */
  lemma TrailWithoutMoveTellsGroup(ss: seq<System>, acts: seq<Action>, n: nat, ss': seq<System>, acts': seq<Action>, n': nat,
                                   id: RequestId)
    requires IsRun(ss, acts) && n < |ss| && IsRun(ss', acts') && n' < |ss'|
    requires ss[n].db.audit == ss'[n'].db.audit && !RecordsMove(ss[n].db.audit, id)
    requires id in ss[n].db.requests
    ensures id in ss'[n'].db.requests && ss'[n'].db.requests[id].group == ss[n].db.requests[id].group
    ensures SubmittedGroup(ss[n].db.audit, id) == Some(ss[n].db.requests[id].group)
  {
    TrailRebuildsStore(ss, acts, n);
    TrailRebuildsStore(ss', acts', n');
    assert id in LedgerOf(ss[n].db).status && id in LedgerOf(ss'[n'].db).status;
    if Moved(ss, acts, n, id) {
      MovesAreRecorded(ss, acts, n, id);
    }
    if Moved(ss', acts', n', id) {
      MovesAreRecorded(ss', acts', n', id);
    }
    SubmittedGroupHoldsExactlyWhen(ss, acts, n, id);
    SubmittedGroupHoldsExactlyWhen(ss', acts', n', id);
  }
}
