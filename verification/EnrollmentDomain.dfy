/**
 The pure rules of the enrollment context: request lifecycle, priority
 classification and validation of administrative decisions.
 */
module EnrollmentDomain {

  datatype Result<+T, +E> = Ok(value: T) | Err(error: E)

  datatype Option<+T> = None | Some(value: T)

  datatype Shift = ShiftDay | ShiftNight

  datatype PriorityGroup =
    | PriorityDirectSameShift
    | PriorityWaitlistSameShift
    | PriorityWaitlistOppositeShift

  datatype RequestStatus =
    | StatusSubmitted
    | StatusPendingReview
    | StatusWaitlistSameShift
    | StatusWaitlistOppositeShift
    | StatusAccepted
    | StatusRejected
    | StatusCancelledByStudent
    | StatusCancelledByAdmin
  {
    /** The request still occupies a position. */
    predicate IsActive() {
      match this
      case StatusSubmitted | StatusPendingReview | StatusWaitlistSameShift
         | StatusWaitlistOppositeShift | StatusAccepted => true
      case _ => false
    }

    /** The request reached a final state. */
    predicate IsTerminal() {
      match this
      case StatusAccepted | StatusRejected | StatusCancelledByStudent | StatusCancelledByAdmin => true
      case _ => false
    }

    predicate IsCancellableByAdmin() {
      match this
      case StatusRejected | StatusCancelledByStudent | StatusCancelledByAdmin => false
      case _ => true
    }
  }

  datatype DecisionType =
    | DecisionAccept
    | DecisionReject
    | DecisionAdminCancel
    | DecisionMoveToReview
    | DecisionCreateGroupAcceptance
    | DecisionCapacityAdjustmentAcceptance
    | DecisionUnknown(text: string)
  {
    predicate IsAcceptance() {
      DecisionAccept? || DecisionCreateGroupAcceptance? || DecisionCapacityAdjustmentAcceptance?
    }
  }

  datatype Error =
    | ErrMaxElectivesReached
    | ErrReasonRequired
    | ErrCapacityExceeded
    | ErrUnknownDecision
    | ErrAlreadyTerminal
    | ErrTargetGroupRequired
    | ErrGroupNotFound
    | ErrStudentNotFound
    | ErrWindowClosed
    | ErrNotFound
    | ErrForbidden
    | ErrNotCancelable
    | ErrDuplicateBatchItem
    | ErrDuplicateActiveRequest
    | ErrRequestNotFound
    | ErrTargetGroupNotFound
    | ErrTargetGroupOfferingMismatch
    | ErrDuplicateActiveInTargetGroup
    | ErrNoRows
    | ErrCheckViolation
    | ErrDatabase

  const MAX_ELECTIVES_PER_SEMESTER := 4
  const MIN_REASON_LENGTH := 3

  // ---------------------------------------------------------------- classification

  /** A snapshot of a group taken while its row is locked. */
  datatype GroupOccupancy = GroupOccupancy(capacity: int, acceptedCount: nat, pendingDirectCount: nat) {
    function DirectSlotsTaken(): nat {
      acceptedCount + pendingDirectCount
    }

    predicate HasDirectRoom() {
      DirectSlotsTaken() < capacity
    }
  }

  function Classify(studentShift: Shift, groupShift: Shift, occ: GroupOccupancy): (PriorityGroup, RequestStatus) {
    if studentShift != groupShift then
      (PriorityWaitlistOppositeShift, StatusWaitlistOppositeShift)
    else if occ.HasDirectRoom() then
      (PriorityDirectSameShift, StatusPendingReview)
    else
      (PriorityWaitlistSameShift, StatusWaitlistSameShift)
  }

  // ---------------------------------------------------------------- submission and decisions

  function ValidateSubmissionAllowed(activeCount: int): Option<Error> {
    if activeCount >= MAX_ELECTIVES_PER_SEMESTER then Some(ErrMaxElectivesReached) else None
  }

  /** White space as trimmed by Go's strings.TrimSpace (the Unicode White_Space property). */
  predicate IsSpace(c: char) {
    || '\t' <= c <= '\r'
    || c == ' '
    || c == '\U{0085}' || c == '\U{00A0}' || c == '\U{1680}'
    || '\U{2000}' <= c <= '\U{200A}'
    || c == '\U{2028}' || c == '\U{2029}' || c == '\U{202F}' || c == '\U{205F}' || c == '\U{3000}'
  }

  function TrimLeft(s: string): string {
    if s != [] && IsSpace(s[0]) then TrimLeft(s[1..]) else s
  }

  function TrimRight(s: string): string {
    if s != [] && IsSpace(s[|s| - 1]) then TrimRight(s[..|s| - 1]) else s
  }

  function TrimSpace(s: string): string {
    TrimRight(TrimLeft(s))
  }

  /** Length in bytes of the UTF-8 encoding, which is what Go's len measures. */
  function ByteLength(s: string): nat {
    if s == [] then 0
    else
      (if s[0] < '\U{0080}' then 1 else if s[0] < '\U{0800}' then 2 else if s[0] < '\U{10000}' then 3 else 4)
      + ByteLength(s[1..])
  }

  predicate ReasonIsValid(reason: string) {
    ByteLength(TrimSpace(reason)) >= MIN_REASON_LENGTH
  }

  /** The facts a decision is validated against, gathered inside its transaction. */
  datatype DecisionContext = DecisionContext(
    currentStatus: RequestStatus,
    reason: string,
    groupCapacity: int,
    groupAcceptedCount: int,
    studentAcceptedInSemester: int,
    targetNamed: bool)

  function ApplyDecision(dt: DecisionType, ctx: DecisionContext): Result<RequestStatus, Error> {
    if !ReasonIsValid(ctx.reason) then Err(ErrReasonRequired)
    else if dt == DecisionAdminCancel then
      if !ctx.currentStatus.IsCancellableByAdmin() then Err(ErrAlreadyTerminal) else Ok(StatusCancelledByAdmin)
    else if ctx.currentStatus.IsTerminal() then Err(ErrAlreadyTerminal)
    else
      match dt
      case DecisionAccept | DecisionCreateGroupAcceptance | DecisionCapacityAdjustmentAcceptance =>
        if dt == DecisionCreateGroupAcceptance && !ctx.targetNamed then Err(ErrTargetGroupRequired)
        else if ctx.studentAcceptedInSemester >= MAX_ELECTIVES_PER_SEMESTER then Err(ErrMaxElectivesReached)
        else if ctx.groupAcceptedCount >= ctx.groupCapacity then Err(ErrCapacityExceeded)
        else Ok(StatusAccepted)
      case DecisionReject => Ok(StatusRejected)
      case DecisionMoveToReview => Ok(StatusPendingReview)
      case _ => Err(ErrUnknownDecision)
  }

  // ---------------------------------------------------------------- properties

  /** The lifecycle as a relation: which status may follow which by one committed change. */
  predicate MayBecome(from: RequestStatus, to: RequestStatus) {
    match from
    case StatusRejected | StatusCancelledByStudent | StatusCancelledByAdmin => false
    case StatusAccepted => to == StatusCancelledByAdmin
    case _ => to.StatusPendingReview? || to.IsTerminal()
  }

  /** The reflexive and transitive closure of the lifecycle. */
  predicate MayReach(from: RequestStatus, to: RequestStatus) {
    from == to || MayBecome(from, to)
  }

  /** One or many changes make no difference: the lifecycle relation is already transitive. */
  lemma MayReachTransitive(a: RequestStatus, b: RequestStatus, c: RequestStatus)
    requires MayReach(a, b) && MayReach(b, c)
    ensures MayReach(a, c)
  {
  }

  /** Every decision moves a request along the lifecycle, never back from a settled state. */
  lemma DecisionFollowsLifecycle(dt: DecisionType, ctx: DecisionContext)
    requires ApplyDecision(dt, ctx).Ok?
    ensures MayBecome(ctx.currentStatus, ApplyDecision(dt, ctx).value)
  {
  }

  /**
   A decision accepts exactly when it is an acceptance of an open request, with
   a reason, a named target where one is needed, and room on both counts.
   */
  lemma AcceptsExactlyWhen(dt: DecisionType, ctx: DecisionContext)
    ensures ApplyDecision(dt, ctx) == Ok(StatusAccepted) <==>
              && dt.IsAcceptance()
              && ReasonIsValid(ctx.reason)
              && !ctx.currentStatus.IsTerminal()
              && (dt == DecisionCreateGroupAcceptance ==> ctx.targetNamed)
              && ctx.studentAcceptedInSemester < MAX_ELECTIVES_PER_SEMESTER
              && ctx.groupAcceptedCount < ctx.groupCapacity
  {
  }

  /** The status is the one the decision names, and only that decision names it. */
  predicate NamesStatus(dt: DecisionType, next: RequestStatus) {
    && (next == StatusAccepted <==> dt.IsAcceptance())
    && (next == StatusRejected <==> dt == DecisionReject)
    && (next == StatusCancelledByAdmin <==> dt == DecisionAdminCancel)
    && (next == StatusPendingReview <==> dt == DecisionMoveToReview)
    && !dt.DecisionUnknown?
  }

  lemma DecisionGivesItsStatus(dt: DecisionType, ctx: DecisionContext)
    requires ApplyDecision(dt, ctx).Ok?
    ensures NamesStatus(dt, ApplyDecision(dt, ctx).value)
  {
  }

  /** The other decisions depend on the status and the reason alone. */
  lemma OtherDecisionsApplyExactlyWhen(dt: DecisionType, ctx: DecisionContext)
    requires !dt.IsAcceptance()
    ensures ApplyDecision(dt, ctx).Ok? <==>
              && ReasonIsValid(ctx.reason) && !dt.DecisionUnknown?
              && (if dt == DecisionAdminCancel then ctx.currentStatus == StatusAccepted || !ctx.currentStatus.IsTerminal()
                  else !ctx.currentStatus.IsTerminal())
  {
  }

  lemma {:induction false} TrimLeftSkipsSpaces(pad: string, s: string)
    requires forall c :: c in pad ==> IsSpace(c)
    ensures TrimLeft(pad + s) == TrimLeft(s)
  {
    if pad == [] {
      assert pad + s == s;
    } else {
      assert (pad + s)[1..] == pad[1..] + s;
      TrimLeftSkipsSpaces(pad[1..], s);
    }
  }

  lemma {:induction false} TrimRightSkipsSpaces(s: string, pad: string)
    requires forall c :: c in pad ==> IsSpace(c)
    ensures TrimRight(s + pad) == TrimRight(s)
    decreases |pad|
  {
    if pad == [] {
      assert s + pad == s;
    } else {
      var n := |pad| - 1;
      assert (s + pad)[..|s + pad| - 1] == s + pad[..n];
      TrimRightSkipsSpaces(s, pad[..n]);
    }
  }

  lemma {:induction false} TrimLeftStopsAt(s: string, tail: string)
    requires exists c :: c in s && !IsSpace(c)
    ensures TrimLeft(s + tail) == TrimLeft(s) + tail
  {
    assert (s + tail)[0] == s[0];
    if IsSpace(s[0]) {
      assert (s + tail)[1..] == s[1..] + tail;
      var c :| c in s && !IsSpace(c);
      assert c in s[1..];
      TrimLeftStopsAt(s[1..], tail);
    }
  }

  /** Padding a reason with white space on either side never changes whether it is accepted. */
  lemma PaddingDoesNotHelp(before: string, reason: string, after: string)
    requires forall c :: c in before || c in after ==> IsSpace(c)
    ensures ReasonIsValid(before + reason + after) == ReasonIsValid(reason)
  {
    assert before + reason + after == before + (reason + after);
    TrimLeftSkipsSpaces(before, reason + after);
    if c :| c in reason && !IsSpace(c) {
      TrimLeftStopsAt(reason, after);
      TrimRightSkipsSpaces(TrimLeft(reason), after);
    } else {
      TrimLeftSkipsSpaces(reason + after, []);
      TrimLeftSkipsSpaces(reason, []);
      assert reason + after + [] == reason + after;
      assert reason + [] == reason;
    }
  }
}
