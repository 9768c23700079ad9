/** What holds in every run of the enrollment machine from an empty database. */
module EnrollmentTheorems {
  import opened EnrollmentDomain
  import opened EnrollmentStore
  import opened EnrollmentMachine
  import opened EnrollmentInvariant
  import opened EnrollmentSafety

  // ---------------------------------------------------------------- runs

  /** States ss[0], ss[1], ... joined by the actions; any transactions, any interleaving. */
  ghost predicate IsRun(ss: seq<System>, acts: seq<Action>) {
    && |ss| == |acts| + 1
    && Init(ss[0])
    && forall i :: 0 <= i < |acts| ==> Enabled(ss[i], acts[i]) && ss[i + 1] == Next(ss[i], acts[i])
  }

  lemma {:induction false} RunKeepsInv(ss: seq<System>, acts: seq<Action>, i: nat)
    requires IsRun(ss, acts) && i < |ss|
    ensures Inv(ss[i])
  {
    if i == 0 {
      InitInv(ss[0]);
    } else {
      RunKeepsInv(ss, acts, i - 1);
      StepKeepsInv(ss[i - 1], acts[i - 1]);
    }
  }

  // ---------------------------------------------------------------- at most four electives

  /** No interleaving leaves a student with more than four active, or accepted, requests in a semester. */
  lemma AtMostFourElectives(ss: seq<System>, acts: seq<Action>, i: nat, st: StudentId, sem: SemesterId)
    requires IsRun(ss, acts) && i < |ss|
    ensures |ActiveOf(ss[i].db.requests, st, sem)| <= 4
    ensures |AcceptedOf(ss[i].db.requests, st, sem)| <= 4
  {
    RunKeepsInv(ss, acts, i);
    SubsetCardinality(AcceptedOf(ss[i].db.requests, st, sem), ActiveOf(ss[i].db.requests, st, sem));
  }

  /** Although Decide locks no student, its own limit check never refuses anything. */
  lemma DecideNeverHitsLimit(ss: seq<System>, acts: seq<Action>, i: nat, t: TxnId)
    requires IsRun(ss, acts) && i < |ss|
    requires t in ss[i].txns && ss[i].txns[t].Deciding? && ss[i].txns[t].dpc.Update?
    ensures var pc := ss[i].txns[t].dpc;
      Ruling(ss[i].txns[t].decide, pc.row, pc.capacity, pc.accepted, pc.studentAccepted) != Err(ErrMaxElectivesReached)
  {
    RunKeepsInv(ss, acts, i);
    assert TxnOk(ss[i].db, ss[i].txns[t]);
  }

  // ---------------------------------------------------------------- no overbooking

  function Capacity(db: Store, g: GroupId): int {
    if g in db.groups then db.groups[g].capacity else 0
  }

  /** How far a group's accepted students exceed its capacity. */
  function Excess(db: Store, g: GroupId): nat {
    var over := |AcceptedIn(db.requests, g)| - Capacity(db, g);
    if over > 0 then over else 0
  }

  /** The action commits a capacity adjustment of this group. */
  predicate Adjusts(s: System, a: Action, g: GroupId) {
    a.Run? && a.t in s.txns && s.txns[a.t].Adjusting? && AtCommit(s.txns[a.t]) && s.txns[a.t].adjust.group == g
  }

  /** The action commits a decision that accepts a request into this group. */
  predicate AcceptsInto(s: System, a: Action, g: GroupId) {
    && a.Run? && a.t in s.txns && s.txns[a.t].Deciding? && AtCommit(s.txns[a.t])
    && s.txns[a.t].dpc.next == StatusAccepted && s.txns[a.t].dpc.gid == g
  }

  /** The one request row a committing transaction writes. */
  function WrittenId(x: Txn): RequestId
    requires AtCommit(x) && !x.Adjusting?
  {
    match x
    case Submitting(_, CommitSubmit(id, _)) => id
    case Cancelling(input, _) => input.request
    case Deciding(input, _) => input.request
  }

  function WrittenRow(x: Txn): Request
    requires AtCommit(x) && !x.Adjusting?
  {
    match x
    case Submitting(_, CommitSubmit(_, row)) => row
    case Cancelling(_, CommitCancel(row)) => row.(status := StatusCancelledByStudent)
    case Deciding(input, CommitDecide(row, gid, next)) =>
      if input.decision == DecisionCreateGroupAcceptance then row.(status := next, group := gid) else row.(status := next)
  }

  /** A step writes at most one request row, and only by a commit. */
  lemma StepWrites(s: System, a: Action)
    requires Inv(s) && Enabled(s, a)
    ensures var rs, rs' := s.db.requests, Next(s, a).db.requests;
      if a.Run? && AtCommit(s.txns[a.t]) && !s.txns[a.t].Adjusting? then
        TxnOk(s.db, s.txns[a.t]) && rs' == rs[WrittenId(s.txns[a.t]) := WrittenRow(s.txns[a.t])]
      else rs' == rs
  {
    if a.Run? {
      assert TxnOk(s.db, s.txns[a.t]);
    }
  }

  /** Only an acceptance into the group adds to its accepted students, and only into a free seat. */
  lemma AcceptedGrowsIntoRoom(s: System, a: Action, g: GroupId)
    requires Inv(s) && Enabled(s, a)
    ensures var before, after := AcceptedIn(s.db.requests, g), AcceptedIn(Next(s, a).db.requests, g);
      if AcceptsInto(s, a, g) then |after| == |before| + 1 && |before| < Capacity(s.db, g)
      else |after| <= |before|
  {
    StepWrites(s, a);
    if a.Run? && AtCommit(s.txns[a.t]) && !s.txns[a.t].Adjusting? {
      AcceptedAfterWrite(s.db.requests, WrittenId(s.txns[a.t]), WrittenRow(s.txns[a.t]), g);
    }
  }

  /** Submit, Cancel, Decide and everything else but a capacity adjustment never raise a group's excess. */
  lemma ExcessNeverRises(s: System, a: Action, g: GroupId)
    requires Inv(s) && Enabled(s, a) && !Adjusts(s, a, g)
    ensures Excess(Next(s, a).db, g) <= Excess(s.db, g)
  {
    AcceptedGrowsIntoRoom(s, a, g);
    assert Capacity(Next(s, a).db, g) >= Capacity(s.db, g);
  }

  /** A group that is not overbooked becomes so exactly by a capacity cut below its accepted students. */
  lemma OverbooksExactlyWhen(s: System, a: Action, g: GroupId)
    requires Inv(s) && Enabled(s, a)
    requires |AcceptedIn(s.db.requests, g)| <= Capacity(s.db, g)
    ensures |AcceptedIn(Next(s, a).db.requests, g)| > Capacity(Next(s, a).db, g) <==>
              Adjusts(s, a, g) && s.txns[a.t].adjust.capacity < |AcceptedIn(s.db.requests, g)|
  {
    if Adjusts(s, a, g) {
      assert TxnOk(s.db, s.txns[a.t]);
      assert Next(s, a).db.requests == s.db.requests;
    } else {
      ExcessNeverRises(s, a, g);
    }
  }

  /** The capacities administrators set are never below the students already accepted. */
  ghost predicate AdjustsAboveAccepted(ss: seq<System>, acts: seq<Action>)
    requires IsRun(ss, acts)
  {
    forall i, g :: 0 <= i < |acts| && Adjusts(ss[i], acts[i], g) ==>
      ss[i].txns[acts[i].t].adjust.capacity >= |AcceptedIn(ss[i].db.requests, g)|
  }

  /** Then no group is ever overbooked, moves into created groups included. */
  lemma {:induction false} NeverOverbooked(ss: seq<System>, acts: seq<Action>, i: nat, g: GroupId)
    requires IsRun(ss, acts) && AdjustsAboveAccepted(ss, acts) && i < |ss|
    ensures |AcceptedIn(ss[i].db.requests, g)| <= Capacity(ss[i].db, g)
  {
    if i == 0 {
      assert AcceptedIn(ss[0].db.requests, g) == {};
    } else {
      NeverOverbooked(ss, acts, i - 1, g);
      RunKeepsInv(ss, acts, i - 1);
      var s, a := ss[i - 1], acts[i - 1];
      if Adjusts(s, a, g) {
        assert TxnOk(s.db, s.txns[a.t]);
        assert ss[i].db.requests == s.db.requests;
      } else {
        ExcessNeverRises(s, a, g);
      }
    }
  }

  // ---------------------------------------------------------------- direct seats

  /** An acceptance of a request that did not hold a direct seat of the group it is accepted into. */
  predicate TakesExtraSeat(s: System, a: Action, g: GroupId) {
    AcceptsInto(s, a, g) && !(s.txns[a.t].dpc.row.group == g && IsPendingDirect(s.txns[a.t].dpc.row))
  }

  /** Who gains a seat of a group it did not hold before. */
  lemma SeatTakers(s: System, t: TxnId, g: GroupId)
    requires Inv(s) && t in s.txns && AtCommit(s.txns[t]) && !s.txns[t].Adjusting?
    ensures var x := s.txns[t];
      var holds := WrittenId(x) in TakenIn(s.db.requests, g);
      if x.Deciding? && x.dpc.next == StatusAccepted && x.dpc.gid == g then
        HoldsSeat(WrittenRow(x), g) && (holds <==> x.dpc.row.group == g && IsPendingDirect(x.dpc.row))
      else if x.Submitting? then
        HoldsSeat(WrittenRow(x), g) ==> |AcceptedIn(s.db.requests, g)| + |PendingDirectIn(s.db.requests, g)| < Capacity(s.db, g)
      else HoldsSeat(WrittenRow(x), g) ==> holds
  {
    assert TxnOk(s.db, s.txns[t]);
    assert s.txns[t].Deciding? ==> RowConsistent(s.txns[t].dpc.row);
  }

  /** How the seats spoken for in a group change in one step. */
  lemma TakenGrowsIntoRoom(s: System, a: Action, g: GroupId)
    requires Inv(s) && Enabled(s, a)
    ensures var before, after := |TakenIn(s.db.requests, g)|, |TakenIn(Next(s, a).db.requests, g)|;
      if TakesExtraSeat(s, a, g) then after == before + 1
      else after <= before || (after == before + 1 && before < Capacity(s.db, g))
  {
    StepWrites(s, a);
    if a.Run? && AtCommit(s.txns[a.t]) && !s.txns[a.t].Adjusting? {
      TakenAfterWrite(s.db.requests, WrittenId(s.txns[a.t]), WrittenRow(s.txns[a.t]), g);
      TakenIsSum(s.db.requests, g);
      SeatTakers(s, a.t, g);
    }
  }

  /**
   The direct seats promised in a group come to exceed its capacity exactly
   when a full group takes an accepted request that held none of its seats (a
   waitlisted request or one moved in), or its capacity is cut below them.
   */
  lemma OverrunExactlyWhen(s: System, a: Action, g: GroupId)
    requires Inv(s) && Enabled(s, a)
    requires |TakenIn(s.db.requests, g)| <= Capacity(s.db, g)
    ensures |TakenIn(Next(s, a).db.requests, g)| > Capacity(Next(s, a).db, g) <==>
              || (TakesExtraSeat(s, a, g) && |TakenIn(s.db.requests, g)| == Capacity(s.db, g))
              || (Adjusts(s, a, g) && s.txns[a.t].adjust.capacity < |TakenIn(s.db.requests, g)|)
  {
    TakenGrowsIntoRoom(s, a, g);
    if Adjusts(s, a, g) {
      assert TxnOk(s.db, s.txns[a.t]);
      assert Next(s, a).db.requests == s.db.requests;
    } else if g in s.db.groups {
      assert Capacity(Next(s, a).db, g) == Capacity(s.db, g);
    } else {
      NoSeatsBeforeCreation(s, a, g);
    }
  }

  /** A group that does not exist has nobody, and nobody gets into it in the step that may create it. */
  lemma NoSeatsBeforeCreation(s: System, a: Action, g: GroupId)
    requires Inv(s) && Enabled(s, a) && g !in s.db.groups
    ensures Capacity(s.db, g) == 0 && Capacity(Next(s, a).db, g) >= 0
    ensures !TakesExtraSeat(s, a, g) && !Adjusts(s, a, g)
  {
    if a.Run? {
      assert TxnOk(s.db, s.txns[a.t]);
    }
  }

  /** While a transaction holds a group nobody else changes its capacity. */
  lemma HeldGroupKeepsCapacity(s: System, a: Action, t: TxnId, g: GroupId)
    requires Inv(s) && Enabled(s, a) && t in s.txns && GroupRow(g) in Held(s.txns[t]) && g in s.db.groups
    requires a.Run? ==> a.t != t
    ensures g in Next(s, a).db.groups && Capacity(Next(s, a).db, g) == Capacity(s.db, g)
  {
    if a.Run? {
      assert TxnOk(s.db, s.txns[a.t]) && Held(s.txns[a.t]) !! Held(s.txns[t]);
    }
  }

  /** Between its insert, the i-th step, and the j-th state the submission has not moved on. */
  ghost predicate AwaitsCommit(ss: seq<System>, acts: seq<Action>, i: nat, j: nat, t: TxnId)
    requires |ss| == |acts| + 1 && i < j < |ss|
  {
    && t in ss[i].txns && ss[i].txns[t].Submitting? && ss[i].txns[t].spc.Insert? && acts[i].Run? && acts[i].t == t
    && t in ss[i + 1].txns && IsPending(ss[i + 1].txns[t])
    && (forall k :: i < k <= j ==> t in ss[k].txns && ss[k].txns[t] == ss[i + 1].txns[t])
    && (forall k :: i < k < j && acts[k].Run? ==> acts[k].t != t)
  }

  lemma {:induction false} CapacityAwaitsCommit(ss: seq<System>, acts: seq<Action>, i: nat, j: nat, t: TxnId)
    requires IsRun(ss, acts) && i < j < |ss| && AwaitsCommit(ss, acts, i, j, t)
    ensures var g := ss[i].txns[t].submit.group;
      g in ss[j].db.groups && Capacity(ss[j].db, g) == ss[i].txns[t].spc.occ.capacity
  {
    RunKeepsInv(ss, acts, i);
    assert TxnOk(ss[i].db, ss[i].txns[t]);
    if j > i + 1 {
      CapacityAwaitsCommit(ss, acts, i, j - 1, t);
      RunKeepsInv(ss, acts, j - 1);
      HeldGroupKeepsCapacity(ss[j - 1], acts[j - 1], t, ss[i].txns[t].submit.group);
    }
  }

  /**
   A same-shift submission about to commit is waitlisted although its group has
   a free seat exactly when the seats it counted filled the group and have
   dropped below the capacity since, as a cancellation may make them.
   */
  lemma WaitlistedBesideFreeSeatExactlyWhen(ss: seq<System>, acts: seq<Action>, i: nat, j: nat, t: TxnId)
    requires IsRun(ss, acts) && i < j < |ss| && AwaitsCommit(ss, acts, i, j, t)
    ensures var row, occ := ss[j].txns[t].spc.row, ss[i].txns[t].spc.occ;
      var taken, capacity := |TakenIn(ss[j].db.requests, row.group)|, Capacity(ss[j].db, row.group);
      row.priority == PriorityWaitlistSameShift && taken < capacity <==>
        row.studentShift == row.groupShift && taken < capacity <= occ.DirectSlotsTaken()
  {
    RunKeepsInv(ss, acts, i);
    assert TxnOk(ss[i].db, ss[i].txns[t]);
    CapacityAwaitsCommit(ss, acts, i, j, t);
  }

  // ---------------------------------------------------------------- deadlock freedom

  /** Every transaction locks its rows in the order request, group, student. */
  lemma LocksUpward(db: Store, x: Txn, held: Resource, wanted: Resource)
    requires TxnOk(db, x) && held in Held(x) && Wants(db, x) == Some(wanted) && wanted !in Held(x)
    ensures held.Rank() < wanted.Rank()
  {
  }

  /** The row transaction `t` waits for: another transaction holds it. */
  ghost predicate BlockedOn(s: System, t: TxnId, r: Resource) {
    && t in s.txns && !s.txns[t].Done?
    && Wants(s.db, s.txns[t]) == Some(r) && !FreeFor(s, t, r)
  }

  lemma UnblockedCanStep(s: System, t: TxnId) returns (a: Action)
    requires t in s.txns && !s.txns[t].Done?
    requires forall r :: !BlockedOn(s, t, r)
    ensures a.Run? && Enabled(s, a)
  {
    a := Run(t, Choice(true, Unused(s.issued), true));
    if Wants(s.db, s.txns[t]).Some? {
      assert !BlockedOn(s, t, Wants(s.db, s.txns[t]).value);
    }
  }

  /** Following the holders of the rows waited for climbs the lock order, so it ends. */
  lemma {:induction false} ChainEnds(s: System, t: TxnId, r: Resource) returns (a: Action)
    requires Inv(s) && BlockedOn(s, t, r)
    ensures a.Run? && Enabled(s, a)
    decreases 2 - r.Rank()
  {
    var u :| u in s.txns && u != t && r in Held(s.txns[u]);
    assert TxnOk(s.db, s.txns[u]);
    if r' :| BlockedOn(s, u, r') {
      assert r' !in Held(s.txns[u]) by {
        var v :| v in s.txns && v != u && r' in Held(s.txns[v]);
        assert Held(s.txns[u]) !! Held(s.txns[v]);
      }
      LocksUpward(s.db, s.txns[u], r, r');
      a := ChainEnds(s, u, r');
    } else {
      a := UnblockedCanStep(s, u);
    }
  }

  /** While some transaction is unfinished, some transaction can run its next statement. */
  lemma DeadlockFree(ss: seq<System>, acts: seq<Action>, i: nat, t: TxnId)
    requires IsRun(ss, acts) && i < |ss|
    requires t in ss[i].txns && !ss[i].txns[t].Done?
    ensures exists u, c :: Enabled(ss[i], Run(u, c))
  {
    RunKeepsInv(ss, acts, i);
    var a: Action;
    if r :| BlockedOn(ss[i], t, r) {
      a := ChainEnds(ss[i], t, r);
    } else {
      a := UnblockedCanStep(ss[i], t);
    }
    assert Enabled(ss[i], Run(a.t, a.choice));
  }

  // ---------------------------------------------------------------- lifecycle and idempotency

  /** Everything about a request but its status and its group. */
  predicate SameIdentity(a: Request, b: Request) {
    b == a.(status := b.status, group := b.group)
  }

  lemma StepKeepsRequests(s: System, a: Action, id: RequestId)
    requires Inv(s) && Enabled(s, a) && id in s.db.requests
    ensures id in Next(s, a).db.requests
    ensures SameIdentity(s.db.requests[id], Next(s, a).db.requests[id])
    ensures MayReach(s.db.requests[id].status, Next(s, a).db.requests[id].status)
  {
    if a.Run? {
      assert TxnOk(s.db, s.txns[a.t]);
      assert IsPending(s.txns[a.t]) ==> PendingFresh(s, s.txns[a.t].spc.id, s.txns[a.t].spc.row);
    }
  }

  /**
   Requests are never lost or rewritten: between any two moments a request
   keeps its identity and moves along the lifecycle only, so a rejected or
   cancelled request never changes and an accepted one can only be cancelled
   by an administrator.
   */
  lemma {:induction false} RequestsPersist(ss: seq<System>, acts: seq<Action>, i: nat, j: nat, id: RequestId)
    requires IsRun(ss, acts) && i <= j < |ss| && id in ss[i].db.requests
    ensures id in ss[j].db.requests
    ensures SameIdentity(ss[i].db.requests[id], ss[j].db.requests[id])
    ensures MayReach(ss[i].db.requests[id].status, ss[j].db.requests[id].status)
  {
    if i < j {
      RequestsPersist(ss, acts, i, j - 1, id);
      RunKeepsInv(ss, acts, j - 1);
      StepKeepsRequests(ss[j - 1], acts[j - 1], id);
      MayReachTransitive(ss[i].db.requests[id].status, ss[j - 1].db.requests[id].status, ss[j].db.requests[id].status);
    }
  }

  /** What can be read off any stored request at any time. */
  lemma StoredRequestsAreConsistent(ss: seq<System>, acts: seq<Action>, i: nat, id: RequestId)
    requires IsRun(ss, acts) && i < |ss| && id in ss[i].db.requests
    ensures var r := ss[i].db.requests[id];
      && r.status != StatusSubmitted
      && (r.status == StatusWaitlistSameShift ==> r.priority == PriorityWaitlistSameShift)
      && (r.status == StatusWaitlistOppositeShift ==> r.priority == PriorityWaitlistOppositeShift)
      && (r.priority == PriorityDirectSameShift && !r.status.IsTerminal() ==> r.status == StatusPendingReview)
      && (r.priority == PriorityWaitlistOppositeShift <==> r.studentShift != r.groupShift)
      && r.group in ss[i].db.groups && ss[i].db.groups[r.group].offering == r.offering
    ensures forall q :: q in ss[i].db.requests && q != id ==>
      && !SameKey(ss[i].db.requests[q], ss[i].db.requests[id])
      && ss[i].db.requests[q].arrival != ss[i].db.requests[id].arrival
      && (SameSeat(ss[i].db.requests[q], ss[i].db.requests[id]) ==>
            !(ss[i].db.requests[q].status.IsActive() && ss[i].db.requests[id].status.IsActive()))
  {
    RunKeepsInv(ss, acts, i);
    assert RowConsistent(ss[i].db.requests[id]) && OfferingMatches(ss[i].db, ss[i].db.requests[id]);
  }

  lemma KeyFindsRequest(db: Store, input: SubmitInput, id: RequestId)
    requires KeysUnique(db.requests) && id in KeyEntries(db.requests, input.student, input.semester, input.key)
    ensures HasKey(db, input) && FoundByKey(db, input) == Existing(id, db.requests[id])
  {
    var found := Greatest(KeyEntries(db.requests, input.student, input.semester, input.key));
    assert SameKey(db.requests[found], db.requests[id]);
  }

  /**
   A submission whose lookup runs after a request with its key was committed
   answers with that request's id and arrival number and changes nothing,
   whatever happened in between.
   */
  lemma ReplayReturnsOriginal(ss: seq<System>, acts: seq<Action>, i: nat, j: nat, id: RequestId)
    requires IsRun(ss, acts) && i <= j < |acts| && id in ss[i].db.requests
    requires acts[j].Run? && acts[j].t in ss[j].txns && ss[j].txns[acts[j].t].Submitting?
    requires ss[j].txns[acts[j].t].spc.FindKey? || ss[j].txns[acts[j].t].spc.FindKeyAgain?
    requires var input := ss[j].txns[acts[j].t].submit; id in KeyEntries(ss[i].db.requests, input.student, input.semester, input.key)
    ensures id in ss[j].db.requests && acts[j].t in ss[j + 1].txns && ss[j + 1].db == ss[j].db
    ensures var r := ss[i].db.requests[id];
      ss[j + 1].txns[acts[j].t] == Done(SubmitOk(id, r.offering, ss[j].db.requests[id].status, r.priority, r.arrival, true))
  {
    RunKeepsInv(ss, acts, j);
    RequestsPersist(ss, acts, i, j, id);
    KeyFindsRequest(ss[j].db, ss[j].txns[acts[j].t].submit, id);
  }

  // ---------------------------------------------------------------- keys that are taken

  /** Requests are only added; those there were keep their identity. */
  ghost predicate Persist(rs: Requests, rs': Requests) {
    forall id :: id in rs ==> id in rs' && SameIdentity(rs[id], rs'[id])
  }

  lemma StepPersists(s: System, a: Action)
    requires Inv(s) && Enabled(s, a)
    ensures Persist(s.db.requests, Next(s, a).db.requests)
  {
    forall id | id in s.db.requests
      ensures id in Next(s, a).db.requests && SameIdentity(s.db.requests[id], Next(s, a).db.requests[id])
    {
      StepKeepsRequests(s, a, id);
    }
  }

  predicate HoldsKey(rs: Requests, id: RequestId, input: SubmitInput) {
    id in KeyEntries(rs, input.student, input.semester, input.key)
  }

  /** The submission has not looked yet, was broken off, or was answered with the request it found. */
  predicate OnlyReplays(x: Txn, input: SubmitInput, id: RequestId) {
    || x == Submitting(input, FindKey)
    || x == Done(Failed(ErrDatabase))
    || (x.Done? && x.out.SubmitOk? && x.out.existed && x.out.request == id)
  }

  lemma ReplayStep(s: System, a: Action, t: TxnId, input: SubmitInput, id: RequestId)
    requires Inv(s) && Enabled(s, a) && t in s.txns && OnlyReplays(s.txns[t], input, id) && HoldsKey(s.db.requests, id, input)
    ensures t in Next(s, a).txns && OnlyReplays(Next(s, a).txns[t], input, id)
    ensures a.Run? && a.t == t ==>
      Next(s, a).db == s.db && Next(s, a).arrivals == s.arrivals && Next(s, a).issued == s.issued
  {
    KeyFindsRequest(s.db, input, id);
  }

  /**
   In every run, a submission begun when a request has its key already never
   inserts anything: it finds that request or is broken off, and none of its
   statements changes the store, whatever runs in between.
   */
  lemma {:induction false} TakenKeyNeverInserts(ss: seq<System>, acts: seq<Action>, i: nat, j: nat, t: TxnId,
                                                input: SubmitInput, id: RequestId)
    requires IsRun(ss, acts) && i < j < |ss| && acts[i] == Begin(t, CmdSubmit(input))
    requires HoldsKey(ss[i].db.requests, id, input)
    ensures t in ss[j].txns && OnlyReplays(ss[j].txns[t], input, id)
    ensures j < |acts| && acts[j].Run? && acts[j].t == t ==>
      ss[j + 1].db == ss[j].db && ss[j + 1].arrivals == ss[j].arrivals && ss[j + 1].issued == ss[j].issued
  {
    if j == i + 1 {
      assert ss[j].txns[t] == Started(CmdSubmit(input));
    } else {
      TakenKeyNeverInserts(ss, acts, i, j - 1, t, input, id);
      RunKeepsInv(ss, acts, j - 1);
      RequestsPersist(ss, acts, i, j - 1, id);
      ReplayStep(ss[j - 1], acts[j - 1], t, input, id);
    }
    if j < |acts| {
      RunKeepsInv(ss, acts, j);
      RequestsPersist(ss, acts, i, j, id);
      ReplayStep(ss[j], acts[j], t, input, id);
    }
  }

  /** What a submission answered is stored under its key. */
  predicate AnswerStored(s: System, x: Txn, input: SubmitInput) {
    || (x.Submitting? && x.submit == input)
    || (x.Done? && (x.out.SubmitOk? ==> HoldsKey(s.db.requests, x.out.request, input)))
  }

  lemma AnswerStep(s: System, a: Action, t: TxnId, input: SubmitInput)
    requires Inv(s) && Enabled(s, a) && t in s.txns && AnswerStored(s, s.txns[t], input)
    ensures t in Next(s, a).txns && AnswerStored(Next(s, a), Next(s, a).txns[t], input)
  {
    assert TxnOk(s.db, s.txns[t]);
    StepPersists(s, a);
  }

  lemma {:induction false} AnsweredKeyIsTaken(ss: seq<System>, acts: seq<Action>, i: nat, j: nat, t: TxnId, input: SubmitInput)
    requires IsRun(ss, acts) && i < j < |ss| && acts[i] == Begin(t, CmdSubmit(input))
    ensures t in ss[j].txns && AnswerStored(ss[j], ss[j].txns[t], input)
  {
    if j == i + 1 {
      assert ss[j].txns[t] == Started(CmdSubmit(input));
    } else {
      AnsweredKeyIsTaken(ss, acts, i, j - 1, t, input);
      RunKeepsInv(ss, acts, j - 1);
      AnswerStep(ss[j - 1], acts[j - 1], t, input);
    }
  }
}
