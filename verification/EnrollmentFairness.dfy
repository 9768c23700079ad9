/**
 First come, first served: while only submissions reach a group, its direct
 seats go to the earliest arrivals, in any interleaving.
 */
module EnrollmentFairness {
  import opened Bounds
  import opened EnrollmentDomain
  import opened EnrollmentStore
  import opened EnrollmentMachine
  import opened EnrollmentInvariant
  import opened EnrollmentSafety
  import opened EnrollmentTheorems

  /** The requests that sit in a group. */
  function GroupView(rs: Requests, g: GroupId): Requests {
    map id | id in rs && rs[id].group == g :: rs[id]
  }

  predicate SameShift(r: Request) {
    r.studentShift == r.groupShift
  }

  function SameShiftIn(v: Requests): set<RequestId> {
    set id | id in v && SameShift(v[id])
  }

  /** Same-shift requests with a smaller arrival number. */
  function EarlierThan(v: Requests, arrival: nat): set<RequestId> {
    set id | id in v && SameShift(v[id]) && v[id].arrival < arrival
  }

  function DirectIn(v: Requests): set<RequestId> {
    set id | id in v && v[id].priority == PriorityDirectSameShift
  }

  /** The status a request has as long as nobody decides on it. */
  predicate AsClassified(r: Request) {
    && (SameShift(r) <==> r.priority != PriorityWaitlistOppositeShift)
    && match r.priority
       case PriorityDirectSameShift => r.status == StatusPendingReview
       case PriorityWaitlistSameShift => r.status == StatusWaitlistSameShift
       case PriorityWaitlistOppositeShift => r.status == StatusWaitlistOppositeShift
  }

  /**
   Of k same-shift requests exactly the min(k, capacity) with the smallest
   arrival numbers are direct; everyone else is on the waitlist of its shift.
   */
  ghost predicate Fair(v: Requests, capacity: int) {
    && (forall id :: id in v ==> AsClassified(v[id]))
    && (forall id :: id in v && SameShift(v[id]) ==>
          (v[id].priority == PriorityDirectSameShift <==> |EarlierThan(v, v[id].arrival)| < capacity))
    && |DirectIn(v)| == Min(|SameShiftIn(v)|, capacity)
  }

  /** While nobody decides, the seats taken are the direct requests. */
  lemma TakenIsDirect(rs: Requests, g: GroupId)
    requires forall id :: id in GroupView(rs, g) ==> AsClassified(GroupView(rs, g)[id])
    ensures TakenIn(rs, g) == DirectIn(GroupView(rs, g))
  {
    var v := GroupView(rs, g);
    forall id ensures id in TakenIn(rs, g) <==> id in DirectIn(v) {
      if id in rs && rs[id].group == g {
        assert AsClassified(v[id]);
      }
    }
  }

  /** The arrival number is later than every other in the group. */
  ghost predicate Latest(v: Requests, row: Request) {
    forall q :: q in v ==> v[q].arrival < row.arrival
  }

  /** A later arrival is earlier than nobody, and everybody is earlier than it. */
  lemma NewcomerComesLast(v: Requests, id: RequestId, row: Request)
    requires id !in v && Latest(v, row)
    ensures EarlierThan(v[id := row], row.arrival) == SameShiftIn(v)
    ensures forall q :: q in v ==> EarlierThan(v[id := row], v[q].arrival) == EarlierThan(v, v[q].arrival)
  {
  }

  lemma NewcomerCountsDirect(v: Requests, id: RequestId, row: Request)
    requires id !in v
    ensures |DirectIn(v[id := row])| == |DirectIn(v)| + (if row.priority == PriorityDirectSameShift then 1 else 0)
  {
    if row.priority == PriorityDirectSameShift {
      assert DirectIn(v[id := row]) == DirectIn(v) + {id};
    } else {
      assert DirectIn(v[id := row]) == DirectIn(v);
    }
  }

  lemma NewcomerCountsSameShift(v: Requests, id: RequestId, row: Request)
    requires id !in v
    ensures |SameShiftIn(v[id := row])| == |SameShiftIn(v)| + (if SameShift(row) then 1 else 0)
  {
    if SameShift(row) {
      assert SameShiftIn(v[id := row]) == SameShiftIn(v) + {id};
    } else {
      assert SameShiftIn(v[id := row]) == SameShiftIn(v);
    }
  }

  /** A newcomer that took a direct seat exactly if one was left keeps the group fair. */
  lemma NewcomerKeepsFair(v: Requests, capacity: int, id: RequestId, row: Request)
    requires Fair(v, capacity) && id !in v && Latest(v, row) && AsClassified(row)
    requires SameShift(row) ==> (row.priority == PriorityDirectSameShift <==> |DirectIn(v)| < capacity)
    ensures Fair(v[id := row], capacity)
  {
    NewcomerComesLast(v, id, row);
    NewcomerCountsDirect(v, id, row);
    NewcomerCountsSameShift(v, id, row);
  }

  lemma ViewAfterInsert(rs: Requests, id: RequestId, row: Request)
    requires id !in rs
    ensures GroupView(rs[id := row], row.group) == GroupView(rs, row.group)[id := row]
  {
  }

  // ---------------------------------------------------------------- runs

  /** Nothing but submissions changes the group's requests or its capacity in this step. */
  ghost predicate Quiet(s: System, a: Action, g: GroupId)
    requires Enabled(s, a)
  {
    a.Run? && AtCommit(s.txns[a.t]) && !s.txns[a.t].Submitting? ==>
      && GroupView(Next(s, a).db.requests, g) == GroupView(s.db.requests, g)
      && Capacity(Next(s, a).db, g) == Capacity(s.db, g)
  }

  /** What a submission to the group knows about it. */
  ghost predicate KnowsGroup(db: Store, x: Txn, g: GroupId) {
    x.Submitting? && x.submit.group == g ==>
      match x.spc
      case Insert(_, _, occ) => occ.DirectSlotsTaken() == |TakenIn(db.requests, g)|
      case CommitSubmit(_, row) =>
        && AsClassified(row) && Latest(GroupView(db.requests, g), row)
        && (SameShift(row) ==>
              (row.priority == PriorityDirectSameShift <==> |TakenIn(db.requests, g)| < Capacity(db, g)))
      case _ => true
  }

  ghost predicate FairInv(s: System, g: GroupId) {
    && Fair(GroupView(s.db.requests, g), Capacity(s.db, g))
    && forall t :: t in s.txns ==> KnowsGroup(s.db, s.txns[t], g)
  }

  lemma TakenFromView(rs: Requests, rs': Requests, g: GroupId)
    requires GroupView(rs, g) == GroupView(rs', g)
    ensures TakenIn(rs, g) == TakenIn(rs', g)
  {
    forall id ensures id in TakenIn(rs, g) <==> id in TakenIn(rs', g) {
      assert id in rs && rs[id].group == g <==> id in GroupView(rs, g);
      assert id in rs' && rs'[id].group == g <==> id in GroupView(rs', g);
      if id in GroupView(rs, g) {
        assert rs[id] == GroupView(rs, g)[id] == rs'[id];
      }
    }
  }

  /** The view of a group whose requests the step does not touch. */
  lemma ViewKept(s: System, a: Action, g: GroupId)
    requires Inv(s) && Enabled(s, a) && Quiet(s, a, g)
    requires !(a.Run? && IsPending(s.txns[a.t]) && s.txns[a.t].submit.group == g)
    ensures GroupView(Next(s, a).db.requests, g) == GroupView(s.db.requests, g)
    ensures g in s.db.groups ==> Capacity(Next(s, a).db, g) == Capacity(s.db, g)
  {
    if a.Run? {
      assert TxnOk(s.db, s.txns[a.t]);
      assert IsPending(s.txns[a.t]) ==> PendingFresh(s, s.txns[a.t].spc.id, s.txns[a.t].spc.row);
    }
  }

  lemma SubmitStepKnows(db: Store, arrivals: nat, input: SubmitInput, pc: SubmitPc, c: Choice)
    requires SubmitHolds(db, input, pc) && KnowsGroup(db, Submitting(input, pc), input.group) && !pc.CommitSubmit?
    requires forall q :: q in db.requests ==> db.requests[q].arrival < arrivals
    ensures KnowsGroup(db, SubmitStep(db, arrivals, input, pc, c), input.group)
  {
    TakenIsSum(db.requests, input.group);
  }

  /** One's own statement. */
  lemma OwnStepKnows(s: System, t: TxnId, c: Choice, g: GroupId)
    requires Inv(s) && Enabled(s, Run(t, c)) && !AtCommit(s.txns[t]) && FairInv(s, g)
    ensures KnowsGroup(s.db, Advanced(s.db, s.arrivals, s.txns[t], c), g)
  {
    var x := s.txns[t];
    assert TxnOk(s.db, x) && KnowsGroup(s.db, x, g);
    if x.Submitting? && x.submit.group == g {
      SubmitStepKnows(s.db, s.arrivals, x.submit, x.spc, c);
    }
  }

  lemma NewcomerStepFair(s: System, a: Action, g: GroupId)
    requires Inv(s) && Enabled(s, a) && FairInv(s, g)
    requires a.Run? && IsPending(s.txns[a.t]) && s.txns[a.t].submit.group == g
    ensures Fair(GroupView(Next(s, a).db.requests, g), Capacity(Next(s, a).db, g))
  {
    var id, row := s.txns[a.t].spc.id, s.txns[a.t].spc.row;
    assert TxnOk(s.db, s.txns[a.t]) && KnowsGroup(s.db, s.txns[a.t], g);
    assert PendingFresh(s, id, row);
    TakenIsDirect(s.db.requests, g);
    NewcomerKeepsFair(GroupView(s.db.requests, g), Capacity(s.db, g), id, row);
    ViewAfterInsert(s.db.requests, id, row);
  }

  /** No other transaction is submitting to a group while one inserts into it. */
  lemma OthersDoNotInsert(s: System, t: TxnId, u: TxnId)
    requires Inv(s) && t in s.txns && u in s.txns && t != u
    requires IsPending(s.txns[t]) && s.txns[u].Submitting? && (s.txns[u].spc.Insert? || s.txns[u].spc.CommitSubmit?)
    ensures s.txns[t].submit.group != s.txns[u].submit.group
  {
    assert GroupRow(s.txns[t].submit.group) in Held(s.txns[t]);
    assert GroupRow(s.txns[u].submit.group) in Held(s.txns[u]);
  }

  lemma OtherStepKnows(s: System, a: Action, u: TxnId, g: GroupId)
    requires Inv(s) && Enabled(s, a) && Quiet(s, a, g) && FairInv(s, g)
    requires u in s.txns && u in Next(s, a).txns && Next(s, a).txns[u] == s.txns[u] && (a.Run? ==> a.t != u)
    ensures KnowsGroup(Next(s, a).db, s.txns[u], g)
  {
    assert KnowsGroup(s.db, s.txns[u], g) && TxnOk(s.db, s.txns[u]);
    var x := s.txns[u];
    if x.Submitting? && x.submit.group == g && (x.spc.Insert? || x.spc.CommitSubmit?) {
      if a.Run? && IsPending(s.txns[a.t]) {
        OthersDoNotInsert(s, a.t, u);
      }
      ViewKept(s, a, g);
      TakenFromView(s.db.requests, Next(s, a).db.requests, g);
    }
  }

  lemma StepKeepsFair(s: System, a: Action, g: GroupId)
    requires Inv(s) && Enabled(s, a) && Quiet(s, a, g) && FairInv(s, g)
    ensures FairInv(Next(s, a), g)
  {
    var s' := Next(s, a);
    if a.Run? && IsPending(s.txns[a.t]) && s.txns[a.t].submit.group == g {
      NewcomerStepFair(s, a, g);
    } else {
      ViewKept(s, a, g);
      if g !in s.db.groups {
        EmptyBeforeCreation(s, g);
      }
      assert CapacitiesOk(s'.db) by {
        StepKeepsInv(s, a);
      }
    }
    forall u | u in s'.txns ensures KnowsGroup(s'.db, s'.txns[u], g) {
      if a.Run? && a.t == u {
        if !AtCommit(s.txns[u]) {
          OwnStepKnows(s, u, a.choice, g);
        }
      } else if u in s.txns && s'.txns[u] == s.txns[u] {
        OtherStepKnows(s, a, u, g);
      }
    }
  }

  lemma EmptyBeforeCreation(s: System, g: GroupId)
    requires Inv(s) && g !in s.db.groups
    ensures GroupView(s.db.requests, g) == map[]
  {
    assert forall id :: id in s.db.requests ==> OfferingMatches(s.db, s.db.requests[id]);
  }

  /**
   In every run in which only submissions touch a group, its direct requests
   are exactly the earliest same-shift arrivals that fit its capacity.
   */
  lemma {:induction false} FirstComeFirstServed(ss: seq<System>, acts: seq<Action>, i: nat, g: GroupId)
    requires IsRun(ss, acts) && i < |ss|
    requires forall k :: 0 <= k < |acts| ==> Quiet(ss[k], acts[k], g)
    ensures Fair(GroupView(ss[i].db.requests, g), Capacity(ss[i].db, g))
    ensures FairInv(ss[i], g)
  {
    if i == 0 {
      assert GroupView(ss[0].db.requests, g) == map[];
      assert SameShiftIn(map[]) == {} && DirectIn(map[]) == {};
    } else {
      FirstComeFirstServed(ss, acts, i - 1, g);
      RunKeepsInv(ss, acts, i - 1);
      StepKeepsFair(ss[i - 1], acts[i - 1], g);
    }
  }
}
