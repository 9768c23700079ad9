/** Every step of the enrollment machine keeps the invariant. */
module EnrollmentSafety {
  import opened EnrollmentDomain
  import opened EnrollmentStore
  import opened EnrollmentMachine
  import opened EnrollmentInvariant

  // ---------------------------------------------------------------- locks

  /** The rows held after the next statement: those held before and the one just locked. */
  lemma StepLocks(db: Store, arrivals: nat, x: Txn, c: Choice)
    requires TxnOk(db, x)
    ensures Held(Advanced(db, arrivals, x, c)) <= Held(x) + (match Wants(db, x) case Some(r) => {r} case None => {})
  {
    match x
    case Deciding(input, pc) => DecideLocks(db, input, pc);
    case _ =>
  }

  lemma DecideLocks(db: Store, input: DecisionInput, pc: DecidePc)
    requires TxnOk(db, Deciding(input, pc))
    ensures var x := Deciding(input, pc);
      Held(DecideStep(db, input, pc)) <= Held(x) + (match Wants(db, x) case Some(r) => {r} case None => {})
  {
    match pc
    case Update(_, _, _, _, _) =>
    case LockTarget(_) =>
    case _ =>
  }

  lemma GrantKeepsLocksExclusive(txns: map<TxnId, Txn>, t: TxnId, x: Txn, grant: set<Resource>)
    requires LocksExclusive(txns)
    requires Held(x) <= (if t in txns then Held(txns[t]) else {}) + grant
    requires forall u, r :: u in txns && u != t && r in grant ==> r !in Held(txns[u])
    ensures LocksExclusive(txns[t := x])
  {
    var txns' := txns[t := x];
    forall i, j | i in txns' && j in txns' && i != j ensures Held(txns'[i]) !! Held(txns'[j]) {
      if i == t {
        assert t in txns ==> Held(txns[t]) !! Held(txns[j]);
      } else if j == t {
        assert t in txns ==> Held(txns[t]) !! Held(txns[i]);
      } else {
        assert Held(txns[i]) !! Held(txns[j]);
      }
    }
  }

  lemma LocksStayExclusive(s: System, a: Action)
    requires Inv(s) && Enabled(s, a)
    ensures LocksExclusive(Next(s, a).txns)
  {
    match a
    case Begin(t, cmd) => GrantKeepsLocksExclusive(s.txns, t, Started(cmd), {});
    case Run(t, c) =>
      var x := s.txns[t];
      assert TxnOk(s.db, x);
      StepLocks(s.db, s.arrivals, x, c);
      GrantKeepsLocksExclusive(s.txns, t, Advanced(s.db, s.arrivals, x, c),
        match Wants(s.db, x) case Some(r) => {r} case None => {});
    case Abort(t) => GrantKeepsLocksExclusive(s.txns, t, Done(Failed(ErrDatabase)), {});
    case _ =>
  }

  // ---------------------------------------------------------------- the stepping transaction

  /** A student with an open request has at most three accepted ones. */
  lemma OpenRequestLeavesRoom(rs: Requests, id: RequestId)
    requires id in rs && rs[id].status.IsActive() && !rs[id].status.IsTerminal()
    requires |ActiveOf(rs, rs[id].student, rs[id].semester)| <= MAX_ELECTIVES_PER_SEMESTER
    ensures |AcceptedOf(rs, rs[id].student, rs[id].semester)| < MAX_ELECTIVES_PER_SEMESTER
  {
    var active := ActiveOf(rs, rs[id].student, rs[id].semester);
    var accepted := AcceptedOf(rs, rs[id].student, rs[id].semester);
    assert accepted <= active - {id};
    SubsetCardinality(accepted, active - {id});
  }

  lemma SubmitStepOk(db: Store, arrivals: nat, input: SubmitInput, pc: SubmitPc, c: Choice)
    requires SubmitHolds(db, input, pc) && !pc.CommitSubmit?
    ensures TxnOk(db, SubmitStep(db, arrivals, input, pc, c))
  {
  }

  lemma UpdateStepOk(db: Store, input: DecisionInput, pc: DecidePc)
    requires DecideHolds(db, input, pc) && pc.Update?
    ensures TxnOk(db, DecideStep(db, input, pc))
  {
    var ctx := DecisionContext(pc.row.status, input.reason, pc.capacity, pc.accepted, pc.studentAccepted, input.target.Some?);
    AcceptsExactlyWhen(input.decision, ctx);
    if ApplyDecision(input.decision, ctx).Ok? {
      DecisionFollowsLifecycle(input.decision, ctx);
      DecisionGivesItsStatus(input.decision, ctx);
    }
  }

  lemma DecideStepOk(db: Store, input: DecisionInput, pc: DecidePc)
    requires StoreOk(db) && DecideHolds(db, input, pc) && !pc.CommitDecide? && !pc.Update?
    ensures TxnOk(db, DecideStep(db, input, pc))
  {
    if pc.LockRequest? && input.request in db.requests {
      assert OfferingMatches(db, db.requests[input.request]);
    } else if pc.CountStudent? && !pc.row.status.IsTerminal() {
      OpenRequestLeavesRoom(db.requests, input.request);
    }
  }

  lemma StepOk(s: System, t: TxnId, c: Choice)
    requires Inv(s) && Enabled(s, Run(t, c)) && !AtCommit(s.txns[t])
    ensures TxnOk(s.db, Advanced(s.db, s.arrivals, s.txns[t], c))
  {
    assert TxnOk(s.db, s.txns[t]);
    match s.txns[t]
    case Submitting(input, pc) => SubmitStepOk(s.db, s.arrivals, input, pc, c);
    case Deciding(input, pc) =>
      if pc.Update? {
        UpdateStepOk(s.db, input, pc);
      } else {
        DecideStepOk(s.db, input, pc);
      }
    case _ =>
  }

  // ---------------------------------------------------------------- the committed rows

  lemma InsertedRowUnique(rs: Requests, id: RequestId, row: Request)
    requires KeysUnique(rs) && ActiveUnique(rs) && ArrivalsUnique(rs) && id !in rs
    requires KeyEntries(rs, row.student, row.semester, row.key) == {}
    requires ActiveEntries(rs, row.student, row.semester, row.group) == {}
    requires forall q :: q in rs ==> rs[q].arrival != row.arrival
    ensures KeysUnique(rs[id := row]) && ActiveUnique(rs[id := row]) && ArrivalsUnique(rs[id := row])
  {
    forall i | i in rs ensures !SameKey(rs[i], row) && !SameKey(row, rs[i]) {
      assert i !in KeyEntries(rs, row.student, row.semester, row.key);
    }
    forall i | i in rs && rs[i].status.IsActive() ensures !SameSeat(rs[i], row) && !SameSeat(row, rs[i]) {
      assert i !in ActiveEntries(rs, row.student, row.semester, row.group);
    }
  }

  lemma InsertKeepsAtMostFour(rs: Requests, id: RequestId, row: Request)
    requires AtMostFour(rs) && id !in rs
    requires |ActiveOf(rs, row.student, row.semester)| < MAX_ELECTIVES_PER_SEMESTER
    ensures AtMostFour(rs[id := row])
  {
    var rs' := rs[id := row];
    forall st, sem ensures |ActiveOf(rs', st, sem)| <= MAX_ELECTIVES_PER_SEMESTER {
      ActiveAfterInsert(rs, id, row, st, sem);
    }
  }

  lemma SubmitCommitStoreOk(db: Store, input: SubmitInput, id: RequestId, row: Request)
    requires StoreOk(db) && SubmitHolds(db, input, CommitSubmit(id, row))
    requires id !in db.requests
    requires forall q :: q in db.requests ==> db.requests[q].arrival != row.arrival
    ensures StoreOk(SubmitCommitted(db, id, row))
  {
    InsertedRowUnique(db.requests, id, row);
    InsertKeepsAtMostFour(db.requests, id, row);
  }

  /** A change of one row that activates nothing and, if it moves, moves where the student is not. */
  lemma RowChangeStoreOk(db: Store, id: RequestId, after: Request)
    requires StoreOk(db) && id in db.requests
    requires var before := db.requests[id];
      && after == before.(status := after.status, group := after.group)
      && RowConsistent(after) && OfferingMatches(db, after)
      && (after.status.IsActive() ==> before.status.IsActive())
      && (after.group != before.group ==> ActiveEntries(db.requests, before.student, before.semester, after.group) - {id} == {})
    ensures StoreOk(db.(requests := db.requests[id := after]))
  {
    var rs, rs' := db.requests, db.requests[id := after];
    forall st, sem ensures |ActiveOf(rs', st, sem)| <= MAX_ELECTIVES_PER_SEMESTER {
      SubsetCardinality(ActiveOf(rs', st, sem), ActiveOf(rs, st, sem));
    }
    forall i | i in rs && i != id && rs[i].status.IsActive() && after.status.IsActive()
      ensures !SameSeat(rs[i], after) && !SameSeat(after, rs[i])
    {
      if after.group != rs[id].group {
        assert i !in ActiveEntries(rs, rs[id].student, rs[id].semester, after.group) - {id};
      }
    }
  }

  lemma CommitStoreOk(s: System, t: TxnId)
    requires Inv(s) && t in s.txns && AtCommit(s.txns[t])
    ensures StoreOk(AfterCommit(s.db, s.txns[t]))
  {
    var db := s.db;
    assert TxnOk(db, s.txns[t]);
    assert IsPending(s.txns[t]) ==> PendingFresh(s, s.txns[t].spc.id, s.txns[t].spc.row);
    match s.txns[t]
    case Submitting(input, CommitSubmit(id, row)) => SubmitCommitStoreOk(db, input, id, row);
    case Cancelling(input, CommitCancel(row)) =>
      RowChangeStoreOk(db, input.request, row.(status := StatusCancelledByStudent));
    case Deciding(input, CommitDecide(row, gid, next)) =>
      if input.decision == DecisionCreateGroupAcceptance {
        RowChangeStoreOk(db, input.request, row.(status := next, group := gid));
      } else {
        RowChangeStoreOk(db, input.request, row.(status := next));
      }
    case Adjusting(input, CommitAdjust(prev)) =>
  }

  // ---------------------------------------------------------------- all transactions

  lemma CommitKeepsOthers(s: System, t: TxnId, u: TxnId)
    requires Inv(s) && t in s.txns && AtCommit(s.txns[t]) && u in s.txns && u != t
    ensures TxnOk(AfterCommit(s.db, s.txns[t]), s.txns[u])
  {
    var x := s.txns[t];
    assert TxnOk(s.db, x) && TxnOk(s.db, s.txns[u]);
    assert IsPending(x) ==> PendingFresh(s, x.spc.id, x.spc.row);
    CommitFixesOfferings(s.db, x);
    assert Held(x) !! Held(s.txns[u]);
    forall r | r in Held(s.txns[u]) ensures Stable(s.db, AfterCommit(s.db, x), r) {
      CommitIsStable(s.db, x, r);
    }
    StableKeepsTxn(s.txns[u], s.db, AfterCommit(s.db, x));
  }

  /** The ids and arrival numbers of the two systems are given out alike. */
  ghost predicate FreshIn(s: System) {
    PendingsFresh(s) && PendingsDistinct(s.txns) && Generated(s)
  }

  /** INSERT draws an id and an arrival number that no row has, committed or not. */
  lemma InsertStaysFresh(s: System, t: TxnId, x: Txn, id: RequestId)
    requires FreshIn(s) && t in s.txns && !IsPending(s.txns[t]) && id !in s.issued
    requires IsPending(x) ==> x.spc.id == id && x.spc.row.arrival == s.arrivals
    ensures FreshIn(System(s.db, s.txns[t := x], s.arrivals + 1, s.issued + {id}))
  {
    var s' := System(s.db, s.txns[t := x], s.arrivals + 1, s.issued + {id});
    forall u | u in s'.txns && IsPending(s'.txns[u]) ensures PendingFresh(s', s'.txns[u].spc.id, s'.txns[u].spc.row) {
      if u != t {
        assert PendingFresh(s, s.txns[u].spc.id, s.txns[u].spc.row);
      }
    }
  }

  lemma CommitStaysFresh(s: System, t: TxnId)
    requires FreshIn(s) && t in s.txns && AtCommit(s.txns[t]) && TxnOk(s.db, s.txns[t])
    ensures FreshIn(s.(db := AfterCommit(s.db, s.txns[t]), txns := s.txns[t := Done(Committed)]))
  {
    var x := s.txns[t];
    var s' := s.(db := AfterCommit(s.db, x), txns := s.txns[t := Done(Committed)]);
    assert IsPending(x) ==> PendingFresh(s, x.spc.id, x.spc.row);
    forall u | u in s'.txns && IsPending(s'.txns[u]) ensures PendingFresh(s', s'.txns[u].spc.id, s'.txns[u].spc.row) {
      assert PendingFresh(s, s.txns[u].spc.id, s.txns[u].spc.row);
    }
  }

  lemma UnchangedRowsStayFresh(s: System, s': System)
    requires FreshIn(s)
    requires s'.db.requests == s.db.requests && s'.issued == s.issued && s'.arrivals >= s.arrivals
    requires forall u :: u in s'.txns && IsPending(s'.txns[u]) ==> u in s.txns && s.txns[u] == s'.txns[u]
    ensures FreshIn(s')
  {
    forall u | u in s'.txns && IsPending(s'.txns[u]) ensures PendingFresh(s', s'.txns[u].spc.id, s'.txns[u].spc.row) {
      assert PendingFresh(s, s.txns[u].spc.id, s.txns[u].spc.row);
    }
  }

  lemma IsInsert(db: Store, arrivals: nat, x: Txn, c: Choice)
    requires !AtCommit(x)
    ensures var x' := Advanced(db, arrivals, x, c);
      IsPending(x') ==> x.Submitting? && x.spc.Insert? && x'.spc.id == c.id && x'.spc.row.arrival == arrivals
  {
  }

  lemma PendingsStayFresh(s: System, a: Action)
    requires Inv(s) && Enabled(s, a)
    ensures FreshIn(Next(s, a))
  {
    if a.Run? {
      var x := s.txns[a.t];
      assert TxnOk(s.db, x);
      if AtCommit(x) {
        CommitStaysFresh(s, a.t);
        var s0 := s.(db := AfterCommit(s.db, x), txns := s.txns[a.t := Done(Committed)]);
        UnchangedRowsStayFresh(s0, Next(s, a));
      } else {
        IsInsert(s.db, s.arrivals, x, a.choice);
        if x.Submitting? && x.spc.Insert? {
          InsertStaysFresh(s, a.t, Advanced(s.db, s.arrivals, x, a.choice), a.choice.id);
        } else {
          UnchangedRowsStayFresh(s, Next(s, a));
        }
      }
    } else {
      UnchangedRowsStayFresh(s, Next(s, a));
    }
  }

  lemma CommitStepInv(s: System, t: TxnId, c: Choice)
    requires Inv(s) && Enabled(s, Run(t, c)) && AtCommit(s.txns[t])
    ensures Inv(Next(s, Run(t, c)))
  {
    var s' := Next(s, Run(t, c));
    LocksStayExclusive(s, Run(t, c));
    PendingsStayFresh(s, Run(t, c));
    CommitStoreOk(s, t);
    forall u | u in s'.txns ensures TxnOk(s'.db, s'.txns[u]) {
      if u != t {
        CommitKeepsOthers(s, t, u);
      }
    }
  }

  lemma StatementStepInv(s: System, t: TxnId, c: Choice)
    requires Inv(s) && Enabled(s, Run(t, c)) && !AtCommit(s.txns[t])
    ensures Inv(Next(s, Run(t, c)))
  {
    var s' := Next(s, Run(t, c));
    LocksStayExclusive(s, Run(t, c));
    PendingsStayFresh(s, Run(t, c));
    StepOk(s, t, c);
    assert s'.db == s.db;
  }

  lemma EnvironmentKeepsTxn(s: System, a: Action, u: TxnId)
    requires Inv(s) && Enabled(s, a) && !a.Run? && u in Next(s, a).txns
    ensures TxnOk(Next(s, a).db, Next(s, a).txns[u])
  {
    var s' := Next(s, a);
    if u in s.txns && s'.txns[u] == s.txns[u] {
      assert TxnOk(s.db, s.txns[u]);
      forall r | r in Held(s.txns[u]) ensures Stable(s.db, s'.db, r) {
        assert !(a.SetGroupActive? && r == GroupRow(a.group));
      }
      StableKeepsTxn(s.txns[u], s.db, s'.db);
    }
  }

  lemma EnvironmentStepInv(s: System, a: Action)
    requires Inv(s) && Enabled(s, a) && !a.Run?
    ensures Inv(Next(s, a))
  {
    LocksStayExclusive(s, a);
    PendingsStayFresh(s, a);
    forall u | u in Next(s, a).txns ensures TxnOk(Next(s, a).db, Next(s, a).txns[u]) {
      EnvironmentKeepsTxn(s, a, u);
    }
  }

  /** No step of any transaction, in any interleaving, breaks the invariant. */
  lemma StepKeepsInv(s: System, a: Action)
    requires Inv(s) && Enabled(s, a)
    ensures Inv(Next(s, a))
  {
    if !a.Run? {
      EnvironmentStepInv(s, a);
    } else if AtCommit(s.txns[a.t]) {
      CommitStepInv(s, a.t, a.choice);
    } else {
      StatementStepInv(s, a.t, a.choice);
    }
  }

  lemma InitInv(s: System)
    requires Init(s)
    ensures Inv(s)
  {
  }
}
