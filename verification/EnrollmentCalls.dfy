/**
 Submissions and batches of submissions as parts of a run of the machine: what
 their own steps add to the store while other transactions run in between.
 */
module EnrollmentCalls {
  import opened EnrollmentDomain
  import opened EnrollmentStore
  import opened EnrollmentMachine
  import opened EnrollmentInvariant
  import opened EnrollmentSafety
  import opened EnrollmentTheorems
  import Decimal

  // ---------------------------------------------------------------- one call

  /**
   A stretch of a run, from one state to another, that begins with the call's
   transaction t; whatever else happens in it is up to others.
   */
  datatype Call = Call(from: System, t: TxnId, acts: seq<Action>, to: System)

  /** The call submits `input`, each action is enabled in its turn, and the transaction has ended. */
  ghost predicate IsCall(c: Call, input: SubmitInput) {
    && c.acts != [] && c.acts[0] == Begin(c.t, CmdSubmit(input))
    && Play(c.from, c.acts) == Some(c.to)
    && c.t in c.to.txns && c.to.txns[c.t].Done?
  }

  function Answer(c: Call): Outcome {
    if c.t in c.to.txns && c.to.txns[c.t].Done? then c.to.txns[c.t].out else Failed(ErrDatabase)
  }

  /** The requests this step adds to the store if it is one of t's own. */
  function Adds(s: System, t: TxnId, a: Action): set<RequestId>
    requires Enabled(s, a)
  {
    if a.Run? && a.t == t then Next(s, a).db.requests.Keys - s.db.requests.Keys else {}
  }

  /** The requests t's own steps add to the store. */
  function Made(s: System, t: TxnId, acts: seq<Action>): set<RequestId>
    decreases |acts|
  {
    if acts == [] || !Enabled(s, acts[0]) then {}
    else Adds(s, t, acts[0]) + Made(Next(s, acts[0]), t, acts[1..])
  }

  function MadeIn(c: Call): set<RequestId> {
    Made(c.from, c.t, c.acts)
  }

  /** An action of somebody else. */
  predicate Foreign(a: Action, t: TxnId) {
    a.Begin? || a.Run? || a.Abort? ==> a.t != t
  }

  lemma ForeignKeepsTxn(s: System, a: Action, t: TxnId)
    requires Enabled(s, a) && t in s.txns && Foreign(a, t)
    ensures t in Next(s, a).txns && Next(s, a).txns[t] == s.txns[t]
  {
  }

  /** The answer is about a row the call created. */
  predicate IsNew(out: Outcome) {
    out.SubmitOk? && !out.existed
  }

  /**
   Where a call stands however the student's requests change meanwhile: `made`
   is what its own transaction has committed since the store was `before`.
   */
  ghost predicate OwnStage(before: Store, now: Store, input: SubmitInput, x: Txn, made: set<RequestId>) {
    && Persist(before.requests, now.requests)
    && (forall id :: id in made ==> id !in before.requests && id in now.requests)
    && OwnProgress(before, now, input, x, made)
  }

  ghost predicate OwnProgress(before: Store, now: Store, input: SubmitInput, x: Txn, made: set<RequestId>) {
    match x
    case Submitting(input', pc) => input' == input && made == {} && (HasKey(before, input) ==> pc.FindKey?)
    case Done(out) =>
      && !out.Committed?
      && made == (if IsNew(out) then {out.request} else {})
      && (out.SubmitOk? ==> HoldsKey(now.requests, out.request, input))
      && (HasKey(before, input) ==> !IsNew(out))
    case _ => false
  }

  lemma PersistFurther(before: Requests, now: Requests, next: Requests)
    requires Persist(before, now) && Persist(now, next)
    ensures Persist(before, next)
  {
  }

  lemma KeyPersists(rs: Requests, rs': Requests, input: SubmitInput, id: RequestId)
    requires Persist(rs, rs') && HoldsKey(rs, id, input)
    ensures HoldsKey(rs', id, input)
  {
  }

  lemma OthersKeepOwnStage(before: Store, s: System, a: Action, input: SubmitInput, t: TxnId, made: set<RequestId>)
    requires Inv(s) && Enabled(s, a) && t in s.txns && Foreign(a, t) && OwnStage(before, s.db, input, s.txns[t], made)
    ensures t in Next(s, a).txns && OwnStage(before, Next(s, a).db, input, Next(s, a).txns[t], made)
  {
    ForeignKeepsTxn(s, a, t);
    StepPersists(s, a);
    PersistFurther(before.requests, s.db.requests, Next(s, a).db.requests);
  }

  /** The row an own statement commits, if it commits one. */
  function MadeBy(x: Txn): set<RequestId> {
    if x.Submitting? && x.spc.CommitSubmit? then {x.spc.id} else {}
  }

  lemma OwnReadKeepsProgress(before: Store, db: Store, arrivals: nat, input: SubmitInput, pc: SubmitPc, c: Choice)
    requires SubmitHolds(db, input, pc) && !pc.CommitSubmit? && KeysUnique(db.requests) && Persist(before.requests, db.requests)
    requires OwnProgress(before, db, input, Submitting(input, pc), {})
    ensures OwnProgress(before, db, input, SubmitStep(db, arrivals, input, pc, c), {})
  {
    if HasKey(before, input) {
      var id :| id in KeyEntries(before.requests, input.student, input.semester, input.key);
      KeyPersists(before.requests, db.requests, input, id);
      KeyFindsRequest(db, input, id);
    }
  }

  lemma OwnCommitKeepsStage(before: Store, s: System, c: Choice, input: SubmitInput, t: TxnId)
    requires Inv(s) && Enabled(s, Run(t, c)) && IsPending(s.txns[t]) && OwnStage(before, s.db, input, s.txns[t], {})
    ensures OwnStage(before, Next(s, Run(t, c)).db, input, Next(s, Run(t, c)).txns[t], MadeBy(s.txns[t]))
  {
    var s', x := Next(s, Run(t, c)), s.txns[t];
    assert TxnOk(s.db, x) && PendingFresh(s, x.spc.id, x.spc.row);
    assert s'.db.requests == s.db.requests[x.spc.id := x.spc.row];
  }

  lemma OwnStatementKeepsStage(before: Store, s: System, c: Choice, input: SubmitInput, t: TxnId, made: set<RequestId>)
    requires Inv(s) && Enabled(s, Run(t, c)) && OwnStage(before, s.db, input, s.txns[t], made)
    ensures OwnStage(before, Next(s, Run(t, c)).db, input, Next(s, Run(t, c)).txns[t], made + MadeBy(s.txns[t]))
  {
    assert TxnOk(s.db, s.txns[t]);
    if IsPending(s.txns[t]) {
      OwnCommitKeepsStage(before, s, c, input, t);
    } else {
      OwnReadKeepsProgress(before, s.db, s.arrivals, input, s.txns[t].spc, c);
    }
  }

  /** A statement adds a request only at a commit. */
  lemma OwnStatementAdds(s: System, c: Choice, t: TxnId)
    requires Inv(s) && Enabled(s, Run(t, c)) && s.txns[t].Submitting?
    ensures Adds(s, t, Run(t, c)) == MadeBy(s.txns[t])
  {
    var x := s.txns[t];
    if IsPending(x) {
      assert PendingFresh(s, x.spc.id, x.spc.row);
      assert Next(s, Run(t, c)).db.requests == s.db.requests[x.spc.id := x.spc.row];
    }
  }

  lemma BreakingOffKeepsOwnStage(before: Store, s: System, input: SubmitInput, t: TxnId, made: set<RequestId>)
    requires Enabled(s, Abort(t)) && OwnStage(before, s.db, input, s.txns[t], made)
    ensures OwnStage(before, Next(s, Abort(t)).db, input, Next(s, Abort(t)).txns[t], made)
  {
  }

  /** Any step: the call's own, somebody else's, or the call being broken off. */
  lemma StepKeepsOwnStage(before: Store, s: System, a: Action, input: SubmitInput, t: TxnId, made: set<RequestId>)
    requires Inv(s) && Enabled(s, a) && t in s.txns && OwnStage(before, s.db, input, s.txns[t], made)
    ensures Inv(Next(s, a)) && t in Next(s, a).txns
    ensures OwnStage(before, Next(s, a).db, input, Next(s, a).txns[t], made + Adds(s, t, a))
  {
    StepKeepsInv(s, a);
    if Foreign(a, t) {
      OthersKeepOwnStage(before, s, a, input, t, made);
      assert made + Adds(s, t, a) == made;
    } else if a.Run? {
      OwnStatementAdds(s, a.choice, t);
      OwnStatementKeepsStage(before, s, a.choice, input, t, made);
    } else {
      BreakingOffKeepsOwnStage(before, s, input, t, made);
      assert made + Adds(s, t, a) == made;
    }
  }

  lemma {:induction false} StepsKeepOwnStage(before: Store, s: System, acts: seq<Action>, input: SubmitInput, t: TxnId,
                                             made: set<RequestId>)
    requires Inv(s) && Play(s, acts).Some? && t in s.txns && OwnStage(before, s.db, input, s.txns[t], made)
    ensures var s' := Play(s, acts).value;
      Inv(s') && t in s'.txns && OwnStage(before, s'.db, input, s'.txns[t], made + Made(s, t, acts))
    decreases |acts|
  {
    if acts == [] {
      assert made + Made(s, t, acts) == made;
    } else {
      StepKeepsOwnStage(before, s, acts[0], input, t, made);
      StepsKeepOwnStage(before, Next(s, acts[0]), acts[1..], input, t, made + Adds(s, t, acts[0]));
      MadeFirst(s, t, acts, made);
    }
  }

  lemma MadeFirst(s: System, t: TxnId, acts: seq<Action>, made: set<RequestId>)
    requires acts != [] && Enabled(s, acts[0])
    ensures made + Made(s, t, acts) == (made + Adds(s, t, acts[0])) + Made(Next(s, acts[0]), t, acts[1..])
  {
  }

  /**
   Whatever others do meanwhile, a call's own steps add the request it reports
   as new and nothing else; a successful answer names a stored request with the
   call's key; and a call whose key was taken when it began adds nothing.
   */
  lemma CallAddsWhatItReports(c: Call, input: SubmitInput)
    requires Inv(c.from) && IsCall(c, input)
    ensures Inv(c.to) && OwnStage(c.from.db, c.to.db, input, Done(Answer(c)), MadeIn(c))
  {
    var begun := Next(c.from, c.acts[0]);
    StepKeepsInv(c.from, c.acts[0]);
    StepsKeepOwnStage(c.from.db, begun, c.acts[1..], input, c.t, {});
    assert MadeIn(c) == {} + Made(begun, c.t, c.acts[1..]);
  }

  lemma {:induction false} StepsPersist(s: System, acts: seq<Action>)
    requires Inv(s) && Play(s, acts).Some?
    ensures Inv(Play(s, acts).value) && Persist(s.db.requests, Play(s, acts).value.db.requests)
    decreases |acts|
  {
    if acts != [] {
      StepKeepsInv(s, acts[0]);
      StepPersists(s, acts[0]);
      StepsPersist(Next(s, acts[0]), acts[1..]);
      PersistFurther(s.db.requests, Next(s, acts[0]).db.requests, Play(s, acts).value.db.requests);
    }
  }

  lemma ReachedPersists(s: System, s': System)
    requires Inv(s) && Reached(s, s')
    ensures Inv(s') && Persist(s.db.requests, s'.db.requests)
  {
    var acts :| Play(s, acts) == Some(s');
    StepsPersist(s, acts);
  }

  // ---------------------------------------------------------------- batches

  function ItemKey(baseKey: string, i: nat): string {
    baseKey + ":" + Decimal.Numeral(i)
  }

  lemma ItemKeysDistinct(baseKey: string, i: nat, j: nat)
    requires ItemKey(baseKey, i) == ItemKey(baseKey, j)
    ensures i == j
  {
    var n := |baseKey + ":"|;
    assert ItemKey(baseKey, i)[n..] == Decimal.Numeral(i);
    assert ItemKey(baseKey, j)[n..] == Decimal.Numeral(j);
    Decimal.NumeralInjective(i, j);
  }

  function Item(sem: SemesterId, st: StudentId, baseKey: string, groups: seq<GroupId>, i: nat): SubmitInput
    requires i < |groups|
  {
    SubmitInput(sem, st, groups[i], ItemKey(baseKey, i))
  }

  /** Calls for the first items of a batch. */
  ghost predicate IsBatch(calls: seq<Call>, sem: SemesterId, st: StudentId, baseKey: string, groups: seq<GroupId>) {
    |calls| <= |groups| && forall k :: 0 <= k < |calls| ==> IsCall(calls[k], Item(sem, st, baseKey, groups, k))
  }

  /** The calls follow one another in a run that leads from `from` to `to`. */
  ghost predicate InTurn(from: System, calls: seq<Call>, to: System)
    decreases |calls|
  {
    if calls == [] then Reached(from, to)
    else
      var last := calls[|calls| - 1];
      InTurn(from, calls[..|calls| - 1], last.from) && Reached(last.to, to)
  }

  /** What the own steps of all of them add to the store. */
  function MadeInAll(calls: seq<Call>): set<RequestId>
    decreases |calls|
  {
    if calls == [] then {} else MadeInAll(calls[..|calls| - 1]) + MadeIn(calls[|calls| - 1])
  }

  /** A batch is its last call after the others. */
  lemma LastOfBatch(from: System, calls: seq<Call>, to: System, sem: SemesterId, st: StudentId, baseKey: string, groups: seq<GroupId>)
    requires calls != [] && IsBatch(calls, sem, st, baseKey, groups) && InTurn(from, calls, to)
    ensures var n := |calls| - 1;
      && n < |groups| && IsCall(calls[n], Item(sem, st, baseKey, groups, n)) && Reached(calls[n].to, to)
      && IsBatch(calls[..n], sem, st, baseKey, groups) && InTurn(from, calls[..n], calls[n].from)
      && MadeInAll(calls) == MadeInAll(calls[..n]) + MadeIn(calls[n])
  {
  }

  /** The answers are those of the calls, up to the first that failed. */
  ghost predicate Tells(calls: seq<Call>, out: seq<Outcome>, err: Option<Error>) {
    && (if err.None? then |calls| == |out| else |calls| == |out| + 1 && Answer(calls[|out|]) == Failed(err.value))
    && forall k :: 0 <= k < |out| ==> out[k] == Answer(calls[k]) && out[k].SubmitOk?
  }

  /** The ids a batch created. */
  function CreatedBy(out: seq<Outcome>): set<RequestId> {
    set i | 0 <= i < |out| && IsNew(out[i]) :: out[i].request
  }

  lemma CreatedBySnoc(out: seq<Outcome>, res: Outcome)
    ensures CreatedBy(out + [res]) == CreatedBy(out) + if IsNew(res) then {res.request} else {}
  {
    var out' := out + [res];
    forall id ensures id in CreatedBy(out') <==> id in CreatedBy(out) || (IsNew(res) && id == res.request) {
      if id in CreatedBy(out) {
        var i :| 0 <= i < |out| && IsNew(out[i]) && out[i].request == id;
        assert out'[i] == out[i];
      }
      if IsNew(res) && id == res.request {
        assert out'[|out|] == res;
      }
    }
  }

  /**
   What a batch has done by its own transactions, however the student's
   requests changed meanwhile: each answer is stored under its item's key, and
   the requests made are exactly those reported as new.
   */
  ghost predicate OwnBatch(before: Store, now: Store, sem: SemesterId, st: StudentId, baseKey: string,
                           groups: seq<GroupId>, out: seq<Outcome>, made: set<RequestId>)
  {
    && |out| <= |groups|
    && Persist(before.requests, now.requests)
    && made == CreatedBy(out)
    && (forall id :: id in made ==> id !in before.requests && id in now.requests)
    && (forall i :: 0 <= i < |out| ==> AnswerKept(before, now, Item(sem, st, baseKey, groups, i), out[i]))
  }

  ghost predicate AnswerKept(before: Store, now: Store, input: SubmitInput, out: Outcome) {
    && out.SubmitOk? && HoldsKey(now.requests, out.request, input)
    && (HasKey(before, input) ==> !IsNew(out))
  }

  lemma KeyTakenLater(before: Store, now: Store, input: SubmitInput)
    requires Persist(before.requests, now.requests) && HasKey(before, input)
    ensures HasKey(now, input)
  {
    var id :| id in KeyEntries(before.requests, input.student, input.semester, input.key);
    KeyPersists(before.requests, now.requests, input, id);
  }

  lemma AnswersStayKept(before: Store, now: Store, next: Store, input: SubmitInput, out: Outcome)
    requires AnswerKept(before, now, input, out) && Persist(now.requests, next.requests)
    ensures AnswerKept(before, next, input, out)
  {
    KeyPersists(now.requests, next.requests, input, out.request);
  }

  lemma OwnBatchStays(before: Store, now: Store, next: Store, sem: SemesterId, st: StudentId, baseKey: string,
                      groups: seq<GroupId>, out: seq<Outcome>, made: set<RequestId>)
    requires OwnBatch(before, now, sem, st, baseKey, groups, out, made) && Persist(now.requests, next.requests)
    ensures OwnBatch(before, next, sem, st, baseKey, groups, out, made)
  {
    PersistFurther(before.requests, now.requests, next.requests);
    forall i | 0 <= i < |out| ensures AnswerKept(before, next, Item(sem, st, baseKey, groups, i), out[i]) {
      AnswersStayKept(before, now, next, Item(sem, st, baseKey, groups, i), out[i]);
    }
  }

  /** After one more item: whatever it answered, the batch so far stands, and with it if it succeeded. */
  lemma OneMoreItem(before: Store, now: Store, next: Store, sem: SemesterId, st: StudentId, baseKey: string,
                    groups: seq<GroupId>, out: seq<Outcome>, made: set<RequestId>, res: Outcome, itemMade: set<RequestId>)
    requires OwnBatch(before, now, sem, st, baseKey, groups, out, made) && |out| < |groups|
    requires OwnStage(now, next, Item(sem, st, baseKey, groups, |out|), Done(res), itemMade)
    ensures res.Failed? ==> OwnBatch(before, next, sem, st, baseKey, groups, out, made + itemMade)
    ensures res.SubmitOk? ==> OwnBatch(before, next, sem, st, baseKey, groups, out + [res], made + itemMade)
    ensures res.SubmitOk? || res.Failed?
  {
    var input := Item(sem, st, baseKey, groups, |out|);
    OwnBatchStays(before, now, next, sem, st, baseKey, groups, out, made);
    CreatedBySnoc(out, res);
    assert res.Failed? ==> made + itemMade == made;
    if HasKey(before, input) {
      KeyTakenLater(before, now, input);
    }
  }

  /** The answers that count when the last call is left out. */
  lemma ToldBefore(calls: seq<Call>, out: seq<Outcome>, err: Option<Error>) returns (out': seq<Outcome>)
    requires calls != [] && Tells(calls, out, err)
    ensures Tells(calls[..|calls| - 1], out', None)
    ensures out == if err.None? then out' + [Answer(calls[|calls| - 1])] else out'
  {
    out' := out[..|calls| - 1];
  }

  /** Calls in turn for the items of a batch do together what their answers report. */
  lemma {:induction false} BatchAddsWhatItReports(from: System, calls: seq<Call>, to: System, sem: SemesterId, st: StudentId,
                                                  baseKey: string, groups: seq<GroupId>, out: seq<Outcome>, err: Option<Error>)
    requires Inv(from) && IsBatch(calls, sem, st, baseKey, groups) && InTurn(from, calls, to) && Tells(calls, out, err)
    ensures Inv(to) && OwnBatch(from.db, to.db, sem, st, baseKey, groups, out, MadeInAll(calls))
    decreases |calls|
  {
    if calls == [] {
      ReachedPersists(from, to);
    } else {
      var n := |calls| - 1;
      var last := calls[n];
      LastOfBatch(from, calls, to, sem, st, baseKey, groups);
      var out' := ToldBefore(calls, out, err);
      BatchAddsWhatItReports(from, calls[..n], last.from, sem, st, baseKey, groups, out', None);
      CallAddsWhatItReports(last, Item(sem, st, baseKey, groups, n));
      OneMoreItem(from.db, last.from.db, last.to.db, sem, st, baseKey, groups, out', MadeInAll(calls[..n]), Answer(last), MadeIn(last));
      ReachedPersists(last.to, to);
      OwnBatchStays(from.db, last.to.db, to.db, sem, st, baseKey, groups, out, MadeInAll(calls));
    }
  }

  // ---------------------------------------------------------------- reruns

  /** All keys of a batch belong to stored requests. */
  ghost predicate KeysTaken(db: Store, sem: SemesterId, st: StudentId, baseKey: string, groups: seq<GroupId>) {
    forall i :: 0 <= i < |groups| ==> HasKey(db, Item(sem, st, baseKey, groups, i))
  }

  lemma KeysStayTaken(before: Store, now: Store, sem: SemesterId, st: StudentId, baseKey: string, groups: seq<GroupId>)
    requires KeysTaken(before, sem, st, baseKey, groups) && Persist(before.requests, now.requests)
    ensures KeysTaken(now, sem, st, baseKey, groups)
  {
    forall i | 0 <= i < |groups| ensures HasKey(now, Item(sem, st, baseKey, groups, i)) {
      KeyTakenLater(before, now, Item(sem, st, baseKey, groups, i));
    }
  }

  lemma TakenKeyAddsNothing(c: Call, sem: SemesterId, st: StudentId, baseKey: string, groups: seq<GroupId>, k: nat)
    requires Inv(c.from) && KeysTaken(c.from.db, sem, st, baseKey, groups)
    requires k < |groups| && IsCall(c, Item(sem, st, baseKey, groups, k))
    ensures Inv(c.to) && KeysTaken(c.to.db, sem, st, baseKey, groups) && MadeIn(c) == {}
  {
    CallAddsWhatItReports(c, Item(sem, st, baseKey, groups, k));
    KeysStayTaken(c.from.db, c.to.db, sem, st, baseKey, groups);
  }

  /** Calls for items whose keys are taken add nothing, whatever others do. */
  lemma {:induction false} TakenKeysAddNothing(from: System, calls: seq<Call>, to: System, sem: SemesterId, st: StudentId,
                                               baseKey: string, groups: seq<GroupId>)
    requires Inv(from) && IsBatch(calls, sem, st, baseKey, groups) && InTurn(from, calls, to)
    requires KeysTaken(from.db, sem, st, baseKey, groups)
    ensures Inv(to) && KeysTaken(to.db, sem, st, baseKey, groups) && MadeInAll(calls) == {}
    decreases |calls|
  {
    if calls == [] {
      ReachedPersists(from, to);
      KeysStayTaken(from.db, to.db, sem, st, baseKey, groups);
    } else {
      var n := |calls| - 1;
      LastOfBatch(from, calls, to, sem, st, baseKey, groups);
      TakenKeysAddNothing(from, calls[..n], calls[n].from, sem, st, baseKey, groups);
      TakenKeyAddsNothing(calls[n], sem, st, baseKey, groups, n);
      ReachedPersists(calls[n].to, to);
      KeysStayTaken(calls[n].to.db, to.db, sem, st, baseKey, groups);
    }
  }

  /**
   A batch whose calls, from `before` to `now`, all succeeded and that is run
   again later, from `later` to `after`, with the same base key and groups:
   the own steps of the second run add no request, whatever others do during
   the two runs and between them, and wherever the second one stops.
   */
  lemma {:induction false} CompletedBatchMakesNothingAgain(before: System, calls: seq<Call>, now: System, out: seq<Outcome>,
                                                           later: System, again: seq<Call>, after: System, sem: SemesterId,
                                                           st: StudentId, baseKey: string, groups: seq<GroupId>)
    requires Inv(before) && IsBatch(calls, sem, st, baseKey, groups) && InTurn(before, calls, now)
    requires Tells(calls, out, None) && |calls| == |groups|
    requires Reached(now, later)
    requires IsBatch(again, sem, st, baseKey, groups) && InTurn(later, again, after)
    ensures MadeInAll(again) == {}
  {
    BatchAddsWhatItReports(before, calls, now, sem, st, baseKey, groups, out, None);
    forall i | 0 <= i < |groups| ensures HasKey(now.db, Item(sem, st, baseKey, groups, i)) {
      assert AnswerKept(before.db, now.db, Item(sem, st, baseKey, groups, i), out[i]);
    }
    ReachedPersists(now, later);
    KeysStayTaken(now.db, later.db, sem, st, baseKey, groups);
    TakenKeysAddNothing(later, again, after, sem, st, baseKey, groups);
  }

  // ---------------------------------------------------------------- reruns in any run of the machine

  /** By the n-th state every item of the batch has been submitted by some transaction and answered with a request. */
  ghost predicate BatchCompleted(ss: seq<System>, acts: seq<Action>, n: nat, sem: SemesterId, st: StudentId,
                                 baseKey: string, groups: seq<GroupId>)
    requires |ss| == |acts| + 1 && n < |ss|
  {
    forall k :: 0 <= k < |groups| ==>
      exists i, t :: 0 <= i < n && ItemAnswered(ss, acts, i, n, t, Item(sem, st, baseKey, groups, k))
  }

  ghost predicate ItemAnswered(ss: seq<System>, acts: seq<Action>, i: nat, n: nat, t: TxnId, input: SubmitInput)
    requires |ss| == |acts| + 1 && i < n < |ss|
  {
    acts[i] == Begin(t, CmdSubmit(input)) && t in ss[n].txns && ss[n].txns[t].Done? && ss[n].txns[t].out.SubmitOk?
  }

  /**
   In every run, once a batch is completed, a transaction that submits one of
   its items again never inserts and none of its statements changes the store,
   in any interleaving and whatever was decided, cancelled or moved.
   */
  lemma RerunInsertsNothing(ss: seq<System>, acts: seq<Action>, n: nat, i: nat, j: nat, t: TxnId, sem: SemesterId, st: StudentId,
                            baseKey: string, groups: seq<GroupId>, k: nat) returns (id: RequestId)
    requires IsRun(ss, acts) && n <= i < j < |ss| && k < |groups|
    requires BatchCompleted(ss, acts, n, sem, st, baseKey, groups)
    requires acts[i] == Begin(t, CmdSubmit(Item(sem, st, baseKey, groups, k)))
    ensures id in ss[n].db.requests && t in ss[j].txns && OnlyReplays(ss[j].txns[t], Item(sem, st, baseKey, groups, k), id)
    ensures j < |acts| && acts[j].Run? && acts[j].t == t ==>
      ss[j + 1].db == ss[j].db && ss[j + 1].arrivals == ss[j].arrivals && ss[j + 1].issued == ss[j].issued
  {
    var input := Item(sem, st, baseKey, groups, k);
    var b, u :| 0 <= b < n && ItemAnswered(ss, acts, b, n, u, input);
    AnsweredKeyIsTaken(ss, acts, b, n, u, input);
    id := ss[n].txns[u].out.request;
    RequestsPersist(ss, acts, n, i, id);
    TakenKeyNeverInserts(ss, acts, i, j, t, input, id);
  }
}
