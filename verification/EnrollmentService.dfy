/**
 The enrollment use cases as a client of the machine: each call runs its own
 transaction while any other transactions run in between.
 */
module EnrollmentService {
  import opened EnrollmentDomain
  import opened EnrollmentStore
  import opened EnrollmentMachine
  import opened EnrollmentInvariant
  import opened EnrollmentSafety
  import opened EnrollmentTheorems
  import opened EnrollmentCalls
  import Decimal

  // ---------------------------------------------------------------- what one submission promises

  /** The counts and indexes a submission consults depend only on the student's own requests. */
  lemma ViewDecides(rs: Requests, st: StudentId, sem: SemesterId)
    ensures var v := View(rs, st, sem);
      && ActiveOf(v, st, sem) == ActiveOf(rs, st, sem)
      && (forall key :: KeyEntries(v, st, sem, key) == KeyEntries(rs, st, sem, key))
      && (forall g :: ActiveEntries(v, st, sem, g) == ActiveEntries(rs, st, sem, g))
  {
    var v := View(rs, st, sem);
    assert forall id :: id in v <==> id in rs && rs[id].student == st && rs[id].semester == sem;
    forall key ensures KeyEntries(v, st, sem, key) == KeyEntries(rs, st, sem, key) {
    }
    forall g ensures ActiveEntries(v, st, sem, g) == ActiveEntries(rs, st, sem, g) {
    }
  }

  predicate NoKey(v: Requests, input: SubmitInput) {
    KeyEntries(v, input.student, input.semester, input.key) == {}
  }

  predicate NoActive(v: Requests, input: SubmitInput) {
    ActiveEntries(v, input.student, input.semester, input.group) == {}
  }

  function ActiveCount(v: Requests, input: SubmitInput): nat {
    |ActiveOf(v, input.student, input.semester)|
  }

  /** The answer reports this row. */
  predicate Reports(out: Outcome, id: RequestId, r: Request, existed: bool) {
    out == SubmitOk(id, r.offering, r.status, r.priority, r.arrival, existed)
  }

  /**
   What a submission does to the student's requests `before`, when nobody else
   touches them: it returns the row that has its key, or adds one row, or fails
   for a reason and leaves them alone.
   */
  ghost predicate SubmitContract(before: Requests, after: Requests, input: SubmitInput, out: Outcome) {
    match out
    case SubmitOk(id, _, _, _, _, true) =>
      && after == before
      && id in before && before[id].key == input.key && Reports(out, id, before[id], true)
    case SubmitOk(id, _, _, _, _, false) =>
      && NoKey(before, input) && NoActive(before, input) && ActiveCount(before, input) < MAX_ELECTIVES_PER_SEMESTER
      && id !in before && id in after && after == before[id := after[id]]
      && Submits(input, after[id]) && after[id].status.IsActive() && Reports(out, id, after[id], false)
    case Failed(e) =>
      && after == before
      && (e != ErrDatabase ==> NoKey(before, input))
      && (e == ErrMaxElectivesReached ==> ActiveCount(before, input) >= MAX_ELECTIVES_PER_SEMESTER)
      && (e == ErrDuplicateActiveRequest ==> !NoActive(before, input))
      && e != ErrDuplicateBatchItem
    case Committed => false
  }

  /** Where the call stands: `now` is the student's view while its transaction is at `x`. */
  ghost predicate Stage(before: Requests, now: Requests, input: SubmitInput, x: Txn) {
    match x
    case Done(out) => SubmitContract(before, now, input, out)
    case Submitting(input', pc) =>
      && input' == input && now == before
      && !pc.FindKeyAgain?
      && (!pc.FindKey? ==> NoKey(before, input))
      && (pc.CountSeats? || pc.Insert? || pc.CommitSubmit? ==> ActiveCount(before, input) < MAX_ELECTIVES_PER_SEMESTER)
      && (pc.CommitSubmit? ==> NoActive(before, input))
    case _ => false
  }

  lemma OwnStatement(db: Store, arrivals: nat, input: SubmitInput, pc: SubmitPc, c: Choice, before: Requests)
    requires SubmitHolds(db, input, pc) && !pc.CommitSubmit?
    requires Stage(before, View(db.requests, input.student, input.semester), input, Submitting(input, pc))
    ensures Stage(before, View(db.requests, input.student, input.semester), input, SubmitStep(db, arrivals, input, pc, c))
  {
    ViewDecides(db.requests, input.student, input.semester);
  }

  lemma ViewAfterOwnCommit(rs: Requests, id: RequestId, row: Request)
    requires id !in rs
    ensures View(rs[id := row], row.student, row.semester) == View(rs, row.student, row.semester)[id := row]
  {
  }

  lemma OwnStep(s: System, t: TxnId, c: Choice, input: SubmitInput, before: Requests)
    requires Inv(s) && Enabled(s, Run(t, c))
    requires Stage(before, View(s.db.requests, input.student, input.semester), input, s.txns[t])
    ensures Stage(before, View(Next(s, Run(t, c)).db.requests, input.student, input.semester), input, Next(s, Run(t, c)).txns[t])
  {
    assert TxnOk(s.db, s.txns[t]);
    if AtCommit(s.txns[t]) {
      var id, row := s.txns[t].spc.id, s.txns[t].spc.row;
      assert PendingFresh(s, id, row);
      ViewAfterOwnCommit(s.db.requests, id, row);
    } else {
      OwnStatement(s.db, s.arrivals, input, s.txns[t].spc, c, before);
    }
  }

  /** Whose turn it is; a turn that cannot be taken is skipped. */
  datatype Turn = Other(a: Action) | Own(c: Choice) | Fails

  /** It leaves this student's requests alone. */
  predicate LeavesAlone(s: System, a: Action, st: StudentId, sem: SemesterId)
    requires Enabled(s, a)
  {
    View(Next(s, a).db.requests, st, sem) == View(s.db.requests, st, sem)
  }

  // ---------------------------------------------------------------- one call in progress

  /**
   The steps `acts` lead from `start` to `s`, the first of them beginning the
   call's transaction; `quiet` says that nobody else touches the student's
   requests, and then the call keeps its promise about them.
   */
  ghost predicate Underway(start: System, acts: seq<Action>, s: System, input: SubmitInput, t: TxnId, quiet: bool) {
    && Inv(s) && t in s.txns && acts != [] && acts[0] == Begin(t, CmdSubmit(input)) && Play(start, acts) == Some(s)
    && (quiet ==> Stage(View(start.db.requests, input.student, input.semester),
                        View(s.db.requests, input.student, input.semester), input, s.txns[t]))
  }

  lemma CallBegins(s: System, t: TxnId, input: SubmitInput, quiet: bool)
    requires Inv(s) && t !in s.txns
    ensures Underway(s, [Begin(t, CmdSubmit(input))], Next(s, Begin(t, CmdSubmit(input))), input, t, quiet)
  {
    var a: Action := Begin(t, CmdSubmit(input));
    StepKeepsInv(s, a);
    PlayFirst(s, a, []);
    assert [a] + [] == [a];
  }

  lemma OthersKeepCall(start: System, acts: seq<Action>, s: System, a: Action, input: SubmitInput, t: TxnId, quiet: bool)
    requires Underway(start, acts, s, input, t, quiet) && Enabled(s, a) && Foreign(a, t)
    requires quiet ==> LeavesAlone(s, a, input.student, input.semester)
    ensures Underway(start, acts + [a], Next(s, a), input, t, quiet)
  {
    StepKeepsInv(s, a);
    PlayFurther(start, acts, a);
    ForeignKeepsTxn(s, a, t);
  }

  lemma OwnTurnKeepsCall(start: System, acts: seq<Action>, s: System, c: Choice, input: SubmitInput, t: TxnId, quiet: bool)
    requires Underway(start, acts, s, input, t, quiet) && Enabled(s, Run(t, c))
    ensures Underway(start, acts + [Run(t, c)], Next(s, Run(t, c)), input, t, quiet)
  {
    StepKeepsInv(s, Run(t, c));
    PlayFurther(start, acts, Run(t, c));
    if quiet {
      OwnStep(s, t, c, input, View(start.db.requests, input.student, input.semester));
    }
  }

  lemma BreakingOffKeepsCall(start: System, acts: seq<Action>, s: System, input: SubmitInput, t: TxnId, quiet: bool)
    requires Underway(start, acts, s, input, t, quiet) && Enabled(s, Abort(t))
    ensures Underway(start, acts + [Abort(t)], Next(s, Abort(t)), input, t, quiet)
  {
    StepKeepsInv(s, Abort(t));
    PlayFurther(start, acts, Abort(t));
  }

  // ---------------------------------------------------------------- batches

  predicate Distinct(groups: seq<GroupId>) {
    forall i, j :: 0 <= i < j < |groups| ==> groups[i] != groups[j]
  }

  /** The student already holds an active request for one of the groups. */
  predicate Overlaps(v: Requests, st: StudentId, sem: SemesterId, groups: seq<GroupId>) {
    exists i :: 0 <= i < |groups| && ActiveEntries(v, st, sem, groups[i]) != {}
  }

  /** Why a batch is refused before anything is submitted. */
  function Refusal(v: Requests, st: StudentId, sem: SemesterId, groups: seq<GroupId>): Option<Error> {
    if !Distinct(groups) then Some(ErrDuplicateBatchItem)
    else if Overlaps(v, st, sem, groups) then Some(ErrDuplicateActiveRequest)
    else if |ActiveOf(v, st, sem)| + |groups| > MAX_ELECTIVES_PER_SEMESTER then Some(ErrMaxElectivesReached)
    else None
  }

  /** The i-th answer is about the row with the i-th item's key. */
  ghost predicate Answers(v: Requests, sem: SemesterId, st: StudentId, baseKey: string, groups: seq<GroupId>,
                          out: seq<Outcome>, i: nat)
    requires i < |out| <= |groups|
  {
    && out[i].SubmitOk? && out[i].request in v
    && v[out[i].request].key == ItemKey(baseKey, i)
    && Reports(out[i], out[i].request, v[out[i].request], out[i].existed)
  }

  ghost predicate AllAnswer(v: Requests, sem: SemesterId, st: StudentId, baseKey: string,
                            groups: seq<GroupId>, out: seq<Outcome>)
  {
    |out| <= |groups| && forall i :: 0 <= i < |out| ==> Answers(v, sem, st, baseKey, groups, out, i)
  }

  /** A created row is new, in the group asked for, and had no predecessor with its key. */
  ghost predicate AllNew(before: Requests, now: Requests, sem: SemesterId, st: StudentId, baseKey: string,
                         groups: seq<GroupId>, out: seq<Outcome>)
  {
    && |out| <= |groups|
    && forall i :: 0 <= i < |out| && IsNew(out[i]) ==>
         && out[i].request in now && out[i].request !in before
         && now[out[i].request].group == groups[i]
         && NoKey(before, Item(sem, st, baseKey, groups, i))
  }

  /** The student's requests are those there were, unchanged, and those the batch created. */
  ghost predicate OnlyAdds(before: Requests, now: Requests, sem: SemesterId, st: StudentId, out: seq<Outcome>) {
    && now.Keys == before.Keys + CreatedBy(out)
    && (forall id :: id in before ==> id in now && now[id] == before[id])
    && |ActiveOf(now, st, sem)| <= |ActiveOf(before, st, sem)| + |out|
  }

  /** Where a batch stands after its first |out| items. */
  ghost predicate BatchState(before: Requests, now: Requests, sem: SemesterId, st: StudentId, baseKey: string,
                             groups: seq<GroupId>, out: seq<Outcome>)
  {
    && AllAnswer(now, sem, st, baseKey, groups, out)
    && AllNew(before, now, sem, st, baseKey, groups, out)
    && OnlyAdds(before, now, sem, st, out)
  }

  lemma NothingSubmitted(v: Requests, sem: SemesterId, st: StudentId, baseKey: string, groups: seq<GroupId>)
    ensures BatchState(v, v, sem, st, baseKey, groups, [])
  {
  }

  /** With room for all items and no clash, the next item meets neither the cap nor a duplicate. */
  lemma {:induction false} NextItemFits(before: Requests, now: Requests, sem: SemesterId, st: StudentId, baseKey: string,
                                        groups: seq<GroupId>, out: seq<Outcome>)
    requires BatchState(before, now, sem, st, baseKey, groups, out) && |out| < |groups|
    requires Refusal(before, st, sem, groups).None?
    ensures ActiveCount(now, Item(sem, st, baseKey, groups, |out|)) < MAX_ELECTIVES_PER_SEMESTER
    ensures NoActive(now, Item(sem, st, baseKey, groups, |out|))
  {
    var g := groups[|out|];
    forall id | id in now ensures id !in ActiveEntries(now, st, sem, g) {
      if id in before {
        assert now[id] == before[id];
        assert ActiveEntries(before, st, sem, g) == {};
        assert id !in ActiveEntries(before, st, sem, g);
      } else {
        assert id in CreatedBy(out);
      }
    }
  }

  lemma OneMoreAnswer(now: Requests, next: Requests, sem: SemesterId, st: StudentId, baseKey: string,
                      groups: seq<GroupId>, out: seq<Outcome>, res: Outcome)
    requires AllAnswer(now, sem, st, baseKey, groups, out) && |out| < |groups|
    requires forall id :: id in now ==> id in next && next[id] == now[id]
    requires Answers(next, sem, st, baseKey, groups, out + [res], |out|)
    ensures AllAnswer(next, sem, st, baseKey, groups, out + [res])
  {
    forall i | 0 <= i < |out| ensures Answers(next, sem, st, baseKey, groups, out + [res], i) {
      assert (out + [res])[i] == out[i] && Answers(now, sem, st, baseKey, groups, out, i);
    }
  }

  lemma OneMoreNew(before: Requests, now: Requests, next: Requests, sem: SemesterId, st: StudentId, baseKey: string,
                   groups: seq<GroupId>, out: seq<Outcome>, res: Outcome)
    requires AllNew(before, now, sem, st, baseKey, groups, out) && |out| < |groups|
    requires forall id :: id in now ==> id in next && next[id] == now[id]
    requires IsNew(res) ==>
      && res.request in next && res.request !in before && next[res.request].group == groups[|out|]
      && NoKey(before, Item(sem, st, baseKey, groups, |out|))
    ensures AllNew(before, next, sem, st, baseKey, groups, out + [res])
  {
    var out' := out + [res];
    forall i | 0 <= i < |out'| && IsNew(out'[i])
      ensures out'[i].request in next && out'[i].request !in before && next[out'[i].request].group == groups[i]
              && NoKey(before, Item(sem, st, baseKey, groups, i))
    {
      if i < |out| {
        assert out'[i] == out[i];
      }
    }
  }

  lemma ReplayAddsNothing(before: Requests, now: Requests, sem: SemesterId, st: StudentId, out: seq<Outcome>, res: Outcome)
    requires OnlyAdds(before, now, sem, st, out) && !IsNew(res)
    ensures OnlyAdds(before, now, sem, st, out + [res])
  {
    CreatedBySnoc(out, res);
    assert CreatedBy(out + [res]) == CreatedBy(out);
  }

  /** An item that found its row. */
  lemma BatchAdvancesByReplay(before: Requests, now: Requests, sem: SemesterId, st: StudentId, baseKey: string,
                              groups: seq<GroupId>, out: seq<Outcome>, res: Outcome)
    requires BatchState(before, now, sem, st, baseKey, groups, out) && |out| < |groups|
    requires res.SubmitOk? && res.existed
    requires SubmitContract(now, now, Item(sem, st, baseKey, groups, |out|), res)
    ensures BatchState(before, now, sem, st, baseKey, groups, out + [res])
  {
    OneMoreAnswer(now, now, sem, st, baseKey, groups, out, res);
    OneMoreNew(before, now, now, sem, st, baseKey, groups, out, res);
    ReplayAddsNothing(before, now, sem, st, out, res);
  }

  /** An item that made its row. */
  lemma BatchAdvancesByInsert(before: Requests, now: Requests, next: Requests, sem: SemesterId, st: StudentId,
                              baseKey: string, groups: seq<GroupId>, out: seq<Outcome>, res: Outcome)
    requires BatchState(before, now, sem, st, baseKey, groups, out) && |out| < |groups|
    requires IsNew(res)
    requires SubmitContract(now, next, Item(sem, st, baseKey, groups, |out|), res)
    ensures BatchState(before, next, sem, st, baseKey, groups, out + [res])
  {
    var input, row := Item(sem, st, baseKey, groups, |out|), next[res.request];
    CreatedBySnoc(out, res);
    ActiveAfterInsert(now, res.request, row, st, sem);
    forall id | id in before ensures id !in KeyEntries(before, st, sem, input.key) {
      assert now[id] == before[id] && id !in KeyEntries(now, st, sem, input.key);
    }
    assert next == now[res.request := row];
    OneMoreAnswer(now, next, sem, st, baseKey, groups, out, res);
    OneMoreNew(before, now, next, sem, st, baseKey, groups, out, res);
  }

  /** One more item while nobody else touches the student's requests: it meets neither the cap nor a duplicate. */
  lemma ItemKeepsBatch(before: Requests, now: Requests, next: Requests, sem: SemesterId, st: StudentId, baseKey: string,
                       groups: seq<GroupId>, out: seq<Outcome>, res: Outcome)
    requires Refusal(before, st, sem, groups).None?
    requires BatchState(before, now, sem, st, baseKey, groups, out) && |out| < |groups|
    requires SubmitContract(now, next, Item(sem, st, baseKey, groups, |out|), res)
    ensures res.Failed? ==> BatchState(before, next, sem, st, baseKey, groups, out)
    ensures res.Failed? ==>
      res.error != ErrDuplicateBatchItem && res.error != ErrDuplicateActiveRequest && res.error != ErrMaxElectivesReached
    ensures res.SubmitOk? ==> BatchState(before, next, sem, st, baseKey, groups, out + [res])
  {
    NextItemFits(before, now, sem, st, baseKey, groups, out);
    if res.SubmitOk? && res.existed {
      BatchAdvancesByReplay(before, now, sem, st, baseKey, groups, out, res);
    } else if res.SubmitOk? {
      BatchAdvancesByInsert(before, now, next, sem, st, baseKey, groups, out, res);
    }
  }

  /** Where a batch stands: its calls so far in turn, and their answers up to the first failure. */
  ghost predicate BatchAt(start: System, calls: seq<Call>, now: System, sem: SemesterId, st: StudentId, baseKey: string,
                          groups: seq<GroupId>, out: seq<Outcome>, err: Option<Error>, quiet: bool)
  {
    && IsBatch(calls, sem, st, baseKey, groups) && InTurn(start, calls, now) && Tells(calls, out, err)
    && (quiet ==>
          && BatchState(View(start.db.requests, st, sem), View(now.db.requests, st, sem), sem, st, baseKey, groups, out)
          && err != Some(ErrDuplicateBatchItem) && err != Some(ErrDuplicateActiveRequest) && err != Some(ErrMaxElectivesReached))
  }

  /** One more call directly after the others. */
  lemma OneMoreCall(start: System, calls: seq<Call>, call: Call, sem: SemesterId, st: StudentId, baseKey: string,
                    groups: seq<GroupId>, out: seq<Outcome>)
    requires IsBatch(calls, sem, st, baseKey, groups) && InTurn(start, calls, call.from) && Tells(calls, out, None)
    requires |calls| < |groups| && IsCall(call, Item(sem, st, baseKey, groups, |calls|))
    ensures IsBatch(calls + [call], sem, st, baseKey, groups) && InTurn(start, calls + [call], call.to)
    ensures Answer(call).SubmitOk? ==> Tells(calls + [call], out + [Answer(call)], None)
    ensures Answer(call).Failed? ==> Tells(calls + [call], out, Some(Answer(call).error))
  {
    var calls' := calls + [call];
    assert calls'[..|calls'| - 1] == calls;
    ReachedSelf(call.to);
  }

  lemma CallKeepsBatch(start: System, calls: seq<Call>, call: Call, sem: SemesterId, st: StudentId, baseKey: string,
                       groups: seq<GroupId>, out: seq<Outcome>, quiet: bool)
    requires Refusal(View(start.db.requests, st, sem), st, sem, groups).None?
    requires BatchAt(start, calls, call.from, sem, st, baseKey, groups, out, None, quiet)
    requires |calls| < |groups| && IsCall(call, Item(sem, st, baseKey, groups, |calls|))
    requires quiet ==> SubmitContract(View(call.from.db.requests, st, sem), View(call.to.db.requests, st, sem),
                                      Item(sem, st, baseKey, groups, |calls|), Answer(call))
    ensures Answer(call).SubmitOk? ==>
      BatchAt(start, calls + [call], call.to, sem, st, baseKey, groups, out + [Answer(call)], None, quiet)
    ensures Answer(call).Failed? ==>
      BatchAt(start, calls + [call], call.to, sem, st, baseKey, groups, out, Some(Answer(call).error), quiet)
  {
    OneMoreCall(start, calls, call, sem, st, baseKey, groups, out);
    if quiet {
      ItemKeepsBatch(View(start.db.requests, st, sem), View(call.from.db.requests, st, sem), View(call.to.db.requests, st, sem),
                     sem, st, baseKey, groups, out, Answer(call));
    }
  }

  /** While nobody else touches the student's requests, a batch whose keys are all taken changes none of them. */
  lemma NothingCreatedNothingChanged(before: Requests, now: Requests, sem: SemesterId, st: StudentId, baseKey: string,
                                     groups: seq<GroupId>, out: seq<Outcome>)
    requires BatchState(before, now, sem, st, baseKey, groups, out) && CreatedBy(out) == {}
    ensures now == before
  {
  }

  // ---------------------------------------------------------------- pre-checks

  function Ids(views: seq<(RequestId, Request)>): set<RequestId> {
    set k | 0 <= k < |views| :: views[k].0
  }

  lemma IdsSnoc(views: seq<(RequestId, Request)>, v: (RequestId, Request))
    ensures Ids(views + [v]) == Ids(views) + {v.0}
  {
    var views' := views + [v];
    assert views'[|views|] == v;
    forall id | id in Ids(views) ensures id in Ids(views') {
      var k :| 0 <= k < |views| && views[k].0 == id;
      assert views'[k].0 == id;
    }
  }

  /** The list holds every row once. */
  ghost predicate Lists(views: seq<(RequestId, Request)>, rows: Requests) {
    && Ids(views) == rows.Keys
    && (forall k :: 0 <= k < |views| ==> views[k].0 in rows && views[k].1 == rows[views[k].0])
    && (forall j, k :: 0 <= j < k < |views| ==> views[j].0 != views[k].0)
  }

  method HasDuplicate(groups: seq<GroupId>) returns (dup: bool)
    ensures dup <==> !Distinct(groups)
  {
    var seen: set<GroupId> := {};
    for i := 0 to |groups|
      invariant forall g :: g in seen <==> exists k :: 0 <= k < i && groups[k] == g
      invariant forall j, k :: 0 <= j < k < i ==> groups[j] != groups[k]
    {
      if groups[i] in seen {
        return true;
      }
      seen := seen + {groups[i]};
    }
    return false;
  }

  function ActiveIds(views: seq<(RequestId, Request)>): set<RequestId> {
    set k | 0 <= k < |views| && views[k].1.status.IsActive() :: views[k].0
  }

  function ActiveGroups(views: seq<(RequestId, Request)>): set<GroupId> {
    set k | 0 <= k < |views| && views[k].1.status.IsActive() :: views[k].1.group
  }

  lemma ActiveIdsSnoc(views: seq<(RequestId, Request)>, v: (RequestId, Request))
    ensures ActiveIds(views + [v]) == ActiveIds(views) + if v.1.status.IsActive() then {v.0} else {}
  {
    var views' := views + [v];
    assert views'[|views|] == v;
    assert forall k :: 0 <= k < |views| ==> views'[k] == views[k];
    forall id | id in ActiveIds(views) ensures id in ActiveIds(views') {
      var k :| 0 <= k < |views| && views[k].1.status.IsActive() && views[k].0 == id;
      assert views'[k].0 == id;
    }
  }

  lemma ActiveGroupsSnoc(views: seq<(RequestId, Request)>, v: (RequestId, Request))
    ensures ActiveGroups(views + [v]) == ActiveGroups(views) + if v.1.status.IsActive() then {v.1.group} else {}
  {
    var views' := views + [v];
    assert views'[|views|] == v;
    assert forall k :: 0 <= k < |views| ==> views'[k] == views[k];
    forall g | g in ActiveGroups(views) ensures g in ActiveGroups(views') {
      var k :| 0 <= k < |views| && views[k].1.status.IsActive() && views[k].1.group == g;
      assert views'[k].1.group == g;
    }
  }

  /** Counts the active requests of a listing and collects their groups. */
  method CountActiveViews(views: seq<(RequestId, Request)>) returns (count: nat, groups: set<GroupId>)
    requires forall j, k :: 0 <= j < k < |views| ==> views[j].0 != views[k].0
    ensures count == |ActiveIds(views)|
    ensures groups == ActiveGroups(views)
  {
    count, groups := 0, {};
    for i := 0 to |views|
      invariant count == |ActiveIds(views[..i])|
      invariant groups == ActiveGroups(views[..i])
    {
      assert views[..i + 1] == views[..i] + [views[i]];
      ActiveIdsSnoc(views[..i], views[i]);
      ActiveGroupsSnoc(views[..i], views[i]);
      assert views[i].0 !in ActiveIds(views[..i]);
      if views[i].1.status.IsActive() {
        count := count + 1;
        groups := groups + {views[i].1.group};
      }
    }
    assert views[..|views|] == views;
  }

  /** A complete listing shows the active requests and the groups they are in. */
  lemma ListingShowsActive(views: seq<(RequestId, Request)>, rows: Requests, st: StudentId, sem: SemesterId)
    requires Lists(views, rows)
    requires forall id :: id in rows ==> rows[id].student == st && rows[id].semester == sem
    ensures ActiveIds(views) == ActiveOf(rows, st, sem)
    ensures forall g :: g in ActiveGroups(views) <==> ActiveEntries(rows, st, sem, g) != {}
  {
    forall id | id in ActiveOf(rows, st, sem) ensures id in ActiveIds(views) && rows[id].group in ActiveGroups(views) {
      assert id in Ids(views);
    }
    forall g ensures g in ActiveGroups(views) <==> ActiveEntries(rows, st, sem, g) != {} {
      if g in ActiveGroups(views) {
        var k :| 0 <= k < |views| && views[k].1.status.IsActive() && views[k].1.group == g;
        assert views[k].0 in ActiveEntries(rows, st, sem, g);
      }
      if id :| id in ActiveEntries(rows, st, sem, g) {
        assert id in ActiveOf(rows, st, sem);
      }
    }
  }

  // ---------------------------------------------------------------- the service

  class EnrollmentService {
    var sys: System
    var turns: seq<Turn>

    ghost predicate Valid()
      reads this
    {
      Inv(sys)
    }

    ghost function Mine(st: StudentId, sem: SemesterId): Requests
      reads this
    {
      View(sys.db.requests, st, sem)
    }

    /**
     Others run, then this call's own statement, then others again, until the
     call is done. `call` is the part of the machine's run this makes up.
     `quiet` says of the environment that the others leave the student's
     requests alone; otherwise they do anything.
     */
    method Submit(input: SubmitInput, quiet: bool) returns (out: Outcome, ghost call: Call)
      requires Valid()
      modifies this
      ensures Valid()
      ensures call.from == old(sys) && call.to == sys && IsCall(call, input) && out == Answer(call)
      ensures OwnStage(old(sys.db), sys.db, input, Done(out), MadeIn(call))
      ensures quiet ==> SubmitContract(old(Mine(input.student, input.semester)), Mine(input.student, input.semester), input, out)
    {
      var t := Unused(sys.txns.Keys);
      ghost var acts := [Begin(t, CmdSubmit(input))];
      CallBegins(sys, t, input, quiet);
      sys := Next(sys, Begin(t, CmdSubmit(input)));
      while turns != [] && !sys.txns[t].Done?
        invariant Underway(old(sys), acts, sys, input, t, quiet)
        decreases |turns|
      {
        var turn := turns[0];
        turns := turns[1..];
        match turn {
          case Other(a) =>
            if Enabled(sys, a) && Foreign(a, t) && (quiet ==> LeavesAlone(sys, a, input.student, input.semester)) {
              OthersKeepCall(old(sys), acts, sys, a, input, t, quiet);
              acts := acts + [a];
              sys := Next(sys, a);
            }
          case Own(c) =>
            if Enabled(sys, Run(t, c)) {
              OwnTurnKeepsCall(old(sys), acts, sys, c, input, t, quiet);
              acts := acts + [Run(t, c)];
              sys := Next(sys, Run(t, c));
            }
          case Fails =>
            BreakingOffKeepsCall(old(sys), acts, sys, input, t, quiet);
            acts := acts + [Abort(t)];
            sys := Next(sys, Abort(t));
        }
      }
      if !sys.txns[t].Done? {
        BreakingOffKeepsCall(old(sys), acts, sys, input, t, quiet);
        acts := acts + [Abort(t)];
        sys := Next(sys, Abort(t));
      }
      out := sys.txns[t].out;
      call := Call(old(sys), t, acts, sys);
      CallAddsWhatItReports(call, input);
    }

    /** The student's requests in a semester, each once; the query may fail. */
    method ListMine(st: StudentId, sem: SemesterId) returns (views: seq<(RequestId, Request)>, failed: bool)
      modifies this`turns
      ensures failed ==> views == []
      ensures !failed ==> Lists(views, Mine(st, sem))
    {
      views := [];
      if turns != [] && turns[0].Fails? {
        turns := turns[1..];
        return [], true;
      }
      failed := false;
      var rows := View(sys.db.requests, st, sem);
      var rest := rows.Keys;
      while rest != {}
        invariant rest <= rows.Keys && Ids(views) == rows.Keys - rest
        invariant forall k :: 0 <= k < |views| ==> views[k].0 in rows && views[k].1 == rows[views[k].0]
        invariant forall j, k :: 0 <= j < k < |views| ==> views[j].0 != views[k].0
        decreases rest
      {
        var id := Greatest(rest);
        assert forall k :: 0 <= k < |views| ==> views[k].0 in Ids(views);
        IdsSnoc(views, (id, rows[id]));
        views := views + [(id, rows[id])];
        rest := rest - {id};
      }
    }

    /**
     A batch is refused as a whole, with nothing changed, exactly when one of
     the three pre-checks fails. Otherwise its items are calls in turn in the
     machine's run, the answers are theirs up to the first failure, and whatever
     others do meanwhile, the calls' own steps add exactly the requests reported
     as new, and none if all keys were taken. While others leave the student's
     requests alone, no item fails for the cap or a duplicate, and a rerun
     changes none of them.
     */
    method SubmitBatch(sem: SemesterId, st: StudentId, baseKey: string, groups: seq<GroupId>, quiet: bool)
      returns (out: seq<Outcome>, err: Option<Error>, ghost calls: seq<Call>)
      requires Valid()
      modifies this
      ensures Valid()
      ensures Refusal(old(Mine(st, sem)), st, sem, groups).Some? ==>
        && out == [] && calls == [] && sys == old(sys)
        && (err == Refusal(old(Mine(st, sem)), st, sem, groups) || err == Some(ErrDatabase))
      ensures Refusal(old(Mine(st, sem)), st, sem, groups).None? && quiet ==>
        err != Some(ErrDuplicateBatchItem) && err != Some(ErrDuplicateActiveRequest) && err != Some(ErrMaxElectivesReached)
      ensures (err.None? ==> |out| == |groups|) && (err.Some? && groups != [] ==> |out| < |groups|)
      ensures IsBatch(calls, sem, st, baseKey, groups) && InTurn(old(sys), calls, sys)
      ensures if calls == [] then out == [] else Tells(calls, out, err)
      ensures OwnBatch(old(sys.db), sys.db, sem, st, baseKey, groups, out, MadeInAll(calls))
      ensures KeysTaken(old(sys.db), sem, st, baseKey, groups) ==> MadeInAll(calls) == {}
      ensures quiet ==> BatchState(old(Mine(st, sem)), Mine(st, sem), sem, st, baseKey, groups, out)
      ensures quiet && KeysTaken(old(sys.db), sem, st, baseKey, groups) ==> Mine(st, sem) == old(Mine(st, sem))
    {
      NothingSubmitted(Mine(st, sem), sem, st, baseKey, groups);
      ReachedSelf(sys);
      out, calls := [], [];
      BatchAddsWhatItReports(sys, calls, sys, sem, st, baseKey, groups, out, None);
      err := Precheck(sem, st, groups);
      if err.None? {
        out, err, calls := SubmitItems(sem, st, baseKey, groups, quiet);
      }
      if KeysTaken(old(sys.db), sem, st, baseKey, groups) {
        TakenKeysAddNothing(old(sys), calls, sys, sem, st, baseKey, groups);
        if quiet {
          NothingCreatedNothingChanged(old(Mine(st, sem)), Mine(st, sem), sem, st, baseKey, groups, out);
        }
      }
    }

    /** The three checks that refuse a batch before anything is submitted. */
    method Precheck(sem: SemesterId, st: StudentId, groups: seq<GroupId>) returns (err: Option<Error>)
      modifies this`turns
      ensures err == Refusal(Mine(st, sem), st, sem, groups) || err == Some(ErrDatabase)
    {
      var duplicate := HasDuplicate(groups);
      if duplicate {
        return Some(ErrDuplicateBatchItem);
      }
      var views, failed := ListMine(st, sem);
      if failed {
        return Some(ErrDatabase);
      }
      var activeCount, activeGroups := CountActiveViews(views);
      ListingShowsActive(views, Mine(st, sem), st, sem);
      for i := 0 to |groups|
        invariant forall k :: 0 <= k < i ==> groups[k] !in activeGroups
      {
        if groups[i] in activeGroups {
          assert ActiveEntries(Mine(st, sem), st, sem, groups[i]) != {};
          return Some(ErrDuplicateActiveRequest);
        }
      }
      if activeCount + |groups| > MAX_ELECTIVES_PER_SEMESTER {
        return Some(ErrMaxElectivesReached);
      }
      return None;
    }

    /** The next item of a batch that began at `start`. */
    method SubmitItem(sem: SemesterId, st: StudentId, baseKey: string, groups: seq<GroupId>, i: nat, quiet: bool,
                      ghost start: System, ghost calls: seq<Call>, ghost out: seq<Outcome>)
      returns (res: Outcome, ghost calls': seq<Call>)
      requires Valid() && i < |groups| && |calls| == i
      requires Refusal(View(start.db.requests, st, sem), st, sem, groups).None?
      requires BatchAt(start, calls, sys, sem, st, baseKey, groups, out, None, quiet)
      modifies this
      ensures Valid() && (res.SubmitOk? || res.Failed?)
      ensures res.SubmitOk? ==> BatchAt(start, calls', sys, sem, st, baseKey, groups, out + [res], None, quiet)
      ensures res.Failed? ==> BatchAt(start, calls', sys, sem, st, baseKey, groups, out, Some(res.error), quiet)
    {
      var index := Decimal.Itoa(i);
      ghost var call;
      res, call := Submit(SubmitInput(sem, st, groups[i], baseKey + ":" + index), quiet);
      CallKeepsBatch(start, calls, call, sem, st, baseKey, groups, out, quiet);
      calls' := calls + [call];
    }

    /** The items of an admitted batch, each in its own transaction, up to the first failure. */
    method SubmitItems(sem: SemesterId, st: StudentId, baseKey: string, groups: seq<GroupId>, quiet: bool)
      returns (out: seq<Outcome>, err: Option<Error>, ghost calls: seq<Call>)
      requires Valid()
      requires Refusal(Mine(st, sem), st, sem, groups).None?
      modifies this
      ensures Valid()
      ensures quiet ==>
        err != Some(ErrDuplicateBatchItem) && err != Some(ErrDuplicateActiveRequest) && err != Some(ErrMaxElectivesReached)
      ensures err.None? <==> |out| == |groups|
      ensures IsBatch(calls, sem, st, baseKey, groups) && InTurn(old(sys), calls, sys) && Tells(calls, out, err)
      ensures OwnBatch(old(sys.db), sys.db, sem, st, baseKey, groups, out, MadeInAll(calls))
      ensures quiet ==> BatchState(old(Mine(st, sem)), Mine(st, sem), sem, st, baseKey, groups, out)
    {
      NothingSubmitted(Mine(st, sem), sem, st, baseKey, groups);
      ReachedSelf(sys);
      out, err, calls := [], None, [];
      for i := 0 to |groups|
        invariant Valid() && |out| == i && err.None?
        invariant BatchAt(old(sys), calls, sys, sem, st, baseKey, groups, out, err, quiet)
      {
        var res;
        res, calls := SubmitItem(sem, st, baseKey, groups, i, quiet, old(sys), calls, out);
        if res.Failed? {
          BatchAddsWhatItReports(old(sys), calls, sys, sem, st, baseKey, groups, out, Some(res.error));
          return out, Some(res.error), calls;
        }
        out := out + [res];
      }
      BatchAddsWhatItReports(old(sys), calls, sys, sem, st, baseKey, groups, out, None);
    }
  }
}
