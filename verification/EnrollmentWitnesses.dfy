/**
 Runs that show the limits of what is promised: a group overbooked by a cut, a
 group whose direct seats are overrun, and two runs the audit trail cannot tell
 apart although a request sits in different groups.
 */
module EnrollmentWitnesses {
  import opened EnrollmentDomain
  import opened EnrollmentStore
  import opened EnrollmentMachine
  import opened EnrollmentInvariant
  import opened EnrollmentTheorems
  import opened EnrollmentTrail
  import opened EnrollmentScripts
  import opened EnrollmentAlone

  // ---------------------------------------------------------------- building runs

  ghost predicate AllDone(s: System) {
    forall t :: t in s.txns ==> s.txns[t].Done?
  }

  lemma Extend(ss: seq<System>, acts: seq<Action>, a: Action) returns (ss': seq<System>, acts': seq<Action>)
    requires IsRun(ss, acts) && Enabled(ss[|acts|], a)
    ensures IsRun(ss', acts') && ss'[|acts'|] == Next(ss[|acts|], a)
  {
    ss', acts' := ss + [Next(ss[|acts|], a)], acts + [a];
    forall i | 0 <= i < |acts'| ensures Enabled(ss'[i], acts'[i]) && ss'[i + 1] == Next(ss'[i], acts'[i]) {
      assert i < |acts| ==> ss'[i] == ss[i] && ss'[i + 1] == ss[i + 1] && acts'[i] == acts[i];
    }
  }

  lemma {:induction false} ExtendBy(ss: seq<System>, acts: seq<Action>, more: seq<Action>)
    returns (ss': seq<System>, acts': seq<Action>)
    requires IsRun(ss, acts) && Play(ss[|acts|], more).Some?
    ensures IsRun(ss', acts') && ss'[|acts'|] == Play(ss[|acts|], more).value
    decreases |more|
  {
    ss', acts' := ss, acts;
    if more != [] {
      ss', acts' := Extend(ss, acts, more[0]);
      ss', acts' := ExtendBy(ss', acts', more[1..]);
    }
  }

  /** A command run to its end with no other transaction in between. */
  lemma RunAlone(ss: seq<System>, acts: seq<Action>, cmd: Command, c: Choice) returns (ss': seq<System>, acts': seq<Action>)
    requires IsRun(ss, acts) && AllDone(ss[|acts|]) && c.id !in ss[|acts|].issued
    requires Executed(ss[|acts|].db, ss[|acts|].arrivals, cmd, c).x.Done?
    ensures IsRun(ss', acts') && AllDone(ss'[|acts'|])
    ensures ss'[|acts'|].db == Executed(ss[|acts|].db, ss[|acts|].arrivals, cmd, c).db
    ensures ss'[|acts'|].issued <= ss[|acts|].issued + {c.id}
  {
    var t := Unused(ss[|acts|].txns.Keys);
    ss', acts' := Extend(ss, acts, Begin(t, cmd));
    var more := SoloRunsInMachine(ss'[|acts'|], t, c, LONGEST);
    ss', acts' := ExtendBy(ss', acts', more);
  }

  lemma SubmitAlone(ss: seq<System>, acts: seq<Action>, input: SubmitInput, id: RequestId)
    returns (ss': seq<System>, acts': seq<Action>, row: Request)
    requires IsRun(ss, acts) && AllDone(ss[|acts|]) && id !in ss[|acts|].issued && MayCreate(ss[|acts|].db, input, true)
    ensures IsRun(ss', acts') && AllDone(ss'[|acts'|]) && ss'[|acts'|].issued <= ss[|acts|].issued + {id}
    ensures ss'[|acts'|].db == SubmitCommitted(ss[|acts|].db, id, row)
    ensures IsNewRequest(ss[|acts|].db, ss[|acts|].arrivals, input, row)
  {
    var c := Choice(true, id, true);
    SubmitCreatesExactlyWhen(ss[|acts|].db, ss[|acts|].arrivals, input, c);
    ss', acts' := RunAlone(ss, acts, CmdSubmit(input), c);
    row := ss'[|acts'|].db.requests[id];
  }

  lemma DecideAlone(ss: seq<System>, acts: seq<Action>, input: DecisionInput) returns (ss': seq<System>, acts': seq<Action>)
    requires IsRun(ss, acts) && AllDone(ss[|acts|]) && MayDecide(ss[|acts|].db, input)
    ensures IsRun(ss', acts') && AllDone(ss'[|acts'|])
    ensures var db := ss[|acts|].db;
      var row := db.requests[input.request];
      ss'[|acts'|].db ==
        DecideCommitted(db, input.request, row, input.decision, CountedGroup(input, row), Verdict(db, input).value)
  {
    var c := Choice(true, Unused(ss[|acts|].issued), true);
    DecisionTakesEffectExactlyWhen(ss[|acts|].db, ss[|acts|].arrivals, input, c);
    ss', acts' := RunAlone(ss, acts, CmdDecide(input), c);
  }

  // ---------------------------------------------------------------- a group with one seat

  const SEMESTER: SemesterId := 1
  const ONE_SEAT := Group(1, ShiftDay, 1, true)
  const DAY_STUDENT := Student(ShiftDay, true)
  const REASON := "yes"

  lemma ReasonIsLongEnough()
    ensures ReasonIsValid(REASON)
  {
    assert TrimLeft(REASON) == REASON && TrimRight(REASON) == REASON;
    assert REASON[1..] == "es" && "es"[1..] == "s" && "s"[1..] == "";
    assert ByteLength("s") == 1 && ByteLength("es") == 2;
  }

  /** A group with one seat and two students of its shift. */
  lemma GroupAndStudents() returns (ss: seq<System>, acts: seq<Action>)
    ensures IsRun(ss, acts)
    ensures ss[|acts|] == System(EMPTY_STORE.(groups := map[1 := ONE_SEAT], students := map[7 := DAY_STUDENT, 8 := DAY_STUDENT],
                                              audit := [GroupCreated(1, ONE_SEAT.capacity)]), map[], 0, {})
  {
    ss, acts := [System(EMPTY_STORE, map[], 0, {})], [];
    ss, acts := Extend(ss, acts, CreateGroup(1, ONE_SEAT));
    ss, acts := Extend(ss, acts, PutStudent(7, DAY_STUDENT));
    ss, acts := Extend(ss, acts, PutStudent(8, DAY_STUDENT));
  }

  /** Two students of the group's shift, and the first one's request holds its only seat, pending. */
  lemma SeatPromised() returns (ss: seq<System>, acts: seq<Action>, row: Request)
    ensures IsRun(ss, acts) && AllDone(ss[|acts|]) && ss[|acts|].issued <= {0}
    ensures ss[|acts|].db.groups == map[1 := ONE_SEAT] && ss[|acts|].db.requests == map[0 := row]
    ensures ss[|acts|].db.students == map[7 := DAY_STUDENT, 8 := DAY_STUDENT]
    ensures row.student == 7 && row.semester == SEMESTER && row.group == 1 && row.key == "a" && IsPendingDirect(row)
    ensures Plain(ss[|acts|].db.audit)
  {
    ss, acts := GroupAndStudents();
    var input := SubmitInput(SEMESTER, 7, 1, "a");
    var db := ss[|acts|].db;
    assert db.requests == map[];
    assert ActiveOf(db.requests, 7, SEMESTER) == {} && KeyEntries(db.requests, 7, SEMESTER, "a") == {};
    assert ActiveEntries(db.requests, 7, SEMESTER, 1) == {} && AcceptedIn(db.requests, 1) == {} && PendingDirectIn(db.requests, 1) == {};
    ss, acts, row := SubmitAlone(ss, acts, input, 0);
  }

  /** Its request is accepted. */
  lemma SeatTaken() returns (ss: seq<System>, acts: seq<Action>)
    ensures IsRun(ss, acts) && AllDone(ss[|acts|]) && ss[|acts|].db.groups == map[1 := ONE_SEAT]
    ensures AcceptedIn(ss[|acts|].db.requests, 1) == {0}
  {
    var row;
    ss, acts, row := SeatPromised();
    var db, input := ss[|acts|].db, DecisionInput(0, DecisionAccept, REASON, None);
    assert AcceptedIn(db.requests, 1) == {} && AcceptedOf(db.requests, 7, SEMESTER) == {};
    ReasonIsLongEnough();
    ss, acts := DecideAlone(ss, acts, input);
  }

  /** No capacity was adjusted, and the only decisions are plain acceptances. */
  predicate Plain(log: seq<Event>) {
    forall i :: 0 <= i < |log| ==> PlainEvent(log[i])
  }

  predicate PlainEvent(e: Event) {
    !e.GroupCapacityAdjusted? && (e.EnrollmentDecision? ==> e.decision == DecisionAccept)
  }

  lemma PlainSteps(ss: seq<System>, acts: seq<Action>, k: nat, n: nat)
    requires IsRun(ss, acts) && k < n < |ss| && Plain(ss[n].db.audit)
    ensures EventOf(ss[k], acts[k]).Some? ==> PlainEvent(EventOf(ss[k], acts[k]).value)
  {
    RunKeepsInv(ss, acts, k);
    StepAppends(ss[k], acts[k]);
    AuditGrows(ss, acts, k + 1, n);
    if EventOf(ss[k], acts[k]).Some? {
      assert ss[n].db.audit[|ss[k].db.audit|] == EventOf(ss[k], acts[k]).value;
    }
  }

  predicate Overbooked(db: Store, g: GroupId) {
    |AcceptedIn(db.requests, g)| > Capacity(db, g)
  }

  /** More seats of the group are accepted or promised than it has. */
  predicate Overrun(db: Store, g: GroupId) {
    |TakenIn(db.requests, g)| > Capacity(db, g)
  }

  /** In a run that starts without it and ends with it, some step brings it about. */
  lemma {:induction false} FirstTime(ss: seq<System>, n: nat, p: Store -> bool) returns (i: nat)
    requires n < |ss| && !p(ss[0].db) && p(ss[n].db)
    ensures i < n && !p(ss[i].db) && p(ss[i + 1].db)
  {
    if p(ss[n - 1].db) {
      i := FirstTime(ss, n - 1, p);
    } else {
      i := n - 1;
    }
  }

  /** A capacity cut below the accepted students overbooks a group. */
  lemma CutOverbooks() returns (ss: seq<System>, acts: seq<Action>, i: nat)
    ensures IsRun(ss, acts) && i < |acts| && !Overbooked(ss[i].db, 1) && Overbooked(ss[i + 1].db, 1)
    ensures Adjusts(ss[i], acts[i], 1) && ss[i].txns[acts[i].t].adjust.capacity < |AcceptedIn(ss[i].db.requests, 1)|
  {
    ss, acts := SeatTaken();
    var c := Choice(true, Unused(ss[|acts|].issued), true);
    AdjustTakesEffectExactlyWhen(ss[|acts|].db, ss[|acts|].arrivals, AdjustInput(1, 0), c);
    ss, acts := RunAlone(ss, acts, CmdAdjust(AdjustInput(1, 0)), c);
    assert AcceptedIn(ss[0].db.requests, 1) == {};
    i := FirstTime(ss, |acts|, db => Overbooked(db, 1));
    RunKeepsInv(ss, acts, i);
    OverbooksExactlyWhen(ss[i], acts[i], 1);
  }

  /** The second student of the shift finds no seat left and is waitlisted. */
  lemma SecondIsWaitlisted() returns (ss: seq<System>, acts: seq<Action>, first: Request, second: Request)
    ensures IsRun(ss, acts) && AllDone(ss[|acts|])
    ensures ss[|acts|].db.groups == map[1 := ONE_SEAT] && ss[|acts|].db.requests == map[0 := first, 1 := second]
    ensures first.student == 7 && first.group == 1 && IsPendingDirect(first)
    ensures second.student == 8 && second.semester == SEMESTER && second.group == 1 && second.status == StatusWaitlistSameShift
    ensures Plain(ss[|acts|].db.audit)
  {
    ss, acts, first := SeatPromised();
    var db, input := ss[|acts|].db, SubmitInput(SEMESTER, 8, 1, "b");
    assert ActiveOf(db.requests, 8, SEMESTER) == {} && KeyEntries(db.requests, 8, SEMESTER, "b") == {};
    assert ActiveEntries(db.requests, 8, SEMESTER, 1) == {} && AcceptedIn(db.requests, 1) == {} && PendingDirectIn(db.requests, 1) == {0};
    ss, acts, second := SubmitAlone(ss, acts, input, 1);
  }

  lemma WaitlistedIsAccepted() returns (ss: seq<System>, acts: seq<Action>)
    ensures IsRun(ss, acts) && ss[|acts|].db.groups == map[1 := ONE_SEAT] && TakenIn(ss[|acts|].db.requests, 1) == {0, 1}
    ensures Plain(ss[|acts|].db.audit)
  {
    var first, second;
    ss, acts, first, second := SecondIsWaitlisted();
    var db, input := ss[|acts|].db, DecisionInput(1, DecisionAccept, REASON, None);
    WaitlistedIsAdmitted(db, input, first, second);
    ss, acts := DecideAlone(ss, acts, input);
  }

  lemma WaitlistedIsAdmitted(db: Store, input: DecisionInput, first: Request, second: Request)
    requires db.groups == map[1 := ONE_SEAT] && db.requests == map[0 := first, 1 := second]
    requires first.student == 7 && first.group == 1 && IsPendingDirect(first)
    requires second.student == 8 && second.semester == SEMESTER && second.group == 1 && second.status == StatusWaitlistSameShift
    requires input == DecisionInput(1, DecisionAccept, REASON, None)
    ensures MayDecide(db, input) && Verdict(db, input).value == StatusAccepted && CountedGroup(input, second) == 1
    ensures TakenIn(db.requests[1 := second.(status := StatusAccepted)], 1) == {0, 1}
  {
    assert AcceptedIn(db.requests, 1) == {} && AcceptedOf(db.requests, 8, SEMESTER) == {};
    ReasonIsLongEnough();
  }

  /** Accepting the waitlisted request of a full group overruns its direct seats. */
  lemma WaitlistedAcceptanceOverruns() returns (ss: seq<System>, acts: seq<Action>, i: nat)
    ensures IsRun(ss, acts) && i < |acts| && !Overrun(ss[i].db, 1) && Overrun(ss[i + 1].db, 1)
    ensures TakesExtraSeat(ss[i], acts[i], 1) && ss[i].txns[acts[i].t].decide.decision == DecisionAccept
    ensures ss[i].txns[acts[i].t].dpc.row.group == 1 && ss[i].txns[acts[i].t].dpc.row.priority != PriorityDirectSameShift
  {
    ss, acts := WaitlistedIsAccepted();
    assert TakenIn(ss[0].db.requests, 1) == {};
    i := FirstTime(ss, |acts|, db => Overrun(db, 1));
    RunKeepsInv(ss, acts, i);
    OverrunExactlyWhen(ss[i], acts[i], 1);
    PlainSteps(ss, acts, i, |acts|);
    assert TxnOk(ss[i].db, ss[i].txns[acts[i].t]);
  }

  // ---------------------------------------------------------------- one trail, two groups

  const NO_SEAT := Group(1, ShiftDay, 0, true)

  predicate HasAdjustment(log: seq<Event>) {
    exists i :: 0 <= i < |log| && log[i].GroupCapacityAdjusted?
  }

  function Groups(groups: nat): map<GroupId, Group> {
    if groups == 3 then map[1 := NO_SEAT, 2 := ONE_SEAT, 3 := ONE_SEAT] else map[1 := NO_SEAT, 2 := ONE_SEAT]
  }

  lemma GroupsReady(groups: nat) returns (ss: seq<System>, acts: seq<Action>)
    requires groups == 2 || groups == 3
    ensures IsRun(ss, acts) && AllDone(ss[|acts|]) && ss[|acts|].issued == {}
    ensures ss[|acts|].db.groups == Groups(groups) && ss[|acts|].db.students == map[7 := DAY_STUDENT]
    ensures ss[|acts|].db.requests == map[]
    ensures !HasAdjustment(ss[|acts|].db.audit)
  {
    ss, acts := [System(EMPTY_STORE, map[], 0, {})], [];
    ss, acts := Extend(ss, acts, CreateGroup(1, NO_SEAT));
    ss, acts := Extend(ss, acts, CreateGroup(2, ONE_SEAT));
    if groups == 3 {
      ss, acts := Extend(ss, acts, CreateGroup(3, ONE_SEAT));
    }
    ss, acts := Extend(ss, acts, PutStudent(7, DAY_STUDENT));
  }

  /** A waitlisted request in a group without seats, and empty groups of the same offering. */
  lemma Waitlisted(groups: nat) returns (ss: seq<System>, acts: seq<Action>, row: Request)
    requires groups == 2 || groups == 3
    ensures IsRun(ss, acts) && AllDone(ss[|acts|])
    ensures ss[|acts|].db.groups == Groups(groups)
    ensures ss[|acts|].db.requests == map[0 := row]
    ensures row.student == 7 && row.semester == SEMESTER && row.group == 1 && row.offering == 1 && row.status == StatusWaitlistSameShift
    ensures !HasAdjustment(ss[|acts|].db.audit)
  {
    ss, acts := GroupsReady(groups);
    var db, input := ss[|acts|].db, SubmitInput(SEMESTER, 7, 1, "a");
    assert db.requests == map[];
    assert ActiveOf(db.requests, 7, SEMESTER) == {} && KeyEntries(db.requests, 7, SEMESTER, "a") == {};
    assert ActiveEntries(db.requests, 7, SEMESTER, 1) == {} && AcceptedIn(db.requests, 1) == {} && PendingDirectIn(db.requests, 1) == {};
    ss, acts, row := SubmitAlone(ss, acts, input, 0);
  }

  /** It is accepted into one of the empty groups. */
  lemma AcceptInto(ss: seq<System>, acts: seq<Action>, row: Request, g: GroupId) returns (ss': seq<System>, acts': seq<Action>)
    requires IsRun(ss, acts) && AllDone(ss[|acts|]) && ss[|acts|].db.requests == map[0 := row]
    requires row.status == StatusWaitlistSameShift && row.offering == 1 && row.group == 1
    requires g != 1 && g in ss[|acts|].db.groups && ss[|acts|].db.groups[g] == ONE_SEAT
    ensures IsRun(ss', acts') && ss'[|acts'|].db.groups == ss[|acts|].db.groups
    ensures ss'[|acts'|].db.requests == map[0 := row.(status := StatusAccepted, group := g)]
    ensures HasAdjustment(ss'[|acts'|].db.audit) <==> HasAdjustment(ss[|acts|].db.audit)
    ensures ss'[|acts'|].db.audit ==
      ss[|acts|].db.audit + [EnrollmentDecision(0, DecisionCreateGroupAcceptance, StatusWaitlistSameShift, StatusAccepted)]
  {
    var db, input := ss[|acts|].db, DecisionInput(0, DecisionCreateGroupAcceptance, REASON, Some(g));
    MoveIsAdmitted(db, row, g);
    ss', acts' := DecideAlone(ss, acts, input);
    var log, e := db.audit, EnrollmentDecision(0, DecisionCreateGroupAcceptance, StatusWaitlistSameShift, StatusAccepted);
    assert ss'[|acts'|].db.audit == log + [e];
    assert forall i :: 0 <= i < |log| ==> (log + [e])[i] == log[i];
  }

  lemma MoveIsAdmitted(db: Store, row: Request, g: GroupId)
    requires db.requests == map[0 := row] && row.status == StatusWaitlistSameShift && row.offering == 1 && row.group == 1
    requires g != 1 && g in db.groups && db.groups[g] == ONE_SEAT
    ensures MayDecide(db, DecisionInput(0, DecisionCreateGroupAcceptance, REASON, Some(g)))
    ensures Verdict(db, DecisionInput(0, DecisionCreateGroupAcceptance, REASON, Some(g))) == Ok(StatusAccepted)
  {
    assert AcceptedIn(db.requests, g) == {} && AcceptedOf(db.requests, row.student, row.semester) == {};
    assert ActiveEntries(db.requests, row.student, row.semester, g) - {0} == {};
    ReasonIsLongEnough();
  }

  predicate SitsIn(db: Store, id: RequestId, g: GroupId) {
    id in db.requests && db.requests[id].group == g
  }

  /** The run's n-th state has this audit trail. */
  ghost predicate LeavesTrail(ss: seq<System>, acts: seq<Action>, n: nat, log: seq<Event>) {
    IsRun(ss, acts) && n < |ss| && ss[n].db.audit == log
  }

  /** Two runs leave the same audit trail, and the request sits in another group. */
  lemma OneTrailTwoGroups() returns (ss: seq<System>, acts: seq<Action>, ss': seq<System>, acts': seq<Action>)
    ensures IsRun(ss, acts) && LeavesTrail(ss', acts', |acts'|, ss[|acts|].db.audit)
    ensures SitsIn(ss[|acts|].db, 0, 2) && SitsIn(ss'[|acts'|].db, 0, 3)
  {
    var start, done, row := Waitlisted(3);
    ss, acts := AcceptInto(start, done, row, 2);
    ss', acts' := AcceptInto(start, done, row, 3);
  }

  // ---------------------------------------------------------------- a move that can be inferred

  lemma {:induction false} AuditGrows(ss: seq<System>, acts: seq<Action>, k: nat, n: nat)
    requires IsRun(ss, acts) && k <= n < |ss|
    ensures ss[k].db.audit <= ss[n].db.audit
  {
    if k < n {
      AuditGrows(ss, acts, k, n - 1);
      RunKeepsInv(ss, acts, n - 1);
      StepAppends(ss[n - 1], acts[n - 1]);
    }
  }

  lemma AdjustmentsAreRecorded(ss: seq<System>, acts: seq<Action>, k: nat, n: nat, g: GroupId)
    requires IsRun(ss, acts) && k < n < |ss| && Adjusts(ss[k], acts[k], g)
    ensures HasAdjustment(ss[n].db.audit)
  {
    RunKeepsInv(ss, acts, k);
    StepAppends(ss[k], acts[k]);
    AuditGrows(ss, acts, k + 1, n);
    assert ss[n].db.audit[|ss[k].db.audit|].GroupCapacityAdjusted?;
  }

  /** Where capacities were never adjusted, an accepted request sits in a group created with a seat. */
  lemma AcceptedSitsOnSeat(ss: seq<System>, acts: seq<Action>, n: nat, id: RequestId)
    requires IsRun(ss, acts) && n < |ss| && !HasAdjustment(ss[n].db.audit)
    requires id in ss[n].db.requests && ss[n].db.requests[id].status == StatusAccepted
    ensures ss[n].db.requests[id].group in ss[n].db.groups && ss[n].db.groups[ss[n].db.requests[id].group].capacity >= 1
  {
    var g := ss[n].db.requests[id].group;
    var ss', acts' := ss[..n + 1], acts[..n];
    forall k, h | 0 <= k < n ensures !Adjusts(ss'[k], acts'[k], h) {
      if Adjusts(ss[k], acts[k], h) {
        AdjustmentsAreRecorded(ss, acts, k, n, h);
      }
    }
    NeverOverbooked(ss', acts', n, g);
    assert id in AcceptedIn(ss[n].db.requests, g);
    RunKeepsInv(ss, acts, n);
    assert OfferingMatches(ss[n].db, ss[n].db.requests[id]);
  }

  /**
   A recorded create-group acceptance does not always hide the group: here
   every run with this trail has put the request into group 2, the only one
   created with a seat.
   */
  lemma MoveMayBeInferred() returns (ss: seq<System>, acts: seq<Action>)
    ensures IsRun(ss, acts) && RecordsMove(ss[|acts|].db.audit, 0)
    ensures forall ss': seq<System>, acts', n: nat :: LeavesTrail(ss', acts', n, ss[|acts|].db.audit) ==> SitsIn(ss'[n].db, 0, 2)
  {
    var start, done, row := Waitlisted(2);
    ss, acts := AcceptInto(start, done, row, 2);
    var db := ss[|acts|].db;
    assert IsMoveOf(db.audit[|db.audit| - 1], 0);
    TrailRebuildsStore(ss, acts, |acts|);
    forall ss': seq<System>, acts', n: nat | LeavesTrail(ss', acts', n, db.audit) ensures SitsIn(ss'[n].db, 0, 2) {
      SameTrailSameGroup(db, ss', acts', n);
    }
  }

  lemma SameTrailSameGroup(db: Store, ss: seq<System>, acts: seq<Action>, n: nat)
    requires TrailOk(db) && !HasAdjustment(db.audit) && db.groups == map[1 := NO_SEAT, 2 := ONE_SEAT]
    requires 0 in db.requests && db.requests[0].status == StatusAccepted
    requires LeavesTrail(ss, acts, n, db.audit)
    ensures SitsIn(ss[n].db, 0, 2)
  {
    TrailRebuildsStore(ss, acts, n);
    var l := LedgerOf(db);
    assert LedgerOf(ss[n].db) == l;
    assert 0 in l.status && l.status[0] == StatusAccepted;
    AcceptedSitsOnSeat(ss, acts, n, 0);
    var g := ss[n].db.requests[0].group;
    assert g in LedgerOf(ss[n].db).capacity && l.capacity[g] >= 1;
  }
}
