/**
 The review queue: which requests it lists, in which order and on which page,
 and the groups attached to each item by one batched query.
 */
module ReviewQueue {
  import opened EnrollmentDomain
  import opened EnrollmentStore
  import opened EnrollmentInvariant
  import opened Ordering

  // ---------------------------------------------------------------- filter and order

  datatype QueueFilter = QueueFilter(
    semester: SemesterId,
    offering: Option<OfferingId>,
    group: Option<GroupId>,
    priority: Option<PriorityGroup>,
    status: Option<RequestStatus>,
    page: int,
    pageSize: int)

  predicate Reviewable(s: RequestStatus) {
    s == StatusSubmitted || s == StatusPendingReview || s == StatusWaitlistSameShift || s == StatusWaitlistOppositeShift
  }

  predicate Matches(f: QueueFilter, r: Request) {
    && r.semester == f.semester
    && (f.offering.Some? ==> r.offering == f.offering.value)
    && (f.group.Some? ==> r.group == f.group.value)
    && (f.priority.Some? ==> r.priority == f.priority.value)
    && (if f.status.Some? then r.status == f.status.value else Reviewable(r.status))
  }

  function Matching(rs: Requests, f: QueueFilter): set<RequestId> {
    set id | id in rs && Matches(f, rs[id])
  }

  function PriorityRank(p: PriorityGroup): int {
    match p
    case PriorityDirectSameShift => 0
    case PriorityWaitlistSameShift => 1
    case PriorityWaitlistOppositeShift => 2
  }

  function QueueKeys(rs: Requests): map<RequestId, SortKey> {
    map id | id in rs :: (PriorityRank(rs[id].priority), rs[id].arrival)
  }

  /** The queue without paging. */
  function WholeQueue(rs: Requests, f: QueueFilter): seq<RequestId>
    requires ArrivalsUnique(rs)
  {
    Sorted(QueueKeys(rs), Matching(rs, f))
  }

  function EffectivePage(page: int): nat {
    if page < 1 then 1 else page
  }

  function EffectiveSize(size: int): nat {
    if size < 1 || size > 100 then 20 else size
  }

  lemma PagingDoesNotFilter(rs: Requests, f: QueueFilter, page: int, size: int)
    requires ArrivalsUnique(rs)
    ensures Matching(rs, f.(page := page, pageSize := size)) == Matching(rs, f)
    ensures WholeQueue(rs, f.(page := page, pageSize := size)) == WholeQueue(rs, f)
  {
    assert Matching(rs, f.(page := page, pageSize := size)) == Matching(rs, f);
  }

  /** a stands before b: better priority, or the same and earlier arrival. */
  predicate Precedes(a: Request, b: Request) {
    || PriorityRank(a.priority) < PriorityRank(b.priority)
    || (a.priority == b.priority && a.arrival < b.arrival)
  }

  /** The queue lists every matching request exactly once, by priority and then by arrival. */
  lemma QueueListsEachOnce(rs: Requests, f: QueueFilter)
    requires ArrivalsUnique(rs)
    ensures |WholeQueue(rs, f)| == |Matching(rs, f)|
    ensures forall id :: id in WholeQueue(rs, f) <==> id in rs && Matches(f, rs[id])
    ensures forall i, j :: 0 <= i < j < |WholeQueue(rs, f)| ==>
      WholeQueue(rs, f)[i] != WholeQueue(rs, f)[j] && Precedes(rs[WholeQueue(rs, f)[i]], rs[WholeQueue(rs, f)[j]])
  {
    SortedIsAscending(QueueKeys(rs), Matching(rs, f));
    SortedPositions(QueueKeys(rs), Matching(rs, f));
    var queue := WholeQueue(rs, f);
    forall i, j | 0 <= i < j < |queue| ensures Precedes(rs[queue[i]], rs[queue[j]]) {
      assert Less(QueueKeys(rs)[queue[i]], QueueKeys(rs)[queue[j]]);
    }
  }

  /** Pages 1 to the last put the queue together again, later pages are empty, and each request is on one page. */
  lemma PagesRebuildQueue(rs: Requests, f: QueueFilter, size: nat, k: nat, page: nat)
    requires ArrivalsUnique(rs) && size >= 1 && page >= 1
    ensures Pages(WholeQueue(rs, f), PageCount(|Matching(rs, f)|, size), size) == WholeQueue(rs, f)
    ensures page > PageCount(|Matching(rs, f)|, size) ==> Page(WholeQueue(rs, f), page, size) == []
    ensures k < |WholeQueue(rs, f)| ==> (WholeQueue(rs, f)[k] in Page(WholeQueue(rs, f), page, size) <==> page == k / size + 1)
  {
    QueueListsEachOnce(rs, f);
    var queue := WholeQueue(rs, f);
    PagesCoverAll(queue, size, page);
    if k < |queue| {
      FoundOnOnePage(queue, k, size, page);
    }
  }

  /** Without a status filter the queue is the open requests: whatever matches otherwise and is not final. */
  lemma DefaultQueueIsTheOpenRequests(rs: Requests, f: QueueFilter, id: RequestId)
    requires ArrivalsUnique(rs) && f.status.None? && id in rs
    ensures id in WholeQueue(rs, f) <==> id in WholeQueue(rs, f.(status := Some(rs[id].status))) && !rs[id].status.IsTerminal()
  {
    QueueListsEachOnce(rs, f);
    QueueListsEachOnce(rs, f.(status := Some(rs[id].status)));
  }

  /** No other list holds the same requests in that order. */
  lemma QueueIsDetermined(rs: Requests, f: QueueFilter, queue: seq<RequestId>)
    requires ArrivalsUnique(rs)
    requires forall id :: id in queue <==> id in rs && Matches(f, rs[id])
    requires forall i, j :: 0 <= i < j < |queue| ==> Precedes(rs[queue[i]], rs[queue[j]])
    ensures queue == WholeQueue(rs, f)
  {
    AscendingIsUnique(QueueKeys(rs), Matching(rs, f), queue);
  }

  // ---------------------------------------------------------------- the groups of an offering

  /** `code` is the position of the group code in the database's text order. */
  datatype OfferingGroup = OfferingGroup(group: Group, code: int)

  type Groups = map<GroupId, OfferingGroup>

  /** Group codes are unique within an offering. */
  ghost predicate CodesUnique(gs: Groups) {
    forall g, h :: g in gs && h in gs && g != h ==> GroupKeys(gs)[g] != GroupKeys(gs)[h]
  }

  function GroupKeys(gs: Groups): map<GroupId, SortKey> {
    map g | g in gs :: (gs[g].group.offering as int, gs[g].code)
  }

  function ActiveGroups(gs: Groups, offerings: set<OfferingId>): set<GroupId> {
    set g | g in gs && gs[g].group.active && gs[g].group.offering in offerings
  }

  datatype GroupView = GroupView(id: GroupId, offering: OfferingId, capacity: int, accepted: nat)

  function ViewOf(rs: Requests, gs: Groups, g: GroupId): GroupView
    requires g in gs
  {
    GroupView(g, gs[g].group.offering, gs[g].group.capacity, |AcceptedIn(rs, g)|)
  }

  function ViewsOf(rs: Requests, gs: Groups, ids: seq<GroupId>): seq<GroupView>
    requires forall g :: g in ids ==> g in gs
  {
    seq(|ids|, i requires 0 <= i < |ids| => ViewOf(rs, gs, ids[i]))
  }

  /** One offering looked up on its own: its active groups by group code. */
  function GroupsFor(rs: Requests, gs: Groups, offering: OfferingId): seq<GroupView>
    requires CodesUnique(gs)
  {
    var ids := Sorted(GroupKeys(gs), ActiveGroups(gs, {offering}));
    SortedIsAscending(GroupKeys(gs), ActiveGroups(gs, {offering}));
    ViewsOf(rs, gs, ids)
  }

  datatype QueueItem = QueueItem(id: RequestId, request: Request, offeringGroups: seq<GroupView>)

  /** The item is the request with its offering's groups. */
  ghost predicate Shows(rs: Requests, gs: Groups, item: QueueItem, id: RequestId)
    requires CodesUnique(gs)
  {
    id in rs && item == QueueItem(id, rs[id], GroupsFor(rs, gs, rs[id].offering))
  }

  function Lookup(m: map<OfferingId, seq<GroupView>>, o: OfferingId): seq<GroupView> {
    if o in m then m[o] else []
  }

  /** The rows of one offering in a list of groups. */
  function RowsOf(rs: Requests, gs: Groups, ids: seq<GroupId>, o: OfferingId): seq<GroupView>
    requires forall g :: g in ids ==> g in gs
  {
    ViewsOf(rs, gs, Filter(ids, ActiveGroups(gs, {o})))
  }

  lemma OneMoreRow(rs: Requests, gs: Groups, ids: seq<GroupId>, k: nat, o: OfferingId)
    requires k < |ids| && forall g :: g in ids ==> g in gs && gs[g].group.active
    ensures RowsOf(rs, gs, ids[..k + 1], o) ==
            RowsOf(rs, gs, ids[..k], o) + if gs[ids[k]].group.offering == o then [ViewOf(rs, gs, ids[k])] else []
  {
    assert ids[..k + 1][..k] == ids[..k];
    assert ids[k] in ids;
  }

  /** Every offering is looked up to its own rows. */
  ghost predicate Grouped(m: map<OfferingId, seq<GroupView>>, rs: Requests, gs: Groups, ids: seq<GroupId>)
    requires forall g :: g in ids ==> g in gs
  {
    forall o :: Lookup(m, o) == RowsOf(rs, gs, ids, o)
  }

  lemma GroupOneMore(m: map<OfferingId, seq<GroupView>>, rs: Requests, gs: Groups, ids: seq<GroupId>, k: nat)
    requires k < |ids| && (forall g :: g in ids ==> g in gs && gs[g].group.active)
    requires Grouped(m, rs, gs, ids[..k])
    ensures var g := ViewOf(rs, gs, ids[k]);
      Grouped(m[g.offering := Lookup(m, g.offering) + [g]], rs, gs, ids[..k + 1])
  {
    var g := ViewOf(rs, gs, ids[k]);
    var m' := m[g.offering := Lookup(m, g.offering) + [g]];
    forall o ensures Lookup(m', o) == RowsOf(rs, gs, ids[..k + 1], o) {
      OneMoreRow(rs, gs, ids, k, o);
      assert Lookup(m, o) == RowsOf(rs, gs, ids[..k], o);
    }
  }

  /** The part of the batched result that belongs to one offering is that offering's own lookup. */
  lemma BatchedEqualsSeparate(rs: Requests, gs: Groups, offerings: set<OfferingId>, o: OfferingId)
    requires CodesUnique(gs) && o in offerings
    ensures var batch := Sorted(GroupKeys(gs), ActiveGroups(gs, offerings));
      (forall g :: g in batch ==> g in gs) && RowsOf(rs, gs, batch, o) == GroupsFor(rs, gs, o)
  {
    SortedIsAscending(GroupKeys(gs), ActiveGroups(gs, offerings));
    PartIsFiltered(GroupKeys(gs), ActiveGroups(gs, offerings), ActiveGroups(gs, {o}));
  }

  // ---------------------------------------------------------------- the repository

  /** A page lists stored requests. */
  lemma PageShowsRequests(rs: Requests, f: QueueFilter)
    requires ArrivalsUnique(rs) && f.page >= 1 && f.pageSize >= 1
    ensures var rows := Page(WholeQueue(rs, f), f.page, f.pageSize);
      forall i :: 0 <= i < |rows| ==> rows[i] in rs
  {
    QueueListsEachOnce(rs, f);
    var rows := Page(WholeQueue(rs, f), f.page, f.pageSize);
    forall i | 0 <= i < |rows| ensures rows[i] in rs {
      assert rows[i] in WholeQueue(rs, f);
    }
  }

  class ReviewRepo {
    var requests: Requests
    var groups: Groups

    constructor (requests: Requests, groups: Groups)
      ensures this.requests == requests && this.groups == groups
    {
      this.requests, this.groups := requests, groups;
    }

    ghost predicate Valid()
      reads this
    {
      ArrivalsUnique(requests) && CodesUnique(groups)
    }

    /** The offerings of a page, each once. */
    static method DistinctOfferings(items: seq<QueueItem>) returns (offeringIds: seq<OfferingId>)
      ensures forall o :: o in offeringIds <==> exists k :: 0 <= k < |items| && items[k].request.offering == o
      ensures forall j, k :: 0 <= j < k < |offeringIds| ==> offeringIds[j] != offeringIds[k]
    {
      var seen: set<OfferingId>, i := {}, 0;
      offeringIds := [];
      while i < |items|
        invariant i <= |items|
        invariant forall o :: o in seen <==> exists k :: 0 <= k < i && items[k].request.offering == o
        invariant forall o :: o in seen <==> o in offeringIds
        invariant forall j, k :: 0 <= j < k < |offeringIds| ==> offeringIds[j] != offeringIds[k]
      {
        var o := items[i].request.offering;
        if o !in seen {
          seen := seen + {o};
          offeringIds := offeringIds + [o];
        }
        i := i + 1;
      }
    }

    /** Collects the batched rows under their offering. */
    static method GroupByOffering(rs: Requests, gs: Groups, rows: seq<GroupId>) returns (byOffering: map<OfferingId, seq<GroupView>>)
      requires forall g :: g in rows ==> g in gs && gs[g].group.active
      ensures Grouped(byOffering, rs, gs, rows)
    {
      var k := 0;
      byOffering := map[];
      while k < |rows|
        invariant k <= |rows|
        invariant Grouped(byOffering, rs, gs, rows[..k])
      {
        var g := ViewOf(rs, gs, rows[k]);
        GroupOneMore(byOffering, rs, gs, rows, k);
        byOffering := byOffering[g.offering := Lookup(byOffering, g.offering) + [g]];
        k := k + 1;
      }
      assert rows[..k] == rows;
    }

    /** One query for all offerings on the page instead of one for each item. */
    method AttachOfferingGroups(items: array<QueueItem>)
      requires Valid()
      modifies items
      ensures forall i :: 0 <= i < items.Length ==>
        items[i] == old(items[i]).(offeringGroups := GroupsFor(requests, groups, old(items[i]).request.offering))
    {
      if items.Length == 0 {
        return;
      }
      var offeringIds := DistinctOfferings(items[..]);
      var wanted := set o | o in offeringIds;
      var rows := Sorted(GroupKeys(groups), ActiveGroups(groups, wanted));
      SortedIsAscending(GroupKeys(groups), ActiveGroups(groups, wanted));
      var byOffering := GroupByOffering(requests, groups, rows);
      forall o | o in wanted ensures Lookup(byOffering, o) == GroupsFor(requests, groups, o) {
        BatchedEqualsSeparate(requests, groups, wanted, o);
      }
      var i := 0;
      while i < items.Length
        invariant i <= items.Length
        invariant forall j :: 0 <= j < i ==>
          items[j] == old(items[j]).(offeringGroups := Lookup(byOffering, old(items[j]).request.offering))
        invariant forall j :: i <= j < items.Length ==> items[j] == old(items[j])
      {
        items[i] := items[i].(offeringGroups := Lookup(byOffering, items[i].request.offering));
        i := i + 1;
      }
      assert forall j :: 0 <= j < items.Length ==> old(items[..])[j].request.offering in wanted;
    }

    /** The count and the page of request rows. */
    method SelectRows(f: QueueFilter) returns (rows: seq<RequestId>, total: nat)
      requires Valid() && f.page >= 1 && f.pageSize >= 1
      ensures total == |Matching(requests, f)| && rows == Page(WholeQueue(requests, f), f.page, f.pageSize)
      ensures forall i :: 0 <= i < |rows| ==> rows[i] in requests
    {
      total := |Matching(requests, f)|;
      rows := Page(WholeQueue(requests, f), f.page, f.pageSize);
      PageShowsRequests(requests, f);
    }

    method ListQueue(f: QueueFilter) returns (items: seq<QueueItem>, total: nat)
      requires Valid() && f.page >= 1 && f.pageSize >= 1
      ensures total == |Matching(requests, f)|
      ensures |items| == |Page(WholeQueue(requests, f), f.page, f.pageSize)|
      ensures forall i :: 0 <= i < |items| ==>
        Shows(requests, groups, items[i], Page(WholeQueue(requests, f), f.page, f.pageSize)[i])
    {
      var rows;
      rows, total := SelectRows(f);
      var scanned, k := [], 0;
      while k < |rows|
        invariant k <= |rows| && |scanned| == k
        invariant forall i :: 0 <= i < k ==> scanned[i] == QueueItem(rows[i], requests[rows[i]], [])
      {
        scanned := scanned + [QueueItem(rows[k], requests[rows[k]], [])];
        k := k + 1;
      }
      var slice := new QueueItem[|scanned|](i requires 0 <= i < |scanned| => scanned[i]);
      AttachOfferingGroups(slice);
      items := slice[..];
    }

    /** The use case clamps the page and the page size. */
    method Queue(f: QueueFilter) returns (items: seq<QueueItem>, total: nat)
      requires Valid()
      ensures total == |Matching(requests, f)| && |items| <= 100
      ensures |items| == |Page(WholeQueue(requests, f), EffectivePage(f.page), EffectiveSize(f.pageSize))|
      ensures forall i :: 0 <= i < |items| ==>
        Shows(requests, groups, items[i], Page(WholeQueue(requests, f), EffectivePage(f.page), EffectiveSize(f.pageSize))[i])
    {
      var page, size := f.page, f.pageSize;
      if page < 1 {
        page := 1;
      }
      if size < 1 || size > 100 {
        size := 20;
      }
      PagingDoesNotFilter(requests, f, page, size);
      items, total := ListQueue(f.(page := page, pageSize := size));
    }
  }
}
