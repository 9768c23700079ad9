/** ORDER BY on two integer keys, and LIMIT/OFFSET paging of the result. */
module Ordering {
  import opened Bounds

  type Id = nat
  type SortKey = (int, int)

  predicate Less(a: SortKey, b: SortKey) {
    a.0 < b.0 || (a.0 == b.0 && a.1 < b.1)
  }

  /** Every member has a key, and no two the same. */
  ghost predicate Keyed(keys: map<Id, SortKey>, s: set<Id>) {
    && (forall x :: x in s ==> x in keys)
    && (forall x, y :: x in s && y in s && x != y ==> keys[x] != keys[y])
  }

  lemma {:induction false} FirstExists(keys: map<Id, SortKey>, s: set<Id>)
    requires Keyed(keys, s) && s != {}
    ensures exists m :: m in s && forall x :: x in s && x != m ==> Less(keys[m], keys[x])
  {
    var x :| x in s;
    var rest := s - {x};
    if rest == {} {
      assert s == {x};
    } else {
      FirstExists(keys, rest);
      var m :| m in rest && forall y :: y in rest && y != m ==> Less(keys[m], keys[y]);
      var first := if Less(keys[m], keys[x]) then m else x;
      forall y | y in s && y != first ensures Less(keys[first], keys[y]) {
        assert y == x || y in rest;
      }
    }
  }

  function First(keys: map<Id, SortKey>, s: set<Id>): (m: Id)
    requires Keyed(keys, s) && s != {}
    ensures m in s && forall x :: x in s && x != m ==> Less(keys[m], keys[x])
  {
    FirstExists(keys, s);
    var m :| m in s && forall x :: x in s && x != m ==> Less(keys[m], keys[x]);
    m
  }

  function Sorted(keys: map<Id, SortKey>, s: set<Id>): seq<Id>
    requires Keyed(keys, s)
  {
    if s == {} then [] else [First(keys, s)] + Sorted(keys, s - {First(keys, s)})
  }

  ghost predicate Ascending(keys: map<Id, SortKey>, xs: seq<Id>) {
    && (forall x :: x in xs ==> x in keys)
    && (forall i, j :: 0 <= i < j < |xs| ==> Less(keys[xs[i]], keys[xs[j]]))
  }

  /** The result holds each member once, in ascending order. */
  lemma {:induction false} SortedIsAscending(keys: map<Id, SortKey>, s: set<Id>)
    requires Keyed(keys, s)
    ensures |Sorted(keys, s)| == |s| && Ascending(keys, Sorted(keys, s))
    ensures forall x :: x in Sorted(keys, s) <==> x in s
  {
    if s != {} {
      var m := First(keys, s);
      SortedIsAscending(keys, s - {m});
      var rest := Sorted(keys, s - {m});
      assert forall i :: 0 <= i < |rest| ==> rest[i] in rest && Less(keys[m], keys[rest[i]]);
      assert Sorted(keys, s) == [m] + rest;
    }
  }

  /** The same by position. */
  lemma SortedPositions(keys: map<Id, SortKey>, s: set<Id>)
    requires Keyed(keys, s)
    ensures forall i :: 0 <= i < |Sorted(keys, s)| ==> Sorted(keys, s)[i] in s
    ensures forall i, j :: 0 <= i < j < |Sorted(keys, s)| ==> Sorted(keys, s)[i] != Sorted(keys, s)[j]
  {
    SortedIsAscending(keys, s);
    var xs := Sorted(keys, s);
    forall i | 0 <= i < |xs| ensures xs[i] in s {
      assert xs[i] in xs;
    }
    forall i, j | 0 <= i < j < |xs| ensures xs[i] != xs[j] {
      assert Less(keys[xs[i]], keys[xs[j]]);
    }
  }

  /** A member that is not among the first i does not come before the i-th. */
  lemma PrefixComesFirst(keys: map<Id, SortKey>, s: set<Id>, i: nat, x: Id)
    requires Keyed(keys, s) && i < |Sorted(keys, s)| && x in s && x !in Sorted(keys, s)[..i]
    ensures Sorted(keys, s)[i] in keys
    ensures Sorted(keys, s)[i] == x || Less(keys[Sorted(keys, s)[i]], keys[x])
  {
    SortedIsAscending(keys, s);
    var xs := Sorted(keys, s);
    var k :| 0 <= k < |xs| && xs[k] == x;
    assert forall m :: 0 <= m < i ==> xs[..i][m] == xs[m];
  }

  /** There is no other such list. */
  lemma {:induction false} AscendingIsUnique(keys: map<Id, SortKey>, s: set<Id>, xs: seq<Id>)
    requires Keyed(keys, s) && Ascending(keys, xs) && forall x :: x in xs <==> x in s
    ensures xs == Sorted(keys, s)
  {
    if xs == [] {
      assert s == {};
    } else {
      assert xs[0] in s;
      var m := First(keys, s);
      var k :| 0 <= k < |xs| && xs[k] == m;
      assert k == 0;
      var rest := xs[1..];
      forall x ensures x in rest <==> x in s - {m} {
        if x in rest {
          var i :| 0 <= i < |rest| && rest[i] == x;
          assert Less(keys[xs[0]], keys[xs[i + 1]]);
        }
        if x in s - {m} {
          var i :| 0 <= i < |xs| && xs[i] == x;
          assert rest[i - 1] == x;
        }
      }
      AscendingIsUnique(keys, s - {m}, rest);
    }
  }

  function Filter(xs: seq<Id>, keep: set<Id>): (r: seq<Id>)
    ensures forall x :: x in r <==> x in xs && x in keep
  {
    if xs == [] then []
    else Filter(xs[..|xs| - 1], keep) + if xs[|xs| - 1] in keep then [xs[|xs| - 1]] else []
  }

  lemma {:induction false} FilterKeepsOrder(keys: map<Id, SortKey>, xs: seq<Id>, keep: set<Id>)
    requires Ascending(keys, xs)
    ensures Ascending(keys, Filter(xs, keep))
  {
    if xs != [] {
      var n := |xs| - 1;
      var init := Filter(xs[..n], keep);
      FilterKeepsOrder(keys, xs[..n], keep);
      forall i | 0 <= i < |init| ensures Less(keys[init[i]], keys[xs[n]]) {
        assert init[i] in init;
        var k :| 0 <= k < n && xs[..n][k] == init[i];
      }
    }
  }

  /** Sorting a part is filtering the sorted whole. */
  lemma PartIsFiltered(keys: map<Id, SortKey>, s: set<Id>, part: set<Id>)
    requires Keyed(keys, s) && part <= s
    ensures Filter(Sorted(keys, s), part) == Sorted(keys, part)
  {
    SortedIsAscending(keys, s);
    FilterKeepsOrder(keys, Sorted(keys, s), part);
    AscendingIsUnique(keys, part, Filter(Sorted(keys, s), part));
  }

  // ---------------------------------------------------------------- paging

  /** LIMIT size OFFSET (page - 1) * size. */
  function Page<T>(xs: seq<T>, page: nat, size: nat): (items: seq<T>)
    requires page >= 1 && size >= 1
    ensures |items| <= size
  {
    var offset := (page - 1) * size;
    if offset >= |xs| then [] else xs[offset..Min(offset + size, |xs|)]
  }

  function Pages<T>(xs: seq<T>, pages: nat, size: nat): seq<T>
    requires size >= 1
  {
    if pages == 0 then [] else Pages(xs, pages - 1, size) + Page(xs, pages, size)
  }

  lemma {:induction false} PagesArePrefix<T>(xs: seq<T>, pages: nat, size: nat)
    requires size >= 1
    ensures Pages(xs, pages, size) == xs[..Min(pages * size, |xs|)]
  {
    if pages > 0 {
      PagesArePrefix(xs, pages - 1, size);
      assert pages * size == (pages - 1) * size + size;
    }
  }

  function PageCount(total: nat, size: nat): nat
    requires size >= 1
  {
    (total + size - 1) / size
  }

  lemma PageCountCovers(total: nat, size: nat)
    requires size >= 1
    ensures total <= PageCount(total, size) * size < total + size
  {
    var n, pages := total + size - 1, PageCount(total, size);
    assert n == size * pages + n % size;
    assert size * pages == pages * size;
  }

  lemma ProductGrows(a: nat, b: nat, size: nat)
    requires a <= b
    ensures a * size <= b * size
  {
    assert b * size == a * size + (b - a) * size;
  }

  /** Pages 1 to the rounded-up quotient put the list together again; later pages are empty. */
  lemma PagesCoverAll<T>(xs: seq<T>, size: nat, beyond: nat)
    requires size >= 1
    ensures Pages(xs, PageCount(|xs|, size), size) == xs
    ensures beyond > PageCount(|xs|, size) ==> Page(xs, beyond, size) == []
  {
    PageCountCovers(|xs|, size);
    PagesArePrefix(xs, PageCount(|xs|, size), size);
    if beyond > PageCount(|xs|, size) {
      ProductGrows(PageCount(|xs|, size), beyond - 1, size);
    }
  }

  /** The element at position k is on page k / size + 1 and on no other. */
  lemma OnOnePage<T>(xs: seq<T>, k: nat, size: nat, page: nat)
    requires size >= 1 && k < |xs| && page >= 1
    ensures (page - 1) * size <= k < page * size <==> page == k / size + 1
    ensures page == k / size + 1 ==> k % size < |Page(xs, page, size)| && Page(xs, page, size)[k % size] == xs[k]
  {
    assert k == (k / size) * size + k % size;
    if page - 1 < k / size {
      assert page * size <= (k / size) * size;
    } else if page - 1 > k / size {
      assert (page - 1) * size >= (k / size + 1) * size;
    }
  }

  /** In a list without repetition the page is where the element is found. */
  lemma FoundOnOnePage<T>(xs: seq<T>, k: nat, size: nat, page: nat)
    requires size >= 1 && k < |xs| && page >= 1
    requires forall i, j :: 0 <= i < j < |xs| ==> xs[i] != xs[j]
    ensures xs[k] in Page(xs, page, size) <==> page == k / size + 1
  {
    OnOnePage(xs, k, size, page);
    var items := Page(xs, page, size);
    if xs[k] in items {
      var i :| 0 <= i < |items| && items[i] == xs[k];
      assert xs[(page - 1) * size + i] == xs[k];
      assert page * size == (page - 1) * size + size;
    }
  }
}
