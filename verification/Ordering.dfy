/** A stable sort by an integer key, as `Array.prototype.sort` does it, and the first match in it. */
module Ordering {
  import opened Wrappers

  predicate Sorted<T>(s: seq<T>, key: T -> int)
  {
    forall i, j :: 0 <= i < j < |s| ==> key(s[i]) <= key(s[j])
  }

  /** `x` goes behind every element whose key is not larger. */
  function Insert<T>(s: seq<T>, x: T, key: T -> int): seq<T>
  {
    if s == [] || key(s[|s| - 1]) <= key(x) then s + [x]
    else Insert(s[..|s| - 1], x, key) + [s[|s| - 1]]
  }

  function SortBy<T>(s: seq<T>, key: T -> int): seq<T>
  {
    if s == [] then [] else Insert(SortBy(s[..|s| - 1], key), s[|s| - 1], key)
  }

  lemma {:induction false} InsertKeepsMembers<T>(s: seq<T>, x: T, key: T -> int)
    ensures multiset(Insert(s, x, key)) == multiset(s) + multiset{x}
  {
    if s != [] && key(s[|s| - 1]) > key(x) {
      InsertKeepsMembers(s[..|s| - 1], x, key);
      assert s == s[..|s| - 1] + [s[|s| - 1]];
    }
  }

  lemma {:induction false} InsertSorted<T>(s: seq<T>, x: T, key: T -> int)
    requires Sorted(s, key)
    ensures Sorted(Insert(s, x, key), key)
  {
    if s != [] && key(s[|s| - 1]) > key(x) {
      var front, last := s[..|s| - 1], s[|s| - 1];
      InsertSorted(front, x, key);
      assert s == front + [last];
      LastIsLargest(front, x, last, key);
    }
  }

  lemma LastIsLargest<T>(front: seq<T>, x: T, last: T, key: T -> int)
    requires Sorted(front + [last], key) && key(x) < key(last)
    ensures forall y :: y in Insert(front, x, key) ==> key(y) <= key(last)
  {
    InsertKeepsMembers(front, x, key);
    forall y | y in Insert(front, x, key) ensures key(y) <= key(last) {
      assert y in multiset(Insert(front, x, key));
      if y != x {
        assert y in multiset(front);
        var k :| 0 <= k < |front| && front[k] == y;
        assert (front + [last])[k] == y && (front + [last])[|front|] == last;
      }
    }
  }

  lemma {:induction false} SortBySorts<T>(s: seq<T>, key: T -> int)
    ensures Sorted(SortBy(s, key), key)
    ensures multiset(SortBy(s, key)) == multiset(s)
  {
    if s != [] {
      var front, last := s[..|s| - 1], s[|s| - 1];
      assert s == front + [last];
      SortBySorts(front, key);
      var sorted := SortBy(front, key);
      InsertSorted(sorted, last, key);
      InsertKeepsMembers(sorted, last, key);
    }
  }

  lemma SortByKeepsMembers<T>(s: seq<T>, key: T -> int)
    ensures |SortBy(s, key)| == |s|
    ensures forall x :: x in SortBy(s, key) <==> x in s
  {
    SortBySorts(s, key);
    assert |multiset(SortBy(s, key))| == |multiset(s)|;
    forall x ensures x in SortBy(s, key) <==> x in s {
      assert x in multiset(SortBy(s, key)) <==> x in multiset(s);
    }
  }

  // ----- The first match in the sorted list ----------------------------------------------------------

  function Find<T>(s: seq<T>, p: T -> bool): (r: Option<T>)
    ensures r.Some? ==> p(r.value) && r.value in s
    ensures r.None? ==> forall x :: x in s ==> !p(x)
  {
    if s == [] then None else if p(s[0]) then Some(s[0]) else Find(s[1..], p)
  }

  lemma {:induction false} FindAppend<T>(s: seq<T>, x: T, p: T -> bool)
    ensures Find(s + [x], p) == if Find(s, p).Some? then Find(s, p) else if p(x) then Some(x) else None
  {
    if s != [] {
      assert (s + [x])[1..] == s[1..] + [x];
      FindAppend(s[1..], x, p);
    }
  }

  /** `s[i]` matches, and no match has a smaller key, nor an equal key and a smaller index. */
  ghost predicate FirstByKey<T>(s: seq<T>, key: T -> int, p: T -> bool, i: int)
  {
    && 0 <= i < |s| && p(s[i])
    && forall j :: 0 <= j < |s| && p(s[j]) ==> key(s[i]) < key(s[j]) || (key(s[i]) == key(s[j]) && i <= j)
  }

  lemma {:induction false} FindInsert<T>(s: seq<T>, x: T, key: T -> int, p: T -> bool)
    requires Sorted(s, key)
    ensures Find(Insert(s, x, key), p)
            == if p(x) && (Find(s, p).None? || key(x) < key(Find(s, p).value)) then Some(x) else Find(s, p)
  {
    if s == [] || key(s[|s| - 1]) <= key(x) {
      FindAppend(s, x, p);
    } else {
      var front, last := s[..|s| - 1], s[|s| - 1];
      assert s == front + [last];
      FindInsert(front, x, key, p);
      FindAppend(Insert(front, x, key), last, p);
      FindAppend(front, last, p);
    }
  }

  lemma FirstByKeyExtends<T>(front: seq<T>, last: T, key: T -> int, p: T -> bool, i: int)
    requires FirstByKey(front, key, p, i)
    ensures FirstByKey(front + [last], key, p, if p(last) && key(last) < key(front[i]) then |front| else i)
  {
    var s := front + [last];
    assert forall j :: 0 <= j < |front| ==> s[j] == front[j];
  }

  /** Finding in the sorted list finds the match with the least key, the earliest one among equals. */
  lemma {:induction false} FindInSorted<T>(s: seq<T>, key: T -> int, p: T -> bool)
    ensures match Find(SortBy(s, key), p)
            case Some(x) => exists i :: FirstByKey(s, key, p, i) && s[i] == x
            case None => forall x :: x in s ==> !p(x)
  {
    if s != [] {
      var front, last := s[..|s| - 1], s[|s| - 1];
      assert s == front + [last];
      FindInSorted(front, key, p);
      SortBySorts(front, key);
      FindInsert(SortBy(front, key), last, key, p);
      var found := Find(SortBy(front, key), p);
      if found.Some? {
        var i :| FirstByKey(front, key, p, i) && front[i] == found.value;
        FirstByKeyExtends(front, last, key, p, i);
      } else if p(last) {
        assert forall j :: 0 <= j < |front| ==> s[j] in front;
        assert FirstByKey(s, key, p, |s| - 1);
      }
    }
  }

  // ----- Filtering first -----------------------------------------------------------------------------

  function Filter<T>(s: seq<T>, q: T -> bool): seq<T>
  {
    if s == [] then []
    else if q(s[|s| - 1]) then Filter(s[..|s| - 1], q) + [s[|s| - 1]]
    else Filter(s[..|s| - 1], q)
  }

  lemma {:induction false} FilterMembers<T>(s: seq<T>, q: T -> bool)
    ensures forall x :: x in Filter(s, q) <==> x in s && q(x)
  {
    if s != [] {
      FilterMembers(s[..|s| - 1], q);
      assert s == s[..|s| - 1] + [s[|s| - 1]];
    }
  }

  function Both<T(!new)>(q: T -> bool, p: T -> bool): T -> bool
  {
    (x: T) => q(x) && p(x)
  }

  /** The first match by key of the filtered list is the first by key in the whole list that passes
      the filter and matches. */
  lemma {:induction false} FirstAmongFiltered<T(!new)>(s: seq<T>, key: T -> int, q: T -> bool, p: T -> bool, i: int)
    requires FirstByKey(Filter(s, q), key, p, i)
    ensures exists j :: FirstByKey(s, key, Both(q, p), j) && s[j] == Filter(s, q)[i]
  {
    var front, last := s[..|s| - 1], s[|s| - 1];
    assert s == front + [last];
    var fs := Filter(front, q);
    if q(last) && i == |fs| {
      LastIsFirst(front, last, key, q, p);
      assert FirstByKey(s, key, Both(q, p), |front|);
    } else {
      assert forall k :: 0 <= k < |fs| ==> Filter(s, q)[k] == fs[k];
      assert FirstByKey(fs, key, p, i);
      FirstAmongFiltered(front, key, q, p, i);
      var j :| FirstByKey(front, key, Both(q, p), j) && front[j] == fs[i];
      assert q(last) && p(last) ==> key(fs[i]) <= key(last) by {
        if q(last) { assert Filter(s, q)[|fs|] == last; }
      }
      assert FirstByKey(s, key, Both(q, p), j);
    }
  }

  lemma LastIsFirst<T(!new)>(front: seq<T>, last: T, key: T -> int, q: T -> bool, p: T -> bool)
    requires q(last) && FirstByKey(Filter(front, q) + [last], key, p, |Filter(front, q)|)
    ensures FirstByKey(front + [last], key, Both(q, p), |front|)
  {
    var fs := Filter(front, q);
    FilterMembers(front, q);
    forall j | 0 <= j < |front| && Both(q, p)(front[j]) ensures key(last) < key(front[j]) {
      assert front[j] in fs;
      var k :| 0 <= k < |fs| && fs[k] == front[j];
      assert (fs + [last])[k] == front[j];
    }
  }
}
