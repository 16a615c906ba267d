/** The standard library sort and filter the scripts call, with what callers rely on. */
module Sorting {

  function Filter<T(!new)>(s: seq<T>, keep: T -> bool): (kept: seq<T>)
    ensures forall x :: x in kept <==> x in s && keep(x)
    ensures |kept| <= |s|
  {
    if s == [] then []
    else if keep(s[0]) then [s[0]] + Filter(s[1..], keep)
    else Filter(s[1..], keep)
  }

  /** Filtering keeps every occurrence of what it keeps. */
  lemma {:induction false} FilterCounts<T(!new)>(s: seq<T>, keep: T -> bool, x: T)
    ensures multiset(Filter(s, keep))[x] == if keep(x) then multiset(s)[x] else 0
  {
    if s != [] {
      assert s == [s[0]] + s[1..];
      FilterCounts(s[1..], keep, x);
    }
  }

  /** Filtering keeps the order: what is listed first is kept first. */
  lemma {:induction false} FilterAppends<T(!new)>(s: seq<T>, t: seq<T>, keep: T -> bool)
    ensures Filter(s + t, keep) == Filter(s, keep) + Filter(t, keep)
  {
    if s == [] {
      assert s + t == t;
    } else {
      assert (s + t)[1..] == s[1..] + t;
      FilterAppends(s[1..], t, keep);
    }
  }

  /** Strict weak order: `before` is asymmetric and incomparability is an equivalence. */
  ghost predicate StrictWeak<T(!new)>(before: (T, T) -> bool) {
    && (forall a, b :: before(a, b) ==> !before(b, a))
    && (forall a, b, c :: !before(a, b) && !before(b, c) ==> !before(a, c))
  }

  ghost predicate Sorted<T>(s: seq<T>, before: (T, T) -> bool) {
    forall i, j | 0 <= i < j < |s| :: !before(s[j], s[i])
  }

  function Insert<T>(x: T, s: seq<T>, before: (T, T) -> bool): seq<T> {
    if s == [] || !before(s[0], x) then [x] + s
    else [s[0]] + Insert(x, s[1..], before)
  }

  /** Stable: equal elements keep their order. */
  function Sort<T>(s: seq<T>, before: (T, T) -> bool): seq<T> {
    if s == [] then [] else Insert(s[0], Sort(s[1..], before), before)
  }

  lemma {:induction false} InsertPermutes<T>(x: T, s: seq<T>, before: (T, T) -> bool)
    ensures multiset(Insert(x, s, before)) == multiset{x} + multiset(s)
  {
    if s != [] {
      assert s == [s[0]] + s[1..];
      if before(s[0], x) {
        InsertPermutes(x, s[1..], before);
      }
    }
  }

  lemma {:induction false} SortPermutes<T>(s: seq<T>, before: (T, T) -> bool)
    ensures multiset(Sort(s, before)) == multiset(s)
  {
    if s != [] {
      assert s == [s[0]] + s[1..];
      SortPermutes(s[1..], before);
      InsertPermutes(s[0], Sort(s[1..], before), before);
    }
  }

  lemma SortMembers<T(!new)>(s: seq<T>, before: (T, T) -> bool)
    ensures forall x :: x in Sort(s, before) <==> x in s
    ensures |Sort(s, before)| == |s|
  {
    SortPermutes(s, before);
    forall x
      ensures x in Sort(s, before) <==> x in s
    {
      assert x in Sort(s, before) <==> x in multiset(Sort(s, before));
    }
    assert |Sort(s, before)| == |multiset(Sort(s, before))| == |multiset(s)|;
  }

  lemma {:induction false} InsertSorted<T(!new)>(x: T, s: seq<T>, before: (T, T) -> bool)
    requires StrictWeak(before) && Sorted(s, before)
    ensures Sorted(Insert(x, s, before), before)
  {
    if s != [] && before(s[0], x) {
      var rest := Insert(x, s[1..], before);
      InsertSorted(x, s[1..], before);
      InsertPermutes(x, s[1..], before);
      forall j | 0 <= j < |rest|
        ensures !before(rest[j], s[0])
      {
        assert rest[j] in multiset(rest);
        if rest[j] != x {
          assert rest[j] in s[1..];
        }
      }
    } else if s != [] {
      forall j | 0 <= j < |s|
        ensures !before(s[j], x)
      {
        assert j > 0 ==> !before(s[j], s[0]);
      }
    }
  }

  lemma {:induction false} SortSorted<T(!new)>(s: seq<T>, before: (T, T) -> bool)
    requires StrictWeak(before)
    ensures Sorted(Sort(s, before), before)
  {
    if s != [] {
      SortSorted(s[1..], before);
      InsertSorted(s[0], Sort(s[1..], before), before);
    }
  }

  lemma OccursTwice<T>(s: seq<T>, i: nat, j: nat)
    requires i < j < |s| && s[i] == s[j]
    ensures multiset(s)[s[i]] >= 2
  {
    assert s == s[..j] + [s[j]] + s[j + 1..];
    assert s[..j][i] == s[i];
    assert s[i] in multiset(s[..j]);
  }

  lemma HeadFirst<T>(s: seq<T>, x: T, before: (T, T) -> bool)
    requires Sorted(s, before) && x in s && x != s[0]
    ensures !before(x, s[0])
  {
    var i :| 0 <= i < |s| && s[i] == x;
    assert i > 0;
  }

  lemma TailElements<T>(s: seq<T>)
    requires s != []
    ensures multiset(s[1..]) == multiset(s) - multiset{s[0]}
    ensures forall x | x in s[1..] :: x in s
  {
    assert s == [s[0]] + s[1..];
  }

  /** Two sorted arrangements of the same elements agree when the order tells all of them apart. */
  lemma {:induction false} SortedUnique<T>(s: seq<T>, t: seq<T>, before: (T, T) -> bool)
    requires multiset(s) == multiset(t) && Sorted(s, before) && Sorted(t, before)
    requires forall a, b | a in s && b in s && a != b :: before(a, b) || before(b, a)
    ensures s == t
  {
    assert |s| == |multiset(s)| == |multiset(t)| == |t|;
    if s != [] {
      assert s[0] in multiset(t) && t[0] in multiset(s);
      if s[0] != t[0] {
        HeadFirst(s, t[0], before);
        HeadFirst(t, s[0], before);
        assert false;
      }
      TailElements(s);
      TailElements(t);
      SortedUnique(s[1..], t[1..], before);
      assert s == [s[0]] + s[1..] && t == [t[0]] + t[1..];
    }
  }

  // ----- stability

  /** Where Insert puts its element. */
  function InsertPosition<T>(x: T, s: seq<T>, before: (T, T) -> bool): nat {
    if s == [] || !before(s[0], x) then 0 else 1 + InsertPosition(x, s[1..], before)
  }

  /** Only earlier elements stay in front of it; all others move up by one. */
  lemma {:induction false} InsertShifts<T>(x: T, s: seq<T>, before: (T, T) -> bool, m: nat)
    requires m < |s|
    ensures var k, t := InsertPosition(x, s, before), Insert(x, s, before);
            && |t| == |s| + 1 && k <= |s| && t[k] == x
            && (if m < k then before(s[m], x) && t[m] == s[m] else t[m + 1] == s[m])
  {
    if before(s[0], x) && |s| > 1 {
      InsertShifts(x, s[1..], before, if m == 0 then 0 else m - 1);
    }
  }

  /** Elements the order does not put the other way round keep their places relative to each other. */
  lemma {:induction false} SortKeepsOrder<T>(s: seq<T>, i: nat, j: nat, before: (T, T) -> bool)
    requires i < j < |s| && !before(s[j], s[i])
    ensures exists p, q | 0 <= p < q < |Sort(s, before)| :: Sort(s, before)[p] == s[i] && Sort(s, before)[q] == s[j]
  {
    var rest := Sort(s[1..], before);
    var k := InsertPosition(s[0], rest, before);
    var sorted := Sort(s, before);
    if i == 0 {
      SortPermutes(s[1..], before);
      assert s[j] == s[1..][j - 1];
      assert s[j] in multiset(rest);
      var q :| 0 <= q < |rest| && rest[q] == s[j];
      InsertShifts(s[0], rest, before, q);
      assert sorted[k] == s[i] && sorted[q + 1] == s[j];
    } else {
      SortKeepsOrder(s[1..], i - 1, j - 1, before);
      var p, q :| 0 <= p < q < |rest| && rest[p] == s[i] && rest[q] == s[j];
      InsertShifts(s[0], rest, before, p);
      InsertShifts(s[0], rest, before, q);
      var p', q' := if p < k then p else p + 1, if q < k then q else q + 1;
      assert sorted[p'] == s[i] && sorted[q'] == s[j];
    }
  }

  lemma {:induction false} InsertsCommute<T(!new)>(x: T, a: T, s: seq<T>, before: (T, T) -> bool)
    requires StrictWeak(before) && before(a, x)
    ensures Insert(a, Insert(x, s, before), before) == Insert(x, Insert(a, s, before), before)
  {
    if s == [] {
      assert [a, x][1..] == [x] && [a][1..] == [];
    } else if !before(s[0], x) {
      assert !before(s[0], a);
      assert ([a] + s)[1..] == s;
    } else if before(s[0], a) {
      InsertsCommute(x, a, s[1..], before);
      assert ([s[0]] + Insert(x, s[1..], before))[1..] == Insert(x, s[1..], before);
      assert ([s[0]] + Insert(a, s[1..], before))[1..] == Insert(a, s[1..], before);
    } else {
      assert ([a] + s)[1..] == s;
    }
  }

  /** Sorting does not notice an element having been listed behind others that come before it anyway. */
  lemma {:induction false} SortMovesPast<T(!new)>(front: seq<T>, x: T, back: seq<T>, before: (T, T) -> bool)
    requires StrictWeak(before) && forall a | a in front :: before(a, x)
    ensures Sort(front + [x] + back, before) == Insert(x, Sort(front + back, before), before)
  {
    if front == [] {
      assert front + [x] + back == [x] + back && ([x] + back)[1..] == back && front + back == back;
    } else {
      assert (front + [x] + back)[1..] == front[1..] + [x] + back;
      assert (front + back)[1..] == front[1..] + back;
      SortMovesPast(front[1..], x, back, before);
      InsertsCommute(x, front[0], Sort(front[1..] + back, before), before);
    }
  }

  lemma {:induction false} DistinctOnce<T>(s: seq<T>, x: T)
    requires forall i, j | 0 <= i < j < |s| :: s[i] != s[j]
    ensures multiset(s)[x] <= 1
  {
    if s != [] {
      assert s == [s[0]] + s[1..];
      DistinctOnce(s[1..], x);
      if x in s[1..] {
        var i :| 0 <= i < |s[1..]| && s[1..][i] == x;
        assert s[i + 1] == x;
        assert s[0] != x;
      }
    }
  }
}
