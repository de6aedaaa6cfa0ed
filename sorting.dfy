/** A stable sort driven by a comparator, the behaviour ECMAScript requires of
    `Array.prototype.sort`: `le(a, b)` stands for `compare(a, b) <= 0`, and an
    element is placed after another only when the comparator is positive. */
module Sorting {

  predicate SortedBy<T>(s: seq<T>, le: (T, T) -> bool) {
    forall i, j :: 0 <= i < j < |s| ==> le(s[i], s[j])
  }

  /** On the elements of `s`, `le` is total and transitive. */
  ghost predicate PreorderOn<T>(s: seq<T>, le: (T, T) -> bool) {
    && (forall a, b :: a in s && b in s ==> le(a, b) || le(b, a))
    && (forall a, b, c :: a in s && b in s && c in s && le(a, b) && le(b, c) ==> le(a, c))
  }

  /** `x` placed before the first element it does not follow, so that it stays
      ahead of the elements it ties with. */
  function Insert<T>(x: T, s: seq<T>, le: (T, T) -> bool): (r: seq<T>)
    ensures multiset(r) == multiset(s) + multiset{x}
  {
    if s == [] || le(x, s[0]) then [x] + s
    else (assert s == [s[0]] + s[1..]; [s[0]] + Insert(x, s[1..], le))
  }

  /** The sorted copy, by insertion from the back, which keeps tied elements in their order. */
  function SortBy<T>(s: seq<T>, le: (T, T) -> bool): (r: seq<T>)
    ensures multiset(r) == multiset(s)
  {
    if s == [] then []
    else (assert s == [s[0]] + s[1..]; Insert(s[0], SortBy(s[1..], le), le))
  }

  /** An element that the first element does not precede goes in front. */
  lemma InsertFront<T>(x: T, s: seq<T>, le: (T, T) -> bool)
    requires s == [] || le(x, s[0])
    ensures Insert(x, s, le) == [x] + s
  {
  }

  /** Otherwise the first element stays first and `x` goes into the rest. */
  lemma InsertPast<T>(x: T, s: seq<T>, le: (T, T) -> bool)
    requires s != [] && !le(x, s[0])
    ensures Insert(x, s, le) == [s[0]] + Insert(x, s[1..], le)
  {
  }

  /** Sorting a sequence is inserting its first element into the sorted rest. */
  lemma SortByCons<T>(x: T, s: seq<T>, le: (T, T) -> bool)
    ensures SortBy([x] + s, le) == Insert(x, SortBy(s, le), le)
  {
    assert ([x] + s)[0] == x && ([x] + s)[1..] == s;
  }

  /** An element that precedes every element of a sorted sequence can lead it. */
  lemma ConsSorted<T>(h: T, t: seq<T>, le: (T, T) -> bool)
    requires SortedBy(t, le) && forall k :: 0 <= k < |t| ==> le(h, t[k])
    ensures SortedBy([h] + t, le)
  {
    var r := [h] + t;
    forall i, j | 0 <= i < j < |r| ensures le(r[i], r[j]) {
      assert r[j] == t[j - 1];
      if i > 0 {
        assert r[i] == t[i - 1];
      }
    }
  }

  lemma {:induction false} InsertSorted<T>(x: T, s: seq<T>, le: (T, T) -> bool, all: seq<T>)
    requires PreorderOn(all, le) && x in all && forall k :: 0 <= k < |s| ==> s[k] in all
    requires SortedBy(s, le)
    ensures SortedBy(Insert(x, s, le), le)
  {
    if s == [] || le(x, s[0]) {
      forall k | 0 <= k < |s| ensures le(x, s[k]) {
        if k > 0 {
          assert le(s[0], s[k]) && s[0] in all && s[k] in all;
        }
      }
      ConsSorted(x, s, le);
    } else {
      var tail := Insert(x, s[1..], le);
      InsertSorted(x, s[1..], le, all);
      assert le(s[0], x);
      forall k | 0 <= k < |tail| ensures le(s[0], tail[k]) {
        assert tail[k] in multiset(tail);
        if tail[k] != x {
          assert tail[k] in multiset(s[1..]);
          var j :| 0 <= j < |s[1..]| && s[1..][j] == tail[k];
          assert s[j + 1] == tail[k];
        }
      }
      ConsSorted(s[0], tail, le);
    }
  }

  lemma {:induction false} SortBySortedFrom<T>(s: seq<T>, le: (T, T) -> bool, all: seq<T>)
    requires PreorderOn(all, le) && forall k :: 0 <= k < |s| ==> s[k] in all
    ensures SortedBy(SortBy(s, le), le)
  {
    if s != [] {
      SortBySortedFrom(s[1..], le, all);
      var r := SortBy(s[1..], le);
      forall k | 0 <= k < |r| ensures r[k] in all {
        assert r[k] in multiset(s[1..]);
        var j :| 0 <= j < |s[1..]| && s[1..][j] == r[k];
        assert s[j + 1] == r[k];
      }
      InsertSorted(s[0], r, le, all);
    }
  }

  /** When the comparator is a total preorder on the elements, the result is ordered. */
  lemma SortBySorted<T>(s: seq<T>, le: (T, T) -> bool)
    requires PreorderOn(s, le)
    ensures SortedBy(SortBy(s, le), le)
  {
    SortBySortedFrom(s, le, s);
  }

  /** When every comparison is a tie, the order is left as it was (stability). */
  lemma {:induction false} SortByAllTies<T>(s: seq<T>, le: (T, T) -> bool)
    requires forall i, j :: 0 <= i < |s| && 0 <= j < |s| ==> le(s[i], s[j])
    ensures SortBy(s, le) == s
  {
    if s != [] {
      SortByAllTies(s[1..], le);
      assert SortBy(s[1..], le) == s[1..];
      if |s| > 1 {
        assert le(s[0], s[1]);
      }
    }
  }

  /** Two comparators that agree on the elements of `all` insert alike. */
  lemma {:induction false} InsertAgree<T>(x: T, s: seq<T>, le1: (T, T) -> bool, le2: (T, T) -> bool, all: seq<T>)
    requires x in all && forall k :: 0 <= k < |s| ==> s[k] in all
    requires forall a, b :: a in all && b in all ==> le1(a, b) == le2(a, b)
    ensures Insert(x, s, le1) == Insert(x, s, le2)
    decreases |s|
  {
    if s != [] && !le1(x, s[0]) {
      InsertAgree(x, s[1..], le1, le2, all);
    }
  }

  /** Two comparators that agree on the elements of `s` sort it alike. */
  lemma {:induction false} SortByAgree<T>(s: seq<T>, le1: (T, T) -> bool, le2: (T, T) -> bool)
    requires forall a, b :: a in s && b in s ==> le1(a, b) == le2(a, b)
    ensures SortBy(s, le1) == SortBy(s, le2)
    decreases |s|
  {
    if s != [] {
      SortByAgree(s[1..], le1, le2);
      var t := SortBy(s[1..], le1);
      forall k | 0 <= k < |t| ensures t[k] in s {
        assert t[k] in multiset(s[1..]);
      }
      InsertAgree(s[0], t, le1, le2, s);
    }
  }
}
