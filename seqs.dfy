/** Generic facts about sequences that several parts of the model share:
    order-preserving selection (what `Array.prototype.filter`, a SQL join over
    a table scan and a list comprehension produce) and counting. */
module Seqs {

  /** `a` can be obtained from `b` by deleting elements, keeping the order. */
  predicate IsSubsequence<T(==)>(a: seq<T>, b: seq<T>)
    decreases |b|
  {
    if a == [] then true
    else if b == [] then false
    else if a[0] == b[0] then IsSubsequence(a[1..], b[1..])
    else IsSubsequence(a, b[1..])
  }

  /** The elements of `s` that satisfy `keep`, in their order. */
  function Filter<T(!new)>(s: seq<T>, keep: T -> bool): (r: seq<T>)
    ensures |r| <= |s|
    ensures forall i :: 0 <= i < |r| ==> keep(r[i])
    ensures forall x :: x in r <==> x in s && keep(x)
  {
    if s == [] then [] else (if keep(s[0]) then [s[0]] else []) + Filter(s[1..], keep)
  }

  /** How many elements of `s` satisfy `p`, counted with multiplicity. */
  function Count<T>(s: seq<T>, p: T -> bool): (n: nat)
    ensures n <= |s|
  {
    if s == [] then 0 else (if p(s[0]) then 1 else 0) + Count(s[1..], p)
  }

  lemma {:induction false} FilterIsSubsequence<T(!new)>(s: seq<T>, keep: T -> bool)
    ensures IsSubsequence(Filter(s, keep), s)
  {
    if s != [] {
      FilterIsSubsequence(s[1..], keep);
      var tail := Filter(s[1..], keep);
      if keep(s[0]) {
        assert Filter(s, keep) == [s[0]] + tail;
        assert ([s[0]] + tail)[1..] == tail;
      } else {
        assert Filter(s, keep) == tail;
        assert tail != [] ==> keep(tail[0]) && tail[0] != s[0];
      }
    }
  }

  lemma {:induction false} SubsequenceOfItself<T>(s: seq<T>)
    ensures IsSubsequence(s, s)
  {
    if s != [] {
      SubsequenceOfItself(s[1..]);
    }
  }

  /** An element is selected exactly when it occurs and satisfies `keep`. */
  lemma FilterMembership<T(!new)>(s: seq<T>, keep: T -> bool, x: T)
    ensures x in Filter(s, keep) <==> x in s && keep(x)
  {
    var r := Filter(s, keep);
    if x in r {
      var i :| 0 <= i < |r| && r[i] == x;
    }
    if x in s && keep(x) {
      var i :| 0 <= i < |s| && s[i] == x;
    }
  }

  /** Selection distributes over concatenation. */
  lemma {:induction false} FilterAppend<T(!new)>(a: seq<T>, b: seq<T>, keep: T -> bool)
    ensures Filter(a + b, keep) == Filter(a, keep) + Filter(b, keep)
  {
    if a == [] {
      assert a + b == b;
    } else {
      assert (a + b)[0] == a[0];
      assert (a + b)[1..] == a[1..] + b;
      FilterAppend(a[1..], b, keep);
    }
  }

  /** Every element satisfies `p` exactly when the first does and every later one does. */
  lemma AllSplit<T>(s: seq<T>, p: T -> bool)
    requires s != []
    ensures (forall k :: 0 <= k < |s| ==> p(s[k])) <==> p(s[0]) && forall k :: 0 <= k < |s[1..]| ==> p(s[1..][k])
  {
    if p(s[0]) && forall k :: 0 <= k < |s[1..]| ==> p(s[1..][k]) {
      forall k | 0 <= k < |s| ensures p(s[k]) {
        if k > 0 { assert s[k] == s[1..][k - 1]; }
      }
    }
  }

  /** Selection keeps every element exactly when every element satisfies
      `keep`, and then it is the sequence itself. */
  lemma {:induction false} FilterKeepsAll<T(!new)>(s: seq<T>, keep: T -> bool)
    ensures (|Filter(s, keep)| == |s|) <==> (forall k :: 0 <= k < |s| ==> keep(s[k]))
    ensures (forall k :: 0 <= k < |s| ==> keep(s[k])) ==> Filter(s, keep) == s
  {
    if s != [] {
      FilterKeepsAll(s[1..], keep);
      AllSplit(s, keep);
      var tail := Filter(s[1..], keep);
      if keep(s[0]) {
        assert Filter(s, keep) == [s[0]] + tail;
        if tail == s[1..] {
          assert [s[0]] + s[1..] == s;
        }
      } else {
        assert Filter(s, keep) == tail;
      }
    }
  }

  /** Nothing is counted when no element satisfies the predicate. */
  lemma {:induction false} CountNone<T>(s: seq<T>, p: T -> bool)
    requires forall k :: 0 <= k < |s| ==> !p(s[k])
    ensures Count(s, p) == 0
  {
    if s != [] {
      CountNone(s[1..], p);
    }
  }

  /** Counting distributes over concatenation. */
  lemma {:induction false} CountAppend<T>(a: seq<T>, b: seq<T>, p: T -> bool)
    ensures Count(a + b, p) == Count(a, p) + Count(b, p)
  {
    if a != [] {
      assert (a + b)[0] == a[0];
      assert (a + b)[1..] == a[1..] + b;
      CountAppend(a[1..], b, p);
    } else {
      assert a + b == b;
    }
  }

  /** Taking out the element at `k` leaves the other elements. */
  lemma RemoveAt<T>(b: seq<T>, k: nat)
    requires k < |b|
    ensures multiset(b[..k] + b[k + 1..]) == multiset(b) - multiset{b[k]}
  {
    SplitAt(b, k);
  }

  lemma SplitAt<T>(b: seq<T>, k: nat)
    requires k < |b|
    ensures b == b[..k] + [b[k]] + b[k + 1..]
  {
  }

  /** Taking out the element at `k` takes its share out of every count. */
  lemma CountRemoveAt<T>(b: seq<T>, k: nat, p: T -> bool)
    requires k < |b|
    ensures Count(b, p) == Count(b[..k] + b[k + 1..], p) + (if p(b[k]) then 1 else 0)
  {
    var front, x, back := b[..k], b[k], b[k + 1..];
    SplitAt(b, k);
    CountAppend(front + [x], back, p);
    CountAppend(front, [x], p);
    CountAppend(front, back, p);
    CountSingle(x, p);
  }

  lemma CountSingle<T>(x: T, p: T -> bool)
    ensures Count([x], p) == if p(x) then 1 else 0
  {
    assert [x][1..] == [];
  }

  /** Sequences with the same elements (a permutation) agree on every count. */
  lemma {:induction false} CountPermutation<T>(a: seq<T>, b: seq<T>, p: T -> bool)
    requires multiset(a) == multiset(b)
    ensures Count(a, p) == Count(b, p)
    decreases |a|
  {
    if a == [] {
      assert |b| == |multiset(b)| == 0;
    } else {
      var x := a[0];
      assert x in multiset(b);
      var k :| 0 <= k < |b| && b[k] == x;
      assert a == [x] + a[1..];
      assert multiset(a[1..]) == multiset(a) - multiset{x};
      RemoveAt(b, k);
      CountPermutation(a[1..], b[..k] + b[k + 1..], p);
      CountRemoveAt(b, k, p);
    }
  }
}
