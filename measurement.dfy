/** The measurement a capture stores: contour bounding boxes are converted
    to millimetres, boxes with a side under 2 mm are dropped, and the stored
    width and height are each the second largest of what is left (the
    largest when only one is left, 0 when none is). Both capture scripts
    (app/Http/Scripts/microscopio.py and app/Http/Scripts/controllers/Inserir_print.py)
    do this in the same way. */
module Measurement {
  import Seqs
  import Sorting

  /** The bounding box of a contour, in pixels, as OpenCV's `boundingRect` gives it. */
  datatype Box = Box(x: int, y: int, w: nat, h: nat)

  /** Objects with a side shorter than this many millimetres are ignored. */
  const MIN_MM: real := 2.0

  function WidthMm(b: Box, sx: real): real { b.w as real * sx }

  function HeightMm(b: Box, sy: real): real { b.h as real * sy }

  /** The box is kept: neither side is below `MIN_MM`. */
  predicate Large(b: Box, sx: real, sy: real) {
    !(WidthMm(b, sx) < MIN_MM || HeightMm(b, sy) < MIN_MM)
  }

  function IsLarge(sx: real, sy: real): Box -> bool {
    b => Large(b, sx, sy)
  }

  /** The boxes that survive the size filter, in contour order. */
  function Kept(boxes: seq<Box>, sx: real, sy: real): seq<Box> {
    Seqs.Filter(boxes, IsLarge(sx, sy))
  }

  function Widths(bs: seq<Box>, sx: real): (r: seq<real>)
    ensures |r| == |bs| && forall k :: 0 <= k < |bs| ==> r[k] == WidthMm(bs[k], sx)
  {
    if bs == [] then [] else [WidthMm(bs[0], sx)] + Widths(bs[1..], sx)
  }

  function Heights(bs: seq<Box>, sy: real): (r: seq<real>)
    ensures |r| == |bs| && forall k :: 0 <= k < |bs| ==> r[k] == HeightMm(bs[k], sy)
  {
    if bs == [] then [] else [HeightMm(bs[0], sy)] + Heights(bs[1..], sy)
  }

  lemma KeptAppend(boxes: seq<Box>, b: Box, sx: real, sy: real)
    ensures Kept(boxes + [b], sx, sy) == Kept(boxes, sx, sy) + (if Large(b, sx, sy) then [b] else [])
  {
    Seqs.FilterAppend(boxes, [b], IsLarge(sx, sy));
    assert Seqs.Filter([b], IsLarge(sx, sy)) == (if Large(b, sx, sy) then [b] else []) + Seqs.Filter([b][1..], IsLarge(sx, sy));
  }

  lemma WidthsAppend(bs: seq<Box>, b: Box, sx: real)
    ensures Widths(bs + [b], sx) == Widths(bs, sx) + [WidthMm(b, sx)]
  {
    var l, r := Widths(bs + [b], sx), Widths(bs, sx) + [WidthMm(b, sx)];
    forall k | 0 <= k < |l| ensures l[k] == r[k] {
      if k < |bs| {
        assert (bs + [b])[k] == bs[k];
      }
    }
  }

  lemma HeightsAppend(bs: seq<Box>, b: Box, sy: real)
    ensures Heights(bs + [b], sy) == Heights(bs, sy) + [HeightMm(b, sy)]
  {
    var l, r := Heights(bs + [b], sy), Heights(bs, sy) + [HeightMm(b, sy)];
    forall k | 0 <= k < |l| ensures l[k] == r[k] {
      if k < |bs| {
        assert (bs + [b])[k] == bs[k];
      }
    }
  }

  /** Every kept box passes the size test. */
  lemma KeptLarge(boxes: seq<Box>, sx: real, sy: real)
    ensures forall k :: 0 <= k < |Kept(boxes, sx, sy)| ==> Large(Kept(boxes, sx, sy)[k], sx, sy)
  {
    var kept := Kept(boxes, sx, sy);
    forall k | 0 <= k < |kept| ensures Large(kept[k], sx, sy) {
      assert IsLarge(sx, sy)(kept[k]);
    }
  }

  /** The loop of `inserir_print`: the millimetre sizes of the kept boxes,
      widths and heights in two parallel lists. Every kept size is at least
      `MIN_MM`, and the k-th width and the k-th height belong to the same box. */
  method Measure(boxes: seq<Box>, sx: real, sy: real) returns (widths: seq<real>, heights: seq<real>)
    ensures widths == Widths(Kept(boxes, sx, sy), sx) && heights == Heights(Kept(boxes, sx, sy), sy)
    ensures |widths| == |heights| <= |boxes|
    ensures forall k :: 0 <= k < |widths| ==> widths[k] >= MIN_MM && heights[k] >= MIN_MM
  {
    widths, heights := [], [];
    var i := 0;
    while i < |boxes|
      invariant 0 <= i <= |boxes|
      invariant widths == Widths(Kept(boxes[..i], sx, sy), sx)
      invariant heights == Heights(Kept(boxes[..i], sx, sy), sy)
    {
      var b := boxes[i];
      assert boxes[..i + 1] == boxes[..i] + [b];
      KeptAppend(boxes[..i], b, sx, sy);
      var mmX := WidthMm(b, sx);
      var mmY := HeightMm(b, sy);
      if mmX < MIN_MM || mmY < MIN_MM {
        i := i + 1;
        continue;
      }
      WidthsAppend(Kept(boxes[..i], sx, sy), b, sx);
      HeightsAppend(Kept(boxes[..i], sx, sy), b, sy);
      widths := widths + [mmX];
      heights := heights + [mmY];
      i := i + 1;
    }
    assert boxes[..i] == boxes;
    KeptLarge(boxes, sx, sy);
  }

  function GreaterEq(): (real, real) -> bool {
    (a, b) => a >= b
  }

  /** `sort(reverse=True)`: largest first. */
  function SortDesc(xs: seq<real>): (r: seq<real>)
    ensures multiset(r) == multiset(xs)
  {
    Sorting.SortBy(xs, GreaterEq())
  }

  /** `s[1] if len(s) > 1 else (s[0] if s else 0)` on the descending list. */
  function Pick(s: seq<real>): real {
    if |s| > 1 then s[1] else if |s| == 1 then s[0] else 0.0
  }

  /** The value `inserir_print` stores for a list of kept sizes. */
  function SecondLargest(xs: seq<real>): real {
    Pick(SortDesc(xs))
  }

  function Above(r: real): real -> bool { x => x > r }

  function NotBelow(r: real): real -> bool { x => x >= r }

  lemma SortDescSorted(xs: seq<real>)
    ensures Sorting.SortedBy(SortDesc(xs), GreaterEq())
  {
    Sorting.SortBySorted(xs, GreaterEq());
  }

  /** On a descending list of two or more sizes, at most one is above the
      second and at least two are not below it. */
  lemma {:induction false} SecondOfDescending(s: seq<real>)
    requires |s| >= 2 && Sorting.SortedBy(s, GreaterEq())
    ensures Seqs.Count(s, Above(s[1])) <= 1 && Seqs.Count(s, NotBelow(s[1])) >= 2
  {
    var r := s[1];
    var rest := s[2..];
    forall k | 0 <= k < |rest| ensures !Above(r)(rest[k]) {
      assert rest[k] == s[k + 2] && GreaterEq()(s[1], s[k + 2]);
    }
    Seqs.CountNone(rest, Above(r));
    assert s[1..][1..] == rest;
    assert Seqs.Count(s[1..], Above(r)) == Seqs.Count(rest, Above(r));
    assert Seqs.Count(s[1..], NotBelow(r)) == 1 + Seqs.Count(rest, NotBelow(r));
    assert GreaterEq()(s[0], s[1]);
  }

  /** What the selection means without reference to sorting: with two or
      more sizes, the result is one of them, at most one size is larger and
      at least two (itself included) are at least as large — the second
      largest counted with multiplicity. With one size it is that size; with
      none it is 0. */
  lemma SecondLargestMeaning(xs: seq<real>)
    ensures |xs| == 0 ==> SecondLargest(xs) == 0.0
    ensures |xs| == 1 ==> SecondLargest(xs) == xs[0]
    ensures |xs| >= 2 ==>
      var r := SecondLargest(xs);
      && r in xs
      && Seqs.Count(xs, Above(r)) <= 1
      && Seqs.Count(xs, NotBelow(r)) >= 2
  {
    var s := SortDesc(xs);
    assert |s| == |multiset(s)| == |multiset(xs)| == |xs|;
    if |xs| == 1 {
      assert s[0] in multiset(xs);
    } else if |xs| >= 2 {
      SortDescSorted(xs);
      var r := s[1];
      assert r in multiset(xs);
      SecondOfDescending(s);
      Seqs.CountPermutation(s, xs, Above(r));
      Seqs.CountPermutation(s, xs, NotBelow(r));
    }
  }

  /** The width and the height `inserir_print` stores, in millimetres
      (before `round(…, 2)`). */
  function Selected(boxes: seq<Box>, sx: real, sy: real): (real, real) {
    var kept := Kept(boxes, sx, sy);
    (SecondLargest(Widths(kept, sx)), SecondLargest(Heights(kept, sy)))
  }

  lemma KeptAllLarge(a: Box, b: Box, c: Box, sx: real, sy: real)
    requires Large(a, sx, sy) && Large(b, sx, sy) && Large(c, sx, sy)
    ensures Kept([a, b, c], sx, sy) == [a, b, c]
  {
    var f := IsLarge(sx, sy);
    assert f(a) && f(b) && f(c);
    assert [a, b, c][1..] == [b, c] && [b, c][1..] == [c] && [c][1..] == [];
    assert Seqs.Filter([c], f) == [c];
    assert Seqs.Filter([b, c], f) == [b, c];
  }

  /** Three distinct sizes in the order (largest, middle, smallest) sort as they are. */
  lemma SortThreeDescending(x: real, y: real, z: real)
    requires x > y > z
    ensures SortDesc([x, y, z]) == [x, y, z]
  {
    var ge := GreaterEq();
    SortTwo(y, z);
    Sorting.SortByCons(x, [y, z], ge);
    Sorting.InsertFront(x, [y, z], ge);
    assert [x] + [y, z] == [x, y, z];
  }

  lemma SortOne(z: real)
    ensures Sorting.SortBy([z], GreaterEq()) == [z]
  {
    Sorting.SortByCons(z, [], GreaterEq());
    assert [z] + [] == [z];
  }

  lemma SortTwo(y: real, z: real)
    requires y > z
    ensures Sorting.SortBy([y, z], GreaterEq()) == [y, z]
  {
    var ge := GreaterEq();
    SortOne(z);
    Sorting.SortByCons(y, [z], ge);
    Sorting.InsertFront(y, [z], ge);
    assert [y] + [z] == [y, z];
  }

  /** The smallest size goes past two larger ones. */
  lemma InsertSmallest(x: real, y: real, z: real)
    requires y > z > x
    ensures Sorting.Insert(x, [y, z], GreaterEq()) == [y, z, x]
  {
    var ge := GreaterEq();
    Sorting.InsertPast(x, [y, z], ge);
    assert [y, z][1..] == [z];
    Sorting.InsertPast(x, [z], ge);
    assert [z][1..] == [];
    Sorting.InsertFront(x, [], ge);
    assert [z] + ([x] + []) == [z, x];
    assert [y] + [z, x] == [y, z, x];
  }

  /** The smallest size first, then the largest, then the middle one. */
  lemma SortThreeRotated(x: real, y: real, z: real)
    requires y > z > x
    ensures SortDesc([x, y, z]) == [y, z, x]
  {
    SortTwo(y, z);
    InsertSmallest(x, y, z);
    Sorting.SortByCons(x, [y, z], GreaterEq());
    assert [x] + [y, z] == [x, y, z];
  }

  /** The two sizes are chosen independently, so the stored width and height
      may belong to different objects: of three objects whose widths fall in
      one order and whose heights in another, the width stored is the second
      object's and the height the third's, and no object has both. */
  lemma SizesFromDifferentObjects(a: Box, b: Box, c: Box, sx: real, sy: real)
    requires Large(a, sx, sy) && Large(b, sx, sy) && Large(c, sx, sy)
    requires WidthMm(a, sx) > WidthMm(b, sx) > WidthMm(c, sx)
    requires HeightMm(b, sy) > HeightMm(c, sy) > HeightMm(a, sy)
    ensures Selected([a, b, c], sx, sy) == (WidthMm(b, sx), HeightMm(c, sy))
    ensures forall d :: d in [a, b, c] ==> (WidthMm(d, sx), HeightMm(d, sy)) != Selected([a, b, c], sx, sy)
  {
    KeptAllLarge(a, b, c, sx, sy);
    var ws := Widths([a, b, c], sx);
    var hs := Heights([a, b, c], sy);
    assert ws == [WidthMm(a, sx), WidthMm(b, sx), WidthMm(c, sx)];
    assert hs == [HeightMm(a, sy), HeightMm(b, sy), HeightMm(c, sy)];
    SortThreeDescending(WidthMm(a, sx), WidthMm(b, sx), WidthMm(c, sx));
    SortThreeRotated(HeightMm(a, sy), HeightMm(b, sy), HeightMm(c, sy));
  }
}
