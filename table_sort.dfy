/** The comparator both tables hand to `Array.prototype.sort`, and the sorted
    rows. Nulls come first ascending and last descending; two values that
    both convert with `Number` compare numerically; otherwise the values are
    compared as dates. The source guards the date comparison with
    `Number.isNaN(new Date(v))`, which is false for every Date object, so its
    final string comparison is unreachable and two values that are neither
    numbers nor valid dates compare as NaN, which the sort treats as a tie.
    `Compare` is the comparator as written; `CompareIntended` tests the dates'
    time values and falls back to the string comparison. */
module TableSort {
  import opened Wrappers
  import opened TableData
  import opened TableView
  import Sorting

  // ---------------------------------------------------------------------
  // Code-unit string comparison, standing in for `localeCompare`

  /** Lexicographic comparison by character code: negative, zero or positive. */
  function StrCmp(a: string, b: string): (r: int)
    ensures -1 <= r <= 1
  {
    if a == [] && b == [] then 0
    else if a == [] then -1
    else if b == [] then 1
    else if a[0] < b[0] then -1
    else if a[0] > b[0] then 1
    else StrCmp(a[1..], b[1..])
  }

  lemma {:induction false} StrCmpAntisymmetric(a: string, b: string)
    ensures StrCmp(a, b) == -StrCmp(b, a)
  {
    if a != [] && b != [] && a[0] == b[0] {
      StrCmpAntisymmetric(a[1..], b[1..]);
    }
  }

  lemma {:induction false} StrCmpZeroIffEqual(a: string, b: string)
    ensures StrCmp(a, b) == 0 <==> a == b
  {
    if a != [] && b != [] && a[0] == b[0] {
      StrCmpZeroIffEqual(a[1..], b[1..]);
      if a[1..] == b[1..] {
        assert a == [a[0]] + a[1..] && b == [b[0]] + b[1..];
      }
    }
  }

  lemma {:induction false} StrCmpTransitive(a: string, b: string, c: string)
    requires StrCmp(a, b) <= 0 && StrCmp(b, c) <= 0
    ensures StrCmp(a, c) <= 0
  {
    if a != [] && b != [] && c != [] && a[0] == b[0] && b[0] == c[0] {
      StrCmpTransitive(a[1..], b[1..], c[1..]);
    }
  }

  // ---------------------------------------------------------------------
  // The comparators

  /** The part the two comparators share: the null rule and the numeric
      branch; None means both values are non-null and not both numbers. */
  function NullOrNumber(va: Cell, vb: Cell, dir: Dir): Option<real> {
    if va.IsNullish() && vb.IsNullish() then Some(0.0)
    else if va.IsNullish() then Some(if dir == Asc then -1.0 else 1.0)
    else if vb.IsNullish() then Some(if dir == Asc then 1.0 else -1.0)
    else if va.num.Some? && vb.num.Some? then
      Some(if dir == Asc then va.num.value - vb.num.value else vb.num.value - va.num.value)
    else None
  }

  /** The difference of two time values, ascending or descending. */
  function TimeDiff(ta: int, tb: int, dir: Dir): real {
    if dir == Asc then (ta - tb) as real else (tb - ta) as real
  }

  /** The comparator as written. A subtraction involving an invalid date is
      NaN, and the sort reads a NaN result as 0. */
  function Compare(va: Cell, vb: Cell, dir: Dir): real {
    match NullOrNumber(va, vb, dir)
    case Some(d) => d
    case None =>
      if va.time.Some? && vb.time.Some? then TimeDiff(va.time.value, vb.time.value, dir)
      else 0.0
  }

  /** The comparator as evidently intended: dates are compared only when both
      are valid, and every other pair by its text. */
  function CompareIntended(va: Cell, vb: Cell, dir: Dir): real {
    match NullOrNumber(va, vb, dir)
    case Some(d) => d
    case None =>
      if va.time.Some? && vb.time.Some? then TimeDiff(va.time.value, vb.time.value, dir)
      else if dir == Asc then StrCmp(va.text, vb.text) as real
      else StrCmp(vb.text, va.text) as real
  }

  /** Swapping the operands negates the comparison. */
  lemma CompareIntendedAntisymmetric(va: Cell, vb: Cell, dir: Dir)
    ensures CompareIntended(va, vb, dir) == -CompareIntended(vb, va, dir)
  {
    if !va.IsNullish() && !vb.IsNullish() {
      StrCmpAntisymmetric(va.text, vb.text);
    }
  }

  /** Descending order is ascending order with the operands swapped. */
  lemma CompareIntendedDescReversesAsc(va: Cell, vb: Cell)
    ensures CompareIntended(va, vb, Desc) == CompareIntended(vb, va, Asc)
  {
  }

  /** The null rule: two nulls tie; a null is below any value ascending and above it descending. */
  lemma CompareIntendedNullRule(va: Cell, vb: Cell)
    ensures va.IsNullish() && vb.IsNullish() ==> CompareIntended(va, vb, Asc) == 0.0 && CompareIntended(va, vb, Desc) == 0.0
    ensures va.IsNullish() && !vb.IsNullish() ==> CompareIntended(va, vb, Asc) < 0.0 && CompareIntended(va, vb, Desc) > 0.0
  {
  }

  /** The difference between the two: on two values that are neither numbers
      nor valid dates, the comparator as written always ties, while the
      intended one ties only on equal texts. */
  lemma CompareTiesOnText(va: Cell, vb: Cell, dir: Dir)
    requires va.Value? && vb.Value? && va.num.None? && vb.num.None? && va.time.None? && vb.time.None?
    ensures Compare(va, vb, dir) == 0.0
    ensures CompareIntended(va, vb, dir) == 0.0 <==> va.text == vb.text
  {
    StrCmpZeroIffEqual(va.text, vb.text);
    StrCmpZeroIffEqual(vb.text, va.text);
  }

  // ---------------------------------------------------------------------
  // Columns the comparator orders consistently

  datatype Kind = Numeric | Temporal | Textual

  /** Which branch a non-null value takes. */
  function KindOf(c: Cell): Kind
    requires c.Value?
  {
    if c.num.Some? then Numeric else if c.time.Some? then Temporal else Textual
  }

  /** Two cells that are null or of one kind. */
  predicate Compatible(a: Cell, b: Cell) {
    a.IsNullish() || b.IsNullish() || KindOf(a) == KindOf(b)
  }

  /** The non-null cells of column `key` all convert the same way. */
  ghost predicate UniformColumn(rows: seq<Row>, key: string) {
    forall a, b :: a in rows && b in rows ==> Compatible(Get(a, key), Get(b, key))
  }

  lemma CompareIntendedTransitive(a: Cell, b: Cell, c: Cell, dir: Dir)
    requires Compatible(a, b) && Compatible(b, c) && Compatible(a, c)
    requires CompareIntended(a, b, dir) <= 0.0 && CompareIntended(b, c, dir) <= 0.0
    ensures CompareIntended(a, c, dir) <= 0.0
  {
    if a.Value? && b.Value? && c.Value? && KindOf(a) == Textual {
      if dir == Asc {
        StrCmpTransitive(a.text, b.text, c.text);
      } else {
        StrCmpTransitive(c.text, b.text, a.text);
      }
    }
  }

  /** The order `sort` uses for the current column and direction. */
  function RowOrder(sort: SortState): (Row, Row) -> bool {
    (a: Row, b: Row) => CompareIntended(Get(a, sort.key), Get(b, sort.key), sort.dir) <= 0.0
  }

  /** The corrected `sorted`: `filtered` sorted by the current column in the
      current direction with `CompareIntended`. */
  function SortedRows(filtered: seq<Row>, sort: SortState): seq<Row> {
    Sorting.SortBy(filtered, RowOrder(sort))
  }

  /** The sorted rows are the filtered rows, each as often as before. */
  lemma SortedRowsPermutation(filtered: seq<Row>, sort: SortState)
    ensures multiset(SortedRows(filtered, sort)) == multiset(filtered)
  {
  }

  lemma RowOrderPreorder(rows: seq<Row>, sort: SortState)
    requires UniformColumn(rows, sort.key)
    ensures Sorting.PreorderOn(rows, RowOrder(sort))
  {
    var le := RowOrder(sort);
    forall a, b | a in rows && b in rows ensures le(a, b) || le(b, a) {
      CompareIntendedAntisymmetric(Get(a, sort.key), Get(b, sort.key), sort.dir);
    }
    forall a, b, c | a in rows && b in rows && c in rows && le(a, b) && le(b, c) ensures le(a, c) {
      CompareIntendedTransitive(Get(a, sort.key), Get(b, sort.key), Get(c, sort.key), sort.dir);
    }
  }

  /** On a column whose values convert uniformly, the rows come out ordered
      by the comparator: no row compares above a later one. */
  lemma SortedRowsOrdered(filtered: seq<Row>, sort: SortState)
    requires UniformColumn(filtered, sort.key)
    ensures var s := SortedRows(filtered, sort);
      forall i, j :: 0 <= i < j < |s| ==> CompareIntended(Get(s[i], sort.key), Get(s[j], sort.key), sort.dir) <= 0.0
  {
    RowOrderPreorder(filtered, sort);
    Sorting.SortBySorted(filtered, RowOrder(sort));
  }

  /** On such a column the rows with a null value form the head of the list
      ascending and its tail descending. */
  lemma SortedRowsNullPlacement(filtered: seq<Row>, sort: SortState)
    requires UniformColumn(filtered, sort.key)
    ensures var s := SortedRows(filtered, sort);
      forall i, j :: 0 <= i < j < |s| ==>
        if sort.dir == Asc then (Get(s[j], sort.key).IsNullish() ==> Get(s[i], sort.key).IsNullish())
        else (Get(s[i], sort.key).IsNullish() ==> Get(s[j], sort.key).IsNullish())
  {
    SortedRowsOrdered(filtered, sort);
  }

  // ---------------------------------------------------------------------
  // What the comparator as written does to a text column

  /** The order the comparator as written gives the current column and direction. */
  function RowOrderAsWritten(sort: SortState): (Row, Row) -> bool {
    (a: Row, b: Row) => Compare(Get(a, sort.key), Get(b, sort.key), sort.dir) <= 0.0
  }

  /** `sorted` as written: the rows sorted with `Compare`. */
  function SortedRowsAsWritten(filtered: seq<Row>, sort: SortState): seq<Row> {
    Sorting.SortBy(filtered, RowOrderAsWritten(sort))
  }

  /** A click on a column whose values are neither numbers nor dates (the
      patient names) leaves the rows as they were, in both directions. */
  lemma AsWrittenLeavesTextUnsorted(filtered: seq<Row>, sort: SortState)
    requires forall k :: 0 <= k < |filtered| ==>
      var c := Get(filtered[k], sort.key); c.Value? && c.num.None? && c.time.None?
    ensures SortedRowsAsWritten(filtered, sort) == filtered
  {
    var le := RowOrderAsWritten(sort);
    forall i, j | 0 <= i < |filtered| && 0 <= j < |filtered| ensures le(filtered[i], filtered[j]) {
      CompareTiesOnText(Get(filtered[i], sort.key), Get(filtered[j], sort.key), sort.dir);
    }
    Sorting.SortByAllTies(filtered, le);
  }

  /** A null cell, a number or a valid date. */
  predicate NotTextual(c: Cell) {
    c.IsNullish() || KindOf(c) != Textual
  }

  /** Column `key` holds no value that is neither a number nor a valid date. */
  ghost predicate NoTextColumn(rows: seq<Row>, key: string) {
    forall r :: r in rows ==> NotTextual(Get(r, key))
  }

  /** Off text, the two comparators agree: nulls, numbers and valid dates are
      compared the same way by both. */
  lemma CompareAgreesOffText(va: Cell, vb: Cell, dir: Dir)
    requires Compatible(va, vb) && NotTextual(va) && NotTextual(vb)
    ensures Compare(va, vb, dir) == CompareIntended(va, vb, dir)
  {
  }

  /** On a numeric or date column (nulls allowed) the page's sort gives the
      same rows as the corrected one. */
  lemma SortedRowsAsWrittenAgrees(filtered: seq<Row>, sort: SortState)
    requires UniformColumn(filtered, sort.key) && NoTextColumn(filtered, sort.key)
    ensures SortedRowsAsWritten(filtered, sort) == SortedRows(filtered, sort)
  {
    forall a, b | a in filtered && b in filtered
      ensures RowOrderAsWritten(sort)(a, b) == RowOrder(sort)(a, b)
    {
      CompareAgreesOffText(Get(a, sort.key), Get(b, sort.key), sort.dir);
    }
    Sorting.SortByAgree(filtered, RowOrderAsWritten(sort), RowOrder(sort));
  }

  /** On such a column the page's sort orders the rows by the comparator as written. */
  lemma SortedRowsAsWrittenOrdered(filtered: seq<Row>, sort: SortState)
    requires UniformColumn(filtered, sort.key) && NoTextColumn(filtered, sort.key)
    ensures var s := SortedRowsAsWritten(filtered, sort);
      forall i, j :: 0 <= i < j < |s| ==> Compare(Get(s[i], sort.key), Get(s[j], sort.key), sort.dir) <= 0.0
  {
    SortedRowsAsWrittenAgrees(filtered, sort);
    SortedRowsOrdered(filtered, sort);
    var s := SortedRowsAsWritten(filtered, sort);
    forall i, j | 0 <= i < j < |s| ensures Compare(Get(s[i], sort.key), Get(s[j], sort.key), sort.dir) <= 0.0 {
      assert s[i] in multiset(filtered) && s[j] in multiset(filtered);
      CompareAgreesOffText(Get(s[i], sort.key), Get(s[j], sort.key), sort.dir);
    }
  }

  /** On such a column the page's sort puts the null rows at the head
      ascending and at the tail descending. */
  lemma SortedRowsAsWrittenNullPlacement(filtered: seq<Row>, sort: SortState)
    requires UniformColumn(filtered, sort.key) && NoTextColumn(filtered, sort.key)
    ensures var s := SortedRowsAsWritten(filtered, sort);
      forall i, j :: 0 <= i < j < |s| ==>
        if sort.dir == Asc then (Get(s[j], sort.key).IsNullish() ==> Get(s[i], sort.key).IsNullish())
        else (Get(s[i], sort.key).IsNullish() ==> Get(s[j], sort.key).IsNullish())
  {
    SortedRowsAsWrittenAgrees(filtered, sort);
    SortedRowsNullPlacement(filtered, sort);
  }

  /** A name cell as the engine sees it: not a number, not a date. */
  function NameCell(name: string): Cell {
    Value(name, name != "", None, None)
  }

  /** Sorting "Bruno", "Ana" by name ascending: as written the order stays,
      as intended "Ana" comes first. */
  lemma NameSortExample()
    ensures var rows := [map[NAME := NameCell("Bruno")], map[NAME := NameCell("Ana")]];
      && SortedRowsAsWritten(rows, SortState(NAME, Asc)) == rows
      && SortedRows(rows, SortState(NAME, Asc)) == [rows[1], rows[0]]
  {
    var rows := [map[NAME := NameCell("Bruno")], map[NAME := NameCell("Ana")]];
    AsWrittenLeavesTextUnsorted(rows, SortState(NAME, Asc));
    var bruno, ana := NameCell("Bruno"), NameCell("Ana");
    assert Get(rows[0], NAME) == bruno && Get(rows[1], NAME) == ana;
    assert StrCmp("Bruno", "Ana") == 1;
    assert StrCmp("Ana", "Bruno") == -1;
    assert CompareIntended(bruno, ana, Asc) == 1.0;
    assert CompareIntended(ana, bruno, Asc) == -1.0;
    var le := RowOrder(SortState(NAME, Asc));
    assert !le(rows[0], rows[1]);
    assert le(rows[1], rows[0]);
    assert Sorting.SortBy(rows[1..], le) == [rows[1]];
  }
}
