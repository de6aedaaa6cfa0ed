/** The search, sort-state and pagination logic shared by the two tables
    (`SamplesTable` on the sample list and `PatientsSamplesTable` on the
    dashboard). Accent stripping (`normalize`) is a locale-level string
    transformation and is given as a parameter. */
module TableView {
  import opened TableData
  import Text
  import Seqs

  /** The two components; they differ only in how a missing patient name is searched. */
  datatype Table = SamplesTable | PatientsSamplesTable

  /** The text the search sees for the patient name. `SamplesTable` searches
      `NOME_PACIENTE || ''`; `PatientsSamplesTable` passes the raw value to
      `normalize`, whose default parameter covers only `undefined`, so a null
      name is searched as the text "null". */
  function NameText(t: Table, c: Cell): (s: string)
    ensures t == SamplesTable ==> s == TextOrEmpty(c)
    ensures t == PatientsSamplesTable && c == Null ==> s == "null"
  {
    match t
    case SamplesTable => TextOrEmpty(c)
    case PatientsSamplesTable =>
      match c
      case Undefined => ""
      case Null => "null"
      case Value(text, _, _, _) => text
  }

  /** The filter's test for a non-empty query: the normalised name or either
      normalised annotation contains the normalised query, or the CPF contains
      the query as typed. */
  predicate Keeps(t: Table, r: Row, query: string, normalize: string -> string) {
    var q := normalize(query);
    || Text.Contains(normalize(NameText(t, Get(r, NAME))), q)
    || Text.Contains(TextOrEmpty(Get(r, CPF)), query)
    || Text.Contains(normalize(TextOrEmpty(Get(r, DOCTOR_NOTE))), q)
    || Text.Contains(normalize(TextOrEmpty(Get(r, AI_NOTE))), q)
  }

  /** `filtered`: every row when the query is empty, otherwise the rows that `Keeps` accepts. */
  function Filtered(t: Table, rows: seq<Row>, query: string, normalize: string -> string): seq<Row> {
    if query == "" then rows else Seqs.Filter(rows, (r: Row) => Keeps(t, r, query, normalize))
  }

  /** An empty query shows every row, in order. */
  lemma FilteredEmptyQuery(t: Table, rows: seq<Row>, normalize: string -> string)
    ensures Filtered(t, rows, "", normalize) == rows
  {
  }

  /** The filter only drops rows: what it keeps is a subsequence of the input. */
  lemma FilteredIsSubsequence(t: Table, rows: seq<Row>, query: string, normalize: string -> string)
    ensures Seqs.IsSubsequence(Filtered(t, rows, query, normalize), rows)
  {
    if query == "" {
      Seqs.SubsequenceOfItself(rows);
    } else {
      Seqs.FilterIsSubsequence(rows, (r: Row) => Keeps(t, r, query, normalize));
    }
  }

  /** For a non-empty query a row is shown exactly when it is one of the rows and `Keeps` accepts it. */
  lemma FilteredKeepsIff(t: Table, rows: seq<Row>, query: string, normalize: string -> string, r: Row)
    requires query != ""
    ensures r in Filtered(t, rows, query, normalize) <==> r in rows && Keeps(t, r, query, normalize)
  {
    Seqs.FilterMembership(rows, (r: Row) => Keeps(t, r, query, normalize), r);
  }

  /** A row whose CPF contains the query as typed is always found. */
  lemma FilteredFindsCpf(t: Table, rows: seq<Row>, query: string, normalize: string -> string, i: nat)
    requires i < |rows| && Text.Contains(TextOrEmpty(Get(rows[i], CPF)), query)
    ensures rows[i] in Filtered(t, rows, query, normalize)
  {
    if query != "" {
      FilteredKeepsIff(t, rows, query, normalize, rows[i]);
    }
  }

  // ---------------------------------------------------------------------
  // Sort state

  datatype Dir = Asc | Desc

  datatype SortState = SortState(key: string, dir: Dir)

  /** The initial sort: newest samples first. */
  const INITIAL_SORT := SortState(DATE, Desc)

  /** `toggleSort(key)`'s new sort: a click on the current column flips the
      direction, a click on another column sorts it ascending. */
  function Toggled(s: SortState, key: string): (r: SortState)
    ensures r.key == key
    ensures s.key == key ==> r.dir != s.dir
    ensures s.key != key ==> r.dir == Asc
  {
    if s.key == key then SortState(key, if s.dir == Asc then Desc else Asc) else SortState(key, Asc)
  }

  /** Two clicks on the current column restore the sort. */
  lemma ToggledTwice(s: SortState)
    ensures Toggled(Toggled(s, s.key), s.key) == s
  {
  }

  /** Two clicks on a new column sort it descending. */
  lemma ToggledNewColumnTwice(s: SortState, key: string)
    requires s.key != key
    ensures Toggled(Toggled(s, key), key) == SortState(key, Desc)
  {
  }

  // ---------------------------------------------------------------------
  // Pagination

  const PAGE_SIZE: nat := 10

  /** `pages = Math.max(1, Math.ceil(total / pageSize))`: the fewest pages of
      ten that hold `total` rows, and never fewer than one. */
  function PageCount(total: nat): (p: nat)
    ensures p >= 1
    ensures total <= p * PAGE_SIZE
    ensures p == 1 || (p - 1) * PAGE_SIZE < total
  {
    if total == 0 then 1 else (total + PAGE_SIZE - 1) / PAGE_SIZE
  }

  /** One bound of `Array.prototype.slice`: a negative index counts from the
      end, and the result is clamped to `[0, len]`. */
  function SliceBound(i: int, len: nat): (b: nat)
    ensures b <= len
    ensures 0 <= i <= len ==> b == i
  {
    if i < 0 then (if len + i < 0 then 0 else len + i) else if i > len then len else i
  }

  /** `s.slice(start, end)`. */
  function Slice<T>(s: seq<T>, start: int, end: int): (r: seq<T>)
    ensures |r| <= |s|
  {
    var from := SliceBound(start, |s|);
    var to := SliceBound(end, |s|);
    if from < to then s[from..to] else []
  }

  /** `visible = sorted.slice((page - 1) * pageSize, page * pageSize)`. */
  function Visible<T>(s: seq<T>, page: int): (r: seq<T>)
    ensures page >= 1 ==> |r| <= PAGE_SIZE
    ensures page >= 1 ==> forall k :: 0 <= k < |r| ==> (page - 1) * PAGE_SIZE + k < |s| && r[k] == s[(page - 1) * PAGE_SIZE + k]
  {
    Slice(s, (page - 1) * PAGE_SIZE, page * PAGE_SIZE)
  }

  /** Row `i` is the `i % 10`-th row of page `i / 10 + 1`, and that page is
      one of the `PageCount` pages. */
  lemma RowOnItsPage<T>(s: seq<T>, i: nat)
    requires i < |s|
    ensures var page := i / PAGE_SIZE + 1;
      && page <= PageCount(|s|)
      && i % PAGE_SIZE < |Visible(s, page)|
      && Visible(s, page)[i % PAGE_SIZE] == s[i]
  {
    var page := i / PAGE_SIZE + 1;
    var p := PageCount(|s|);
    assert (page - 1) * PAGE_SIZE <= i < page * PAGE_SIZE;
    assert i < p * PAGE_SIZE;
    assert i / PAGE_SIZE < p;
    var from := SliceBound((page - 1) * PAGE_SIZE, |s|);
    var to := SliceBound(page * PAGE_SIZE, |s|);
    assert from == (page - 1) * PAGE_SIZE;
    assert to > i;
  }

  /** A page past the last one shows nothing. */
  lemma PagePastLastIsEmpty<T>(s: seq<T>, page: int)
    requires page > PageCount(|s|)
    ensures Visible(s, page) == []
  {
    var p := PageCount(|s|);
    assert (page - 1) * PAGE_SIZE >= p * PAGE_SIZE;
  }

  /** The state each table keeps: the search text, the sort and the current page. */
  class TableState {
    var query: string
    var sort: SortState
    var page: int

    /** The page is a positive number; every transition keeps it so. */
    predicate Valid()
      reads this
    {
      page >= 1
    }

    constructor ()
      ensures Valid()
      ensures query == "" && sort == INITIAL_SORT && page == 1
    {
      query := "";
      sort := INITIAL_SORT;
      page := 1;
    }

    /** A click on a column header. */
    method ToggleSort(key: string)
      requires Valid()
      modifies this
      ensures Valid()
      ensures sort == Toggled(old(sort), key) && page == 1 && query == old(query)
    {
      page := 1;
      sort := Toggled(sort, key);
    }

    /** Typing in the search box. */
    method SetQuery(q: string)
      requires Valid()
      modifies this
      ensures Valid()
      ensures query == q && page == 1 && sort == old(sort)
    {
      page := 1;
      query := q;
    }

    /** "Anterior": `setPage(p => Math.max(1, p - 1))`. */
    method Previous()
      requires Valid()
      modifies this
      ensures Valid()
      ensures page == if old(page) > 1 then old(page) - 1 else 1
      ensures query == old(query) && sort == old(sort)
    {
      page := if page - 1 > 1 then page - 1 else 1;
    }

    /** "Próxima" with `total` rows after filtering: `setPage(p => Math.min(pages, p + 1))`. */
    method Next(total: nat)
      requires Valid()
      modifies this
      ensures Valid()
      ensures page == if old(page) + 1 < PageCount(total) then old(page) + 1 else PageCount(total)
      ensures old(page) <= PageCount(total) ==> page <= PageCount(total)
      ensures query == old(query) && sort == old(sort)
    {
      var pages := PageCount(total);
      page := if page + 1 < pages then page + 1 else pages;
    }
  }
}
