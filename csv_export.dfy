/** "Exportar Excel" on the dashboard table: the sorted rows serialised as a
    semicolon-separated file. Each line holds the eight fields in a fixed
    order; each field is wrapped in double quotes with inner quotes doubled;
    line breaks inside the annotations collapse to one space per run; lines
    are joined with a line feed and the text starts with a byte-order mark.
    Date formatting (`Intl.DateTimeFormat`) is a locale service and is given
    as a parameter over time values. */
module CsvExport {
  import opened Wrappers
  import opened TableData
  import Text

  const BOM: char := '\U{FEFF}'
  const QUOTE: char := '"'
  const SEP: char := ';'
  const NEWLINE: char := '\n'

  const PATIENT_TITLE := "Paciente"
  const CPF_TITLE := "CPF"
  const DATE_TITLE := "Data"
  const HEIGHT_TITLE := "Altura"
  const WIDTH_TITLE := "Largura"
  const THICKNESS_TITLE := "Espessura"
  const DOCTOR_NOTE_TITLE := "Anota\U{E7}\U{E3}o M\U{E9}dico"
  const AI_NOTE_TITLE := "Anota\U{E7}\U{E3}o IA"

  /** The column titles. */
  const COLUMNS: seq<string> := [PATIENT_TITLE, CPF_TITLE, DATE_TITLE, HEIGHT_TITLE, WIDTH_TITLE,
    THICKNESS_TITLE, DOCTOR_NOTE_TITLE, AI_NOTE_TITLE]

  /** The header line, `cols.join(';')` written out (`HeaderJoinsColumns`). */
  const HEADER: string :=
    PATIENT_TITLE + [SEP] + (CPF_TITLE + [SEP] + (DATE_TITLE + [SEP] + (HEIGHT_TITLE + [SEP] +
    (WIDTH_TITLE + [SEP] + (THICKNESS_TITLE + [SEP] + (DOCTOR_NOTE_TITLE + [SEP] + AI_NOTE_TITLE))))))

  lemma HeaderJoinsColumns()
    ensures HEADER == Text.Join(COLUMNS, [SEP])
  {
    var c := COLUMNS;
    var j7 := Text.Join(c[7..], [SEP]);
    assert j7 == AI_NOTE_TITLE;
    assert c[6..][1..] == c[7..];
    var j6 := Text.Join(c[6..], [SEP]);
    assert j6 == DOCTOR_NOTE_TITLE + [SEP] + j7;
    assert c[5..][1..] == c[6..];
    var j5 := Text.Join(c[5..], [SEP]);
    assert j5 == THICKNESS_TITLE + [SEP] + j6;
    assert c[4..][1..] == c[5..];
    var j4 := Text.Join(c[4..], [SEP]);
    assert j4 == WIDTH_TITLE + [SEP] + j5;
    assert c[3..][1..] == c[4..];
    var j3 := Text.Join(c[3..], [SEP]);
    assert j3 == HEIGHT_TITLE + [SEP] + j4;
    assert c[2..][1..] == c[3..];
    var j2 := Text.Join(c[2..], [SEP]);
    assert j2 == DATE_TITLE + [SEP] + j3;
    assert c[1..][1..] == c[2..];
    var j1 := Text.Join(c[1..], [SEP]);
    assert j1 == CPF_TITLE + [SEP] + j2;
    assert Text.Join(c, [SEP]) == PATIENT_TITLE + [SEP] + j1;
  }

  predicate IsBreak(c: char) { c == '\r' || c == '\n' }

  function DropBreaks(s: string): (r: string)
    ensures |r| <= |s| && (r == [] || !IsBreak(r[0]))
  {
    if s != [] && IsBreak(s[0]) then DropBreaks(s[1..]) else s
  }

  /** `s.replace(/[\r\n]+/g, ' ')`: every run of CR and LF becomes one space. */
  function CollapseBreaks(s: string): (r: string)
    ensures forall i :: 0 <= i < |r| ==> !IsBreak(r[i])
    ensures (forall i :: 0 <= i < |s| ==> !IsBreak(s[i])) ==> r == s
    decreases |s|
  {
    if s == [] then []
    else if IsBreak(s[0]) then [' '] + CollapseBreaks(DropBreaks(s[1..]))
    else [s[0]] + CollapseBreaks(s[1..])
  }

  /** A run of breaks is dropped whole when the next character is not a break. */
  lemma {:induction false} DropBreaksRun(w: string, y: string)
    requires forall i :: 0 <= i < |w| ==> IsBreak(w[i])
    requires y == [] || !IsBreak(y[0])
    ensures DropBreaks(w + y) == y
    decreases |w|
  {
    if w != [] {
      assert (w + y)[1..] == w[1..] + y;
      DropBreaksRun(w[1..], y);
    }
  }

  /** A run of breaks at the start becomes one space. */
  lemma CollapseBreaksRunAlone(w: string, y: string)
    requires w != [] && forall i :: 0 <= i < |w| ==> IsBreak(w[i])
    requires y == [] || !IsBreak(y[0])
    ensures CollapseBreaks(w + y) == [' '] + CollapseBreaks(y)
  {
    assert (w + y)[0] == w[0];
    assert (w + y)[1..] == w[1..] + y;
    DropBreaksRun(w[1..], y);
  }

  /** A whole run of CR and LF between break-free text becomes exactly one space. */
  lemma {:induction false} CollapseBreaksRun(x: string, w: string, y: string)
    requires forall i :: 0 <= i < |x| ==> !IsBreak(x[i])
    requires w != [] && forall i :: 0 <= i < |w| ==> IsBreak(w[i])
    requires y == [] || !IsBreak(y[0])
    ensures CollapseBreaks(x + w + y) == x + [' '] + CollapseBreaks(y)
    decreases |x|
  {
    if x == [] {
      assert x + w + y == w + y;
      CollapseBreaksRunAlone(w, y);
    } else {
      assert (x + w + y)[0] == x[0];
      assert (x + w + y)[1..] == x[1..] + w + y;
      CollapseBreaksRun(x[1..], w, y);
      assert x == [x[0]] + x[1..];
    }
  }

  /** `formatDate(d)`: empty for a falsy value, the value itself when it is
      not a valid date, otherwise the locale's short date. */
  function FormatDate(c: Cell, shortDate: int -> string): (s: string)
    ensures !c.Truthy() ==> s == []
    ensures c.Truthy() && c.time.None? ==> s == c.text
    ensures c.Truthy() && c.time.Some? ==> s == shortDate(c.time.value)
  {
    if !c.Truthy() then "" else if c.time.None? then c.text else shortDate(c.time.value)
  }

  /** The eight fields of one row, before quoting. */
  function Fields(r: Row, shortDate: int -> string): (f: seq<string>)
    ensures |f| == 8
    ensures Get(r, NAME).IsNullish() ==> f[0] == []
    ensures Get(r, CPF).IsNullish() ==> f[1] == []
    ensures Get(r, DATE).IsNullish() ==> f[2] == []
    ensures Get(r, HEIGHT).IsNullish() ==> f[3] == []
    ensures Get(r, WIDTH).IsNullish() ==> f[4] == []
    ensures Get(r, THICKNESS).IsNullish() ==> f[5] == []
    ensures Get(r, DOCTOR_NOTE).IsNullish() ==> f[6] == []
    ensures Get(r, AI_NOTE).IsNullish() ==> f[7] == []
    ensures forall k :: 6 <= k < 8 ==> forall i :: 0 <= i < |f[k]| ==> !IsBreak(f[k][i])
  {
    [ TextOrBlank(Get(r, NAME)),
      TextOrBlank(Get(r, CPF)),
      FormatDate(Get(r, DATE), shortDate),
      TextOrBlank(Get(r, HEIGHT)),
      TextOrBlank(Get(r, WIDTH)),
      TextOrBlank(Get(r, THICKNESS)),
      CollapseBreaks(TextOrBlank(Get(r, DOCTOR_NOTE))),
      CollapseBreaks(TextOrBlank(Get(r, AI_NOTE))) ]
  }

  /** `String(v).replace(/"/g, '""')`. */
  function DoubleQuotes(s: string): (r: string)
    ensures |r| >= |s|
  {
    if s == [] then [] else (if s[0] == QUOTE then [QUOTE, QUOTE] else [s[0]]) + DoubleQuotes(s[1..])
  }

  /** A field as it appears in the file. */
  function Quote(s: string): string {
    [QUOTE] + DoubleQuotes(s) + [QUOTE]
  }

  function QuoteAll(fields: seq<string>): (q: seq<string>)
    ensures |q| == |fields|
    ensures forall k :: 0 <= k < |q| ==> q[k] == Quote(fields[k])
  {
    if fields == [] then [] else [Quote(fields[0])] + QuoteAll(fields[1..])
  }

  /** One data line. */
  function Line(r: Row, shortDate: int -> string): string {
    Text.Join(QuoteAll(Fields(r, shortDate)), [SEP])
  }

  /** One line per sorted row, in order. */
  function DataLines(sorted: seq<Row>, shortDate: int -> string): (ls: seq<string>)
    ensures |ls| == |sorted|
    ensures forall i :: 0 <= i < |sorted| ==> ls[i] == Line(sorted[i], shortDate)
  {
    seq(|sorted|, i requires 0 <= i < |sorted| => Line(sorted[i], shortDate))
  }

  /** `lines`: the header, then one line per sorted row, in order. */
  function Lines(sorted: seq<Row>, shortDate: int -> string): (ls: seq<string>)
    ensures |ls| == 1 + |sorted| && ls[0] == HEADER
    ensures forall i :: 0 <= i < |sorted| ==> ls[i + 1] == Line(sorted[i], shortDate)
  {
    var data := DataLines(sorted, shortDate);
    assert forall i :: 0 <= i < |sorted| ==> ([HEADER] + data)[i + 1] == data[i];
    [HEADER] + data
  }

  lemma LinesAppend(sorted: seq<Row>, r: Row, shortDate: int -> string)
    ensures Lines(sorted + [r], shortDate) == Lines(sorted, shortDate) + [Line(r, shortDate)]
  {
    var a, b := DataLines(sorted + [r], shortDate), DataLines(sorted, shortDate) + [Line(r, shortDate)];
    forall k | 0 <= k < |a| ensures a[k] == b[k] {
      if k < |sorted| {
        assert (sorted + [r])[k] == sorted[k];
      }
    }
    assert a == b;
    assert [HEADER] + a == [HEADER] + DataLines(sorted, shortDate) + [Line(r, shortDate)];
  }

  /** `exportCSV`'s file contents: the lines are pushed one by one, then
      joined with line feeds behind a byte-order mark. */
  method Export(sorted: seq<Row>, shortDate: int -> string) returns (text: string)
    ensures text == [BOM] + Text.Join(Lines(sorted, shortDate), [NEWLINE])
  {
    var lines := [HEADER];
    var i := 0;
    while i < |sorted|
      invariant 0 <= i <= |sorted|
      invariant lines == Lines(sorted[..i], shortDate)
    {
      assert sorted[..i + 1] == sorted[..i] + [sorted[i]];
      LinesAppend(sorted[..i], sorted[i], shortDate);
      lines := lines + [Line(sorted[i], shortDate)];
      i := i + 1;
    }
    assert sorted[..i] == sorted;
    text := [BOM] + Text.Join(lines, [NEWLINE]);
  }

  // ---------------------------------------------------------------------
  // Reading the file back

  /** Splits at every occurrence of `c`. */
  function Split(s: string, c: char): (parts: seq<string>)
    ensures |parts| >= 1
    decreases |s|
  {
    if s == [] then [[]]
    else
      var rest := Split(s[1..], c);
      if s[0] == c then [[]] + rest else [[s[0]] + rest[0]] + rest[1..]
  }

  lemma {:induction false} SplitPrefix(a: string, b: string, c: char)
    requires c !in a
    ensures Split(a + b, c)[0] == a + Split(b, c)[0]
    ensures Split(a + b, c)[1..] == Split(b, c)[1..]
  {
    if a != [] {
      assert (a + b)[0] == a[0];
      assert (a + b)[1..] == a[1..] + b;
      SplitPrefix(a[1..], b, c);
      assert a == [a[0]] + a[1..];
    } else {
      assert a + b == b;
    }
  }

  /** Lines that hold no separator come back from the joined text unchanged. */
  lemma {:induction false} SplitJoin(parts: seq<string>, c: char)
    requires |parts| >= 1 && forall k :: 0 <= k < |parts| ==> c !in parts[k]
    ensures Split(Text.Join(parts, [c]), c) == parts
  {
    if |parts| == 1 {
      SplitPrefix(parts[0], [], c);
      assert parts[0] + [] == parts[0];
    } else {
      var rest := Text.Join(parts[1..], [c]);
      SplitJoin(parts[1..], c);
      assert Text.Join(parts, [c]) == parts[0] + ([c] + rest);
      SplitPrefix(parts[0], [c] + rest, c);
      assert ([c] + rest)[1..] == rest;
      assert Split([c] + rest, c) == [[]] + Split(rest, c);
      var whole := Split(Text.Join(parts, [c]), c);
      assert parts[0] + [] == parts[0];
      assert whole[0] == parts[0];
      assert whole[1..] == parts[1..];
      assert whole == [whole[0]] + whole[1..];
      assert parts == [parts[0]] + parts[1..];
    }
  }

  /** The body of a quoted field up to its closing quote, a doubled quote
      standing for one quote; returns the field and what follows the quote. */
  function ReadQuoted(s: string): Option<(string, string)>
    decreases |s|
  {
    if s == [] then None
    else if s[0] == QUOTE then
      if |s| >= 2 && s[1] == QUOTE then
        match ReadQuoted(s[2..])
        case Some((f, rest)) => Some(([QUOTE] + f, rest))
        case None => None
      else Some(([], s[1..]))
    else
      match ReadQuoted(s[1..])
      case Some((f, rest)) => Some(([s[0]] + f, rest))
      case None => None
  }

  /** The fields of one line of quoted fields separated by `;`. */
  function ParseLine(s: string): Option<seq<string>>
    decreases |s|
  {
    if s == [] || s[0] != QUOTE then None
    else
      match ReadQuoted(s[1..])
      case None => None
      case Some((f, rest)) =>
        if rest == [] then Some([f])
        else if rest[0] != SEP || |rest| >= |s| then None
        else
          match ParseLine(rest[1..])
          case None => None
          case Some(fs) => Some([f] + fs)
  }

  lemma {:induction false} ReadQuotedBody(v: string, rest: string)
    requires rest == [] || rest[0] != QUOTE
    ensures ReadQuoted(DoubleQuotes(v) + [QUOTE] + rest) == Some((v, rest))
  {
    var s := DoubleQuotes(v) + [QUOTE] + rest;
    if v == [] {
      assert s == [QUOTE] + rest;
      assert !(|s| >= 2 && s[1] == QUOTE);
      assert s[1..] == rest;
    } else {
      ReadQuotedBody(v[1..], rest);
      var tail := DoubleQuotes(v[1..]) + [QUOTE] + rest;
      if v[0] == QUOTE {
        assert s == [QUOTE, QUOTE] + tail;
        assert s[2..] == tail;
      } else {
        assert s == [v[0]] + tail;
        assert s[1..] == tail;
      }
      assert v == [v[0]] + v[1..];
    }
  }

  lemma ParseOneField(v: string)
    ensures ParseLine(Quote(v)) == Some([v])
  {
    var s := Quote(v);
    assert s[1..] == DoubleQuotes(v) + [QUOTE] + [];
    ReadQuotedBody(v, []);
  }

  lemma ParseFieldThenRest(v: string, restText: string)
    ensures ParseLine(Quote(v) + [SEP] + restText) ==
      match ParseLine(restText)
      case None => None
      case Some(fs) => Some([v] + fs)
  {
    var s := Quote(v) + [SEP] + restText;
    assert s[1..] == DoubleQuotes(v) + [QUOTE] + ([SEP] + restText);
    ReadQuotedBody(v, [SEP] + restText);
    assert ([SEP] + restText)[1..] == restText;
  }

  /** Every line written for a row parses back into its eight fields. */
  lemma {:induction false} ParseJoinedFields(fields: seq<string>)
    requires |fields| >= 1
    ensures ParseLine(Text.Join(QuoteAll(fields), [SEP])) == Some(fields)
  {
    var q := QuoteAll(fields);
    var v := fields[0];
    if |fields| == 1 {
      ParseOneField(v);
      assert fields == [v];
    } else {
      var restText := Text.Join(q[1..], [SEP]);
      assert q[1..] == QuoteAll(fields[1..]);
      ParseJoinedFields(fields[1..]);
      assert Text.Join(q, [SEP]) == Quote(v) + [SEP] + restText;
      ParseFieldThenRest(v, restText);
      assert fields == [v] + fields[1..];
    }
  }

  lemma LineParsesBack(r: Row, shortDate: int -> string)
    ensures ParseLine(Line(r, shortDate)) == Some(Fields(r, shortDate))
  {
    ParseJoinedFields(Fields(r, shortDate));
  }

  /** The rows' texts other than the annotations hold no line feed. */
  predicate NoLineFeeds(sorted: seq<Row>, shortDate: int -> string) {
    forall i, k :: 0 <= i < |sorted| && 0 <= k < 6 ==> NEWLINE !in Fields(sorted[i], shortDate)[k]
  }

  lemma {:induction false} DoubleQuotesKeepsOut(s: string, c: char)
    requires c !in s && c != QUOTE
    ensures c !in DoubleQuotes(s)
  {
    if s != [] {
      DoubleQuotesKeepsOut(s[1..], c);
    }
  }

  lemma {:induction false} JoinKeepsOut(parts: seq<string>, sep: string, c: char)
    requires c !in sep && forall k :: 0 <= k < |parts| ==> c !in parts[k]
    ensures c !in Text.Join(parts, sep)
  {
    if |parts| > 1 {
      JoinKeepsOut(parts[1..], sep, c);
    }
  }

  lemma LineHasNoLineFeed(sorted: seq<Row>, shortDate: int -> string, i: nat)
    requires NoLineFeeds(sorted, shortDate) && i < |sorted|
    ensures NEWLINE !in Line(sorted[i], shortDate)
  {
    var f := Fields(sorted[i], shortDate);
    var q := QuoteAll(f);
    forall k | 0 <= k < |q| ensures NEWLINE !in q[k] {
      assert forall j :: 0 <= j < |f[k]| ==> f[k][j] != NEWLINE;
      DoubleQuotesKeepsOut(f[k], NEWLINE);
    }
    JoinKeepsOut(q, [SEP], NEWLINE);
  }

  lemma HeaderHasNoLineFeed()
    ensures NEWLINE !in HEADER
  {
    forall j | 0 <= j < |COLUMNS| ensures NEWLINE !in COLUMNS[j] {
      var t := COLUMNS[j];
      assert forall i :: 0 <= i < |t| ==> t[i] != NEWLINE;
    }
    JoinKeepsOut(COLUMNS, [SEP], NEWLINE);
    HeaderJoinsColumns();
  }

  /** When names, CPFs, dates and measurements hold no line feed, splitting
      the exported text after its byte-order mark at line feeds gives the
      header and then exactly one line per sorted row, in order, each of
      which parses back into that row's fields. */
  lemma {:induction false} ExportReadsBack(sorted: seq<Row>, shortDate: int -> string, text: string)
    requires NoLineFeeds(sorted, shortDate)
    requires text == [BOM] + Text.Join(Lines(sorted, shortDate), [NEWLINE])
    ensures text[0] == BOM
    ensures var ls := Split(text[1..], NEWLINE);
      && |ls| == 1 + |sorted| && ls[0] == HEADER
      && forall i :: 0 <= i < |sorted| ==> ParseLine(ls[i + 1]) == Some(Fields(sorted[i], shortDate))
  {
    var ls := Lines(sorted, shortDate);
    LinesHaveNoLineFeed(sorted, shortDate);
    assert text[1..] == Text.Join(ls, [NEWLINE]);
    SplitJoin(ls, NEWLINE);
    forall i | 0 <= i < |sorted| ensures ParseLine(ls[i + 1]) == Some(Fields(sorted[i], shortDate)) {
      LineParsesBack(sorted[i], shortDate);
    }
  }

  lemma LinesHaveNoLineFeed(sorted: seq<Row>, shortDate: int -> string)
    requires NoLineFeeds(sorted, shortDate)
    ensures var ls := Lines(sorted, shortDate); forall k :: 0 <= k < |ls| ==> NEWLINE !in ls[k]
  {
    var data := DataLines(sorted, shortDate);
    forall i | 0 <= i < |sorted| ensures NEWLINE !in data[i] {
      LineHasNoLineFeed(sorted, shortDate, i);
    }
    HeaderHasNoLineFeed();
    assert Lines(sorted, shortDate) == [HEADER] + data;
  }
}
