/** The three `inserir_print` routines that store a captured sample in the
    AMOSTRA table: the capture app's (app/Http/Scripts/microscopio.py), the
    controller module's (app/Http/Scripts/controllers/Inserir_print.py) and
    the batch script's (app/Http/Scripts/mensureScript/inserir_print.py).
    The image bytes, the clock and the database are outside the model: the
    image is a marker value, the date is given, and whether the statement
    succeeds is an input. */
module SampleInsert {
  import opened Wrappers
  import Text
  import Seqs
  import Measurement

  /** A value bound to a `%s` placeholder. */
  datatype Param = Image | Num(r: real) | Str(s: string) | Int(i: int) | Null

  /** What is stored for one capture; the patient is optional. */
  datatype Sample = Sample(height: real, width: real, date: string, user: Option<int>,
                           doctorNote: string, aiNote: string, patient: Option<int>)

  /** The AMOSTRA columns the scripts write. */
  datatype Column = ImageCol | HeightCol | WidthCol | DateCol | UserCol | DoctorNoteCol | AiNoteCol | PatientCol

  /** The column's name in the statement. */
  function Name(c: Column): string {
    match c
    case ImageCol => "IMAGEM_AMOSTRA"
    case HeightCol => "ALTURA_AMOSTRA"
    case WidthCol => "LARGURA_AMOSTRA"
    case DateCol => "DATA_AMOSTRA"
    case UserCol => "MEDICO_USUARIO_ID_USUARIO"
    case DoctorNoteCol => "ANOTACAO_MEDICO_AMOSTRA"
    case AiNoteCol => "ANOTACAO_IA_AMOSTRA"
    case PatientCol => "PACIENTE_ID_PACIENTE"
  }

  /** The columns every version writes, in their order. */
  const BASE_COLUMNS: seq<Column> := [ImageCol, HeightCol, WidthCol, DateCol, UserCol, DoctorNoteCol, AiNoteCol]

  /** The controller module's fixed column list, the patient last. */
  const FIXED_COLUMNS: seq<Column> := [ImageCol, HeightCol, WidthCol, DateCol, UserCol, DoctorNoteCol, AiNoteCol, PatientCol]

  /** Python None binds as SQL NULL. */
  function OptionalInt(o: Option<int>): Param {
    if o.Some? then Int(o.value) else Null
  }

  /** The value that belongs in column `c`. */
  function ValueFor(c: Column, s: Sample): Param {
    match c
    case ImageCol => Image
    case HeightCol => Num(s.height)
    case WidthCol => Num(s.width)
    case DateCol => Str(s.date)
    case UserCol => OptionalInt(s.user)
    case DoctorNoteCol => Str(s.doctorNote)
    case AiNoteCol => Str(s.aiNote)
    case PatientCol => OptionalInt(s.patient)
  }

  /** How a version decides to add the patient column: the capture app tests
      `paciente_id is not None`, the batch script tests `paciente_id` for truth. */
  datatype PatientTest = IsNotNone | IsTruthy

  predicate Attaches(t: PatientTest, patient: Option<int>) {
    match t
    case IsNotNone => patient.Some?
    case IsTruthy => patient.Some? && patient.value != 0
  }

  /** A patient id of 0 is attached by the capture app and left out by the batch script. */
  lemma PatientZero()
    ensures Attaches(IsNotNone, Some(0)) && !Attaches(IsTruthy, Some(0))
    ensures forall t :: !Attaches(t, None)
  {
  }

  function Repeat(x: string, n: nat): (r: seq<string>)
    ensures |r| == n && forall k :: 0 <= k < n ==> r[k] == x
  {
    if n == 0 then [] else [x] + Repeat(x, n - 1)
  }

  /** `", ".join(["%s"] * n)`. */
  function Placeholders(n: nat): string {
    Text.Join(Repeat("%s", n), ", ")
  }

  function Names(cols: seq<Column>): (r: seq<string>)
    ensures |r| == |cols| && forall k :: 0 <= k < |cols| ==> r[k] == Name(cols[k])
  {
    if cols == [] then [] else [Name(cols[0])] + Names(cols[1..])
  }


  predicate IsPercent(c: char) { c == '%' }

  /** The text holds no `%`. */
  predicate NoMarker(s: string) { forall i :: 0 <= i < |s| ==> s[i] != '%' }

  /** A string without a `%` has no placeholder marker. */
  lemma {:induction false} NoPercent(s: string)
    requires NoMarker(s)
    ensures Seqs.Count(s, IsPercent) == 0
  {
    if s != [] {
      NoPercent(s[1..]);
    }
  }

  lemma NoMarkerConcat(a: string, b: string)
    requires NoMarker(a) && NoMarker(b)
    ensures NoMarker(a + b)
  {
    forall i | 0 <= i < |a + b| ensures (a + b)[i] != '%' {
      if i >= |a| {
        assert (a + b)[i] == b[i - |a|];
      }
    }
  }

  /** No column name holds a `%`. */
  lemma NameNoMarker(c: Column)
    ensures NoMarker(Name(c))
  {
    match c
    case ImageCol => assert NoMarker("IMAGEM_AMOSTRA");
    case HeightCol => assert NoMarker("ALTURA_AMOSTRA");
    case WidthCol => assert NoMarker("LARGURA_AMOSTRA");
    case DateCol => assert NoMarker("DATA_AMOSTRA");
    case UserCol => assert NoMarker("MEDICO_USUARIO_ID_USUARIO");
    case DoctorNoteCol => assert NoMarker("ANOTACAO_MEDICO_AMOSTRA");
    case AiNoteCol => assert NoMarker("ANOTACAO_IA_AMOSTRA");
    case PatientCol => assert NoMarker("PACIENTE_ID_PACIENTE");
  }

  /** The column list of the statement holds no `%`. */
  lemma {:induction false} NamesNoMarker(cols: seq<Column>)
    ensures NoMarker(Text.Join(Names(cols), ", "))
  {
    if cols != [] {
      NameNoMarker(cols[0]);
      if |cols| > 1 {
        NamesNoMarker(cols[1..]);
        assert Names(cols)[1..] == Names(cols[1..]);
        NoMarkerConcat(Name(cols[0]), ", ");
        NoMarkerConcat(Name(cols[0]) + ", ", Text.Join(Names(cols[1..]), ", "));
      }
    }
  }

  /** The placeholder list has exactly one `%s` marker per value. */
  lemma {:induction false} PlaceholderCount(n: nat)
    ensures Seqs.Count(Placeholders(n), IsPercent) == n
  {
    if n == 1 {
      assert Placeholders(1) == "%s";
    } else if n > 1 {
      PlaceholderCount(n - 1);
      var rest := Placeholders(n - 1);
      assert Repeat("%s", n)[1..] == Repeat("%s", n - 1);
      assert Placeholders(n) == "%s" + ", " + rest;
      Seqs.CountAppend("%s" + ", ", rest, IsPercent);
      Seqs.CountAppend("%s", ", ", IsPercent);
    }
  }

  /** Markers are counted only in the one part that may have them. */
  lemma CountFiveParts(head: string, names: string, mid: string, marks: string, tail: string)
    requires NoMarker(head) && NoMarker(names) && NoMarker(mid) && NoMarker(tail)
    ensures Seqs.Count(head + names + mid + marks + tail, IsPercent) == Seqs.Count(marks, IsPercent)
  {
    NoPercent(head);
    NoPercent(names);
    NoPercent(mid);
    NoPercent(tail);
    Seqs.CountAppend(head, names, IsPercent);
    Seqs.CountAppend(head + names, mid, IsPercent);
    Seqs.CountAppend(head + names + mid, marks, IsPercent);
    Seqs.CountAppend(head + names + mid + marks, tail, IsPercent);
  }

  /** The statement text for a column list: the columns' names, then one
      `%s` per column. It has exactly one placeholder marker per column, so
      the values, one per column, fill it. */
  function InsertSql(cols: seq<Column>): (sql: string)
    ensures Seqs.Count(sql, IsPercent) == |cols|
  {
    NamesNoMarker(cols);
    PlaceholderCount(|cols|);
    CountFiveParts("INSERT INTO AMOSTRA (", Text.Join(Names(cols), ", "), ") VALUES (", Placeholders(|cols|), ")");
    "INSERT INTO AMOSTRA (" + Text.Join(Names(cols), ", ") + ") VALUES (" + Placeholders(|cols|) + ")"
  }

  /** The column list of the capture app and of the batch script: the base
      columns, then the patient column when the version's test accepts the id. */
  function Columns(t: PatientTest, patient: Option<int>): seq<Column> {
    BASE_COLUMNS + (if Attaches(t, patient) then [PatientCol] else [])
  }

  /** No column is named twice, whichever version builds the list. */
  lemma ColumnsDistinct(t: PatientTest, patient: Option<int>)
    ensures var cols := Columns(t, patient);
      forall i, j :: 0 <= i < j < |cols| ==> cols[i] != cols[j]
  {
  }

  /** Building the two lists and the statement, as both the capture app and
      the batch script do: seven columns, plus the patient's when the
      version's test accepts it; each value sits at its column's index, so
      `InsertSql(cols)` has one placeholder per value. */
  method BuildInsert(s: Sample, t: PatientTest) returns (cols: seq<Column>, vals: seq<Param>)
    ensures cols == Columns(t, s.patient)
    ensures (|cols| == 8) == Attaches(t, s.patient) && (|cols| == 7) == !Attaches(t, s.patient)
    ensures (PatientCol in cols) == Attaches(t, s.patient)
    ensures |vals| == |cols| && forall k :: 0 <= k < |cols| ==> vals[k] == ValueFor(cols[k], s)
  {
    cols := [ImageCol, HeightCol, WidthCol, DateCol, UserCol, DoctorNoteCol, AiNoteCol];
    vals := [Image, Num(s.height), Num(s.width), Str(s.date), OptionalInt(s.user), Str(s.doctorNote), Str(s.aiNote)];
    if Attaches(t, s.patient) {
      cols := cols + [PatientCol];
      vals := vals + [OptionalInt(s.patient)];
    }
  }

  /** How the insert ends. */
  datatype Outcome = Committed | RolledBack | Raised

  /** The measurement step both capture routines share, and the sample it yields. */
  method MeasuredSample(boxes: seq<Measurement.Box>, sx: real, sy: real, date: string, user: Option<int>,
                        doctorNote: string, aiNote: string, patient: Option<int>) returns (sample: Sample)
    ensures (sample.width, sample.height) == Measurement.Selected(boxes, sx, sy)
    ensures sample == Sample(sample.height, sample.width, date, user, doctorNote, aiNote, patient)
  {
    var widths, heights := Measurement.Measure(boxes, sx, sy);
    var width := Measurement.Pick(Measurement.SortDesc(widths));
    var height := Measurement.Pick(Measurement.SortDesc(heights));
    sample := Sample(height, width, date, user, doctorNote, aiNote, patient);
  }

  /** The capture app's `inserir_print`: measure the frame's contours,
      then insert with the patient column when an id is given. Nothing
      catches a failure, so it reaches the caller. */
  method CaptureInsert(boxes: seq<Measurement.Box>, sx: real, sy: real, date: string, user: int,
                       doctorNote: string, aiNote: string, patient: Option<int>, succeeds: bool)
    returns (sample: Sample, cols: seq<Column>, vals: seq<Param>, outcome: Outcome)
    ensures (sample.width, sample.height) == Measurement.Selected(boxes, sx, sy)
    ensures sample == Sample(sample.height, sample.width, date, Some(user), doctorNote, aiNote, patient)
    ensures cols == Columns(IsNotNone, patient)
    ensures |vals| == |cols| && forall k :: 0 <= k < |cols| ==> vals[k] == ValueFor(cols[k], sample)
    ensures outcome == if succeeds then Committed else Raised
  {
    sample := MeasuredSample(boxes, sx, sy, date, Some(user), doctorNote, aiNote, patient);
    cols, vals := BuildInsert(sample, IsNotNone);
    outcome := if succeeds then Committed else Raised;
  }

  /** The controller's value tuple lines up with its fixed column list. */
  lemma FixedColumnsAligned(s: Sample, vals: seq<Param>)
    requires vals == [Image, Num(s.height), Num(s.width), Str(s.date), OptionalInt(s.user),
                      Str(s.doctorNote), Str(s.aiNote), OptionalInt(s.patient)]
    ensures forall k :: 0 <= k < |FIXED_COLUMNS| ==> vals[k] == ValueFor(FIXED_COLUMNS[k], s)
  {
    forall k | 0 <= k < |FIXED_COLUMNS| ensures vals[k] == ValueFor(FIXED_COLUMNS[k], s) {
      if k == 0 {} else if k == 1 {} else if k == 2 {} else if k == 3 {}
      else if k == 4 {} else if k == 5 {} else if k == 6 {} else {}
    }
  }

  /** The controller module's `inserir_print`: the same measurement, then a
      statement with all eight columns, so the patient id is bound even when
      it is None (as NULL). A failure is rolled back and not raised again. */
  method ControllerInsert(boxes: seq<Measurement.Box>, sx: real, sy: real, date: string, user: Option<int>,
                          doctorNote: string, aiNote: string, patient: Option<int>, succeeds: bool)
    returns (sample: Sample, vals: seq<Param>, outcome: Outcome)
    ensures (sample.width, sample.height) == Measurement.Selected(boxes, sx, sy)
    ensures sample == Sample(sample.height, sample.width, date, user, doctorNote, aiNote, patient)
    ensures |vals| == |FIXED_COLUMNS| == 8
    ensures forall k :: 0 <= k < |vals| ==> vals[k] == ValueFor(FIXED_COLUMNS[k], sample)
    ensures vals[7] == OptionalInt(patient)
    ensures outcome == if succeeds then Committed else RolledBack
  {
    sample := MeasuredSample(boxes, sx, sy, date, user, doctorNote, aiNote, patient);
    vals := [Image, Num(sample.height), Num(sample.width), Str(sample.date), OptionalInt(sample.user),
             Str(sample.doctorNote), Str(sample.aiNote), OptionalInt(sample.patient)];
    FixedColumnsAligned(sample, vals);
    if succeeds {
      outcome := Committed;
    } else {
      outcome := RolledBack;
    }
  }

  /** The batch script's `inserir_print`: the measurement is given, the
      patient column is added only for a truthy id, and any failure is re-raised. */
  method BatchInsert(s: Sample, succeeds: bool) returns (cols: seq<Column>, vals: seq<Param>, outcome: Outcome)
    ensures cols == Columns(IsTruthy, s.patient)
    ensures |vals| == |cols| && forall k :: 0 <= k < |cols| ==> vals[k] == ValueFor(cols[k], s)
    ensures outcome == if succeeds then Committed else Raised
  {
    cols, vals := BuildInsert(s, IsTruthy);
    outcome := if succeeds then Committed else Raised;
  }

  /** The height and width columns carry the height and the width, in that
      order, in every version. */
  lemma HeightAndWidthAligned(t: PatientTest, s: Sample)
    ensures var cols := Columns(t, s.patient);
      cols[1] == HeightCol && cols[2] == WidthCol && ValueFor(cols[1], s) == Num(s.height) && ValueFor(cols[2], s) == Num(s.width)
    ensures FIXED_COLUMNS[1] == HeightCol && FIXED_COLUMNS[2] == WidthCol
  {
  }
}
