/** The two listing queries of the web application.

    `AmostraController::index` selects every AMOSTRA row LEFT JOIN PACIENTE
    (the sample list, where samples without a patient stay visible), and
    `DashboardController::index` selects every PACIENTE row LEFT JOIN AMOSTRA
    (the dashboard, one line per patient and sample). Both are ordered by
    `DATA_AMOSTRA` descending. Tables are sequences of rows in scan order; a
    left join pairs each row of the left table with every matching row of the
    right table, or with NULLs when nothing matches; SQL NULL never equals
    anything, so a NULL foreign key matches no row. */
module Listings {
  import opened Wrappers
  import Seqs
  import Sorting

  /** The PACIENTE columns the listings select. */
  datatype Patient = Patient(id: int, name: string, cpf: string)

  /** The AMOSTRA columns the listings select. `date` is DATA_AMOSTRA as a
      timestamp; measurements are the DECIMAL columns. */
  datatype SampleColumns = SampleColumns(
    id: int,
    date: Option<int>,
    height: Option<real>,
    width: Option<real>,
    thickness: Option<real>,
    doctorNote: Option<string>,
    aiNote: Option<string>)

  /** An AMOSTRA row: its selected columns and its foreign key PACIENTE_ID_PACIENTE. */
  datatype Sample = Sample(columns: SampleColumns, patientId: Option<int>)

  /** A row of the sample list: patient columns are all NULL when no patient matched. */
  datatype SampleRow = SampleRow(sample: SampleColumns, patient: Option<Patient>)

  /** A row of the dashboard: sample columns are all NULL when the patient has no sample. */
  datatype PatientRow = PatientRow(patient: Patient, sample: Option<SampleColumns>)

  // ---------------------------------------------------------------------
  // ORDER BY ... DESC on a nullable key (MySQL orders NULL below every value)

  /** `a` may come before `b` in descending order. */
  predicate AtLeast(a: Option<int>, b: Option<int>) {
    match b
    case None => true
    case Some(y) => a.Some? && a.value >= y
  }

  /** Every row's key is at least the key of every later row. */
  predicate SortedDesc<R>(s: seq<R>, key: R -> Option<int>) {
    forall i, j :: 0 <= i < j < |s| ==> AtLeast(key(s[i]), key(s[j]))
  }

  /** `ORDER BY key DESC` as the comparison the sort uses. */
  function DescendingBy<R>(key: R -> Option<int>): (R, R) -> bool {
    (a: R, b: R) => AtLeast(key(a), key(b))
  }

  /** `ORDER BY key DESC` as a stable sort: the engine's order for equal keys is
      not specified by SQL, and this model keeps the join's scan order. */
  function OrderByDesc<R>(s: seq<R>, key: R -> Option<int>): (r: seq<R>)
    ensures multiset(r) == multiset(s)
  {
    Sorting.SortBy(s, DescendingBy(key))
  }

  /** The result of `ORDER BY key DESC` is ordered. */
  lemma OrderByDescSorted<R>(s: seq<R>, key: R -> Option<int>)
    ensures SortedDesc(OrderByDesc(s, key), key)
  {
    var le := DescendingBy(key);
    forall a, b | a in s && b in s ensures le(a, b) || le(b, a) {
    }
    forall a, b, c | a in s && b in s && c in s && le(a, b) && le(b, c) ensures le(a, c) {
    }
    Sorting.SortBySorted(s, le);
  }

  // ---------------------------------------------------------------------
  // AmostraController::index

  /** The patients whose ID_PACIENTE equals the foreign key (none when it is NULL). */
  function Matching(patients: seq<Patient>, fk: Option<int>): seq<Patient> {
    Seqs.Filter(patients, (p: Patient) => fk == Some(p.id))
  }

  /** One sample's rows in `AMOSTRA a LEFT JOIN PACIENTE p ON p.ID_PACIENTE = a.PACIENTE_ID_PACIENTE`. */
  function SampleRows(s: Sample, patients: seq<Patient>): seq<SampleRow> {
    var m := Matching(patients, s.patientId);
    if m == [] then [SampleRow(s.columns, None)]
    else seq(|m|, i requires 0 <= i < |m| => SampleRow(s.columns, Some(m[i])))
  }

  /** The left join in scan order, before ORDER BY. */
  function SampleJoin(samples: seq<Sample>, patients: seq<Patient>): seq<SampleRow> {
    if samples == [] then []
    else SampleRows(samples[0], patients) + SampleJoin(samples[1..], patients)
  }

  function SampleRowDate(r: SampleRow): Option<int> { r.sample.date }

  /** The rows `AmostraController::index` hands to the page. */
  function SampleList(samples: seq<Sample>, patients: seq<Patient>): seq<SampleRow> {
    OrderByDesc(SampleJoin(samples, patients), SampleRowDate)
  }

  predicate UniqueIds(patients: seq<Patient>) {
    forall i, j :: 0 <= i < j < |patients| ==> patients[i].id != patients[j].id
  }

  /** Every sample has a row, carrying its own columns unchanged; a sample
      whose foreign key matches no patient (or is NULL) carries NULL patient columns. */
  lemma {:induction false} SampleListKeepsEverySample(samples: seq<Sample>, patients: seq<Patient>, i: nat)
    requires i < |samples|
    ensures exists r :: r in SampleList(samples, patients) && r.sample == samples[i].columns
    ensures Matching(patients, samples[i].patientId) == [] ==>
      SampleRow(samples[i].columns, None) in SampleList(samples, patients)
  {
    var rows := SampleRows(samples[i], patients);
    var r := rows[0];
    assert r.sample == samples[i].columns;
    SampleBlockInJoin(samples, patients, i);
    var before := SampleJoin(samples[..i], patients);
    assert SampleJoin(samples, patients)[|before|] == r;
    JoinRowListed(samples, patients, r);
  }

  lemma JoinRowListed(samples: seq<Sample>, patients: seq<Patient>, r: SampleRow)
    requires r in SampleJoin(samples, patients)
    ensures r in SampleList(samples, patients)
  {
    assert r in multiset(SampleJoin(samples, patients));
    assert r in multiset(SampleList(samples, patients));
  }

  /** The join of two runs of samples is the two joins, one after the other. */
  lemma {:induction false} SampleJoinAppend(a: seq<Sample>, b: seq<Sample>, patients: seq<Patient>)
    ensures SampleJoin(a + b, patients) == SampleJoin(a, patients) + SampleJoin(b, patients)
  {
    if a == [] {
      assert a + b == b;
    } else {
      assert (a + b)[0] == a[0] && (a + b)[1..] == a[1..] + b;
      SampleJoinAppend(a[1..], b, patients);
    }
  }

  /** The rows of sample `i` sit in the join between those of the samples before and after it. */
  lemma SampleBlockInJoin(samples: seq<Sample>, patients: seq<Patient>, i: nat)
    requires i < |samples|
    ensures SampleJoin(samples, patients) ==
      SampleJoin(samples[..i], patients) + SampleRows(samples[i], patients) + SampleJoin(samples[i + 1..], patients)
  {
    var tail := [samples[i]] + samples[i + 1..];
    assert samples == samples[..i] + tail;
    SampleJoinAppend(samples[..i], tail, patients);
    assert tail[0] == samples[i] && tail[1..] == samples[i + 1..];
  }

  /** Row `r` is one of the rows the left join produces for sample `s`. */
  predicate RowOf(r: SampleRow, s: Sample, patients: seq<Patient>) {
    && s.columns == r.sample
    && match r.patient
       case None => Matching(patients, s.patientId) == []
       case Some(p) => p in patients && s.patientId == Some(p.id)
  }

  /** Every row comes from one sample, with that sample's columns unchanged,
      and its patient columns are NULL exactly when no patient's ID_PACIENTE
      equals the sample's foreign key, otherwise those of such a patient. */
  lemma {:induction false} SampleListRowOrigin(samples: seq<Sample>, patients: seq<Patient>, r: SampleRow)
    requires r in SampleList(samples, patients)
    ensures exists s :: s in samples && RowOf(r, s, patients)
  {
    assert r in multiset(SampleList(samples, patients));
    SampleJoinRowOrigin(samples, patients, r);
  }

  lemma {:induction false} SampleJoinRowOrigin(samples: seq<Sample>, patients: seq<Patient>, r: SampleRow)
    requires r in SampleJoin(samples, patients)
    ensures exists s :: s in samples && RowOf(r, s, patients)
  {
    var s := samples[0];
    if r in SampleRows(s, patients) {
      var m := Matching(patients, s.patientId);
      if m != [] {
        var k :| 0 <= k < |m| && r == SampleRow(s.columns, Some(m[k]));
        assert m[k] in patients && s.patientId == Some(m[k].id);
        assert RowOf(r, s, patients);
      } else {
        assert r == SampleRow(s.columns, None);
        assert RowOf(r, s, patients);
      }
    } else {
      SampleJoinRowOrigin(samples[1..], patients, r);
      var t :| t in samples[1..] && RowOf(r, t, patients);
      assert t in samples;
    }
  }

  /** The sample-list rows of the sample with id `id`. */
  function ForSample(id: int): SampleRow -> bool {
    (r: SampleRow) => r.sample.id == id
  }

  /** The samples with id `id`. */
  function WithId(id: int): Sample -> bool {
    (s: Sample) => s.columns.id == id
  }

  /** With ID_PACIENTE a key, each sample has exactly one row: the rows for a
      sample id are as many as the samples with that id. */
  lemma {:induction false} SampleListOneRowPerSample(samples: seq<Sample>, patients: seq<Patient>, id: int)
    requires UniqueIds(patients)
    ensures Seqs.Count(SampleList(samples, patients), ForSample(id))
         == Seqs.Count(samples, WithId(id))
  {
    var join := SampleJoin(samples, patients);
    Seqs.CountPermutation(SampleList(samples, patients), join, ForSample(id));
    SampleJoinCount(samples, patients, id);
  }

  lemma {:induction false} SampleJoinCount(samples: seq<Sample>, patients: seq<Patient>, id: int)
    requires UniqueIds(patients)
    ensures Seqs.Count(SampleJoin(samples, patients), ForSample(id))
         == Seqs.Count(samples, WithId(id))
  {
    if samples != [] {
      var s := samples[0];
      var p := ForSample(id);
      SampleJoinCount(samples[1..], patients, id);
      Seqs.CountAppend(SampleRows(s, patients), SampleJoin(samples[1..], patients), p);
      var m := Matching(patients, s.patientId);
      AtMostOneMatch(patients, s.patientId);
      var rows := SampleRows(s, patients);
      assert |rows| == 1;
      assert Seqs.Count(rows, p) == if s.columns.id == id then 1 else 0 by {
        assert rows[1..] == [];
      }
    }
  }

  /** With unique patient ids a foreign key matches at most one patient. */
  lemma {:induction false} AtMostOneMatch(patients: seq<Patient>, fk: Option<int>)
    requires UniqueIds(patients)
    ensures |Matching(patients, fk)| <= 1
  {
    if patients != [] {
      if fk == Some(patients[0].id) {
        NoneMatch(patients[1..], fk);
      } else {
        AtMostOneMatch(patients[1..], fk);
      }
    }
  }

  lemma {:induction false} NoneMatch(patients: seq<Patient>, fk: Option<int>)
    requires forall k :: 0 <= k < |patients| ==> fk != Some(patients[k].id)
    ensures Matching(patients, fk) == []
  {
    if patients != [] {
      NoneMatch(patients[1..], fk);
    }
  }

  /** The sample list is non-increasing in DATA_AMOSTRA, NULL dates last. */
  lemma SampleListOrdered(samples: seq<Sample>, patients: seq<Patient>)
    ensures SortedDesc(SampleList(samples, patients), SampleRowDate)
  {
    OrderByDescSorted(SampleJoin(samples, patients), SampleRowDate);
  }

  // ---------------------------------------------------------------------
  // DashboardController::index

  /** The samples whose PACIENTE_ID_PACIENTE equals the patient's ID_PACIENTE. */
  function SamplesOf(samples: seq<Sample>, id: int): seq<Sample> {
    Seqs.Filter(samples, (s: Sample) => s.patientId == Some(id))
  }

  /** One patient's rows in `PACIENTE p LEFT JOIN AMOSTRA a ON a.PACIENTE_ID_PACIENTE = p.ID_PACIENTE`. */
  function PatientRows(p: Patient, samples: seq<Sample>): seq<PatientRow> {
    var m := SamplesOf(samples, p.id);
    if m == [] then [PatientRow(p, None)]
    else seq(|m|, i requires 0 <= i < |m| => PatientRow(p, Some(m[i].columns)))
  }

  /** The dashboard rows of the patient with id `id`. */
  function OwnedBy(id: int): PatientRow -> bool {
    (r: PatientRow) => r.patient.id == id
  }

  function PatientJoin(patients: seq<Patient>, samples: seq<Sample>): seq<PatientRow> {
    if patients == [] then []
    else PatientRows(patients[0], samples) + PatientJoin(patients[1..], samples)
  }

  function PatientRowDate(r: PatientRow): Option<int> {
    match r.sample
    case None => None
    case Some(c) => c.date
  }

  /** The rows `DashboardController::index` hands to the page. */
  function Dashboard(patients: seq<Patient>, samples: seq<Sample>): seq<PatientRow> {
    OrderByDesc(PatientJoin(patients, samples), PatientRowDate)
  }

  /** With ID_PACIENTE a key, a patient with k samples has max(1, k) rows: one
      row with NULL sample columns when k is 0, k rows otherwise. */
  lemma {:induction false} DashboardRowsPerPatient(patients: seq<Patient>, samples: seq<Sample>, i: nat)
    requires UniqueIds(patients) && i < |patients|
    ensures var k := |SamplesOf(samples, patients[i].id)|;
      Seqs.Count(Dashboard(patients, samples), OwnedBy(patients[i].id))
      == if k == 0 then 1 else k
    ensures SamplesOf(samples, patients[i].id) == [] ==>
      PatientRow(patients[i], None) in Dashboard(patients, samples)
  {
    var id := patients[i].id;
    var pred := OwnedBy(id);
    Seqs.CountPermutation(Dashboard(patients, samples), PatientJoin(patients, samples), pred);
    PatientJoinCount(patients, samples, i);
    if SamplesOf(samples, id) == [] {
      var r := PatientRow(patients[i], None);
      assert r in PatientRows(patients[i], samples);
      PatientRowsInJoin(patients, samples, patients[i], r);
      assert r in multiset(PatientJoin(patients, samples));
      assert r in multiset(Dashboard(patients, samples));
    }
  }

  lemma {:induction false} PatientRowsInJoin(patients: seq<Patient>, samples: seq<Sample>, p: Patient, r: PatientRow)
    requires p in patients && r in PatientRows(p, samples)
    ensures r in PatientJoin(patients, samples)
  {
    var head := PatientRows(patients[0], samples);
    var rest := PatientJoin(patients[1..], samples);
    assert PatientJoin(patients, samples) == head + rest;
    if p != patients[0] {
      PatientRowsInJoin(patients[1..], samples, p, r);
    }
  }

  lemma {:induction false} PatientJoinCount(patients: seq<Patient>, samples: seq<Sample>, i: nat)
    requires UniqueIds(patients) && i < |patients|
    ensures var k := |SamplesOf(samples, patients[i].id)|;
      Seqs.Count(PatientJoin(patients, samples), OwnedBy(patients[i].id))
      == if k == 0 then 1 else k
  {
    var id := patients[i].id;
    var pred := OwnedBy(id);
    var rows := PatientRows(patients[0], samples);
    var rest := PatientJoin(patients[1..], samples);
    Seqs.CountAppend(rows, rest, pred);
    BlockCount(patients[0], samples, id);
    if i == 0 {
      OtherPatientsCount(patients[1..], samples, id);
    } else {
      assert patients[1..][i - 1] == patients[i];
      assert UniqueIds(patients[1..]);
      PatientJoinCount(patients[1..], samples, i - 1);
    }
  }

  /** A patient's block counts as a whole for its own id, and not at all for another. */
  lemma {:induction false} BlockCount(p: Patient, samples: seq<Sample>, id: int)
    ensures var k := |SamplesOf(samples, p.id)|;
      Seqs.Count(PatientRows(p, samples), OwnedBy(id))
      == if p.id != id then 0 else if k == 0 then 1 else k
  {
    SameOwnerCount(PatientRows(p, samples), p, id);
  }

  lemma {:induction false} SameOwnerCount(rows: seq<PatientRow>, p: Patient, id: int)
    requires forall k :: 0 <= k < |rows| ==> rows[k].patient == p
    ensures Seqs.Count(rows, OwnedBy(id)) == if p.id == id then |rows| else 0
  {
    if rows != [] {
      SameOwnerCount(rows[1..], p, id);
    }
  }

  /** Patients with other ids contribute no rows for `id`. */
  lemma {:induction false} OtherPatientsCount(patients: seq<Patient>, samples: seq<Sample>, id: int)
    requires forall k :: 0 <= k < |patients| ==> patients[k].id != id
    ensures Seqs.Count(PatientJoin(patients, samples), OwnedBy(id)) == 0
  {
    if patients != [] {
      var pred := OwnedBy(id);
      Seqs.CountAppend(PatientRows(patients[0], samples), PatientJoin(patients[1..], samples), pred);
      BlockCount(patients[0], samples, id);
      OtherPatientsCount(patients[1..], samples, id);
    }
  }

  /** Every dashboard row's sample columns, when present, are those of a sample
      whose foreign key is that row's patient: a sample with a NULL or
      unmatched foreign key never shows up. */
  lemma {:induction false} DashboardRowOrigin(patients: seq<Patient>, samples: seq<Sample>, r: PatientRow)
    requires r in Dashboard(patients, samples)
    ensures r.patient in patients
    ensures r.sample.Some? ==> exists s :: s in samples && s.columns == r.sample.value && s.patientId == Some(r.patient.id)
  {
    assert r in multiset(Dashboard(patients, samples));
    PatientJoinRowOrigin(patients, samples, r);
  }

  lemma {:induction false} PatientJoinRowOrigin(patients: seq<Patient>, samples: seq<Sample>, r: PatientRow)
    requires r in PatientJoin(patients, samples)
    ensures r.patient in patients
    ensures r.sample.Some? ==> exists s :: s in samples && s.columns == r.sample.value && s.patientId == Some(r.patient.id)
  {
    var p := patients[0];
    if r in PatientRows(p, samples) {
      var m := SamplesOf(samples, p.id);
      if m != [] {
        var k :| 0 <= k < |m| && r == PatientRow(p, Some(m[k].columns));
        assert m[k] in samples;
      }
    } else {
      PatientJoinRowOrigin(patients[1..], samples, r);
    }
  }

  /** The dashboard is non-increasing in DATA_AMOSTRA; rows without a sample come last. */
  lemma DashboardOrdered(patients: seq<Patient>, samples: seq<Sample>)
    ensures SortedDesc(Dashboard(patients, samples), PatientRowDate)
  {
    OrderByDescSorted(PatientJoin(patients, samples), PatientRowDate);
  }
}
