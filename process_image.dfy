/** The batch entry point `process_image_file`
    (app/Http/Scripts/mensureScript/process_image_file.py): check the file,
    decode it, normalise the CPF, measure, look up the patient, ask the AI
    service and store the sample, answering with an exit code. The file
    system, the decoder, the analyzer, the database and the AI service are
    inputs. */
module ProcessImage {
  import opened Wrappers
  import Text
  import SampleInsert

  // CPF and user id arguments

  /** `cpf.strip().replace('.', '').replace('-', '')`. */
  function NormalizeCpf(cpf: string): (r: string)
    ensures '.' !in r && '-' !in r
  {
    Text.RemoveChar(Text.RemoveChar(Text.Strip(cpf), '.'), '-')
  }

  lemma {:induction false} RemoveCharAppend(a: string, b: string, c: char)
    ensures Text.RemoveChar(a + b, c) == Text.RemoveChar(a, c) + Text.RemoveChar(b, c)
  {
    if a == [] {
      assert a + b == b;
    } else {
      assert (a + b)[0] == a[0];
      assert (a + b)[1..] == a[1..] + b;
      RemoveCharAppend(a[1..], b, c);
    }
  }

  lemma {:induction false} RemoveCharAbsent(s: string, c: char)
    requires c !in s
    ensures Text.RemoveChar(s, c) == s
  {
    if s != [] {
      RemoveCharAbsent(s[1..], c);
      assert s == [s[0]] + s[1..];
    }
  }

  lemma NoDigitIsPunctuation(s: string)
    requires Text.AllDigits(s)
    ensures '.' !in s && '-' !in s
  {
    assert forall k :: 0 <= k < |s| ==> s[k] != '.' && s[k] != '-';
  }

  /** A CPF given as plain digits is passed on as it is. */
  lemma NormalizeDigits(s: string)
    requires Text.AllDigits(s)
    ensures NormalizeCpf(s) == s
  {
    assert s == [] || (Text.IsDigit(s[0]) && Text.IsDigit(s[|s| - 1]));
    NoDigitIsPunctuation(s);
    RemoveCharAbsent(s, '.');
    RemoveCharAbsent(s, '-');
  }

  /** Removing `c` from text whose first `c` follows a prefix free of it. */
  lemma RemoveCharAfter(a: string, b: string, c: char)
    requires c !in a
    ensures Text.RemoveChar(a + [c] + b, c) == a + Text.RemoveChar(b, c)
  {
    RemoveCharAbsent(a, c);
    RemoveCharAppend(a + [c], b, c);
    RemoveCharAppend(a, [c], c);
    assert [c][1..] == [];
    assert Text.RemoveChar([c], c) == [];
    assert Text.RemoveChar(a + [c], c) == a;
  }

  /** Stripping leaves a formatted CPF alone: it starts with a digit or a
      dot and ends with a digit or a dash. */
  lemma StripFormattedCpf(d1: string, d2: string, d3: string, d4: string)
    requires Text.AllDigits(d1) && Text.AllDigits(d4)
    ensures var s := d1 + "." + d2 + "." + d3 + "-" + d4; Text.Strip(s) == s
  {
    var s := d1 + "." + d2 + "." + d3 + "-" + d4;
    Text.FormattedCpfShape(d1, d2, d3, d4);
    var front := d1 + ['.'];
    var back := d1 + "." + d2 + "." + d3 + "-";
    assert s == front + (d2 + ['.'] + (d3 + ['-'] + d4)) && front[0] == s[0];
    assert s == back + d4 && back[|back| - 1] == '-';
    assert !Text.IsSpace(s[0]) && !Text.IsSpace(s[|s| - 1]);
  }

  lemma RemoveDotsFormattedCpf(d1: string, d2: string, d3: string, d4: string)
    requires Text.AllDigits(d1) && Text.AllDigits(d2) && Text.AllDigits(d3) && Text.AllDigits(d4)
    ensures Text.RemoveChar(d1 + ['.'] + (d2 + ['.'] + (d3 + ['-'] + d4)), '.') == d1 + (d2 + (d3 + ['-'] + d4))
  {
    var tail3 := d3 + ['-'] + d4;
    NoDigitIsPunctuation(d1);
    NoDigitIsPunctuation(d2);
    NoDigitIsPunctuation(d3);
    NoDigitIsPunctuation(d4);
    assert '.' !in tail3;
    RemoveCharAbsent(tail3, '.');
    RemoveCharAfter(d2, tail3, '.');
    RemoveCharAfter(d1, d2 + ['.'] + tail3, '.');
  }

  lemma RemoveDashFormattedCpf(d123: string, d4: string)
    requires Text.AllDigits(d123) && Text.AllDigits(d4)
    ensures Text.RemoveChar(d123 + "-" + d4, '-') == d123 + d4
  {
    NoDigitIsPunctuation(d123);
    NoDigitIsPunctuation(d4);
    RemoveCharAfter(d123, d4, '-');
    RemoveCharAbsent(d4, '-');
  }

  /** A CPF written as `123.456.789-01` becomes its digits. */
  lemma NormalizeFormattedCpf(d1: string, d2: string, d3: string, d4: string)
    requires Text.AllDigits(d1) && Text.AllDigits(d2) && Text.AllDigits(d3) && Text.AllDigits(d4)
    ensures NormalizeCpf(d1 + "." + d2 + "." + d3 + "-" + d4) == d1 + d2 + d3 + d4
  {
    StripFormattedCpf(d1, d2, d3, d4);
    Text.FormattedCpfShape(d1, d2, d3, d4);
    RemoveDotsFormattedCpf(d1, d2, d3, d4);
    var d123 := d1 + d2 + d3;
    assert forall k :: 0 <= k < |d123| ==> Text.IsDigit(d123[k]) by {
      assert forall k :: 0 <= k < |d123| ==> d123[k] == (if k < |d1| then d1[k] else if k < |d1| + |d2| then d2[k - |d1|] else d3[k - |d1| - |d2|]);
    }
    RemoveDashFormattedCpf(d123, d4);
  }

  /** `int(user_id) if user_id else None`: an empty argument is no user, and
      an argument that is not an integer raises `ValueError`. */
  function UserIdArg(s: string): (r: Result<Option<int>, string>)
    ensures s == "" ==> r == Success(None)
    ensures s != "" ==> (r.Success? <==> Text.PythonInt(s).Some?)
    ensures s != "" && r.Success? ==> r.value == Some(Text.PythonInt(s).value)
  {
    if s == "" then Success(None)
    else
      var n := Text.PythonInt(s);
      if n.Some? then Success(Some(n.value)) else Failure("ValueError")
  }

  /** A rendered id is read back as that id. */
  lemma UserIdArgOfInt(i: int)
    ensures UserIdArg(Text.IntToString(i)) == Success(Some(i))
  {
    Text.PythonIntOfIntToString(i);
  }

  // The steps

  /** The outside world as `process_image_file` sees it. A Failure stands
      for an exception raised by the step; `connects` is false when
      `conectar_banco` cannot reach the database and calls `exit(1)`. */
  datatype Services = Services(
    isFile: string -> bool,
    decodes: string -> bool,
    analyze: string -> Result<(real, real), string>,
    connects: bool,
    findPatient: string -> Result<Option<int>, string>,
    ai: (real, real, string) -> Result<string, string>,
    insertSucceeds: SampleInsert.Sample -> bool,
    now: string)

  /** `analisar_imagem_colorida` returns two values, a width and a height
      (app/Http/Scripts/mensureScript/analisar_imagem_medicao.py). */
  const ANALYZER_VALUES: nat := 2

  /** The sample stored when the steps succeed. */
  function StoredSample(imagePath: string, note: string, aiObs: string, cpf: string, userId: string,
                        svc: Services): SampleInsert.Sample
  {
    var m := svc.analyze(imagePath);
    var width := if m.Success? then m.value.0 else 0.0;
    var height := if m.Success? then m.value.1 else 0.0;
    var p := svc.findPatient(NormalizeCpf(cpf));
    var a := svc.ai(width, height, aiObs);
    var u := UserIdArg(userId);
    SampleInsert.Sample(height, width, svc.now, if u.Success? then u.value else None, note,
                        if a.Success? then a.value else "", if p.Success? then p.value else None)
  }

  /** Every step after decoding succeeds. */
  predicate StepsSucceed(imagePath: string, note: string, aiObs: string, cpf: string, userId: string, svc: Services) {
    && svc.analyze(imagePath).Success?
    && svc.connects
    && svc.findPatient(NormalizeCpf(cpf)).Success?
    && svc.ai(svc.analyze(imagePath).value.0, svc.analyze(imagePath).value.1, aiObs).Success?
    && UserIdArg(userId).Success?
    && svc.insertSucceeds(StoredSample(imagePath, note, aiObs, cpf, userId, svc))
  }

  /** The body of `process_image_file`, for a left-hand side of `names`
      variables receiving the analyzer's result: the file check answers 2,
      the decoder 3, and any exception after that 10; the run answers 0
      exactly when every step succeeds, and only then is a sample stored.
      Unpacking raises `ValueError` unless `names` matches the number of
      values the analyzer returns. A connection that cannot be made calls
      `exit(1)`, whose `SystemExit` is no `Exception`: it passes the handler
      and ends the script with status 1. */
  method Run(names: nat, imagePath: string, note: string, aiObs: string, cpf: string, userId: string, svc: Services)
    returns (code: int, stored: Option<SampleInsert.Sample>)
    ensures code in {0, 1, 2, 3, 10}
    ensures stored.Some? <==> code == 0
    ensures (code == 2) == !svc.isFile(imagePath)
    ensures (code == 3) == (svc.isFile(imagePath) && !svc.decodes(imagePath))
    ensures code == 1 <==>
      svc.isFile(imagePath) && svc.decodes(imagePath) && names == ANALYZER_VALUES
      && svc.analyze(imagePath).Success? && !svc.connects
    ensures code == 0 <==>
      svc.isFile(imagePath) && svc.decodes(imagePath) && names == ANALYZER_VALUES
      && StepsSucceed(imagePath, note, aiObs, cpf, userId, svc)
    ensures code == 0 ==> stored == Some(StoredSample(imagePath, note, aiObs, cpf, userId, svc))
  {
    if !svc.isFile(imagePath) {
      return 2, None;
    }
    if !svc.decodes(imagePath) {
      return 3, None;
    }
    var cpfDigits := NormalizeCpf(cpf);
    if names != ANALYZER_VALUES {
      return 10, None;
    }
    var measured := svc.analyze(imagePath);
    if measured.Failure? {
      return 10, None;
    }
    var (width, height) := measured.value;
    if !svc.connects {
      return 1, None;
    }
    var patient := svc.findPatient(cpfDigits);
    if patient.Failure? {
      return 10, None;
    }
    var aiResult := svc.ai(width, height, aiObs);
    if aiResult.Failure? {
      return 10, None;
    }
    var user := UserIdArg(userId);
    if user.Failure? {
      return 10, None;
    }
    var sample := SampleInsert.Sample(height, width, svc.now, user.value, note, aiResult.value, patient.value);
    assert sample == StoredSample(imagePath, note, aiObs, cpf, userId, svc);
    var cols, vals, outcome := SampleInsert.BatchInsert(sample, svc.insertSucceeds(sample));
    if outcome == SampleInsert.Raised {
      return 10, None;
    }
    return 0, Some(sample);
  }

  /** `process_image_file` as written: line 30 unpacks the analyzer's
      result into three names, which raises `ValueError` for the two values
      it returns, so every image that exists and decodes ends with 10 and
      nothing is stored. */
  method ProcessImageFile(imagePath: string, note: string, aiObs: string, cpf: string, userId: string, svc: Services)
    returns (code: int, stored: Option<SampleInsert.Sample>)
    ensures !svc.isFile(imagePath) ==> code == 2 && stored.None?
    ensures svc.isFile(imagePath) && !svc.decodes(imagePath) ==> code == 3 && stored.None?
    ensures svc.isFile(imagePath) && svc.decodes(imagePath) ==> code == 10 && stored.None?
  {
    code, stored := Run(3, imagePath, note, aiObs, cpf, userId, svc);
  }

  /** `process_image_file` with the analyzer's width and height unpacked
      into two names and the decoded frame kept: 2 for a missing file, 3 for
      an undecodable one, 0 exactly when every later step succeeds (the
      sample then stored), 1 when the database cannot be reached after a
      successful analysis, otherwise 10. */
  method ProcessImageFileIntended(imagePath: string, note: string, aiObs: string, cpf: string, userId: string,
                                  svc: Services)
    returns (code: int, stored: Option<SampleInsert.Sample>)
    ensures !svc.isFile(imagePath) ==> code == 2 && stored.None?
    ensures svc.isFile(imagePath) && !svc.decodes(imagePath) ==> code == 3 && stored.None?
    ensures svc.isFile(imagePath) && svc.decodes(imagePath) ==>
      && code in {0, 1, 10}
      && (code == 0 <==> StepsSucceed(imagePath, note, aiObs, cpf, userId, svc))
      && (code == 1 <==> svc.analyze(imagePath).Success? && !svc.connects)
      && (code == 1 ==> stored.None?)
      && (code == 0 ==> stored == Some(StoredSample(imagePath, note, aiObs, cpf, userId, svc)))
      && (code == 10 ==> stored.None?)
  {
    code, stored := Run(ANALYZER_VALUES, imagePath, note, aiObs, cpf, userId, svc);
  }

  /** The stored sample carries the analyzer's height and width in their
      own columns, the normalised CPF's patient when one is found and truthy,
      and the AI service's answer. */
  lemma StoredSampleContents(imagePath: string, note: string, aiObs: string, cpf: string, userId: string, svc: Services)
    requires StepsSucceed(imagePath, note, aiObs, cpf, userId, svc)
    ensures var s := StoredSample(imagePath, note, aiObs, cpf, userId, svc);
      var m := svc.analyze(imagePath).value;
      && SampleInsert.ValueFor(SampleInsert.HeightCol, s) == SampleInsert.Num(m.1)
      && SampleInsert.ValueFor(SampleInsert.WidthCol, s) == SampleInsert.Num(m.0)
      && s.patient == svc.findPatient(NormalizeCpf(cpf)).value
      && s.aiNote == svc.ai(m.0, m.1, aiObs).value
      && (userId == "" ==> s.user.None?)
  {
  }
}
