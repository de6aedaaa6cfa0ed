/** The capture app (app/Http/Scripts/microscopio.py): who is signed in,
    the patient lookup by CPF, the margin check's region of interest, the
    measurements the video loop keeps, and the checks made before a capture
    is stored. The camera, OpenCV, Tk and the AI service are outside the
    model: their results are inputs. */
module Capture {
  import opened Wrappers
  import Text
  import Seqs
  import Launcher
  import Measurement
  import SampleInsert

  // Signed-in user

  /** `parse_user`. `cliId` and `cliName` are the `--user-id` and
      `--user-name` options (already converted to int by argparse), `envId`
      and `envName` the AUTH_USER_ID and AUTH_USER_NAME variables. Python's
      `or` takes the option only when it is truthy, so `--user-id 0` and
      `--user-name ""` fall back to the environment. */
  function ParseUser(cliId: Option<int>, cliName: Option<string>, envId: Option<string>, envName: Option<string>)
    : (r: Option<(int, string)>)
    ensures cliId.Some? && cliId.value != 0 ==> r.Some? && r.value.0 == cliId.value
    ensures !(cliId.Some? && cliId.value != 0) ==>
      (r.Some? <==> envId.Some? && Text.PythonInt(envId.value).Some?)
      && (r.Some? ==> r.value.0 == Text.PythonInt(envId.value).value)
    ensures r.Some? ==> r.value.1 != ""
    ensures r.Some? && cliName.Some? && cliName.value != "" ==> r.value.1 == cliName.value
    ensures r.Some? && !(cliName.Some? && cliName.value != "") && envName.Some? && envName.value != "" ==>
      r.value.1 == envName.value
    ensures r.Some? && !(cliName.Some? && cliName.value != "") && !(envName.Some? && envName.value != "") ==>
      r.value.1 == "Usuario " + Text.IntToString(r.value.0)
  {
    var id: Option<int> :=
      if cliId.Some? && cliId.value != 0 then cliId
      else if envId.None? || Text.Strip(envId.value) == "" then None
      else Text.PythonInt(envId.value);
    var name: Option<string> := if cliName.Some? && cliName.value != "" then cliName else envName;
    if id.None? then None
    else if name.None? || name.value == "" then Some((id.value, "Usuario " + Text.IntToString(id.value)))
    else Some((id.value, name.value))
  }

  /** A blank id is refused, here as by Python's `int()`. */
  lemma BlankIdRefused(s: string)
    requires Text.Strip(s) == ""
    ensures Text.PythonInt(s) == None
  {
  }

  /** The launcher starts the app with no options and hands the user over
      through the environment; an integer id (which the launcher only
      passes when it is non-zero) comes back unchanged, with the launcher's
      name or, when that is empty, the default one. */
  lemma UserHandedOver(ambient: map<string, string>, u: Launcher.AuthUser, i: int)
    requires Launcher.UserId(u) == Some(Launcher.PInt(i)) && Launcher.Truthy(Launcher.UserId(u).value)
    ensures var env := Launcher.ProcessEnv(ambient, Launcher.ToStr(Launcher.UserId(u).value), Launcher.UserName(u));
      var name := Launcher.UserName(u);
      ParseUser(None, None, Some(env[Launcher.AUTH_USER_ID]), Some(env[Launcher.AUTH_USER_NAME]))
        == Some((i, if name != "" then name else "Usuario " + Text.IntToString(i)))
  {
    Text.PythonIntOfIntToString(i);
  }

  // Patient lookup

  /** The outcome of `buscar_paciente_por_cpf`: the query made, if any, and the patient found. */
  datatype Lookup = Lookup(query: Option<string>, patient: Option<int>)

  /** `buscar_paciente_por_cpf`: only the digits of the CPF are kept; with
      none left no query is made and no patient is found. `patients` is the
      PACIENTE table, by CPF. */
  function FindPatientByCpf(cpf: Option<string>, patients: string -> Option<int>): (r: Lookup)
    ensures r.query.Some? <==> Text.DigitsOnly(cpf.GetOr("")) != ""
    ensures r.query.None? ==> r.patient.None?
    ensures r.query.Some? ==> Text.AllDigits(r.query.value) && r.patient == patients(r.query.value)
    ensures r.query.Some? ==> r.query.value == Text.DigitsOnly(cpf.GetOr(""))
  {
    var digits := Text.DigitsOnly(cpf.GetOr(""));
    if digits == "" then Lookup(None, None) else Lookup(Some(digits), patients(digits))
  }

  /** The lookup's query holds exactly the CPF's digits, in their order:
      a character is in it when it is a digit of the CPF, and no other is. */
  lemma FindPatientByCpfQuery(s: string, patients: string -> Option<int>)
    ensures var q := FindPatientByCpf(Some(s), patients).query;
      forall c :: (q.Some? && c in q.value) <==> (c in s && Text.IsDigit(c))
    ensures var q := FindPatientByCpf(Some(s), patients).query;
      q.Some? ==> Seqs.IsSubsequence(q.value, s)
  {
    Seqs.FilterIsSubsequence(s, Text.IsDigit);
  }

  /** A CPF typed as digits only is looked up as typed. */
  lemma {:induction false} DigitsOnlyKeepsDigits(s: string, patients: string -> Option<int>)
    requires Text.AllDigits(s)
    ensures Text.DigitsOnly(s) == s
    ensures FindPatientByCpf(Some(s), patients).query == if s == "" then None else Some(s)
  {
    if s != [] {
      DigitsOnlyKeepsDigits(s[1..], patients);
      assert s == [s[0]] + s[1..];
    }
  }

  /** Digit filtering goes piecewise over a concatenation. */
  lemma DigitsOnlyAppend(a: string, b: string)
    ensures Text.DigitsOnly(a + b) == Text.DigitsOnly(a) + Text.DigitsOnly(b)
  {
    Seqs.FilterAppend(a, b, Text.IsDigit);
  }

  /** A run of digits, a separator, and the rest: the separator is dropped. */
  lemma DigitsThenSeparator(a: string, c: char, b: string)
    requires Text.AllDigits(a) && !Text.IsDigit(c)
    ensures Text.DigitsOnly(a + [c] + b) == a + Text.DigitsOnly(b)
  {
    DigitsOnlyKeepsDigits(a, _ => None);
    assert a + [c] + b == a + ([c] + b);
    DigitsOnlyAppend(a, [c] + b);
    assert ([c] + b)[0] == c && ([c] + b)[1..] == b;
    assert Text.DigitsOnly([c] + b) == Text.DigitsOnly(b);
  }

  /** Punctuation in a formatted CPF (`123.456.789-01`) is ignored: the
      lookup uses the eleven digits alone. */
  lemma FormattedCpf(d1: string, d2: string, d3: string, d4: string, patients: string -> Option<int>)
    requires Text.AllDigits(d1) && Text.AllDigits(d2) && Text.AllDigits(d3) && Text.AllDigits(d4)
    ensures Text.DigitsOnly(d1 + "." + d2 + "." + d3 + "-" + d4) == d1 + d2 + d3 + d4
    ensures d1 + d2 + d3 + d4 != "" ==>
      FindPatientByCpf(Some(d1 + "." + d2 + "." + d3 + "-" + d4), patients)
        == Lookup(Some(d1 + d2 + d3 + d4), patients(d1 + d2 + d3 + d4))
  {
    var tail3 := d3 + ['-'] + d4;
    var tail2 := d2 + ['.'] + tail3;
    Text.FormattedCpfShape(d1, d2, d3, d4);
    DigitsOnlyKeepsDigits(d4, _ => None);
    DigitsThenSeparator(d3, '-', d4);
    DigitsThenSeparator(d2, '.', tail3);
    DigitsThenSeparator(d1, '.', tail2);
  }

  // Margin check

  /** Millimetres per pixel along x and y. */
  const MM_PER_PX_X: real := 0.0723
  const MM_PER_PX_Y: real := 0.06696

  /** `int(0.2 / ((mm_per_pixel_x + mm_per_pixel_y) / 2))`: the 0.2 mm margin in pixels. */
  const MARGIN_PX: int := (0.2 / ((MM_PER_PX_X + MM_PER_PX_Y) / 2.0)).Floor

  lemma MarginIsTwoPixels()
    ensures MARGIN_PX == 2
  {
  }

  /** A rectangle of the frame, in pixels. */
  datatype Rect = Rect(x: int, y: int, w: int, h: int)

  function Max(a: int, b: int): int { if a >= b then a else b }

  function Min(a: int, b: int): int { if a <= b then a else b }

  /** The region searched for the red margin: the box grown by `m` on every
      side, clipped to the frame. The region never leaves the frame. */
  function Roi(b: Measurement.Box, m: nat, frameW: nat, frameH: nat): (r: Rect)
    ensures r.x >= 0 && r.y >= 0
    ensures r.x + r.w <= frameW && r.y + r.h <= frameH
  {
    var x := Max(0, b.x - m);
    var y := Max(0, b.y - m);
    Rect(x, y, Min(frameW - x, b.w + 2 * m), Min(frameH - y, b.h + 2 * m))
  }

  /** For a box inside the frame, the region contains the box. */
  lemma RoiCoversBox(b: Measurement.Box, m: nat, frameW: nat, frameH: nat)
    requires 0 <= b.x && b.x + b.w <= frameW && 0 <= b.y && b.y + b.h <= frameH
    ensures var r := Roi(b, m, frameW, frameH);
      && r.w >= b.w && r.h >= b.h
      && r.x <= b.x && b.x + b.w <= r.x + r.w
      && r.y <= b.y && b.y + b.h <= r.y + r.h
  {
  }

  /** Away from the frame's edges, the region is the box grown by `m` on every side. */
  lemma RoiAwayFromEdges(b: Measurement.Box, m: nat, frameW: nat, frameH: nat)
    requires m <= b.x && b.x + b.w + m <= frameW && m <= b.y && b.y + b.h + m <= frameH
    ensures Roi(b, m, frameW, frameH) == Rect(b.x - m, b.y - m, b.w + 2 * m, b.h + 2 * m)
  {
  }

  /** `frame[0:480, 0:640]`: the frame is cut to at most 640 by 480 pixels. */
  function FrameSize(cameraW: nat, cameraH: nat): (r: (nat, nat))
    ensures r.0 <= 640 && r.1 <= 480
    ensures r.0 == cameraW || r.0 == 640
    ensures r.1 == cameraH || r.1 == 480
  {
    (if cameraW < 640 then cameraW else 640, if cameraH < 480 then cameraH else 480)
  }

  /** The red pixels found in the four border strips of the region. */
  datatype Borders = Borders(top: nat, bottom: nat, left: nat, right: nat)

  /** The margin is sufficient when every side's strip has some red. */
  predicate MarginOk(c: Borders) {
    !(c.top == 0 || c.bottom == 0 || c.left == 0 || c.right == 0)
  }

  // Capture

  /** What pressing "Capturar e Salvar" does: refuse with a message; store
      the sample, for the given patient and asking the AI service or not; or
      stop on an exception that escapes the button's callback. `confirmed`
      says whether the success message had already been shown then. */
  datatype CaptureResult =
    | Refused(title: string, message: string)
    | Stored(patient: Option<int>, askedAi: bool, sample: SampleInsert.Sample)
    | Raised(patient: Option<int>, askedAi: bool, confirmed: bool)

  const CPF_REQUIRED := "CPF obrigat\U{F3}rio"
  const CPF_REQUIRED_MESSAGE := "Informe o CPF do paciente para vincular a amostra."
  const PATIENT_NOT_FOUND := "Paciente n\U{E3}o encontrado"
  const PATIENT_NOT_FOUND_MESSAGE := "CPF n\U{E3}o localizado na base de pacientes."

  /** Python truthiness of an optional float: None and 0.0 are false. */
  predicate Present(v: Option<real>) { v.Some? && v.value != 0.0 }

  /** The form's entries: the doctor's annotation, the notes for the AI
      service, the "amostra retirada" box and the CPF. */
  datatype Form = Form(annotation: string, aiNotes: string, removed: bool, cpf: string)

  const EMPTY_FORM := Form("", "", false, "")

  /** Whether `capturar_e_salvar` gets past its checks: a sample not marked
      as removed always does, a removed one needs a CPF that matches a patient. */
  predicate PassesChecks(f: Form, patients: string -> Option<int>) {
    !f.removed || (Text.Strip(f.cpf) != "" && FindPatientByCpf(Some(Text.Strip(f.cpf)), patients).patient.Some?)
  }

  /** The patient a sample is stored for: the CPF's patient for a removed sample, none otherwise. */
  function PatientFor(f: Form, patients: string -> Option<int>): Option<int> {
    if f.removed then FindPatientByCpf(Some(Text.Strip(f.cpf)), patients).patient else None
  }

  /** The sample the capture app's `inserir_print` stores: the selected
      sizes of the clean frame's contours and the given columns. */
  function CapturedSample(boxes: seq<Measurement.Box>, date: string, user: int, note: string, aiNote: string,
                          patient: Option<int>): SampleInsert.Sample
  {
    var size := Measurement.Selected(boxes, MM_PER_PX_X, MM_PER_PX_Y);
    SampleInsert.Sample(size.1, size.0, date, Some(user), note, aiNote, patient)
  }

  /** `capturar_e_salvar`, on the form `f`. For a sample marked as removed,
      a blank CPF is refused and so is a CPF that matches no patient.
      Otherwise the AI service is asked when `asksAi`, and its answer is `ai`
      (None when the call raises); the success message is shown; and the
      capture app's `inserir_print` runs on the clean frame's contours,
      `insertSucceeds` saying whether the statement goes through. An
      exception escapes the callback, after the success message when it is
      the insert's. */
  function CaptureOutcome(f: Form, asksAi: bool, patients: string -> Option<int>, ai: Option<string>,
                          insertSucceeds: bool, boxes: seq<Measurement.Box>, date: string, user: int): (r: CaptureResult)
    ensures f.removed && Text.Strip(f.cpf) == "" ==> r == Refused(CPF_REQUIRED, CPF_REQUIRED_MESSAGE)
    ensures f.removed && Text.Strip(f.cpf) != "" && FindPatientByCpf(Some(Text.Strip(f.cpf)), patients).patient.None? ==>
      r == Refused(PATIENT_NOT_FOUND, PATIENT_NOT_FOUND_MESSAGE)
    ensures r.Refused? <==> !PassesChecks(f, patients)
    ensures !r.Refused? ==>
      && r.patient == (if f.removed then FindPatientByCpf(Some(Text.Strip(f.cpf)), patients).patient else None)
      && (f.removed ==> r.patient.Some?)
      && r.askedAi == asksAi
    ensures r.Stored? <==> PassesChecks(f, patients) && (asksAi ==> ai.Some?) && insertSucceeds
    ensures r.Raised? ==> (r.confirmed <==> !asksAi || ai.Some?)
    ensures r.Stored? ==>
      && (r.sample.width, r.sample.height) == Measurement.Selected(boxes, MM_PER_PX_X, MM_PER_PX_Y)
      && r.sample == SampleInsert.Sample(r.sample.height, r.sample.width, date, Some(user), f.annotation,
                                         if asksAi then ai.value else "", r.patient)
  {
    if f.removed && Text.Strip(f.cpf) == "" then Refused(CPF_REQUIRED, CPF_REQUIRED_MESSAGE)
    else if PatientFor(f, patients).None? && f.removed then Refused(PATIENT_NOT_FOUND, PATIENT_NOT_FOUND_MESSAGE)
    else
      var patient := PatientFor(f, patients);
      if asksAi && ai.None? then Raised(patient, asksAi, false)
      else if !insertSucceeds then Raised(patient, asksAi, true)
      else Stored(patient, asksAi, CapturedSample(boxes, date, user, f.annotation, if asksAi then ai.value else "", patient))
  }

  /** `MicroscopioApp`'s state: the signed-in user, the last frame's width
      and height in millimetres and whether its margin was sufficient (each
      None when the last frame showed no dark object), and the form. */
  class Microscope {
    const user: int
    var lastWidth: Option<real>
    var lastHeight: Option<real>
    var lastMarginOk: Option<bool>
    var form: Form

    constructor (user: int)
      ensures this.user == user
      ensures lastWidth == None && lastHeight == None && lastMarginOk == None
      ensures form == EMPTY_FORM
    {
      this.user := user;
      lastWidth, lastHeight, lastMarginOk := None, None, None;
      form := EMPTY_FORM;
    }

    /** The three measurements are present together or absent together. */
    predicate Consistent()
      reads this
    {
      (lastWidth.Some? <==> lastHeight.Some?) && (lastWidth.Some? <==> lastMarginOk.Some?)
    }

    /** Whether a capture asks the AI service: width and height truthy and the margin assessed. */
    predicate AsksAi()
      reads this
    {
      Present(lastWidth) && Present(lastHeight) && lastMarginOk.Some?
    }

    /** One turn of `atualizar_video`. `frameRead` is whether the camera
        gave a frame, `darkest` the bounding box of the largest dark contour
        (None when there is none), and `redIn` the red pixel counts of the
        border strips of a region. When no frame arrives, the app closes and
        the state is left as it was; otherwise the state is reset and, for a
        dark object, set from its box. The form is not touched. */
    method UpdateVideo(frameRead: bool, cameraW: nat, cameraH: nat, darkest: Option<Measurement.Box>,
                       redIn: Rect -> Borders) returns (running: bool)
      modifies this
      ensures running == frameRead
      ensures form == old(form)
      ensures !frameRead ==> lastWidth == old(lastWidth) && lastHeight == old(lastHeight) && lastMarginOk == old(lastMarginOk)
      ensures frameRead && darkest.None? ==> lastWidth == None && lastHeight == None && lastMarginOk == None
      ensures frameRead && darkest.Some? ==>
        var b := darkest.value;
        var size := FrameSize(cameraW, cameraH);
        && lastWidth == Some(Measurement.WidthMm(b, MM_PER_PX_X))
        && lastHeight == Some(Measurement.HeightMm(b, MM_PER_PX_Y))
        && lastMarginOk == Some(MarginOk(redIn(Roi(b, MARGIN_PX as nat, size.0, size.1))))
      ensures frameRead ==> Consistent()
    {
      if !frameRead {
        return false;
      }
      var size := FrameSize(cameraW, cameraH);
      lastWidth, lastHeight, lastMarginOk := None, None, None;
      if darkest.Some? {
        var b := darkest.value;
        lastWidth := Some(Measurement.WidthMm(b, MM_PER_PX_X));
        lastHeight := Some(Measurement.HeightMm(b, MM_PER_PX_Y));
        MarginIsTwoPixels();
        var roi := Roi(b, MARGIN_PX as nat, size.0, size.1);
        var counts := redIn(roi);
        var ok := true;
        if counts.top == 0 || counts.bottom == 0 || counts.left == 0 || counts.right == 0 {
          ok := false;
        }
        lastMarginOk := Some(ok);
      }
      return true;
    }

    /** `capturar_e_salvar`, as `CaptureOutcome` describes it for the form
        and the measurements as they are. Only a stored sample clears the
        form (`on_toggle_amostra` with the box cleared empties the CPF
        entry); a refusal leaves it, and so does an exception, which nothing
        in the callback catches. */
    method CaptureAndSave(patients: string -> Option<int>, ai: Option<string>, boxes: seq<Measurement.Box>,
                          date: string, insertSucceeds: bool)
      returns (result: CaptureResult)
      modifies this
      ensures result == CaptureOutcome(old(form), old(AsksAi()), patients, ai, insertSucceeds, boxes, date, user)
      ensures lastWidth == old(lastWidth) && lastHeight == old(lastHeight) && lastMarginOk == old(lastMarginOk)
      ensures form == if result.Stored? then EMPTY_FORM else old(form)
    {
      var patient: Option<int> := None;
      if form.removed {
        var cpf := Text.Strip(form.cpf);
        if cpf == "" {
          return Refused(CPF_REQUIRED, CPF_REQUIRED_MESSAGE);
        }
        patient := FindPatientByCpf(Some(cpf), patients).patient;
        if patient.None? {
          return Refused(PATIENT_NOT_FOUND, PATIENT_NOT_FOUND_MESSAGE);
        }
      }
      var askAi := Present(lastWidth) && Present(lastHeight) && lastMarginOk.Some?;
      var aiNote := "";
      if askAi {
        if ai.None? {
          return Raised(patient, askAi, false);
        }
        aiNote := ai.value;
      }
      var sample, cols, vals, outcome :=
        SampleInsert.CaptureInsert(boxes, MM_PER_PX_X, MM_PER_PX_Y, date, user, form.annotation, aiNote, patient, insertSucceeds);
      if outcome == SampleInsert.Raised {
        return Raised(patient, askAi, true);
      }
      assert sample == CapturedSample(boxes, date, user, form.annotation, aiNote, patient);
      form := EMPTY_FORM;
      result := Stored(patient, askAi, sample);
    }
  }

  /** A stored capture of a removed sample always carries its patient
      column, since the capture app attaches any id that is not None. */
  lemma RemovedSampleKeepsPatient(patient: Option<int>)
    requires patient.Some?
    ensures SampleInsert.PatientCol in SampleInsert.Columns(SampleInsert.IsNotNone, patient)
  {
  }
}
