/** The profile form (`UpdateProfileInformationForm`): the label of the
    license number, which follows the selected role, the form's initial
    values, and the license-state input. */
module ProfileForm {
  import opened Wrappers
  import Text

  /** A form value: the user's role arrives as a number, the select's value as a string. */
  datatype FormValue = Number(n: int) | Str(s: string)

  /** `Number(v)` on the values the form holds; None is NaN. A string that is
      blank once JavaScript's white space is trimmed is 0; otherwise an
      optionally signed decimal integer. */
  function ToNumber(v: FormValue): (r: Option<int>)
    ensures v.Number? ==> r == Some(v.n)
  {
    match v
    case Number(n) => Some(n)
    case Str(s) =>
      var t := Text.StripBy(s, Text.JsSpace);
      if t == "" then Some(0) else Text.ParseSigned(t)
  }

  /** `cargoLabel(id)`. */
  function CargoLabel(v: FormValue): (tag: string)
    ensures tag == "CRM" <==> ToNumber(v) == Some(1)
    ensures tag == "CRBM" <==> ToNumber(v) == Some(2)
    ensures tag == "COREN" <==> ToNumber(v) == Some(3)
    ensures tag == "Registro" <==> ToNumber(v) !in {Some(1), Some(2), Some(3)}
  {
    match ToNumber(v)
    case Some(1) => "CRM"
    case Some(2) => "CRBM"
    case Some(3) => "COREN"
    case _ => "Registro"
  }

  /** A role id labels the same whether it is held as a number or as the
      string the select reports for it. */
  lemma CargoLabelOfRendered(n: int)
    ensures CargoLabel(Str(Text.IntToString(n))) == CargoLabel(Number(n))
  {
    var s := Text.IntToString(n);
    assert !Text.JsSpace(s[0]) && !Text.JsSpace(s[|s| - 1]);
    assert Text.StripBy(s, Text.JsSpace) == s;
    Text.ParseSignedOfIntToString(n);
  }

  /** The empty choice the form starts with when the user has no role. */
  lemma CargoLabelOfEmpty()
    ensures CargoLabel(Str("")) == "Registro"
  {
  }

  /** The props `edit` sends for the signed-in user. */
  datatype AuthUser = AuthUser(name: Option<string>, legacyName: Option<string>,
                               email: Option<string>, legacyEmail: Option<string>, role: Option<int>)

  datatype Form = Form(name: Option<string>, email: Option<string>, cargoId: FormValue,
                       licenseNumber: string, licenseState: string)

  /** `useForm({...})`: name and e-mail fall back to the table's column names,
      the role to `''`, and both license fields start empty (the license that
      `edit` sends is not prefilled). */
  function InitialForm(u: AuthUser): (f: Form)
    ensures u.name.Some? ==> f.name == u.name
    ensures u.name.None? ==> f.name == u.legacyName
    ensures u.email.Some? ==> f.email == u.email
    ensures u.email.None? ==> f.email == u.legacyEmail
    ensures f.cargoId == if u.role.Some? then Number(u.role.value) else Str("")
    ensures f.licenseNumber == "" && f.licenseState == ""
  {
    Form(
      if u.name.Some? then u.name else u.legacyName,
      if u.email.Some? then u.email else u.legacyEmail,
      match u.role case Some(r) => Number(r) case None => Str(""),
      "", "")
  }

  /** The label the form first shows follows the user's role. */
  lemma InitialLabel(u: AuthUser)
    ensures CargoLabel(InitialForm(u).cargoId) ==
      match u.role
      case Some(1) => "CRM"
      case Some(2) => "CRBM"
      case Some(3) => "COREN"
      case _ => "Registro"
  {
  }

  /** `toUpperCase` on a string, given `upper`, the case mapping of one
      character; JavaScript's full mapping may turn one character into several. */
  function UpperCase(s: string, upper: char -> string): (r: string)
    ensures (forall c :: |upper(c)| == 1) ==> |r| == |s| && forall i :: 0 <= i < |s| ==> r[i] == upper(s[i])[0]
  {
    if s == [] then [] else upper(s[0]) + UpperCase(s[1..], upper)
  }

  /** The ASCII case mapping of one character. */
  function AsciiUpper(c: char): string {
    [Text.UpperChar(c)]
  }

  /** The license-state field after typing `typed`: the input keeps at most
      two typed characters (`maxLength={2}`) and `onChange` stores them
      through `toUpperCase`. */
  function LicenseStateInput(typed: string, upper: char -> string): (r: string)
    ensures (forall c :: |upper(c)| == 1) ==>
      && |r| <= 2 && |r| <= |typed| && (|r| == 2 || |r| == |typed|)
      && forall i :: 0 <= i < |r| ==> r[i] == upper(typed[i])[0]
  {
    UpperCase(if |typed| <= 2 then typed else typed[..2], upper)
  }

  /** With the ASCII mapping the field holds the first two typed characters
      upper-cased, and no lower-case letter. */
  lemma LicenseStateInputAscii(typed: string)
    ensures var r := LicenseStateInput(typed, AsciiUpper);
      && r == Text.UpperAscii(if |typed| <= 2 then typed else typed[..2])
      && forall i :: 0 <= i < |r| ==> !('a' <= r[i] <= 'z')
  {
    var r := LicenseStateInput(typed, AsciiUpper);
    assert forall c :: |AsciiUpper(c)| == 1;
    assert r == Text.UpperAscii(if |typed| <= 2 then typed else typed[..2]);
  }

  /** A character whose upper case is longer makes the field hold more than
      two characters: typing `a` and `ß` (U+00DF) stores "ASS", which `size:2` refuses. */
  lemma LicenseStateInputExpands(upper: char -> string)
    requires upper('a') == "A" && upper('\U{DF}') == "SS"
    ensures LicenseStateInput("a\U{DF}", upper) == "ASS"
  {
    assert "a\U{DF}"[1..] == "\U{DF}";
    assert "\U{DF}"[1..] == [];
  }

  /** Retyping what the field shows leaves it as it is, for a mapping that
      maps each character to one character and is idempotent. */
  lemma LicenseStateInputStable(typed: string, upper: char -> string)
    requires forall c :: |upper(c)| == 1
    requires forall c :: upper(upper(c)[0]) == upper(c)
    ensures LicenseStateInput(LicenseStateInput(typed, upper), upper) == LicenseStateInput(typed, upper)
  {
    var r := LicenseStateInput(typed, upper);
    var rr := LicenseStateInput(r, upper);
    assert |rr| == |r|;
    forall i | 0 <= i < |r| ensures rr[i] == r[i] {
      assert upper(upper(typed[i])[0]) == upper(typed[i]);
    }
  }
}
