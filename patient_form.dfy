/** The new-patient modal (resources/js/Components/NewPatientModal.jsx): a
    form whose CPF field keeps only digits, and whose submit handler clears
    the errors, checks the CPF, then the birth date, and only then posts the
    patient. The post's server reply and today's date are inputs. */
module PatientForm {
  import opened Wrappers
  import Text
  import Seqs
  import TableData

  /** JavaScript `a < b` on strings: code unit by code unit, a proper
      prefix first. */
  predicate StrLess(a: string, b: string)
    decreases |a|
  {
    if a == [] then b != []
    else if b == [] then false
    else if a[0] != b[0] then a[0] < b[0]
    else StrLess(a[1..], b[1..])
  }

  /** JavaScript `a > b` on strings. */
  predicate Later(a: string, b: string) { StrLess(b, a) }

  lemma {:induction false} StrLessIrreflexive(a: string)
    ensures !StrLess(a, a)
    decreases |a|
  {
    if a != [] {
      StrLessIrreflexive(a[1..]);
    }
  }

  /** Comparing two strings that start with pieces of the same length is
      comparing those pieces, or what follows them when the pieces agree. */
  lemma {:induction false} StrLessConcat(p: string, q: string, x: string, y: string)
    requires |p| == |q|
    ensures StrLess(p + x, q + y) == if p == q then StrLess(x, y) else StrLess(p, q)
    decreases |p|
  {
    if p != [] {
      assert (p + x)[0] == p[0] && (q + y)[0] == q[0];
      assert (p + x)[1..] == p[1..] + x && (q + y)[1..] == q[1..] + y;
      StrLessConcat(p[1..], q[1..], x, y);
      if p[0] == q[0] {
        assert (p == q) == (p[1..] == q[1..]) by {
          if p[1..] == q[1..] { assert p == [p[0]] + p[1..] && q == [q[0]] + q[1..]; }
        }
      }
    } else {
      assert p + x == x && q + y == y;
    }
  }

  /** For digit strings of one length, string order is numeric order, and
      equal strings are equal numbers. */
  lemma {:induction false} DigitOrder(a: string, b: string)
    requires |a| == |b| && Text.AllDigits(a) && Text.AllDigits(b)
    ensures StrLess(a, b) <==> Text.ParseDigits(a) < Text.ParseDigits(b)
    ensures a == b <==> Text.ParseDigits(a) == Text.ParseDigits(b)
    decreases |a|
  {
    if a != [] {
      var n := |a| - 1;
      var p, q := a[..n], b[..n];
      var x, y := a[n], b[n];
      assert a == p + [x] && b == q + [y];
      DigitOrder(p, q);
      StrLessConcat(p, q, [x], [y]);
      assert Text.DigitValue(x) < Text.DigitValue(y) <==> x < y;
      StrLessIrreflexive([]);
      if p == q {
        assert [x][1..] == [] && [y][1..] == [];
        assert StrLess([x], [y]) == (x < y);
      }
      assert (a == b) == (p == q && x == y);
    }
  }

  /** A value of an `<input type="date">`: `YYYY-MM-DD`. */
  predicate IsIsoDate(s: string) {
    && |s| == 10 && s[4] == '-' && s[7] == '-'
    && Text.AllDigits(s[..4]) && Text.AllDigits(s[5..7]) && Text.AllDigits(s[8..])
  }

  function Year(s: string): nat requires IsIsoDate(s) { Text.ParseDigits(s[..4]) }

  function Month(s: string): nat requires IsIsoDate(s) { Text.ParseDigits(s[5..7]) }

  function Day(s: string): nat requires IsIsoDate(s) { Text.ParseDigits(s[8..]) }

  /** The calendar order of two dates: a later year, or the same year and a
      later month, or the same month and a later day. */
  predicate DateAfter(a: string, b: string)
    requires IsIsoDate(a) && IsIsoDate(b)
  {
    || Year(a) > Year(b)
    || (Year(a) == Year(b) && Month(a) > Month(b))
    || (Year(a) == Year(b) && Month(a) == Month(b) && Day(a) > Day(b))
  }

  /** Comparing two dates of the fixed-width form as strings, as the
      submit handler does, is comparing them as dates. */
  lemma IsoStringOrder(a: string, b: string)
    requires IsIsoDate(a) && IsIsoDate(b)
    ensures Later(a, b) <==> DateAfter(a, b)
  {
    assert b == b[..4] + b[4..] && a == a[..4] + a[4..];
    StrLessConcat(b[..4], a[..4], b[4..], a[4..]);
    DigitOrder(b[..4], a[..4]);
    assert b[4..] == [b[4]] + b[5..] && a[4..] == [a[4]] + a[5..];
    assert b[4..][1..] == b[5..] && a[4..][1..] == a[5..];
    assert StrLess(b[4..], a[4..]) == StrLess(b[5..], a[5..]);
    assert b[5..] == b[5..7] + b[7..] && a[5..] == a[5..7] + a[7..];
    StrLessConcat(b[5..7], a[5..7], b[7..], a[7..]);
    DigitOrder(b[5..7], a[5..7]);
    assert b[7..][1..] == b[8..] && a[7..][1..] == a[8..];
    assert StrLess(b[7..], a[7..]) == StrLess(b[8..], a[8..]);
    DigitOrder(b[8..], a[8..]);
  }

  const CPF_KEY := "cpf"
  const BIRTH_DATE_KEY := "data_nascimento"
  const CPF_ERROR := "CPF deve ter 11 números sem pontos"
  const BIRTH_DATE_ERROR := "Data de nascimento não pode ser futura"

  /** The length limit of the CPF field and of an accepted CPF. */
  const CPF_LENGTH := 11

  /** `/^\d{11}$/.test(cpf)`: eleven ASCII digits and nothing else. */
  predicate ValidCpf(cpf: string) { |cpf| == CPF_LENGTH && Text.AllDigits(cpf) }

  /** The errors the handler shows before posting, clearing the previous
      ones first: the CPF's if it fails, else the birth date's if it is
      after today, else none. */
  function Validate(cpf: string, birthDate: string, today: string): (errors: map<string, string>)
    ensures errors == map[] <==> ValidCpf(cpf) && !Later(birthDate, today)
    ensures !ValidCpf(cpf) ==> errors == map[CPF_KEY := CPF_ERROR]
    ensures ValidCpf(cpf) && Later(birthDate, today) ==> errors == map[BIRTH_DATE_KEY := BIRTH_DATE_ERROR]
    ensures |errors.Keys| <= 1
  {
    if !ValidCpf(cpf) then map[CPF_KEY := CPF_ERROR]
    else if Later(birthDate, today) then map[BIRTH_DATE_KEY := BIRTH_DATE_ERROR]
    else map[]
  }

  /** An empty birth date and today's date both pass; a date of the same
      form passes exactly when it is not after today. */
  lemma BirthDateCheck(cpf: string, birthDate: string, today: string)
    requires ValidCpf(cpf)
    ensures Validate(cpf, "", today) == map[]
    ensures Validate(cpf, today, today) == map[]
    ensures IsIsoDate(birthDate) && IsIsoDate(today) ==>
      (Validate(cpf, birthDate, today) == map[] <==> !DateAfter(birthDate, today))
  {
    StrLessIrreflexive(today);
    if IsIsoDate(birthDate) && IsIsoDate(today) {
      IsoStringOrder(birthDate, today);
    }
  }

  /** The text the CPF field holds after an edit: the browser keeps at most
      `maxLength` characters, then the handler drops every non-digit. */
  function CpfInput(raw: string): (cpf: string)
    ensures |cpf| <= CPF_LENGTH && Text.AllDigits(cpf)
  {
    var kept := if |raw| <= CPF_LENGTH then raw else raw[..CPF_LENGTH];
    Text.DigitsOnly(kept)
  }

  /** What the field holds is accepted exactly when the first eleven
      characters entered are digits, and then it is those characters. */
  lemma CpfInputAccepted(raw: string)
    ensures ValidCpf(CpfInput(raw)) <==> |raw| >= CPF_LENGTH && Text.AllDigits(raw[..CPF_LENGTH])
    ensures |raw| >= CPF_LENGTH && Text.AllDigits(raw[..CPF_LENGTH]) ==> CpfInput(raw) == raw[..CPF_LENGTH]
  {
    var kept := if |raw| <= CPF_LENGTH then raw else raw[..CPF_LENGTH];
    Seqs.FilterKeepsAll(kept, Text.IsDigit);
    if |raw| >= CPF_LENGTH {
      assert kept == raw[..CPF_LENGTH];
    }
  }

  /** What the form posts to `/dashboard`. */
  datatype Payload = Payload(name: string, cpf: string, birthDate: string, address: string, sex: string)

  /** How the server answers the post: the new patient in the page props,
      or validation errors. */
  datatype Reply = Saved(newPatient: TableData.Row) | Invalid(errors: map<string, string>)

  const DEFAULT_SEX := "O"

  /** The form's state: the five fields and the errors shown under them. */
  class NewPatientForm {
    var name: string
    var cpf: string
    var birthDate: string
    var address: string
    var sex: string
    var errors: map<string, string>

    /** All fields empty, the sex `O`, no errors. */
    constructor ()
      ensures name == "" && cpf == "" && birthDate == "" && address == ""
      ensures sex == DEFAULT_SEX && errors == map[]
    {
      name, cpf, birthDate, address := "", "", "", "";
      sex := DEFAULT_SEX;
      errors := map[];
    }

    /** The CPF field's change handler. */
    method ChangeCpf(raw: string)
      modifies this
      ensures cpf == CpfInput(raw)
      ensures name == old(name) && birthDate == old(birthDate) && address == old(address)
      ensures sex == old(sex) && errors == old(errors)
    {
      var kept := if |raw| <= CPF_LENGTH then raw else raw[..CPF_LENGTH];
      cpf := Text.DigitsOnly(kept);
    }

    /** `handleSubmit`, followed by the post's callback. A failed check sets
        its one error, leaves the fields as they are and posts nothing.
        Otherwise the fields are posted; a saved patient is handed to
        `onCreated` when there is one, the modal is closed and the fields
        are reset, while validation errors from the server are shown. */
    method Submit(today: string, reply: Reply, hasOnCreated: bool)
      returns (posted: Option<Payload>, created: Option<TableData.Row>, closed: bool)
      modifies this
      ensures posted.Some? <==> Validate(old(cpf), old(birthDate), today) == map[]
      ensures posted.None? ==>
        && errors == Validate(old(cpf), old(birthDate), today)
        && name == old(name) && cpf == old(cpf) && birthDate == old(birthDate)
        && address == old(address) && sex == old(sex)
        && created.None? && !closed
      ensures posted.Some? ==> posted.value == Payload(old(name), old(cpf), old(birthDate), old(address), old(sex))
      ensures posted.Some? && reply.Saved? ==>
        && name == "" && cpf == "" && birthDate == "" && address == "" && sex == DEFAULT_SEX
        && errors == map[] && closed
        && created == (if hasOnCreated then Some(reply.newPatient) else None)
      ensures posted.Some? && reply.Invalid? ==>
        && errors == reply.errors && !closed && created.None?
        && name == old(name) && cpf == old(cpf) && birthDate == old(birthDate)
        && address == old(address) && sex == old(sex)
    {
      posted, created, closed := None, None, false;
      errors := map[];
      if !ValidCpf(cpf) {
        errors := map[CPF_KEY := CPF_ERROR];
        return;
      }
      if Later(birthDate, today) {
        errors := map[BIRTH_DATE_KEY := BIRTH_DATE_ERROR];
        return;
      }
      posted := Some(Payload(name, cpf, birthDate, address, sex));
      match reply
      case Saved(patient) =>
        if hasOnCreated {
          created := Some(patient);
        }
        closed := true;
        name, cpf, birthDate, address, sex := "", "", "", "", DEFAULT_SEX;
      case Invalid(serverErrors) =>
        errors := serverErrors;
    }
  }
}
