/** `ProfileController`: `update` validates the submitted profile and then,
    in one database transaction, rewrites the user's name, e-mail and role,
    detaches the user's samples when a physician changes role, and upserts
    the license row of the new role's table; `edit` reads the license of the
    user's current role. Tables are maps keyed by their key column. */
module Profile {
  import opened Wrappers
  import Text

  // ---------------------------------------------------------------------
  // Validation

  /** A request field as it reaches the validator: absent (or null), a string or an integer. */
  datatype Input = Missing | Str(s: string) | Int(i: int)

  datatype Request = Request(name: Input, email: Input, cargoId: Input, licenseNumber: Input, licenseState: Input)

  datatype Field = Name | Email | CargoId | LicenseNumber | LicenseState

  /** The validated data. */
  datatype ProfileData = ProfileData(name: string, email: string, role: int, licenseNumber: string, licenseState: string)

  /** `required` and `string`: a string holding a character that PHP's
      `trim()` does not remove (`RequiredStringTrim`). */
  predicate RequiredString(v: Input) { v.Str? && exists i :: 0 <= i < |v.s| && !Text.PhpTrimChar(v.s[i]) }

  /** `required` rejects exactly the strings that `trim()` reduces to the empty string. */
  lemma RequiredStringTrim(v: Input)
    requires v.Str?
    ensures RequiredString(v) <==> Text.StripBy(v.s, Text.PhpTrimChar) != ""
  {
    Text.StripByEmpty(v.s, Text.PhpTrimChar);
  }

  /** `required|string|max:255`. */
  predicate NameOk(v: Input) { RequiredString(v) && |v.s| <= 255 }

  /** `required|email|max:255`, with the address syntax check given as `isEmail`. */
  predicate EmailOk(v: Input, isEmail: string -> bool) { RequiredString(v) && isEmail(v.s) && |v.s| <= 255 }

  /** `required|integer|in:1,2,3`: `integer` accepts what `FILTER_VALIDATE_INT`
      accepts, and `in` compares loosely, so a numeric string matches the code
      of the same value (`" 2"` and `"+2"` both select role 2). */
  predicate CargoOk(v: Input) {
    || (v.Int? && 1 <= v.i <= 3)
    || (v.Str? && Text.PhpFilterInt(v.s).Some? && 1 <= Text.PhpFilterInt(v.s).value <= 3)
  }

  /** `required|string|max:100`. */
  predicate LicenseNumberOk(v: Input) { RequiredString(v) && |v.s| <= 100 }

  /** `required|string|size:2`: exactly two characters, not both blank. */
  predicate LicenseStateOk(v: Input) { RequiredString(v) && |v.s| == 2 }

  /** The integer value of an accepted role. */
  function RoleOf(v: Input): int
    requires CargoOk(v)
  {
    if v.Int? then v.i else Text.PhpFilterInt(v.s).value
  }

  /** `$request->validate([...])`: every failing field is reported, and then nothing is written. */
  function Validate(req: Request, isEmail: string -> bool): (r: Result<ProfileData, set<Field>>)
    ensures r.Success? <==>
      NameOk(req.name) && EmailOk(req.email, isEmail) && CargoOk(req.cargoId)
      && LicenseNumberOk(req.licenseNumber) && LicenseStateOk(req.licenseState)
    ensures r.Failure? ==>
      && r.error != {}
      && (Name in r.error <==> !NameOk(req.name))
      && (Email in r.error <==> !EmailOk(req.email, isEmail))
      && (CargoId in r.error <==> !CargoOk(req.cargoId))
      && (LicenseNumber in r.error <==> !LicenseNumberOk(req.licenseNumber))
      && (LicenseState in r.error <==> !LicenseStateOk(req.licenseState))
    ensures r.Success? ==>
      && r.value.name == req.name.s && r.value.email == req.email.s
      && 1 <= r.value.role <= 3
      && (req.cargoId.Int? ==> r.value.role == req.cargoId.i)
      && (req.cargoId.Str? ==> Text.PhpFilterInt(req.cargoId.s) == Some(r.value.role))
    ensures r.Success? ==>
      && r.value.licenseNumber == req.licenseNumber.s && |r.value.licenseNumber| <= 100
      && r.value.licenseState == req.licenseState.s && |r.value.licenseState| == 2
  {
    var errors :=
      (if NameOk(req.name) then {} else {Name})
      + (if EmailOk(req.email, isEmail) then {} else {Email})
      + (if CargoOk(req.cargoId) then {} else {CargoId})
      + (if LicenseNumberOk(req.licenseNumber) then {} else {LicenseNumber})
      + (if LicenseStateOk(req.licenseState) then {} else {LicenseState});
    if errors == {} then
      Success(ProfileData(req.name.s, req.email.s, RoleOf(req.cargoId), req.licenseNumber.s, req.licenseState.s))
    else Failure(errors)
  }

  // ---------------------------------------------------------------------
  // The tables and the transaction's effect

  /** The USUARIO columns the profile touches; `role` is CARGO_ID_CARGO. */
  datatype User = User(name: string, email: string, role: Option<int>)

  /** A license row: its number and its issuing state. */
  datatype License = License(number: string, state: string)

  /** USUARIO by ID_USUARIO; MEDICO, BIOMEDICO and ENFERMEIRO by
      USUARIO_ID_USUARIO; AMOSTRA by ID_AMOSTRA, holding MEDICO_USUARIO_ID_USUARIO. */
  datatype Tables = Tables(
    users: map<int, User>,
    medico: map<int, License>,
    biomedico: map<int, License>,
    enfermeiro: map<int, License>,
    samples: map<int, Option<int>>)

  /** `$oldCargo == 1 && $data['cargo_id'] != 1`. */
  predicate LeavesPhysician(oldRole: Option<int>, newRole: int) {
    oldRole == Some(1) && newRole != 1
  }

  /** `UPDATE AMOSTRA SET MEDICO_USUARIO_ID_USUARIO = NULL WHERE MEDICO_USUARIO_ID_USUARIO = id`. */
  function Detached(samples: map<int, Option<int>>, id: int): (r: map<int, Option<int>>)
    ensures r.Keys == samples.Keys
    ensures forall s :: s in samples ==> r[s] == if samples[s] == Some(id) then None else samples[s]
  {
    map s | s in samples :: if samples[s] == Some(id) then None else samples[s]
  }

  /** The license row stored for the submitted number and state. */
  function LicenseOf(d: ProfileData): License {
    License(d.licenseNumber, Text.UpperAscii(d.licenseState))
  }

  /** The committed effect of `update` for user `id`. */
  function AfterUpdate(t: Tables, id: int, d: ProfileData): Tables
    requires id in t.users
  {
    var oldRole := t.users[id].role;
    var lic := LicenseOf(d);
    Tables(
      t.users[id := User(d.name, d.email, Some(d.role))],
      if d.role == 1 then t.medico[id := lic] else t.medico,
      if d.role == 2 then t.biomedico[id := lic] else t.biomedico,
      if d.role == 3 then t.enfermeiro[id := lic] else t.enfermeiro,
      if LeavesPhysician(oldRole, d.role) then Detached(t.samples, id) else t.samples)
  }

  /** The license table of a role code, if it has one. */
  function LicenseTable(t: Tables, role: int): Option<map<int, License>> {
    if role == 1 then Some(t.medico)
    else if role == 2 then Some(t.biomedico)
    else if role == 3 then Some(t.enfermeiro)
    else None
  }

  /** The user row holds the validated name, e-mail and role; no other user changes. */
  lemma AfterUpdateUser(t: Tables, id: int, d: ProfileData)
    requires id in t.users
    ensures var u := AfterUpdate(t, id, d).users;
      && u.Keys == t.users.Keys
      && u[id] == User(d.name, d.email, Some(d.role))
      && forall k :: k in t.users && k != id ==> u[k] == t.users[k]
  {
  }

  /** A sample loses its physician exactly when it was attributed to this user
      and the user leaves the physician role; no sample is added or removed. */
  lemma AfterUpdateSamples(t: Tables, id: int, d: ProfileData, s: int)
    requires id in t.users && s in t.samples
    ensures var after := AfterUpdate(t, id, d).samples;
      && after.Keys == t.samples.Keys
      && (after[s] != t.samples[s] <==> LeavesPhysician(t.users[id].role, d.role) && t.samples[s] == Some(id))
      && (after[s] != t.samples[s] ==> after[s] == None)
  {
  }

  /** The new role's table holds one row for the user, with the submitted
      number and the state in upper case; every other row of every license
      table is as before, and no row is deleted. */
  lemma AfterUpdateLicenses(t: Tables, id: int, d: ProfileData)
    requires id in t.users && 1 <= d.role <= 3
    ensures var a := AfterUpdate(t, id, d);
      && LicenseTable(a, d.role).value[id] == License(d.licenseNumber, Text.UpperAscii(d.licenseState))
      && (forall r :: 1 <= r <= 3 ==>
            LicenseTable(a, r).value.Keys == LicenseTable(t, r).value.Keys + (if r == d.role then {id} else {})
            && forall k :: k in LicenseTable(t, r).value && (k != id || r != d.role) ==>
                 LicenseTable(a, r).value[k] == LicenseTable(t, r).value[k])
  {
  }

  /** The role may arrive as its digit padded with white space. */
  lemma CargoAcceptsPadded(w1: string, c: char, w2: string)
    requires forall i :: 0 <= i < |w1| ==> Text.PhpFilterSpace(w1[i])
    requires forall i :: 0 <= i < |w2| ==> Text.PhpFilterSpace(w2[i])
    requires '1' <= c <= '3'
    ensures CargoOk(Str(w1 + [c] + w2)) && RoleOf(Str(w1 + [c] + w2)) == (c as int) - ('0' as int)
  {
    var v := (c as int) - ('0' as int);
    assert [c][..0] == [];
    assert Text.ParseDigits([c]) == v;
    Text.PhpFilterIntIgnoresPadding(w1, [c], w2);
    Text.PhpFilterIntDigits([c], v);
    CargoOfFilter(w1 + [c] + w2, v);
  }

  /** The role may arrive as its digit after a plus sign, padded with white space. */
  lemma CargoAcceptsSigned(w1: string, c: char, w2: string)
    requires forall i :: 0 <= i < |w1| ==> Text.PhpFilterSpace(w1[i])
    requires forall i :: 0 <= i < |w2| ==> Text.PhpFilterSpace(w2[i])
    requires '1' <= c <= '3'
    ensures CargoOk(Str(w1 + ['+', c] + w2)) && RoleOf(Str(w1 + ['+', c] + w2)) == (c as int) - ('0' as int)
  {
    var v := (c as int) - ('0' as int);
    assert [c][..0] == [];
    assert Text.ParseDigits([c]) == v;
    assert "+" + [c] == ['+', c];
    Text.PhpFilterIntIgnoresPadding(w1, ['+', c], w2);
    Text.PhpFilterIntPlus([c], v);
    CargoOfFilter(w1 + ['+', c] + w2, v);
  }

  /** A string the filter reads as 1, 2 or 3 is accepted as that role. */
  lemma CargoOfFilter(s: string, v: int)
    requires Text.PhpFilterInt(s) == Some(v) && 1 <= v <= 3
    ensures CargoOk(Str(s)) && RoleOf(Str(s)) == v
  {
  }

  /** A number written with a leading zero ("02") is refused. */
  lemma CargoRefusesLeadingZero(d: string)
    requires d != [] && Text.AllDigits(d)
    ensures !CargoOk(Str("0" + d))
  {
    var s := "0" + d;
    assert s[|s| - 1] == d[|d| - 1];
    assert !Text.PhpFilterSpace(s[0]) && !Text.PhpFilterSpace(s[|s| - 1]);
    assert Text.StripBy(s, Text.PhpFilterSpace) == s;
  }

  /** Anything but digits after an optional sign ("2.0", "2a") is refused. */
  lemma CargoRefusesNonDigit(s: string, i: int)
    requires 0 < i < |s| && !Text.IsDigit(s[i])
    requires !Text.PhpFilterSpace(s[0]) && !Text.PhpFilterSpace(s[|s| - 1])
    ensures !CargoOk(Str(s))
  {
    assert Text.StripBy(s, Text.PhpFilterSpace) == s;
    if s[0] == '-' || s[0] == '+' {
      assert s[1..][i - 1] == s[i];
    }
  }

  /** Blank input, the empty string included, is refused. */
  lemma CargoRefusesBlank(w: string)
    requires forall i :: 0 <= i < |w| ==> Text.PhpFilterSpace(w[i])
    ensures !CargoOk(Str(w))
  {
    Text.StripByEmpty(w, Text.PhpFilterSpace);
  }

  /** Any other code ("4", "0") is refused. */
  lemma CargoRefusesOtherCodes(d: string, v: nat)
    requires |d| >= 1 && Text.AllDigits(d) && Text.ParseDigits(d) == v && v <= Text.PHP_INT_MAX
    requires d[0] != '0' || d == "0"
    requires !(1 <= v <= 3)
    ensures !CargoOk(Str(d))
  {
    Text.PhpFilterIntDigits(d, v);
  }

  /** A name or state made of blanks only is missing. */
  lemma BlankIsMissing()
    ensures !NameOk(Str("  ")) && !LicenseStateOk(Str("  ")) && LicenseStateOk(Str("sp"))
  {
    assert !Text.PhpTrimChar("sp"[0]);
  }

  /** Saving the same profile again changes nothing more (the upsert and the detach are idempotent). */
  lemma AfterUpdateIdempotent(t: Tables, id: int, d: ProfileData)
    requires id in t.users
    ensures AfterUpdate(AfterUpdate(t, id, d), id, d) == AfterUpdate(t, id, d)
  {
    var a := AfterUpdate(t, id, d);
    assert !LeavesPhysician(a.users[id].role, d.role);
    var lic := LicenseOf(d);
    assert a.users[id := User(d.name, d.email, Some(d.role))] == a.users;
    assert d.role == 1 ==> a.medico[id := lic] == a.medico;
    assert d.role == 2 ==> a.biomedico[id := lic] == a.biomedico;
    assert d.role == 3 ==> a.enfermeiro[id := lic] == a.enfermeiro;
  }

  /** A physician who becomes a nurse keeps the MEDICO row: `update` issues no delete. */
  lemma RoleSwitchKeepsOldLicense(t: Tables, id: int, d: ProfileData)
    requires id in t.users && t.users[id].role == Some(1) && id in t.medico && d.role == 3
    ensures var a := AfterUpdate(t, id, d);
      id in a.medico && a.medico[id] == t.medico[id] && id in a.enfermeiro
  {
  }

  // ---------------------------------------------------------------------
  // edit

  /** `edit`'s `license_number` and `license_state`: the row of the table
      that `(int) CARGO_ID_CARGO` selects, or null for any other role, a
      missing role (cast to 0) or a missing row. */
  function EditLicense(t: Tables, id: int): (r: (Option<string>, Option<string>))
    requires id in t.users
    ensures r.0.Some? <==> r.1.Some?
    ensures r.0.Some? <==> exists tbl :: LicenseTable(t, t.users[id].role.GetOr(0)) == Some(tbl) && id in tbl
    ensures r.0.Some? ==>
      var tbl := LicenseTable(t, t.users[id].role.GetOr(0)).value;
      r == (Some(tbl[id].number), Some(tbl[id].state))
  {
    match LicenseTable(t, t.users[id].role.GetOr(0))
    case Some(tbl) => if id in tbl then (Some(tbl[id].number), Some(tbl[id].state)) else (None, None)
    case None => (None, None)
  }

  /** After a committed update the profile form is shown the license just saved. */
  lemma EditAfterUpdate(t: Tables, id: int, d: ProfileData)
    requires id in t.users && 1 <= d.role <= 3
    ensures EditLicense(AfterUpdate(t, id, d), id) == (Some(d.licenseNumber), Some(Text.UpperAscii(d.licenseState)))
  {
  }

  // ---------------------------------------------------------------------
  // The transaction

  /** The statements of the transaction, any of which the database may reject. */
  datatype Statement = SaveUser | DetachSamples | UpsertLicense

  datatype Outcome = Invalid(errors: set<Field>) | Saved | RolledBack

  class Database {
    var users: map<int, User>
    var medico: map<int, License>
    var biomedico: map<int, License>
    var enfermeiro: map<int, License>
    var samples: map<int, Option<int>>

    function Snapshot(): Tables
      reads this
    {
      Tables(users, medico, biomedico, enfermeiro, samples)
    }

    constructor (t: Tables)
      ensures Snapshot() == t
    {
      users, medico, biomedico, enfermeiro, samples := t.users, t.medico, t.biomedico, t.enfermeiro, t.samples;
    }

    /** ROLLBACK: every table as it was at BEGIN. */
    method Restore(t: Tables)
      modifies this
      ensures Snapshot() == t
    {
      users, medico, biomedico, enfermeiro, samples := t.users, t.medico, t.biomedico, t.enfermeiro, t.samples;
    }

    /** `update` for the signed-in user `id`. The statements in `rejected`
        fail when they run; a failure rolls every earlier write back. */
    method Update(id: int, req: Request, isEmail: string -> bool, rejected: set<Statement>) returns (outcome: Outcome)
      requires id in users
      modifies this
      ensures Validate(req, isEmail).Failure? ==> outcome == Invalid(Validate(req, isEmail).error) && Snapshot() == old(Snapshot())
      ensures Validate(req, isEmail).Success? ==> outcome != Invalid({}) && outcome.Saved? != outcome.RolledBack?
      ensures outcome.Saved? ==> Snapshot() == AfterUpdate(old(Snapshot()), id, Validate(req, isEmail).value)
      ensures outcome.RolledBack? ==> Snapshot() == old(Snapshot())
      ensures Validate(req, isEmail).Success? ==>
        (outcome.Saved? <==>
          var d := Validate(req, isEmail).value;
          && SaveUser !in rejected && UpsertLicense !in rejected
          && (LeavesPhysician(old(users[id].role), d.role) ==> DetachSamples !in rejected))
    {
      var v := Validate(req, isEmail);
      if v.Failure? {
        return Invalid(v.error);
      }
      var d := v.value;
      var before := Snapshot();
      var oldRole := users[id].role;
      if SaveUser in rejected {
        return RolledBack;
      }
      users := users[id := User(d.name, d.email, Some(d.role))];
      if LeavesPhysician(oldRole, d.role) {
        if DetachSamples in rejected {
          Restore(before);
          return RolledBack;
        }
        samples := Detached(samples, id);
      }
      if UpsertLicense in rejected {
        Restore(before);
        return RolledBack;
      }
      var lic := LicenseOf(d);
      if d.role == 1 {
        medico := medico[id := lic];
      } else if d.role == 2 {
        biomedico := biomedico[id := lic];
      } else if d.role == 3 {
        enfermeiro := enfermeiro[id := lic];
      }
      outcome := Saved;
    }
  }
}
