/**
  The input validation of `POST /signup`: every field is trimmed, then a fixed
  sequence of checks runs and the first one that fails decides the answer.
  Validation touches no table; the handler consults the tables only once it
  has accepted the form.
*/
module SignupValidation {
  import opened Wrappers
  import opened JsString
  import opened EmailPattern

  /** The body of a signup request, field names as in the request. */
  datatype SignupForm = SignupForm(
    nombre: string, apellido: string, birthday: string, email: string, password: string)

  /** The checks of the signup form. */
  datatype Check = AllFilled | NameValid | SurnameValid | BirthdayValid | EmailValid | PasswordLongEnough

  /** The order in which the handler applies the checks. */
  const CheckOrder: seq<Check> :=
    [AllFilled, NameValid, SurnameValid, BirthdayValid, EmailValid, PasswordLongEnough]

  datatype Checked = Accepted(form: SignupForm) | Rejected(failed: Check)

  /** The FAILED message the handler sends when check `c` is the first to fail. */
  function RejectionMessage(c: Check): string {
    match c
    case AllFilled => "No se han llenado todos los campos"
    case NameValid => "Nombre introducido no válido"
    case SurnameValid => "Apellido introducido no válido"
    case BirthdayValid => "La fecha de nacimiento introducida no es válida"
    case EmailValid => "Correo electrónico introducido no válido"
    case PasswordLongEnough => "La contraseña introducida es muy corta"
  }

  /** Each check has its own message, so the answer tells which check failed. */
  lemma RejectionMessagesDistinct(c1: Check, c2: Check)
    ensures RejectionMessage(c1) == RejectionMessage(c2) <==> c1 == c2
  {
  }

  function Trimmed(f: SignupForm): SignupForm {
    SignupForm(Trim(f.nombre), Trim(f.apellido), Trim(f.birthday), Trim(f.email), Trim(f.password))
  }

  /** `[a-zA-Z ]` */
  predicate IsNameChar(c: char) {
    ('a' <= c <= 'z') || ('A' <= c <= 'Z') || c == ' '
  }

  /** `^[a-zA-Z ]*$` matches `s` */
  predicate IsName(s: string) {
    forall i :: 0 <= i < |s| ==> IsNameChar(s[i])
  }

  /**
    The birthday passes when `new Date(b).getTime()` is truthy: the string
    parses (`parseDate` gives the milliseconds since the epoch, `None` for NaN)
    and the instant is not 0, which JavaScript also treats as false.
  */
  predicate BirthdayAccepted(b: string, parseDate: string -> Option<int>) {
    parseDate(b).Some? && parseDate(b).value != 0
  }

  /** Whether check `c` passes on the trimmed form `f`. */
  predicate Passes(c: Check, f: SignupForm, parseDate: string -> Option<int>) {
    match c
    case AllFilled =>
      f.nombre != "" && f.apellido != "" && f.birthday != "" && f.email != "" && f.password != ""
    case NameValid => IsName(f.nombre)
    case SurnameValid => IsName(f.apellido)
    case BirthdayValid => BirthdayAccepted(f.birthday, parseDate)
    case EmailValid => MatchesEmailPattern(f.email)
    case PasswordLongEnough => Utf16Length(f.password) >= 8
  }

  /** Where `c` stands in `CheckOrder`. */
  function Position(c: Check): (i: nat)
    ensures i < |CheckOrder| && CheckOrder[i] == c
  {
    match c
    case AllFilled => 0
    case NameValid => 1
    case SurnameValid => 2
    case BirthdayValid => 3
    case EmailValid => 4
    case PasswordLongEnough => 5
  }

  /**
    Lines 49-86 of the handler: trim, then the chain of checks. The result is
    the trimmed form when every check passes; otherwise it names a check that
    fails such that every check before it in `CheckOrder` passes.
  */
  function Validate(form: SignupForm, parseDate: string -> Option<int>): (r: Checked)
    ensures r.Accepted? <==> forall c :: Passes(c, Trimmed(form), parseDate)
    ensures r.Accepted? ==> r.form == Trimmed(form)
    ensures r.Rejected? ==> !Passes(r.failed, Trimmed(form), parseDate)
    ensures r.Rejected? ==>
      forall k :: 0 <= k < Position(r.failed) ==> Passes(CheckOrder[k], Trimmed(form), parseDate)
  {
    CheckTrimmed(Trimmed(form), parseDate)
  }

  /** The chain of checks of lines 56-86, applied to the already trimmed fields. */
  function CheckTrimmed(f: SignupForm, parseDate: string -> Option<int>): (r: Checked)
    ensures r.Accepted? <==> forall c :: Passes(c, f, parseDate)
    ensures r.Accepted? ==> r.form == f
    ensures r.Rejected? ==> !Passes(r.failed, f, parseDate)
    ensures r.Rejected? ==>
      forall k :: 0 <= k < Position(r.failed) ==> Passes(CheckOrder[k], f, parseDate)
  {
    if f.nombre == "" || f.apellido == "" || f.birthday == "" || f.email == "" || f.password == "" then
      assert !Passes(AllFilled, f, parseDate);
      Rejected(AllFilled)
    else if !IsName(f.nombre) then
      assert !Passes(NameValid, f, parseDate);
      Rejected(NameValid)
    else if !IsName(f.apellido) then
      assert !Passes(SurnameValid, f, parseDate);
      Rejected(SurnameValid)
    else if !BirthdayAccepted(f.birthday, parseDate) then
      assert !Passes(BirthdayValid, f, parseDate);
      Rejected(BirthdayValid)
    else if !IsEmail(f.email) then
      assert !Passes(EmailValid, f, parseDate);
      Rejected(EmailValid)
    else if Utf16Length(f.password) < 8 then
      assert !Passes(PasswordLongEnough, f, parseDate);
      Rejected(PasswordLongEnough)
    else
      assert forall c :: Passes(c, f, parseDate) by {
        forall c ensures Passes(c, f, parseDate) { assert Position(c) < 6; }
      }
      Accepted(f)
  }

  /** A field that is empty or all white space makes the form fail the first check. */
  lemma BlankFieldRejected(form: SignupForm, parseDate: string -> Option<int>)
    requires AllWhitespace(form.nombre) || AllWhitespace(form.apellido) || AllWhitespace(form.birthday)
          || AllWhitespace(form.email) || AllWhitespace(form.password)
    ensures Validate(form, parseDate) == Rejected(AllFilled)
  {
    TrimBlank(form.nombre);
    TrimBlank(form.apellido);
    TrimBlank(form.birthday);
    TrimBlank(form.email);
    TrimBlank(form.password);
  }

  /** What an accepted form is known to satisfy, field by field. */
  lemma AcceptedForm(form: SignupForm, parseDate: string -> Option<int>)
    requires Validate(form, parseDate).Accepted?
    ensures var f := Validate(form, parseDate).form;
      && f == Trimmed(form)
      && f.nombre != "" && IsName(f.nombre) && f.apellido != "" && IsName(f.apellido)
      && BirthdayAccepted(f.birthday, parseDate)
      && MatchesEmailPattern(f.email)
      && Utf16Length(f.password) >= 8 && |f.password| >= 4
  {
    var f := Trimmed(form);
    assert Passes(AllFilled, f, parseDate);
    assert Passes(NameValid, f, parseDate);
    assert Passes(SurnameValid, f, parseDate);
    assert Passes(BirthdayValid, f, parseDate);
    assert Passes(EmailValid, f, parseDate);
    assert Passes(PasswordLongEnough, f, parseDate);
  }
}
