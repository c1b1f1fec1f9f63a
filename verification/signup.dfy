/**
 * Student sign-up form: field edits, the ordered client-side checks run before the
 * registration request, and what the page does with the server's answer.
 */
module Signup {
  import opened Text
  import opened Options

  datatype Form = Form(
    regNo: string,
    fullName: string,
    phoneNumber: string,
    email: string,
    password: string,
    confirmPassword: string,
    studyingYear: string,
    preferredRoute: string)

  const EmptyForm: Form := Form("", "", "", "", "", "", "", "")

  datatype Field = RegNo | FullName | PhoneNumber | Email | Password | ConfirmPassword | StudyingYear | PreferredRoute

  /** The page: the form, and the error and success lines (empty when not shown). */
  datatype Page = Page(form: Form, error: string, success: string)

  /** The minimum password length, in UTF-16 code units. */
  const MinPasswordLength: nat := 6

  /** The client-side checks, in the order they run. */
  datatype Problem = PasswordMismatch | PasswordTooShort | YearMissing | RouteMissing {
    function Message(): string {
      match this
      case PasswordMismatch => "Passwords do not match"
      case PasswordTooShort => "Password must be at least 6 characters long"
      case YearMissing => "Please select your studying year"
      case RouteMissing => "Please select your preferred route"
    }
  }

  /** The body of the registration request: every field but the confirmation. */
  datatype Registration = Registration(
    regNo: string,
    fullName: string,
    phoneNumber: string,
    email: string,
    password: string,
    studyingYear: string,
    preferredRoute: string)

  /** How the server answered: accepted, refused (with its message, possibly empty),
      or unreachable. */
  datatype Reply = Accepted | Refused(message: string) | Unreachable

  const SuccessMessage: string := "Registration submitted successfully! Please wait for admin approval."
  const RefusedFallback: string := "Registration failed. Please try again."
  const UnreachableMessage: string := "Failed to connect to server. Please try again."

  function Get(f: Form, field: Field): string {
    match field
    case RegNo => f.regNo
    case FullName => f.fullName
    case PhoneNumber => f.phoneNumber
    case Email => f.email
    case Password => f.password
    case ConfirmPassword => f.confirmPassword
    case StudyingYear => f.studyingYear
    case PreferredRoute => f.preferredRoute
  }

  function Set(f: Form, field: Field, v: string): Form {
    match field
    case RegNo => f.(regNo := v)
    case FullName => f.(fullName := v)
    case PhoneNumber => f.(phoneNumber := v)
    case Email => f.(email := v)
    case Password => f.(password := v)
    case ConfirmPassword => f.(confirmPassword := v)
    case StudyingYear => f.(studyingYear := v)
    case PreferredRoute => f.(preferredRoute := v)
  }

  /** `handleChange`: the edited field takes the new value, every other field keeps its
      value, and both message lines are cleared. */
  function Edit(p: Page, field: Field, v: string): (r: Page)
    ensures Get(r.form, field) == v
    ensures forall g :: g != field ==> Get(r.form, g) == Get(p.form, g)
    ensures r.error == "" && r.success == ""
  {
    Page(Set(p.form, field, v), "", "")
  }

  /** The first failing check, if any. */
  function Check(f: Form): (r: Option<Problem>)
    ensures r == Some(PasswordMismatch) <==> f.password != f.confirmPassword
    ensures r == Some(PasswordTooShort) <==>
      f.password == f.confirmPassword && Utf16Length(f.password) < MinPasswordLength
    ensures r == Some(YearMissing) <==>
      f.password == f.confirmPassword && Utf16Length(f.password) >= MinPasswordLength
      && f.studyingYear == ""
    ensures r == Some(RouteMissing) <==>
      f.password == f.confirmPassword && Utf16Length(f.password) >= MinPasswordLength
      && f.studyingYear != "" && f.preferredRoute == ""
    ensures r == None <==>
      f.password == f.confirmPassword && Utf16Length(f.password) >= MinPasswordLength
      && f.studyingYear != "" && f.preferredRoute != ""
  {
    if f.password != f.confirmPassword then Some(PasswordMismatch)
    else if Utf16Length(f.password) < MinPasswordLength then Some(PasswordTooShort)
    else if f.studyingYear == "" then Some(YearMissing)
    else if f.preferredRoute == "" then Some(RouteMissing)
    else None
  }

  /** `handleSubmit`. A failing check sets its message and sends nothing. Otherwise the
      registration is sent; on acceptance the success line is shown and the form is
      emptied, on refusal or when the server is unreachable the form is kept and an
      error is shown. */
  function Submit(p: Page, reply: Reply): (r: (Page, Option<Registration>))
    ensures Check(p.form).Some? ==>
      r.1 == None && r.0 == Page(p.form, Check(p.form).value.Message(), "")
    ensures Check(p.form).None? ==> r.1.Some?
    ensures r.1.Some? && reply == Accepted ==> r.0 == Page(EmptyForm, "", SuccessMessage)
    ensures r.1.Some? && reply != Accepted ==> r.0.form == p.form && r.0.error != "" && r.0.success == ""
    ensures r.1.Some? && reply.Refused? && reply.message != "" ==> r.0.error == reply.message
    ensures r.1.Some? && reply.Refused? && reply.message == "" ==> r.0.error == RefusedFallback
    ensures r.1.Some? && reply == Unreachable ==> r.0.error == UnreachableMessage
  {
    match Check(p.form)
    case Some(problem) => (Page(p.form, problem.Message(), ""), None)
    case None =>
      var f := p.form;
      var request := Registration(f.regNo, f.fullName, f.phoneNumber, f.email, f.password,
                                  f.studyingYear, f.preferredRoute);
      var next := match reply
        case Accepted => Page(EmptyForm, "", SuccessMessage)
        case Refused(m) => Page(f, if m != "" then m else RefusedFallback, "")
        case Unreachable => Page(f, UnreachableMessage, "");
      (next, Some(request))
  }

  /** Mismatched passwords are reported as a mismatch even when they are also too short. */
  lemma MismatchBeforeLength(f: Form)
    requires f.password != f.confirmPassword
    requires Utf16Length(f.password) < MinPasswordLength && Utf16Length(f.confirmPassword) < MinPasswordLength
    ensures Check(f) == Some(PasswordMismatch)
  {
  }

  /** The length boundary: six matching characters pass the length check, five do not;
      three characters outside the Basic Multilingual Plane (six UTF-16 units) pass too. */
  lemma {:induction false} LengthBoundary(f: Form)
    requires f.password == f.confirmPassword
    ensures InBmp(f.password) && |f.password| == 6 ==> Check(f) != Some(PasswordTooShort)
    ensures InBmp(f.password) && |f.password| == 5 ==> Check(f) == Some(PasswordTooShort)
    ensures |f.password| == 3 && (forall i :: 0 <= i < 3 ==> f.password[i] as int > 0xFFFF) ==>
      Check(f) != Some(PasswordTooShort)
  {
    if InBmp(f.password) {
      Utf16LengthBmp(f.password);
    }
    var s := f.password;
    if |s| == 3 && (forall i :: 0 <= i < 3 ==> s[i] as int > 0xFFFF) {
      assert s[1..][1..] == s[2..] && s[2..][1..] == [];
      assert s[2..][0] == s[2] && s[1..][0] == s[1];
      assert Utf16Length(s[2..]) == 2;
      assert Utf16Length(s[1..]) == 4;
    }
  }

  /** A submit that fails a check changes nothing but the message lines and sends
      nothing; a form that passes every check is sent exactly as typed. */
  lemma SubmitSendsOnlyValidForms(p: Page, reply: Reply)
    ensures Submit(p, reply).1.Some? <==> Check(p.form).None?
    ensures Submit(p, reply).1.Some? ==>
      var f := p.form;
      Submit(p, reply).1.value == Registration(f.regNo, f.fullName, f.phoneNumber, f.email,
                                                f.password, f.studyingYear, f.preferredRoute)
  {
  }

  /** After an accepted registration every field reads empty. */
  lemma ResetOnSuccess(p: Page, g: Field)
    requires Check(p.form).None?
    ensures Get(Submit(p, Accepted).0.form, g) == ""
  {
  }
}
