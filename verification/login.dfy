/** The demonstration login page (`src/pages/Login.tsx`): a role tab, a
    six-field form, required-field validation, fixed demo credentials per role
    and the session record written on success. */
module Login {
  import opened Records
  import opened Storage
  import opened Text

  datatype Field = SchoolId | PersonalId | FirstName | LastName | PhoneNumber | Password

  datatype LoginForm = LoginForm(
    schoolId: string,
    personalId: string,
    firstName: string,
    lastName: string,
    phoneNumber: string,
    password: string)

  function Get(form: LoginForm, f: Field): string {
    match f
    case SchoolId => form.schoolId
    case PersonalId => form.personalId
    case FirstName => form.firstName
    case LastName => form.lastName
    case PhoneNumber => form.phoneNumber
    case Password => form.password
  }

  /** `{ ...prev, [field]: value }`. */
  function Set(form: LoginForm, f: Field, value: string): (r: LoginForm)
    ensures Get(r, f) == value
    ensures forall g :: g != f ==> Get(r, g) == Get(form, g)
  {
    match f
    case SchoolId => form.(schoolId := value)
    case PersonalId => form.(personalId := value)
    case FirstName => form.(firstName := value)
    case LastName => form.(lastName := value)
    case PhoneNumber => form.(phoneNumber := value)
    case Password => form.(password := value)
  }

  /** The error messages shown under the fields, by field. */
  type Errors = map<Field, string>

  function Message(f: Field): string {
    match f
    case FirstName => "Le prénom est requis"
    case LastName => "Le nom est requis"
    case PhoneNumber => "Le numéro de téléphone est requis"
    case PersonalId => "L'ID personnel est requis"
    case SchoolId => "L'ID école est requis"
    case Password => "Le mot de passe est requis"
  }

  const DirectorRole := "director"
  const AdminRole := "admin"

  /** The four roles the tabs offer. */
  predicate IsRole(role: string) {
    role == AdminRole || role == DirectorRole || role == "teacher" || role == "student"
  }

  /** The fields a role must fill in: names and phone for a director, the
      personal id for anyone else, and the school id and password for all. */
  function RequiredFields(role: string): set<Field> {
    (if role == DirectorRole then {FirstName, LastName, PhoneNumber} else {PersonalId}) + {SchoolId, Password}
  }

  /*** validateForm ***/

  datatype Validation = Validation(errors: Errors, ok: bool)

  /** Records the field's message when its value is blank. */
  function AddIfBlank(errors: Errors, form: LoginForm, f: Field): Errors {
    if IsBlank(Get(form, f)) then errors[f := Message(f)] else errors
  }

  /** The error map `validateForm` builds, field by field in the source's order. */
  function ValidationErrors(role: string, form: LoginForm): (errors: Errors)
    ensures forall f :: f in errors ==> f in RequiredFields(role) && errors[f] == Message(f)
  {
    var roleErrors :=
      if role == DirectorRole then
        AddIfBlank(AddIfBlank(AddIfBlank(map[], form, FirstName), form, LastName), form, PhoneNumber)
      else
        AddIfBlank(map[], form, PersonalId);
    AddIfBlank(AddIfBlank(roleErrors, form, SchoolId), form, Password)
  }

  /** The error map holds a field exactly when the role requires it and it is blank. */
  lemma ValidationErrorsSpec(role: string, form: LoginForm)
    ensures forall f :: f in ValidationErrors(role, form) <==> f in RequiredFields(role) && IsBlank(Get(form, f))
    ensures forall f :: f in ValidationErrors(role, form) ==> ValidationErrors(role, form)[f] == Message(f)
  {
    var errors := ValidationErrors(role, form);
    forall f ensures f in errors <==> f in RequiredFields(role) && IsBlank(Get(form, f)) {
      match f
      case SchoolId =>
      case PersonalId =>
      case FirstName =>
      case LastName =>
      case PhoneNumber =>
      case Password =>
    }
  }

  /** `validateForm`: one error per required field that is blank after
      trimming, and success exactly when there is none. */
  function Validate(role: string, form: LoginForm): (v: Validation)
    ensures forall f :: f in v.errors <==> f in RequiredFields(role) && IsBlank(Get(form, f))
    ensures forall f :: f in v.errors ==> v.errors[f] == Message(f)
    ensures v.ok <==> v.errors == map[]
  {
    ValidationErrorsSpec(role, form);
    var errors := ValidationErrors(role, form);
    Validation(errors, errors == map[])
  }

  /** The form is accepted exactly when no required field is blank. */
  lemma ValidIffRequiredFilled(role: string, form: LoginForm)
    ensures Validate(role, form).ok <==> forall f :: f in RequiredFields(role) ==> !IsBlank(Get(form, f))
  {
    var v := Validate(role, form);
    if !v.ok {
      var f :| f in v.errors;
    }
  }

  /** A value made only of white space is reported as missing when required. */
  lemma WhiteSpaceOnlyIsMissing(role: string, form: LoginForm, f: Field)
    requires f in RequiredFields(role)
    requires forall i :: 0 <= i < |Get(form, f)| ==> IsWhiteSpace(Get(form, f)[i])
    ensures f in Validate(role, form).errors && !Validate(role, form).ok
  {
    BlankIffAllWhiteSpace(Get(form, f));
  }

  /** Validation reads only the fields the role requires. */
  lemma ValidateReadsRequired(role: string, a: LoginForm, b: LoginForm)
    requires forall g :: g in RequiredFields(role) ==> Get(a, g) == Get(b, g)
    ensures Validate(role, a) == Validate(role, b)
  {
    var ea := Validate(role, a).errors;
    var eb := Validate(role, b).errors;
    assert ea.Keys == eb.Keys;
    assert ea == eb;
  }

  /** Fields a role does not require never affect its validation. */
  lemma ValidateIgnoresUnrequired(role: string, form: LoginForm, f: Field, value: string)
    requires f !in RequiredFields(role)
    ensures Validate(role, Set(form, f, value)) == Validate(role, form)
  {
    ValidateReadsRequired(role, Set(form, f, value), form);
  }

  /*** handleInputChange ***/

  datatype FormState = FormState(form: LoginForm, errors: Errors)

  /** `handleInputChange`: sets the one field and blanks that field's error
      message, leaving every other field and message as it was. */
  function InputChange(s: FormState, f: Field, value: string): (r: FormState)
    ensures Get(r.form, f) == value
    ensures forall g :: g != f ==> Get(r.form, g) == Get(s.form, g)
    ensures r.errors.Keys == s.errors.Keys
    ensures f in s.errors ==> r.errors[f] == ""
    ensures forall g :: g in s.errors && g != f ==> r.errors[g] == s.errors[g]
  {
    var errors := if f in s.errors && s.errors[f] != "" then s.errors[f := ""] else s.errors;
    FormState(Set(s.form, f, value), errors)
  }

  /*** Demo credentials and handleLogin ***/

  /** The demo credential each role expects in each of its required fields. */
  function DemoValue(role: string, f: Field): string {
    if role == DirectorRole then
      match f
      case FirstName => "Marie"
      case LastName => "Dupont"
      case SchoolId => "EDU001"
      case PhoneNumber => "0123456789"
      case Password => "director2024"
      case PersonalId => ""
    else
      match f
      case PersonalId =>
        if role == AdminRole then "admin001" else if role == "teacher" then "TEACH001"
        else if role == "student" then "STUD001" else ""
      case SchoolId => "EDU001"
      case Password =>
        if role == AdminRole then "admin2024" else if role == "teacher" then "teacher2024"
        else if role == "student" then "student2024" else ""
      case _ => ""
  }

  /** The credential check of `handleLogin`: exact comparisons against the
      role's demo values; a role outside the four never passes. */
  predicate CredentialsValid(role: string, form: LoginForm)
    ensures CredentialsValid(role, form) ==> IsRole(role) && form.schoolId == "EDU001"
  {
    if role == AdminRole then
      form.personalId == "admin001" && form.schoolId == "EDU001" && form.password == "admin2024"
    else if role == DirectorRole then
      form.firstName == "Marie" && form.lastName == "Dupont" && form.schoolId == "EDU001"
      && form.phoneNumber == "0123456789" && form.password == "director2024"
    else if role == "teacher" then
      form.personalId == "TEACH001" && form.schoolId == "EDU001" && form.password == "teacher2024"
    else if role == "student" then
      form.personalId == "STUD001" && form.schoolId == "EDU001" && form.password == "student2024"
    else
      false
  }

  /** Credentials are valid exactly when the role is one of the four and every
      field it requires holds that role's demo value; the other fields are not compared. */
  lemma CredentialsIffDemoValues(role: string, form: LoginForm)
    ensures CredentialsValid(role, form) <==>
            IsRole(role) && forall f :: f in RequiredFields(role) ==> Get(form, f) == DemoValue(role, f)
  {
    if IsRole(role) && forall f :: f in RequiredFields(role) ==> Get(form, f) == DemoValue(role, f) {
      assert Get(form, SchoolId) == DemoValue(role, SchoolId);
      assert Get(form, Password) == DemoValue(role, Password);
      if role == DirectorRole {
        assert Get(form, FirstName) == DemoValue(role, FirstName);
        assert Get(form, LastName) == DemoValue(role, LastName);
        assert Get(form, PhoneNumber) == DemoValue(role, PhoneNumber);
      } else {
        assert Get(form, PersonalId) == DemoValue(role, PersonalId);
      }
    }
  }

  /** Every demo value a role requires starts with a visible character. */
  lemma DemoValueNotBlank(role: string, f: Field)
    requires IsRole(role) && f in RequiredFields(role)
    ensures !IsBlank(DemoValue(role, f))
  {
    var v := DemoValue(role, f);
    if role == DirectorRole {
      match f
      case FirstName => assert v == "Marie";
      case LastName => assert v == "Dupont";
      case SchoolId => assert v == "EDU001";
      case PhoneNumber => assert v == "0123456789";
      case Password => assert v == "director2024";
    } else {
      match f
      case PersonalId => assert v[0] in {'a', 'T', 'S'};
      case SchoolId => assert v == "EDU001";
      case Password => assert v[0] in {'a', 't', 's'};
    }
    NotBlank(v, 0);
  }

  /** Every demo value is non-blank, so valid credentials always pass validation. */
  lemma CredentialsPassValidation(role: string, form: LoginForm)
    ensures CredentialsValid(role, form) ==> Validate(role, form).ok
  {
    if CredentialsValid(role, form) {
      CredentialsIffDemoValues(role, form);
      forall f | f in RequiredFields(role) ensures !IsBlank(Get(form, f)) {
        DemoValueNotBlank(role, f);
      }
      ValidIffRequiredFilled(role, form);
    }
  }

  /** The name stored in the session record. */
  function SessionName(role: string, form: LoginForm): (name: string)
    ensures role == DirectorRole ==> name == Join([form.firstName, form.lastName], ' ')
    ensures role != DirectorRole ==> |name| == 12 + |role| && name[..12] == "Utilisateur " && name[12..] == role
  {
    if role == DirectorRole then form.firstName + " " + form.lastName else "Utilisateur " + role
  }

  /** Where a signed-in role is sent. */
  function RedirectFor(role: string): (path: string)
    ensures path == "/admin" <==> role == AdminRole
    ensures path in {"/admin", "/dashboard"}
  {
    if role == AdminRole then "/admin" else "/dashboard"
  }

  datatype LoginOutcome =
    | Invalid(errors: Errors)
    | WrongCredentials
    | SignedIn(user: SessionUser, store: Store, redirect: string)

  /** `handleLogin` after the simulated delay: validation first, then the
      credential check; on success the user record and the login flag are
      stored and the role decides the redirect. `loginTime` stands for the
      current ISO time. */
  function HandleLogin(role: string, form: LoginForm, store: Store, loginTime: string): (r: LoginOutcome)
    ensures r.Invalid? <==> !Validate(role, form).ok
    ensures r.Invalid? ==> r.errors == Validate(role, form).errors
    ensures r.SignedIn? <==> CredentialsValid(role, form)
    ensures r.SignedIn? ==> r.user == SessionUser(role, SessionName(role, form), form.schoolId, loginTime)
    ensures r.SignedIn? ==> r.store == store[UserKey := UserRecord(r.user)][LoggedInKey := Text("true")]
    ensures r.SignedIn? ==> (r.redirect == "/admin" <==> role == AdminRole)
    ensures r.SignedIn? ==> r.redirect in {"/admin", "/dashboard"}
  {
    CredentialsPassValidation(role, form);
    if !Validate(role, form).ok then
      Invalid(Validate(role, form).errors)
    else if CredentialsValid(role, form) then
      var user := SessionUser(role, SessionName(role, form), form.schoolId, loginTime);
      SignedIn(user, store[UserKey := UserRecord(user)][LoggedInKey := Text("true")], RedirectFor(role))
    else
      WrongCredentials
  }

  /*** fillDemoCredentials ***/

  /** `fillDemoCredentials`: writes the role's demo values into every field it
      requires and clears the others. An unknown role has no credentials to
      read (the source throws), which is `None`. */
  function FillDemo(role: string, form: LoginForm): (r: Option<LoginForm>)
    ensures r.Some? <==> IsRole(role)
    ensures r.Some? ==> forall f :: f in RequiredFields(role) ==> Get(r.value, f) == DemoValue(role, f)
    ensures r.Some? ==> forall f :: f !in RequiredFields(role) ==> Get(r.value, f) == ""
  {
    if role == DirectorRole then
      Some(form.(firstName := "Marie", lastName := "Dupont", schoolId := "EDU001",
                 phoneNumber := "0123456789", password := "director2024", personalId := ""))
    else if IsRole(role) then
      Some(form.(personalId := DemoValue(role, PersonalId), schoolId := "EDU001",
                 password := DemoValue(role, Password), firstName := "", lastName := "", phoneNumber := ""))
    else
      None
  }

  /** Filling in a role's demo credentials while on that role's tab always
      leads to a successful sign-in. */
  lemma FillDemoSignsIn(role: string, form: LoginForm, store: Store, loginTime: string)
    requires IsRole(role)
    ensures FillDemo(role, form).Some?
    ensures Validate(role, FillDemo(role, form).value).ok
    ensures CredentialsValid(role, FillDemo(role, form).value)
    ensures HandleLogin(role, FillDemo(role, form).value, store, loginTime).SignedIn?
  {
    var f := FillDemo(role, form).value;
    CredentialsIffDemoValues(role, f);
    CredentialsPassValidation(role, f);
  }
}
