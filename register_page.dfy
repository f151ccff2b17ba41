/**
  A model of the registration form of the healthcare web client
  (frontend/src/pages/RegisterPage.jsx): the per-field validator, the change
  handler that updates the form fields and the error map, the two local guards
  of the submit handler with the role-dependent payload it builds, the
  submit-button predicate, and the choice of landing route after registration.

  The form fields are a map from field name to string, as the component's state
  object is; the error map is a map from field name to message, where "" means
  "no error".
 */
module RegisterPage {

  datatype Option<T> = None | Some(value: T)

  // ---------------------------------------------------------------------------
  // Roles (the options of the role select)
  // ---------------------------------------------------------------------------

  datatype Role = Patient | Doctor | Nurse | Technician

  /** The option value the role select submits for each role. */
  function RoleName(r: Role): (s: string)
    ensures ParseRole(s) == Some(r)
  {
    match r
    case Patient => "patient"
    case Doctor => "doctor"
    case Nurse => "nurse"
    case Technician => "technician"
  }

  /** The values the role select offers. */
  const RoleOptions: set<string> := {"patient", "doctor", "nurse", "technician"}

  /** Reads a role back from the string held in the form. */
  function ParseRole(s: string): (r: Option<Role>)
    ensures r.Some? <==> s in RoleOptions
  {
    if s == "patient" then Some(Patient)
    else if s == "doctor" then Some(Doctor)
    else if s == "nurse" then Some(Nurse)
    else if s == "technician" then Some(Technician)
    else None
  }

  /** A string that reads as a role is that role's option value. */
  lemma ParseRoleName(s: string)
    ensures ParseRole(s).Some? ==> RoleName(ParseRole(s).value) == s
  {
  }

  /** Doctors and nurses fill in the professional block of the form. */
  predicate IsProfessional(role: string)
    ensures IsProfessional(role) <==> ParseRole(role) == Some(Doctor) || ParseRole(role) == Some(Nurse)
  {
    role == "doctor" || role == "nurse"
  }

  lemma IsProfessionalRole(r: Role)
    ensures IsProfessional(RoleName(r)) <==> (r == Doctor || r == Nurse)
  {
  }

  // ---------------------------------------------------------------------------
  // Field names, messages and the initial state
  // ---------------------------------------------------------------------------

  const MinPasswordLength := 6
  const ShortPasswordMessage := "Password must be at least 6 characters."
  const MismatchMessage := "Passwords do not match."

  /** The UTF-16 code units a character takes: two outside the Basic Multilingual Plane. */
  function CodeUnits(c: char): nat
  {
    if c as int < 0x1_0000 then 1 else 2
  }

  /**
    The length JavaScript reports for a string, which counts UTF-16 code units
    rather than characters.
   */
  function Utf16Length(s: string): (n: nat)
    ensures |s| <= n <= 2 * |s|
    ensures (forall i | 0 <= i < |s| :: s[i] as int < 0x1_0000) ==> n == |s|
    ensures (forall i | 0 <= i < |s| :: s[i] as int >= 0x1_0000) ==> n == 2 * |s|
  {
    if s == [] then 0 else CodeUnits(s[0]) + Utf16Length(s[1..])
  }

  /**
    The eleven fields of the form, one per input name: name, email, password,
    confirmPassword, role, specialty, city, experience, licenseNumber, govId
    and certificationId.
   */
  datatype Field =
    | Name | Email | Password | ConfirmPassword | UserRole
    | Specialty | City | Experience | LicenseNumber | GovId | CertificationId

  /** Sent for every role. */
  const BaseFields: set<Field> := {Name, Email, Password, UserRole}
  /** Sent for doctors and nurses only. */
  const ProfessionalFields: set<Field> := {Specialty, City, Experience, LicenseNumber, GovId}

  /** The form always holds a value for each of its eleven fields. */
  ghost predicate WellFormed(formData: map<Field, string>)
  {
    && Name in formData && Email in formData && Password in formData
    && ConfirmPassword in formData && UserRole in formData && Specialty in formData
    && City in formData && Experience in formData && LicenseNumber in formData
    && GovId in formData && CertificationId in formData
  }

  /** The state of the form: field values and the error map. */
  datatype Form = Form(formData: map<Field, string>, errors: map<Field, string>)

  function InitialFormData(): (d: map<Field, string>)
    ensures WellFormed(d)
    ensures d[UserRole] == RoleName(Patient)
    ensures forall k | k in d && k != UserRole :: d[k] == ""
  {
    map[Name := "", Email := "", Password := "", ConfirmPassword := "",
        UserRole := "patient", Specialty := "", City := "", Experience := "",
        LicenseNumber := "", GovId := "", CertificationId := ""]
  }

  function InitialForm(): Form
  {
    Form(InitialFormData(), map[])
  }

  // ---------------------------------------------------------------------------
  // Field validator
  // ---------------------------------------------------------------------------

  /** What a field's value must satisfy for the validator to report no error. */
  ghost predicate FieldAccepted(name: Field, value: string, allFormData: map<Field, string>)
  {
    && (name == Password || name == ConfirmPassword ==> Utf16Length(value) >= MinPasswordLength)
    && (name == ConfirmPassword ==> Password in allFormData && allFormData[Password] == value)
  }

  /**
    The error message for `value` typed into field `name`, given the form state
    `allFormData`. The length rule is checked before the mismatch rule. A form
    without a password entry compares the confirmation with an undefined value,
    which never matches.
   */
  function ValidateField(name: Field, value: string, allFormData: map<Field, string>): (r: string)
    ensures r == "" <==> FieldAccepted(name, value, allFormData)
    ensures name != Password && name != ConfirmPassword ==> r == ""
    ensures name == Password ==> (r == ShortPasswordMessage <==> Utf16Length(value) < MinPasswordLength)
    ensures name == ConfirmPassword && Utf16Length(value) < MinPasswordLength ==> r == ShortPasswordMessage
    ensures name == ConfirmPassword && Utf16Length(value) >= MinPasswordLength ==>
              (r == MismatchMessage <==> !(Password in allFormData && allFormData[Password] == value))
    ensures r == "" || r == ShortPasswordMessage || r == MismatchMessage
  {
    if name == Password then
      if Utf16Length(value) < MinPasswordLength then ShortPasswordMessage else ""
    else if name == ConfirmPassword then
      if Utf16Length(value) < MinPasswordLength then ShortPasswordMessage
      else if Password !in allFormData || allFormData[Password] != value then MismatchMessage
      else ""
    else ""
  }

  /**
    Lengths are counted as the browser counts them: three emoji take six code
    units, so a password of three emoji is long enough.
   */
  lemma SupplementaryCharactersCountTwice(allFormData: map<Field, string>)
    ensures var p := "\U{1F600}\U{1F600}\U{1F600}";
            && |p| == 3 && Utf16Length(p) == 6
            && ValidateField(Password, p, allFormData) == ""
  {
  }

  // ---------------------------------------------------------------------------
  // Change handler
  // ---------------------------------------------------------------------------

  /**
    The state after the user sets field `name` to `value`. The field's error is
    computed against the form as it was before the change; a change of the
    password also re-checks the confirmation, and does so with the previous
    confirmation value against the previous password.
   */
  function ChangeStep(f: Form, name: Field, value: string): (g: Form)
    requires WellFormed(f.formData)
    ensures WellFormed(g.formData)
    ensures g.formData == f.formData[name := value]
    ensures g.errors.Keys == f.errors.Keys + {name} + (if name == Password then {ConfirmPassword} else {})
    ensures g.errors[name] == ValidateField(name, value, f.formData)
    ensures name == Password ==>
              g.errors[ConfirmPassword] ==
              ValidateField(ConfirmPassword, f.formData[ConfirmPassword], f.formData)
    ensures forall k | k in f.errors && k != name && !(name == Password && k == ConfirmPassword) ::
              g.errors[k] == f.errors[k]
  {
    var errors := f.errors[name := ValidateField(name, value, f.formData)];
    if name == Password then
      var confirmError := ValidateField(ConfirmPassword, f.formData[ConfirmPassword], f.formData);
      Form(f.formData[name := value], errors[ConfirmPassword := confirmError])
    else
      Form(f.formData[name := value], errors)
  }

  /**
    After a password change, the confirmation error says "no error" exactly
    when the unchanged confirmation was long enough and equal to the PREVIOUS
    password: the new password plays no part in it.
   */
  lemma PasswordChangeRechecksStaleConfirmation(f: Form, newPassword: string)
    requires WellFormed(f.formData)
    ensures var g := ChangeStep(f, Password, newPassword);
            && g.formData[ConfirmPassword] == f.formData[ConfirmPassword]
            && (g.errors[ConfirmPassword] == "" <==>
                  Utf16Length(f.formData[ConfirmPassword]) >= MinPasswordLength &&
                  f.formData[Password] == f.formData[ConfirmPassword])
  {
  }

  /** Typing the confirmation last always checks it against the current password. */
  lemma ConfirmChangeChecksCurrentPassword(f: Form, confirm: string)
    requires WellFormed(f.formData)
    ensures var g := ChangeStep(f, ConfirmPassword, confirm);
            g.errors[ConfirmPassword] == "" <==>
              Utf16Length(confirm) >= MinPasswordLength && g.formData[Password] == confirm
  {
  }

  /** One keystroke or selection in the form. */
  datatype Edit = Edit(name: Field, value: string)

  /** An edit the rendered form can produce: the role select only offers its four options. */
  ghost predicate FormEdit(e: Edit)
  {
    e.name == UserRole ==> ParseRole(e.value).Some?
  }

  /** The state reached from `f` by applying `edits` in order. */
  function Replay(f: Form, edits: seq<Edit>): (g: Form)
    requires WellFormed(f.formData)
    ensures WellFormed(g.formData)
    decreases |edits|
  {
    if edits == [] then f
    else Replay(ChangeStep(f, edits[0].name, edits[0].value), edits[1..])
  }

  // ---------------------------------------------------------------------------
  // Submit button
  // ---------------------------------------------------------------------------

  /** The submit button is disabled while an error is shown or the passwords differ. */
  predicate SubmitDisabled(f: Form)
    requires Password in f.formData && ConfirmPassword in f.formData
    ensures !SubmitDisabled(f) <==>
              (forall k | k in f.errors :: f.errors[k] == "") && f.formData[Password] == f.formData[ConfirmPassword]
  {
    (exists k | k in f.errors :: f.errors[k] != "") || f.formData[Password] != f.formData[ConfirmPassword]
  }

  lemma InitialFormEnabled()
    ensures !SubmitDisabled(InitialForm())
  {
  }

  /**
    What every state reachable from the initial one satisfies: all eleven
    fields are present, the role is one of the select's options, the
    password error is blank exactly when the password is long enough, or absent
    while the password was never typed, and no field other than the two
    passwords ever shows an error.
   */
  ghost predicate Consistent(f: Form)
  {
    && WellFormed(f.formData)
    && ParseRole(f.formData[UserRole]).Some?
    && (Password in f.errors ==> (f.errors[Password] == "" <==> Utf16Length(f.formData[Password]) >= MinPasswordLength))
    && (Password !in f.errors ==> f.formData[Password] == "")
    && (forall k | k in f.errors && k != Password && k != ConfirmPassword :: f.errors[k] == "")
  }

  lemma InitialFormConsistent()
    ensures Consistent(InitialForm())
  {
  }

  lemma ChangeStepKeepsConsistent(f: Form, e: Edit)
    requires Consistent(f) && FormEdit(e)
    ensures Consistent(ChangeStep(f, e.name, e.value))
  {
  }

  lemma {:induction false} ReplayKeepsConsistent(f: Form, edits: seq<Edit>)
    requires Consistent(f)
    requires forall i | 0 <= i < |edits| :: FormEdit(edits[i])
    ensures Consistent(Replay(f, edits))
    decreases |edits|
  {
    if edits != [] {
      ChangeStepKeepsConsistent(f, edits[0]);
      ReplayKeepsConsistent(ChangeStep(f, edits[0].name, edits[0].value), edits[1..]);
    }
  }

  /**
    In any state the form can reach, an enabled submit button with a typed
    password means both local submit guards pass: the passwords agree and the
    password is long enough. The typed-password hypothesis stands for the
    browser's `required` attribute on the password input: the initial form has
    an enabled button, and submitting it fails the length guard.
   */
  lemma EnabledSubmitPassesGuards(edits: seq<Edit>)
    requires forall i | 0 <= i < |edits| :: FormEdit(edits[i])
    ensures var g := Replay(InitialForm(), edits);
            !SubmitDisabled(g) && g.formData[Password] != "" ==>
              g.formData[Password] == g.formData[ConfirmPassword] &&
              Utf16Length(g.formData[Password]) >= MinPasswordLength
  {
    InitialFormConsistent();
    ReplayKeepsConsistent(InitialForm(), edits);
    var g := Replay(InitialForm(), edits);
    if Password in g.errors && g.errors[Password] != "" {
      assert g.errors[Password] != "";
    }
  }

  /** Only the password and its confirmation can disable the button of a consistent form. */
  lemma ConsistentDisabledOnlyByPasswords(g: Form)
    requires Consistent(g)
    ensures SubmitDisabled(g) <==>
              || (Password in g.errors && g.errors[Password] != "")
              || (ConfirmPassword in g.errors && g.errors[ConfirmPassword] != "")
              || g.formData[Password] != g.formData[ConfirmPassword]
  {
    if SubmitDisabled(g) && g.formData[Password] == g.formData[ConfirmPassword] {
      var k :| k in g.errors && g.errors[k] != "";
      assert k == Password || k == ConfirmPassword;
    }
  }

  /**
    In any state the form can reach, only the password and its confirmation
    can disable the button: through their error entries or by differing.
   */
  lemma ReachableDisabledOnlyByPasswords(edits: seq<Edit>)
    requires forall i | 0 <= i < |edits| :: FormEdit(edits[i])
    ensures var g := Replay(InitialForm(), edits);
            SubmitDisabled(g) <==>
              || (Password in g.errors && g.errors[Password] != "")
              || (ConfirmPassword in g.errors && g.errors[ConfirmPassword] != "")
              || g.formData[Password] != g.formData[ConfirmPassword]
  {
    InitialFormConsistent();
    ReplayKeepsConsistent(InitialForm(), edits);
    ConsistentDisabledOnlyByPasswords(Replay(InitialForm(), edits));
  }

  /**
    Typing the confirmation before the password leaves a stale mismatch error:
    the two passwords agree, yet the button stays disabled.
   */
  lemma StaleMismatchBlocksMatchingPasswords()
    ensures var g := Replay(InitialForm(), [Edit(ConfirmPassword, "secret2"), Edit(Password, "secret2")]);
            && g.formData[Password] == g.formData[ConfirmPassword] == "secret2"
            && g.errors[ConfirmPassword] == MismatchMessage
            && SubmitDisabled(g)
  {
  }

  // ---------------------------------------------------------------------------
  // Submit: local guards and payload
  // ---------------------------------------------------------------------------

  /** The fields sent to the registration call for the given role. */
  function PayloadKeys(role: string): (keys: set<Field>)
    ensures ConfirmPassword !in keys
  {
    BaseFields
    + (if IsProfessional(role) then ProfessionalFields else {})
    + (if role == "technician" then {CertificationId} else {})
  }

  /**
    The base fields are always sent, the confirmation never is, the professional
    block is sent exactly for doctors and nurses, and the certification exactly
    for technicians.
   */
  lemma PayloadKeysShape(role: string)
    ensures BaseFields <= PayloadKeys(role)
    ensures ProfessionalFields <= PayloadKeys(role) <==> IsProfessional(role)
    ensures ProfessionalFields !! PayloadKeys(role) <==> !IsProfessional(role)
    ensures CertificationId in PayloadKeys(role) <==> role == "technician"
  {
  }

  lemma PayloadKeysByRole(r: Role)
    ensures PayloadKeys(RoleName(r)) ==
              match r
              case Patient => BaseFields
              case Doctor => BaseFields + ProfessionalFields
              case Nurse => BaseFields + ProfessionalFields
              case Technician => BaseFields + {CertificationId}
  {
  }

  /** A patient's registration request carries exactly four fields. */
  lemma PatientPayloadSize()
    ensures |PayloadKeys(RoleName(Patient))| == 4
  {
  }

  /** The professional block and the certification field are never sent together. */
  lemma PayloadGroupsExclusive(role: string)
    ensures !(ProfessionalFields <= PayloadKeys(role) && CertificationId in PayloadKeys(role))
  {
  }

  /** For a role from the select, the payload takes one of three shapes. */
  lemma PayloadShapeOfOption(role: string)
    requires ParseRole(role).Some?
    ensures || PayloadKeys(role) == BaseFields
            || PayloadKeys(role) == BaseFields + ProfessionalFields
            || PayloadKeys(role) == BaseFields + {CertificationId}
  {
  }

  datatype SubmitOutcome =
    | Abort(notice: string)                     // a local guard failed; no request is made
    | Register(payload: map<Field, string>)    // the body of the registration request

  // ---------------------------------------------------------------------------
  // Landing after registration
  // ---------------------------------------------------------------------------

  const DashboardRoute := "/dashboard"
  const HomeRoute := "/"
  const SuccessNotice := "Registration successful!"
  const PendingApprovalNotice := "Your account is pending admin approval."
  const FailureFallback := "Registration failed. Please try again."

  /** Where the user is sent, and which notices are shown, once registered. */
  datatype Landing = Landing(route: string, notices: seq<string>)

  /** The landing chosen from the role of the user record returned by the server. */
  function LandingFor(userRole: string): (l: Landing)
    ensures l.route == DashboardRoute <==> userRole == "patient"
    ensures l.route == HomeRoute <==> userRole != "patient"
    ensures |l.notices| == if userRole == "patient" then 1 else 2
    ensures l.notices[0] == SuccessNotice
    ensures PendingApprovalNotice in l.notices <==> userRole != "patient"
    ensures userRole != "patient" ==> l.notices[1] == PendingApprovalNotice
  {
    if userRole == "patient" then Landing(DashboardRoute, [SuccessNotice])
    else Landing(HomeRoute, [SuccessNotice, PendingApprovalNotice])
  }

  lemma OnlyPatientsReachDashboard(r: Role)
    ensures LandingFor(RoleName(r)).route == DashboardRoute <==> r == Patient
  {
  }

  /**
    The notice shown when a request fails: the server's message when it sent a
    non-empty one, and the generic text otherwise (an empty message is falsy).
   */
  function FailureNotice(serverMessage: Option<string>): (n: string)
    ensures n != ""
    ensures serverMessage.Some? && serverMessage.value != "" ==> n == serverMessage.value
    ensures serverMessage == None || serverMessage == Some("") ==> n == FailureFallback
  {
    match serverMessage
    case Some(m) => if m != "" then m else FailureFallback
    case None => FailureFallback
  }

  // ---------------------------------------------------------------------------
  // The component's state
  // ---------------------------------------------------------------------------

  class RegisterForm {
    var formData: map<Field, string>
    var errors: map<Field, string>

    function State(): Form
      reads this
    {
      Form(formData, errors)
    }

    /** Every field of the form has a value. */
    ghost predicate Valid()
      reads this
    {
      WellFormed(formData)
    }

    constructor ()
      ensures Valid() && Consistent(State())
      ensures State() == InitialForm()
    {
      formData := InitialFormData();
      errors := map[];
    }

    /** The change handler: one field is set and its error entry recomputed. */
    method OnChange(name: Field, value: string)
      requires Valid()
      modifies this
      ensures Valid()
      ensures State() == ChangeStep(old(State()), name, value)
      ensures formData == old(formData)[name := value]
      ensures Consistent(old(State())) && FormEdit(Edit(name, value)) ==> Consistent(State())
    {
      ghost var before := State();
      var previous := formData;
      var confirmPassword := formData[ConfirmPassword];
      formData := formData[name := value];
      var error := ValidateField(name, value, previous);
      errors := errors[name := error];
      if name == Password {
        var confirmPasswordError := ValidateField(ConfirmPassword, confirmPassword, previous);
        errors := errors[ConfirmPassword := confirmPasswordError];
      }
      if Consistent(before) && FormEdit(Edit(name, value)) {
        ChangeStepKeepsConsistent(before, Edit(name, value));
      }
    }

    /**
      The submit handler up to the registration request: the mismatch guard,
      then the length guard, then the payload for the selected role.
     */
    method Submit() returns (outcome: SubmitOutcome)
      requires Valid()
      ensures formData[Password] != formData[ConfirmPassword] ==> outcome == Abort(MismatchMessage)
      ensures formData[Password] == formData[ConfirmPassword] && Utf16Length(formData[Password]) < MinPasswordLength ==>
                outcome == Abort(ShortPasswordMessage)
      ensures outcome.Register? <==>
                formData[Password] == formData[ConfirmPassword] && Utf16Length(formData[Password]) >= MinPasswordLength
      ensures outcome.Register? ==> outcome.payload.Keys == PayloadKeys(formData[UserRole])
      ensures outcome.Register? ==> forall k | k in outcome.payload :: outcome.payload[k] == formData[k]
    {
      var password, confirmPassword, role := formData[Password], formData[ConfirmPassword], formData[UserRole];
      if password != confirmPassword {
        return Abort(MismatchMessage);
      }
      if Utf16Length(password) < MinPasswordLength {
        return Abort(ShortPasswordMessage);
      }
      var payload := map[Name := formData[Name], Email := formData[Email],
                         Password := formData[Password], UserRole := formData[UserRole]];
      if IsProfessional(role) {
        payload := payload[Specialty := formData[Specialty]];
        payload := payload[City := formData[City]];
        payload := payload[Experience := formData[Experience]];
        payload := payload[LicenseNumber := formData[LicenseNumber]];
        payload := payload[GovId := formData[GovId]];
      }
      if role == "technician" {
        payload := payload[CertificationId := formData[CertificationId]];
      }
      return Register(payload);
    }
  }
}
