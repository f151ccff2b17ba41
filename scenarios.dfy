/**
  Client code driving the registration form through complete interactions:
  what a caller can conclude from the contracts of the form alone.
 */
module RegisterScenarios {
  import opened RegisterPage

  /** A patient who types a name and a matching password sends the four base fields. */
  method PatientScenario() returns (outcome: SubmitOutcome)
    ensures outcome.Register?
    ensures outcome.payload.Keys == PayloadKeys(RoleName(Patient))
    ensures outcome.payload[Name] == "Jane Doe" && outcome.payload[Email] == ""
    ensures outcome.payload[Password] == "secret1" && outcome.payload[UserRole] == "patient"
  {
    var form := new RegisterForm();
    form.OnChange(Name, "Jane Doe");
    form.OnChange(Password, "secret1");
    form.OnChange(ConfirmPassword, "secret1");
    outcome := form.Submit();
  }

  /** A password of three characters is refused locally, before any request. */
  method ShortPasswordScenario() returns (outcome: SubmitOutcome)
    ensures outcome == Abort(ShortPasswordMessage)
  {
    var form := new RegisterForm();
    form.OnChange(Password, "abc");
    form.OnChange(ConfirmPassword, "abc");
    outcome := form.Submit();
  }

  /** Different passwords are refused locally with the mismatch notice. */
  method MismatchScenario() returns (outcome: SubmitOutcome)
    ensures outcome == Abort(MismatchMessage)
  {
    var form := new RegisterForm();
    form.OnChange(Password, "secret1");
    form.OnChange(ConfirmPassword, "secret2");
    outcome := form.Submit();
  }
}
