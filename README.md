# Registration form of the DocAtHome web client, in Dafny

This project models the logic of the registration page of the DocAtHome
healthcare web client (`frontend/src/pages/RegisterPage.jsx`). The page keeps
two pieces of state: the eleven form fields and a map of field errors. Its
logic has four parts:

- **Field validator.** Only the password and its confirmation have rules. A
  value shorter than six UTF-16 code units (JavaScript's string length) gets
  "Password must be at least 6 characters.". A character outside the Basic
  Multilingual Plane, such as an emoji, counts as two units. For the
  confirmation, the length rule comes first. A long enough confirmation that
  differs from the password gets "Passwords do not match.". Every other field
  gets "".
- **Change handler.** It writes one field and that field's error entry. When
  the password changes, it also re-checks the confirmation. That re-check uses
  the state from before the change: the old confirmation compared with the old
  password.
- **Submit handler.** Up to the registration request it runs two guards: the
  mismatch guard first, then the length guard. It then builds the request
  body. Every role sends name, email, password and role. Doctors and nurses
  add specialty, city, experience, license number and government ID.
  Technicians add the certification ID.
- **Derived decisions.** The submit button is disabled while any error entry
  is non-empty or the two passwords differ. After registration, a patient is
  sent to `/dashboard`. Every other role is sent to `/` with a notice that the
  account awaits admin approval.

`register_page.dfy` holds the module `RegisterPage`:

- `Role` and the eleven `Field`s are datatypes.
- The validator, the payload key set and the landing choice are functions.
- The component is the class `RegisterForm`. Its fields are `formData` and
  `errors`. `OnChange` updates them in place. `Submit` returns either the
  notice that stops the submission or the request body.
- `OnChange` is proved against the pure step function `ChangeStep`. `Replay`
  folds `ChangeStep` over a sequence of edits, which describes every state the
  page can reach from its initial state.

`scenarios.dfy` holds the module `RegisterScenarios`: client methods that drive
a fresh form through a full interaction and state its outcome.

The stale re-check is reproduced as the code does it.
`StaleMismatchBlocksMatchingPasswords` shows its effect. Type the confirmation
"secret2" first, then the password "secret2". The two fields are now equal,
yet the confirmation error still reads "Passwords do not match.", so the
submit button stays disabled.

## Model

| member | source | states |
|---|---|---|
| `RegisterPage.RoleName` | frontend/src/pages/RegisterPage.jsx:157-160 | each role's option value reads back as that role |
| `RegisterPage.ParseRole` | frontend/src/pages/RegisterPage.jsx:151-161 | a string reads as a role exactly when it is one of the four option values of the role select |
| `RegisterPage.ParseRoleName` | frontend/src/pages/RegisterPage.jsx:157-160 | a string that reads as a role is exactly that role's option value |
| `RegisterPage.IsProfessional` | frontend/src/pages/RegisterPage.jsx:53 | the professional flag holds exactly when the role reads as doctor or nurse |
| `RegisterPage.IsProfessionalRole` | frontend/src/pages/RegisterPage.jsx:53 | the professional block applies exactly to doctors and nurses |
| `RegisterPage.InitialFormData` | frontend/src/pages/RegisterPage.jsx:35-47 | the form starts with all eleven fields present, role "patient", both passwords empty, and every field other than the role empty |
| `RegisterPage.Utf16Length` | frontend/src/pages/RegisterPage.jsx:58-61 | a string's length as JavaScript counts it lies between its character count and twice that. It equals the character count when every character is in the Basic Multilingual Plane, and twice it when none is |
| `RegisterPage.SupplementaryCharactersCountTwice` | frontend/src/pages/RegisterPage.jsx:57-58 | three emoji make six code units, so the validator accepts them as a password |
| `RegisterPage.ValidateField` | frontend/src/pages/RegisterPage.jsx:55-66 | the error is empty exactly when the field's rule holds. Lengths are counted in UTF-16 code units. A short password or confirmation gets the length message, even if it also mismatches. A long enough confirmation gets the mismatch message exactly when it differs from the password. Other fields get no error. Only three messages are possible |
| `RegisterPage.ChangeStep` | frontend/src/pages/RegisterPage.jsx:68-82 | exactly the changed field is written. Its error is validated against the pre-change form. A password change also sets the confirmation error from the old confirmation and old form. The key set grows only by those entries, and every other error entry is unchanged |
| `RegisterPage.PasswordChangeRechecksStaleConfirmation` | frontend/src/pages/RegisterPage.jsx:75-80 | after a password change the confirmation value is unchanged. Its error is empty exactly when the old confirmation is long enough and equals the PREVIOUS password |
| `RegisterPage.ConfirmChangeChecksCurrentPassword` | frontend/src/pages/RegisterPage.jsx:68-73 | after a confirmation change, its error is empty exactly when it is long enough and equals the current password |
| `RegisterPage.Replay` | frontend/src/pages/RegisterPage.jsx:68-82 | any sequence of changes keeps every one of the eleven fields present |
| `RegisterPage.SubmitDisabled` | frontend/src/pages/RegisterPage.jsx:354-357 | the button is enabled exactly when every error entry is empty and the two passwords are equal |
| `RegisterPage.InitialFormEnabled` | frontend/src/pages/RegisterPage.jsx:354-357 | in the initial state (no errors, both passwords empty) the submit button is enabled |
| `RegisterPage.InitialFormConsistent` | frontend/src/pages/RegisterPage.jsx:35-48 | the initial state meets the reachable-state invariant |
| `RegisterPage.ChangeStepKeepsConsistent` | frontend/src/pages/RegisterPage.jsx:68-82 | one change keeps the invariant: all fields present, the role is a select option, the password error is empty exactly when the password is long enough, or absent while the password is untouched, and every error entry other than the two passwords is empty |
| `RegisterPage.ReplayKeepsConsistent` | frontend/src/pages/RegisterPage.jsx:68-82 | any sequence of edits the form can produce keeps that invariant |
| `RegisterPage.EnabledSubmitPassesGuards` | frontend/src/pages/RegisterPage.jsx:354-357 | in any reachable state, an enabled button with a typed password implies that both submit guards pass. The typed-password hypothesis stands for the browser's `required` attribute (line 205): the initial form's button is enabled, yet its submit fails the length guard |
| `RegisterPage.ConsistentDisabledOnlyByPasswords` | frontend/src/pages/RegisterPage.jsx:354-357 | in a state meeting the reachable-state invariant, the button is disabled exactly when a password error entry is non-empty or the passwords differ |
| `RegisterPage.ReachableDisabledOnlyByPasswords` | frontend/src/pages/RegisterPage.jsx:354-357 | in any reachable state the button is disabled exactly when the password error or the confirmation error is non-empty, or the passwords differ: no other field ever shows an error |
| `RegisterPage.StaleMismatchBlocksMatchingPasswords` | frontend/src/pages/RegisterPage.jsx:75-80 | typing the confirmation before the password leaves equal passwords with a mismatch error and a disabled button |
| `RegisterPage.PayloadKeys` | frontend/src/pages/RegisterPage.jsx:97-113 | the confirmation is never among the fields sent |
| `RegisterPage.PayloadKeysShape` | frontend/src/pages/RegisterPage.jsx:97-113 | name, email, password and role are always sent. The professional block is sent iff the role is doctor or nurse. The certification is sent iff the role is technician |
| `RegisterPage.PayloadKeysByRole` | frontend/src/pages/RegisterPage.jsx:97-113 | the exact key set for each of the four roles |
| `RegisterPage.PatientPayloadSize` | frontend/src/pages/RegisterPage.jsx:97-102 | a patient's request has exactly four fields |
| `RegisterPage.PayloadGroupsExclusive` | frontend/src/pages/RegisterPage.jsx:104-113 | the professional block and the certification are never sent together, whatever stale values the form holds |
| `RegisterPage.PayloadShapeOfOption` | frontend/src/pages/RegisterPage.jsx:97-113 | for any role the select offers, the request has one of three key sets |
| `RegisterPage.LandingFor` | frontend/src/pages/RegisterPage.jsx:121-128 | the route is `/dashboard` iff the returned role is "patient", and `/` otherwise. A patient sees exactly one notice, the success notice. Any other role sees exactly two: the success notice, then the pending-approval notice |
| `RegisterPage.OnlyPatientsReachDashboard` | frontend/src/pages/RegisterPage.jsx:123-128 | of the four roles, only the patient lands on the dashboard |
| `RegisterPage.FailureNotice` | frontend/src/pages/RegisterPage.jsx:129-132 | a failed request shows the server's message when it is non-empty, and the generic fallback otherwise |
| `RegisterPage.RegisterForm.constructor` | frontend/src/pages/RegisterPage.jsx:35-48 | the component starts in the initial state with an empty error map |
| `RegisterPage.RegisterForm.OnChange` | frontend/src/pages/RegisterPage.jsx:68-82 | the in-place update of fields and errors is exactly `ChangeStep` of the old state. An edit the rendered form can produce keeps the reachable-state invariant |
| `RegisterPage.RegisterForm.Submit` | frontend/src/pages/RegisterPage.jsx:84-113 | differing passwords abort with the mismatch notice. Otherwise a short password aborts with the length notice. A request is built iff the passwords agree and have at least six UTF-16 code units. Its keys are the role's key set and its values are copied from the form |
| `RegisterScenarios.PatientScenario` | frontend/src/pages/RegisterPage.jsx:84-113 | a patient with a name and matching passwords "secret1" sends the four base fields with those values, the untouched email as "" |
| `RegisterScenarios.ShortPasswordScenario` | frontend/src/pages/RegisterPage.jsx:91-94 | matching three-character passwords abort with the length notice |
| `RegisterScenarios.MismatchScenario` | frontend/src/pages/RegisterPage.jsx:87-90 | "secret1" against "secret2" aborts with the mismatch notice |

## Left out

- The registration and current-user requests (lines 115 and 118) are left out because they call an HTTP client outside this component. The role in the returned user record is an input of `LandingFor`. A failed request's message is an input of `FailureNotice`.
- The token write to local storage (line 116) and the session store's `login` (lines 50 and 119) are left out: they are global side effects of libraries that are not part of this model.
- Toast notifications and navigation are left out as effects. The model returns the notice strings and the target route as values.
- The async flow and the try/catch are left out. So is the partial failure in which the token is already stored when the current-user request fails: it depends entirely on the external calls.
- JSX rendering, the option lists for specialties, nurse categories, cities and experience years (lines 8-32 and 136-370), and the browser-enforced `required` and `minLength` attributes are left out: they are markup, not logic.
- React's batching of state updates is left out. The two error-map updates of the change handler are applied one after the other.
- Field names are the datatype `Field`, one constructor per input of the form. A change event for a name outside these eleven cannot be expressed.
- `Consistent` holds only for edits the rendered form can produce (`FormEdit`): a role value is always one of the select's four options.
- `RegisterScenarios.PatientScenario`: no email is typed. A doctor's registration is covered only by `PayloadKeysByRole`, not by a scenario of its own.
