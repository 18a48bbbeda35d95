# ImaraRent sign-in and session flow, modelled in Dafny

ImaraRent is a rent-management console whose screens are mostly static. Its one piece of
real logic is how a visitor gets in: the sign-in screen switches between log-in,
registration and verification of an emailed one-time code; the code widget holds six
slots and a thirty-second resend cooldown; the application shell restores the stored
session, signs users in and out, and decides whether to show the sign-in screen, the
tenant portal or the administrative shell. This project models those three parts as
immutable datatypes with pure transition functions. It proves what each transition
promises. It also proves that, as long as every write to browser storage succeeds, no
sequence of events shows a tenant the administrative shell. A write that throws breaks
that rule, and the model shows how (`Session.FailedWriteShowsTenantAdminShell`).

Modules, leaves first:

- `Types` (`types.dfy`): `Option`, `Role`, `User`.
- `JsText` (`jstext.dfy`): the JavaScript string semantics the code relies on. This covers the `\s` white-space class and `trim`, the ASCII ranges, `length` in UTF-16 code units, and `includes`.
- `Credentials` (`credentials.dfy`): the email-shape and password-complexity validators.
- `CodeEntry` (`codeentry.dfy`): the one-time-code widget, with focus as a slot index and the interval as an explicit `Tick`.
- `AuthFlow` (`authflow.dfy`): the sign-in screen's mode machine. Each backend call is two steps. `BeginSubmit` or `BeginVerification` records the call in `pending` and raises `loading`. Later, `Settle` delivers success or failure.
- `Session` (`session.dfy`): the shell state, restore, log-in, log-out, the view switch, tab selection and routing.
- `Portal` (`portal.dfy`): the composition. `Step` applies one user action, backend answer or clock tick, and only when the control pressed is shown and enabled. `Run` replays a launch followed by any sequence of such events.

Notable behaviour of the code:

- Pasting `98765` into an empty widget moves the cursor to slot 5, the empty sixth slot. The paste handler focuses `Math.min(data.length, 5)` (components/EmailVerification.tsx:60), so a five-digit paste lands on the slot after the last digit.
- The role at log-in is inferred from the address: it is `ADMIN` if the address contains `admin`, otherwise `TENANT`. `MANAGER` is never produced.
- A stored record is trusted as it is. `JSON.parse` on a malformed record throws; it does not fail safe.
- A backend answer that arrives after the user has navigated away is still applied (`Portal.StaleVerificationStillApplies`, `AuthFlow.CompletedRegistrationOpensVerify`).
- `Number(" ")` is 0, so white space is accepted into a code slot, and a code containing spaces can be submitted (`CodeEntry.SpacePassesAsDigitExample`).
- Resending a code keeps the digits already entered.
- The code screen has no message banner: the banner is rendered only on the log-in and registration forms (views/Auth.tsx:129-152). So the resend confirmation and a failed verification's error are set but never seen on the code screen. They appear only after "Back to registration", which keeps the message (`AuthFlow.CodeScreenMessagesAppearAfterBack`).
- The log-in handler sets the session user before it writes storage (App.tsx:46-47). If `localStorage.setItem` throws, for example on a full quota, the view and tab updates after it are skipped. A tenant signing in from the admin view then sees the administrative shell (`Session.HandleLogin`, `Session.FailedWriteShowsTenantAdminShell`). The exception reaches the sign-in screen's `catch`, but by then the user is signed in and that screen is gone.
- The simulated backend calls never fail. Their failure branch, the `catch`, is modelled as `Settle(st, false, id)`: the call is rejected before anyone is signed in.

## Model

| member | source | states |
|---|---|---|
| JsText.Trim | views/Auth.tsx:44 | `trim` never lengthens the text, every non-space character of the text occurs in the result, the result starts and ends with non-space characters, and it is empty exactly when the text is blank |
| JsText.TrimIsBlankCut | views/Auth.tsx:44 | the trimmed text is one contiguous run of the text with only white space before and after it |
| JsText.TrimIsUnique | views/Auth.tsx:44 | any run cut from the text that way, with non-space ends, is the trimmed text, so the description above determines `trim` |
| JsText.Utf16Length | views/Auth.tsx:28 | `length` lies between `|s|` and `2|s|`: exactly `|s|` for BMP text and `2|s|` for text outside the BMP |
| JsText.Utf16LengthAppend | views/Auth.tsx:28 | the length of joined text is the sum of the lengths |
| JsText.Utf16LengthAddChar | views/Auth.tsx:28 | appending one character adds its own code units, one in the BMP and two outside it, so mixed text counts one unit per BMP character and two per other |
| JsText.MixedTextLengthExample | views/Auth.tsx:28 | the text `a`, key emoji, `b` is four code units long |
| Credentials.ValidateEmail | views/Auth.tsx:23-25 | an accepted address contains `@` and no white space, is at least five characters long (the shortest match is `x@y.z`), and neither starts nor ends with `@` |
| Credentials.ValidateEmailMatchesPattern | views/Auth.tsx:23-25 | the direct test (no white space, one `@` with text before it, a dot strictly inside the part after it) accepts exactly the language of `^[^\s@]+@[^\s@]+\.[^\s@]+$` |
| Credentials.ShapedAddressIsValid | views/Auth.tsx:23-25 | every `x@y.z` with non-empty `x`, `y`, `z` free of white space and `@` is accepted |
| Credentials.ValidatePasswordComplexity | views/Auth.tsx:27-33 | an accepted password has an ASCII upper-case letter, lower-case letter and digit and at least four characters (eight code units); any text of at least eight characters with all three passes |
| Credentials.PasswordLengthIsCharacterCount | views/Auth.tsx:27-33 | for BMP text, complexity holds iff at least 8 characters with an ASCII upper-case letter, lower-case letter and digit |
| Credentials.StrongPasswordExample | views/Auth.tsx:27-33 | `Passw0rd` passes |
| Credentials.WeakPasswordExamples | views/Auth.tsx:27-33 | `password`, `PASS1234` and `Pw1` fail |
| Credentials.LengthCountsCodeUnits | views/Auth.tsx:28 | a six-character password with three astral characters is long enough, as JavaScript counts length |
| CodeEntry.Initial | components/EmailVerification.tsx:13-15 | the widget starts valid, with six empty slots, timer 30 and resend disabled |
| CodeEntry.NumericCharAgreesWithText | components/EmailVerification.tsx:33 | for one character, the numeric test holds iff it is a digit or white space |
| CodeEntry.NumericTextHasNumericChars | components/EmailVerification.tsx:33-36 | accepted text contains only digits and white space, so each slot keeps a numeric character |
| CodeEntry.LastChar | components/EmailVerification.tsx:36 | the stored text is empty for empty input and otherwise exactly the last character |
| CodeEntry.ChangeSlot | components/EmailVerification.tsx:31-43 | a change event keeps the widget valid: six slots of at most one numeric character, cursor in range |
| CodeEntry.ChangeSlotEffect | components/EmailVerification.tsx:31-43 | non-numeric non-empty input changes nothing; otherwise only slot `i` changes, to the last character, and the cursor moves to `i+1` iff the input is non-empty and `i < 5` |
| CodeEntry.LetterIsRejected | components/EmailVerification.tsx:33 | typing a character that is neither digit nor white space leaves the widget unchanged |
| CodeEntry.KeyDown | components/EmailVerification.tsx:45-49 | Backspace on an empty slot `i > 0` moves the cursor to `i-1`; nothing else ever changes |
| CodeEntry.PasteData | components/EmailVerification.tsx:53 | a paste considers the first `min(|text|, 6)` characters |
| CodeEntry.Distribute | components/EmailVerification.tsx:55-58 | the paste loop writes character `j` into slot `j` for each pasted position and leaves every other slot as it was |
| CodeEntry.Paste | components/EmailVerification.tsx:51-62 | a paste keeps the widget valid |
| CodeEntry.PasteEffect | components/EmailVerification.tsx:51-62 | an all-numeric paste of `k` characters overwrites slots `0..k-1`, keeps slots `k..5` and puts the cursor on `min(k,5)`; any other paste changes nothing |
| CodeEntry.PasteFiveDigitsExample | components/EmailVerification.tsx:51-62 | pasting `98765` into an empty widget gives `9,8,7,6,5,""` with the cursor on slot 5 |
| CodeEntry.Join | components/EmailVerification.tsx:66 | for slots of at most one character, the joined code has at most six characters, and exactly six iff every slot is filled |
| CodeEntry.Submit | components/EmailVerification.tsx:64-70 | a submitted code exists only when nothing is in flight; it is six characters long, every slot is filled, and character `i` is slot `i` |
| CodeEntry.SubmitFiresIffComplete | components/EmailVerification.tsx:64-70 | a code is handed on iff no call is in flight and all six slots are filled, and it is the slots read in order; the button's `disabled` test is part of the guard |
| CodeEntry.Tick | components/EmailVerification.tsx:18-29 | one second lowers a positive timer by one, never below zero, and enables resend when it reaches zero |
| CodeEntry.CooldownCountsDown | components/EmailVerification.tsx:18-29 | after `n` ticks the timer is `max(t-n, 0)`, resend is enabled iff `t <= n`, and the slots are untouched |
| CodeEntry.ResendWaitsThirtySeconds | components/EmailVerification.tsx:14-29 | from a fresh widget, resend is enabled after `n` ticks iff `n >= 30` |
| CodeEntry.Resend | components/EmailVerification.tsx:72-78 | resend asks for a new code iff it is enabled; it then restarts the 30-second cooldown; it never touches the slots; when disabled it changes nothing |
| CodeEntry.ResendRestartsCooldown | components/EmailVerification.tsx:72-78 | after a resend the next one again needs 30 ticks |
| CodeEntry.TypeOneDigit | components/EmailVerification.tsx:31-43 | typing a digit into slot `i` stores it there and advances the cursor unless `i` is the last slot |
| CodeEntry.TypeNextDigit | components/EmailVerification.tsx:31-43 | when the first digits already sit in their slots, typing the next digit into the following slot extends that: every typed digit is in place and the cursor sits after the last one |
| CodeEntry.TypeCodeContents | components/EmailVerification.tsx:31-43 | typing digits one per slot fills exactly those slots and the cursor follows, stopping at slot 5 |
| CodeEntry.SequentialEntrySubmitsCode | components/EmailVerification.tsx:31-70 | typing any six digits in turn completes and submits exactly that code |
| CodeEntry.SpacePassesAsDigitExample | components/EmailVerification.tsx:51-70 | pasting `12 456` completes the code `12 456` |
| AuthFlow.Initial | views/Auth.tsx:11-21 | the screen starts in log-in mode with an empty form, no message, no errors and nothing loading |
| AuthFlow.EditField | views/Auth.tsx:162-218 | editing a field sets that field only; mode, errors, message and loading are unchanged |
| AuthFlow.Validate | views/Auth.tsx:41-55 | every reported error has a non-empty message; log-in never reports the name or confirmation fields; verification mode reports nothing |
| AuthFlow.RegisterErrorsAreFailedChecks | views/Auth.tsx:43-51 | in registration the error keys are exactly the failing checks (blank trimmed name, bad email, weak password, mismatched confirmation), each with its message |
| AuthFlow.LoginErrorsAreFailedChecks | views/Auth.tsx:52-55 | in log-in only email and password can carry errors; the password error occurs iff the password is empty |
| AuthFlow.RegisterCheckIsStricter | views/Auth.tsx:43-55 | a form that passes the registration checks also passes the log-in checks |
| AuthFlow.BeginSubmit | views/Auth.tsx:35-61 | submit clears the message, keeps mode and form, and from an idle screen leaves `loading` raised exactly when a call is outstanding |
| AuthFlow.InvalidSubmitOnlyShowsErrors | views/Auth.tsx:57-61 | with errors: they are shown, no call is made, the mode stays and loading ends false |
| AuthFlow.ValidSubmitIssuesCall | views/Auth.tsx:63-77 | without errors: the registration or log-in call is issued with the entered details and the screen waits |
| AuthFlow.LoginUser | views/Auth.tsx:78-85 | the signed-in account carries the entered email and the given id; its role is `ADMIN` iff the email contains `admin`, and it is never `MANAGER` |
| AuthFlow.TenantAddressExample | views/Auth.tsx:78-83 | `alice@rent.io` signs in as a tenant |
| AuthFlow.Settle | views/Auth.tsx:64-105 | every answer ends loading and the call, keeps form and errors, and hands on a user iff a log-in call succeeded |
| AuthFlow.FailedCallShowsError | views/Auth.tsx:87-91 | a failed call sets an error message, keeps the mode and signs nobody in |
| AuthFlow.CompletedLoginSignsIn | views/Auth.tsx:74-85 | a successful log-in call hands on exactly one user with the captured email and the inferred role |
| AuthFlow.CompletedRegistrationOpensVerify | views/Auth.tsx:65-73 | a successful registration call sets verification mode, whatever mode the user switched to meanwhile |
| AuthFlow.BeginVerification | views/Auth.tsx:94-97 | verifying raises loading with a call for the form's email and the code; nothing else changes |
| AuthFlow.CompletedVerificationReturnsToLogin | views/Auth.tsx:94-105 | a verified code returns to log-in with the activation message, keeping the form, with nothing loading |
| AuthFlow.Resend | views/Auth.tsx:108-111 | a resend sets an informational success message and changes nothing else |
| AuthFlow.Banner | views/Auth.tsx:129-152 | a banner is on screen only outside verification mode, and there it is the current message |
| AuthFlow.CodeScreenMessagesAppearAfterBack | views/Auth.tsx:108-111 | on the code screen the resend notice and a failed verification's error are set but not shown; after going back to registration they are shown |
| AuthFlow.JoinNow | views/Auth.tsx:247 | "Join Now" selects registration |
| AuthFlow.ShowLogin | views/Auth.tsx:252 | "Log In" selects log-in |
| AuthFlow.BackToRegistration | views/Auth.tsx:265 | going back from code entry selects registration and changes nothing else |
| AuthFlow.SwitchesKeepForm | views/Auth.tsx:243-255 | both switches clear errors and message but keep every field, the loading flag and any call in flight |
| AuthFlow.RegistrationJourney | views/Auth.tsx:35-106 | valid registration, then success, then code entry, then a verified code, returns to log-in with the activation message and the form kept |
| Session.Fresh | App.tsx:28-31 | before restore there is no user and the admin view is selected |
| Session.Restore | App.tsx:34-43 | a stored user becomes the session user and keeps storage unchanged; with a stored user the result satisfies the shell invariant (a stored tenant opens the tenant view), and restore preserves the invariant |
| Session.Launch | App.tsx:27-43 | launching restores exactly the stored user, in tenant view iff that user is a tenant, and establishes the invariant |
| Session.Login | App.tsx:45-54 | log-in with a successful storage write sets and stores the user, sets tenant view iff tenant, selects the dashboard for staff, and establishes the invariant |
| Session.HandleLogin | App.tsx:45-54 | the handler always signs the user in; with a successful write it is `Login`; with a failed write storage, view and tab stay as they were |
| Session.FailedWriteShowsTenantAdminShell | App.tsx:45-54 | when the write fails, a tenant signing in from the admin view breaks the tenant rule and is routed to the administrative shell without the portal button |
| Session.Logout | App.tsx:56-60 | log-out clears user, storage and tenant view, keeps the tab, and establishes the invariant |
| Session.LogoutIdempotent | App.tsx:56-60 | logging out twice equals logging out once |
| Session.ToggleView | App.tsx:62-67 | the view switch never changes the user or storage and preserves the invariant |
| Session.ToggleViewEffect | App.tsx:62-67 | staff flip the view and land on `tenant-dashboard` or `dashboard` to match; for tenants or when signed out the switch changes nothing |
| Session.ToggleTwiceRestoresView | App.tsx:62-67 | switching twice returns to the original view and user |
| Session.SelectTab | App.tsx:108 | choosing a side-bar entry changes only the tab |
| Session.RoleLabel | App.tsx:166 | the header reads `Super Admin` iff the role is admin |
| Session.Route | App.tsx:79-85 | the sign-in screen is shown iff nobody is signed in |
| Session.RouteCases | App.tsx:79-85 | the tenant view shows the portal, with the way back iff the role is not tenant; otherwise the admin shell is shown |
| Session.TenantNeverSeesAdminShell | App.tsx:83-84 | under the invariant a tenant always gets the portal without the way back |
| Session.AdminShellIsForStaff | App.tsx:124-166 | under the invariant the admin shell is shown only to staff, always with the portal button and the label for their role |
| Session.StorageRoundTrip | App.tsx:34-60 | log-in then relaunch restores the same user in the same view; log-out then relaunch restores nobody |
| Session.Apply | App.tsx:45-67 | every shell event preserves the invariant |
| Session.ReachableStatesConfineTenants | App.tsx:39-67 | after any launch and event sequence the invariant holds, so a signed-in tenant is always routed to the portal |
| Portal.Remount | views/Auth.tsx:258-268 | the code widget is mounted exactly in verification mode; it is fresh on entering that mode and kept while in it |
| Portal.Launch | App.tsx:33-43 | launching satisfies the system invariant and signs in exactly the stored user |
| Portal.StepSignedOut | views/Auth.tsx:142-266 | every sign-in screen event, guarded by what is shown and enabled (name and confirmation inputs only when registering), preserves the system invariant |
| Portal.StepSignedIn | App.tsx:83-139 | every shell event, guarded by what the route shows, preserves the system invariant |
| Portal.Step | App.tsx:79-85 | any event preserves the system invariant |
| Portal.Run | App.tsx:79-85 | every reachable state satisfies the system invariant |
| Portal.ReachableStatesAreSafe | App.tsx:79-85 | in every reachable state a tenant is routed to the portal without the way back, the widget exists exactly in verification mode with six slots, and loading is raised exactly while a call is outstanding |
| Portal.NoSecondCallWhileLoading | views/Auth.tsx:229-230 | while loading, neither submit button does anything |
| Portal.RelaunchRestoresSession | App.tsx:34-60 | relaunching restores the session user; after log-out it shows a fresh sign-in screen |
| Portal.LoginResponseOpensSession | views/Auth.tsx:78-85 | a successful log-in answer removes the sign-in screen and routes an admin address to the admin shell and any other to the tenant portal |
| Portal.StaleVerificationStillApplies | views/Auth.tsx:94-105 | a verification answer arriving after the user went back to registration still switches to log-in with the activation message |

## Left out

- Session.Login: assumes the storage write succeeds. `Session.HandleLogin` models a failed write. The event machines (`Session.Apply`, `Portal.Step`) sign users in through `Login`, so `Session.ReachableStatesConfineTenants`, `Portal.Run` and `Portal.ReachableStatesAreSafe` hold only for runs in which every write succeeds. With a failed write the invariant does not hold (`Session.FailedWriteShowsTenantAdminShell`). `Session.Logout` likewise assumes `removeItem` does not throw.
- Rendering: JSX markup, styling, icons, the side-bar collapse toggle (App.tsx:148) and the tab contents. They are presentational.
- The simulated backend: `setTimeout` delays and `console.log` calls. Each call is a pending request, and its outcome is an input to `Settle`.
- The random user id (`Math.random`, views/Auth.tsx:80) is a parameter.
- `localStorage` and JSON serialisation: storage is an `Option<User>`. A malformed stored record, on which `JSON.parse` throws, is not modelled.
- Timers: the interval is a `Tick` step. `Tick` also covers the effect that enables resend. React renders once in between, with the timer at 0 and resend still disabled, and that render is not modelled.
- DOM focus: only the slot the widget moves the cursor to is modelled. Focus changes made by the user (clicks, Tab) are not.
- CodeEntry.IsNumericText: `isNaN(Number(v))` is modelled as "the trimmed text is all ASCII digits". This is exact for single characters and for text made of digits and white space. JavaScript also accepts signs, decimals, exponents, hexadecimal and `Infinity`, which count as non-numeric here. The input's `maxLength` of 1 keeps typed values to one character.
- Strings are sequences of Unicode scalar values rather than UTF-16 code units. `length` is modelled separately (`JsText.Utf16Length`). The regular-expression classes and the paste's first six units agree with the code-unit reading, because a surrogate half is never a digit, white space or `@`.
- Unmount safety: when an answer's `setLoading(false)` reaches an unmounted screen after a successful log-in, React ignores it. The model drops the sign-in screen at that point.
- The other views (dashboard, properties, tenants, invoices, payments, settings) show sample data. The tenant portal keeps only local tab state, and the way back to the admin view is covered by routing. `backend_snippets.ts` is commented-out pseudo-code. Of `types.ts`, only `User` and `UserRole` are used by this logic.
