# Check-in kiosk submit flow, modelled in Dafny

A student types a TIP email address and a student number into the kiosk's form.
Pressing "Start Session" runs the following steps:

1. It checks the email against `^[\w\.-]+@tip\.edu\.ph$` with Python's `re.match`.
2. It checks that the student number is exactly seven characters long.
3. It posts the entry once to the registry (`insert_user`).
4. If the registry acknowledges the entry, it clears both fields, hides the main window and starts the timer window with the submitted email and number. The timer's `timer_closed` signal is connected to `show_main_window`, which makes the form visible again.

Each refusal shows one message box and leaves the fields as they were.

Modules:

- `EmailPattern` (email_pattern.dfy) covers the pattern. `FullMatch` says what the pattern means. `ReMatch` models the regex engine as a greedy run plus backtracking, and is proved equal to `FullMatch`. The module also gives the pattern in closed form. `\w` is a parameter `isWord: char -> bool`, so every result holds for any table of word characters. `$` also matches just before one final newline, as Python's does.
- `Validation` (validation.dfy) holds the two checks in their order.
- `Registration` (registration.dfy) models `insert_user` on an abstract reply. The reply is either a transport fault or a status code with a JSON body. The exceptions of the `try` block are modelled as outcomes.
- `CheckIn` (check_in.dfy) has `Step`, the pure effect of one submit on the screen state, and `ShowMainWindow`. Class `Kiosk` holds the module-level widget state in fields: the two field texts, the window's visibility and `timer_window`. Its `Submit` and `SessionClosed` methods update those fields and are tied to `Step` and `ShowMainWindow` by their contracts. Class `TimerWindow` stands for the timer module. It records the entry it was started with and the slots connected to its closed signal.
- `Scenarios` (scenarios.dfy) holds concrete runs: a valid entry, a wrong domain, a short number, a refusal by the registry, a trailing newline.

`Kiosk.Submit` takes the registry's reply as a parameter. It stands in for the answer `requests.post` would give. The call to `insert_user` happens only when both checks pass, and the method returns the entry that call was made with.

One might expect the kiosk to do more than its code does. In these places the model follows the code:

- One might expect the local part to be limited to ASCII letters, digits, `.`, `_` and `-`. The code uses `\w`, which covers all Unicode word characters.
- One might expect the student number to be checked for digits. `on_submit` checks only its length. Digits come from the widget's `QIntValidator`, which is not modelled.
- One might expect closing a session to do nothing when no session is running. `show_main_window` shows the window whatever the state.
- One might expect a failed registration to discard the entry. The code keeps both fields as typed, so the student can press the button again.

## Model

| member | source | states |
|---|---|---|
| EmailPattern.GreedyRun | main.py:34 | the greedy `[\w\.-]+` consumes a run of class characters and stops only at the end or at a character outside the class |
| EmailPattern.Backtrack | main.py:34 | giving characters back one at a time succeeds exactly when the tail matches after some position between 1 and the greedy run |
| EmailPattern.BacktrackIsMatches | main.py:34 | greedy run plus backtracking accepts exactly the texts of the form non-empty class run, then the literal, then an optional final newline |
| EmailPattern.ReMatchIsFullMatch | main.py:34 | the `re.match` model accepts exactly the texts the email pattern means |
| EmailPattern.MatchesShape | main.py:34 | closed form of `^[\w\.-]+lit$`: text ends in `lit` or in `lit` plus newline, and everything before is a non-empty class run |
| EmailPattern.FullMatchShape | main.py:34 | the same closed form for `@tip.edu.ph` |
| EmailPattern.AcceptsLocalAtDomain | main.py:34 | every non-empty class run followed by `@tip.edu.ph`, with or without one final newline, is accepted |
| EmailPattern.RejectsOtherSuffix | main.py:34-36 | a text ending neither in `@tip.edu.ph` nor in `@tip.edu.ph` plus newline is refused |
| EmailPattern.RejectsBareDomain | main.py:34-36 | an empty local part is refused |
| EmailPattern.RejectsBadLocalChar | main.py:34-36 | a character outside `[\w.-]` anywhere in the local part (everything before the domain and the optional final newline) is refused |
| Validation.Validate | main.py:33-41 | the email is judged first, and only by the pattern; the number is judged only if the email passed, and only by its length being 7; accepted exactly when both pass |
| Validation.EmptyFieldsRejected | main.py:34-41 | an empty email is refused as an email error; an empty number is never accepted |
| Registration.TryBlock | main.py:14-24 | the `try` block raises exactly on a transport fault, or on status 200 with a body that is not a JSON object; when it returns, it returns true exactly on status 200 with `"status": "success"` |
| Registration.InsertUser | main.py:12-27 | `insert_user` is true exactly when the status is 200 and `status` is `"success"`; every exception yields false |
| CheckIn.Step | main.py:29-61 | registration is attempted exactly when both checks pass, with the fields as submitted; a bad email shows only the email warning and changes nothing; a bad number, after a good email, shows only the number warning and changes nothing; success clears both fields, hides the window and starts the timer with the submitted entry and `show_main_window` connected; failure shows only the submission error and changes nothing |
| CheckIn.ShowMainWindow | main.py:63-65 | the window becomes visible; fields and timer are unchanged |
| CheckIn.ShowMainWindowIdempotent | main.py:63-65 | showing the window twice is the same as once |
| CheckIn.HiddenOnlyAfterAcknowledgement | main.py:44-53 | a submit hides a visible window only if registration was attempted with the submitted entry and the registry acknowledged it |
| CheckIn.RefusalRepeats | main.py:34-41 | a refused submit leaves the state so that pressing again gives the same result |
| CheckIn.SessionRoundTrip | main.py:44-65 | an acknowledged submit followed by the timer closing gives a visible form with empty fields and a timer holding the submitted entry |
| CheckIn.TimerWindow.Start | main.py:57 | the timer window remembers the email and number it was started with and has nothing connected yet |
| CheckIn.TimerWindow.Connect | main.py:59 | connecting appends the slot to the closed signal's slots |
| CheckIn.Kiosk.constructor | main.py:152-157 | the form starts visible with empty fields and no timer |
| CheckIn.Kiosk.Submit | main.py:29-61 | the fields, visibility and timer window after the call, the boxes shown and the entry registered are those `Step` gives for the state before the call; an acknowledged registration starts a new timer window, and every other submit keeps the same timer window object |
| CheckIn.Kiosk.SessionClosed | main.py:63-65 | the state after the call is `ShowMainWindow` of the state before; the timer window is the same object |
| Scenarios.SimpleAddressMatches | main.py:34 | `a@tip.edu.ph` matches |
| Scenarios.ValidEntryStartsSession | main.py:29-59 | `a@tip.edu.ph`, `1234567`, acknowledged: one registration, fields cleared, window hidden, timer started with the entry |
| Scenarios.TrailingNewlineAccepted | main.py:34 | `a@tip.edu.ph` followed by a newline passes validation |
| Scenarios.OtherDomainRefused | main.py:34-36 | `a@gmail.com` shows the email warning, registers nothing and keeps the fields, whatever the number |
| Scenarios.UpperCaseDomainRefused | main.py:34 | the domain is matched case-sensitively |
| Scenarios.SecondAtRefused | main.py:34 | with `@` not a word character, `a@b@tip.edu.ph` is refused |
| Scenarios.BadLastLocalCharRefused | main.py:34-36 | with `!` not a word character, `x!@tip.edu.ph` is refused |
| Scenarios.ShortNumberRefused | main.py:39-41 | a five-character number after a valid email shows the number warning, registers nothing and keeps the fields |
| Scenarios.RegistryRefusalKeepsFields | main.py:44-61 | a reply whose status is not `"success"` gives one registration attempt, the submission error, and unchanged fields |

## Left out

- Python's table of Unicode word characters for `\w`: it is a parameter `isWord`, and no result depends on its contents beyond what a lemma's `requires` states.
- `QIntValidator(0, 9999999)` on the number field (main.py:113-114): it is Qt behaviour. The model allows any text in the field, and nothing claims that `on_submit` checks digits.
- Whether a `QLineEdit` can hold a trailing newline at all is Qt behaviour. The model follows the pattern, which would accept one.
- The HTTP transport, the endpoint URL and the JSON payload sent (main.py:10, 15-19): the registry's reply is an input value.
- The timer module (main.py:8, 57): it is not part of this model beyond start, the recorded entry and the connected closed slot. How the countdown runs and when it emits `timer_closed` are not modelled.
- `print` logging (main.py:23, 26, 47), and `response.text` read only for that log.
- Window geometry, style sheets, icons, background and placeholder text (main.py:72-139): presentation only.
- `closeEvent` (main.py:141-150): it depends on Qt's modal dialog.
- `QApplication` start-up and the event loop (main.py:152-160): the constructor of `Kiosk` stands for the state `window()` leaves behind.
- Message boxes are returned as values. The modal blocking of `QMessageBox` is not modelled.
- The blocking of the interface during the network call, threading and concurrency.
