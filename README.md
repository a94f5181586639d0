# Activity tracking: timed sessions, sign-up and accounts

This project models the core of a fitness-tracking application in Dafny and proves properties of that model:

- **Label-addressed timer API** (`activity-tracking/routes/sessions.js`). `POST /sessions/start` opens a session for a username. `POST /sessions/stop` closes it, by session id or by username, and stores its duration from the two server timestamps. `GET /sessions?user=` lists a user's sessions, most recent first. The store is a class `Sessions.SessionStore` over a sequence of documents. It keeps an invariant: every saved document passed its schema, and ids are distinct. Start and stop also preserve the single-active-session property: no user has two open sessions.
- **Identity-addressed timer API** (`activity-tracking/routes/timer-sessions.js`, module `TimerSessions`). Records are created, listed and read behind the JWT gate. The owner always comes from the verified identity. Another user's record reads as "not found".
- **Schemas** of the Session, TimerSession, Exercise and CalorieRate documents. Each is modelled as the set of schema paths whose validator rejects a document. `CalorieModel.CalorieRateCollection` adds the unique index on `exerciseType`.
- **The Timer component** (`frontend/src/components/Timer.js`). It is a class over the component's state hooks, with start, tick and stop. It also has the `HH:MM:SS` display, which is proved to round-trip.
- **The sign-up form** (`frontend/src/components/signup.js`), covering:
  - the password-strength meter;
  - the nine field validators with their exact messages;
  - `runAllValidators`, a loop that builds the error map;
  - the submit gate, which posts only a form every validator accepts;
  - how the form reads the auth service's answer.
- **The auth service's account handlers** (`authservice/.../AuthController.java`): sign-up, login, forgot-password and reset-password. They are transitions of the class `Auth.AuthController` over a user table (a `map` from document id to user). `SignupFlow` joins the form to `registerUser`.

Time is in milliseconds (`Base.Time`). An absent JSON field or a null is `None`. Each reply status and message is the one the handler sends, except for the replies listed under "## Left out".

## Model

| member | source | states |
|---|---|---|
| Ordering.AtOrAfterTotal | activity-tracking/routes/sessions.js:68 | the descending `startTime` order with missing timestamps lowest is total: of any two entries one may come first |
| Ordering.Filter | activity-tracking/routes/sessions.js:68 | `find({field: value})` keeps exactly the documents that match, each with its multiplicity, and never more than there were |
| Ordering.Insert | activity-tracking/routes/sessions.js:68 | inserting into a descending sequence keeps it descending and adds exactly that one element |
| Ordering.SortDesc | activity-tracking/routes/sessions.js:68 | `.sort({ startTime: -1 })` returns a permutation of its input ordered most recent first, missing start times last |
| Ordering.SortedFilterMembers | activity-tracking/routes/sessions.js:68 | a sorted query result holds an element exactly when the store holds it and it matches |
| SessionModel.SessionRules | activity-tracking/models/session.model.js:4-19 | a missing or empty username, a missing startTime, an exerciseType outside the five values and a negative duration each fail validation; a document is valid if and only if none of these holds |
| SessionModel.SessionOptionalFields | activity-tracking/models/session.model.js:7-15 | label, description and endTime carry no validator: dropping them never changes validity |
| Sessions.RoundedSeconds | activity-tracking/routes/sessions.js:52 | `Math.round(ms / 1000)` is the whole number of seconds within half a second of `ms`, halves rounded up |
| Sessions.RoundedSecondsSign | activity-tracking/routes/sessions.js:52 | the rounded duration is negative exactly when the interval is more than 500 ms negative |
| Sessions.LatestOpen | activity-tracking/routes/sessions.js:45 | `findOne({username, endTime: null}).sort({startTime: -1})` finds nothing if and only if the user has no open session, and otherwise an open session of the user with the greatest start time |
| Sessions.IndexOfId | activity-tracking/routes/sessions.js:41-42 | `findById` finds nothing if and only if no document has that id, and otherwise the document with it |
| Sessions.Closed | activity-tracking/routes/sessions.js:51-52 | stopping sets `endTime` to now and the duration to the rounded elapsed seconds, and changes no other field |
| Sessions.ResolveStop | activity-tracking/routes/sessions.js:37-49 | the stop target: 400 without username and id; 404 for an unknown id; 400 for an id that is already stopped; 400 when the user has no open session; otherwise an open session, by id or the user's latest |
| Sessions.ClosedValidity | activity-tracking/routes/sessions.js:51-53 | closing a valid document keeps it valid if and only if the stop time is at most 500 ms before the start time |
| Sessions.ResolvedAgree | activity-tracking/routes/sessions.js:45 | when several equally recent open sessions could be picked, they all pass or all fail the save |
| Sessions.CloseKeepsInvariants | activity-tracking/routes/sessions.js:51-53 | closing an open session keeps ids distinct and documents valid, keeps the single-active property, and leaves its owner with no open session |
| Sessions.SessionsOf | activity-tracking/routes/sessions.js:68 | the user's sessions are exactly the stored sessions with that username |
| Sessions.SessionStore.constructor | activity-tracking/models/session.model.js:21 | an empty collection satisfies the store invariant and the single-active property |
| Sessions.SessionStore.Start | activity-tracking/routes/sessions.js:6-31 | 400 without a username; 400 "Timer is already running" while the user has an open session; 500 when the exerciseType fails the schema; otherwise exactly one new open document stamped with the server time; the store invariant and single-active property are kept, and nothing changes on an error |
| Sessions.SessionStore.Stop | activity-tracking/routes/sessions.js:34-60 | every rejection of `ResolveStop` with its status and message; 500 when the closed document fails validation; success exactly when a target resolves and closes validly, replacing it by its closed form; invariants kept, nothing changed on an error, and no open session left for the owner |
| Sessions.SessionStore.List | activity-tracking/routes/sessions.js:63-74 | 400 without `user`; otherwise 200 with exactly the user's sessions (a permutation of them) ordered most recent first |
| Sessions.StartStopTwice | activity-tracking/routes/sessions.js:12-15 | start, start again, stop, stop again: the second start is refused as already running, the stop closes the first session with the rounded elapsed time, the second stop finds no active timer |
| Sessions.NewestFirstOfTwo | activity-tracking/routes/sessions.js:68 | two sessions with different start times have one most-recent-first order |
| Sessions.TimeOne | activity-tracking/routes/sessions.js:17-25 | a start followed by a stop by username adds one closed session of that user and leaves none open |
| Sessions.TwoSessionsListed | activity-tracking/routes/sessions.js:63-69 | after two timed sessions the listing holds both, the later start first |
| TimerSessionModel.NewTimerSession | activity-tracking/models/timer-session.model.js:4-7 | a taskLabel that was not sent becomes "Untitled Task"; one sent as null is stored as null, since the default applies only to `undefined`; a given one is kept; every other field is as passed |
| TimerSessionModel.TimerSessionRules | activity-tracking/models/timer-session.model.js:3-27 | a missing startTime, endTime, duration or userId each fail validation; valid if and only if all four are present; the label never matters |
| TimerSessions.OwnedBy | activity-tracking/routes/timer-sessions.js:28 | `find({userId})` keeps exactly the caller's records |
| TimerSessions.FindOwned | activity-tracking/routes/timer-sessions.js:39-42 | `findOne({_id, userId})` finds nothing if and only if no record has both that id and that owner, and otherwise such a record |
| TimerSessions.TimerSessionStore.constructor | activity-tracking/models/timer-session.model.js:29 | an empty collection satisfies the store invariant |
| TimerSessions.TimerSessionStore.Create | activity-tracking/routes/timer-sessions.js:6-23 | 401 without a verified identity; 201 if and only if start, end and duration are present; the record is the schema's new document, with the taskLabel default, and its owner is the caller's id whatever the body says; 400 on a schema failure; nothing changes on an error |
| TimerSessions.TimerSessionStore.List | activity-tracking/routes/timer-sessions.js:26-34 | 401 without identity; otherwise exactly the caller's records, a permutation of them, most recent first |
| TimerSessions.TimerSessionStore.Get | activity-tracking/routes/timer-sessions.js:37-52 | 401 without identity; 200 if and only if a record with that id belongs to the caller, and then that record; otherwise 404 "Timer session not found" |
| TimerSessions.NoCrossUserRead | activity-tracking/routes/timer-sessions.js:39-46 | reading another user's record by its id gives 404, never the record |
| ExerciseModel.ExerciseRules | activity-tracking/models/exercise.model.js:4-30 | each required field, the six-value enum and the duration rules fail on their own; valid if and only if all hold; the optional fields do not matter |
| ExerciseModel.WholeMinutes | activity-tracking/models/exercise.model.js:18-26 | a valid exercise's duration is a whole number of at least one |
| ExerciseModel.FractionalDurationInvalid | activity-tracking/models/exercise.model.js:21-24 | a duration of 1.5 fails the integer validator although it passes the minimum |
| CalorieModel.CalorieRules | analytics/models/calorie.model.js:4-19 | a missing or unknown exerciseType, a missing rate and a negative rate each fail; valid if and only if the type is one of the six and the rate is present and non-negative |
| CalorieModel.CalorieRateCollection.constructor | analytics/models/calorie.model.js:21 | an empty collection holds only valid, distinct-typed rates |
| CalorieModel.CalorieRateCollection.Insert | analytics/models/calorie.model.js:4-19 | schema errors come first with their paths, then the unique index refuses a taken type; an insert succeeds if and only if neither happens, and appends exactly the document |
| CalorieModel.SeedTwice | analytics/models/calorie.model.js:9 | inserting one exercise type twice succeeds the first time and is a duplicate key the second |
| Decimal.DigitChar | frontend/src/components/Timer.js:58 | the digit character of a number below ten |
| Decimal.ToDecimal | frontend/src/components/Timer.js:58 | `toString()` of a natural number is a digit string denoting it, with no leading zero unless the number is zero, one digit below 10 and two below 100 |
| Decimal.PadStart | frontend/src/components/Timer.js:58 | `padStart(width, fill)` keeps the string as a suffix, fills in front with `fill` only, and reaches the width |
| Decimal.LeadingZero | frontend/src/components/Timer.js:58 | a leading zero does not change the value of a digit string |
| Decimal.ZeroPadded | frontend/src/components/Timer.js:58 | zero padding does not change the value of a digit string |
| TimerComponent.Timer.constructor | frontend/src/components/Timer.js:8-11 | the initial hooks: not running, zero ticks, no start time, no error |
| TimerComponent.Timer.StartTimer | frontend/src/components/Timer.js:23-32 | when running: the "Timer is already running" error and nothing else changes; otherwise cleared error, count reset and start time set to now |
| TimerComponent.Timer.Tick | frontend/src/components/Timer.js:13-21 | the interval adds one second only while running |
| TimerComponent.Timer.StopTimer | frontend/src/components/Timer.js:34-52 | when stopped: "No active timer to stop" and no report; otherwise a report of the start time, now, and the number of ticks |
| TimerComponent.RunFor | frontend/src/components/Timer.js:13-52 | a run of `n` ticks reports a duration of exactly `n` seconds with the start and stop times |
| TimerComponent.Refusals | frontend/src/components/Timer.js:24-38 | a second start while running is refused with its message and keeps the first start and the count (the stop reports 1 second from the first start); a second stop is refused with its message, reports nothing and keeps the count |
| TimerComponent.ClockFields | frontend/src/components/Timer.js:55-57 | hours, minutes and seconds recombine to the input, with minutes and seconds below 60 |
| TimerComponent.DivModUnique | frontend/src/components/Timer.js:55-57 | quotient and remainder are the only pair with `a == q*b + r` and `r < b` |
| TimerComponent.ClockFieldsUnique | frontend/src/components/Timer.js:55-57 | any hours/minutes/seconds split with minutes and seconds below 60 is the one `formatTime` computes |
| TimerComponent.Pad2 | frontend/src/components/Timer.js:58 | a field's display is a digit string of at least two characters denoting it, exactly two below 100 |
| TimerComponent.FormatTime | frontend/src/components/Timer.js:54-59 | the display is eight characters below 100 hours |
| TimerComponent.ParseJoined | frontend/src/components/Timer.js:58 | three joined digit fields read back field by field, and as their weighted sum |
| TimerComponent.FormatTimeRoundTrip | frontend/src/components/Timer.js:54-59 | the display is a clock string, reading it back gives exactly the seconds it shows, and its minutes and seconds fields are below 60 |
| Signup.TrimStart | frontend/src/components/signup.js:69 | removes exactly the leading JavaScript white space, up to the first other character |
| Signup.TrimEnd | frontend/src/components/signup.js:69 | removes exactly the trailing JavaScript white space |
| Signup.CriteriaMetSplit | frontend/src/components/signup.js:29-32 | the criteria met are the union of the four tests that pass |
| Signup.CountCriteria | frontend/src/components/signup.js:28-32 | adding one per passing test counts the criteria met |
| Signup.PasswordStrength | frontend/src/components/signup.js:26-35 | an empty password is "Too short" with score 0; otherwise the score is the number of criteria met (at most four) and the label is the matching one of the five |
| Signup.ProgressVariant | frontend/src/components/signup.js:171-173 | the bar is "success" exactly at score four and "danger" exactly at scores zero and one |
| Signup.AcceptedYetVeryWeak | frontend/src/components/signup.js:70-71 | six lower-case letters pass the password validator and still score "Very weak" |
| Signup.RunAllValidators | frontend/src/components/signup.js:98-105 | the error map has an entry for exactly the fields whose validator complains, holding that validator's message |
| Signup.TrimBounds | frontend/src/components/signup.js:69 | the trimmed username is a slice of it with only white space around it and non-blank ends |
| Signup.UsernameRule | frontend/src/components/signup.js:68-69 | the username passes if and only if some two non-blank characters lie at least two positions apart |
| Signup.AgeRule | frontend/src/components/signup.js:78-83 | the age passes if and only if it is non-empty and parses to a whole number from 1 to 120 |
| Signup.AllSilentByField | frontend/src/components/signup.js:100-102 | all validators are silent exactly when each of the nine is |
| Signup.AllSilentIffRulesHold | frontend/src/components/signup.js:67-96 | every validator is silent if and only if the field rules hold, stated without the validators |
| Signup.AgeOfDigits | frontend/src/components/signup.js:78-83 | for a plain digit string that parses to its decimal value, the age passes exactly for 1 to 120 |
| Signup.Lower | frontend/src/components/signup.js:148 | folding case keeps the length, leaves no ASCII capital and keeps every other character |
| Signup.LowerIncludesAnyCase | frontend/src/components/signup.js:148 | a lower-case word occurs in the folded text at an index exactly when the original holds it there in any ASCII case |
| Signup.IncludesNeedsChar | frontend/src/components/signup.js:148 | a text lacking some character of a word does not include the word |
| Signup.SignupResponse | frontend/src/components/signup.js:145-164 | signs up under the form's username exactly when a 2xx body's text (the body itself, or its string `message`) mentions "success" in any case; otherwise shows that text or "Signup failed. Please try again."; an error reply shows its text, the request error's message for an empty text body, or "Network error. Please try again." for a JSON body without a string message |
| Signup.DefaultErrorJsonReadsAsNetworkError | frontend/src/components/signup.js:157-164 | an error reply whose JSON `message` is empty or absent, as a framework's default error reply is, is shown as "Network error. Please try again." |
| Signup.HandleSignup | frontend/src/components/signup.js:115-137 | posts if and only if the field rules hold, with the numeric fields parsed; otherwise blocks with "Please fix the highlighted fields." and field errors for exactly the failing fields, each holding that field's validator message |
| SignupFlow.RepliesRead | authservice/src/main/java/com/authservice/auth/controller/AuthController.java:41-46 | the form takes the service's success text as a sign-up and shows its refusal text as sent |
| SignupFlow.RefusalIsNotSuccess | authservice/src/main/java/com/authservice/auth/controller/AuthController.java:41 | the refusal text never passes the form's success test |
| SignupFlow.Submit | frontend/src/components/signup.js:115-163 | a form failing the rules is blocked and the service untouched; a valid form with a taken username shows the refusal; otherwise the user is signed up and the service gains exactly one user, under the fresh id, with the form's username, the encoded password, the email and no reset token |
| Auth.LookupDeterministic | authservice/src/main/java/com/authservice/auth/controller/AuthController.java:51 | a single-result query has one answer |
| Auth.UsernameLookupUnambiguous | authservice/src/main/java/com/authservice/auth/controller/AuthController.java:40-51 | with unique usernames the login lookup never finds two users |
| Auth.AuthController.constructor | authservice/src/main/java/com/authservice/auth/controller/AuthController.java:29-33 | an empty user table with the given encoder has unique usernames |
| Auth.AuthController.Find | authservice/src/main/java/com/authservice/auth/controller/AuthController.java:51 | the repository's answer: no match, the one match, or several |
| Auth.AuthController.RegisterUser | authservice/src/main/java/com/authservice/auth/controller/AuthController.java:39-47 | a taken username gives 400 "User already exists - please log in" and no change; otherwise 200 and the user is stored with `encode(password)`; usernames stay unique |
| Auth.AuthController.AuthenticateUser | authservice/src/main/java/com/authservice/auth/controller/AuthController.java:50-58 | on a valid table, 200 "User authenticated" if and only if a user of that name exists and the password matches its stored hash; otherwise 401 "Invalid credentials" |
| Auth.AuthController.ForgotPassword | authservice/src/main/java/com/authservice/auth/controller/AuthController.java:61-90 | unknown email: 404 and no change; the one user with that email gets the fresh token and nobody else changes; 200 when the mail goes out, 500 (token still saved) when it does not |
| Auth.AuthController.ResetPassword | authservice/src/main/java/com/authservice/auth/controller/AuthController.java:94-116 | no user holding the token: 400 "Invalid or expired token" and no change; the holder gets `encode(newPassword)` and loses the token, so nobody holds it afterwards; several holders: 500 |
| Auth.AuthController.ResetPasswordAsWritten | authservice/src/main/java/com/authservice/auth/controller/AuthController.java:97-109 | the handler as written: the request's token, missing or not, goes to the lookup unchecked |
| Auth.TokenlessLookup | authservice/src/main/java/com/authservice/auth/controller/AuthController.java:97 | a lookup for a null token finds the one user with no pending reset, although no request token was given |
| Auth.TokenlessResetAsWritten | authservice/src/main/java/com/authservice/auth/controller/AuthController.java:97-109 | as written, a tokenless reset replaces the password of a user who never asked for one, and the new password logs in; the corrected handler answers 400 |
| Auth.SignupThenLogin | authservice/src/main/java/com/authservice/auth/controller/AuthController.java:39-58 | a new account logs in with its password |
| Auth.SignupTwice | authservice/src/main/java/com/authservice/auth/controller/AuthController.java:40-42 | a second sign-up under the same name is refused |
| Auth.ForgotThenResetTwice | authservice/src/main/java/com/authservice/auth/controller/AuthController.java:61-116 | the reset token works once; afterwards the new password logs in and the old one does not |

## Left out

- Concurrency. The check-then-insert in `start` is not atomic. Two simultaneous starts can both pass the running check, so the single-active property holds only for requests processed one at a time.
- The JWT gate (`activity-tracking/middleware/auth.js`) is an oracle: a handler receives an identity or nothing, and nothing gives 401 "Authentication required".
- BCrypt is the `PasswordEncoder` parameter. UUID generation is the `token` parameter of `ForgotPassword`, and mail delivery is its `mailDelivered` flag. The reset link, the mail text and the log lines are not modelled.
- `new Date()` is the `now` parameter, and the Timer's one-second interval is the `Tick` method. `localStorage`, React rendering and the `onTimerStop` callback are not modelled.
- JavaScript's `Number(v)` is the uninterpreted `toNumber` parameter of the sign-up model. Floating-point rounding is not modelled.
- String lengths count Dafny characters, not UTF-16 code units. Case folding covers only ASCII letters, which is all the "success" test can meet.
- Catch-all 500 replies from the store are modelled only where a schema check fails. Those replies are: start "Failed to start timer", stop "Failed to stop timer", list "Failed to fetch sessions", and the timer-sessions list and get. Connection errors and the message text of a thrown error are not modelled.
- The 400 reply of `POST /timer-sessions` carries the start of Mongoose's message, "TimerSession validation failed", and not the per-path details. An id that is not a valid ObjectId is not modelled: in `GET /timer-sessions/:id` and in `POST /sessions/stop`, where `findById` throws a cast error and the reply is 500 "Failed to stop timer" (`activity-tracking/routes/sessions.js:41`). The model's `sessionId: Option<nat>` cannot express a malformed id.
- Uncaught exceptions in the auth service: an ambiguous lookup in `AuthenticateUser` or `ForgotPassword`, and a failed mail in `ForgotPassword`. The framework answers these with its default JSON error, status 500. The model keeps only the status and the text of its `error` field, "Internal Server Error", not the rest of the JSON.
- The success replies of `POST /sessions/start` and `POST /sessions/stop` also carry a message, "Timer started" and "Timer stopped" (`activity-tracking/routes/sessions.js:26,55`). The model returns only the status and the session.
- Timer sessions: `userId` is an ObjectId path (`activity-tracking/models/timer-session.model.js:20-24`), but the model's owner is any string. A verified identity whose `id` is not a valid ObjectId makes `create` fail with 400 and `list` and `get` fail with 500 (a cast error); the model answers 201 and 200 for it.
- Decimal.ToDecimal: models `Number.prototype.toString` only for natural numbers below 10^21, where JavaScript writes plain digits; from 10^21 on it switches to exponent notation, which the model does not produce.
- TimerComponent.ClockFields: uses exact integer division, which equals `Math.floor(seconds / 3600)` and `%` on JavaScript numbers only up to 2^53; beyond that, floating-point rounding is not modelled.
- Signup.SignupResponse: a 2xx JSON body whose `message` is a truthy non-string makes `toLowerCase` throw; the model shows the error text V8 writes for it, "message.toLowerCase is not a function", and other engines word it differently.
- Calorie rates: a failed insert reports the failing paths, not the schema's message texts ("Calories per minute must be a non-negative number").
- `createdAt` and `updatedAt` (the schemas' `timestamps`) are not modelled.
- A null versus a missing field is one case (`None`), except for the `taskLabel` of `POST /timer-sessions`, where the two differ in what is stored (`TimerSessionModel.LabelInput`). A non-string `username` in a sessions body is not modelled.
- Auth: `User.java` is not part of this model. Only the username, password, email and reset token of a user are modelled. A null username or password in a request is not modelled, and neither is an `_id` supplied in a sign-up body.
- Auth: `UserRepository.java:8` declares `findByUsername` as returning an `Optional` and declares no `findByEmail` or `findByResetToken`. The controller treats all three as nullable single results. The model gives them the intended meaning: none, the one match, or several (which throws, giving 500).
- Auth: the fresh `_id` of a registered user is the `newId` parameter.
- Sessions.SessionStore.Stop: the duration is `Math.round`, so a stop up to 500 ms before the start stores 0 and passes the `min: 0` check. The model follows that code. It does not follow the stronger statement that an end never precedes its start.
- The response handling of the sign-up page beyond the global error is not modelled. That covers the loading flag, clearing the draft, and calling `onSignup`.

## Findings

| source | as written | input that shows it | evidently intended | confidence | as-written member | corrected member |
|---|---|---|---|---|---|---|
| authservice/src/main/java/com/authservice/auth/controller/AuthController.java:97-109 | the request's token goes to `findByResetToken` unchecked; a missing token becomes a query for `null`, which matches users with no pending reset | a reset request with only `newPassword`, while exactly one stored user has no reset token | a request without a token is refused like an unknown token (400) | medium (relies on the store treating a null argument as "field is null or absent"); not executed | Auth.AuthController.ResetPasswordAsWritten, Auth.TokenlessResetAsWritten | Auth.AuthController.ResetPassword |
