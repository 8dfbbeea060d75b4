# Login form and bearer-token middleware, modelled in Dafny

This project models the two pieces of decision logic in a small authentication flow.

- **The login/registration page** (`frontend/pages/LoginPage.tsx`). This is a React component whose seven state variables form one immutable `FormState` record. Each event handler is a pure transition: typing into either input, submitting, "Forgot your password?", and the two mode switches. A transition maps the state before the event to the state after it. It also records whether the `onLogin` callback was called. The e-mail and password validators are modelled too.
- **The bearer-token middleware** (`backend/middleware/authMiddleware.js`). It is a function from the optional `Authorization` header to an `Outcome`: whether verify was called, what `req.user` holds, how often `next` was called, and the list of 401 responses sent. It is a list because this code can send two. Token verification and the user lookup are parameters:
  - `verify : Option<string> -> Option<C>` gets the token, which may be undefined. `None` means it threw.
  - `lookup : C -> Lookup` can throw, resolve to null, or find an account.

Modules:

- `Wrappers` has `Option`.
- `JsStrings` models the JavaScript string operations the code uses: `startsWith`, `split(" ")`, the UTF-16 `length`, and the regular-expression class `\s`. It also holds two auxiliary definitions that the code does not call: `IndexOf` decides the e-mail pattern constructively and finds separators, and `Join` states that `Split` loses nothing.
- `Validators` has the two validators.
- `LoginPage` has the form state machine.
- `AuthMiddleware` has the middleware as written and a corrected variant.

Strings are sequences of Unicode scalar values. JavaScript's `length` counts UTF-16 code units, so `validatePassword` is modelled with `Utf16Length`. A character above U+FFFF counts twice. The e-mail pattern gives the same verdict over scalar values as over code units, because a surrogate is neither whitespace nor '@'.

Points where the code does something other than the `Bearer <token>` convention its own comment names (authMiddleware.js line 10), or other than a reader might expect; the model follows the code:

- The scheme test is `startsWith("Bearer")` with no space, so `"Bearerx abc"` passes it and yields the token `"abc"`.
- The token is the second field of `split(" ")`, not the rest of the header.
- A lookup that resolves to null is not rejected.
- An empty or absent token is not rejected before verify is called. It is also not failed closed with a single response.
- The e-mail pattern's last run excludes '@' as well as whitespace.
- `handleForgotPassword` does not clear a previously shown message when it reports an error.

## Model

| member | source | states |
|---|---|---|
| JsStrings.IndexOf | frontend/pages/LoginPage.tsx:18 | an auxiliary definition, not a call the code makes: the result is the first position holding the character, or none exactly when the character does not occur (used to decide the e-mail pattern by splitting an address at its '@', and to split a header at its first space) |
| JsStrings.Split | backend/middleware/authMiddleware.js:11 | `split(" ")` yields at least one field, no field contains the separator, and joining the fields with the separator gives the input back |
| JsStrings.SplitOfJoin | backend/middleware/authMiddleware.js:11 | conversely, splitting a join of separator-free fields gives those fields back, so split and join are inverse |
| JsStrings.Utf16Length | frontend/pages/LoginPage.tsx:22 | JavaScript's `length` lies between the number of characters and twice it, and equals the number of characters exactly when none is above U+FFFF |
| Validators.ValidateEmailIsPattern | frontend/pages/LoginPage.tsx:18 | the split-at-'@' validator accepts exactly the strings `^[^\s@]+@[^\s@]+\.[^\s@]+$` matches: a non-empty local part free of whitespace and '@', then '@', then a domain free of whitespace and '@' with a '.' neither first nor last |
| Validators.ValidEmailHasOneAt | frontend/pages/LoginPage.tsx:18 | every accepted address contains exactly one '@' |
| Validators.ValidatePasswordLength | frontend/pages/LoginPage.tsx:21-22 | an accepted password has at least three characters; for passwords of Basic Multilingual Plane characters it is accepted exactly when it has at least six characters and one of `!@#$%^&*(),.?":{}|<>` |
| Validators.AstralPasswordAccepted | frontend/pages/LoginPage.tsx:21-22 | four characters, three of them above U+FFFF plus '!', pass the length test (seven code units) |
| LoginPage.FirstRejection | frontend/pages/LoginPage.tsx:29-42 | the checks run in order: an empty field first, then the e-mail pattern, then the password rule; the first that fails is reported, and none fails exactly when both validators accept |
| LoginPage.OnSubmit | frontend/pages/LoginPage.tsx:24-61 | a refused submission shows its error, clears the message and changes nothing else. An accepted one in register mode fills the single registered slot with the submitted pair, empties the inputs, switches to sign-in and shows the success message. In sign-in mode it never changes the mode, inputs or slot. `onLogin` is called exactly when the accepted pair equals the registered pair, and otherwise the "credentials are incorrect" error is shown. An error and a message are never both shown afterwards |
| LoginPage.OnForgotPassword | frontend/pages/LoginPage.tsx:63-72 | with nobody registered it shows the "no user registered" error; when the e-mail input equals the registered e-mail it shows the reset message and clears the error; otherwise it shows the "enter your registered email" error. The error branches keep the old message, and the mode, inputs and slot never change |
| LoginPage.OnToggle | frontend/pages/LoginPage.tsx:166-183 | each mode switch sets the mode to its fixed value and clears error and message, leaving the inputs and the registered slot unchanged |
| LoginPage.StepFacts | frontend/pages/LoginPage.tsx:44-59 | only an accepted register-mode submission changes the registered slot; `onLogin` is only called when the slot is filled; every event keeps the slot either empty or holding a pair both validators accept |
| LoginPage.RunAppend | frontend/pages/LoginPage.tsx:24-72 | running two event sequences in turn is running their concatenation, with login and registration counts added |
| LoginPage.RunKeepsSlotInvariant | frontend/pages/LoginPage.tsx:44-51 | along any event sequence the registered slot stays empty or holds a validated pair |
| LoginPage.NoLoginWithoutRegistration | frontend/pages/LoginPage.tsx:29-56 | from any state with an empty slot, a run without a successful registration never calls `onLogin`, because empty fields are refused and so never equal the empty slot |
| LoginPage.NoLoginBeforeRegistration | frontend/pages/LoginPage.tsx:9-56 | from the initial page, every event sequence, and therefore each of its prefixes, calls `onLogin` only if a registration succeeded |
| LoginPage.WeakPasswordScenario | frontend/pages/LoginPage.tsx:39-42 | submitting `a@b.com` / `abc123` shows the password error and changes nothing else |
| LoginPage.SignUpScenario | frontend/pages/LoginPage.tsx:44-51 | switching to register mode, typing a valid pair and submitting ends in sign-in mode with empty inputs, the pair registered and the success message, after one registration |
| LoginPage.SignInScenario | frontend/pages/LoginPage.tsx:53-59 | after that, typing the registered e-mail and a valid password and submitting calls `onLogin` once if the password matches, and otherwise shows the "credentials are incorrect" error |
| LoginPage.RegisterThenSignIn | frontend/pages/LoginPage.tsx:24-61 | the sign-up and sign-in sequences back to back from the initial page give one registration, and one login exactly when the passwords agree |
| LoginPage.SampleSession | frontend/pages/LoginPage.tsx:24-61 | signing up as `user@test.com` / `Pass!1` and then signing in with `Pass!1` logs in, and with `Wrong!1` shows the credentials error |
| AuthMiddleware.ExtractTokenIsSecondField | backend/middleware/authMiddleware.js:11 | there is a token exactly when the header contains a space, and the token is the text between the first space and the next one (or the end) |
| AuthMiddleware.SampleTokenPresent | backend/middleware/authMiddleware.js:11 | `"Bearer abc"` gives the token `"abc"` |
| AuthMiddleware.SampleTokenAbsent | backend/middleware/authMiddleware.js:11 | `"Bearer"` and `"Bearerabc"` give no token |
| AuthMiddleware.SampleTokenEmpty | backend/middleware/authMiddleware.js:11 | `"Bearer  abc"` (two spaces) gives the empty token |
| AuthMiddleware.Attached | backend/middleware/authMiddleware.js:17 | `req.user` is assigned null when the lookup resolves to null, and otherwise the found account without its password |
| AuthMiddleware.Middleware | backend/middleware/authMiddleware.js:4-29 | without a header starting with "Bearer", verify and `next` are not called and exactly one "no token" 401 is sent. With such a header verify is always called, whatever the token, and `next` is called (once) exactly when the try block completes, that is, verify accepts the token and the lookup returns; `req.user` then holds the lookup's result, even null, and is otherwise never assigned. A non-empty token draws no response when the try block completes and exactly one "token failed" 401 when it does not. An absent or empty token always ends with "no token": alone when the try block completed, so an empty token that verifies is both passed on and rejected, and after "token failed" when it failed. `next` is called at most once, and exactly when a user was assigned |
| AuthMiddleware.DoubleResponseOnBareScheme | backend/middleware/authMiddleware.js:8-28 | for the header `"Bearer"`, whenever verify rejects the missing token, the responses are "token failed" followed by "no token" |
| AuthMiddleware.NullUserForwarded | backend/middleware/authMiddleware.js:17-19 | for `"Bearer abc"` whose token verifies to an id with no account, the request is passed on once with `req.user` null and no response |
| AuthMiddleware.EmptyTokenForwardedAndRejected | backend/middleware/authMiddleware.js:11-27 | for `"Bearer  abc"` (an empty token) that verify accepts and whose lookup finds an account, the request is passed on once with that account attached and is also answered "no token" |
| AuthMiddleware.MiddlewareIntended | backend/middleware/authMiddleware.js:4-29 | the corrected middleware always either calls `next` once with a user attached and no response, or sends exactly one 401 without `next`. It answers "no token" exactly when there is no header starting with "Bearer"; any other rejection is exactly one "token failed", including a Bearer header whose token is absent or empty. It calls verify exactly when the Bearer header has a non-empty token, and `next` exactly when that token also verifies and the lookup finds an account, which is then attached without its password |
| AuthMiddleware.IntendedDiffersOnlyOnDefects | backend/middleware/authMiddleware.js:4-29 | the code as written and the corrected middleware agree exactly when there is no Bearer header, or when the token is non-empty and either fails verification or the lookup does not resolve to null |

## Left out

- `frontend/services/authService.ts`: `register` and `login` are HTTP posts plus a `localStorage` write. The page imports them but never calls them, so they are not part of this model.
- JSX rendering and styling of the page. Button visibility is not made a restriction on event sequences: the forgot-password button exists only in sign-in mode, and only one mode switch is shown at a time. Every property is proved for arbitrary event sequences, which include the ones the page offers.
- The browser's own form validation (`required` and `type="email"` on the inputs) can stop the submit event before `handleSubmit` runs. It is not modelled: the handler is modelled as invoked on every submit.
- React's batching of `setState` calls. Each handler is a function of the state before the event, and the last write to a variable wins.
- What `onLogin` does in the host application. Only the fact that it was called is recorded.
- The internals of token verification (signature, expiry, the secret read from the process environment) and of the user store. Both are abstract parameters.
- Logging of the caught error, and `async`/`await` scheduling. The middleware is one sequential step.
- Express's refusal of a second response on the same request. The model records both attempted responses, in order.
- A `next()` that throws into the middleware's `catch`. `next` is assumed to return normally.
- That verifying the same token twice yields the same identity. This holds by construction, since verify and lookup are functions; there is no lemma for it.

## Findings

| source | as written | input that shows it | evidently intended | confidence | as-written member | corrected member |
|---|---|---|---|---|---|---|
| backend/middleware/authMiddleware.js:20-28 | after the `catch` has sent "token failed", the unconditional `if (!token)` sends "no token" on the same request | header `Bearer` (or `Bearer  x`): the token is undefined (or empty) and verify rejects it | exactly one 401 per request, and none for a request that is passed on; a Bearer header without a usable token fails closed with the single "token failed" response, as a `return` after the catch's response would give (with `Bearer  x` and an empty token that verifies, the code instead passes the request on and also answers "no token") | not executed; needs verify to reject an undefined or empty token, as the usual library does | AuthMiddleware.DoubleResponseOnBareScheme | AuthMiddleware.MiddlewareIntended |
| backend/middleware/authMiddleware.js:17-19 | a lookup that resolves to null is assigned to `req.user` and `next()` is called | header `Bearer abc` where `abc` verifies to the id of a deleted account | a lookup miss is rejected with "token failed" | not executed | AuthMiddleware.NullUserForwarded | AuthMiddleware.MiddlewareIntended |
