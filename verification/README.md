# Token lifecycle of `AuthService` (nestjs-jwt-refresh), modelled in Dafny

This project models the authentication service of a NestJS application that
issues a short-lived access token and a long-lived refresh token, and stores
a bcrypt hash of the current refresh token in the user's row (`hashedRt`).
It covers four operations: `signupLocal`, `signinLocal`, `logout` and
`refreshTokens`. It also covers their helpers `getTokens`, `updateRtHash`
and `hashData`. Each operation is a pure transition over an immutable user
table `map<int, User>` and returns the caller-visible result together with
the table afterwards.

Files:

- `wrappers.dfy` (`Wrappers`): `Option` and `Result`.
- `bcrypt.dfy` (`Bcrypt`): a symbolic bcrypt. A digest records the cost factor,
  the salt and the hashed value. `Compare` accepts exactly that value, whatever
  salt was drawn.
- `jwt.dfy` (`Jwt`): a symbolic `signAsync`. A token keeps its claims, `iat`,
  `exp = iat + expiresIn` and the secret it was signed with. `Verify` accepts
  it under that secret strictly before `exp`.
- `store.dfy` (`Store`): the Prisma calls the service makes (`create`,
  `findUnique` by email or id, `update`, `updateMany`). It also defines the
  table invariant `Valid`: rows keyed by id, ids from the sequence, unique
  emails.
- `auth_service.dfy` (`AuthService`): the service operations.
- `lifecycle.dfy` (`Lifecycle`): properties relating several calls.

Things outside the table are parameters, bundled in `AuthService.Env`:

- the clock, as whole seconds;
- the two salts bcrypt draws;
- whether the user lookup, `create`, `update` and each of the two
  `signAsync` calls succeed.

Errors are the enum `AuthError`:

- `DuplicateEmail` is the 422 of signup.
- `InternalError` is the 500 of signup.
- `AccessDenied` is the 403 `ForbiddenException`.
- `Unhandled` is a collaborator error that the service lets propagate.

The i18n message keys are not modelled.

The model follows the code where it departs from what the code evidently
intends, or from what a reader might assume:

- Refresh does not check the presented token, so a superseded refresh token
  keeps working (see Findings).
- Rotation need not produce a different refresh token. Tokens carry no nonce,
  so two issuances in the same second for the same user are identical
  (`Lifecycle.RefreshTokenDeterminedBySecond`).
- Signup is not atomic. A failure after `create` leaves the row behind
  (`Lifecycle.SignupPartialFailureKeepsRow`).
- The secrets are hard-coded: `'at-secret'` and `'rt-secret'`.

## Model

| member | source | states |
|---|---|---|
| Bcrypt.Hash | src/auth/auth.service.ts:124-126 | a digest made at a given cost accepts the data it was made from |
| Bcrypt.CompareHash | src/auth/auth.service.ts:63 | a digest accepts a value exactly when it was made from that value, whatever the salt (bcrypt idealised as collision-free) |
| Jwt.Sign | src/auth/auth.service.ts:130-149 | a signed token verifies under its own secret, with its claims, strictly before `now + expiresIn`; it never verifies under another secret |
| Store.FindByEmail | src/auth/auth.service.ts:54-58 | finds nothing exactly when no row holds the email; otherwise returns a row of the table holding that email |
| Store.FindById | src/auth/auth.service.ts:94-98 | finds the row stored under the id exactly when there is one |
| Store.Create | src/auth/auth.service.ts:26-31 | succeeds exactly when the store is up and neither the email nor the next id is taken; `P2002` exactly when the store is up and one of them is taken; on success one new row under a fresh id with the given email and hash and a null refresh digest |
| Store.SetHashedRt | src/auth/auth.service.ts:114-121 | succeeds exactly when the row exists and the store is up; changes only that row's `hashedRt` |
| AuthService.HashData | src/auth/auth.service.ts:124-126 | the digest has cost 10 and accepts exactly the hashed value |
| AuthService.GetTokens | src/auth/auth.service.ts:128-155 | both tokens or none (fails exactly when a signing fails); both carry `{sub, email}`; access verifies only under 'at-secret' for 900 s, refresh only under 'rt-secret' for 604800 s |
| AuthService.UpdateRtHash | src/auth/auth.service.ts:112-122 | succeeds exactly when the update succeeds on an existing row; then only that row's `hashedRt` changes, to a cost-10 digest accepting exactly the given token |
| AuthService.SignupError | src/auth/auth.service.ts:36-49 | the catch block yields only 422 or 500, 422 exactly for `P2002` |
| AuthService.SignupLocal | src/auth/auth.service.ts:23-51 | errors are only `DuplicateEmail`/`InternalError`; `DuplicateEmail` exactly when `create` hits a taken email or id, and then the table is unchanged; success adds exactly one row with the email and a password digest, its `hashedRt` accepts the returned refresh token, and the pair is for the new id; with a valid table, a fresh email and no collaborator failing, signup succeeds; a failed `create` leaves the table unchanged, and every failure keeps all existing rows as they were, adding at most the new row under the next id with the email and a null `hashedRt` |
| AuthService.SigninLocal | src/auth/auth.service.ts:53-78 | a failed lookup propagates with the table unchanged; otherwise `AccessDenied` exactly when the email is unknown or the password does not match; every failure leaves the table unchanged; success rotates only that user's `hashedRt` to accept the returned refresh token, and echoes the user id exactly when `containsUserId` is `'true'` |
| AuthService.Logout | src/auth/auth.service.ts:79-92 | same keys; rows with another id are untouched; rows with that id keep id, email and hash and have a null `hashedRt` |
| AuthService.RefreshTokens | src/auth/auth.service.ts:93-110 | as written: a failed lookup propagates with the table unchanged; `AccessDenied` exactly when the lookup works and the id is absent; with a valid table and no collaborator failing, a present user always gets a new pair, whatever token is presented; on success only that row's `hashedRt` changes, to accept the returned refresh token |
| AuthService.RefreshTokensChecked | src/auth/auth.service.ts:93-110 | as intended: `AccessDenied` exactly when the lookup works and the row is absent, logged out, or its digest does not accept the presented token; with a valid table and no collaborator failing, a token the digest accepts always gets a new pair; success rotates only that row's `hashedRt` |
| Lifecycle.SignupPreservesValid | src/auth/auth.service.ts:26-34 | signup keeps ids keyed, below the sequence, and emails unique |
| Lifecycle.SigninPreservesValid | src/auth/auth.service.ts:67-68 | signin keeps the table invariant |
| Lifecycle.LogoutPreservesValid | src/auth/auth.service.ts:81-91 | logout keeps the table invariant |
| Lifecycle.RefreshPreservesValid | src/auth/auth.service.ts:107-108 | both refresh variants keep the table invariant |
| Lifecycle.SignupUsesNextId | src/auth/auth.service.ts:26-33 | the new user's id is the next sequence value and the tokens carry it with the email |
| Lifecycle.SignupTwiceIsDuplicate | src/auth/auth.service.ts:39-44 | a second signup with the same email gives `DuplicateEmail` and leaves the table unchanged |
| Lifecycle.SignupPartialFailureKeepsRow | src/auth/auth.service.ts:33-49 | a signing or update failure after `create` gives `InternalError`, and the row stays with a null `hashedRt` and a working password; a later signup with that email gets `DuplicateEmail` |
| Lifecycle.SigninRefusalsIndistinguishable | src/auth/auth.service.ts:60-65 | once the lookup works, an unknown email and a wrong password give identical outcomes: same error, table unchanged |
| Lifecycle.SigninSucceedsUnlessRefused | src/auth/auth.service.ts:60-77 | with no collaborator failing, signin succeeds exactly when the email is known and the password matches |
| Lifecycle.LogoutIdempotent | src/auth/auth.service.ts:79-92 | logging out twice equals logging out once |
| Lifecycle.LogoutNoopWhenNothingToClear | src/auth/auth.service.ts:81-91 | an unknown id, or a user already logged out, leaves the table unchanged |
| Lifecycle.LogoutClearsOneSlot | src/auth/auth.service.ts:81-91 | under the invariant, logout changes only the `hashedRt` of the row under that id, and makes it null |
| Lifecycle.RefreshTokenDeterminedBySecond | src/auth/auth.service.ts:128-155 | two issuances for one user give the same refresh token exactly when they happen in the same second |
| Lifecycle.AccessTokenMatchesStrategySecret | src/auth/strategies/at.strategy.ts:16 | the access token verifies under the strategy's fallback secret for exactly 900 s; the refresh token never does |
| Lifecycle.RefreshIgnoresPresentedToken | src/auth/auth.service.ts:103-105 | as written, the presented token does not affect the outcome |
| Lifecycle.RefreshAcceptsSupersededToken | src/auth/auth.service.ts:93-110 | as written: after a refresh rotates the slot so that its digest no longer accepts the token presented, presenting that superseded token again still yields a new pair |
| Lifecycle.RefreshSupersededExample | src/auth/auth.service.ts:103-108 | a concrete user refreshes at second 100 with the token issued at second 50, then presents that superseded, still unexpired token at second 200 and gets a new pair |
| Lifecycle.RefreshCheckedAfterLogoutDenied | src/auth/auth.service.ts:79-110 | when the lookup works, the intended refresh refuses a logged-out user with any token and leaves the table unchanged |
| Lifecycle.SigninThenRefreshChecked | src/auth/auth.service.ts:67-68 | the refresh token returned by signin is accepted by the intended refresh |
| Lifecycle.RotationSupersedes | src/auth/auth.service.ts:107-108 | after an intended refresh, a token is accepted exactly when it equals the token just returned |

## Left out

- Prisma beyond the four calls the service makes. The HTTP status of errors
  that reach the controller's Prisma exception filter is also left out: that
  filter is not part of this model, so they appear as `Unhandled`.
- bcrypt internals: the real hash, timing, and the 72-byte input limit.
  `Compare` checks the whole value. Real bcrypt reads only the first 72
  bytes of a refresh token. For one user those bytes are the JWT header and
  the start of the `{sub, email}` payload, and they are usually the same for
  every token that user gets. So even an awaited compare would usually accept
  that user's superseded tokens.
- Lifecycle.RotationSupersedes: holds for the idealised `Compare` only,
  because of the 72-byte limit above.
- JWT serialisation and HMAC. Tokens are kept in decoded form.
- `hashData` failing at line 24, outside the `try`. The model assumes it
  succeeds.
- A database failure inside `logout`'s `updateMany`. `Logout` is total.
- AuthService.RefreshTokens: for a row whose `hashedRt` is null, the
  un-awaited `bcrypt.compare` rejects and nothing handles the rejection.
  The model assumes the runtime only reports it and the call goes on to
  issue a pair. Under Node's default handling of unhandled rejections, the
  process terminates instead. No lemma about the as-written refresh uses a
  null digest.
- `Promise.all` concurrency, and the last-writer-wins race on `hashedRt`
  between concurrent signin and refresh calls. Each issuance is sequential
  and atomic.
- How the database assigns ids. The model assumes a sequence-backed id:
  `nextId` is the next value, and it advances only when an insert succeeds.
  A database that consumes a value on a failed insert is not modelled.
- The i18n lookup of messages. Errors are an enum.
- The controller's routing and its two identical signin branches. The
  request guards (`AtGuard`, `RtGuard`) are not part of this model. Of the
  access-token strategy, only its fallback secret is kept, as a constant.
  `validate` returns the payload unchanged. Module wiring is left out.
- AuthService.RefreshTokens: its success clauses are stated only for tables
  satisfying `Store.Valid`. The row is found by key but updated by its id
  column, and these agree only under the invariant.
- AuthService.SigninLocal, AuthService.RefreshTokens and
  AuthService.RefreshTokensChecked: a failed lookup and a failed update give
  the same propagated store error. The contracts say only that a failed
  lookup gives that error.
- AuthService.RefreshTokensChecked: its success clauses are likewise stated
  only under `Store.Valid`.

## Findings

| source | as written | input that shows it | evidently intended | confidence | as-written member | corrected member |
|---|---|---|---|---|---|---|
| src/auth/auth.service.ts:103-105 | `bcrypt.compare` is not awaited, so `rtMatches` is a Promise and always truthy; the `ForbiddenException` never fires and a null `hashedRt` is never checked | user 1 holds the refresh token issued at second 50 and refreshes with it at second 100. The slot now holds the digest of a different token. At second 200 user 1 presents the superseded, still unexpired token again and gets a new pair | refuse with `AccessDenied` when `hashedRt` is null or does not accept the presented token, so that only the most recently issued token works | high; not executed | Lifecycle.RefreshAcceptsSupersededToken | Lifecycle.RotationSupersedes |
