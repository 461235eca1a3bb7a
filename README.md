# Refresh-token rotation (rentx accounts module)

This project models `RefreshTokenUseCase.execute` from the accounts module. The operation takes a
presented refresh token and rotates it:

1. It verifies the token with the refresh secret and reads `sub` and `email` from it.
2. It looks up the stored row that has `user_id = sub` and exactly that token string. If there
   is none, it throws `AppError("Refresh token does not exists!")`.
3. It deletes that row by its id.
4. It computes the new expiry with the date provider's `addDays`.
5. It signs a new refresh token that carries `{ email }`, and stores it as a new row.
6. It signs a new access token with an empty body, and returns both tokens.

The model has four modules:

- `Wrappers`: `Option` and `Result`.
- `JsonWebToken`: the library's `sign` and `verify`, given to the model as two functions in a
  `Jwt` value. The predicate `IsJsonWebToken` is what the library promises of them: a token it
  signed verifies under the same secret before its `exp`, and gives back the subject and claims
  it was signed with. Lemmas that need these facts take the predicate as a hypothesis.
- `UsersTokens`: the token store. Rows are `UserTokens` values in a `Store`, and every call on
  the store is a `StoreCall` (`Find`, `Delete` or `Insert`). `FindMatch`, `WithoutId` and `Apply`
  say what the repository's find, delete and create do. The `UsersTokensRepository` class keeps
  the rows, the id counter and a ghost log of every call made on it, lookups included.
- `RefreshToken`: the configuration (`Auth`) and the specification function `Rotate`. `Rotate`
  gives the result of one `execute` and the store calls it makes, in order. The lemmas state
  what a rotation guarantees. `RefreshTokenUseCase.Execute` runs the steps against the store
  object. It is proved to return what `Rotate` returns and to make exactly the calls `Rotate`
  lists.

Time is an integer number of seconds. The clock reading `now` is a parameter of `Execute`.
`addDays(n)` is `now + n * 86400`.

How line 46 hands the refresh-token lifetime to `sign` is a parameter, `Lifetime`:
- `AsWritten` is the line as the source has it. The day count goes to `sign` as `expiresIn`,
  and jsonwebtoken reads a number there as seconds.
- `Corrected` converts the day count to seconds.

`Rotate` and `Execute` take the choice in a `Setup` value, together with the configuration and
the token library. Every lemma that does not mention `Lifetime` holds for both. The lemmas that
depend on the choice are listed under "## Findings".

Two guarantees one might expect of a rotation are not given by the code; the model follows the
code:

- The new refresh token can equal the one presented. A JWT signed in the same second with the
  same claims is the same string. `SingleUse` assumes that the new token differs.
  `ReplayWhenTokenRepeats` shows that a second rotation succeeds when it does not.
- Two rows can hold the same owner and token. `create` does not check for an existing row, so
  `SingleUse`, `FailClosed` and `NoRowHoldsTokenAfterDelete` assume that no two rows hold the
  same token string. `ReplayWhenDuplicateRows` shows that a second rotation succeeds when two
  such rows exist.

The find and the delete are separate store calls, not one atomic find-and-delete. This matters
only under concurrency, which is not modelled.

## Model

| member | source | states |
|---|---|---|
| `UsersTokens.FindMatch` | src/modules/accounts/useCases/refreshToken/RefreshTokenUseCase.ts:34 | the lookup returns a stored row owned by `user_id` that holds exactly the presented token, and returns None exactly when no row matches (which match is not promised) |
| `UsersTokens.WithoutId` | src/modules/accounts/useCases/refreshToken/RefreshTokenUseCase.ts:40 | deleting by id keeps exactly the rows whose id differs, and never adds rows |
| `UsersTokens.Apply` | src/modules/accounts/useCases/refreshToken/RefreshTokenUseCase.ts:34-53 | a lookup leaves the store as it is; a delete keeps exactly the rows with another id and the counter; an insert keeps the earlier rows in place and appends one row with the fresh id and the given owner, token and expiry |
| `UsersTokens.ApplyAllAppend` | src/modules/accounts/useCases/refreshToken/RefreshTokenUseCase.ts:34-53 | the calls take effect one after another: one more call acts on the store the earlier calls left |
| `UsersTokens.WithoutIdRemovesOne` | src/modules/accounts/useCases/refreshToken/RefreshTokenUseCase.ts:40 | when ids are distinct, deleting an id that a row has removes exactly one row |
| `UsersTokens.WithoutIdKeepsTokensUnique` | src/modules/accounts/useCases/refreshToken/RefreshTokenUseCase.ts:40 | deleting rows keeps token strings pairwise distinct |
| `UsersTokens.ApplyKeepsIdsFresh` | src/modules/accounts/useCases/refreshToken/RefreshTokenUseCase.ts:40-53 | deleting and creating rows keeps store-assigned ids distinct and below the next id |
| `UsersTokens.UsersTokensRepository.FindByUserIdAndRefreshToken` | src/modules/accounts/useCases/refreshToken/RefreshTokenUseCase.ts:34 | returns a matching row, or None exactly when no row matches; leaves the rows unchanged and logs the lookup |
| `UsersTokens.UsersTokensRepository.DeleteById` | src/modules/accounts/useCases/refreshToken/RefreshTokenUseCase.ts:40 | the rows with that id are gone, the id counter is unchanged, and the delete is logged |
| `UsersTokens.UsersTokensRepository.Create` | src/modules/accounts/useCases/refreshToken/RefreshTokenUseCase.ts:49-53 | appends one row with a fresh id and the given `expires_date`, `refresh_token` and `user_id`, returns that row, and logs the insert |
| `RefreshToken.AddDays` | src/modules/accounts/useCases/refreshToken/RefreshTokenUseCase.ts:42 | the new expiry lies exactly `days` whole days after `now` |
| `RefreshToken.RefreshSignOptions` | src/modules/accounts/useCases/refreshToken/RefreshTokenUseCase.ts:44-47 | the refresh token's subject is `user_id`; as written its `expiresIn` is the bare day count; corrected, it expires exactly `days` days after issue, with its row |
| `RefreshToken.AccessSignOptions` | src/modules/accounts/useCases/refreshToken/RefreshTokenUseCase.ts:55-58 | the access token's subject is `user_id`, and it expires `expires_in_token` seconds after issue |
| `RefreshToken.Rotate` | src/modules/accounts/useCases/refreshToken/RefreshTokenUseCase.ts:29-64 | fails with InvalidToken exactly when verify fails, and then makes no store call at all; otherwise first looks up `(sub, token)`; fails with the "does not exists" AppError exactly when no row matches; succeeds exactly when the token verifies and a row matches; a failure changes nothing; a success deletes a matching row, then inserts `(sub, returned refresh token, addDays(days))` |
| `RefreshToken.RotationSteps` | src/modules/accounts/useCases/refreshToken/RefreshTokenUseCase.ts:34-53 | a successful rotation makes exactly three calls: a lookup, then a delete, then an insert; the store after the first two is the delete's, and after all three it is the delete followed by the insert |
| `RefreshToken.FailedRotationKeepsStore` | src/modules/accounts/useCases/refreshToken/RefreshTokenUseCase.ts:30-38 | after a failed rotation the store is exactly as it was |
| `RefreshToken.RejectedBeforeStoreAccess` | src/modules/accounts/useCases/refreshToken/RefreshTokenUseCase.ts:30-34 | a token signed under another secret, or presented after its expiry, fails with InvalidToken before any store call, the lookup included |
| `RefreshToken.SuccessfulRotation` | src/modules/accounts/useCases/refreshToken/RefreshTokenUseCase.ts:40-53 | the matched row is gone; every other row is still present and unchanged; exactly one new row `(fresh id, sub, new token, addDays(days))` is added; the row count and id freshness are kept |
| `RefreshToken.NoRowHoldsTokenAfterDelete` | src/modules/accounts/useCases/refreshToken/RefreshTokenUseCase.ts:34-40 | if token strings are unique, no row holds the presented token once the delete is done |
| `RefreshToken.SingleUse` | src/modules/accounts/useCases/refreshToken/RefreshTokenUseCase.ts:34-53 | if token strings are unique and the new token differs from the presented one, presenting the old token again fails, at any later time, and while the old token still verifies it fails at the lookup with the "does not exists" AppError |
| `RefreshToken.FailClosed` | src/modules/accounts/useCases/refreshToken/RefreshTokenUseCase.ts:40-49 | if token strings are unique, the delete comes before the insert, and if the insert never happens the presented token can no longer be rotated |
| `RefreshToken.RotationKeepsTokensUnique` | src/modules/accounts/useCases/refreshToken/RefreshTokenUseCase.ts:40-53 | if the new token is not already stored, rotation keeps token strings unique |
| `RefreshToken.ReplayWhenTokenRepeats` | src/modules/accounts/useCases/refreshToken/RefreshTokenUseCase.ts:34-53 | if signing reproduces the presented token, a second rotation with it succeeds while the token still verifies to the same payload; so single use depends on the new token being different |
| `RefreshToken.ReplayWhenDuplicateRows` | src/modules/accounts/useCases/refreshToken/RefreshTokenUseCase.ts:34-53 | if two rows with different ids hold the presented owner and token, a second rotation with it succeeds while the token still verifies to the same payload; so single use depends on token strings being unique |
| `RefreshToken.ClaimsCarryThrough` | src/modules/accounts/useCases/refreshToken/RefreshTokenUseCase.ts:30-58 | the new refresh token decodes to the presented token's `sub` and `email` until the `expiresIn` that line 46 hands to `sign` runs out (as written or corrected); the access token decodes to that `sub`, with no email, under the access secret; when the secrets differ, the access token is refused where a refresh token is expected |
| `RefreshToken.IssuedTokenRotates` | src/modules/accounts/useCases/refreshToken/RefreshTokenUseCase.ts:44-63 | the returned refresh token is the one stored in the new row; presented again while it still verifies (before `now` plus the `expiresIn` given to `sign`, as written or corrected), it rotates successfully |
| `RefreshToken.IssuedTokenRotatesWhileRowValid` | src/modules/accounts/useCases/refreshToken/RefreshTokenUseCase.ts:42-53 | with the corrected lifetime, the returned refresh token rotates successfully exactly while its new row is unexpired |
| `RefreshToken.IssuedTokenRefusedBeforeRowExpiresAsWritten` | src/modules/accounts/useCases/refreshToken/RefreshTokenUseCase.ts:42-53 | as written, the returned refresh token is refused with InvalidToken `days` seconds after issue, while its new row stays unexpired for `days` days |
| `RefreshToken.RefreshTokenUseCase.constructor` | src/modules/accounts/useCases/refreshToken/RefreshTokenUseCase.ts:22-27 | the use case keeps the injected token store and setup (configuration, token library, lifetime choice) |
| `RefreshToken.RefreshTokenUseCase.Execute` | src/modules/accounts/useCases/refreshToken/RefreshTokenUseCase.ts:29-64 | returns what `Rotate` returns; leaves the store in the state that `Rotate`'s calls produce; made exactly those calls, in that order (lookup, delete, insert); leaves the store unchanged on failure; makes no store call at all when verification fails |

## Findings

| source | as written | input that shows it | evidently intended | confidence | as-written member | corrected member |
|---|---|---|---|---|---|---|
| src/modules/accounts/useCases/refreshToken/RefreshTokenUseCase.ts:46 | `expiresIn: auth.expires_refresh_token_days` passes a day count. jsonwebtoken reads a numeric `expiresIn` as seconds | `expires_refresh_token_days = 30`: the token issued at `t0` is refused with InvalidToken at `t0 + 30` s, but its row is valid until `t0 + 30` days | the token can be rotated as long as its row is valid (`addDays` on line 42) | medium, not executed; assumes the configured value is a number, as its use in `addDays` suggests | `RefreshToken.IssuedTokenRefusedBeforeRowExpiresAsWritten` | `RefreshToken.IssuedTokenRotatesWhileRowValid` |

The two cases are the two values of `Lifetime`. `Rotate` and `Execute` with `AsWritten` model line 46
as the source has it. With `Corrected` they model the evidently intended behaviour.

## Left out

- `src/shared/container/index.ts`: dependency-injection wiring. It has no behaviour to model.
- JWT signing and verification internals (signatures, claim encoding): `sign` and `verify` are
  parameters, and what the library promises is the hypothesis `IsJsonWebToken`.
- The wall clock and dayjs calendar arithmetic (time zones, daylight saving): time is integer
  seconds, and `addDays` is `now + n * 86400`. The source reads the clock four times: `verify`
  on line 30 checks `exp` against it, `addDays` on line 42 reads it, and each of the two `sign`
  calls (lines 44 and 55) reads it for `iat`. The model uses one reading, `now`, for all four.
- `expires_in_token`, the access-token lifetime, is modelled as a number of seconds. A duration
  string such as "15m" would go through jsonwebtoken's own parser, which is not modelled.
- TypeORM persistence, async/await, and store errors: the store is an in-memory sequence whose
  calls cannot fail. A create that fails after the delete is covered by `FailClosed`, which
  applies only the calls before the insert. `Execute` itself has no error path for it.
- Row ids are counter values, not uuids. Only their uniqueness matters to the model.
- A verified token without a `sub` claim. Tokens this code issues always carry a subject.
- Two rotations running at once with the same token: both could pass the lookup before either
  deletes. The model is sequential, and the code provides no atomicity to verify.
- `auth` configuration values: secrets and lifetimes are opaque fields of `Auth`.
