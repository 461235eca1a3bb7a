/** RefreshTokenUseCase: exchange a presented refresh token for a new refresh token and a new
    access token, consuming the presented one. Rotate is the specification of one call to
    execute (its result and the calls it makes on the store, in order); the lemmas state what
    a rotation guarantees; RefreshTokenUseCase.Execute runs the steps against the store object
    and is proved to agree with Rotate. */
module RefreshToken {
  import opened Wrappers
  import opened JsonWebToken
  import opened UsersTokens

  const SECONDS_PER_DAY: int := 86400

  /** The error message thrown when the presented token has no row in the store. */
  const REFRESH_TOKEN_DOES_NOT_EXIST: string := "Refresh token does not exists!"

  /** The `auth` configuration: the two signing secrets, the access-token lifetime in seconds
      and the refresh-token lifetime in days. The values are opaque to the model. */
  datatype Auth = Auth(
    secret_token: string,
    expires_in_token: int,
    secret_refresh_token: string,
    expires_refresh_token_days: int)

  /** How the new refresh token's lifetime is handed to sign. AsWritten passes the day count
      itself as expiresIn, which jsonwebtoken reads as seconds; Corrected passes the day count
      converted to seconds. */
  datatype Lifetime = AsWritten | Corrected

  /** What execute works with besides the store: the configuration, the token library and the
      way the refresh-token lifetime is passed to sign. */
  datatype Setup = Setup(auth: Auth, jwt: Jwt, lifetime: Lifetime)

  /** What a successful execute returns (its ITokenResponse shape). */
  datatype TokenResponse = TokenResponse(token: string, refresh_token: string)

  /** Why execute fails: verify threw (bad signature, malformed, expired), or the use case threw
      an AppError with its message. */
  datatype Failure = InvalidToken | AppError(message: string)

  /** One call to execute: what it returns and the calls it made on the store, in order. */
  datatype Rotation = Rotation(result: Result<TokenResponse, Failure>, calls: seq<StoreCall>)

  /** The date provider's addDays, with the clock reading `now` injected (time in seconds):
      the instant that lies exactly `days` whole days after `now`. */
  function AddDays(now: int, days: int): (r: int)
    ensures (r - now) % SECONDS_PER_DAY == 0 && (r - now) / SECONDS_PER_DAY == days
  {
    now + days * SECONDS_PER_DAY
  }

  /** The expiresIn, in seconds, that sign receives for a new refresh token. */
  function RefreshExpiresIn(lifetime: Lifetime, auth: Auth): int {
    match lifetime
    case AsWritten => auth.expires_refresh_token_days
    case Corrected => auth.expires_refresh_token_days * SECONDS_PER_DAY
  }

  /** The options for signing a new refresh token for `user_id`. As written, the token expires
      `days` seconds after issue; corrected, at the same instant as its row. */
  function RefreshSignOptions(lifetime: Lifetime, auth: Auth, user_id: string): (o: SignOptions)
    ensures o.subject == user_id
    ensures lifetime == AsWritten ==> o.expiresIn == auth.expires_refresh_token_days
    ensures lifetime == Corrected ==>
      forall iat :: ExpiresAt(iat, o) == AddDays(iat, auth.expires_refresh_token_days)
  {
    SignOptions(user_id, RefreshExpiresIn(lifetime, auth))
  }

  /** The options for signing a new access token for `user_id`: it expires `expires_in_token`
      seconds after issue. */
  function AccessSignOptions(auth: Auth, user_id: string): (o: SignOptions)
    ensures o.subject == user_id
    ensures forall iat :: ExpiresAt(iat, o) == iat + auth.expires_in_token
  {
    SignOptions(user_id, auth.expires_in_token)
  }

  /** The payload of `token` under the refresh secret at time `now`, or None when verify throws. */
  function Decoded(e: Setup, token: string, now: int): Option<Payload> {
    e.jwt.verify(token, e.auth.secret_refresh_token, now)
  }

  /** execute(token) at time `now` on store `s`: verify, look up, delete, compute the expiry,
      sign and insert the new refresh token, sign the access token, return both. */
  function Rotate(s: Store, token: string, e: Setup, now: int): (r: Rotation)
    ensures r.result == Failure(InvalidToken) <==> Decoded(e, token, now).None?
    ensures r.result == Failure(InvalidToken) ==> r.calls == []
    ensures Decoded(e, token, now).Some? ==>
      |r.calls| >= 1 && r.calls[0] == Find(Decoded(e, token, now).value.sub, token)
    ensures r.result == Failure(AppError(REFRESH_TOKEN_DOES_NOT_EXIST)) <==>
      && Decoded(e, token, now).Some?
      && forall x :: x in s.records ==> !Matches(x, Decoded(e, token, now).value.sub, token)
    ensures r.result.Success? <==>
      && Decoded(e, token, now).Some?
      && exists x :: x in s.records && Matches(x, Decoded(e, token, now).value.sub, token)
    ensures r.result.Failure? ==> forall c :: c in r.calls ==> c.Find?
    ensures r.result.Success? ==>
      && Decoded(e, token, now).Some?
      && var p := Decoded(e, token, now).value;
      && |r.calls| == 3
      && r.calls[1].Delete?
      && (exists x :: x in s.records && Matches(x, p.sub, token) && x.id == r.calls[1].id)
      && r.calls[2] == Insert(p.sub, r.result.value.refresh_token, AddDays(now, e.auth.expires_refresh_token_days))
  {
    match e.jwt.verify(token, e.auth.secret_refresh_token, now)
    case None => Rotation(Failure(InvalidToken), [])
    case Some(payload) =>
      var user_id := payload.sub;
      match FindMatch(s.records, user_id, token)
      case None => Rotation(Failure(AppError(REFRESH_TOKEN_DOES_NOT_EXIST)), [Find(user_id, token)])
      case Some(user_token) =>
        var expires_date := AddDays(now, e.auth.expires_refresh_token_days);
        var refresh_token := e.jwt.sign(Claims(payload.email), e.auth.secret_refresh_token,
                                        RefreshSignOptions(e.lifetime, e.auth, user_id), now);
        var newToken := e.jwt.sign(Claims(None), e.auth.secret_token, AccessSignOptions(e.auth, user_id), now);
        Rotation(Success(TokenResponse(newToken, refresh_token)),
                 [Find(user_id, token), Delete(user_token.id), Insert(user_id, refresh_token, expires_date)])
  }

  /** The store after execute(token) at time `now`. */
  function StoreAfter(s: Store, token: string, e: Setup, now: int): Store {
    ApplyAll(s, Rotate(s, token, e, now).calls)
  }

  /** A successful rotation is a lookup, then a delete, then an insert; only the last two change
      the store. */
  lemma RotationSteps(s: Store, token: string, e: Setup, now: int)
    requires Rotate(s, token, e, now).result.Success?
    ensures var calls := Rotate(s, token, e, now).calls;
      && calls == [calls[0], calls[1], calls[2]]
      && calls[0].Find? && calls[1].Delete? && calls[2].Insert?
      && ApplyAll(s, calls[..2]) == Apply(s, calls[1])
      && StoreAfter(s, token, e, now) == Apply(Apply(s, calls[1]), calls[2])
  {
    var calls := Rotate(s, token, e, now).calls;
    assert calls == [calls[0], calls[1], calls[2]];
    assert calls[..1] + [calls[1]] == calls[..2];
    assert calls[..2] + [calls[2]] == calls;
    assert [calls[0]] == [] + [calls[0]];
    ApplyAllAppend(s, [], calls[0]);
    ApplyAllAppend(s, calls[..1], calls[1]);
    ApplyAllAppend(s, calls[..2], calls[2]);
  }

  /** A failed rotation leaves the store exactly as it was. */
  lemma FailedRotationKeepsStore(s: Store, token: string, e: Setup, now: int)
    requires Rotate(s, token, e, now).result.Failure?
    ensures StoreAfter(s, token, e, now) == s
  {
    var calls := Rotate(s, token, e, now).calls;
    if calls != [] {
      assert calls == [] + [calls[0]];
      ApplyAllAppend(s, [], calls[0]);
    }
  }

  /** A token signed under another secret (an access token, say), or presented from its expiry
      on, is refused by verify before the store is called at all, not even for a lookup. */
  lemma RejectedBeforeStoreAccess(s: Store, claims: Claims, secret: string, options: SignOptions, iat: int,
                                  e: Setup, now: int)
    requires IsJsonWebToken(e.jwt)
    requires secret != e.auth.secret_refresh_token || now >= ExpiresAt(iat, options)
    ensures Rotate(s, e.jwt.sign(claims, secret, options, iat), e, now) == Rotation(Failure(InvalidToken), [])
  {
  }

  /** A successful rotation removes the matched row, keeps every other row unchanged and adds
      exactly one row: the new token, owned by the decoded subject, expiring `days` days after
      `now`. The number of rows is therefore unchanged. */
  lemma SuccessfulRotation(s: Store, token: string, e: Setup, now: int)
    requires IdsFresh(s)
    requires Rotate(s, token, e, now).result.Success?
    ensures var r := Rotate(s, token, e, now);
      var s' := StoreAfter(s, token, e, now);
      var p := Decoded(e, token, now).value;
      var created := UserTokens(s.nextId, p.sub, r.result.value.refresh_token,
                                AddDays(now, e.auth.expires_refresh_token_days));
      && IdsFresh(s')
      && s'.nextId == s.nextId + 1
      && created !in s.records
      && (forall x :: x in s'.records <==> x == created || (x in s.records && x.id != r.calls[1].id))
      && (forall x :: x in s.records && x.id == r.calls[1].id ==> x !in s'.records)
      && |s'.records| == |s.records|
  {
    var r := Rotate(s, token, e, now);
    var s1 := Apply(s, r.calls[1]);
    RotationSteps(s, token, e, now);
    ApplyKeepsIdsFresh(s, r.calls[1]);
    ApplyKeepsIdsFresh(s1, r.calls[2]);
    WithoutIdRemovesOne(s.records, r.calls[1].id);
  }

  /** After the delete step of a successful rotation no row holds the presented token, given
      that no two rows held the same token string. */
  lemma NoRowHoldsTokenAfterDelete(s: Store, token: string, e: Setup, now: int)
    requires UniqueTokens(s.records)
    requires Rotate(s, token, e, now).result.Success?
    ensures forall x :: x in Apply(s, Rotate(s, token, e, now).calls[1]).records ==> x.refresh_token != token
  {
  }

  /** Single use: once a token has been rotated into a different one, presenting it again fails,
      at any later time, provided no two rows held the same token string. */
  lemma SingleUse(s: Store, token: string, e: Setup, now: int, later: int)
    requires UniqueTokens(s.records)
    requires Rotate(s, token, e, now).result.Success?
    requires Rotate(s, token, e, now).result.value.refresh_token != token
    ensures Rotate(StoreAfter(s, token, e, now), token, e, later).result.Failure?
    ensures Decoded(e, token, later).Some? ==>
      Rotate(StoreAfter(s, token, e, now), token, e, later).result
        == Failure(AppError(REFRESH_TOKEN_DOES_NOT_EXIST))
  {
    var r := Rotate(s, token, e, now);
    var s1 := Apply(s, r.calls[1]);
    RotationSteps(s, token, e, now);
    var s' := StoreAfter(s, token, e, now);
    NoRowHoldsTokenAfterDelete(s, token, e, now);
    forall x | x in s'.records ensures x.refresh_token != token {
      if x !in s1.records {
        assert x == s'.records[|s'.records| - 1];
      }
    }
  }

  /** Fail-closed: the delete comes before the insert, so if the insert never happens (the store
      fails, the process stops) the presented token is already consumed and cannot be rotated. */
  lemma FailClosed(s: Store, token: string, e: Setup, now: int, later: int)
    requires UniqueTokens(s.records)
    requires Rotate(s, token, e, now).result.Success?
    ensures var r := Rotate(s, token, e, now);
      && r.calls[1].Delete? && r.calls[2].Insert?
      && Rotate(ApplyAll(s, r.calls[..2]), token, e, later).result.Failure?
  {
    RotationSteps(s, token, e, now);
    NoRowHoldsTokenAfterDelete(s, token, e, now);
  }

  /** Rotation keeps token strings unique when the new token is not already in the store. */
  lemma RotationKeepsTokensUnique(s: Store, token: string, e: Setup, now: int)
    requires UniqueTokens(s.records)
    requires Rotate(s, token, e, now).result.Success?
    requires forall x :: x in s.records ==> x.refresh_token != Rotate(s, token, e, now).result.value.refresh_token
    ensures UniqueTokens(StoreAfter(s, token, e, now).records)
  {
    var r := Rotate(s, token, e, now);
    var rest := WithoutId(s.records, r.calls[1].id);
    WithoutIdKeepsTokensUnique(s.records, r.calls[1].id);
    RotationSteps(s, token, e, now);
    var recs := StoreAfter(s, token, e, now).records;
    assert recs == rest + [UserTokens(s.nextId, r.calls[2].user_id, r.calls[2].refresh_token, r.calls[2].expires_date)];
    forall i, j | 0 <= i < j < |recs| ensures recs[i].refresh_token != recs[j].refresh_token {
      if j == |recs| - 1 {
        assert recs[i] in rest;
      } else {
        assert recs[i] == rest[i] && recs[j] == rest[j];
      }
    }
  }

  /** Why single use needs the new token to differ: if signing reproduces the presented string
      (same claims and same issue second), the inserted row matches it and a second rotation
      with the same token succeeds whenever the token still verifies to the same payload. */
  lemma ReplayWhenTokenRepeats(s: Store, token: string, e: Setup, now: int, later: int)
    requires Rotate(s, token, e, now).result.Success?
    requires Rotate(s, token, e, now).result.value.refresh_token == token
    requires Decoded(e, token, later) == Decoded(e, token, now)
    ensures Rotate(StoreAfter(s, token, e, now), token, e, later).result.Success?
  {
    var p := Decoded(e, token, now).value;
    RotationSteps(s, token, e, now);
    var s' := StoreAfter(s, token, e, now);
    var created := s'.records[|s'.records| - 1];
    assert Matches(created, p.sub, token);
  }

  /** Why single use needs token strings to be unique: create does not check for an existing
      row, so when two rows with different ids hold the same owner and token, the rotation
      deletes one of them and a second rotation with the same token finds the other. */
  lemma ReplayWhenDuplicateRows(s: Store, token: string, e: Setup, now: int, later: int)
    requires Rotate(s, token, e, now).result.Success?
    requires exists x, y ::
      && x in s.records && y in s.records && x.id != y.id
      && Matches(x, Decoded(e, token, now).value.sub, token)
      && Matches(y, Decoded(e, token, now).value.sub, token)
    requires Decoded(e, token, later) == Decoded(e, token, now)
    ensures Rotate(StoreAfter(s, token, e, now), token, e, later).result.Success?
  {
    var r := Rotate(s, token, e, now);
    var p := Decoded(e, token, now).value;
    var x, y :| x in s.records && y in s.records && x.id != y.id && Matches(x, p.sub, token) && Matches(y, p.sub, token);
    var kept := if x.id != r.calls[1].id then x else y;
    RotationSteps(s, token, e, now);
    var s1 := Apply(s, r.calls[1]);
    assert kept in s1.records;
    assert StoreAfter(s, token, e, now).records[..|s1.records|] == s1.records;
    assert kept in StoreAfter(s, token, e, now).records;
  }

  /** Claims carry through: with jsonwebtoken's guarantees, the new refresh token decodes to the
      same subject and email as the presented one until its lifetime runs out, and the new access
      token decodes to that subject (and no email) under the access secret until its own. When the
      two secrets differ, the access token is refused where a refresh token is expected. */
  lemma ClaimsCarryThrough(s: Store, token: string, e: Setup, now: int, t: int)
    requires IsJsonWebToken(e.jwt)
    requires Rotate(s, token, e, now).result.Success?
    ensures var r := Rotate(s, token, e, now).result.value;
      var p := Decoded(e, token, now).value;
      && Decoded(e, r.refresh_token, t) ==
           (if t < now + RefreshExpiresIn(e.lifetime, e.auth) then Some(p) else None)
      && e.jwt.verify(r.token, e.auth.secret_token, t) ==
           (if t < now + e.auth.expires_in_token then Some(Payload(p.sub, None)) else None)
      && (e.auth.secret_token != e.auth.secret_refresh_token ==> Decoded(e, r.token, t).None?)
  {
  }

  /** The returned refresh token is the one stored in the new row, and it can itself be rotated:
      presented while it still verifies, it finds the row that was just inserted. */
  lemma IssuedTokenRotates(s: Store, token: string, e: Setup, now: int, later: int)
    requires IsJsonWebToken(e.jwt)
    requires Rotate(s, token, e, now).result.Success?
    requires later < now + RefreshExpiresIn(e.lifetime, e.auth)
    ensures var r := Rotate(s, token, e, now);
      var s' := StoreAfter(s, token, e, now);
      && |s'.records| > 0
      && s'.records[|s'.records| - 1].refresh_token == r.result.value.refresh_token
      && Rotate(s', r.result.value.refresh_token, e, later).result.Success?
  {
    var r := Rotate(s, token, e, now);
    var p := Decoded(e, token, now).value;
    RotationSteps(s, token, e, now);
    var s' := StoreAfter(s, token, e, now);
    var created := s'.records[|s'.records| - 1];
    ClaimsCarryThrough(s, token, e, now, later);
    assert Matches(created, p.sub, r.result.value.refresh_token);
  }

  /** With the lifetime converted to seconds, the returned refresh token can be rotated exactly
      while its new row is unexpired. */
  lemma IssuedTokenRotatesWhileRowValid(s: Store, token: string, e: Setup, now: int, later: int)
    requires IsJsonWebToken(e.jwt)
    requires e.lifetime == Corrected
    requires Rotate(s, token, e, now).result.Success?
    ensures var r := Rotate(s, token, e, now);
      var s' := StoreAfter(s, token, e, now);
      && |s'.records| > 0
      && var created := s'.records[|s'.records| - 1];
      && created.refresh_token == r.result.value.refresh_token
      && (Rotate(s', created.refresh_token, e, later).result.Success? <==> later < created.expires_date)
  {
    var r := Rotate(s, token, e, now);
    RotationSteps(s, token, e, now);
    var s' := StoreAfter(s, token, e, now);
    var created := s'.records[|s'.records| - 1];
    ClaimsCarryThrough(s, token, e, now, later);
    if later < created.expires_date {
      IssuedTokenRotates(s, token, e, now, later);
    }
  }

  /** As written, the day count is read as seconds: with a lifetime of at least one day, the
      returned refresh token is refused `days` seconds after issue, while its row stays
      unexpired for `days` days. */
  lemma IssuedTokenRefusedBeforeRowExpiresAsWritten(s: Store, token: string, e: Setup, now: int)
    requires IsJsonWebToken(e.jwt)
    requires e.lifetime == AsWritten
    requires e.auth.expires_refresh_token_days >= 1
    requires Rotate(s, token, e, now).result.Success?
    ensures var r := Rotate(s, token, e, now);
      var s' := StoreAfter(s, token, e, now);
      var later := now + e.auth.expires_refresh_token_days;
      && |s'.records| > 0
      && var created := s'.records[|s'.records| - 1];
      && created.refresh_token == r.result.value.refresh_token
      && later < created.expires_date
      && Rotate(s', created.refresh_token, e, later).result == Failure(InvalidToken)
  {
    var later := now + e.auth.expires_refresh_token_days;
    RotationSteps(s, token, e, now);
    ClaimsCarryThrough(s, token, e, now, later);
  }

  /** The use case object: the injected token store and what execute works with besides it. */
  class RefreshTokenUseCase {
    const usersTokensRepository: UsersTokensRepository
    const setup: Setup

    constructor (usersTokensRepository: UsersTokensRepository, setup: Setup)
      ensures this.usersTokensRepository == usersTokensRepository
      ensures this.setup == setup
    {
      this.usersTokensRepository := usersTokensRepository;
      this.setup := setup;
    }

    /** execute(token) with the clock reading `now`: returns what Rotate says, leaves the store in
        the state Rotate's calls produce, and made exactly those calls, in that order. */
    method Execute(token: string, now: int) returns (r: Result<TokenResponse, Failure>)
      requires usersTokensRepository.Valid()
      modifies usersTokensRepository
      ensures usersTokensRepository.Valid()
      ensures r == Rotate(old(usersTokensRepository.State()), token, setup, now).result
      ensures usersTokensRepository.State() ==
        StoreAfter(old(usersTokensRepository.State()), token, setup, now)
      ensures usersTokensRepository.log ==
        old(usersTokensRepository.log) + Rotate(old(usersTokensRepository.State()), token, setup, now).calls
      ensures r.Failure? ==> usersTokensRepository.State() == old(usersTokensRepository.State())
      ensures r == Failure(InvalidToken) ==> usersTokensRepository.log == old(usersTokensRepository.log)
    {
      var auth, jwt := setup.auth, setup.jwt;
      var decoded := jwt.verify(token, auth.secret_refresh_token, now);
      if decoded.None? {
        return Failure(InvalidToken);
      }
      var email, sub := decoded.value.email, decoded.value.sub;
      var user_id := sub;

      var user_token := usersTokensRepository.FindByUserIdAndRefreshToken(user_id, token);
      if user_token.None? {
        FailedRotationKeepsStore(old(usersTokensRepository.State()), token, setup, now);
        return Failure(AppError(REFRESH_TOKEN_DOES_NOT_EXIST));
      }

      usersTokensRepository.DeleteById(user_token.value.id);

      var expires_date := AddDays(now, auth.expires_refresh_token_days);

      var refresh_token := jwt.sign(Claims(email), auth.secret_refresh_token,
                                    RefreshSignOptions(setup.lifetime, auth, user_id), now);

      var _ := usersTokensRepository.Create(expires_date, refresh_token, user_id);

      var newToken := jwt.sign(Claims(None), auth.secret_token, AccessSignOptions(auth, user_id), now);

      r := Success(TokenResponse(newToken, refresh_token));

      RotationSteps(old(usersTokensRepository.State()), token, setup, now);
    }
  }
}
