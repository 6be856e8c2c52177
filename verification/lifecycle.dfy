/**
 * Properties of the token lifecycle that relate several calls: the table
 * invariant each operation keeps, what a sequence of operations leaves behind,
 * and the gap between `refreshTokens` as written and as intended.
 */
module Lifecycle {
  import opened Wrappers
  import opened Bcrypt
  import opened Jwt
  import opened Store
  import opened AuthService

  /** The strategy guarding access-token routes falls back to this secret when `AT_SECRET` is unset. */
  const AtStrategyFallbackSecret: string := "at-secret"

  // ---------------------------------------------------------------------------
  // The table invariant

  lemma SignupPreservesValid(db: Db, dto: AuthDto, env: Env)
    requires Valid(db)
    ensures Valid(SignupLocal(db, dto, env).db)
  {
  }

  lemma SigninPreservesValid(db: Db, dto: AuthDto, containsUserId: Option<string>, env: Env)
    requires Valid(db)
    ensures Valid(SigninLocal(db, dto, containsUserId, env).db)
  {
  }

  lemma LogoutPreservesValid(db: Db, userId: int)
    requires Valid(db)
    ensures Valid(Logout(db, userId))
  {
  }

  lemma RefreshPreservesValid(db: Db, userId: int, rt: Token, env: Env)
    requires Valid(db)
    ensures Valid(RefreshTokens(db, userId, rt, env).db)
    ensures Valid(RefreshTokensChecked(db, userId, rt, env).db)
  {
  }

  // ---------------------------------------------------------------------------
  // Signup

  /** Under the invariant, a successful signup creates its row under the next sequence value. */
  lemma SignupUsesNextId(db: Db, dto: AuthDto, env: Env)
    requires Valid(db)
    requires SignupLocal(db, dto, env).result.Success?
    ensures SignupLocal(db, dto, env).result.value.refreshToken.claims == Claims(db.nextId, dto.email)
    ensures SignupLocal(db, dto, env).db.nextId == db.nextId + 1
  {
  }

  /** A second signup with the same email is refused with `DuplicateEmail` and adds no row. */
  lemma SignupTwiceIsDuplicate(db: Db, dto: AuthDto, env1: Env, env2: Env)
    requires Valid(db)
    requires SignupLocal(db, dto, env1).result.Success?
    requires env2.createSucceeds
    ensures var db1 := SignupLocal(db, dto, env1).db;
            SignupLocal(db1, dto, env2) == Outcome(Failure(DuplicateEmail), db1)
  {
    var o := SignupLocal(db, dto, env1);
    var id := o.result.value.accessToken.claims.sub;
    assert o.db.users[id].email == dto.email;
  }

  /**
   * Signup is not atomic: when issuing or storing the refresh-token hash fails
   * after `create`, the caller gets `InternalError`, yet the row exists with no
   * refresh-token digest, its password works for signin, and signing up again
   * with that email is refused.
   */
  lemma SignupPartialFailureKeepsRow(db: Db, dto: AuthDto, env: Env, env2: Env)
    requires Valid(db)
    requires !EmailTaken(db.users, dto.email)
    requires env.createSucceeds
    requires !env.accessSignSucceeds || !env.refreshSignSucceeds || !env.updateSucceeds
    requires env2.createSucceeds
    ensures var o := SignupLocal(db, dto, env);
            && o.result == Failure(InternalError)
            && db.nextId in o.db.users
            && o.db.users[db.nextId].email == dto.email
            && o.db.users[db.nextId].hashedRt == None
            && Compare(dto.password, o.db.users[db.nextId].hash)
            && SignupLocal(o.db, dto, env2).result == Failure(DuplicateEmail)
  {
    var o := SignupLocal(db, dto, env);
    assert db.nextId in o.db.users && o.db.users[db.nextId].email == dto.email;
  }

  // ---------------------------------------------------------------------------
  // Signin

  /**
   * An unknown email and a wrong password are indistinguishable: any two refused
   * signins produce the same error and leave the table exactly as it was.
   */
  lemma SigninRefusalsIndistinguishable(db: Db, dto1: AuthDto, dto2: AuthDto,
                                        c1: Option<string>, c2: Option<string>, env1: Env, env2: Env)
    requires env1.findSucceeds && env2.findSucceeds
    requires SigninRefuses(db, dto1) && SigninRefuses(db, dto2)
    ensures SigninLocal(db, dto1, c1, env1) == SigninLocal(db, dto2, c2, env2) == Outcome(Failure(AccessDenied), db)
  {
  }

  /** With a reliable environment, signin succeeds exactly when it is not refused. */
  lemma SigninSucceedsUnlessRefused(db: Db, dto: AuthDto, containsUserId: Option<string>, env: Env)
    requires Valid(db) && Reliable(env)
    ensures SigninLocal(db, dto, containsUserId, env).result.Success? <==> !SigninRefuses(db, dto)
  {
    if !SigninRefuses(db, dto) {
      var u := FindByEmail(db.users, dto.email).value;
      var k :| k in db.users && db.users[k] == u;
      assert u.id in db.users;
    }
  }

  // ---------------------------------------------------------------------------
  // Logout

  lemma LogoutIdempotent(db: Db, userId: int)
    ensures Logout(Logout(db, userId), userId) == Logout(db, userId)
  {
  }

  /** Logging out an id no row carries, or a user already logged out, changes nothing. */
  lemma LogoutNoopWhenNothingToClear(db: Db, userId: int)
    requires forall k :: k in db.users && db.users[k].id == userId ==> db.users[k].hashedRt.None?
    ensures Logout(db, userId) == db
  {
    var db' := Logout(db, userId);
    assert db'.users.Keys == db.users.Keys;
    forall k | k in db.users
      ensures db'.users[k] == db.users[k]
    {
    }
    assert db'.users == db.users;
  }

  /** Under the invariant, logout nulls exactly the digest of the row stored under `userId`. */
  lemma LogoutClearsOneSlot(db: Db, userId: int)
    requires Valid(db)
    ensures OnlyHashedRtChanged(db, Logout(db, userId), userId)
    ensures userId in db.users ==> Logout(db, userId).users[userId].hashedRt == None
    ensures userId !in db.users ==> Logout(db, userId) == db
  {
    if userId !in db.users {
      LogoutNoopWhenNothingToClear(db, userId);
    }
  }

  // ---------------------------------------------------------------------------
  // Tokens

  /**
   * `getTokens` has no nonce: two issuances for the same user yield the same
   * refresh token exactly when they happen in the same second.
   */
  lemma RefreshTokenDeterminedBySecond(userId: int, email: string, env1: Env, env2: Env)
    requires GetTokens(userId, email, env1).Success? && GetTokens(userId, email, env2).Success?
    ensures GetTokens(userId, email, env1).value.refreshToken == GetTokens(userId, email, env2).value.refreshToken
            <==> env1.now == env2.now
  {
    var t1 := GetTokens(userId, email, env1).value;
    var t2 := GetTokens(userId, email, env2).value;
    if t1.refreshToken == t2.refreshToken {
      assert t1.refreshToken.iat == env1.now && t2.refreshToken.iat == env2.now;
    }
  }

  /**
   * The access token verifies under the strategy's fallback secret for its 15
   * minutes; the refresh token never does.
   */
  lemma AccessTokenMatchesStrategySecret(userId: int, email: string, env: Env, s: nat)
    requires GetTokens(userId, email, env).Success?
    ensures var t := GetTokens(userId, email, env).value;
            && (Verify(t.accessToken, AtStrategyFallbackSecret, s).Some? <==> s < env.now + 900)
            && Verify(t.refreshToken, AtStrategyFallbackSecret, s) == None
  {
    var t := GetTokens(userId, email, env).value;
    assert Verify(t.accessToken, AtSecret, s) == if s < env.now + AtExpiresIn then Some(Claims(userId, email)) else None;
    assert Verify(t.refreshToken, AtSecret, s) == None;
  }

  // ---------------------------------------------------------------------------
  // Refresh as written

  /** The presented refresh token has no influence on `refreshTokens`. */
  lemma RefreshIgnoresPresentedToken(db: Db, userId: int, rt1: Token, rt2: Token, env: Env)
    ensures RefreshTokens(db, userId, rt1, env) == RefreshTokens(db, userId, rt2, env)
  {
  }

  /**
   * As written, a superseded refresh token keeps working. `prior` is the token
   * the slot accepts; a refresh rotates the slot, after which the stored digest
   * no longer accepts `prior` (unless the rotation reissued that very token),
   * and yet presenting `prior` again still yields a new pair.
   */
  lemma RefreshAcceptsSupersededToken(db: Db, userId: int, prior: Token, env1: Env, env2: Env)
    requires Valid(db) && Reliable(env1) && Reliable(env2)
    requires StoresRtFor(db, userId, prior)
    ensures var o1 := RefreshTokens(db, userId, prior, env1);
            && o1.result.Success?
            && o1.db.users[userId].hashedRt.Some?
            && (prior != o1.result.value.refreshToken ==> !StoresRtFor(o1.db, userId, prior))
            && RefreshTokens(o1.db, userId, prior, env2).result.Success?
  {
    var o1 := RefreshTokens(db, userId, prior, env1);
    var user := db.users[userId];
    var tokens := GetTokens(user.id, user.email, env1).value;
    var u := UpdateRtHash(db, user.id, tokens.refreshToken, env1);
    assert o1.db == u.value && o1.result.value == tokens;
    RefreshPreservesValid(db, userId, prior, env1);
  }

  /**
   * A concrete instance: user 1 holds the refresh token issued at second 50.
   * A refresh at second 100 rotates the slot to a new token, so the slot no
   * longer accepts the old one; at second 200 the old token, still unexpired
   * under 'rt-secret', is presented again and a new pair is issued.
   */
  lemma RefreshSupersededExample()
    ensures var prior := Token(Claims(1, "a@x.com"), 50, 50 + RtExpiresIn, RtSecret);
            var db := Empty().(users := map[1 := User(1, "a@x.com", HashData("pw123456", 7), Some(HashData(prior, 3)))], nextId := 2);
            var o1 := RefreshTokens(db, 1, prior, Env(100, 7, 8, true, true, true, true, true));
            && o1.result.Success?
            && !StoresRtFor(o1.db, 1, prior)
            && Verify(prior, RtSecret, 200) == Some(Claims(1, "a@x.com"))
            && RefreshTokens(o1.db, 1, prior, Env(200, 7, 9, true, true, true, true, true)).result.Success?
  {
    var prior := Token(Claims(1, "a@x.com"), 50, 50 + RtExpiresIn, RtSecret);
    var db := Empty().(users := map[1 := User(1, "a@x.com", HashData("pw123456", 7), Some(HashData(prior, 3)))], nextId := 2);
    var env1 := Env(100, 7, 8, true, true, true, true, true);
    assert Valid(db);
    RefreshAcceptsSupersededToken(db, 1, prior, env1, Env(200, 7, 9, true, true, true, true, true));
    var o1 := RefreshTokens(db, 1, prior, env1);
    assert o1.result.value.refreshToken.iat == 100;
  }

  // ---------------------------------------------------------------------------
  // Refresh as intended

  /** The intended refresh refuses a logged-out user whatever token is presented. */
  lemma RefreshCheckedAfterLogoutDenied(db: Db, userId: int, rt: Token, env: Env)
    requires Valid(db)
    requires env.findSucceeds
    ensures var db1 := Logout(db, userId);
            RefreshTokensChecked(db1, userId, rt, env) == Outcome(Failure(AccessDenied), db1)
  {
    LogoutClearsOneSlot(db, userId);
  }

  /** After signin, the intended refresh accepts the refresh token signin returned. */
  lemma SigninThenRefreshChecked(db: Db, dto: AuthDto, containsUserId: Option<string>, env1: Env, env2: Env)
    requires Valid(db) && Reliable(env2)
    requires SigninLocal(db, dto, containsUserId, env1).result.Success?
    ensures var o := SigninLocal(db, dto, containsUserId, env1);
            var id := o.result.value.accessToken.claims.sub;
            RefreshTokensChecked(o.db, id, o.result.value.refreshToken, env2).result.Success?
  {
    SigninPreservesValid(db, dto, containsUserId, env1);
  }

  /**
   * Single-slot rotation: once the intended refresh has rotated the slot, it
   * accepts a presented token exactly when that token equals the one it just
   * returned. In particular the token presented before is refused unless the
   * rotation reissued the very same token (same user, same second).
   */
  lemma RotationSupersedes(db: Db, userId: int, rt: Token, env: Env, presented: Token, env2: Env)
    requires Valid(db) && Reliable(env2)
    requires RefreshTokensChecked(db, userId, rt, env).result.Success?
    ensures var o := RefreshTokensChecked(db, userId, rt, env);
            RefreshTokensChecked(o.db, userId, presented, env2).result.Success?
            <==> presented == o.result.value.refreshToken
  {
    var o := RefreshTokensChecked(db, userId, rt, env);
    var user := db.users[userId];
    var tokens := GetTokens(user.id, user.email, env).value;
    var u := UpdateRtHash(db, user.id, tokens.refreshToken, env);
    assert o.db == u.value && o.result.value == tokens;
    RefreshPreservesValid(db, userId, rt, env);
  }
}
