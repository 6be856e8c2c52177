/**
 * `AuthService` (src/auth/auth.service.ts) as pure transitions over the user
 * table. Each operation takes the table and an `Env` (the clock, the salts
 * bcrypt draws, and whether each collaborator call succeeds) and returns the
 * caller-visible result together with the table afterwards.
 */
module AuthService {
  import opened Wrappers
  import opened Bcrypt
  import opened Jwt
  import opened Store

  /** `hashData`: bcrypt cost factor. */
  const SaltRounds: nat := 10

  /** `getTokens`: the access token is signed with 'at-secret' and lives 15 minutes. */
  const AtSecret: string := "at-secret"
  const AtExpiresIn: nat := 60 * 15

  /** `getTokens`: the refresh token is signed with 'rt-secret' and lives 7 days. */
  const RtSecret: string := "rt-secret"
  const RtExpiresIn: nat := 60 * 60 * 24 * 7

  /** The request body of signup and signin (`AuthDto`). */
  datatype AuthDto = AuthDto(email: string, password: string)

  /** The response body: both tokens, and the user id when signin was asked to echo it. */
  datatype Tokens = Tokens(accessToken: Token, refreshToken: Token, userId: Option<int>)

  /** A failure of a collaborator: the store, or one of the two signing calls. */
  datatype Fault = StoreFault(error: StoreError) | SignFault

  /**
   * What a caller sees when an operation fails.
   * - `DuplicateEmail`: signup's 422 for a unique-constraint violation ('exceptions.emailMustBeUnique').
   * - `InternalError`: signup's 500 for every other error ('exceptions.internalServerErrorBaseMsg').
   * - `AccessDenied`: `ForbiddenException` (403, 'exceptions.accessDeniedMsg').
   * - `Unhandled`: a collaborator's error that the service lets propagate.
   */
  datatype AuthError = DuplicateEmail | InternalError | AccessDenied | Unhandled(fault: Fault)

  /**
   * Everything an operation learns from outside the table: the current second,
   * the salts bcrypt draws for the password and for the refresh token, and
   * whether the user lookup, the insertion, the update and each of the two
   * signing calls succeed.
   */
  datatype Env = Env(
    now: nat,
    passwordSalt: Salt,
    tokenSalt: Salt,
    findSucceeds: bool,
    createSucceeds: bool,
    updateSucceeds: bool,
    accessSignSucceeds: bool,
    refreshSignSucceeds: bool)

  /** An environment in which no collaborator fails. */
  predicate Reliable(env: Env)
  {
    env.findSucceeds && env.createSucceeds && env.updateSucceeds && env.accessSignSucceeds && env.refreshSignSucceeds
  }

  /** The result of a token-issuing operation and the table after it. */
  datatype Outcome = Outcome(result: Result<Tokens, AuthError>, db: Db)

  /**
   * `tokens` is a fresh pair for `{ sub: userId, email }` issued at second `now`:
   * each token verifies under its own secret exactly until its expiry, never
   * under the other family's secret, and no user id is echoed.
   */
  ghost predicate IssuedPair(tokens: Tokens, userId: int, email: string, now: nat)
  {
    && tokens.userId.None?
    && (forall s: nat {:trigger Verify(tokens.accessToken, AtSecret, s)} ::
          Verify(tokens.accessToken, AtSecret, s) == if s < now + AtExpiresIn then Some(Claims(userId, email)) else None)
    && (forall s: nat {:trigger Verify(tokens.refreshToken, RtSecret, s)} ::
          Verify(tokens.refreshToken, RtSecret, s) == if s < now + RtExpiresIn then Some(Claims(userId, email)) else None)
    && (forall s: nat {:trigger Verify(tokens.accessToken, RtSecret, s)} :: Verify(tokens.accessToken, RtSecret, s) == None)
    && (forall s: nat {:trigger Verify(tokens.refreshToken, AtSecret, s)} :: Verify(tokens.refreshToken, AtSecret, s) == None)
  }

  /** `db'` differs from `db` at most in the refresh-token digest of the row stored under `id`. */
  predicate OnlyHashedRtChanged(db: Db, db': Db, id: int)
  {
    && db'.users.Keys == db.users.Keys
    && db'.nextId == db.nextId
    && (forall k :: k in db.users && k != id ==> db'.users[k] == db.users[k])
    && (id in db.users ==> SameAccount(db'.users[id], db.users[id]))
  }

  /** The row stored under `id` holds a refresh-token digest that accepts `rt`. */
  predicate StoresRtFor(db: Db, id: int, rt: Token)
  {
    id in db.users && db.users[id].hashedRt.Some? && Compare(rt, db.users[id].hashedRt.value)
  }

  /** `hashData`: a bcrypt digest at cost 10 that accepts exactly `data`. */
  function HashData<T(==,!new)>(data: T, salt: Salt): (d: Digest<T>)
    ensures d.rounds == 10
    ensures forall x: T {:trigger Compare(x, d)} :: Compare(x, d) <==> x == data
  {
    Hash(data, SaltRounds, salt)
  }

  /**
   * `getTokens`: signs the access and the refresh token concurrently and
   * returns both only when both signings succeed.
   */
  function GetTokens(userId: int, email: string, env: Env): (r: Result<Tokens, Fault>)
    ensures r.Success? <==> env.accessSignSucceeds && env.refreshSignSucceeds
    ensures r.Failure? ==> r.error == SignFault
    ensures r.Success? ==> IssuedPair(r.value, userId, email, env.now)
  {
    if !env.accessSignSucceeds || !env.refreshSignSucceeds then Failure(SignFault)
    else
      var claims := Claims(userId, email);
      var at := Sign(claims, SignOptions(AtSecret, AtExpiresIn), env.now);
      var rt := Sign(claims, SignOptions(RtSecret, RtExpiresIn), env.now);
      Success(Tokens(at, rt, None))
  }

  /**
   * `updateRtHash`: hashes `rt` and stores the digest in the row stored under
   * `userId`, touching no other field and no other row. Fails when the update
   * fails or the row is missing.
   */
  function UpdateRtHash(db: Db, userId: int, rt: Token, env: Env): (r: Result<Db, Fault>)
    ensures r.Success? <==> env.updateSucceeds && userId in db.users
    ensures r.Failure? ==> r.error.StoreFault? && r.error.error != UniqueViolation
    ensures r.Success? ==> OnlyHashedRtChanged(db, r.value, userId)
    ensures r.Success? ==> StoresRtFor(r.value, userId, rt)
    ensures r.Success? ==> forall x: Token {:trigger Compare(x, r.value.users[userId].hashedRt.value)} ::
                             Compare(x, r.value.users[userId].hashedRt.value) ==> x == rt
    ensures r.Success? ==> r.value.users[userId].hashedRt.value.rounds == SaltRounds
  {
    var hash := HashData(rt, env.tokenSalt);
    match SetHashedRt(db, userId, Some(hash), env.updateSucceeds)
    case Failure(e) => Failure(StoreFault(e))
    case Success(db') => Success(db')
  }

  /**
   * The step signup, signin and refresh share: issue a pair for `user` with
   * `getTokens`, then store the hash of its refresh token with `updateRtHash`.
   */
  function IssueAndStore(db: Db, user: User, env: Env): Result<(Tokens, Db), Fault>
  {
    match GetTokens(user.id, user.email, env)
    case Failure(f) => Failure(f)
    case Success(tokens) =>
      match UpdateRtHash(db, user.id, tokens.refreshToken, env)
      case Failure(f) => Failure(f)
      case Success(db') => Success((tokens, db'))
  }

  /** The catch block of `signupLocal`: a unique-constraint violation becomes 422, anything else 500. */
  function SignupError(f: Fault): (e: AuthError)
    ensures e in {DuplicateEmail, InternalError}
    ensures e == DuplicateEmail <==> f == StoreFault(UniqueViolation)
  {
    if f == StoreFault(UniqueViolation) then DuplicateEmail else InternalError
  }

  /**
   * `signupLocal`: hash the password, create the row, issue a pair and store the
   * refresh-token hash. Every error raised after hashing is translated by the
   * catch block. The steps are not a transaction: a failure after `create`
   * leaves the new row in place with no refresh-token digest.
   */
  function SignupLocal(db: Db, dto: AuthDto, env: Env): (o: Outcome)
    ensures o.result.Failure? ==> o.result.error in {DuplicateEmail, InternalError}
    ensures o.result == Failure(DuplicateEmail) <==>
              env.createSucceeds && (EmailTaken(db.users, dto.email) || db.nextId in db.users)
    ensures o.result == Failure(DuplicateEmail) ==> o.db == db
    ensures Valid(db) && Reliable(env) && !EmailTaken(db.users, dto.email) ==> o.result.Success?
    ensures !env.createSucceeds ==> o.db == db
    ensures o.result.Failure? ==>
              && (forall k :: k in db.users ==> k in o.db.users && o.db.users[k] == db.users[k])
              && (forall k :: k in o.db.users && k !in db.users ==>
                    k == db.nextId && o.db.users[k].email == dto.email && o.db.users[k].hashedRt == None)
    ensures o.result.Success? ==>
              var id := o.result.value.accessToken.claims.sub;
              && id !in db.users
              && o.db.users.Keys == db.users.Keys + {id}
              && (forall k :: k in db.users ==> o.db.users[k] == db.users[k])
              && o.db.users[id].email == dto.email
              && Compare(dto.password, o.db.users[id].hash)
              && StoresRtFor(o.db, id, o.result.value.refreshToken)
              && IssuedPair(o.result.value, id, dto.email, env.now)
  {
    var hash := HashData(dto.password, env.passwordSalt);
    match Create(db, dto.email, hash, env.createSucceeds)
    case Failure(e) => Outcome(Failure(SignupError(StoreFault(e))), db)
    case Success((db1, newUser)) =>
      match IssueAndStore(db1, newUser, env)
      case Failure(f) => Outcome(Failure(SignupError(f)), db1)
      case Success((tokens, db2)) => Outcome(Success(tokens), db2)
  }

  /** The query option of signin: the id is echoed exactly when it is the string 'true'. */
  predicate EchoesUserId(containsUserId: Option<string>)
  {
    containsUserId == Some("true")
  }

  /** Signin refuses `dto` because the email is unknown or the password does not match. */
  predicate SigninRefuses(db: Db, dto: AuthDto)
  {
    match FindByEmail(db.users, dto.email)
    case None => true
    case Some(u) => !Compare(dto.password, u.hash)
  }

  /** The error a failed user lookup propagates. */
  const LookupFailed: AuthError := Unhandled(StoreFault(Unavailable))

  /**
   * `signinLocal`: look the user up by email, check the password, issue a pair
   * and rotate the refresh-token hash. An unknown email and a wrong password
   * raise the same `ForbiddenException`. Collaborator errors propagate.
   */
  function SigninLocal(db: Db, dto: AuthDto, containsUserId: Option<string>, env: Env): (o: Outcome)
    ensures !env.findSucceeds ==> o == Outcome(Failure(LookupFailed), db)
    ensures o.result == Failure(AccessDenied) <==> env.findSucceeds && SigninRefuses(db, dto)
    ensures o.result.Failure? ==> o.db == db
    ensures o.result.Success? ==>
              var id := o.result.value.accessToken.claims.sub;
              && FindByEmail(db.users, dto.email).Some?
              && FindByEmail(db.users, dto.email).value.id == id
              && Compare(dto.password, FindByEmail(db.users, dto.email).value.hash)
              && OnlyHashedRtChanged(db, o.db, id)
              && StoresRtFor(o.db, id, o.result.value.refreshToken)
              && (o.result.value.userId.Some? <==> EchoesUserId(containsUserId))
              && (o.result.value.userId.Some? ==> o.result.value.userId.value == id)
              && IssuedPair(o.result.value.(userId := None), id, dto.email, env.now)
  {
    if !env.findSucceeds then Outcome(Failure(LookupFailed), db)
    else
      match FindByEmail(db.users, dto.email)
      case None => Outcome(Failure(AccessDenied), db)
      case Some(user) =>
        if !Compare(dto.password, user.hash) then Outcome(Failure(AccessDenied), db)
        else
          match IssueAndStore(db, user, env)
          case Failure(f) => Outcome(Failure(Unhandled(f)), db)
          case Success((tokens, db1)) =>
            if EchoesUserId(containsUserId) then Outcome(Success(tokens.(userId := Some(user.id))), db1)
            else Outcome(Success(tokens), db1)
  }

  /**
   * `logout`: a conditional bulk update nulls the refresh-token digest of the
   * rows whose id is `userId` and whose digest is set; it raises nothing, even
   * when no row matches.
   */
  function Logout(db: Db, userId: int): (db': Db)
    ensures db'.users.Keys == db.users.Keys && db'.nextId == db.nextId
    ensures forall k :: k in db.users && db.users[k].id != userId ==> db'.users[k] == db.users[k]
    ensures forall k :: k in db.users && db.users[k].id == userId ==>
              SameAccount(db'.users[k], db.users[k]) && db'.users[k].hashedRt == None
  {
    ClearHashedRtWhereSet(db, userId)
  }

  /**
   * `refreshTokens` as written. Its call to `bcrypt.compare` is not awaited, so
   * the match flag it tests is a pending Promise, which is truthy: the
   * `ForbiddenException` for a mismatch never fires, and neither the presented
   * token `rt` nor the stored digest decides anything. A present user always
   * gets a new pair when no collaborator fails.
   */
  function RefreshTokens(db: Db, userId: int, rt: Token, env: Env): (o: Outcome)
    ensures !env.findSucceeds ==> o == Outcome(Failure(LookupFailed), db)
    ensures o.result == Failure(AccessDenied) <==> env.findSucceeds && userId !in db.users
    ensures Valid(db) && Reliable(env) && userId in db.users ==> o.result.Success?
    ensures o.result.Failure? ==> o.db == db
    ensures Valid(db) && o.result.Success? ==>
              && OnlyHashedRtChanged(db, o.db, userId)
              && StoresRtFor(o.db, userId, o.result.value.refreshToken)
              && IssuedPair(o.result.value, userId, db.users[userId].email, env.now)
  {
    if !env.findSucceeds then Outcome(Failure(LookupFailed), db)
    else
      match FindById(db.users, userId)
      case None => Outcome(Failure(AccessDenied), db)
      case Some(user) =>
        match IssueAndStore(db, user, env)
        case Failure(f) => Outcome(Failure(Unhandled(f)), db)
        case Success((tokens, db1)) => Outcome(Success(tokens), db1)
  }

  /**
   * `refreshTokens` as evidently intended: the compare is awaited, and a row
   * with no refresh-token digest (logged out) is refused before comparing.
   */
  function RefreshTokensChecked(db: Db, userId: int, rt: Token, env: Env): (o: Outcome)
    ensures !env.findSucceeds ==> o == Outcome(Failure(LookupFailed), db)
    ensures o.result == Failure(AccessDenied) <==> env.findSucceeds && !StoresRtFor(db, userId, rt)
    ensures Valid(db) && Reliable(env) && StoresRtFor(db, userId, rt) ==> o.result.Success?
    ensures o.result.Failure? ==> o.db == db
    ensures Valid(db) && o.result.Success? ==>
              && OnlyHashedRtChanged(db, o.db, userId)
              && StoresRtFor(o.db, userId, o.result.value.refreshToken)
              && IssuedPair(o.result.value, userId, db.users[userId].email, env.now)
  {
    if !env.findSucceeds then Outcome(Failure(LookupFailed), db)
    else
      match FindById(db.users, userId)
      case None => Outcome(Failure(AccessDenied), db)
      case Some(user) =>
        match user.hashedRt
        case None => Outcome(Failure(AccessDenied), db)
        case Some(h) =>
          if !Compare(rt, h) then Outcome(Failure(AccessDenied), db)
          else
            match IssueAndStore(db, user, env)
            case Failure(f) => Outcome(Failure(Unhandled(f)), db)
            case Success((tokens, db1)) => Outcome(Success(tokens), db1)
  }
}
