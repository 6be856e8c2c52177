/**
 * The user table as the service sees it through Prisma: rows keyed by their
 * autoincrement id, a unique email column, the password digest and the nullable
 * refresh-token digest. Only the four calls the service makes are modelled:
 * `create`, `findUnique` (by email or by id), `update` by id and `updateMany`.
 */
module Store {
  import opened Wrappers
  import opened Bcrypt
  import Jwt

  /** One row: `{ id, email, hash, hashedRt }`. */
  datatype User = User(id: int, email: string, hash: Digest<string>, hashedRt: Option<Digest<Jwt.Token>>)

  /** The table and the next value of its id sequence. */
  datatype Db = Db(users: map<int, User>, nextId: int)

  /**
   * The store errors the service can meet: a failed unique constraint (Prisma
   * code P2002), a missing row to update (Prisma code P2025), and any other
   * failure of the database.
   */
  datatype StoreError = UniqueViolation | RecordNotFound | Unavailable

  /** An empty table whose sequence starts at 1. */
  function Empty(): Db
  {
    Db(map[], 1)
  }

  /**
   * What the database guarantees of the table: each row is stored under its own
   * id, ids come from the sequence, and no two rows share an email.
   */
  predicate Valid(db: Db)
  {
    && (forall k :: k in db.users ==> db.users[k].id == k && k < db.nextId)
    && (forall a, b :: a in db.users && b in db.users && db.users[a].email == db.users[b].email ==> a == b)
  }

  /** Some row already holds `email`. */
  predicate EmailTaken(users: map<int, User>, email: string)
  {
    exists k :: k in users && users[k].email == email
  }

  /** Two rows agree on everything but the refresh-token digest. */
  predicate SameAccount(u: User, v: User)
  {
    u.id == v.id && u.email == v.email && u.hash == v.hash
  }

  /** `m` is the least element of `s`. */
  predicate IsLeast(m: int, s: set<int>)
  {
    m in s && forall k :: k in s ==> m <= k
  }

  /** A set of keys with a known member has a least member. */
  lemma {:induction false} LeastExists(s: set<int>, w: int)
    requires w in s
    ensures exists m :: IsLeast(m, s)
    decreases s
  {
    if !IsLeast(w, s) {
      var k :| k in s && k < w;
      var below := set j | j in s && j < w;
      LeastExists(below, k);
      var m :| IsLeast(m, below);
      forall j | j in s
        ensures m <= j
      {
        if j < w {
          assert j in below;
        }
      }
      assert IsLeast(m, s);
    }
  }

  /**
   * Lookup of a user by the unique email column: the row holding `email`, or
   * nothing. Should several rows match, the one with the least id is returned;
   * with unique emails (`Valid`) there is at most one.
   */
  function FindByEmail(users: map<int, User>, email: string): (r: Option<User>)
    ensures r.None? <==> !EmailTaken(users, email)
    ensures r.Some? ==> r.value.email == email && exists k :: k in users && users[k] == r.value
  {
    if EmailTaken(users, email) then
      var w :| w in users && users[w].email == email;
      var matching := set j | j in users && users[j].email == email;
      LeastExists(matching, w);
      var k :| IsLeast(k, matching);
      Some(users[k])
    else
      None
  }

  /** Lookup of a user by primary key: the row stored under `id`, or nothing. */
  function FindById(users: map<int, User>, id: int): (r: Option<User>)
    ensures r.Some? <==> id in users
    ensures r.Some? ==> r.value == users[id]
  {
    if id in users then Some(users[id]) else None
  }

  /**
   * Insertion of a user with an email and a password digest: the row goes under
   * the next id of the sequence with no refresh-token digest. A taken email or a
   * taken id violates a unique constraint (`UniqueViolation`); `available` is
   * false when the database fails for any other reason.
   */
  function Create(db: Db, email: string, hash: Digest<string>, available: bool): (r: Result<(Db, User), StoreError>)
    ensures r.Success? <==> available && !EmailTaken(db.users, email) && db.nextId !in db.users
    ensures r.Failure? ==> r.error in {UniqueViolation, Unavailable}
    ensures r == Failure(UniqueViolation) <==> available && (EmailTaken(db.users, email) || db.nextId in db.users)
    ensures r.Success? ==>
              && r.value.1.id !in db.users
              && r.value.0.users == db.users[r.value.1.id := r.value.1]
              && r.value.1.email == email && r.value.1.hash == hash && r.value.1.hashedRt == None
  {
    if !available then Failure(Unavailable)
    else if EmailTaken(db.users, email) || db.nextId in db.users then Failure(UniqueViolation)
    else
      var u := User(db.nextId, email, hash, None);
      Success((Db(db.users[u.id := u], db.nextId + 1), u))
  }

  /**
   * Update by primary key of the refresh-token digest: overwrites the digest of
   * the row stored under `id`; a missing row is `RecordNotFound`.
   */
  function SetHashedRt(db: Db, id: int, hashedRt: Option<Digest<Jwt.Token>>, available: bool): (r: Result<Db, StoreError>)
    ensures r.Success? <==> available && id in db.users
    ensures r.Failure? && available ==> r.error == RecordNotFound
    ensures r.Success? ==>
              && r.value.users.Keys == db.users.Keys
              && r.value.nextId == db.nextId
              && r.value.users[id].hashedRt == hashedRt
              && SameAccount(r.value.users[id], db.users[id])
              && forall k :: k in db.users && k != id ==> r.value.users[k] == db.users[k]
  {
    if !available then Failure(Unavailable)
    else if id !in db.users then Failure(RecordNotFound)
    else Success(db.(users := db.users[id := db.users[id].(hashedRt := hashedRt)]))
  }

  /**
   * Conditional bulk update: every row whose id column is `id` and whose
   * refresh-token digest is set gets a null digest. Matching no row is not an
   * error.
   */
  function ClearHashedRtWhereSet(db: Db, id: int): Db
  {
    db.(users := map k | k in db.users ::
                   if db.users[k].id == id && db.users[k].hashedRt.Some?
                   then db.users[k].(hashedRt := None)
                   else db.users[k])
  }
}
