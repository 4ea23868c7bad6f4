/**
 * GET and POST /api/users, for administrators only: the listing projects
 * every user without its password; creation refuses a taken email and
 * stores the password only as a hash.
 */
module UsersRoute {
  import opened Schema
  import opened Auth
  import opened Store

  /** The fields the listing selects: everything but password and updatedAt. */
  datatype UserSummary = UserSummary(id: int, name: string, email: string, role: Role, cuit: Option<string>, createdAt: int)

  /** The created record with its password field removed. */
  datatype UserWithoutPassword = UserWithoutPassword(id: int, email: string, name: string, cuit: Option<string>,
                                                     role: Role, createdAt: int, updatedAt: int)

  datatype ListResponse = ListForbidden | Listed(users: seq<UserSummary>) {
    function Status(): int {
      match this
      case ListForbidden => 403
      case Listed(_) => 200
    }
  }

  /** The JSON body of POST /api/users; role is the string the form sends. */
  datatype UserRequest = UserRequest(name: Option<string>, email: Option<string>, password: Option<string>,
                                     role: Option<string>, cuit: Option<string>)

  datatype CreateResponse = CreateForbidden | CreateBadRequest | Conflict | ServerError | Created(user: UserWithoutPassword) {
    function Status(): int {
      match this
      case CreateForbidden => 403
      case CreateBadRequest => 400
      case Conflict => 409
      case ServerError => 500
      case Created(_) => 201
    }
  }

  function Summary(u: User): UserSummary {
    UserSummary(u.id, u.name, u.email, u.role, u.cuit, u.createdAt)
  }

  function WithoutPassword(u: User): UserWithoutPassword {
    UserWithoutPassword(u.id, u.email, u.name, u.cuit, u.role, u.createdAt, u.updatedAt)
  }

  /** GET /api/users: 403 unless the caller is an administrator; otherwise every user, in table order, without its password. */
  function Get(session: Option<SessionUser>, users: seq<User>): (r: ListResponse)
    ensures r.ListForbidden? <==> !IsAdmin(session)
    ensures r.Listed? ==> |r.users| == |users|
    ensures r.Listed? ==> forall i :: 0 <= i < |users| ==>
              && r.users[i].id == users[i].id && r.users[i].name == users[i].name
              && r.users[i].email == users[i].email && r.users[i].role == users[i].role
              && r.users[i].cuit == users[i].cuit && r.users[i].createdAt == users[i].createdAt
  {
    if !IsAdmin(session) then ListForbidden
    else Listed(seq(|users|, i requires 0 <= i < |users| => Summary(users[i])))
  }

  /** Two user tables that differ only in their password hashes list identically. */
  ghost predicate SameButPasswords(us: seq<User>, vs: seq<User>) {
    |us| == |vs| && forall i :: 0 <= i < |us| ==> us[i] == vs[i].(password := us[i].password)
  }

  lemma ListingHidesPasswords(session: Option<SessionUser>, us: seq<User>, vs: seq<User>)
    requires SameButPasswords(us, vs)
    ensures Get(session, us) == Get(session, vs)
  {
    if IsAdmin(session) {
      assert Get(session, us).users == Get(session, vs).users;
    }
  }

  /** The `role` string as the Role enum; any other string fails the store's validation. */
  function ParseRole(s: string): (r: Option<Role>)
    ensures r == Some(ADMIN) <==> s == "ADMIN"
    ensures r == Some(COMERCIO) <==> s == "COMERCIO"
  {
    if s == "ADMIN" then Some(ADMIN)
    else if s == "COMERCIO" then Some(COMERCIO)
    else None
  }

  predicate MissingField(req: UserRequest) {
    Falsy(req.name) || Falsy(req.email) || Falsy(req.password) || Falsy(req.role)
  }

  /**
   * POST /api/users. 403 unless administrator, 400 on a missing field, 409
   * when the email is in use; otherwise one user create with the hashed
   * password and `cuit || null`, answered with the record minus its
   * password (201), or 500 when the store refuses it (a role outside the
   * enum or a cuit another user holds).
   */
  method Post(db: Database, session: Option<SessionUser>, req: UserRequest, hash: string -> string, now: int)
    returns (r: CreateResponse)
    requires db.Valid()
    modifies db
    ensures db.Valid()
    ensures db.clients == old(db.clients) && db.debts == old(db.debts)
    ensures r.CreateForbidden? <==> !IsAdmin(session)
    ensures r.CreateBadRequest? <==> IsAdmin(session) && MissingField(req)
    ensures r.Conflict? <==> IsAdmin(session) && !MissingField(req)
                             && UserIndexByEmail(old(db.users), req.email.value).Some?
    ensures r.ServerError? <==> && IsAdmin(session) && !MissingField(req)
                                && UserIndexByEmail(old(db.users), req.email.value).None?
                                && (ParseRole(req.role.value).None? || CuitTaken(old(db.users), OrNull(req.cuit)))
    ensures !r.Created? ==> db.users == old(db.users)
    ensures r.Created? ==>
              && !MissingField(req)
              && |db.users| == |old(db.users)| + 1
              && db.users[..|old(db.users)|] == old(db.users)
              && var u := db.users[|old(db.users)|];
              && u.email == req.email.value && u.name == req.name.value
              && u.password == hash(req.password.value)
              && Some(u.role) == ParseRole(req.role.value)
              && u.cuit == OrNull(req.cuit)
              && r.user == WithoutPassword(u)
  {
    if !IsAdmin(session) {
      return CreateForbidden;
    }
    if MissingField(req) {
      return CreateBadRequest;
    }
    var existing := db.UserByEmail(req.email.value);
    if existing.Some? {
      return Conflict;
    }
    var hashed := hash(req.password.value);
    var role := ParseRole(req.role.value);
    if role.None? {
      return ServerError;
    }
    var created := db.CreateUser(NewUser(req.email.value, req.name.value, hashed, OrNull(req.cuit), role.value), now);
    match created {
      case None => r := ServerError;
      case Some(u) =>
        assert db.users[|old(db.users)|] == u;
        r := Created(WithoutPassword(u));
    }
  }
}
