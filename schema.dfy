/**
 * The records of the three tables (User, Client, Debt), the shapes of the
 * request bodies the handlers read, and the lookups and uniqueness
 * invariants that the store maintains over the tables.
 */
module Schema {

  datatype Option<+T> = None | Some(value: T)

  datatype Role = ADMIN | COMERCIO

  /** Debt status; PARTIAL is used by the client listing even though the older generated enum lacks it. */
  datatype DebtStatus = PENDING | PARTIAL | PAID

  /** The store's default for Debt.status when a create does not set it. */
  const DefaultStatus: DebtStatus := PENDING

  /** A debt still owed in full or in part. */
  predicate IsActive(s: DebtStatus) {
    s == PENDING || s == PARTIAL
  }

  /** Timestamps are instants on one clock; the handlers receive "now" as a parameter. */
  datatype User = User(id: int, email: string, name: string, password: string, cuit: Option<string>,
                       role: Role, createdAt: int, updatedAt: int)

  datatype Client = Client(id: int, dni: string, firstName: string, lastName: string,
                           email: Option<string>, phone: Option<string>, createdAt: int, updatedAt: int)

  datatype Debt = Debt(id: int, amount: real, description: string, status: DebtStatus,
                       comercioId: int, clientId: int, createdAt: int, updatedAt: int)

  /** A read-only view of the whole store, as the query handlers see it. */
  datatype Tables = Tables(users: seq<User>, clients: seq<Client>, debts: seq<Debt>)

  /**
   * A JSON body field as JavaScript's `!field` judges it: absent (or null)
   * and the empty string are false. Fields are strings, as the forms send them.
   */
  predicate Falsy(f: Option<string>) {
    f.None? || f.value == ""
  }

  /** `field || null`: a falsy field becomes null. */
  function OrNull(f: Option<string>): (r: Option<string>)
    ensures Falsy(f) ==> r.None?
    ensures !Falsy(f) ==> r == f && r.value != ""
  {
    if Falsy(f) then None else f
  }

  /** findUnique on User.email: the position of the user with that email, if any. */
  function UserIndexByEmail(users: seq<User>, email: string): (r: Option<nat>)
    ensures r.Some? ==> r.value < |users| && users[r.value].email == email
    ensures r.None? ==> forall i :: 0 <= i < |users| ==> users[i].email != email
  {
    if users == [] then None
    else if users[0].email == email then Some(0)
    else match UserIndexByEmail(users[1..], email)
      case None => None
      case Some(k) => Some(k + 1)
  }

  /** findUnique on Client.dni: the position of the client with that dni, if any. */
  function ClientIndexByDni(clients: seq<Client>, dni: string): (r: Option<nat>)
    ensures r.Some? ==> r.value < |clients| && clients[r.value].dni == dni
    ensures r.None? ==> forall i :: 0 <= i < |clients| ==> clients[i].dni != dni
  {
    if clients == [] then None
    else if clients[0].dni == dni then Some(0)
    else match ClientIndexByDni(clients[1..], dni)
      case None => None
      case Some(k) => Some(k + 1)
  }

  predicate UserIdExists(users: seq<User>, id: int) {
    exists u :: u in users && u.id == id
  }

  predicate ClientIdExists(clients: seq<Client>, id: int) {
    exists c :: c in clients && c.id == id
  }

  /** A non-null cuit already held by some user (User.cuit is unique when present). */
  predicate CuitTaken(users: seq<User>, cuit: Option<string>) {
    cuit.Some? && exists u :: u in users && u.cuit == cuit
  }

  /** A non-null email already held by some client (Client.email is unique when present). */
  predicate ClientEmailTaken(clients: seq<Client>, email: Option<string>) {
    email.Some? && exists c :: c in clients && c.email == email
  }

  /** User ids are distinct and below the next autoincrement value; email is unique; cuit is unique when present. */
  ghost predicate UsersWellFormed(users: seq<User>, nextId: int) {
    && 1 <= nextId
    && (forall i :: 0 <= i < |users| ==> 1 <= users[i].id < nextId)
    && (forall i, j :: 0 <= i < j < |users| ==>
          && users[i].id != users[j].id
          && users[i].email != users[j].email
          && (users[i].cuit.Some? ==> users[i].cuit != users[j].cuit))
  }

  /** Client ids are distinct and below the next autoincrement value; dni is unique; email is unique when present. */
  ghost predicate ClientsWellFormed(clients: seq<Client>, nextId: int) {
    && 1 <= nextId
    && (forall i :: 0 <= i < |clients| ==> 1 <= clients[i].id < nextId)
    && (forall i, j :: 0 <= i < j < |clients| ==>
          && clients[i].id != clients[j].id
          && clients[i].dni != clients[j].dni
          && (clients[i].email.Some? ==> clients[i].email != clients[j].email))
  }

  /** Debt ids are distinct and below the next autoincrement value; every debt refers to an existing commerce user and client. */
  ghost predicate DebtsWellFormed(debts: seq<Debt>, nextId: int, users: seq<User>, clients: seq<Client>) {
    && 1 <= nextId
    && (forall i :: 0 <= i < |debts| ==> 1 <= debts[i].id < nextId)
    && (forall i, j :: 0 <= i < j < |debts| ==> debts[i].id != debts[j].id)
    && (forall d :: d in debts ==> UserIdExists(users, d.comercioId) && ClientIdExists(clients, d.clientId))
  }

  /** At most one client per dni, stated directly on the table. */
  ghost predicate DniUnique(clients: seq<Client>) {
    forall i, j :: 0 <= i < |clients| && 0 <= j < |clients| && clients[i].dni == clients[j].dni ==> i == j
  }

  lemma WellFormedClientsHaveUniqueDni(clients: seq<Client>, nextId: int)
    requires ClientsWellFormed(clients, nextId)
    ensures DniUnique(clients)
  {
  }
}
