/**
 * The relational store as the handlers use it: three tables, autoincrement
 * ids, and the unique and foreign-key constraints the schema declares. A
 * create that would break a constraint is refused and changes nothing.
 */
module Store {
  import opened Schema

  /** The data of a User create; id and timestamps come from the store. */
  datatype NewUser = NewUser(email: string, name: string, password: string, cuit: Option<string>, role: Role)

  /** The `create` half of a connectOrCreate on Client. */
  datatype NewClient = NewClient(dni: string, firstName: string, lastName: string,
                                 email: Option<string>, phone: Option<string>)

  /** The data of a Debt create; status is left to the store default. */
  datatype NewDebt = NewDebt(amount: real, description: string, comercioId: int)

  /** A Debt create with `client: { connectOrCreate: { where: { dni }, create } }` is refused by the store. */
  predicate DebtCreateRefused(users: seq<User>, clients: seq<Client>, data: NewDebt, client: NewClient) {
    || !UserIdExists(users, data.comercioId)
    || (ClientIndexByDni(clients, client.dni).None? && ClientEmailTaken(clients, client.email))
  }

  class Database {
    var users: seq<User>
    var clients: seq<Client>
    var debts: seq<Debt>
    var nextUserId: int
    var nextClientId: int
    var nextDebtId: int

    ghost predicate Valid()
      reads this
    {
      && UsersWellFormed(users, nextUserId)
      && ClientsWellFormed(clients, nextClientId)
      && DebtsWellFormed(debts, nextDebtId, users, clients)
    }

    /** An empty store. */
    constructor ()
      ensures Valid()
      ensures users == [] && clients == [] && debts == []
    {
      users, clients, debts := [], [], [];
      nextUserId, nextClientId, nextDebtId := 1, 1, 1;
    }

    /** user.findUnique({ where: { email } }). */
    function UserByEmail(email: string): (r: Option<User>)
      reads this
      ensures r.Some? ==> r.value in users && r.value.email == email
      ensures r.None? ==> forall u :: u in users ==> u.email != email
    {
      match UserIndexByEmail(users, email)
      case None => None
      case Some(k) => Some(users[k])
    }

    /**
     * user.create: appends one user with the next id, unless the email or a
     * non-null cuit is already taken.
     */
    method CreateUser(data: NewUser, now: int) returns (r: Option<User>)
      requires Valid()
      modifies this
      ensures Valid()
      ensures clients == old(clients) && debts == old(debts)
      ensures nextClientId == old(nextClientId) && nextDebtId == old(nextDebtId)
      ensures r.None? <==> UserIndexByEmail(old(users), data.email).Some? || CuitTaken(old(users), data.cuit)
      ensures r.None? ==> users == old(users) && nextUserId == old(nextUserId)
      ensures r.Some? ==> users == old(users) + [r.value]
      ensures r.Some? ==> r.value == User(old(nextUserId), data.email, data.name, data.password, data.cuit, data.role, now, now)
    {
      if UserIndexByEmail(users, data.email).Some? || CuitTaken(users, data.cuit) {
        return None;
      }
      var u := User(nextUserId, data.email, data.name, data.password, data.cuit, data.role, now, now);
      forall i | 0 <= i < |users| ensures users[i].email != u.email && (users[i].cuit.Some? ==> users[i].cuit != u.cuit) {
        assert users[i] in users;
      }
      users := users + [u];
      nextUserId := nextUserId + 1;
      forall d | d in debts ensures UserIdExists(users, d.comercioId) {
        var w :| w in old(users) && w.id == d.comercioId;
        assert w in users;
      }
      r := Some(u);
    }

    /**
     * debt.create with connectOrCreate on the client's dni: reuses the client
     * with that dni untouched, or creates it; then appends the debt with the
     * default status. Refused as a whole when the commerce id names no user
     * or the new client's email is taken.
     */
    method CreateDebt(data: NewDebt, client: NewClient, now: int) returns (r: Option<Debt>)
      requires Valid()
      modifies this
      ensures Valid()
      ensures users == old(users) && nextUserId == old(nextUserId)
      ensures r.None? <==> DebtCreateRefused(old(users), old(clients), data, client)
      ensures r.None? ==> clients == old(clients) && debts == old(debts)
      ensures r.Some? ==> debts == old(debts) + [r.value]
      ensures r.Some? ==> && r.value.id == old(nextDebtId)
                          && r.value.amount == data.amount
                          && r.value.description == data.description
                          && r.value.status == DefaultStatus
                          && r.value.comercioId == data.comercioId
                          && r.value.createdAt == now && r.value.updatedAt == now
      ensures r.Some? && ClientIndexByDni(old(clients), client.dni).Some? ==>
                var k := ClientIndexByDni(old(clients), client.dni).value;
                clients == old(clients) && r.value.clientId == old(clients)[k].id
      ensures r.Some? && ClientIndexByDni(old(clients), client.dni).None? ==>
                && clients == old(clients) + [Client(old(nextClientId), client.dni, client.firstName, client.lastName,
                                                     client.email, client.phone, now, now)]
                && r.value.clientId == old(nextClientId)
    {
      if DebtCreateRefused(users, clients, data, client) {
        return None;
      }
      var clientId;
      match ClientIndexByDni(clients, client.dni) {
        case Some(k) =>
          clientId := clients[k].id;
          assert clients[k] in clients;
        case None =>
          var c := Client(nextClientId, client.dni, client.firstName, client.lastName, client.email, client.phone, now, now);
          forall i | 0 <= i < |clients| ensures clients[i].email.Some? ==> clients[i].email != c.email {
            assert clients[i] in clients;
          }
          clients := clients + [c];
          clientId := nextClientId;
          nextClientId := nextClientId + 1;
          assert c in clients;
      }
      var d := Debt(nextDebtId, data.amount, data.description, DefaultStatus, data.comercioId, clientId, now, now);
      debts := debts + [d];
      nextDebtId := nextDebtId + 1;
      forall e | e in debts ensures ClientIdExists(clients, e.clientId) {
        if e != d {
          var w :| w in old(clients) && w.id == e.clientId;
          assert w in clients;
        }
      }
      r := Some(d);
    }
  }
}
