/**
 * POST /api/debts: a commerce registers a debt against a debtor identified
 * by dni; the debtor is created the first time its dni is seen and reused,
 * untouched, afterwards.
 */
module DebtsRoute {
  import opened Schema
  import opened Auth
  import opened Store

  /** The JSON body: the debtor's fields followed by the debt's. */
  datatype DebtRequest = DebtRequest(dni: Option<string>, firstName: Option<string>, lastName: Option<string>,
                                     email: Option<string>, phone: Option<string>,
                                     amount: Option<string>, description: Option<string>)

  datatype PostResponse = Forbidden | BadRequest | ServerError | Created(debt: Debt) {
    function Status(): int {
      match this
      case Forbidden => 403
      case BadRequest => 400
      case ServerError => 500
      case Created(_) => 201
    }
  }

  /** One of the required fields is falsy. email and phone are optional. */
  predicate MissingField(req: DebtRequest) {
    Falsy(req.dni) || Falsy(req.firstName) || Falsy(req.lastName) || Falsy(req.amount) || Falsy(req.description)
  }

  /** The debt data of the create: the amount through parseFloat, the caller as owner, no status. */
  function NewDebtFor(req: DebtRequest, comercioId: int, parseFloat: string -> real): (d: NewDebt)
    requires !MissingField(req)
    ensures d.amount == parseFloat(req.amount.value) && d.description == req.description.value
    ensures d.comercioId == comercioId
  {
    NewDebt(parseFloat(req.amount.value), req.description.value, comercioId)
  }

  /**
   * The connectOrCreate `create` payload as the handler writes it: the email
   * is passed on verbatim, so the blank email field of the form arrives as "".
   */
  function NewClientAsWritten(req: DebtRequest): (c: NewClient)
    requires !MissingField(req)
    ensures c.dni == req.dni.value && c.firstName == req.firstName.value && c.lastName == req.lastName.value
    ensures c.email == req.email && c.phone == req.phone
  {
    NewClient(req.dni.value, req.firstName.value, req.lastName.value, req.email, req.phone)
  }

  /**
   * The payload with the blank email stored as null (`email || null`, as the
   * user handler does for cuit): a stored client email is never "".
   */
  function NewClientFor(req: DebtRequest): (c: NewClient)
    requires !MissingField(req)
    ensures c.dni == req.dni.value && c.firstName == req.firstName.value && c.lastName == req.lastName.value
    ensures c.phone == req.phone
    ensures Falsy(req.email) ==> c.email.None?
    ensures !Falsy(req.email) ==> c.email == req.email
    ensures c.email != Some("")
  {
    NewClient(req.dni.value, req.firstName.value, req.lastName.value, OrNull(req.email), req.phone)
  }

  /**
   * As written, once one debtor was stored with the blank email "", every
   * further new debtor submitted with the blank email is refused by the
   * unique constraint on Client.email, whoever the commerce is.
   */
  lemma BlankEmailRefusedAsWritten(users: seq<User>, clients: seq<Client>, data: NewDebt, req: DebtRequest, k: nat)
    requires !MissingField(req) && req.email == Some("")
    requires ClientIndexByDni(clients, req.dni.value).None?
    requires k < |clients| && clients[k].email == Some("")
    ensures DebtCreateRefused(users, clients, data, NewClientAsWritten(req))
  {
    assert clients[k] in clients;
  }

  /**
   * With the blank email stored as null, a new debtor is refused only when
   * the commerce does not exist or it brings a non-blank email that another
   * debtor already holds.
   */
  lemma BlankEmailAccepted(users: seq<User>, clients: seq<Client>, data: NewDebt, req: DebtRequest)
    requires !MissingField(req)
    ensures DebtCreateRefused(users, clients, data, NewClientFor(req)) <==>
              || !UserIdExists(users, data.comercioId)
              || (ClientIndexByDni(clients, req.dni.value).None? && !Falsy(req.email)
                  && exists c :: c in clients && c.email == req.email)
  {
  }

  /**
   * The handler. Refuses without a commerce session (403) or with a missing
   * field (400); otherwise issues one debt create with connectOrCreate on the
   * dni, with the client payload as written, which the store either performs
   * (201 with the new debt) or refuses as a whole (500). The last ensures is
   * the blank-email refusal of `BlankEmailRefusedAsWritten` at the handler.
   */
  method Post(db: Database, session: Option<SessionUser>, req: DebtRequest, parseFloat: string -> real, now: int)
    returns (r: PostResponse)
    requires db.Valid()
    modifies db
    ensures db.Valid() && DniUnique(db.clients)
    ensures db.users == old(db.users)
    ensures r.Forbidden? <==> CommerceId(session).None?
    ensures r.BadRequest? <==> CommerceId(session).Some? && MissingField(req)
    ensures r.ServerError? <==>
              && CommerceId(session).Some? && !MissingField(req)
              && DebtCreateRefused(old(db.users), old(db.clients),
                                   NewDebtFor(req, CommerceId(session).value, parseFloat), NewClientAsWritten(req))
    ensures !r.Created? ==> db.clients == old(db.clients) && db.debts == old(db.debts)
    ensures r.Created? ==>
              && CommerceId(session).Some? && !MissingField(req)
              && db.debts == old(db.debts) + [r.debt]
              && r.debt.comercioId == CommerceId(session).value
              && r.debt.amount == parseFloat(req.amount.value)
              && r.debt.description == req.description.value
              && r.debt.status == DefaultStatus
              && r.debt.createdAt == now
    ensures r.Created? && ClientIndexByDni(old(db.clients), req.dni.value).Some? ==>
              && db.clients == old(db.clients)
              && r.debt.clientId == old(db.clients)[ClientIndexByDni(old(db.clients), req.dni.value).value].id
    ensures r.Created? && ClientIndexByDni(old(db.clients), req.dni.value).None? ==>
              && |db.clients| == |old(db.clients)| + 1
              && db.clients[..|old(db.clients)|] == old(db.clients)
              && var c := db.clients[|old(db.clients)|];
              && c.id == r.debt.clientId
              && c.dni == req.dni.value && c.firstName == req.firstName.value && c.lastName == req.lastName.value
              && c.email == req.email && c.phone == req.phone
    ensures && CommerceId(session).Some? && !MissingField(req) && req.email == Some("")
            && ClientIndexByDni(old(db.clients), req.dni.value).None?
            && (exists c :: c in old(db.clients) && c.email == Some(""))
            ==> r.ServerError?
  {
    var comercioId := CommerceId(session);
    if comercioId.None? {
      return Forbidden;
    }
    if MissingField(req) {
      return BadRequest;
    }
    var debt := db.CreateDebt(NewDebtFor(req, comercioId.value, parseFloat), NewClientAsWritten(req), now);
    WellFormedClientsHaveUniqueDni(db.clients, db.nextClientId);
    match debt {
      case None => r := ServerError;
      case Some(d) => r := Created(d);
    }
  }
}
