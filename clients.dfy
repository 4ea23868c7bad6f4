/**
 * GET and POST /api/clients. GET lists the debtors a commerce still has an
 * active debt with, each with that commerce's own debts (newest first) and
 * two derived totals; POST only validates its body and then refuses.
 */
module ClientsRoute {
  import opened Schema
  import opened Auth

  /** One listed debtor: its own fields, this commerce's debts on it, and the totals over the active ones. */
  datatype ClientSummary = ClientSummary(client: Client, debts: seq<Debt>, totalDebt: real, activeDebts: nat)

  datatype ListResponse = ListForbidden | Listed(entries: seq<ClientSummary>) {
    function Status(): int {
      match this
      case ListForbidden => 403
      case Listed(_) => 200
    }
  }

  /** The JSON body of POST /api/clients. */
  datatype ClientRequest = ClientRequest(dni: Option<string>, firstName: Option<string>, lastName: Option<string>,
                                         email: Option<string>, phone: Option<string>)

  datatype CreateResponse = CreateForbidden | CreateBadRequest | CreateNotAllowed {
    function Status(): int {
      match this
      case CreateForbidden => 403
      case CreateBadRequest => 400
      case CreateNotAllowed => 405
    }
  }

  // ---------------------------------------------------------------------------
  // The query: `debts: { some: ... }` on clients, `include: { debts: { where } }`

  /** The debts of one client that belong to one commerce, in table order. */
  function OwnedBy(ds: seq<Debt>, comercioId: int, clientId: int): (r: seq<Debt>)
    ensures forall d :: d in r <==> d in ds && d.comercioId == comercioId && d.clientId == clientId
  {
    if ds == [] then []
    else (if ds[0].comercioId == comercioId && ds[0].clientId == clientId then [ds[0]] else [])
         + OwnedBy(ds[1..], comercioId, clientId)
  }

  /** The reference definition of what the totals range over: a client's active debts with one commerce. */
  function ActiveOwnedBy(ds: seq<Debt>, comercioId: int, clientId: int): (r: seq<Debt>)
    ensures forall d :: d in r <==> d in ds && d.comercioId == comercioId && d.clientId == clientId && IsActive(d.status)
  {
    if ds == [] then []
    else (if ds[0].comercioId == comercioId && ds[0].clientId == clientId && IsActive(ds[0].status) then [ds[0]] else [])
         + ActiveOwnedBy(ds[1..], comercioId, clientId)
  }

  /** The listing's selection criterion: some PENDING or PARTIAL debt of this commerce on this client. */
  ghost predicate HasActiveDebt(ds: seq<Debt>, comercioId: int, clientId: int) {
    exists d :: d in ds && d.comercioId == comercioId && d.clientId == clientId && IsActive(d.status)
  }

  lemma ActiveOwnedByNonEmpty(ds: seq<Debt>, comercioId: int, clientId: int)
    ensures ActiveOwnedBy(ds, comercioId, clientId) != [] <==> HasActiveDebt(ds, comercioId, clientId)
  {
    var r := ActiveOwnedBy(ds, comercioId, clientId);
    if r != [] {
      assert r[0] in r;
    }
  }

  /** findMany with the `some` filter: the clients that have an active debt with this commerce, in table order. */
  function WithActiveDebt(cs: seq<Client>, ds: seq<Debt>, comercioId: int): (r: seq<Client>)
    ensures forall c :: c in r <==> c in cs && HasActiveDebt(ds, comercioId, c.id)
  {
    if cs == [] then []
    else
      ActiveOwnedByNonEmpty(ds, comercioId, cs[0].id);
      (if ActiveOwnedBy(ds, comercioId, cs[0].id) != [] then [cs[0]] else []) + WithActiveDebt(cs[1..], ds, comercioId)
  }

  /** No two clients of the sequence share an id, as in the store's Client table. */
  ghost predicate IdsDistinct(cs: seq<Client>) {
    forall i, j :: 0 <= i < j < |cs| ==> cs[i].id != cs[j].id
  }

  lemma ConsIdsDistinct(c: Client, rest: seq<Client>)
    requires IdsDistinct(rest) && forall x :: x in rest ==> x.id != c.id
    ensures IdsDistinct([c] + rest)
  {
    var r := [c] + rest;
    forall i, j | 0 <= i < j < |r| ensures r[i].id != r[j].id {
      assert r[j] == rest[j - 1] && r[j] in rest;
      if 0 < i {
        assert r[i] == rest[i - 1];
      }
    }
  }

  /** The selection is a subsequence, so it lists each client of the table at most once. */
  lemma {:induction false} WithActiveDebtIdsDistinct(cs: seq<Client>, ds: seq<Debt>, comercioId: int)
    ensures IdsDistinct(cs) ==> IdsDistinct(WithActiveDebt(cs, ds, comercioId))
  {
    if cs != [] && IdsDistinct(cs) {
      var tail := cs[1..];
      assert IdsDistinct(tail) by {
        forall i, j | 0 <= i < j < |tail| ensures tail[i].id != tail[j].id {
          assert tail[i] == cs[i + 1] && tail[j] == cs[j + 1];
        }
      }
      WithActiveDebtIdsDistinct(tail, ds, comercioId);
      var rest := WithActiveDebt(tail, ds, comercioId);
      forall x | x in rest ensures x.id != cs[0].id {
        var k :| 0 <= k < |tail| && tail[k] == x;
        assert cs[k + 1] == x;
      }
      if ActiveOwnedBy(ds, comercioId, cs[0].id) != [] {
        ConsIdsDistinct(cs[0], rest);
      }
    }
  }

  // ---------------------------------------------------------------------------
  // orderBy: { createdAt: 'desc' }

  ghost predicate NewestFirst(ds: seq<Debt>) {
    forall i, j :: 0 <= i < j < |ds| ==> ds[i].createdAt >= ds[j].createdAt
  }

  function InsertNewestFirst(d: Debt, ds: seq<Debt>): (r: seq<Debt>)
    requires NewestFirst(ds)
    ensures |r| == |ds| + 1
    ensures r[0] == d || (ds != [] && r[0] == ds[0])
    ensures NewestFirst(r)
    ensures multiset(r) == multiset(ds) + multiset{d}
  {
    if ds == [] || d.createdAt >= ds[0].createdAt then [d] + ds
    else
      assert ds == [ds[0]] + ds[1..];
      [ds[0]] + InsertNewestFirst(d, ds[1..])
  }

  /** The debts ordered by createdAt, newest first; debts created at the same instant may come in either order. */
  function SortNewestFirst(ds: seq<Debt>): (r: seq<Debt>)
    ensures NewestFirst(r)
    ensures multiset(r) == multiset(ds)
  {
    if ds == [] then []
    else
      assert ds == [ds[0]] + ds[1..];
      InsertNewestFirst(ds[0], SortNewestFirst(ds[1..]))
  }

  // ---------------------------------------------------------------------------
  // filter and reduce over one client's debts

  /** `filter(debt => debt.status === 'PENDING' || debt.status === 'PARTIAL')`. */
  function ActiveOnly(ds: seq<Debt>): (r: seq<Debt>)
    ensures forall d :: d in r <==> d in ds && IsActive(d.status)
  {
    if ds == [] then []
    else (if IsActive(ds[0].status) then [ds[0]] else []) + ActiveOnly(ds[1..])
  }

  /** `reduce((sum, debt) => sum + debt.amount, 0)`, a left fold; amounts are exact reals here. */
  function SumAmounts(ds: seq<Debt>): real
  {
    if ds == [] then 0.0 else SumAmounts(ds[..|ds| - 1]) + ds[|ds| - 1].amount
  }

  lemma {:induction false} SumConcat(a: seq<Debt>, b: seq<Debt>)
    ensures SumAmounts(a + b) == SumAmounts(a) + SumAmounts(b)
    decreases |b|
  {
    if b == [] {
      assert a + b == a;
    } else {
      var b' := b[..|b| - 1];
      assert (a + b)[..|a + b| - 1] == a + b';
      SumConcat(a, b');
    }
  }

  /** The sum does not depend on the order of the debts. */
  lemma {:induction false} SumPermutation(a: seq<Debt>, b: seq<Debt>)
    requires multiset(a) == multiset(b)
    ensures SumAmounts(a) == SumAmounts(b)
    decreases |a|
  {
    if a == [] {
      assert |b| == |multiset(b)| == 0;
    } else {
      var x := a[|a| - 1];
      var a' := a[..|a| - 1];
      assert a == a' + [x];
      assert x in multiset(b);
      var k :| 0 <= k < |b| && b[k] == x;
      var b' := b[..k] + b[k + 1..];
      assert b == b[..k] + [x] + b[k + 1..];
      assert multiset(b') == multiset(b) - multiset{x};
      assert multiset(a') == multiset(a) - multiset{x};
      SumPermutation(a', b');
      SumConcat(b[..k] + [x], b[k + 1..]);
      SumConcat(b[..k], [x]);
      SumConcat(b[..k], b[k + 1..]);
      assert [x][..0] == [];
    }
  }

  lemma {:induction false} ActiveOnlyCount(ds: seq<Debt>, d: Debt)
    ensures multiset(ActiveOnly(ds))[d] == if IsActive(d.status) then multiset(ds)[d] else 0
  {
    if ds != [] {
      assert ds == [ds[0]] + ds[1..];
      ActiveOnlyCount(ds[1..], d);
    }
  }

  /** Filtering commutes with reordering. */
  lemma ActiveOnlyPermutation(a: seq<Debt>, b: seq<Debt>)
    requires multiset(a) == multiset(b)
    ensures multiset(ActiveOnly(a)) == multiset(ActiveOnly(b))
  {
    forall d ensures multiset(ActiveOnly(a))[d] == multiset(ActiveOnly(b))[d] {
      ActiveOnlyCount(a, d);
      ActiveOnlyCount(b, d);
    }
  }

  /** Keeping the active ones among a client's debts with a commerce is the reference selection. */
  lemma {:induction false} ActiveOnlyOwnedBy(ds: seq<Debt>, comercioId: int, clientId: int)
    ensures ActiveOnly(OwnedBy(ds, comercioId, clientId)) == ActiveOwnedBy(ds, comercioId, clientId)
  {
    if ds != [] {
      ActiveOnlyOwnedBy(ds[1..], comercioId, clientId);
      var head := if ds[0].comercioId == comercioId && ds[0].clientId == clientId then [ds[0]] else [];
      ActiveOnlyConcat(head, OwnedBy(ds[1..], comercioId, clientId));
    }
  }

  lemma {:induction false} ActiveOnlyConcat(a: seq<Debt>, b: seq<Debt>)
    ensures ActiveOnly(a + b) == ActiveOnly(a) + ActiveOnly(b)
  {
    if a == [] {
      assert a + b == b;
    } else {
      assert (a + b)[1..] == a[1..] + b;
      ActiveOnlyConcat(a[1..], b);
    }
  }

  // ---------------------------------------------------------------------------
  // The listing

  /** What every listed entry satisfies, stated against the store's debts. */
  ghost predicate SummaryMatches(e: ClientSummary, ds: seq<Debt>, comercioId: int) {
    && NewestFirst(e.debts)
    && multiset(e.debts) == multiset(OwnedBy(ds, comercioId, e.client.id))
    && (forall d :: d in e.debts ==> d.comercioId == comercioId && d.clientId == e.client.id)
    && e.activeDebts == |ActiveOwnedBy(ds, comercioId, e.client.id)|
    && e.totalDebt == SumAmounts(ActiveOwnedBy(ds, comercioId, e.client.id))
  }

  /** The `map` step: the client's fields, its debts with this commerce, and the totals over the active ones. */
  function Summarize(c: Client, ds: seq<Debt>, comercioId: int): (e: ClientSummary)
    ensures e.client == c
    ensures SummaryMatches(e, ds, comercioId)
  {
    var owned := OwnedBy(ds, comercioId, c.id);
    var mine := SortNewestFirst(owned);
    var active := ActiveOnly(mine);
    ActiveOnlyPermutation(mine, owned);
    SumPermutation(active, ActiveOnly(owned));
    ActiveOnlyOwnedBy(ds, comercioId, c.id);
    assert forall d :: d in mine ==> d in multiset(owned);
    assert |active| == |multiset(active)| == |multiset(ActiveOnly(owned))|;
    ClientSummary(c, mine, SumAmounts(active), |active|)
  }

  function SummarizeAll(cs: seq<Client>, ds: seq<Debt>, comercioId: int): (r: seq<ClientSummary>)
    ensures |r| == |cs|
    ensures forall i :: 0 <= i < |cs| ==> r[i].client == cs[i] && SummaryMatches(r[i], ds, comercioId)
  {
    if cs == [] then [] else [Summarize(cs[0], ds, comercioId)] + SummarizeAll(cs[1..], ds, comercioId)
  }

  /** The entries of a commerce's listing. */
  function ListFor(t: Tables, comercioId: int): (entries: seq<ClientSummary>)
    ensures forall c :: (c in t.clients && HasActiveDebt(t.debts, comercioId, c.id))
                          <==> exists e :: e in entries && e.client == c
    ensures forall e :: e in entries ==> SummaryMatches(e, t.debts, comercioId) && e.activeDebts >= 1
    ensures IdsDistinct(t.clients) ==>
              forall i, j :: 0 <= i < j < |entries| ==> entries[i].client.id != entries[j].client.id
  {
    var listed := WithActiveDebt(t.clients, t.debts, comercioId);
    var entries := SummarizeAll(listed, t.debts, comercioId);
    ListedEntries(listed, entries, t.debts, comercioId);
    WithActiveDebtIdsDistinct(t.clients, t.debts, comercioId);
    entries
  }

  lemma ListedEntries(listed: seq<Client>, entries: seq<ClientSummary>, ds: seq<Debt>, comercioId: int)
    requires |entries| == |listed|
    requires forall i :: 0 <= i < |listed| ==> entries[i].client == listed[i]
    requires forall c :: c in listed ==> HasActiveDebt(ds, comercioId, c.id)
    ensures forall c :: c in listed <==> exists e :: e in entries && e.client == c
    ensures forall e :: e in entries ==> e.activeDebts == |ActiveOwnedBy(ds, comercioId, e.client.id)| ==> e.activeDebts >= 1
  {
    forall c | c in listed ensures exists e :: e in entries && e.client == c {
      var i :| 0 <= i < |listed| && listed[i] == c;
      assert entries[i] in entries;
    }
    forall e | e in entries ensures e.client in listed {
      var i :| 0 <= i < |entries| && entries[i] == e;
      assert listed[i] in listed;
    }
    forall e | e in entries ensures e.activeDebts == |ActiveOwnedBy(ds, comercioId, e.client.id)| ==> e.activeDebts >= 1 {
      ActiveOwnedByNonEmpty(ds, comercioId, e.client.id);
    }
  }

  /**
   * GET /api/clients. 403 without a commerce session; otherwise one entry per
   * client with an active debt of the caller, each once, and no other client.
   */
  function Get(session: Option<SessionUser>, t: Tables): (r: ListResponse)
    ensures r.ListForbidden? <==> CommerceId(session).None?
    ensures r.Listed? ==> forall c :: (c in t.clients && HasActiveDebt(t.debts, CommerceId(session).value, c.id))
                                        <==> exists e :: e in r.entries && e.client == c
    ensures r.Listed? ==> forall e :: e in r.entries ==>
              && SummaryMatches(e, t.debts, CommerceId(session).value)
              && e.activeDebts >= 1
    ensures r.Listed? && IdsDistinct(t.clients) ==>
              forall i, j :: 0 <= i < j < |r.entries| ==> r.entries[i].client.id != r.entries[j].client.id
  {
    match CommerceId(session)
    case None => ListForbidden
    case Some(comercioId) => Listed(ListFor(t, comercioId))
  }

  /**
   * POST /api/clients. 403 without a commerce session, 400 when dni, first
   * name or last name is missing, and 405 otherwise; debtors are only ever
   * created by debt registration, so this handler reads and writes no table.
   */
  function Post(session: Option<SessionUser>, req: ClientRequest): (r: CreateResponse)
    ensures r.CreateForbidden? <==> CommerceId(session).None?
    ensures r.CreateBadRequest? <==> CommerceId(session).Some? && (Falsy(req.dni) || Falsy(req.firstName) || Falsy(req.lastName))
    ensures r.Status() in {400, 403, 405}
  {
    if CommerceId(session).None? then CreateForbidden
    else if Falsy(req.dni) || Falsy(req.firstName) || Falsy(req.lastName) then CreateBadRequest
    else CreateNotAllowed
  }
}
