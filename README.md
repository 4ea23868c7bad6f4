# Veraz debt registry: a Dafny model of its request handlers

Veraz is a multi-tenant debt registry. Commerces (users with role COMERCIO)
register debts against debtors, who are identified by their national id
(dni). Administrators manage the user accounts. The handlers sit over a
relational store with three tables: User (unique email, and unique cuit
when one is present), Client (unique dni, and unique email when one is
present) and Debt. Each Debt links one commerce to one client.

This project models:

- the store as a class `Store.Database`. It holds the three tables as
  sequences plus the autoincrement counters. Its unique and foreign-key
  constraints are enforced by `CreateUser` and `CreateDebt`, and its
  invariant `Valid()` states them.
- the debt registration handler (`POST /api/debts`) as a method that changes
  the store. It finds or creates the client by dni; an existing client is
  reused and not overwritten. It then appends one debt owned by the caller,
  with the default status PENDING.
- the commerce client listing (`GET /api/clients`) as a pure function over
  a snapshot of the store. It has the selection, the scoping to the
  caller's debts, the newest-first order, and the `activeDebts` and
  `totalDebt` totals. The companion `POST` only validates and then answers
  405.
- the administrator's user listing and creation (`/api/users`): a
  password-free projection, a duplicate-email conflict, the hashed password,
  and `cuit || null`.
- the bootstrap seed, which creates the administrator only if absent, and
  its idempotence.
- the page middleware: the route matcher, the `authorized` callback and the
  role redirects.

Time, the password hash (bcrypt) and `parseFloat` are parameters of the
handlers: `now`, `hash` and `parseFloat`. The session is an input value
`Option<SessionUser>`. Its `parsedId` is what `parseInt` makes of the id
claim, with `None` standing for NaN. A request body field is an
`Option<string>`. It is falsy when it is absent or "", as JavaScript's
`!field` tests it.

The store refuses a create that would break a constraint. The model then
makes the handler answer 500 and leaves the store unchanged. The nested
create of a debt with `connectOrCreate` is one statement, so it is
refused as a whole. These are the cases where the store refuses:

- a commerce id that names no user (foreign key on Debt);
- a new client whose email another client holds;
- a user whose cuit another user holds;
- a role outside the enum.

Where the code and the documented intent of the system differ, the model
follows the code:

- Every gate answers 403, also when there is no session at all. There is no 401.
- The debt handler does not check that the amount is a valid non-negative
  number. Any non-empty amount field is accepted and passed through
  `parseFloat`.
- The debt status has three values, PENDING, PARTIAL and PAID. The client
  listing tests for PARTIAL, but the generated enum lists only PENDING and PAID.
- The listing orders each client's debts newest first (`orderBy createdAt desc`).
- The client `POST` handler has a branch that answers 409 on a unique-constraint
  error. No statement in its `try` writes to the store, so the branch can never
  run and is not modelled.

## Model

| member | source | states |
|---|---|---|
| `Schema.UserIndexByEmail` | src/app/api/users/route.ts:50-53 | findUnique on email: returns a position holding that email, or None only when no user has it |
| `Schema.ClientIndexByDni` | src/app/api/debts/route.ts:39-41 | the connectOrCreate `where: { dni }` lookup: a position holding that dni, or None only when no client has it |
| `Schema.OrNull` | src/app/api/users/route.ts:63 | `cuit \|\| null`: an absent or empty field becomes null; any other value is kept and is non-empty |
| `Schema.WellFormedClientsHaveUniqueDni` | src/app/api/debts/route.ts:39-48 | in a store that keeps its invariant, no two clients share a dni |
| `Auth.CommerceId` | src/app/api/debts/route.ts:6-19 | getCommerceId plus the `!comercioId` test (repeated at src/app/api/clients/route.ts:6-19): no session, an ADMIN session, or an id that parses to 0 or NaN gives no commerce; otherwise the result is the parsed nonzero id of a COMERCIO session |
| `Store.Database.UserByEmail` | seed.ts:11-13 | findUnique on User.email: a user of the table with that email, or None only if no user has it |
| `Store.Database.CreateUser` | src/app/api/users/route.ts:57-65 | user.create: refused, table unchanged, exactly when the email or a non-null cuit is taken; otherwise appends one user with the next id and the given fields; clients, debts and their id counters unchanged; the invariant is kept |
| `Store.Database.CreateDebt` | src/app/api/debts/route.ts:33-51 | debt.create with connectOrCreate: an existing client with the dni is reused and left unchanged; otherwise exactly one client with the submitted fields is appended; one debt with the given amount, description and owner and status PENDING is appended; refused as a whole when the owner is no user or the new client's email is taken; users and the user id counter unchanged; the invariant (unique ids, dni, emails; debts refer to existing users and clients) is kept |
| `DebtsRoute.NewClientAsWritten` | src/app/api/debts/route.ts:41-47 | the client create payload as written: dni, names, phone and the email passed on verbatim |
| `DebtsRoute.NewClientFor` | src/app/api/debts/route.ts:41-47 | the corrected payload: a blank email is stored as null, so no stored client email is "" |
| `DebtsRoute.BlankEmailRefusedAsWritten` | src/app/api/debts/route.ts:45 | as written, once some client has email "", every new dni submitted with a blank email is refused by the store |
| `DebtsRoute.BlankEmailAccepted` | src/app/api/debts/route.ts:39-48 | with the correction, a new registration is refused only if the commerce is no user, or its dni is new and it brings a non-blank email another client holds |
| `DebtsRoute.Post` | src/app/api/debts/route.ts:15-59 | 403 exactly without a commerce; 400 exactly on a missing dni, firstName, lastName, amount or description; nothing changes on 403, 400 or 500; on 201 exactly one debt is appended with the caller as owner, the parsed amount, the description and status PENDING; an existing client with that dni is reused and the clients table is unchanged, else exactly one client with the submitted fields is appended, its email exactly as sent (a blank field stays ""); a new dni with the blank email "" is refused (500) once some client holds ""; users never change; dni stays unique |
| `ClientsRoute.OwnedBy` | src/app/api/clients/route.ts:33-36 | `include: { debts: { where: { comercioId } } }`: exactly the client's debts owned by that commerce |
| `ClientsRoute.ActiveOwnedBy` | src/app/api/clients/route.ts:22-32 | reference selection: exactly the client's PENDING or PARTIAL debts owned by that commerce |
| `ClientsRoute.ActiveOwnedByNonEmpty` | src/app/api/clients/route.ts:22-32 | the reference selection is non-empty iff the client has an active debt with that commerce (the `some` filter) |
| `ClientsRoute.WithActiveDebt` | src/app/api/clients/route.ts:22-32 | findMany with `debts: { some: ... }`: a client is selected iff it is in the table and has a PENDING or PARTIAL debt of the caller |
| `ClientsRoute.WithActiveDebtIdsDistinct` | src/app/api/clients/route.ts:22-32 | findMany returns each row once: when the table's client ids are distinct, so are the selected clients' ids |
| `ClientsRoute.InsertNewestFirst` | src/app/api/clients/route.ts:37-39 | inserting one debt into a newest-first list keeps it newest-first and adds exactly that debt |
| `ClientsRoute.SortNewestFirst` | src/app/api/clients/route.ts:37-39 | `orderBy: { createdAt: 'desc' }`: the result is ordered by createdAt descending and is a permutation of the input |
| `ClientsRoute.ActiveOnly` | src/app/api/clients/route.ts:46 | the filter keeps exactly the PENDING or PARTIAL debts |
| `ClientsRoute.SumConcat` | src/app/api/clients/route.ts:47 | the reduce-sum of a concatenation is the sum of the two parts' sums |
| `ClientsRoute.SumPermutation` | src/app/api/clients/route.ts:47 | the reduce-sum of amounts does not depend on the order of the debts |
| `ClientsRoute.ActiveOnlyCount` | src/app/api/clients/route.ts:46 | the filter keeps every active debt as many times as it occurs and drops every PAID one |
| `ClientsRoute.ActiveOnlyPermutation` | src/app/api/clients/route.ts:46 | filtering two permutations of one list gives permutations of one list |
| `ClientsRoute.ActiveOnlyConcat` | src/app/api/clients/route.ts:46 | the filter distributes over concatenation |
| `ClientsRoute.ActiveOnlyOwnedBy` | src/app/api/clients/route.ts:33-46 | filtering the caller's debts of a client for active ones gives exactly the reference selection |
| `ClientsRoute.Summarize` | src/app/api/clients/route.ts:45-53 | an entry: client fields copied unchanged; debts = the caller's debts on that client, newest first, a permutation of the store's; no other commerce's debt; activeDebts = the number of the caller's active debts on that client; totalDebt = the sum of their amounts (PAID debts contribute nothing) |
| `ClientsRoute.SummarizeAll` | src/app/api/clients/route.ts:45-54 | one entry per selected client, in order, each as `Summarize` states |
| `ClientsRoute.ListedEntries` | src/app/api/clients/route.ts:22-54 | the entries name exactly the selected clients, and every entry has activeDebts at least 1 |
| `ClientsRoute.ListFor` | src/app/api/clients/route.ts:22-54 | a client appears iff it has an active debt of the caller, and, the table's client ids being distinct, at most once; every entry matches the store as `Summarize` states; activeDebts is at least 1 |
| `ClientsRoute.Get` | src/app/api/clients/route.ts:15-61 | 403 exactly without a commerce; otherwise a client appears iff it has an active debt of the caller, each at most once, every entry as `Summarize` states with activeDebts at least 1 |
| `ClientsRoute.Post` | src/app/api/clients/route.ts:64-91 | 403 exactly without a commerce; 400 exactly on a missing dni, firstName or lastName; otherwise 405; never a success status, and no table is read or written |
| `UsersRoute.Get` | src/app/api/users/route.ts:15-35 | 403 exactly when not ADMIN; otherwise one entry per user, in table order, with its id, name, email, role, cuit and createdAt, and no password field |
| `UsersRoute.ListingHidesPasswords` | src/app/api/users/route.ts:21-31 | two user tables that differ only in passwords give the same listing: the response carries nothing of the password |
| `UsersRoute.ParseRole` | src/app/api/users/route.ts:62 | the role string is accepted exactly when it is "ADMIN" or "COMERCIO" |
| `UsersRoute.Post` | src/app/api/users/route.ts:37-73 | 403 exactly when not ADMIN; 400 exactly on a missing name, email, password or role; 409 exactly when the email is in use; 500 exactly on a role outside the enum or a taken cuit; the user table changes only on 201, and then by exactly one appended user whose password is hash(password), cuit is `cuit \|\| null`, and other fields are as sent; the response is that record without its password; clients and debts never change |
| `Seed.SeededUsers` | seed.ts:11-28 | the user table after seeding: unchanged when admin@veraz.com exists, else the table plus exactly that admin |
| `Seed.SeedIdempotent` | seed.ts:11-28 | seeding a seeded table changes nothing, whatever the id, hash or instant of the second run |
| `Seed.SeedAdmin` | seed.ts:7-31 | `main`: the user table becomes `SeededUsers` of the old one; clients and debts unchanged; afterwards an admin@veraz.com user exists |
| `Middleware.Route` | src/middleware.ts:5-30 | the middleware passes through or redirects, and only to "/admin" or "/comercio" |
| `Middleware.Handle` | src/middleware.ts:4-46 | outside the matcher the request passes; a matched request without a token goes to sign-in; every redirect target is "/admin" or "/comercio" |
| `Middleware.RootRedirectsByRole` | src/middleware.ts:10-17 | "/" with an ADMIN token goes to "/admin", with a COMERCIO token to "/comercio" |
| `Middleware.AreaPrefixesDisjoint` | src/middleware.ts:21-27 | no pathname starts with both "/admin" and "/comercio" |
| `Middleware.AreaRedirects` | src/middleware.ts:21-29 | on a matched path starting with "/admin", ADMIN passes and COMERCIO goes to "/comercio"; starting with "/comercio", COMERCIO passes and ADMIN goes to "/admin" |
| `Middleware.MatchedPathsHaveAnArea` | src/middleware.ts:40-46 | every matched path other than "/" starts with "/admin" or "/comercio" |
| `Middleware.OneRedirectSettles` | src/middleware.ts:10-29 | for a logged-in user, the target of a redirect is a page the middleware lets through |

## Findings

| source | as written | input that shows it | evidently intended | confidence | as-written member | corrected member |
|---|---|---|---|---|---|---|
| src/app/api/debts/route.ts:45 | the new client's `email` is stored verbatim. The debt form sends "" when its optional email is left blank. Client.email is unique when not null, so once one debtor is stored with email "", every later new debtor with a blank email is refused and the handler answers 500 | a store holding client (dni "111", email "") and a commerce submitting dni "222", firstName "Ana", lastName "Lopez", amount "100", description "loan", email "" | store a blank email as null, `email \|\| null`, as the user handler does for cuit | medium, not executed; the unique constraint on Client.email is inferred from the generated client's unique-input type | `DebtsRoute.BlankEmailRefusedAsWritten` | `DebtsRoute.BlankEmailAccepted` |

`DebtsRoute.Post` sends the payload as written, `DebtsRoute.NewClientAsWritten`,
and its last `ensures` is the refusal above at the handler: 500 on the
input shown. The corrected payload is `DebtsRoute.NewClientFor`, and
`DebtsRoute.BlankEmailAccepted` states what the store does with it.

## Left out

- Pages, components and the layout: they render and call the handlers. The role redirect on the home page repeats the middleware's rule.
- Credential verification, JWT and session issuing are left out. The session is an input value.
- bcrypt is a parameter `hash`. Its salting makes two hashes of one password differ; the model takes one call's result. "Never the plaintext" is stated as "the stored value is hash(password)".
- `parseFloat` is a parameter. Floating-point rounding and NaN amounts are not modelled. Amounts are exact reals.
- The generic 500 catch blocks for failures of JSON parsing, the network or the store's own code are left out. Only the store's constraint refusals are modelled as 500.
- Every request is one sequential step. The check-then-create race between the email lookup and the create in the user handler is left out, and so is concurrent `connectOrCreate`.
- A session object without a `user` part is left out. The authentication callbacks always set one.
- The token's role is a Role. A token role outside the enum cannot arise, since the role is copied from the user record.
- The matcher `'/admin/:path*'` is read as "/admin" or any path starting with "/admin/". Trailing-slash normalisation by the framework is left out.
- The sign-in redirect is a `ToLogin` decision. Its URL and callback parameter are left out.
- Debt status update, client lookup by dni, and user update and delete are not part of this model. Their handlers are other files.
- Timestamps are plain instants supplied as `now`. updatedAt equals createdAt on creation.
- Ids come from per-table counters that do not advance on a refused create.
- The Prisma connection singleton and its environment variables are left out.
- `Store.Database.CreateDebt`: takes the debt create of src/app/api/debts/route.ts:33-50 as accepted, although it sets the plain column `comercioId` beside the relation `client: { connectOrCreate }`. The generated client types admit either the relation form or the plain-column form of the input but not the mix. Whether the store's runtime validation refuses the mix is not modelled.
- `UsersRoute.Get`: the order of the listed users is not specified, since the query has no orderBy. The model keeps table order.
- `ClientsRoute.Get`: the order of the listed clients is not specified, since the query has no orderBy. The model keeps table order and the contract states which clients appear, each once, not their order.
