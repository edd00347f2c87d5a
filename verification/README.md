# Product API — Dafny model

A model of a small Express server that keeps an ordered, in-memory list of
product records (`id, name, description, price, category, inStock`). It serves
five routes under `/api/products`: list, get by id, create, partial update and
delete. It also has an authorization middleware that wants the header
`Authorization: Bearer secrettoken` on every non-GET request whose path starts
with `/api` (HEAD, PATCH and OPTIONS included).

Layout:

- `options.dfy` — `Options`: a property of a request body that is present or
  `undefined`, and JavaScript truthiness of an optional string.
- `products.dfy` — `Products`: the record, the five-field request body, the
  store (`seq<Product>`), the seeded records, and the array `findIndex` lookup.
- `handlers.dfy` — `Handlers`: the five store operations. Each is a pure
  function from a store to an outcome (`Ok(p) | NotFound | BadRequest`) and the
  next store.
- `store_laws.dfy` — `StoreLaws`: laws that relate the operations. Every
  operation keeps ids unique. Delete undoes create. Patches compose. The
  seeded-store scenarios hold.
- `auth.dfy` — `Auth`: the gate's decision over path, verb and header.
- `server.dfy` — `Server`: route matching, status codes, and the order in which
  routes and the gate see a request. It holds both the order as registered and
  the corrected order.

The generated uuid is a parameter `freshId`. Create and the request handlers
require that it is not already in the store.

As registered, the logging and authorization middleware come after every
route. A matched route answers the request without passing it on. So the gate
only ever sees requests that no route matched. POST, PUT and DELETE on
`/api/products` are therefore not protected. `Server.Handle` models the code
as written. `Server.HandleGuarded` models the evidently intended order, in
which the gate runs first. The middleware's own comment says the header is
required, but the code does not enforce it on the routes. The model follows
the code (see Findings).

Express answers HEAD requests with the routes registered for GET, and the model
does the same. The gate, though, exempts only the verb `GET`.

## Model

| member | source | states |
|---|---|---|
| Products.FindIndex | server.js:83 | -1 exactly when no record has the id; otherwise the position of the first record that has it |
| Handlers.List | server.js:50-52 | the listing is every stored record, in insertion order |
| Handlers.GetById | server.js:55-61 | Ok exactly when some record has the id, and then it is the first such record; otherwise NotFound; the store is untouched |
| Handlers.Create | server.js:64-79 | BadRequest exactly when name, description or category is absent or empty, or price or inStock is absent, and then the store is unchanged; otherwise it appends one record with the fresh id and the supplied values at the end |
| Handlers.Update | server.js:82-95 | NotFound with the store unchanged exactly when no record has the id; otherwise only the first matching record changes, each present field (false and 0 included) overwrites, each absent field and the id keep their values, the length is kept, and the patched record is returned |
| Handlers.Delete | server.js:98-105 | NotFound with the store unchanged exactly when no record has the id; otherwise returns the first matching record and removes exactly it, keeping the others in order |
| StoreLaws.SeedHasUniqueIds | server.js:16-41 | the three seeded records have distinct ids |
| StoreLaws.UniqueFindIndex | server.js:83 | with unique ids, lookup finds the one record that carries the id |
| StoreLaws.CreatePreservesUniqueIds | server.js:69-77 | create with a fresh id keeps ids unique |
| StoreLaws.UpdatePreservesUniqueIds | server.js:87-93 | update never changes an id, so ids stay unique |
| StoreLaws.DeletePreservesUniqueIds | server.js:103 | delete keeps ids unique |
| StoreLaws.GetAfterCreate | server.js:55-79 | a record just created is found by its id |
| StoreLaws.DeleteUndoesCreate | server.js:64-105 | deleting a just-created record returns it and restores the previous store |
| StoreLaws.DeleteRemovesId | server.js:98-105 | with unique ids, after delete the id is gone and get answers NotFound |
| StoreLaws.DeleteLeavesDuplicate | server.js:99-103 | for every store in which a later record repeats the id of the first match, delete returns the first match and keeps the later record (one position earlier), so the id is still present |
| StoreLaws.UpdateWithNoFieldsKeepsStore | server.js:87-94 | an update body with none of the five fields leaves the store unchanged |
| StoreLaws.UpdateComposes | server.js:87-94 | two updates of a record equal one update whose body takes the later present fields over the earlier ones |
| StoreLaws.UpdateIdempotent | server.js:87-94 | repeating an update changes nothing further |
| StoreLaws.SameIdsSameIndex | server.js:83 | stores whose ids agree position by position give the same lookup result |
| StoreLaws.FalsyTypedFieldsAccepted | server.js:66 | price 0 and inStock false count as present, so create accepts them |
| StoreLaws.NameOnlyBodyRejected | server.js:65-67 | a body with only a name is rejected and the store is unchanged |
| StoreLaws.SeedDeleteScenario | server.js:16-41 | deleting "2" from the seeded store returns the smartphone and leaves "1" then "3" |
| StoreLaws.ListAgreesWithGet | server.js:50-61 | get by id succeeds exactly when a listed record has the id, and it returns a listed record |
| Auth.Gate | server.js:126-133 | refuses exactly when the path starts with "/api", the verb is not GET, and the header is not exactly "Bearer secrettoken" (an empty header falls under the mismatch) |
| Auth.PrefixIsTextual | server.js:127 | the prefix test is textual: "/apidocs" is gated, "/ap" is not |
| Server.RouteOf | server.js:44-105 | a path routes to the root, the collection, or an item exactly when it has that route's shape, and the item id is the path's last segment |
| Server.ItemPathRoundTrip | server.js:55 | an item path built from an id segment routes back to that id |
| Server.Dispatch | server.js:44-105 | a routed request changes the store only for POST, PUT or DELETE and is answered 200, 201, 400 or 404; the root answers 200 with the welcome text; GET of the collection answers 200 with the whole store unchanged; a POST to the collection leaves exactly the store create leaves and answers 201 with the created record (fresh id and the supplied field values, appended at the end) exactly when the body is complete; 400 "Missing required fields" exactly for an incomplete POST, which changes nothing; 404 "Product not found" exactly for an item route whose id is not stored, which changes nothing; for a stored id, GET, PUT and DELETE answer 200 with the found, patched or removed record and the store get, update or delete leaves |
| Server.Fallthrough | server.js:118-136 | an unrouted request gets 401 with error "Unauthorized" exactly when the gate refuses it, and Express's default 404 otherwise; the store is unchanged |
| Server.Handle | server.js:44-136 | a routed request is answered by its route and never 401; an unrouted request goes to the gate and gets 401 exactly when the gate refuses it (e.g. PATCH /api/products/1 without the token), otherwise the default 404; a 401 never changes the store; only a routed POST, PUT or DELETE changes the store |
| Server.HeaderIgnoredOnRoutes | server.js:64-136 | for a routed request the answer does not depend on the Authorization header |
| Server.UnauthenticatedCreateAccepted | server.js:64-136 | a complete POST without a header on the seeded store is answered 201 with the new record, and the store becomes the seed followed by that record |
| Server.HandleGuarded | server.js:123-136 | with the gate before the routes, a non-GET /api request without the exact token gets 401 and the store is unchanged; a request the gate passes is answered as by Handle |
| Server.GuardedMutationsNeedToken | server.js:123-136 | with the gate first, the store changes only for a request carrying the token |

## Left out

- Express wiring, JSON body parsing and serialisation, and port binding
  (server.js:4-13, 145-150). Responses are a status and a body datatype.
- The duplicate `GET /api/products` registration (server.js:110-112). The
  earlier route always answers first, so it is never reached.
- The logging middleware (server.js:118-121) and the startup message. They only
  write to the console.
- The error-handling middleware (server.js:139-142). Nothing in the model can
  fault. A malformed JSON body, which Express would send there, is not modelled.
- `uuidv4()` (server.js:70). Its uniqueness is probabilistic, so it becomes the
  `freshId` parameter with a freshness precondition.
- JavaScript's dynamic typing of body values. `price` is an `int`, `inStock` a
  `bool`, and the rest are strings. Floating-point prices, `null`, and values of
  other types are not modelled. For example, `price: null` passes the create
  check in the source, since `null !== undefined`.
- Server.RouteOf: matches paths exactly. It does not model Express's
  case-insensitive matching, tolerance of a trailing slash, percent-decoding of
  `:id`, or its automatic OPTIONS answer. An OPTIONS request falls through to
  the gate and the default 404.
- Server.GuardedMutationsNeedToken: holds only because the model routes paths
  case-sensitively. Express routes `/API/products` to the same handlers, while
  the gate's `startsWith('/api')` is case-sensitive, so even with the gate first
  `POST /API/products` without a token would reach create.
- Object identity. Update mutates the stored object in place and returns it.
  The model replaces the record with the patched value and returns that value,
  which is the same observable result.

## Findings

| source | as written | input that shows it | evidently intended | confidence | as-written member | corrected member |
|---|---|---|---|---|---|---|
| server.js:64-136 | the authorization middleware is registered after every route, and a matched route answers without calling `next`, so POST, PUT and DELETE on `/api/products` never reach the gate | `POST /api/products` with no Authorization header and body `{name:"Desk", description:"Oak desk", price:300, category:"furniture", inStock:true}` on the seeded store: answered 201 and the record is stored | the gate runs before the routes, so a mutating `/api` request without `Bearer secrettoken` gets 401 and changes nothing; reordering alone does not cover case variants such as `POST /API/products`, which Express routes but the case-sensitive prefix test lets through | high, not executed | Server.UnauthenticatedCreateAccepted | Server.HandleGuarded |
