# Inventory and concepts API handlers, modelled in Dafny

This project models the server side of two Next.js API routes of an
inventory application:

- `POST /api/inventory` registers one inventory item. It checks an admin
  secret, then validates `locationName` and `materialId`. It finds or creates
  the location by name. Then one transaction creates the item and, when the
  coerced initial quantity is positive, an "Alta inicial" movement.
- `GET /api/inventory` lists every item with its location and its latest
  movement.
- `POST /api/concepts` creates one priced concept. It runs the same admin
  check, then a presence check on `code`, `name` and `baseUnit`, then
  normalises the price.
- `GET /api/concepts` lists all concepts, newest first.

Each handler is a pure function from a request, an environment and a store
to a reply and the store after the call. Ids, timestamps and `Date.now()`
reach the model as parameters. So does the engine's string-to-number
conversion, and so does whether the store accepts the transaction.

Modules, one per file:

- `Js` (`js.dfy`): JSON values as the handlers see them, plus truthiness,
  `??` and `Number()` coercion.
- `Text` (`text.dfy`): `trim()`, the `/^Bearer\s+/i` prefix removal and the
  decimal rendering of `Date.now()`.
- `Http` (`http.dfy`): requests, replies with their status codes, and the
  environment.
- `AdminAuth` (`admin_auth.dfy`): the credential check both POST handlers
  duplicate.
- `InventoryStore` (`inventory_store.dfy`): the location, item and movement
  tables, find-or-create, the latest-movement query, the movement ledger,
  and referential integrity.
- `InventoryRoute` (`inventory_route.dfy`) and `InventoryLaws`
  (`inventory_laws.dfy`): the inventory handlers and their properties.
- `ConceptsRoute` (`concepts_route.dfy`) and `ConceptsLaws`
  (`concepts_laws.dfy`): the concepts handlers and their properties.

The routes never adjust an existing item: every accepted POST creates a new
one. They never refuse a negative quantity, which is stored as sent, while a
non-finite quantity is stored as 0. They have no material registry:
`materialId` is stored as the trimmed string the client sent. The inventory
listing comes in store order.

## Model

| member | source | states |
|---|---|---|
| Text.Trim | src/app/api/inventory/route.ts:33-34 | `trim()` gives a result with no whitespace at either end, no longer than the input, and empty exactly when the input is all whitespace |
| Text.TrimStartSplits | src/app/api/inventory/route.ts:33 | the leading-whitespace removal keeps a suffix, removes only whitespace, and stops at a non-whitespace character |
| Text.TrimEndSplits | src/app/api/inventory/route.ts:33 | the trailing-whitespace removal keeps a prefix, removes only whitespace, and stops at a non-whitespace character |
| Text.TrimOfPadded | src/app/api/inventory/route.ts:33-34 | a trimmed string surrounded by any whitespace trims back to itself |
| Text.TrimIsMiddle | src/app/api/inventory/route.ts:33-34 | every string is its trim with whitespace on both sides |
| Text.TrimIdempotent | src/app/api/inventory/route.ts:33-34 | trimming twice is trimming once |
| Text.StripBearerPrefix | src/app/api/inventory/route.ts:31 | without a case-insensitive "Bearer" plus whitespace at the start the header is kept whole; with one, the result is the rest after the whole whitespace run |
| Text.StripBearerOfToken | src/app/api/inventory/route.ts:31 | "Bearer" in any letter case, then non-empty whitespace, then a token leaves exactly the token |
| Text.Decimal | src/app/api/inventory/route.ts:95 | `${Date.now()}` is a non-empty string of digits without a leading zero |
| Text.DecimalRoundTrip | src/app/api/inventory/route.ts:95 | reading the rendered digits back gives the clock value |
| AdminAuth.PresentedCredential | src/app/api/inventory/route.ts:29-32 | the credential is `x-admin-secret` whenever that header is present; otherwise exactly the Authorization value with its case-insensitive "Bearer" and whitespace run removed, or as it stands without that prefix; otherwise "" |
| AdminAuth.Authorized | src/app/api/inventory/route.ts:29-37 | a request passes exactly when the server secret is set and not blank and the trimmed credential equals the trimmed secret |
| AdminAuth.BlankSecretDenies | src/app/api/inventory/route.ts:34-37 | an unset or blank `ADMIN_SECRET` refuses every request |
| AdminAuth.AcceptedCredentialNotBlank | src/app/api/inventory/route.ts:33-37 | an accepted credential is never blank |
| AdminAuth.AdminHeaderWins | src/app/api/inventory/route.ts:29-32 | a present `x-admin-secret`, even an empty one, alone decides and the Authorization header is ignored; the decision is then trimmed header equals trimmed non-blank secret |
| AdminAuth.PaddingIgnored | src/app/api/inventory/route.ts:33-36 | padding the server secret and the credential with any whitespace gives exactly the decision for the unpadded strings, acceptance and refusal alike |
| AdminAuth.PaddedTrim | src/app/api/inventory/route.ts:33-34 | whitespace added around any string leaves its trim unchanged |
| AdminAuth.BearerTokenAccepted | src/app/api/inventory/route.ts:29-37 | `Authorization: Bearer <secret>`, in any letter case and with any whitespace run, is accepted when `x-admin-secret` is absent |
| AdminAuth.BareAuthorizationComparedAsIs | src/app/api/inventory/route.ts:29-37 | without `x-admin-secret`, any Authorization value lacking the Bearer prefix is accepted exactly when its trim equals the non-blank trimmed server secret |
| InventoryStore.FindLocationByName | src/app/api/inventory/route.ts:80-82 | `findFirst` by name gives the first location with exactly that name, or none when no location has it |
| InventoryStore.ResolveLocation | src/app/api/inventory/route.ts:80-87 | an existing name is reused with no location added; otherwise exactly one location with that name and the new id is appended; either way the first location with the name is the one returned |
| InventoryStore.LocationById | src/app/api/inventory/route.ts:14 | the location included with an item has the item's `locationId`, and it is absent only when no location has that id |
| InventoryStore.LatestMovement | src/app/api/inventory/route.ts:15 | the movement shown is one of the item's own with the greatest `createdAt`, and none is shown only when the item has no movement |
| InventoryStore.DeltaTotalAppend | src/app/api/inventory/route.ts:131-141 | appending a movement changes only its own item's delta total, by exactly its delta |
| InventoryStore.DeltaTotalNoMovements | src/app/api/inventory/route.ts:129 | an item without movements has delta total 0 |
| InventoryStore.AddItemPreservesWellFormed | src/app/api/inventory/route.ts:107-141 | adding locations, one item at a stored location, and movements of that item keeps references intact |
| InventoryStore.AppendPreservesUniqueIds | src/app/api/inventory/route.ts:84-141 | appending at most one location, item and movement with unused ids keeps ids unique |
| InventoryRoute.TrimmedText | src/app/api/inventory/route.ts:67-68 | a non-string gives "", a string gives its trim; the result is non-empty exactly for a non-blank string |
| InventoryRoute.LocationNameOk | src/app/api/inventory/route.ts:59-64 | `locationName` passes exactly when it is truthy and a string |
| InventoryRoute.MaterialIdOk | src/app/api/inventory/route.ts:66-74 | `materialId` passes exactly when it is a string that is not all whitespace |
| InventoryRoute.QtyNumber | src/app/api/inventory/route.ts:76 | an absent or null `initialQty` is 0, a number stays, a string is parsed |
| InventoryRoute.MinNumber | src/app/api/inventory/route.ts:77 | an absent or null `minStock` is 0, a number stays, a string is parsed |
| InventoryRoute.FirstNonBlank | src/app/api/inventory/route.ts:92-105 | whenever the chain does not fall back, its result is a non-empty trimmed string |
| InventoryRoute.FirstNonBlankPicksFirst | src/app/api/inventory/route.ts:92-105 | the `a.trim() \|\| b.trim() \|\| fallback` chain yields the first non-blank string candidate, trimmed, or the fallback when there is none |
| InventoryRoute.FirstNonBlankTrimmed | src/app/api/inventory/route.ts:92-105 | with a non-empty trimmed fallback, the chain's result is non-empty and trimmed |
| InventoryRoute.ItemCode | src/app/api/inventory/route.ts:92-95 | the stored code is never empty and never has surrounding whitespace |
| InventoryRoute.ItemName | src/app/api/inventory/route.ts:97-100 | the stored name is never empty and never has surrounding whitespace |
| InventoryRoute.ItemUnit | src/app/api/inventory/route.ts:102-105 | the stored unit is never empty and never has surrounding whitespace |
| InventoryRoute.PhotoField | src/app/api/inventory/route.ts:118-120 | `photoUrl` is stored exactly when it is a non-blank string, and then trimmed |
| InventoryRoute.PriceField | src/app/api/inventory/route.ts:122-126 | `defaultUnitPrice` is stored exactly for a number or a non-blank string, as its numeric coercion |
| InventoryRoute.InitialMovement | src/app/api/inventory/route.ts:132-140 | the initial movement belongs to the new item, carries the coerced quantity as its delta, and is attributed "Alta inicial", "system", "inventory" |
| InventoryRoute.NewItem | src/app/api/inventory/route.ts:107-127 | the created row has the store's id, the trimmed `materialId`, the resolved location, code, name and unit exactly as the `ItemCode`, `ItemName` and `ItemUnit` fallback chains give them (non-empty and trimmed), `qty` the coerced quantity when finite and 0 otherwise, `minStock` present unless NaN, and the optional fields as above |
| InventoryRoute.Register | src/app/api/inventory/route.ts:79-146 | the location step happens and persists whether or not the transaction commits; a commit adds exactly the new item, at the located id, plus an "Alta inicial" movement exactly when the quantity is positive; a refused transaction adds no item or movement and answers 500 |
| InventoryRoute.Post | src/app/api/inventory/route.ts:26-146 | 401 exactly when the credential check fails; otherwise 400 "Faltan campos" exactly when `locationName` or `materialId` is invalid, with `locationName`'s detail taking precedence; rejections leave the store unchanged; every other request is registered |
| InventoryRoute.List | src/app/api/inventory/route.ts:10-18 | every item in store order, each with the location its id refers to and a latest movement, if it has any |
| InventoryLaws.CodeFallbackEncodesClock | src/app/api/inventory/route.ts:92-95 | without a usable `code` or `sku`, the code is "ITEM-" followed by digits that read back as `Date.now()` |
| InventoryLaws.FieldPrecedence | src/app/api/inventory/route.ts:92-105 | `code` beats `sku` beats the fallback; `name` beats `description` beats "Producto"; `unit` beats `baseUnit` beats "PZA" |
| InventoryLaws.LocationNameNotTrimmed | src/app/api/inventory/route.ts:59-86 | a location name is used exactly as sent, so a whitespace-only name creates a location with that name |
| InventoryLaws.FreshItemHasNoMovements | src/app/api/inventory/route.ts:129-134 | in a well-formed store, no movement refers to an item id not yet in use |
| InventoryLaws.NewItemLedger | src/app/api/inventory/route.ts:113-141 | the new item's `qty` equals the sum of its movement deltas exactly when the coerced quantity is neither +Infinity nor negative |
| InventoryLaws.CreatedIffAccepted | src/app/api/inventory/route.ts:36-146 | a POST answers 201 exactly when the credentials, `locationName` and `materialId` pass and the transaction commits; otherwise no item or movement is added |
| InventoryLaws.NonNegativeQuantityConsistent | src/app/api/inventory/route.ts:113-141 | a finite, non-negative `initialQty` yields a consistent ledger |
| InventoryLaws.InfiniteQuantityDiverges | src/app/api/inventory/route.ts:113-141 | +Infinity stores `qty` 0 next to a movement of +Infinity, so the ledger is inconsistent |
| InventoryLaws.NegativeQuantityDiverges | src/app/api/inventory/route.ts:113-141 | a negative quantity is stored with no movement, so the ledger is inconsistent |
| InventoryLaws.ExistingLedgersUnchanged | src/app/api/inventory/route.ts:129-141 | every existing item stays, and its movement total and ledger consistency are unchanged |
| InventoryLaws.RegisterPreservesWellFormed | src/app/api/inventory/route.ts:80-141 | registration keeps every item pointing at a stored location and every movement at a stored item |
| InventoryLaws.PostPreservesWellFormed | src/app/api/inventory/route.ts:26-146 | every POST outcome keeps referential integrity |
| InventoryLaws.RegisterPreservesUniqueIds | src/app/api/inventory/route.ts:80-141 | with unused ids, registration adds no duplicate id to any table |
| InventoryLaws.PostPreservesUniqueIds | src/app/api/inventory/route.ts:26-146 | every POST outcome keeps ids unique when the supplied ids are unused |
| InventoryLaws.TakenAfterRegister | src/app/api/inventory/route.ts:80-87 | after the location step the name is present |
| InventoryLaws.SecondPostReusesLocation | src/app/api/inventory/route.ts:80-87 | once a POST reaches the location step, a later POST with the same `locationName` adds no location, even if the first transaction failed |
| InventoryLaws.ListedLocationPresent | src/app/api/inventory/route.ts:13-14 | in a well-formed store the listing always finds each item's location |
| InventoryLaws.ListingAfterRegister | src/app/api/inventory/route.ts:131-141 | right after a registration, the new item's latest movement is "Alta inicial" for a positive quantity and absent otherwise |
| ConceptsRoute.FieldsPresent | src/app/api/concepts/route.ts:36 | the fields pass only when none of `code`, `name` and `baseUnit` is `undefined`, `null` or `''`; for string fields, exactly when all three are non-empty |
| ConceptsRoute.NormalizePrice | src/app/api/concepts/route.ts:41-46 | `undefined`, `null` and `''` become 0; a number stays; any other string, boolean or object becomes its `Number()` coercion |
| ConceptsRoute.Post | src/app/api/concepts/route.ts:13-58 | 401 exactly when the credential check fails; otherwise 400 "Missing fields" exactly when `code`, `name` or `baseUnit` is falsy; otherwise one concept with the fields as sent, the normalised price, and the store's id and time is appended and returned with 201; the store is unchanged on every rejection |
| ConceptsRoute.InsertByNewest | src/app/api/concepts/route.ts:8 | inserting into a newest-first list keeps it newest-first and adds exactly that concept |
| ConceptsRoute.SortByNewest | src/app/api/concepts/route.ts:6-10 | the listing is ordered by `createdAt` descending and is a permutation of the stored concepts |
| ConceptsLaws.CredentialsBeforeBody | src/app/api/concepts/route.ts:23-38 | an unauthorised request with missing fields gets 401, not 400, and any request with missing fields gets 401 or 400; the decision does not depend on the body; the store is untouched |
| ConceptsLaws.BlankFieldsAccepted | src/app/api/concepts/route.ts:36-38 | the fields are not trimmed, so whitespace-only `code`, `name` and `baseUnit` pass and are stored as sent |
| ConceptsLaws.PriceIsNumberElsewhere | src/app/api/concepts/route.ts:41-46 | the normalised price is `Number()` of the value except for `undefined`, which gives 0 instead of NaN, and `''` |
| ConceptsLaws.ExactlyOneCreated | src/app/api/concepts/route.ts:36-58 | a POST adds exactly one concept when authorised with all fields present and none otherwise, and existing concepts stay in place |
| ConceptsLaws.ListingShowsAll | src/app/api/concepts/route.ts:6-10 | the listing contains exactly the stored concepts, with the same count |
| ConceptsLaws.SortedListedUnchanged | src/app/api/concepts/route.ts:8 | a list already newest-first is listed as it stands |
| ConceptsLaws.ListingIdempotent | src/app/api/concepts/route.ts:8 | sorting the listing again changes nothing |
| ConceptsLaws.NewestCreatedListedFirst | src/app/api/concepts/route.ts:8-58 | a concept created later than every stored one heads the next listing |
| ConceptsLaws.SameCredentialDecision | src/app/api/concepts/route.ts:15-25 | for the same environment and headers, the inventory and concepts POSTs answer 401 alike, whatever the bodies and stores |

## Left out

- The pages and layout (`src/app/inventory/page.tsx`, `src/app/admin/concepts/page.tsx` and the others): rendering, local storage and `fetch` are presentation and I/O. The inventory form sends no `materialId`, so the handler as written rejects every authorised submission from that form with 400; one without the right secret gets 401 first. The model follows the handler and does not model the form.
- The persistence engine: tables are sequences, and ids, `createdAt` and `Date.now()` are parameters. The transaction is one all-or-nothing step. Whether the store accepts it is a parameter, and a refusal is a 500 that keeps only the location step.
- Column types and enums: the store's check that `baseUnit` belongs to a unit list, or that `code` is a string, is not modelled; the handlers pass the values through.
- `Number()` on strings: the conversion is the parameter `parseNumber`. Finite JavaScript numbers are `real`s, with no rounding to double precision, and NaN and the infinities are separate constructors.
- `trim()` and `\s` use the fixed ECMAScript WhiteSpace and LineTerminator code points. The `i` flag folds ASCII letters only. Strings are sequences of code points, not UTF-16 units.
- Text.Decimal: renders `Date.now()` as plain digits, which JavaScript does for every integer below 10^21; larger values, which JavaScript writes in exponent form, are not modelled.
- The 500 reply's payload (`message`, `code`, `meta`), the logging, and unhandled store errors in the concepts route are runtime plumbing and are not modelled. So are a body that is not JSON and failures of the GET queries.
- Other 500 paths of the inventory POST: a failure of the location lookup or creation, and a JSON `null` body, whose destructuring throws. Both end in the same catch-all reply and leave the store as it was; the model has no input for either.
- ConceptsRoute.Post: a JSON `null` body also throws in the concepts POST, at the destructuring of src/app/api/concepts/route.ts:29, and so does a failing `create`; that handler has no try/catch, so either ends in an unhandled 500 with the store as it was. The model has no input for these, which is why its contract can promise that no reply is a 500.
- Concurrency: the race between two find-then-create steps on the same location name, and store unique constraints, are not sequential behaviour.
- InventoryRoute.List and ConceptsRoute.SortByNewest: the store does not specify an order among movements, or among concepts, with equal `createdAt`; the model picks the first in store order, respectively keeps store order, and proves only the promised ordering.
- The `{ ok: true, item }` wrapper and the JSON encoding of replies: a reply carries the created record and the status.
