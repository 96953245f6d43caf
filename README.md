# E-commerce admin: checkout fulfilment webhook and store creation

A Dafny model of the two server-side handlers of the e-commerce admin
dashboard that hold real logic:

- **`POST /api/webhook`** (`app/api/webhook/route.ts`) handles the payment
  provider's callback. It derives one address string from the checkout
  session's six optional address fields. These are kept in the fixed order
  line1, line2, city, state, postal code, country. The `null` ones are
  dropped and the rest are joined with `", "`. On a
  `checkout.session.completed` event the handler marks the order named in
  the session metadata as paid, records the address and phone, and sets
  `isArchived` on every product the order's items reference.
- **`POST /api/stores`** (`app/api/stores/route.ts`) creates a store. It
  parses the body, answers 401 without a caller and 400 without a truthy
  `name`, then inserts one store owned by the caller. Anything thrown
  becomes 500.

Files:

- `js.dfy` (module `Js`) holds the JavaScript semantics the handlers depend
  on: `Option`, `JsOpt` (a value, `null` or `undefined`), parsed JSON,
  truthiness and `|| ''`.
- `db.dfy` (module `Db`) holds the rows (`Store`, `Order`, `OrderItem`,
  `Product`) and the class `Database`. Its `stores`, `orders` and `products`
  fields are in-memory tables. Its methods are the three writes the
  handlers issue:
  - `CreateStore` inserts one store.
  - `UpdateOrderPaid` is the order update. It yields `None` where the
    database throws on an unknown id.
  - `ArchiveProducts` is the bulk `isArchived` update. It walks the id list
    in a loop and is proved equal to the function `Archived`.
- `webhook.dfy` (module `Webhook`) holds the address derivation as
  functions. `HandleEvent` is the whole delivery as a function on the two
  tables. `Handle` is the imperative handler, proved to change the
  `Database` exactly as `HandleEvent` says.
- `stores.dfy` (module `StoresRoute`) holds the validation cascade as the
  function `Decide`. `Post` is the handler, which inserts through
  `Database.CreateStore`.

Points where JavaScript semantics decide the outcome, all modelled:

- The address filter is `c !== null`. A component that is `undefined`
  survives it, and `join` renders it as `""`. This happens to all six
  components when the session has no address object, so that address
  becomes `", , , , , "`. Only `null` is skipped: `undefined` components
  are kept and render as `""`.
- The phone is `phone || ''`, so `null`, `undefined` and `""` all give `""`.
- Suppose the session has no `metadata.orderId`, or it names no order. Then
  the database throws on the order update. Nothing catches the exception,
  so the response is 500, nothing is written and no product is archived.
  The handler does not answer 200 in that case.
- In the store route, `request.json()` runs before the caller check. A body
  that is not JSON, or is the JSON value `null` (destructuring throws),
  therefore gives 500 even without a caller.
- A name that is truthy but not a string (a number, `true`, an array, an
  object) passes the `!name` check. The insert then throws because the
  column is a string, so the response is 500.

## Model

| member | source | states |
|---|---|---|
| `Webhook.AddressOf` | app/api/webhook/route.ts:31 | `session?.customer_details?.address`: `undefined` when the customer details are missing, otherwise the address field as it is. No contract of its own: `AddressComponents` and the address lemmas state what it leads to. |
| `Webhook.Component` | app/api/webhook/route.ts:33-38 | One optional-chained address field, `undefined` when the address is `null` or missing. No contract of its own: the contract of `AddressComponents` states all six. |
| `Webhook.AddressComponents` | app/api/webhook/route.ts:31-39 | The six components are line1, line2, city, state, postal code and country in that order. When the address object is absent, every one is `undefined`. |
| `Webhook.WithoutNull` | app/api/webhook/route.ts:40 | The filter removes exactly the `null` components: the result's multiset is the input's with all `null`s taken out. `undefined` and empty strings are kept. |
| `Webhook.Render` | app/api/webhook/route.ts:40 | How `join` renders one element: a string as itself, and `null` or `undefined` as `""`. No contract of its own: `SplitJoin` and `AbsentAddressFields` state its effect. |
| `Webhook.Join` | app/api/webhook/route.ts:40 | `join(', ')`. No contract of its own: `SplitJoin` proves it inverse to splitting at the separator, and `AllComponentsPresent`, `NullLineTwoSkipped` and `AbsentAddressFields` give its result on six and five components. |
| `Webhook.AddressString` | app/api/webhook/route.ts:31-40 | The address derivation: the components, without `null`, joined by `", "`. No contract of its own: `AddressRoundTrip` shows the string determines exactly the kept components, in order. `AbsentAddress`, `AllComponentsPresent` and `NullLineTwoSkipped` give its value in the three shapes of address. |
| `Webhook.WithoutNullAppend` | app/api/webhook/route.ts:40 | Filtering distributes over concatenation, so the kept components stay in their original order. |
| `Webhook.WithoutNullKeepsAll` | app/api/webhook/route.ts:40 | A component list without `null` passes the filter unchanged. |
| `Webhook.SplitJoin` | app/api/webhook/route.ts:40 | Splitting a `", "`-join at `", "` gives back each element's rendering, in order, when no element contains a comma. |
| `Webhook.AddressRoundTrip` | app/api/webhook/route.ts:31-40 | Suppose at least one component is kept and none contains a comma. Splitting the address string at `", "` then recovers exactly the non-`null` components, in their fixed order. |
| `Webhook.AllComponentsPresent` | app/api/webhook/route.ts:32-40 | With all six components present, the address is line1, line2, city, state, postal code and country separated by `", "`, empty strings included. |
| `Webhook.AbsentAddressFields` | app/api/webhook/route.ts:31-40 | Without an address object, no component is filtered out, and the address is six empty fields joined by five `", "` separators. |
| `Webhook.AbsentAddress` | app/api/webhook/route.ts:31-40 | Without an address object, the recorded address is the string `", , , , , "`, not `""`. |
| `Webhook.NullLineTwoSkipped` | app/api/webhook/route.ts:32-40 | A `null` line2 leaves no empty field: the address is line1, city, state, postal code and country separated by `", "`. |
| `Webhook.NullComponentExample` | app/api/webhook/route.ts:32-40 | `["12 Main St", null, "Springfield", "IL", "62704", "US"]` gives `12 Main St, Springfield, IL, 62704, US`. |
| `Webhook.EmptyComponentExample` | app/api/webhook/route.ts:32-40 | An empty-string line2 is kept and gives two adjacent separators: `12 Main St, , Springfield, IL, 62704, US`. |
| `Webhook.PhoneOf` | app/api/webhook/route.ts:54 | The recorded phone is non-empty exactly when the customer details carry a non-empty phone, and then it is that phone. Otherwise it is `""`. |
| `Webhook.OrderIdOf` | app/api/webhook/route.ts:49 | The order id is present exactly when the session metadata exists and has an `orderId` key, and then it is that value. |
| `Webhook.HandleEvent` | app/api/webhook/route.ts:17-75 | A rejected signature gives 400 and leaves both tables unchanged. Any other event type gives 200 and leaves them unchanged. The status is 500 exactly for a completed event whose order id is missing or unknown. Every non-200 outcome leaves the tables unchanged, and no delivery adds or removes rows. |
| `Webhook.Fulfil` | app/api/webhook/route.ts:47-72 | The fulfilment writes give 200 when the order id names an order and 500 otherwise. No row is added or removed, and an unknown id leaves both tables unchanged. |
| `Webhook.FulfilPaysOrder` | app/api/webhook/route.ts:47-59 | For an existing order, that order gets `isPaid`, the given address and the given phone, and keeps its items and store. Every other order is unchanged. |
| `Webhook.FulfilArchivesItsProducts` | app/api/webhook/route.ts:61-72 | A product is archived afterwards exactly when it was archived before or the order's items reference it. Only `isArchived` changes, and products the order does not reference are unchanged. |
| `Webhook.CompletedEventFulfils` | app/api/webhook/route.ts:46-59 | A completed event naming an existing order answers 200 and performs the fulfilment writes with the address string and phone derived from that session. |
| `Webhook.EmptyOrderArchivesNothing` | app/api/webhook/route.ts:62-72 | Fulfilling an order without items leaves the product table unchanged. |
| `Webhook.ArchivedTwice` | app/api/webhook/route.ts:63-72 | Archiving the same ids a second time changes nothing. |
| `Webhook.FulfilTwice` | app/api/webhook/route.ts:47-72 | Fulfilling the same order with the same address and phone a second time leaves both tables as the first fulfilment left them. |
| `Webhook.RedeliveryIsIdempotent` | app/api/webhook/route.ts:46-73 | Delivering the same event twice leaves the orders and products exactly as one delivery does. |
| `Webhook.FlagsOnlyRise` | app/api/webhook/route.ts:46-73 | No delivery clears an order's `isPaid` or a product's `isArchived`. |
| `Webhook.FulfilOrder` | app/api/webhook/route.ts:47-72 | The order update followed by the product bulk update over the updated order's item ids. It returns the status of `Fulfil`, and the orders and products tables become those `Fulfil` computes. |
| `Webhook.Handle` | app/api/webhook/route.ts:8-76 | The handler returns the status of `HandleEvent` and leaves the orders and products tables as `HandleEvent` computes them. |
| `Db.Archived` | app/api/webhook/route.ts:63-72 | The product table after the `isArchived` bulk update over an id list. No contract of its own: `FulfilArchivesItsProducts` states which products change and how, `ArchivedTwice` states it is idempotent, and `Db.Database.ArchiveProducts` is proved equal to it. |
| `Db.ProductIds` | app/api/webhook/route.ts:62 | The id list has one entry per order item: the product id of that item, in item order. |
| `Db.Database.UpdateOrderPaid` | app/api/webhook/route.ts:47-59 | An unknown id yields `None` and changes nothing. A known id replaces exactly that order by a copy with `isPaid`, the address and the phone set, and returns it with its items. |
| `Db.Database.ArchiveProducts` | app/api/webhook/route.ts:63-72 | Afterwards the product table is `Archived(old table, ids)`: every existing product whose id is listed gets `isArchived`. Other products are untouched, unknown ids are ignored and duplicates are harmless. |
| `Db.Database.CreateStore` | app/api/stores/route.ts:16-21 | Adds exactly one store, under an id not used before, with the given name and owner. Existing stores are unchanged. |
| `Js.Truthy` | app/api/stores/route.ts:14 | JavaScript truthiness, as tested by `!name`: `undefined`, `null`, `false`, `0` and `""` are falsy. No contract of its own: the 400 clause of `StoresRoute.Decide` states its use. |
| `Js.OrEmpty` | app/api/webhook/route.ts:54 | `x \|\| ''` on an optional string: the result is non-empty exactly when `x` is a non-empty string, and then it is `x`. |
| `StoresRoute.Destructurable` | app/api/stores/route.ts:11 | `const { name } = await request.json()` succeeds: the body parsed, and not to `null`. No contract of its own: the 500 clause of `StoresRoute.Decide` states what happens otherwise. |
| `StoresRoute.Authenticated` | app/api/stores/route.ts:13 | `!userId` is false: there is a caller, with a non-empty id. No contract of its own: the 401 clause of `StoresRoute.Decide` states what happens otherwise. |
| `StoresRoute.NameOf` | app/api/stores/route.ts:11 | `name` is defined exactly when the body is an object with a `name` key, and then it is that value. |
| `StoresRoute.Decide` | app/api/stores/route.ts:9-28 | A body that does not parse, or parses to `null`, gives 500. Otherwise a missing caller gives 401, and then a falsy name gives 400. A truthy name that is not a string gives 500, which is the insert throwing into the catch. An insert is decided exactly when all checks pass and the name is a non-empty string, and it carries that name and the caller's id. Every other result is 400, 401 or 500. |
| `StoresRoute.CallerCheckedBeforeName` | app/api/stores/route.ts:13-14 | With neither a caller nor a truthy name, the response is 401, not 400. |
| `StoresRoute.MalformedBodyBeforeCaller` | app/api/stores/route.ts:10-13 | A body that does not parse gives 500 even without a caller. |
| `StoresRoute.Post` | app/api/stores/route.ts:8-29 | A store is created exactly when `Decide` says insert and the insert does not throw. The new store has the decided name and owner and a fresh id, and all existing stores are unchanged. On every failure the status is the decided one, or 500 for a failed insert, and the store table is unchanged. |

## Left out

- The payment provider's signature cryptography (`constructEvent`) is an oracle. `Handle` receives `None` when verification threw and the event otherwise. Reading the raw body and the signature header is not modelled.
- The identity provider is the parameter `caller`. A failure of `auth()` itself, such as a misconfigured middleware, is not modelled.
- Database failures other than an unknown order id are not modelled for the webhook. One example is an outage between the order update and the product update, which would leave the order paid and its products unarchived. For the store insert, a failure is the oracle parameter `insertFails`.
- `Db.Database.CreateStore`: ids come from a counter in the table instead of the database's generated UUIDs. Only freshness is relied on.
- Creation and update timestamps are not modelled. Neither are the product and order columns the handlers never read or write (product name, price, `isFeatured`, category, size, colour, images). The one exception is each order's and product's store reference: the handlers never write it, and the model keeps it so that the lemmas can state it is preserved.
- Each product update is one SQL statement in the database. `Db.Database.ArchiveProducts` models it as a loop over the ids, and concurrent requests are not modelled.
- `console.log`, response body texts and the JSON encoding of the returned store are not modelled. Only statuses, the returned store and table effects are.
- StoresRoute.Decide: JSON numbers are exact reals, so the rounding of `JSON.parse` is not modelled. Overflow to ±Infinity is not modelled. Neither is underflow to `0`: a `name` such as `1e-400` parses to `0` and is falsy, so the route answers 400 when a caller is present. In the model the number is a nonzero real, so it is truthy and not a string, and `Decide` answers 500.
- The per-entity create, update and delete routes and their ownership checks, the dashboard pages, the store switcher, the layout and the `useOrigin` hook are not part of this model.
