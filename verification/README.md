# Inventory bookkeeping of the store back office, in Dafny

This project models the bookkeeping rules of a small retail back office.
Purchase requests hold line items. Deliveries are recorded against those
items. Each delivered physical item becomes a product unit with a serial
number. The web framework, the database and all HTML rendering are gone.
What is left is pure functions over immutable records, and lemmas about them.

- `Wrappers` (`wrappers.dfy`): `Option`, `Result` and `Outcome`. The source's
  exceptions and error replies become these values.
- `Decimal` (`decimal.dfy`): decimal numerals as Python prints them (`str(n)`,
  `f"{n:06d}"`, `%d`). It also reads them back, with both round trips proved.
- `Requests` (`requests.dfy`): the three request statuses and their codes,
  dates, a request item's own validation, the price default on creation, and
  the derived cost, remaining quantity and `delivered/quantity` text.
- `Deliveries` (`deliveries.dfy`): the ledger, meaning requests and items by
  key plus the stored deliveries. It has delivery validation, status
  derivation, save and delete. `Reconciled` is the invariant: each item's
  counter is the sum of its deliveries, and its completion flag says whether
  that sum reaches the requested quantity.
- `Units` (`units.dfy`): the serial format `RF-<id>-<ddmmHHMMSS>-<micros>`. It
  comes with its parser, the length bound, the freshness check and the rule
  that `save` fills in only an empty serial.
- `DeliveryAdmin` (`delivery_admin.dfy`): the batch action that issues product
  units, the item choices on the delivery form, and the quantity and status
  columns.
- `RequestAdmin` (`request_admin.dfy`): the manual completion override, the
  progress badge, the per-request completion summary and the notes column.
- `RequestViews` (`request_views.dfy`): the filtered request list and the
  status-change endpoint.
- `TradingDayAdmin` (`trading_day_admin.dfy`): the description shortener. Both
  admins in that file use the same helper, so it is modelled once.
- `Text` (`text.dfy`): the `min` the two shortening columns share.

Modelling choices:

- Prices are integer cents.
- Dates are `Date(year, month, day)`, ordered year, then month, then day.
- The clock is a parameter. A serial takes one `ClockReading`. The batch
  takes `clock(delivery, k)`, the reading for the k-th unit of a delivery.
- A database `CHECK` keeps `delivered_quantity` non-negative. The model
  refuses a write that would make it negative and reports `CounterNegative`.
- A refused admin action leaves the ledger unchanged, because it runs in one
  transaction.

Facts about the code that the model keeps as they are:

- Serial generation does not retry. A colliding serial is an error.
- Extra shipments get no exemption from the remaining-quantity check.
- The "already fulfilled" check can never fire. `Deliveries.Clean` keeps the
  branch and proves it unreachable.
- The serial is built from the product id, the timestamp and the
  microseconds. No code or random part goes into it.

## Model

| member | source | states |
|---|---|---|
| `Requests.StatusFromCode` | store/request/models.py:8-11 | exactly the three codes candidate, in_request and extra read back as a status; each status has its own code |
| `Requests.StatusCodeRoundTrip` | store/request/models.py:8-14 | every status survives the trip through its code; there are exactly three codes; the default status is stored as "candidate" |
| `Requests.CleanItem` | store/request/models.py:36-41 | an item passes iff (it is new or its price is positive) and it asks for at least one unit; the price error is raised iff an existing item is priced at 0 or below |
| `Requests.PriceOnSave` | store/request/models.py:43-46 | a new item always ends up with a price; a missing price becomes 0; a given price, and any existing item's price, is kept |
| `Requests.TotalCost` | store/request/models.py:48-50 | the cost is 0 iff the price or the quantity is 0; a positive price costs at least one cent per unit; it is never negative for a non-negative price |
| `Requests.CleanItemHasPositiveCost` | store/request/models.py:36-50 | an existing item that passes validation costs at least its quantity in cents, and at least 1 |
| `Requests.RemainingQuantity` | store/request/models.py:56-58 | the remaining count is never negative and never more than the quantity; it is 0 iff delivered >= quantity; otherwise delivered + remaining = quantity |
| `Requests.ProgressRoundTrip` | store/request/models.py:52-54 | the "delivered/quantity" text reads back as exactly the two counters |
| `Deliveries.Clean` | store/delivery/models.py:47-71 | a delivery passes iff an item is chosen, it is dated after the request, it has at least 1 unit, it is an extra shipment only on an extra request, and its quantity fits the remaining units (with the edited delivery's stored quantity added back); a failure names the first check that fails, in that order (no item, date not after the request, no units, extra shipment not allowed, quantity over the remaining count, which it reports); the "already fulfilled" error is never raised |
| `Deliveries.DeriveStatus` | store/delivery/models.py:84-97 | status is Extra iff the shipment is extra; otherwise exactly one of Partial, Over and Full, by comparing this delivery's quantity with the item's requested quantity |
| `Deliveries.Stored` | store/delivery/models.py:76-97 | the stored delivery copies supplier, customer, product, price, request date and the extra-request flag from the item and request; it carries the derived status; non-empty notes are kept; an extra shipment with empty notes gets the note naming the request id and its ISO date, so it never ends up with empty notes |
| `Deliveries.Save` | store/delivery/models.py:73-110 | without an item the save fails; otherwise it succeeds iff the counter stays non-negative; the chosen item's counter becomes its old counter plus the new quantity minus the stored one, its completion flag becomes delivered >= quantity, and no other field of it changes; no other item and no request changes; the delivery is appended on create or replaced on edit |
| `Deliveries.Delete` | store/delivery/models.py:112-118 | the counter drops by the delivery's quantity; the flag is cleared when the counter falls below the quantity and is otherwise left alone; nothing else on the item and no other item changes; the delivery is removed |
| `Deliveries.SaveKeepsReconciled` | store/delivery/models.py:99-108 | a create, or an edit that stays on its item, keeps every counter equal to the sum of its deliveries and every flag equal to delivered >= quantity, and is never refused |
| `Deliveries.DeleteKeepsReconciled` | store/delivery/models.py:112-118 | a delete keeps the same invariant, and the model's delete is never refused under it |
| `Deliveries.CreateThenDeleteRestores` | store/delivery/models.py:99-118 | on a reconciled ledger, creating a delivery and then deleting it gives back the original ledger, counters and flags included |
| `Deliveries.ValidatedDeliveryIsNeverOver` | store/delivery/models.py:62-97 | under the invariant, a validated ordinary delivery (new, or edited on the same item) is Partial or Full, never Over |
| `Deliveries.RetargetedEditAsWritten` | store/delivery/models.py:62-104 | a concrete reconciled ledger where moving a delivery to another item passes validation, saves, is classified Over and leaves the ledger unreconciled |
| `Deliveries.CleanFixed` | store/delivery/models.py:62-71 | the corrected check adds back the stored quantity only for an edit on the same item; it agrees with `Clean` on every such edit; a failure names the first failing check, as for `Clean`; "already fulfilled" is never raised |
| `Deliveries.SaveFixed` | store/delivery/models.py:99-108 | the corrected save agrees with `Save` on creates and same-item edits; on a move it succeeds iff the old item's counter covers the stored quantity, the old item loses the stored quantity, the new item gains the new one, both flags are recomputed, no other field or item changes, and the delivery is written in place |
| `Deliveries.SaveFixedKeepsReconciled` | store/delivery/models.py:99-108 | the corrected save keeps the invariant for every edit, moves included |
| `Deliveries.ValidatedDeliveryIsNeverOverFixed` | store/delivery/models.py:62-97 | with the corrected check, no validated ordinary delivery is ever Over |
| `Deliveries.ReplayKeepsReconciled` | store/delivery/models.py:47-118 | after any sequence of admin actions run through `Deliveries.Apply` (the corrected validate-then-save, or a delete; a refused action changes nothing), every counter is the sum of its deliveries and every completion flag matches it |
| `Units.ParseSerialOfSerial` | store/unit/models.py:40-43 | parsing the serial of a saved product and a clock reading gives back that product id and reading |
| `Units.SerialOfParseSerial` | store/unit/models.py:40-43 | any string that parses is exactly the serial of what it parses to, so the format has one spelling per (product, reading) |
| `Units.SerialInjective` | store/unit/models.py:40-43 | distinct products or clock readings never give the same serial |
| `Units.SerialLength` | store/unit/models.py:11-16 | a serial has 21 characters plus the id's digits, and fits max_length 50 iff the id is below 10^29 |
| `Units.GenerateSerialNumber` | store/unit/models.py:34-48 | a missing or unsaved product gives an error and no serial; a candidate already stored gives an error and no retry; a returned serial is never among the stored ones and is the serial of (product id, reading) |
| `Units.GeneratedSerialParses` | store/unit/models.py:34-48 | a returned serial parses back to exactly the product id and the clock reading, and no other saved product or reading produces it |
| `Units.SerialOnSave` | store/unit/models.py:50-53 | a non-empty serial is kept; an empty one is replaced by a fresh, non-empty generated serial or fails as generation does |
| `DeliveryAdmin.GenerateSerials` | store/delivery/admin.py:90-98 | the per-unit loop succeeds iff every unit's generation succeeds; it yields one serial per unit, each the one generated for that unit; a failure is the failure of some unit |
| `DeliveryAdmin.GeneratedSerialsAreFresh` | store/delivery/admin.py:92-95 | every serial generated for a delivery is absent from the stored serials |
| `DeliveryAdmin.Process` | store/delivery/admin.py:79-102 | one delivery is NoProduct iff it has no product and is skipped iff it has a product and already has units; with a product and no units it is created iff all its serials generate, and otherwise it is the serial failure and nothing is added; if created, it gains exactly the units built from the generated serials, so it gains exactly its quantity of units, each with its product and a serial not stored before; no other delivery's count changes |
| `DeliveryAdmin.Batch` | store/delivery/admin.py:70-111 | one outcome per selected delivery; stored units are only appended to; units created = units added = the sum over created deliveries; the skipped count equals the number of skipped deliveries; the error list has one entry per failed delivery, and an error is in it iff some selected delivery failed with it: "missing product" naming a delivery without a product, or "serials failed" naming a delivery and its serial error |
| `DeliveryAdmin.BatchClassification` | store/delivery/admin.py:79-102 | each selected delivery's outcome: NoProduct iff it has no product, skipped iff it already had units before the run; with a product and no units, created iff every serial attempt succeeds against the serials held when it is processed (the product is saved and the serial is not held), and a serial failure is the failure of one such attempt; a created delivery gains exactly its quantity of units, and any other gains none |
| `DeliveryAdmin.BatchNewUnits` | store/delivery/admin.py:90-102 | every added unit (each index past the stored ones) belongs to a created delivery of the selection, carries that delivery's product, and has a serial the database did not hold before |
| `DeliveryAdmin.SecondRunIsNoOp` | store/delivery/admin.py:86-88 | if the first run had no serial failure, a second run over the same selection adds no units, reports 0 created and skips every delivery the first run gave units to |
| `DeliveryAdmin.OfferedItems` | store/delivery/admin.py:180-185 | the form offers exactly the items whose request is in_request or extra and whose delivered < quantity |
| `DeliveryAdmin.OfferedMeansDeliverable` | store/delivery/admin.py:180-184 | on a reconciled ledger, for an item of an in_request or extra request, the form offers it iff a new one-unit delivery dated after the request passes validation; an offered item is not completed and still has units to come |
| `DeliveryAdmin.QuantityDisplay` | store/delivery/admin.py:151-159 | with an item, the cell shows both quantities and is green iff they are equal and orange otherwise; without an item it shows the quantity alone |
| `DeliveryAdmin.StatusDisplay` | store/delivery/admin.py:161-168 | a delivery without a status shows the notice and no tint; Partial shows orange, Over blue, Full green and Extra purple |
| `DeliveryAdmin.StatusTintsDistinct` | store/delivery/admin.py:163-166 | distinct statuses show in distinct tints |
| `DeliveryAdmin.QuantityGreenIffStatusFull` | store/delivery/admin.py:151-166 | for an ordinary delivery saved by the model, the quantity column is green iff the status column is green iff the status is Full |
| `RequestAdmin.SaveModel` | store/request/admin.py:177-184 | if the completion flag is not among the changed fields, nothing changes; switched on, delivered becomes the quantity; switched off, delivered becomes 0; no other field changes |
| `RequestAdmin.OverrideAgreesWithFlag` | store/request/admin.py:179-183 | after the override, the flag is set iff delivered >= quantity, for any item asking for at least one unit |
| `RequestAdmin.ProgressBadge` | store/request/admin.py:152-168 | green iff completed, orange iff not completed with deliveries, gray iff not completed with none; the text is the item's "delivered/quantity" unless completed, and "quantity/quantity ✓" when completed |
| `RequestAdmin.BadgeShowsCounters` | store/request/admin.py:152-168 | when the flag matches the counter and the counter is at most the quantity, the badge text reads back as the item's own counters (plus the tick when completed) |
| `RequestAdmin.CompletionStatus` | store/request/admin.py:82-102 | "no items" iff there are none; "done" iff all items are completed; otherwise it shows c of t with c the completed count, t the item count and c < t |
| `RequestAdmin.NotesShort` | store/request/admin.py:106-107 | empty notes give ''; any other notes give their first min(50, len) characters plus '...', even when nothing was cut |
| `RequestAdmin.NotesShortVersusDescriptionShort` | store/request/admin.py:106-107 | the notes column equals the description column on empty text and text over 50 characters, and adds '...' on other text |
| `TradingDayAdmin.DescriptionShort` | store/trading_day/admin.py:27-28 | text of at most 50 characters is unchanged; longer text becomes exactly 53 characters ending in '...'; the output always starts with the input's first min(50, len) characters |
| `TradingDayAdmin.DescriptionShortIdempotent` | store/trading_day/admin.py:66-67 | shortening an already shortened description changes nothing |
| `RequestViews.RequestsView` | store/request/views.py:9-11 | the filter defaults to "candidate"; an item is listed iff its request's status code equals the filter; an unknown filter lists nothing |
| `RequestViews.ChangeStatus` | store/request/views.py:20-30 | a missing item is a 404; success iff the code is candidate, in_request or extra; on success the item's request takes that status and nothing else changes; on failure nothing changes |
| `RequestViews.ChangedItemIsListedUnderNewStatus` | store/request/views.py:20-30 | after a successful change, the item and every item of the same request is listed under the new status and under no other |

## Findings

| source | as written | input that shows it | evidently intended | confidence | as-written member | corrected member |
|---|---|---|---|---|---|---|
| store/delivery/models.py:62-71 | on an edit, the stored quantity is added back to the remaining units of the item now chosen, even when the delivery was stored against another item | item 10 (10 requested, 4 delivered by its one delivery of 4) and item 20 (2 requested, none delivered); the delivery is edited onto item 20, keeping 4 units | check a moved delivery against the new item's own remaining units, so 4 > 2 is refused | medium, not executed | `Deliveries.RetargetedEditAsWritten` | `Deliveries.CleanFixed` |
| store/delivery/models.py:99-108 | on an edit, only the item now chosen moves, by new minus stored quantity; the item the delivery was moved from keeps counting it | the same edit: item 10 keeps 4 delivered with no deliveries, item 20 shows 0 delivered while holding a delivery of 4 | take the stored quantity off the old item and add the new quantity to the new one | medium, not executed | `Deliveries.RetargetedEditAsWritten` | `Deliveries.SaveFixed` |

## Left out

- The ORM, transactions and row locks are left out. Operations are sequential
  transitions over an in-memory ledger. Concurrent saves are not modelled.
- A dangling foreign key is excluded by `Refs` and `WellFormed`. The database
  guarantees both.
- HTML, colours as markup, links, admin messages, the `:.2f` price text and
  the Russian message texts are left out. Only the branch taken is kept. The
  note an extra shipment gets is the exception: it is built from the request
  id and the ISO request date.
- The trading-day and sale models, the unit admin, the catalog and search
  views, URL routing and the JavaScript files are left out. Their one effect
  on the ledger is the delete refusal in the next line.
- `Deliveries.Delete`: a delivery whose units have been sold cannot be
  deleted, because a sale protects its unit and deleting a delivery cascades
  to its units; units are not part of the ledger, so the model's delete never
  refuses this case. The cascade also removes the delivery's units, and the
  batch model's unit list is not linked to the ledger's deliveries.
- The manual override is a separate transition (`RequestAdmin.SaveModel`). It
  is deliberately not among the commands of `Deliveries.ReplayKeepsReconciled`,
  because it sets the counter without looking at deliveries. Editing an item's
  requested quantity in the admin is also not among them: it changes neither
  the counter nor the flag, so it can break the flag's half of the invariant.
- The site-wide "delete selected" action stays on the delivery list, because
  `actions` adds to the site's actions. It deletes through the queryset and
  never runs `Delivery.delete`, so the item keeps counting the deleted units.
  It is not among the commands of `Deliveries.ReplayKeepsReconciled`.
- The request's item inline lets an operator type `delivered_quantity` and
  `is_completed` directly. Those edits save without the override and are not
  modelled; they can break both halves of `Deliveries.Reconciled`.
- The request item's own change form exposes every field too. Typing the
  counter there without touching the flag skips the override; this is not
  modelled either.
- Counters are unbounded naturals. The column is a database integer with an
  upper bound, and overflow past it is not modelled.
- `Deliveries.ReplayKeepsReconciled` is proved for the corrected check and save.
  The as-written pair keeps the invariant for creates and same-item edits
  (`Deliveries.SaveKeepsReconciled`), but not for moves (see Findings).
- `Deliveries.Save` does not run validation itself, as in the source.
  `Deliveries.Apply` runs validation then save, but with the corrected pair
  (`CleanFixed`, `SaveFixed`), not the code as written.
- `DeliveryAdmin.Batch` checks each serial against the units stored before
  that delivery. Two units of one delivery generated in the same microsecond
  would make `bulk_create` raise and abort the whole action. That depends on
  the database's unique constraint and is not modelled.
- `DeliveryAdmin.SecondRunIsNoOp` assumes the first run had no serial failure.
  A delivery whose serials collided in the first run can succeed in the second.
- `DeliveryAdmin.StatusDisplay`: the 'black' fallback for an unknown status
  code is not modelled, because the status type has only the four values.
- `Units.GenerateSerialNumber` takes the product's key as `Option<nat>`. `None`
  covers both a missing product and an unsaved one.
- `Units.GenerateSerialNumber` takes the two clock reads of the source (the
  stamp and the microseconds) as one `ClockReading`. The reading's fields may
  come from different instants.
- `RequestAdmin.OverrideAgreesWithFlag` requires quantity >= 1. With quantity 0
  and the flag switched off, the counter is 0 >= 0 while the flag is false.
- `RequestAdmin.CompletionStatus` takes the completion flags of the request's
  items rather than querying them. Its "c/t" text is not rendered.
- `RequestViews.ChangeStatus` takes the item key as a number. A missing or
  unknown key is a 404. A non-numeric key makes the item lookup raise a
  conversion error (a server error); that case is not modelled.
