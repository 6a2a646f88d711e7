/** Deliveries against request items (store/delivery/models.py).

    The database is a `Ledger`: requests and items keyed by primary key, and
    the stored deliveries in a sequence. Saving a delivery validates nothing
    by itself (the admin form runs `Clean` first), copies a snapshot of the
    item, derives the delivery's status and moves the item's
    `delivered` counter by the change in quantity; deleting moves it back.
    The invariant all of this is meant to keep is `Reconciled`: every item's
    counter is the sum of its deliveries, and its completion flag says
    whether that sum reaches the requested quantity. */
module Deliveries {
  import opened Wrappers
  import opened Decimal
  import opened Requests

  /** Delivery.Status: how one shipment compares with the requested
      quantity, or Extra for an extra shipment. */
  datatype DeliveryStatus = Partial | Over | Full | Extra

  /** What the operator enters: the chosen item (if any), the date, the
      quantity, the extra-shipment flag and free notes. */
  datatype DeliveryForm = DeliveryForm(
    item: Option<nat>,
    date: Date,
    quantity: nat,
    extraShipment: bool,
    notes: string)

  /** The item and request fields copied onto a delivery when it is saved. */
  datatype Snapshot = Snapshot(
    supplier: string,
    customer: string,
    product: nat,
    requestDate: Date,
    extraRequest: bool,
    price: int)

  /** A stored delivery. */
  datatype Delivery = Delivery(
    item: nat,
    date: Date,
    quantity: nat,
    extraShipment: bool,
    notes: string,
    status: DeliveryStatus,
    snapshot: Snapshot)

  datatype Ledger = Ledger(
    requests: map<nat, Request>,
    items: map<nat, RequestItem>,
    deliveries: seq<Delivery>)

  /** Every foreign key points at a stored row. */
  predicate WellFormed(L: Ledger) {
    && (forall id :: id in L.items ==> L.items[id].request in L.requests)
    && (forall i :: 0 <= i < |L.deliveries| ==> L.deliveries[i].item in L.items)
  }

  /** The references a save or clean follows exist: the chosen item and, on
      an edit, the stored delivery being edited (`target`). */
  predicate Refs(L: Ledger, f: DeliveryForm, target: Option<nat>) {
    && WellFormed(L)
    && (f.item.Some? ==> f.item.value in L.items)
    && (target.Some? ==> target.value < |L.deliveries|)
  }

  /** An edit that keeps the delivery on the item it was stored against. */
  predicate SameItemEdit(L: Ledger, f: DeliveryForm, target: Option<nat>)
    requires target.Some? ==> target.value < |L.deliveries|
  {
    target.Some? ==> f.item == Some(L.deliveries[target.value].item)
  }

  /** Quantity stored for the delivery being edited; 0 for a new one. */
  function OldQuantity(L: Ledger, target: Option<nat>): nat
    requires target.Some? ==> target.value < |L.deliveries|
  {
    if target.Some? then L.deliveries[target.value].quantity else 0
  }

  // ---------------------------------------------------------------------
  // Sums of delivered quantities

  /** What one delivery contributes to item `id`. */
  function Share(d: Delivery, id: nat): nat {
    if d.item == id then d.quantity else 0
  }

  /** The total quantity of the deliveries in `ds` made against item `id`. */
  function Delivered(ds: seq<Delivery>, id: nat): nat {
    if ds == [] then 0 else Share(ds[0], id) + Delivered(ds[1..], id)
  }

  lemma {:induction false} DeliveredConcat(a: seq<Delivery>, b: seq<Delivery>, id: nat)
    ensures Delivered(a + b, id) == Delivered(a, id) + Delivered(b, id)
  {
    if a == [] {
      assert a + b == b;
    } else {
      assert (a + b)[1..] == a[1..] + b;
      DeliveredConcat(a[1..], b, id);
    }
  }

  /** Appending a delivery adds its share. */
  lemma DeliveredAppend(ds: seq<Delivery>, d: Delivery, id: nat)
    ensures Delivered(ds + [d], id) == Delivered(ds, id) + Share(d, id)
  {
    DeliveredConcat(ds, [d], id);
    assert Delivered([d], id) == Share(d, id) + Delivered([], id);
  }

  /** Splitting a sequence at `k` isolates the share of `ds[k]`. */
  lemma DeliveredSplit(ds: seq<Delivery>, k: nat, id: nat)
    requires k < |ds|
    ensures Delivered(ds, id) == Delivered(ds[..k], id) + Share(ds[k], id) + Delivered(ds[k + 1..], id)
  {
    assert ds == ds[..k] + ([ds[k]] + ds[k + 1..]);
    DeliveredConcat(ds[..k], [ds[k]] + ds[k + 1..], id);
    DeliveredConcat([ds[k]], ds[k + 1..], id);
    assert Delivered([ds[k]], id) == Share(ds[k], id) + Delivered([], id);
  }

  /** Replacing the delivery at `k` swaps its share for the new one's. */
  lemma DeliveredUpdate(ds: seq<Delivery>, k: nat, d: Delivery, id: nat)
    requires k < |ds|
    ensures Delivered(ds[k := d], id) + Share(ds[k], id) == Delivered(ds, id) + Share(d, id)
  {
    var ds' := ds[k := d];
    DeliveredSplit(ds, k, id);
    DeliveredSplit(ds', k, id);
    assert ds'[..k] == ds[..k];
    assert ds'[k + 1..] == ds[k + 1..];
  }

  function RemoveAt(ds: seq<Delivery>, k: nat): (r: seq<Delivery>)
    requires k < |ds|
    ensures |r| == |ds| - 1
    ensures forall i :: 0 <= i < k ==> r[i] == ds[i]
    ensures forall i :: k <= i < |r| ==> r[i] == ds[i + 1]
  {
    ds[..k] + ds[k + 1..]
  }

  /** Removing the delivery at `k` subtracts its share. */
  lemma DeliveredRemove(ds: seq<Delivery>, k: nat, id: nat)
    requires k < |ds|
    ensures Delivered(RemoveAt(ds, k), id) + Share(ds[k], id) == Delivered(ds, id)
  {
    DeliveredSplit(ds, k, id);
    DeliveredConcat(ds[..k], ds[k + 1..], id);
  }

  // ---------------------------------------------------------------------
  // The invariant

  /** Each item's counter is the sum of its deliveries and its completion
      flag says whether that sum reaches the requested quantity. */
  predicate Reconciled(L: Ledger) {
    && WellFormed(L)
    && (forall id :: id in L.items ==> L.items[id].delivered == Delivered(L.deliveries, id))
    && (forall id :: id in L.items ==>
          (L.items[id].isCompleted <==> L.items[id].delivered >= L.items[id].quantity))
  }

  // ---------------------------------------------------------------------
  // Validation

  datatype DeliveryError =
    | NoItem
    | DateNotAfterRequest
    | NoUnits
    | ExtraNotAllowed
    | ExceedsRemaining(remaining: int)
    | AlreadyFulfilled
    | CounterNegative

  /** The units the item can still take, once `counted` units of the
      delivery being edited have been added back. */
  function Remaining(L: Ledger, f: DeliveryForm, counted: nat): int
    requires Refs(L, f, None) && f.item.Some?
  {
    var item := L.items[f.item.value];
    item.quantity - item.delivered + counted
  }

  /** The checks of Delivery.clean, leaving out which one fails first. */
  predicate Admissible(L: Ledger, f: DeliveryForm, remaining: int)
    requires Refs(L, f, None) && f.item.Some?
  {
    var item := L.items[f.item.value];
    var req := L.requests[item.request];
    && Before(req.createdOn, f.date)
    && f.quantity >= 1
    && (f.extraShipment ==> req.status == RequestStatus.Extra)
    && f.quantity <= remaining
  }

  /** Which error a failed validation raises: the first failing check, in
      the order item, date, units, extra shipment, remaining quantity; the
      quantity error carries the remaining count it was checked against. */
  predicate FirstFailure(L: Ledger, f: DeliveryForm, counted: nat, r: Outcome<DeliveryError>)
    requires Refs(L, f, None)
  {
    && (r == Fail(NoItem) <==> f.item.None?)
    && (f.item.Some? ==>
        var req := L.requests[L.items[f.item.value].request];
        && (r == Fail(DateNotAfterRequest) <==> !Before(req.createdOn, f.date))
        && (r == Fail(NoUnits) <==> (Before(req.createdOn, f.date) && f.quantity < 1))
        && (r == Fail(ExtraNotAllowed) <==>
            (Before(req.createdOn, f.date) && f.quantity >= 1
             && f.extraShipment && req.status != RequestStatus.Extra))
        && ((r.Fail? && r.error.ExceedsRemaining?) <==>
            (Before(req.createdOn, f.date) && f.quantity >= 1
             && (f.extraShipment ==> req.status == RequestStatus.Extra)
             && f.quantity > Remaining(L, f, counted)))
        && (r.Fail? && r.error.ExceedsRemaining? ==> r.error.remaining == Remaining(L, f, counted)))
  }

  /** The body of Delivery.clean with the added-back quantity given. */
  function CleanAgainst(L: Ledger, f: DeliveryForm, counted: nat): (r: Outcome<DeliveryError>)
    requires Refs(L, f, None)
    ensures r != Fail(AlreadyFulfilled)
    ensures r.Pass? <==> f.item.Some? && Admissible(L, f, Remaining(L, f, counted))
    ensures FirstFailure(L, f, counted, r)
  {
    if f.item.None? then Fail(NoItem)
    else
      var item := L.items[f.item.value];
      var req := L.requests[item.request];
      if !Before(req.createdOn, f.date) then Fail(DateNotAfterRequest)
      else if f.quantity < 1 then Fail(NoUnits)
      else if f.extraShipment && req.status != RequestStatus.Extra then Fail(ExtraNotAllowed)
      else
        var remaining := Remaining(L, f, counted);
        if f.quantity > remaining then Fail(ExceedsRemaining(remaining))
        else if remaining <= 0 then Fail(AlreadyFulfilled)
        else Pass
  }

  /** Delivery.clean, as written: an item must be chosen; the delivery must
      be dated after the request's creation date; at least one unit; an
      extra shipment only on an extra request; no more than the remaining
      units, extra shipments included, where an edit adds back the stored
      quantity of the delivery being edited whichever item it was made
      against; and the "already fulfilled" check, which can never fire
      because the quantity check before it already caught it. */
  function Clean(L: Ledger, f: DeliveryForm, target: Option<nat>): (r: Outcome<DeliveryError>)
    requires Refs(L, f, target)
    ensures r != Fail(AlreadyFulfilled)
    ensures r.Pass? <==> f.item.Some? && Admissible(L, f, Remaining(L, f, OldQuantity(L, target)))
    ensures FirstFailure(L, f, OldQuantity(L, target), r)
  {
    CleanAgainst(L, f, OldQuantity(L, target))
  }

  // ---------------------------------------------------------------------
  // Saving and deleting

  /** Status derivation: an extra shipment is Extra; any other delivery is
      compared, on its own, with the item's requested quantity. */
  function DeriveStatus(extraShipment: bool, quantity: nat, requested: nat): (s: DeliveryStatus)
    ensures s == DeliveryStatus.Extra <==> extraShipment
    ensures !extraShipment ==> (s == Partial <==> quantity < requested)
    ensures !extraShipment ==> (s == Over <==> quantity > requested)
    ensures !extraShipment ==> (s == Full <==> quantity == requested)
  {
    if extraShipment then DeliveryStatus.Extra
    else if quantity < requested then Partial
    else if quantity > requested then Over
    else Full
  }

  /** The fixed words around the request id in an extra shipment's note. */
  const ExtraNotePrefix: string := "Экстра поставка на основании заявки "
  const ExtraNoteJoin: string := " от "

  /** The note an extra shipment gets when the operator left it empty: the
      fixed words, the request id, then the request date in ISO form. */
  function ExtraNote(requestId: nat, requestDate: Date): (s: string)
    ensures |s| == |ExtraNotePrefix| + |NatToString(requestId)| + |ExtraNoteJoin| + |DateText(requestDate)|
    ensures s[..|ExtraNotePrefix|] == ExtraNotePrefix
    ensures s[|ExtraNotePrefix|..|ExtraNotePrefix| + |NatToString(requestId)|] == NatToString(requestId)
    ensures s[|s| - |DateText(requestDate)|..] == DateText(requestDate)
  {
    ExtraNotePrefix + NatToString(requestId) + ExtraNoteJoin + DateText(requestDate)
  }

  /** The stored delivery a save writes for form `f` on item `id`. */
  function Stored(L: Ledger, f: DeliveryForm, id: nat): (d: Delivery)
    requires WellFormed(L) && id in L.items
    ensures d.item == id && d.date == f.date && d.quantity == f.quantity
    ensures d.extraShipment == f.extraShipment
    ensures d.snapshot.product == L.items[id].product && d.snapshot.price == L.items[id].price
    ensures d.snapshot.supplier == L.items[id].supplier && d.snapshot.customer == L.items[id].customer
    ensures d.snapshot.requestDate == L.requests[L.items[id].request].createdOn
    ensures d.snapshot.extraRequest <==> L.requests[L.items[id].request].status == RequestStatus.Extra
    ensures d.status == DeriveStatus(f.extraShipment, f.quantity, L.items[id].quantity)
    ensures f.notes != "" || !f.extraShipment ==> d.notes == f.notes
    ensures d.notes != "" || !f.extraShipment
    ensures f.extraShipment && f.notes == "" ==>
      d.notes == ExtraNote(L.items[id].request, L.requests[L.items[id].request].createdOn)
  {
    var item := L.items[id];
    var req := L.requests[item.request];
    var snap := Snapshot(item.supplier, item.customer, item.product, req.createdOn,
      req.status == RequestStatus.Extra, item.price);
    var notes := if f.extraShipment && f.notes == "" then ExtraNote(item.request, req.createdOn) else f.notes;
    Delivery(id, f.date, f.quantity, f.extraShipment, notes,
      DeriveStatus(f.extraShipment, f.quantity, item.quantity), snap)
  }

  /** Sets an item's counter and recomputes its completion flag. */
  function WithDelivered(item: RequestItem, delivered: nat): (r: RequestItem)
    ensures r.delivered == delivered && (r.isCompleted <==> delivered >= item.quantity)
    ensures r.(delivered := item.delivered, isCompleted := item.isCompleted) == item
  {
    item.(delivered := delivered, isCompleted := delivered >= item.quantity)
  }

  /** `after` is `before` with its counter set to `delivered` and its
      completion flag recomputed from it; no other field differs. */
  predicate Recounted(before: RequestItem, after: RequestItem, delivered: int) {
    && after.delivered == delivered
    && (after.isCompleted <==> after.delivered >= after.quantity)
    && after.(delivered := before.delivered, isCompleted := before.isCompleted) == before
  }

  /** The ledger with delivery `d` written: appended when new, in place of
      the edited one otherwise. */
  function PutDelivery(ds: seq<Delivery>, target: Option<nat>, d: Delivery): seq<Delivery>
    requires target.Some? ==> target.value < |ds|
  {
    if target.Some? then ds[target.value := d] else ds + [d]
  }

  /** Delivery.save, as written: the chosen item's counter moves by the new
      quantity minus the stored one (0 for a new delivery), whichever item
      the stored delivery was made against; a negative counter is refused
      by the column's constraint. */
  function Save(L: Ledger, f: DeliveryForm, target: Option<nat>): (r: Result<Ledger, DeliveryError>)
    requires Refs(L, f, target)
    ensures f.item.None? ==> r == Err(NoItem)
    ensures f.item.Some? ==>
      (r.Ok? <==> L.items[f.item.value].delivered + f.quantity >= OldQuantity(L, target))
    ensures r.Ok? ==> f.item.Some? && r.value.requests == L.requests && WellFormed(r.value)
    ensures r.Ok? ==> r.value.items.Keys == L.items.Keys
    ensures r.Ok? ==> forall j :: j in L.items && Some(j) != f.item ==> r.value.items[j] == L.items[j]
    ensures r.Ok? ==> Recounted(L.items[f.item.value], r.value.items[f.item.value],
                        L.items[f.item.value].delivered + f.quantity - OldQuantity(L, target))
    ensures r.Ok? ==> r.value.deliveries == PutDelivery(L.deliveries, target, Stored(L, f, f.item.value))
  {
    if f.item.None? then Err(NoItem)
    else
      var id := f.item.value;
      var item := L.items[id];
      var delivered: int := item.delivered + f.quantity - OldQuantity(L, target);
      if delivered < 0 then Err(CounterNegative)
      else
        Ok(Ledger(L.requests, L.items[id := WithDelivered(item, delivered)],
          PutDelivery(L.deliveries, target, Stored(L, f, id))))
  }

  /** Delivery.delete: the item's counter drops by the delivery's quantity;
      the completion flag is cleared when the counter falls below the
      requested quantity and is otherwise left alone. */
  function Delete(L: Ledger, k: nat): (r: Result<Ledger, DeliveryError>)
    requires WellFormed(L) && k < |L.deliveries|
    ensures r.Ok? <==> L.items[L.deliveries[k].item].delivered >= L.deliveries[k].quantity
    ensures r.Ok? ==> r.value.requests == L.requests && r.value.items.Keys == L.items.Keys
    ensures r.Ok? ==> r.value.deliveries == RemoveAt(L.deliveries, k) && WellFormed(r.value)
    ensures r.Ok? ==> forall j :: j in L.items && j != L.deliveries[k].item ==> r.value.items[j] == L.items[j]
    ensures r.Ok? ==>
      var before, after := L.items[L.deliveries[k].item], r.value.items[L.deliveries[k].item];
      && after.delivered + L.deliveries[k].quantity == before.delivered
      && after.(delivered := before.delivered, isCompleted := before.isCompleted) == before
      && (after.delivered < after.quantity ==> !after.isCompleted)
      && (after.delivered >= after.quantity ==> after.isCompleted == before.isCompleted)
  {
    var d := L.deliveries[k];
    var item := L.items[d.item];
    var delivered: int := item.delivered - d.quantity;
    if delivered < 0 then Err(CounterNegative)
    else
      var completed := if delivered < item.quantity then false else item.isCompleted;
      Ok(Ledger(L.requests, L.items[d.item := item.(delivered := delivered, isCompleted := completed)],
        RemoveAt(L.deliveries, k)))
  }

  // ---------------------------------------------------------------------
  // What save and delete keep

  /** Under the invariant an item's counter covers each of its deliveries. */
  lemma CounterCoversDelivery(L: Ledger, k: nat)
    requires Reconciled(L) && k < |L.deliveries|
    ensures L.items[L.deliveries[k].item].delivered >= L.deliveries[k].quantity
  {
    DeliveredRemove(L.deliveries, k, L.deliveries[k].item);
  }

  /** Saving a new delivery, or an edit that stays on its item, keeps every
      counter equal to the sum of its deliveries and every completion flag
      in step with it; such a save is never refused for a negative counter. */
  lemma SaveKeepsReconciled(L: Ledger, f: DeliveryForm, target: Option<nat>)
    requires Reconciled(L) && Refs(L, f, target) && f.item.Some? && SameItemEdit(L, f, target)
    ensures Save(L, f, target).Ok?
    ensures Reconciled(Save(L, f, target).value)
  {
    if target.Some? {
      CounterCoversDelivery(L, target.value);
    }
    var L' := Save(L, f, target).value;
    var d := Stored(L, f, f.item.value);
    forall j | j in L'.items
      ensures L'.items[j].delivered == Delivered(L'.deliveries, j)
    {
      if target.Some? {
        DeliveredUpdate(L.deliveries, target.value, d, j);
      } else {
        DeliveredAppend(L.deliveries, d, j);
      }
    }
  }

  /** Deleting a delivery keeps the invariant and is never refused under it. */
  lemma DeleteKeepsReconciled(L: Ledger, k: nat)
    requires Reconciled(L) && k < |L.deliveries|
    ensures Delete(L, k).Ok?
    ensures Reconciled(Delete(L, k).value)
  {
    CounterCoversDelivery(L, k);
    var L' := Delete(L, k).value;
    forall j | j in L'.items
      ensures L'.items[j].delivered == Delivered(L'.deliveries, j)
    {
      DeliveredRemove(L.deliveries, k, j);
    }
  }

  /** Creating a delivery and then deleting it gives back the ledger. */
  lemma CreateThenDeleteRestores(L: Ledger, f: DeliveryForm)
    requires Reconciled(L) && Refs(L, f, None) && f.item.Some?
    ensures Save(L, f, None).Ok?
    ensures Delete(Save(L, f, None).value, |L.deliveries|) == Ok(L)
  {
    SaveKeepsReconciled(L, f, None);
    var L1 := Save(L, f, None).value;
    var id := f.item.value;
    assert L1.deliveries[|L.deliveries|].item == id;
    var L2 := Delete(L1, |L.deliveries|).value;
    assert L2.deliveries == L.deliveries;
    assert L2.items[id] == L.items[id];
    assert L2.items == L.items;
  }

  /** With the invariant in force, a validated ordinary delivery is never
      classified Over: it is Partial or Full. */
  lemma ValidatedDeliveryIsNeverOver(L: Ledger, f: DeliveryForm, target: Option<nat>)
    requires Reconciled(L) && Refs(L, f, target) && SameItemEdit(L, f, target)
    requires Clean(L, f, target).Pass? && !f.extraShipment
    ensures Save(L, f, target).Ok?
    ensures Stored(L, f, f.item.value).status in {Partial, Full}
  {
    SaveKeepsReconciled(L, f, target);
    if target.Some? {
      CounterCoversDelivery(L, target.value);
    }
  }

  // ---------------------------------------------------------------------
  // Editing a delivery onto another item

  /** A reconciled ledger in which editing the one delivery (4 units on item
      10) onto item 20 (2 units requested, none delivered) passes Clean,
      saves, is classified Over, and leaves the ledger out of balance: item
      10 still counts 4 units it no longer has and item 20 counts 0 of 4. */
  lemma RetargetedEditAsWritten()
    ensures
      var req := Request(Date(2024, 1, 10), InRequest, "");
      var item10 := RequestItem(1, 7, 10, 4, false, 100, "supplier", "customer");
      var item20 := RequestItem(1, 8, 2, 0, false, 100, "supplier", "customer");
      var snap := Snapshot("supplier", "customer", 7, Date(2024, 1, 10), false, 100);
      var L := Ledger(map[1 := req], map[10 := item10, 20 := item20],
        [Delivery(10, Date(2024, 2, 1), 4, false, "", Partial, snap)]);
      var f := DeliveryForm(Some(20), Date(2024, 2, 1), 4, false, "");
      && Reconciled(L)
      && Refs(L, f, Some(0))
      && Clean(L, f, Some(0)).Pass?
      && Save(L, f, Some(0)).Ok?
      && Stored(L, f, 20).status == Over
      && !Reconciled(Save(L, f, Some(0)).value)
  {
    var req := Request(Date(2024, 1, 10), InRequest, "");
    var item10 := RequestItem(1, 7, 10, 4, false, 100, "supplier", "customer");
    var item20 := RequestItem(1, 8, 2, 0, false, 100, "supplier", "customer");
    var snap := Snapshot("supplier", "customer", 7, Date(2024, 1, 10), false, 100);
    var d := Delivery(10, Date(2024, 2, 1), 4, false, "", Partial, snap);
    var L := Ledger(map[1 := req], map[10 := item10, 20 := item20], [d]);
    var f := DeliveryForm(Some(20), Date(2024, 2, 1), 4, false, "");
    assert Delivered([d], 10) == 4 by {
      assert [d][1..] == [];
    }
    assert Delivered([d], 20) == 0 by {
      assert [d][1..] == [];
    }
    assert Reconciled(L);
    var L' := Save(L, f, Some(0)).value;
    assert L'.items[10] == item10;
    var d' := Stored(L, f, 20);
    assert L'.deliveries == [d'];
    assert Delivered([d'], 10) == 0 by {
      assert [d'][1..] == [];
    }
  }

  /** The quantity added back on an edit: the stored one only when the
      edit keeps the delivery on the same item. */
  function CountedBack(L: Ledger, f: DeliveryForm, target: Option<nat>): (n: nat)
    requires target.Some? ==> target.value < |L.deliveries|
    ensures SameItemEdit(L, f, target) ==> n == OldQuantity(L, target)
    ensures !SameItemEdit(L, f, target) ==> n == 0
  {
    if target.Some? && f.item == Some(L.deliveries[target.value].item) then OldQuantity(L, target) else 0
  }

  /** Delivery.clean as evidently intended: an edit that moves the delivery
      to another item is checked against that item's own remaining units. */
  function CleanFixed(L: Ledger, f: DeliveryForm, target: Option<nat>): (r: Outcome<DeliveryError>)
    requires Refs(L, f, target)
    ensures r != Fail(AlreadyFulfilled)
    ensures r.Pass? <==> f.item.Some? && Admissible(L, f, Remaining(L, f, CountedBack(L, f, target)))
    ensures FirstFailure(L, f, CountedBack(L, f, target), r)
    ensures SameItemEdit(L, f, target) ==> r == Clean(L, f, target)
  {
    CleanAgainst(L, f, CountedBack(L, f, target))
  }

  /** Delivery.save as evidently intended: an edit that moves the delivery
      to another item takes its stored quantity off the old item and puts
      the new quantity on the new one. */
  function SaveFixed(L: Ledger, f: DeliveryForm, target: Option<nat>): (r: Result<Ledger, DeliveryError>)
    requires Refs(L, f, target)
    ensures SameItemEdit(L, f, target) ==> r == Save(L, f, target)
    ensures r.Ok? ==> f.item.Some? && WellFormed(r.value) && r.value.requests == L.requests
    ensures r.Ok? ==> r.value.deliveries == PutDelivery(L.deliveries, target, Stored(L, f, f.item.value))
    ensures f.item.Some? && !SameItemEdit(L, f, target) ==>
      var moved := L.deliveries[target.value];
      var from, to := L.items[moved.item], L.items[f.item.value];
      && (r.Ok? <==> from.delivered >= moved.quantity)
      && (r.Ok? ==>
          && r.value.items.Keys == L.items.Keys
          && Recounted(from, r.value.items[moved.item], from.delivered - moved.quantity)
          && Recounted(to, r.value.items[f.item.value], to.delivered + f.quantity)
          && forall j :: j in L.items && j != moved.item && Some(j) != f.item ==> r.value.items[j] == L.items[j])
  {
    if f.item.None? || SameItemEdit(L, f, target) then Save(L, f, target)
    else
      var t := target.value;
      var oldId, oldQuantity := L.deliveries[t].item, L.deliveries[t].quantity;
      var prev := L.items[oldId];
      var id := f.item.value;
      var item := L.items[id];
      if prev.delivered < oldQuantity then Err(CounterNegative)
      else
        var items := L.items[oldId := WithDelivered(prev, prev.delivered - oldQuantity)];
        Ok(Ledger(L.requests, items[id := WithDelivered(item, item.delivered + f.quantity)],
          L.deliveries[t := Stored(L, f, id)]))
  }

  /** The corrected save keeps the invariant for every edit. */
  lemma SaveFixedKeepsReconciled(L: Ledger, f: DeliveryForm, target: Option<nat>)
    requires Reconciled(L) && Refs(L, f, target) && f.item.Some?
    ensures SaveFixed(L, f, target).Ok?
    ensures Reconciled(SaveFixed(L, f, target).value)
  {
    if SameItemEdit(L, f, target) {
      SaveKeepsReconciled(L, f, target);
    } else {
      var t := target.value;
      CounterCoversDelivery(L, t);
      var L' := SaveFixed(L, f, target).value;
      var d := Stored(L, f, f.item.value);
      forall j | j in L'.items
        ensures L'.items[j].delivered == Delivered(L'.deliveries, j)
      {
        DeliveredUpdate(L.deliveries, t, d, j);
      }
    }
  }

  /** With the corrected check, no validated ordinary delivery is ever
      classified Over, whichever item an edit moves it to. */
  lemma ValidatedDeliveryIsNeverOverFixed(L: Ledger, f: DeliveryForm, target: Option<nat>)
    requires Reconciled(L) && Refs(L, f, target)
    requires CleanFixed(L, f, target).Pass? && !f.extraShipment
    ensures SaveFixed(L, f, target).Ok?
    ensures Stored(L, f, f.item.value).status in {Partial, Full}
  {
    SaveFixedKeepsReconciled(L, f, target);
    if SameItemEdit(L, f, target) {
      ValidatedDeliveryIsNeverOver(L, f, target);
    }
  }

  // ---------------------------------------------------------------------
  // Sequences of admin actions

  /** An admin action on deliveries: save the form (new, or over the stored
      delivery at `target`), or delete the stored delivery at `index`. */
  datatype Command = SaveCommand(form: DeliveryForm, target: Option<nat>) | DeleteCommand(index: nat)

  /** One action, run as one transaction: a save is validated first; a
      dangling reference, a failed validation or a refused write leaves the
      ledger exactly as it was. */
  function Apply(L: Ledger, c: Command): (r: Ledger)
    requires WellFormed(L)
    ensures WellFormed(r)
  {
    match c
    case SaveCommand(f, target) =>
      if !Refs(L, f, target) || CleanFixed(L, f, target).Fail? then L
      else (match SaveFixed(L, f, target) case Ok(L') => L' case Err(_) => L)
    case DeleteCommand(k) =>
      if k >= |L.deliveries| then L
      else (match Delete(L, k) case Ok(L') => L' case Err(_) => L)
  }

  function Replay(L: Ledger, cs: seq<Command>): (r: Ledger)
    requires WellFormed(L)
    ensures WellFormed(r)
    decreases |cs|
  {
    if cs == [] then L else Replay(Apply(L, cs[0]), cs[1..])
  }

  /** After any sequence of validated saves and deletes, every item's
      counter is the sum of its deliveries and its completion flag says
      whether that sum reaches the requested quantity. */
  lemma {:induction false} ReplayKeepsReconciled(L: Ledger, cs: seq<Command>)
    requires Reconciled(L)
    ensures Reconciled(Replay(L, cs))
    decreases |cs|
  {
    if cs != [] {
      match cs[0] {
        case SaveCommand(f, target) =>
          if Refs(L, f, target) && CleanFixed(L, f, target).Pass? {
            SaveFixedKeepsReconciled(L, f, target);
          }
        case DeleteCommand(k) =>
          if k < |L.deliveries| {
            DeleteKeepsReconciled(L, k);
          }
      }
      ReplayKeepsReconciled(Apply(L, cs[0]), cs[1..]);
    }
  }
}
