/** The delivery admin screen (store/delivery/admin.py): the batch action
    that issues product units for the selected deliveries, the filter on the
    items the delivery form offers, and the classification behind the
    quantity and status columns. Rendering (HTML, colours as markup,
    messages) is reduced to the branch taken. */
module DeliveryAdmin {
  import opened Wrappers
  import opened Decimal
  import opened Requests
  import opened Deliveries
  import opened Units

  // ---------------------------------------------------------------------
  // Units already stored

  /** How many stored units belong to delivery `delivery`. */
  function UnitCount(units: seq<ProductUnit>, delivery: nat): nat {
    if units == [] then 0
    else (if units[0].delivery == delivery then 1 else 0) + UnitCount(units[1..], delivery)
  }

  predicate HasUnits(units: seq<ProductUnit>, delivery: nat) {
    UnitCount(units, delivery) > 0
  }

  /** The serials the database already holds. */
  function Serials(units: seq<ProductUnit>): set<string> {
    set u | u in units :: u.serial
  }

  lemma {:induction false} UnitCountConcat(a: seq<ProductUnit>, b: seq<ProductUnit>, delivery: nat)
    ensures UnitCount(a + b, delivery) == UnitCount(a, delivery) + UnitCount(b, delivery)
  {
    if a != [] {
      assert (a + b)[1..] == a[1..] + b;
      UnitCountConcat(a[1..], b, delivery);
    } else {
      assert a + b == b;
    }
  }

  /** The units the action builds for one delivery, one per serial. */
  function NewUnits(serials: seq<string>, product: nat, delivery: nat): (us: seq<ProductUnit>)
    ensures |us| == |serials|
    ensures forall k :: 0 <= k < |us| ==> us[k] == ProductUnit(serials[k], product, delivery)
  {
    seq(|serials|, k requires 0 <= k < |serials| => ProductUnit(serials[k], product, delivery))
  }

  lemma {:induction false} UnitCountNew(serials: seq<string>, product: nat, delivery: nat, d: nat)
    ensures UnitCount(NewUnits(serials, product, delivery), d) == if d == delivery then |serials| else 0
    decreases |serials|
  {
    var us := NewUnits(serials, product, delivery);
    if serials != [] {
      assert us[1..] == NewUnits(serials[1..], product, delivery);
      UnitCountNew(serials[1..], product, delivery, d);
    }
  }

  /** Adding a delivery's new units raises its count by their number and
      leaves every other delivery's count alone. */
  lemma UnitCountAfterAdding(units: seq<ProductUnit>, serials: seq<string>, product: nat, delivery: nat)
    ensures forall d ::
      (UnitCount(units + NewUnits(serials, product, delivery), d)
       == UnitCount(units, d) + (if d == delivery then |serials| else 0))
  {
    forall d
      ensures UnitCount(units + NewUnits(serials, product, delivery), d)
        == UnitCount(units, d) + (if d == delivery then |serials| else 0)
    {
      UnitCountConcat(units, NewUnits(serials, product, delivery), d);
      UnitCountNew(serials, product, delivery, d);
    }
  }

  // ---------------------------------------------------------------------
  // The batch action

  /** A selected delivery as the action reads it: its key, its product's
      key if it has one, and its quantity. */
  datatype Selection = Selection(id: nat, product: Option<nat>, quantity: nat)

  /** The clock reading taken for the k-th serial of a delivery. */
  type Clock = (nat, nat) -> ClockReading

  /** What happened to one selected delivery. */
  datatype UnitOutcome =
    | NoProduct
    | AlreadyHasUnits
    | SerialFailure(cause: SerialError)
    | Created(count: nat)

  datatype BatchError = MissingProduct(delivery: nat) | SerialsFailed(delivery: nat, cause: SerialError)

  /** What the operator is told: units created, deliveries skipped, and one
      error per failed delivery, in selection order. */
  datatype BatchReport = BatchReport(totalCreated: nat, skipped: nat, errors: seq<BatchError>)

  datatype BatchRun = BatchRun(units: seq<ProductUnit>, outcomes: seq<UnitOutcome>, report: BatchReport)

  /** Units an outcome added. */
  function Added(o: UnitOutcome): nat {
    if o.Created? then o.count else 0
  }

  predicate IsError(o: UnitOutcome) {
    o.NoProduct? || o.SerialFailure?
  }

  /** The source's call for the k-th unit of a delivery. */
  function Attempt(pk: nat, delivery: nat, k: nat, existing: set<string>, clock: Clock)
    : Result<string, SerialError>
  {
    GenerateSerialNumber(Some(pk), clock(delivery, k), existing)
  }

  /** One serial per unit, each checked against the stored serials; the
      first failure ends the loop with that failure. */
  function GenerateSerials(pk: nat, delivery: nat, n: nat, existing: set<string>, clock: Clock)
    : (r: Result<seq<string>, SerialError>)
    ensures r.Ok? <==> (forall k :: 0 <= k < n ==> Attempt(pk, delivery, k, existing, clock).Ok?)
    ensures r.Ok? ==> |r.value| == n
    ensures r.Ok? ==> (forall k :: 0 <= k < n ==> Attempt(pk, delivery, k, existing, clock) == Ok(r.value[k]))
    ensures r.Err? ==> (exists k :: 0 <= k < n && Attempt(pk, delivery, k, existing, clock) == Err(r.error))
    decreases n
  {
    if n == 0 then Ok([])
    else
      match GenerateSerials(pk, delivery, n - 1, existing, clock)
      case Err(e) => Err(e)
      case Ok(prefix) =>
        match Attempt(pk, delivery, n - 1, existing, clock)
        case Err(e) => Err(e)
        case Ok(serial) => Ok(prefix + [serial])
  }

  /** Every serial generated for a delivery is absent from the stored ones. */
  lemma GeneratedSerialsAreFresh(pk: nat, delivery: nat, n: nat, existing: set<string>, clock: Clock)
    ensures var r := GenerateSerials(pk, delivery, n, existing, clock);
      r.Ok? ==> forall k :: 0 <= k < n ==> r.value[k] !in existing
  {
    var r := GenerateSerials(pk, delivery, n, existing, clock);
    if r.Ok? {
      forall k | 0 <= k < n ensures r.value[k] !in existing {
        assert Attempt(pk, delivery, k, existing, clock) == Ok(r.value[k]);
      }
    }
  }

  /** One iteration of the action: no product is an error; a delivery that
      already has units is skipped; otherwise all its serials are generated
      and its units added together, or nothing is added and the failure is
      recorded. */
  function Process(units: seq<ProductUnit>, s: Selection, clock: Clock): (r: (seq<ProductUnit>, UnitOutcome))
    ensures r.1 == NoProduct <==> s.product.None?
    ensures r.1 == AlreadyHasUnits <==> s.product.Some? && HasUnits(units, s.id)
    ensures r.1.Created? ==> r.1.count == s.quantity
    ensures |r.0| == |units| + Added(r.1) && r.0[..|units|] == units
    ensures forall j :: |units| <= j < |r.0| ==>
      && r.0[j].delivery == s.id && Some(r.0[j].product) == s.product
      && r.0[j].serial !in Serials(units)
    ensures UnitCount(r.0, s.id) == UnitCount(units, s.id) + Added(r.1)
    ensures forall d :: d != s.id ==> UnitCount(r.0, d) == UnitCount(units, d)
    ensures s.product.Some? && !HasUnits(units, s.id) ==>
      var g := GenerateSerials(s.product.value, s.id, s.quantity, Serials(units), clock);
      && (r.1.Created? <==> g.Ok?)
      && (g.Err? ==> r.0 == units && r.1 == SerialFailure(g.error))
      && (g.Ok? ==> r.0 == units + NewUnits(g.value, s.product.value, s.id))
  {
    if s.product.None? then (units, NoProduct)
    else if HasUnits(units, s.id) then (units, AlreadyHasUnits)
    else
      var pk := s.product.value;
      match GenerateSerials(pk, s.id, s.quantity, Serials(units), clock)
      case Err(e) => (units, SerialFailure(e))
      case Ok(serials) =>
        var added := NewUnits(serials, pk, s.id);
        GeneratedSerialsAreFresh(pk, s.id, s.quantity, Serials(units), clock);
        UnitCountAfterAdding(units, serials, pk, s.id);
        assert (units + added)[..|units|] == units;
        (units + added, Created(s.quantity))
  }

  /** The error message an outcome puts in the report, naming its delivery. */
  function ErrorFor(s: Selection, o: UnitOutcome): (e: Option<BatchError>)
    ensures e.Some? <==> IsError(o)
  {
    match o
    case NoProduct => Some(MissingProduct(s.id))
    case SerialFailure(cause) => Some(SerialsFailed(s.id, cause))
    case _ => None
  }

  /** The report line for one outcome. */
  function Tally(s: Selection, o: UnitOutcome, rest: BatchReport): BatchReport {
    BatchReport(
      rest.totalCreated + Added(o),
      rest.skipped + (if o == AlreadyHasUnits then 1 else 0),
      (match ErrorFor(s, o) case Some(e) => [e] case None => []) + rest.errors)
  }

  function CountSkipped(os: seq<UnitOutcome>): nat {
    if os == [] then 0 else (if os[0] == AlreadyHasUnits then 1 else 0) + CountSkipped(os[1..])
  }

  function CountErrors(os: seq<UnitOutcome>): nat {
    if os == [] then 0 else (if IsError(os[0]) then 1 else 0) + CountErrors(os[1..])
  }

  function TotalAdded(os: seq<UnitOutcome>): nat {
    if os == [] then 0 else Added(os[0]) + TotalAdded(os[1..])
  }

  /** generate_product_units over the selection, in order; each delivery is
      classified exactly once and the report counts what happened. */
  function Batch(units: seq<ProductUnit>, sel: seq<Selection>, clock: Clock): (r: BatchRun)
    ensures |r.outcomes| == |sel|
    ensures |r.units| >= |units| && r.units[..|units|] == units
    ensures r.report.totalCreated == |r.units| - |units| == TotalAdded(r.outcomes)
    ensures r.report.skipped == CountSkipped(r.outcomes)
    ensures |r.report.errors| == CountErrors(r.outcomes)
    ensures forall e :: e in r.report.errors <==>
      exists i :: 0 <= i < |sel| && ErrorFor(sel[i], r.outcomes[i]) == Some(e)
    decreases |sel|
  {
    if sel == [] then BatchRun(units, [], BatchReport(0, 0, []))
    else
      var step := Process(units, sel[0], clock);
      var rest := Batch(step.0, sel[1..], clock);
      assert rest.units[..|units|] == step.0[..|units|];
      BatchRun(rest.units, [step.1] + rest.outcomes, Tally(sel[0], step.1, rest.report))
  }

  /** Each delivery is selected at most once (the selection is a queryset). */
  predicate Distinct(sel: seq<Selection>) {
    forall i, j :: 0 <= i < j < |sel| ==> sel[i].id != sel[j].id
  }

  /** The batch adds no units for deliveries it was not given. */
  lemma {:induction false} BatchLeavesOthers(units: seq<ProductUnit>, sel: seq<Selection>, clock: Clock, d: nat)
    requires forall i :: 0 <= i < |sel| ==> sel[i].id != d
    ensures UnitCount(Batch(units, sel, clock).units, d) == UnitCount(units, d)
    decreases |sel|
  {
    if sel != [] {
      var step := Process(units, sel[0], clock);
      BatchLeavesOthers(step.0, sel[1..], clock, d);
    }
  }

  /** The i-th outcome is what processing the i-th delivery gives against
      the units stored once the deliveries before it were processed. */
  lemma {:induction false} OutcomeAt(units: seq<ProductUnit>, sel: seq<Selection>, clock: Clock, i: nat)
    requires i < |sel|
    ensures Batch(units, sel, clock).outcomes[i] == Process(Batch(units, sel[..i], clock).units, sel[i], clock).1
    decreases |sel|
  {
    var step := Process(units, sel[0], clock);
    if i > 0 {
      OutcomeAt(step.0, sel[1..], clock, i - 1);
      assert sel[..i][0] == sel[0] && sel[..i][1..] == sel[1..][..i - 1];
    }
  }

  /** The serials already held when the i-th delivery is processed: those
      stored before the action plus those of the deliveries before it. */
  function HeldAt(units: seq<ProductUnit>, sel: seq<Selection>, clock: Clock, i: nat): set<string>
    requires i <= |sel|
  {
    Serials(Batch(units, sel[..i], clock).units)
  }

  /** A delivery with a product and no units is created exactly when every
      one of its serials is free at the time it is processed; otherwise its
      failure is that of one of its serials. */
  lemma SerialOutcomeAt(units: seq<ProductUnit>, sel: seq<Selection>, clock: Clock, i: nat)
    requires Distinct(sel) && i < |sel|
    ensures var r := Batch(units, sel, clock);
      sel[i].product.Some? && !HasUnits(units, sel[i].id) ==>
        var pk, held := sel[i].product.value, HeldAt(units, sel, clock, i);
        && (r.outcomes[i].Created? || r.outcomes[i].SerialFailure?)
        && (r.outcomes[i].Created? <==>
            forall k :: 0 <= k < sel[i].quantity ==> Attempt(pk, sel[i].id, k, held, clock).Ok?)
        && (r.outcomes[i].SerialFailure? ==>
            exists k :: 0 <= k < sel[i].quantity && Attempt(pk, sel[i].id, k, held, clock) == Err(r.outcomes[i].cause))
  {
    if sel[i].product.Some? && !HasUnits(units, sel[i].id) {
      var before := Batch(units, sel[..i], clock).units;
      assert HeldAt(units, sel, clock, i) == Serials(before);
      OutcomeAt(units, sel, clock, i);
      var o := Batch(units, sel, clock).outcomes[i];
      assert o == Process(before, sel[i], clock).1;
      assert !HasUnits(before, sel[i].id) by {
        assert forall j :: 0 <= j < |sel[..i]| ==> sel[..i][j].id != sel[i].id;
        BatchLeavesOthers(units, sel[..i], clock, sel[i].id);
      }
      ProcessSerialOutcome(before, sel[i], clock);
    }
  }

  /** For one delivery with a product and no units: created iff every
      serial attempt against the held serials succeeds, and a failure is
      one attempt's failure. */
  lemma ProcessSerialOutcome(units: seq<ProductUnit>, s: Selection, clock: Clock)
    requires s.product.Some? && !HasUnits(units, s.id)
    ensures var o, pk := Process(units, s, clock).1, s.product.value;
      && (o.Created? || o.SerialFailure?)
      && (o.Created? <==> forall k :: 0 <= k < s.quantity ==> Attempt(pk, s.id, k, Serials(units), clock).Ok?)
      && (o.SerialFailure? ==>
          exists k :: 0 <= k < s.quantity && Attempt(pk, s.id, k, Serials(units), clock) == Err(o.cause))
  {
  }

  /** Each selected delivery lands in exactly one outcome, decided by the
      units stored before the action ran: NoProduct when it has no product,
      skipped when it already had units, otherwise created when all its
      serials are free when it is processed and a serial failure when one
      is not; a created delivery gains exactly its quantity of units and
      any other gains none. */
  lemma {:induction false} BatchClassification(units: seq<ProductUnit>, sel: seq<Selection>, clock: Clock, i: nat)
    requires Distinct(sel) && i < |sel|
    ensures var r := Batch(units, sel, clock);
      && (r.outcomes[i] == NoProduct <==> sel[i].product.None?)
      && (r.outcomes[i] == AlreadyHasUnits <==> sel[i].product.Some? && HasUnits(units, sel[i].id))
      && (r.outcomes[i].Created? ==> r.outcomes[i].count == sel[i].quantity)
      && UnitCount(r.units, sel[i].id) == UnitCount(units, sel[i].id) + Added(r.outcomes[i])
    ensures var r := Batch(units, sel, clock);
      sel[i].product.Some? && !HasUnits(units, sel[i].id) ==>
        var pk, held := sel[i].product.value, HeldAt(units, sel, clock, i);
        && (r.outcomes[i].Created? <==>
            forall k :: 0 <= k < sel[i].quantity ==> Attempt(pk, sel[i].id, k, held, clock).Ok?)
        && (r.outcomes[i].SerialFailure? ==>
            exists k :: 0 <= k < sel[i].quantity && Attempt(pk, sel[i].id, k, held, clock) == Err(r.outcomes[i].cause))
    decreases |sel|
  {
    SerialOutcomeAt(units, sel, clock, i);
    var step := Process(units, sel[0], clock);
    if i == 0 {
      BatchLeavesOthers(step.0, sel[1..], clock, sel[0].id);
    } else {
      BatchClassification(step.0, sel[1..], clock, i - 1);
    }
  }

  /** Every unit the batch adds belongs to a delivery it created, carries
      that delivery's product, and has a serial the database did not hold
      before the action. */
  lemma {:induction false} BatchNewUnits(units: seq<ProductUnit>, sel: seq<Selection>, clock: Clock, j: nat)
    ensures var r := Batch(units, sel, clock);
      |units| <= j < |r.units| ==>
        exists i :: 0 <= i < |sel| && r.outcomes[i].Created?
          && r.units[j].delivery == sel[i].id && Some(r.units[j].product) == sel[i].product
          && r.units[j].serial !in Serials(units)
    decreases |sel|
  {
    var r := Batch(units, sel, clock);
    if |units| <= j < |r.units| {
      var step := Process(units, sel[0], clock);
      var rest := Batch(step.0, sel[1..], clock);
      assert r.units == rest.units && r.outcomes == [step.1] + rest.outcomes;
      if j < |step.0| {
        assert r.units[j] == step.0[j];
        assert r.outcomes[0] == step.1 && step.1.Created?;
      } else {
        BatchNewUnits(step.0, sel[1..], clock, j);
        var i :| 0 <= i < |sel[1..]| && rest.outcomes[i].Created?
          && rest.units[j].delivery == sel[1..][i].id && Some(rest.units[j].product) == sel[1..][i].product
          && rest.units[j].serial !in Serials(step.0);
        assert r.outcomes[i + 1] == rest.outcomes[i];
        assert Serials(units) <= Serials(step.0) by {
          forall u | u in units ensures u in step.0 {
            var k :| 0 <= k < |units| && units[k] == u;
            assert step.0[k] == u;
          }
        }
      }
    }
  }

  lemma {:induction false} NothingAddedTotal(os: seq<UnitOutcome>)
    requires forall i :: 0 <= i < |os| ==> Added(os[i]) == 0
    ensures TotalAdded(os) == 0
  {
    if os != [] {
      NothingAddedTotal(os[1..]);
    }
  }

  /** Running the action a second time over the same selection, when the
      first run had no serial failure, creates nothing and skips every
      delivery the first run gave units to. */
  lemma SecondRunIsNoOp(units: seq<ProductUnit>, sel: seq<Selection>, clock1: Clock, clock2: Clock)
    requires Distinct(sel)
    requires var r1 := Batch(units, sel, clock1);
      forall i :: 0 <= i < |sel| ==> !r1.outcomes[i].SerialFailure?
    ensures var r1 := Batch(units, sel, clock1);
      var r2 := Batch(r1.units, sel, clock2);
      && r2.units == r1.units
      && r2.report.totalCreated == 0
      && (forall i :: 0 <= i < |sel| && Added(r1.outcomes[i]) > 0 ==> r2.outcomes[i] == AlreadyHasUnits)
  {
    var r1 := Batch(units, sel, clock1);
    var r2 := Batch(r1.units, sel, clock2);
    forall i | 0 <= i < |sel|
      ensures Added(r2.outcomes[i]) == 0
      ensures Added(r1.outcomes[i]) > 0 ==> r2.outcomes[i] == AlreadyHasUnits
    {
      BatchClassification(units, sel, clock1, i);
      BatchClassification(r1.units, sel, clock2, i);
    }
    NothingAddedTotal(r2.outcomes);
    assert r2.units == r2.units[..|r1.units|];
  }

  // ---------------------------------------------------------------------
  // The item choice on the delivery form

  /** An item the delivery form offers: its request is in the request or
      extra stage and it is not yet fully delivered. */
  predicate Offered(L: Ledger, id: nat)
    requires WellFormed(L) && id in L.items
  {
    && L.requests[L.items[id].request].status in {InRequest, RequestStatus.Extra}
    && L.items[id].delivered < L.items[id].quantity
  }

  /** formfield_for_foreignkey: the choices for the delivery's item. */
  function OfferedItems(L: Ledger): (ids: set<nat>)
    requires WellFormed(L)
    ensures ids <= L.items.Keys
    ensures forall id :: id in L.items ==> (id in ids <==> Offered(L, id))
  {
    set id | id in L.items && Offered(L, id)
  }

  /** For an item of a request in the request or extra stage, the form
      offers it exactly when a new one-unit delivery dated after the
      request would pass validation; an offered item is never marked
      completed and still has units to come. */
  lemma OfferedMeansDeliverable(L: Ledger, id: nat, date: Date)
    requires Reconciled(L) && id in L.items
    requires L.requests[L.items[id].request].status in {InRequest, RequestStatus.Extra}
    requires Before(L.requests[L.items[id].request].createdOn, date)
    ensures id in OfferedItems(L) <==> Clean(L, DeliveryForm(Some(id), date, 1, false, ""), None).Pass?
    ensures id in OfferedItems(L) ==> !L.items[id].isCompleted && RemainingQuantity(L.items[id]) >= 1
  {
  }

  // ---------------------------------------------------------------------
  // List columns

  datatype Tint = Green | Orange | Blue | Purple

  /** quantity_display: delivered against requested, green on an exact
      match and orange otherwise; without an item only the quantity shows. */
  datatype QuantityCell = Compared(tint: Tint, quantity: nat, requested: nat) | Bare(text: string)

  function QuantityDisplay(quantity: nat, requested: Option<nat>): (c: QuantityCell)
    ensures requested.None? <==> c.Bare?
    ensures requested.None? ==> c.Bare? && Canonical(c.text) && ParseDigits(c.text) == quantity
    ensures requested.Some? ==> c.quantity == quantity && c.requested == requested.value
    ensures requested.Some? ==> (c.tint == Green <==> quantity == requested.value)
    ensures requested.Some? ==> c.tint in {Green, Orange}
  {
    ParseNatToString(quantity);
    if requested.Some? then
      Compared(if quantity == requested.value then Green else Orange, quantity, requested.value)
    else Bare(NatToString(quantity))
  }

  /** status_display: one tint per status; before the first save there is
      no status and only the "determined after saving" notice shows. */
  function StatusDisplay(status: Option<DeliveryStatus>): (t: Option<Tint>)
    ensures t.None? <==> status.None?
    ensures status == Some(Partial) ==> t == Some(Orange)
    ensures status == Some(Over) ==> t == Some(Blue)
    ensures status == Some(Full) ==> t == Some(Green)
    ensures status == Some(DeliveryStatus.Extra) ==> t == Some(Purple)
  {
    match status
    case None => None
    case Some(Partial) => Some(Orange)
    case Some(Over) => Some(Blue)
    case Some(Full) => Some(Green)
    case Some(Extra) => Some(Purple)
  }

  /** Distinct statuses show in distinct tints. */
  lemma StatusTintsDistinct(a: DeliveryStatus, b: DeliveryStatus)
    requires StatusDisplay(Some(a)) == StatusDisplay(Some(b))
    ensures a == b
  {
  }

  /** For a delivery saved by the model, the quantity column is green
      exactly when the status column is, unless it is an extra shipment. */
  lemma QuantityGreenIffStatusFull(L: Ledger, f: DeliveryForm, target: Option<nat>)
    requires Refs(L, f, target) && f.item.Some? && Save(L, f, target).Ok?
    requires !f.extraShipment
    ensures var d := Stored(L, f, f.item.value);
      var item := Save(L, f, target).value.items[f.item.value];
      && (QuantityDisplay(d.quantity, Some(item.quantity)).tint == Green
          <==> StatusDisplay(Some(d.status)) == Some(Green))
      && (StatusDisplay(Some(d.status)) == Some(Green) <==> d.status == Full)
  {
  }
}
