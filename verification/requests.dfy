/** Purchase requests and their line items (store/request/models.py): the
    three request statuses, an item's own validation, the price default on
    creation, and the derived cost, remaining quantity and progress text. */
module Requests {
  import opened Wrappers
  import opened Decimal

  /** Request.Status: the only three values a request status takes. */
  datatype RequestStatus = Candidate | InRequest | Extra

  /** A new request starts as a candidate. */
  const DefaultStatus: RequestStatus := Candidate

  /** The stored code of each status. */
  function StatusCode(s: RequestStatus): string {
    match s
    case Candidate => "candidate"
    case InRequest => "in_request"
    case Extra => "extra"
  }

  /** The accepted status codes, as the status-change endpoint lists them. */
  const StatusCodes: set<string> := {"candidate", "in_request", "extra"}

  /** Reads a stored code back; anything outside the three codes is refused. */
  function StatusFromCode(code: string): (r: Option<RequestStatus>)
    ensures r.Some? <==> code in StatusCodes
    ensures r.Some? ==> StatusCode(r.value) == code
  {
    if code == "candidate" then Some(Candidate)
    else if code == "in_request" then Some(InRequest)
    else if code == "extra" then Some(Extra)
    else None
  }

  /** Every status survives the trip through its code, distinct statuses
      have distinct codes, and the default is stored as "candidate". */
  lemma StatusCodeRoundTrip(s: RequestStatus)
    ensures StatusFromCode(StatusCode(s)) == Some(s)
    ensures StatusCode(s) in StatusCodes
    ensures StatusCode(DefaultStatus) == "candidate"
    ensures |StatusCodes| == 3
  {
  }

  /** A calendar date; dates compare year first, then month, then day. */
  datatype Date = Date(year: nat, month: nat, day: nat)

  predicate Before(a: Date, b: Date) {
    a.year < b.year
    || (a.year == b.year && a.month < b.month)
    || (a.year == b.year && a.month == b.month && a.day < b.day)
  }

  /** `str(date)`: ISO form YYYY-MM-DD. */
  function DateText(d: Date): string {
    PadLeft(d.year, 4) + "-" + PadLeft(d.month, 2) + "-" + PadLeft(d.day, 2)
  }

  /** A purchase request; `createdOn` is the date part of its creation time. */
  datatype Request = Request(createdOn: Date, status: RequestStatus, notes: string)

  /** One line of a request. `request` and `product` are foreign keys;
      `price` is the unit price in cents. */
  datatype RequestItem = RequestItem(
    request: nat,
    product: nat,
    quantity: nat,
    delivered: nat,
    isCompleted: bool,
    price: int,
    supplier: string,
    customer: string)

  datatype ItemError = NonPositivePrice | QuantityBelowOne

  /** RequestItem.clean: an existing item must carry a positive price (a new
      one may be priced 0), and every item asks for at least one unit; the
      price is checked first. */
  function CleanItem(item: RequestItem, adding: bool): (r: Outcome<ItemError>)
    ensures r.Pass? <==> (adding || item.price > 0) && item.quantity >= 1
    ensures r == Fail(NonPositivePrice) <==> !adding && item.price <= 0
  {
    if !adding && item.price <= 0 then Fail(NonPositivePrice)
    else if item.quantity < 1 then Fail(QuantityBelowOne)
    else Pass
  }

  /** RequestItem.save: on creation a missing price becomes 0; a present
      price, or any price of an existing item, is kept as it is. */
  function PriceOnSave(price: Option<int>, adding: bool): (r: Option<int>)
    ensures adding ==> r.Some?
    ensures price.Some? ==> r == price
    ensures !adding ==> r == price
    ensures r.Some? && r != price ==> r.value == 0
  {
    if adding && price.None? then Some(0) else price
  }

  /** total_cost: what the line costs at its unit price. */
  function TotalCost(item: RequestItem): (c: int)
    ensures c == 0 <==> item.price == 0 || item.quantity == 0
    ensures item.price > 0 ==> c >= item.quantity
    ensures item.price >= 0 ==> c >= 0
  {
    item.price * item.quantity
  }

  /** An existing item that passes its own validation has a positive cost of
      at least one cent per requested unit. */
  lemma CleanItemHasPositiveCost(item: RequestItem)
    requires CleanItem(item, false).Pass?
    ensures TotalCost(item) >= item.quantity >= 1
  {
  }

  /** remaining_quantity: how many units are still to come, never negative. */
  function RemainingQuantity(item: RequestItem): (r: nat)
    ensures r <= item.quantity
    ensures r == 0 <==> item.delivered >= item.quantity
    ensures r > 0 ==> item.delivered + r == item.quantity
  {
    if item.quantity > item.delivered then item.quantity - item.delivered else 0
  }

  /** delivery_progress: "delivered/quantity". */
  function DeliveryProgress(item: RequestItem): string {
    NatToString(item.delivered) + "/" + NatToString(item.quantity)
  }

  /** The index of the first occurrence of `c` in `s`, if any. */
  function FindChar(s: string, c: char): (r: Option<nat>)
    ensures r.Some? ==> r.value < |s| && s[r.value] == c
    ensures r.Some? ==> forall j :: 0 <= j < r.value ==> s[j] != c
    ensures r.None? ==> forall j :: 0 <= j < |s| ==> s[j] != c
  {
    if s == [] then None
    else if s[0] == c then Some(0)
    else match FindChar(s[1..], c)
      case None => None
      case Some(k) => Some(k + 1)
  }

  /** Reads progress text back into (delivered, quantity). */
  function ParseProgress(s: string): Option<(nat, nat)> {
    match FindChar(s, '/')
    case None => None
    case Some(k) =>
      if Canonical(s[..k]) && Canonical(s[k + 1..])
      then Some((ParseDigits(s[..k]), ParseDigits(s[k + 1..])))
      else None
  }

  /** The progress text determines both counters. */
  lemma ProgressRoundTrip(item: RequestItem)
    ensures ParseProgress(DeliveryProgress(item)) == Some((item.delivered, item.quantity))
  {
    var d, q := NatToString(item.delivered), NatToString(item.quantity);
    var s := DeliveryProgress(item);
    assert s == d + "/" + q;
    assert s[|d|] == '/';
    assert forall j :: 0 <= j < |d| ==> s[j] == d[j];
    assert FindChar(s, '/') == Some(|d|);
    assert s[..|d|] == d;
    assert s[|d| + 1..] == q;
    ParseNatToString(item.delivered);
    ParseNatToString(item.quantity);
  }
}
