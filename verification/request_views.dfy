/** The request list page and the status-change endpoint
    (store/request/views.py), over the stored requests and items. */
module RequestViews {
  import opened Wrappers
  import opened Requests

  /** The status the list shows when the query names none. */
  const DefaultFilter: string := "candidate"

  /** requests_view: the shown filter (the query's status, "candidate" when
      absent) and the items whose request's stored status code equals it. */
  function RequestsView(requests: map<nat, Request>, items: map<nat, RequestItem>, query: Option<string>)
    : (r: (string, set<nat>))
    requires forall id :: id in items ==> items[id].request in requests
    ensures query.None? ==> r.0 == DefaultFilter
    ensures query.Some? ==> r.0 == query.value
    ensures r.1 <= items.Keys
    ensures forall id :: id in items ==> (id in r.1 <==> StatusCode(requests[items[id].request].status) == r.0)
    ensures r.0 !in StatusCodes ==> r.1 == {}
  {
    var status := query.GetOr(DefaultFilter);
    (status, set id | id in items && StatusCode(requests[items[id].request].status) == status)
  }

  datatype StatusReply = NotFound | Reply(success: bool)

  /** change_status: a missing item is a 404; a status code among the three
      accepted ones is written to the item's request and reported as
      success; anything else (a missing code included) is reported as
      failure and changes nothing. */
  function ChangeStatus(requests: map<nat, Request>, items: map<nat, RequestItem>, itemId: nat,
                        code: Option<string>): (r: (map<nat, Request>, StatusReply))
    requires forall id :: id in items ==> items[id].request in requests
    ensures itemId !in items ==> r == (requests, NotFound)
    ensures itemId in items ==> r.1 == Reply(code.Some? && code.value in StatusCodes)
    ensures r.1 != Reply(true) ==> r.0 == requests
    ensures r.0.Keys == requests.Keys
    ensures r.1 == Reply(true) ==>
      var rid := items[itemId].request;
      && StatusCode(r.0[rid].status) == code.value
      && r.0[rid].(status := requests[rid].status) == requests[rid]
      && (forall other :: other in requests && other != rid ==> r.0[other] == requests[other])
  {
    if itemId !in items then (requests, NotFound)
    else
      var rid := items[itemId].request;
      match (if code.Some? then StatusFromCode(code.value) else None)
      case None => (requests, Reply(false))
      case Some(s) => (requests[rid := requests[rid].(status := s)], Reply(true))
  }

  /** After a successful status change, the changed item, and every other
      item of the same request, is listed under the new status and under
      no other. */
  lemma ChangedItemIsListedUnderNewStatus(requests: map<nat, Request>, items: map<nat, RequestItem>,
                                          itemId: nat, code: string, other: string, sibling: nat)
    requires forall id :: id in items ==> items[id].request in requests
    requires ChangeStatus(requests, items, itemId, Some(code)).1 == Reply(true)
    requires sibling in items && items[sibling].request == items[itemId].request
    ensures var requests' := ChangeStatus(requests, items, itemId, Some(code)).0;
      && sibling in RequestsView(requests', items, Some(code)).1
      && (other != code ==> sibling !in RequestsView(requests', items, Some(other)).1)
  {
  }
}
