/**
 * The order-list actions of client/src/components/admin/orders/Actions.js: `filterOrder`
 * maps a display label to an order status and dispatches the matching orders between
 * two loading dispatches; `editOrderReq` opens the update modal. The `getAllOrder`
 * request is a parameter: what it answered, or that it threw.
 */
module OrderActions {
  import opened Wrappers

  /** An order as the list shows it; only `status` matters to the filter. */
  datatype Order = Order(id: string, status: string)

  /** What `getAllOrder()` gave: a response with or without an `Orders` field, or an exception. */
  datatype Fetched = Answered(orders: Option<seq<Order>>) | Threw

  /** The actions the order context receives. */
  datatype Dispatch =
    | Loading(payload: bool)
    | FetchOrderAndChangeState(orders: seq<Order>)
    | UpdateOrderModalOpen(oId: string, status: string)

  const NotProcessed := "Not processed"
  const Processing := "Processing"
  const Shipped := "Shipped"
  const Delivered := "Delivered"
  const Cancelled := "Cancelled"

  const AllLabel := "All"
  const UnderScrutinyLabel := "Under Scrutiny"
  const RequestAcceptedLabel := "Request Accepted"
  const ExpiredLabel := "Expired"

  /** The status a dropdown label selects; None for "All" and for any label not listed. */
  function LabelStatus(filterType: string): (r: Option<string>)
    ensures filterType == AllLabel ==> r.None?
  {
    if filterType == NotProcessed then Some(NotProcessed)
    else if filterType == UnderScrutinyLabel then Some(Processing)
    else if filterType == RequestAcceptedLabel then Some(Shipped)
    else if filterType == ExpiredLabel then Some(Delivered)
    else if filterType == Cancelled then Some(Cancelled)
    else None
  }

  /** The dropdown labels and the statuses they select, as one table. */
  lemma LabelTable()
    ensures LabelStatus(NotProcessed) == Some(NotProcessed)
    ensures LabelStatus(UnderScrutinyLabel) == Some(Processing)
    ensures LabelStatus(RequestAcceptedLabel) == Some(Shipped)
    ensures LabelStatus(ExpiredLabel) == Some(Delivered)
    ensures LabelStatus(Cancelled) == Some(Cancelled)
    ensures LabelStatus(AllLabel).None?
  {
  }

  /** Only the five listed labels select a status. */
  lemma LabelStatusDomain(filterType: string)
    ensures LabelStatus(filterType).Some? <==>
              filterType in [NotProcessed, UnderScrutinyLabel, RequestAcceptedLabel, ExpiredLabel, Cancelled]
  {
  }

  /** `orders.filter((item) => item.status === status)`. */
  function FilterByStatus(orders: seq<Order>, status: string): (r: seq<Order>)
    ensures |r| <= |orders|
    ensures forall k :: 0 <= k < |r| ==> r[k].status == status
  {
    if orders == [] then []
    else
      var rest := FilterByStatus(orders[1..], status);
      if orders[0].status == status then [orders[0]] + rest else rest
  }

  /** `a` is `b` with some elements left out, the others kept in their order. */
  predicate IsSubsequence(a: seq<Order>, b: seq<Order>)
    decreases |b|
  {
    if a == [] then true
    else if b == [] then false
    else if a[0] == b[0] then IsSubsequence(a[1..], b[1..])
    else IsSubsequence(a, b[1..])
  }

  /** The filter keeps the orders it selects in their original order. */
  lemma {:induction false} FilterKeepsOrder(orders: seq<Order>, status: string)
    ensures IsSubsequence(FilterByStatus(orders, status), orders)
  {
    if orders != [] {
      FilterKeepsOrder(orders[1..], status);
      var rest := FilterByStatus(orders[1..], status);
      if orders[0].status == status {
        assert ([orders[0]] + rest)[1..] == rest;
      } else if rest != [] {
        assert rest[0].status == status;
      }
    }
  }

  /**
   * The filter keeps exactly the orders with the selected status, each as often as it
   * occurs in the list.
   */
  lemma {:induction false} FilterExact(orders: seq<Order>, status: string, o: Order)
    ensures multiset(FilterByStatus(orders, status))[o] == if o.status == status then multiset(orders)[o] else 0
  {
    if orders != [] {
      FilterExact(orders[1..], status, o);
      assert orders == [orders[0]] + orders[1..];
    }
  }

  /** An order is in the result exactly when it is in the list and has the selected status. */
  lemma FilterMembership(orders: seq<Order>, status: string, o: Order)
    ensures o in FilterByStatus(orders, status) <==> o in orders && o.status == status
  {
    FilterExact(orders, status, o);
  }

  /** The list `filterOrder` dispatches for a label, given the list in the response. */
  function Filtered(filterType: string, orders: seq<Order>): (r: seq<Order>)
    ensures LabelStatus(filterType).None? ==> r == orders
  {
    match LabelStatus(filterType)
    case None => orders
    case Some(status) => FilterByStatus(orders, status)
  }

  /** What `filterOrder` dispatches between the two loading actions. */
  function Payload(filterType: string, fetched: Fetched): (r: seq<Order>)
    ensures fetched.Threw? || fetched.orders.None? ==> r == []
  {
    match fetched
    case Answered(Some(orders)) => Filtered(filterType, orders)
    case _ => []
  }

  /** With a label that selects a status, the payload is the orders of the response with that status. */
  lemma PayloadSelects(filterType: string, orders: seq<Order>, o: Order)
    requires LabelStatus(filterType).Some?
    ensures o in Payload(filterType, Answered(Some(orders))) <==> o in orders && o.status == LabelStatus(filterType).value
    ensures IsSubsequence(Payload(filterType, Answered(Some(orders))), orders)
  {
    FilterMembership(orders, LabelStatus(filterType).value, o);
    FilterKeepsOrder(orders, LabelStatus(filterType).value);
  }

  /**
   * `filterOrder`: loading on, the filtered orders (or [] when the response has no
   * `Orders` or the request threw), loading off; the dropdown is toggled.
   */
  method FilterOrder(filterType: string, fetched: Fetched, dropdown: bool) returns (trace: seq<Dispatch>, newDropdown: bool)
    ensures trace == [Loading(true), FetchOrderAndChangeState(Payload(filterType, fetched)), Loading(false)]
    ensures newDropdown == !dropdown
  {
    trace := [Loading(true)];
    var filteredData: seq<Order>;
    match fetched {
      case Answered(Some(orders)) =>
        if filterType == AllLabel {
          filteredData := orders;
        } else if filterType == NotProcessed {
          filteredData := FilterByStatus(orders, NotProcessed);
        } else if filterType == UnderScrutinyLabel {
          filteredData := FilterByStatus(orders, Processing);
        } else if filterType == RequestAcceptedLabel {
          filteredData := FilterByStatus(orders, Shipped);
        } else if filterType == ExpiredLabel {
          filteredData := FilterByStatus(orders, Delivered);
        } else if filterType == Cancelled {
          filteredData := FilterByStatus(orders, Cancelled);
        } else {
          filteredData := orders;
        }
      case Answered(None) =>
        filteredData := [];
      case Threw =>
        filteredData := [];
    }
    trace := trace + [FetchOrderAndChangeState(filteredData)];
    trace := trace + [Loading(false)];
    newDropdown := !dropdown;
  }

  /** `editOrderReq`: opens the update modal for the order only when `type` is truthy. */
  method EditOrderReq(oId: string, typeTruthy: bool, status: string) returns (trace: seq<Dispatch>)
    ensures typeTruthy <==> trace != []
    ensures typeTruthy ==> trace == [UpdateOrderModalOpen(oId, status)]
  {
    trace := [];
    if typeTruthy {
      trace := trace + [UpdateOrderModalOpen(oId, status)];
    }
  }
}
