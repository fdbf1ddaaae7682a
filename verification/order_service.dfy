/** Order placement. The repository and the event publisher are modelled as
    two sequences threaded through a pure function; the random order number
    and the inventory service's answer (an array of responses obtained over
    HTTP) are parameters. */
module OrderService {
  import opened Decimals
  import opened InventoryService

  /** One line of the incoming request. Its `id` is accepted but never read. */
  datatype OrderLineItemsDto = OrderLineItemsDto(id: int, skuCode: string, price: Decimal, quantity: int)

  datatype OrderRequest = OrderRequest(orderLineItemsDtoList: seq<OrderLineItemsDto>)

  /** A line item owned by an order. */
  datatype OrderLineItems = OrderLineItems(skuCode: string, price: Decimal, quantity: int)

  datatype Order = Order(orderNumber: string, orderLineItemsList: seq<OrderLineItems>)

  datatype OrderPlacedEvent = OrderPlacedEvent(orderNumber: string)

  /** What placing an order can do to the outside world, in the order done. */
  datatype Effect = Saved(order: Order) | Published(event: OrderPlacedEvent)

  /** The order repository's contents and the events published so far. */
  datatype State = State(orders: seq<Order>, events: seq<OrderPlacedEvent>)

  /** A Java method either returns a value or throws; here the only exception
      is the IllegalArgumentException for a stock shortage. */
  datatype Outcome = Returned(value: string) | Thrown(message: string)

  /** Everything one call of `placeOrder` determines: its outcome, the SKU
      list it sent to the inventory service, the effects it performed and the
      resulting state. */
  datatype Placement = Placement(outcome: Outcome, query: seq<string>, effects: seq<Effect>, after: State)

  const OrderPlacedMessage: string := "Order Placed"
  const NotInStockMessage: string := "Product is not in stock, please try again later"

  /** `mapToDto`: copies SKU code, price and quantity; the DTO's id is dropped. */
  function MapToDto(dto: OrderLineItemsDto): (item: OrderLineItems)
    ensures item.skuCode == dto.skuCode && item.price == dto.price && item.quantity == dto.quantity
  {
    OrderLineItems(dto.skuCode, dto.price, dto.quantity)
  }

  /** The DTO's id plays no part in the line item it maps to. */
  lemma MapToDtoIgnoresId(dto: OrderLineItemsDto, otherId: int)
    ensures MapToDto(dto.(id := otherId)) == MapToDto(dto)
  {
  }

  /** The request's DTOs mapped one by one, keeping their number and order. */
  function MapLineItems(dtos: seq<OrderLineItemsDto>): (items: seq<OrderLineItems>)
    ensures |items| == |dtos|
    ensures forall i :: 0 <= i < |dtos| ==>
              items[i].skuCode == dtos[i].skuCode
              && items[i].price == dtos[i].price
              && items[i].quantity == dtos[i].quantity
  {
    if dtos == [] then [] else [MapToDto(dtos[0])] + MapLineItems(dtos[1..])
  }

  /** The SKU code of every line item, in order, duplicates kept. */
  function SkuCodes(items: seq<OrderLineItems>): (codes: seq<string>)
    ensures |codes| == |items|
    ensures forall i :: 0 <= i < |items| ==> codes[i] == items[i].skuCode
  {
    if items == [] then [] else [items[0].skuCode] + SkuCodes(items[1..])
  }

  /** `Arrays.stream(responses).allMatch(InventoryResponse::isInStock)`,
      evaluated left to right. */
  function AllMatchInStock(responses: seq<InventoryResponse>): (all: bool)
    ensures all <==> forall i :: 0 <= i < |responses| ==> responses[i].isInStock
  {
    if responses == [] then true
    else if !responses[0].isInStock then false
    else AllMatchInStock(responses[1..])
  }

  function Perform(s: State, e: Effect): State
  {
    match e
    case Saved(o) => s.(orders := s.orders + [o])
    case Published(ev) => s.(events := s.events + [ev])
  }

  /** The state after performing `effects` in order. */
  function PerformAll(s: State, effects: seq<Effect>): State
    decreases |effects|
  {
    if effects == [] then s else PerformAll(Perform(s, effects[0]), effects[1..])
  }

  /** The SKU list `placeOrder` sends to the inventory service for a request. */
  function Query(request: OrderRequest): (codes: seq<string>)
    ensures |codes| == |request.orderLineItemsDtoList|
    ensures forall i :: 0 <= i < |codes| ==> codes[i] == request.orderLineItemsDtoList[i].skuCode
  {
    SkuCodes(MapLineItems(request.orderLineItemsDtoList))
  }

  /** `OrderService.placeOrder`. The order number is chosen before the
      inventory is consulted; `inventoryResponses` is whatever the inventory
      service answered for `Query(request)`. The order is committed when every
      element of that answer is in stock; the answer is not compared with the
      SKUs requested. */
  function PlaceOrder(s: State, request: OrderRequest, orderNumber: string,
                      inventoryResponses: seq<InventoryResponse>): (p: Placement)
    ensures p.query == Query(request)
    ensures p.outcome.Returned? <==> forall i :: 0 <= i < |inventoryResponses| ==> inventoryResponses[i].isInStock
    ensures p.after == PerformAll(s, p.effects)
    ensures p.outcome.Returned? ==>
              var order := Order(orderNumber, MapLineItems(request.orderLineItemsDtoList));
              && p.outcome.value == OrderPlacedMessage
              && p.effects == [Saved(order), Published(OrderPlacedEvent(orderNumber))]
              && p.after.orders == s.orders + [order]
              && p.after.events == s.events + [OrderPlacedEvent(orderNumber)]
    ensures p.outcome.Thrown? ==>
              p.outcome.message == NotInStockMessage && p.effects == [] && p.after == s
  {
    var order := Order(orderNumber, MapLineItems(request.orderLineItemsDtoList));
    var skuCodes := SkuCodes(order.orderLineItemsList);
    if AllMatchInStock(inventoryResponses) then
      var effects := [Saved(order), Published(OrderPlacedEvent(order.orderNumber))];
      var saved := Perform(s, effects[0]);
      assert PerformAll(s, effects) == PerformAll(saved, effects[1..]);
      assert PerformAll(saved, effects[1..]) == PerformAll(Perform(saved, effects[1]), []);
      Placement(Returned(OrderPlacedMessage), skuCodes, effects, PerformAll(s, effects))
    else
      Placement(Thrown(NotInStockMessage), skuCodes, [], s)
  }

  /** An empty inventory answer commits whatever was requested: `allMatch`
      over nothing is true, so SKUs the inventory does not know are not
      treated as unavailable. */
  lemma EmptyAnswerCommits(s: State, request: OrderRequest, orderNumber: string)
    ensures var p := PlaceOrder(s, request, orderNumber, []);
            && p.outcome == Returned(OrderPlacedMessage)
            && |p.after.orders| == |s.orders| + 1
            && p.after.events == s.events + [OrderPlacedEvent(orderNumber)]
  {
  }

  /** The decision depends on the stock flags of the answer only: two calls
      with the same answer decide alike whatever the line items, their prices
      and quantities, the order number or the prior state. */
  lemma DecisionDependsOnlyOnFlags(s1: State, s2: State, r1: OrderRequest, r2: OrderRequest,
                                   n1: string, n2: string,
                                   a1: seq<InventoryResponse>, a2: seq<InventoryResponse>)
    requires |a1| == |a2|
    requires forall i :: 0 <= i < |a1| ==> a1[i].isInStock == a2[i].isInStock
    ensures PlaceOrder(s1, r1, n1, a1).outcome == PlaceOrder(s2, r2, n2, a2).outcome
  {
  }

  /** A fail-closed rule, stated only for contrast with `PlaceOrder`, which
      does not implement it: every requested SKU has an entry in the answer
      and all entries for it are in stock. */
  predicate FailClosedAvailable(skuCodes: seq<string>, responses: seq<InventoryResponse>)
  {
    forall i :: 0 <= i < |skuCodes| ==>
      (exists j :: 0 <= j < |responses| && responses[j].skuCode == skuCodes[i])
      && (forall j :: 0 <= j < |responses| && responses[j].skuCode == skuCodes[i] ==> responses[j].isInStock)
  }

  /** Contrast with the fail-closed rule: for every non-empty request an empty
      answer is rejected by that rule but committed by `placeOrder`. */
  lemma AllMatchIsNotFailClosed(s: State, request: OrderRequest, orderNumber: string)
    requires request.orderLineItemsDtoList != []
    ensures !FailClosedAvailable(Query(request), [])
    ensures PlaceOrder(s, request, orderNumber, []).outcome.Returned?
  {
  }

  /** End to end against the inventory service's own answer for the SKUs the
      order sends: the order commits exactly when every stored inventory
      record whose code was requested has a positive quantity. Requested
      codes with no record at all do not stop the order. */
  lemma PlaceAgainstInventory(s: State, request: OrderRequest, orderNumber: string, store: seq<Inventory>)
    ensures PlaceOrder(s, request, orderNumber, IsInStock(store, Query(request))).outcome.Returned?
            <==> forall k :: 0 <= k < |store| && store[k].skuCode in Query(request) ==> store[k].quantity > 0
  {
    var codes := Query(request);
    var responses := IsInStock(store, codes);
    var found := FindBySkuCodeIn(store, codes);
    if forall k :: 0 <= k < |store| && store[k].skuCode in codes ==> store[k].quantity > 0 {
      forall i | 0 <= i < |responses| ensures responses[i].isInStock {
        assert found[i] in found;
        var k :| 0 <= k < |store| && store[k] == found[i];
      }
    } else {
      var k :| 0 <= k < |store| && store[k].skuCode in codes && store[k].quantity <= 0;
      assert store[k] in found;
      var i :| 0 <= i < |found| && found[i] == store[k];
      assert !responses[i].isInStock;
    }
  }
}
