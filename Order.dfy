/** Order.java: the aggregate root. A small state machine whose `status`
    only moves from PENDING to CONFIRMED, and which records the domain
    events it raises in a private buffer until the caller clears it. */
module OrderAggregate {
  import opened Common
  import opened JavaStrings
  import opened Domain

  const CustomerIdRequired: string := "Customer ID cannot be null or empty"
  const OrderDateRequired: string := "Order date cannot be null"
  const ItemsRequired: string := "Items cannot be null"
  const StatusRequired: string := "Status cannot be null"
  const ItemRequired: string := "Order item cannot be null"
  const NotPending: string := "Order cannot be confirmed unless it is in PENDING status."

  /** `s` with its first element equal to `x` taken out (`List.remove`). */
  function RemoveFirst(s: seq<OrderItem>, x: OrderItem): (r: seq<OrderItem>)
    ensures |r| == if x in s then |s| - 1 else |s|
    ensures forall y :: y in r ==> y in s
  {
    if s == [] then []
    else if s[0] == x then s[1..]
    else [s[0]] + RemoveFirst(s[1..], x)
  }

  /** The position of the first element equal to `x`. */
  function FirstIndex(s: seq<OrderItem>, x: OrderItem): (i: nat)
    requires x in s
    ensures i < |s| && s[i] == x && x !in s[..i]
  {
    if s[0] == x then 0 else 1 + FirstIndex(s[1..], x)
  }

  /** `remove` of an absent item leaves the list as it is. */
  lemma {:induction false} RemoveFirstAbsent(s: seq<OrderItem>, x: OrderItem)
    requires x !in s
    ensures RemoveFirst(s, x) == s
  {
    if s != [] {
      assert x !in s[1..];
      RemoveFirstAbsent(s[1..], x);
    }
  }

  /** `remove` of a present item takes out exactly its first occurrence. */
  lemma {:induction false} RemoveFirstPresent(s: seq<OrderItem>, x: OrderItem)
    requires x in s
    ensures RemoveFirst(s, x) == s[..FirstIndex(s, x)] + s[FirstIndex(s, x) + 1..]
  {
    if s[0] != x {
      var j := FirstIndex(s[1..], x);
      RemoveFirstPresent(s[1..], x);
      assert s[..j + 1] == [s[0]] + s[1..][..j];
      assert s[j + 2..] == s[1..][j + 1..];
    }
  }

  /** As multisets, `remove` takes away one copy of the item, if any. */
  lemma {:induction false} RemoveFirstMultiset(s: seq<OrderItem>, x: OrderItem)
    ensures multiset(RemoveFirst(s, x)) == multiset(s) - multiset{x}
  {
    if s != [] {
      assert s == [s[0]] + s[1..];
      if s[0] == x {
        assert RemoveFirst(s, x) == s[1..];
      } else {
        RemoveFirstMultiset(s[1..], x);
        assert RemoveFirst(s, x) == [s[0]] + RemoveFirst(s[1..], x);
      }
    }
  }

  /** The moves `status` may make: stay, or go from PENDING to CONFIRMED. */
  predicate StatusMove(from: OrderStatus, to: OrderStatus) {
    from == to || (from == Pending && to == Confirmed)
  }

  /** A Java `List<OrderItem>`: a mutable list that several orders (and
      the caller who built it) may share. */
  class ItemList {
    var elems: seq<OrderItem>

    constructor (elems: seq<OrderItem>)
      ensures this.elems == elems
    {
      this.elems := elems;
    }

    method Add(item: OrderItem)
      modifies this
      ensures elems == old(elems) + [item]
    {
      elems := elems + [item];
    }

    method Remove(item: OrderItem) returns (removed: bool)
      modifies this
      ensures removed == (item in old(elems))
      ensures elems == RemoveFirst(old(elems), item)
    {
      removed := item in elems;
      elems := RemoveFirst(elems, item);
    }
  }

  /** The exception the constructor throws for these arguments, checked
      in the constructor's order; `None` when it accepts them. */
  function ConstructionError(customerId: Option<string>, orderDate: Option<Timestamp>,
                             items: ItemList?, status: Option<OrderStatus>): (r: Option<Error>)
    ensures r.None? <==>
      customerId.Some? && !AllSpace(customerId.value) && orderDate.Some? && items != null && status.Some?
    ensures (customerId.None? || AllSpace(customerId.value)) ==> r == Some(IllegalArgument(CustomerIdRequired))
    ensures (customerId.Some? && !AllSpace(customerId.value) && orderDate.None?) ==> r == Some(IllegalArgument(OrderDateRequired))
    ensures (customerId.Some? && !AllSpace(customerId.value) && orderDate.Some? && items == null) ==> r == Some(IllegalArgument(ItemsRequired))
    ensures (customerId.Some? && !AllSpace(customerId.value) && orderDate.Some? && items != null && status.None?) ==> r == Some(IllegalArgument(StatusRequired))
  {
    if customerId.None? || (TrimEmptyIff(customerId.value); Trim(customerId.value) == []) then Some(IllegalArgument(CustomerIdRequired))
    else if orderDate.None? then Some(IllegalArgument(OrderDateRequired))
    else if items == null then Some(IllegalArgument(ItemsRequired))
    else if status.None? then Some(IllegalArgument(StatusRequired))
    else None
  }

  class Order {
    const orderNumber: Option<OrderNumber>
    const customerId: string
    const orderDate: Timestamp
    // the caller's list itself, not a copy
    const items: ItemList
    var status: OrderStatus
    var domainEvents: seq<DomainEvent>

    /** What the constructor guarantees of every order. */
    predicate Valid() {
      !AllSpace(customerId)
    }

    /** The constructor once its checks have passed: it keeps the given
        status, whatever it is, and seeds one created event carrying no id. */
    constructor (orderNumber: Option<OrderNumber>, customerId: string, orderDate: Timestamp,
                 items: ItemList, status: OrderStatus)
      requires !AllSpace(customerId)
      ensures Valid()
      ensures this.orderNumber == orderNumber && this.customerId == customerId
      ensures this.orderDate == orderDate && this.items == items && this.status == status
      ensures domainEvents == [OrderCreated(None, orderNumber)]
    {
      this.orderNumber := orderNumber;
      this.customerId := customerId;
      this.orderDate := orderDate;
      this.items := items;
      this.status := status;
      domainEvents := [OrderCreated(None, orderNumber)];
    }

    /** `new Order(...)` with its argument checks: a null or blank customer
        id, a null date, null items or a null status throw; the order
        number may be null. */
    static method Create(orderNumber: Option<OrderNumber>, customerId: Option<string>,
                         orderDate: Option<Timestamp>, items: ItemList?, status: Option<OrderStatus>)
      returns (r: Result<Order>)
      ensures r.Err? <==> ConstructionError(customerId, orderDate, items, status).Some?
      ensures r.Err? ==> r.error == ConstructionError(customerId, orderDate, items, status).value
      ensures r.Ok? ==>
        && fresh(r.value) && r.value.Valid()
        && r.value.orderNumber == orderNumber && r.value.customerId == customerId.value
        && r.value.orderDate == orderDate.value && r.value.items == items
        && r.value.status == status.value
        && r.value.domainEvents == [OrderCreated(None, orderNumber)]
    {
      var error := ConstructionError(customerId, orderDate, items, status);
      if error.Some? {
        return Err(error.value);
      }
      var order := new Order(orderNumber, customerId.value, orderDate.value, items, status.value);
      return Ok(order);
    }

    /** The buffered events, read-only. */
    method GetDomainEvents() returns (events: seq<DomainEvent>)
      ensures events == domainEvents
    {
      events := domainEvents;
    }

    method ClearDomainEvents()
      modifies this`domainEvents
      ensures domainEvents == []
    {
      domainEvents := [];
    }

    /** Appends the item to the (shared) list and raises one item-added event. */
    method AddItem(item: Option<OrderItem>, orderId: Option<int>, itemId: Option<int>) returns (r: Outcome)
      modifies items, this`domainEvents
      ensures item.None? ==>
        r == Fail(IllegalArgument(ItemRequired))
        && items.elems == old(items.elems) && domainEvents == old(domainEvents)
      ensures item.Some? ==>
        && r == Pass
        && items.elems == old(items.elems) + [item.value]
        && domainEvents == old(domainEvents)
           + [OrderItemAdded(orderId, itemId, item.value.productNumber, item.value.quantity)]
    {
      if item.None? {
        return Fail(IllegalArgument(ItemRequired));
      }
      items.Add(item.value);
      domainEvents := domainEvents + [OrderItemAdded(orderId, itemId, item.value.productNumber, item.value.quantity)];
      return Pass;
    }

    /** Removes the first equal item, if any; raises no event. */
    method RemoveItem(item: Option<OrderItem>) returns (r: Outcome)
      modifies items
      ensures item.None? ==> r == Fail(IllegalArgument(ItemRequired)) && items.elems == old(items.elems)
      ensures item.Some? ==> r == Pass && items.elems == RemoveFirst(old(items.elems), item.value)
    {
      if item.None? {
        return Fail(IllegalArgument(ItemRequired));
      }
      var _ := items.Remove(item.value);
      return Pass;
    }

    /** PENDING -> CONFIRMED, raising one confirmed event at the end of the
        buffer; any other status throws and changes nothing. */
    method Confirm(orderId: Option<int>) returns (r: Outcome)
      modifies this`status, this`domainEvents
      ensures StatusMove(old(status), status)
      ensures old(status) != Pending ==>
        r == Fail(IllegalState(NotPending)) && status == old(status) && domainEvents == old(domainEvents)
      ensures old(status) == Pending ==>
        r == Pass && status == Confirmed
        && domainEvents == old(domainEvents) + [OrderConfirmed(orderId, orderNumber)]
    {
      if status != Pending {
        return Fail(IllegalState(NotPending));
      }
      status := Confirmed;
      domainEvents := domainEvents + [OrderConfirmed(orderId, orderNumber)];
      return Pass;
    }
  }
}
