/** OrderRepositoryAdapter.java over an in-memory table. Rows are kept in
    storage order; at most one row carries a given order number, so the
    table is also a map keyed by order number. `save` looks the number up
    and reuses the existing row's id, which turns the JPA save into an
    update instead of an insert. */
module Persistence {
  import opened Common
  import opened JavaStrings
  import opened Domain
  import opened OrderAggregate

  /** The columns of an order row other than its id. */
  datatype OrderData = OrderData(
    orderNumber: OrderNumber,
    customerId: string,
    orderDate: Timestamp,
    items: seq<OrderItem>,
    status: OrderStatus)

  datatype OrderRow = OrderRow(id: nat, data: OrderData)

  /** The first row holding order number `n`. */
  function IndexOfNumber(rows: seq<OrderRow>, n: OrderNumber): (r: Option<nat>)
    ensures r.None? <==> forall i :: 0 <= i < |rows| ==> rows[i].data.orderNumber != n
    ensures r.Some? ==> r.value < |rows| && rows[r.value].data.orderNumber == n
    ensures r.Some? ==> forall j :: 0 <= j < r.value ==> rows[j].data.orderNumber != n
  {
    if rows == [] then None
    else if rows[0].data.orderNumber == n then Some(0)
    else match IndexOfNumber(rows[1..], n)
      case None => None
      case Some(i) => Some(i + 1)
  }

  /** The first row holding id `id`. */
  function IndexOfId(rows: seq<OrderRow>, id: nat): (r: Option<nat>)
    ensures r.None? <==> forall i :: 0 <= i < |rows| ==> rows[i].id != id
    ensures r.Some? ==> r.value < |rows| && rows[r.value].id == id
    ensures r.Some? ==> forall j :: 0 <= j < r.value ==> rows[j].id != id
  {
    if rows == [] then None
    else if rows[0].id == id then Some(0)
    else match IndexOfId(rows[1..], id)
      case None => None
      case Some(i) => Some(i + 1)
  }

  /** `orderJpaRepository.findByOrderNumber`: the row with number `n`, if any. */
  function Lookup(rows: seq<OrderRow>, n: OrderNumber): (r: Option<OrderRow>)
    ensures r.Some? <==> exists i :: 0 <= i < |rows| && rows[i].data.orderNumber == n
    ensures r.Some? ==> r.value in rows && r.value.data.orderNumber == n
  {
    match IndexOfNumber(rows, n)
    case None => None
    case Some(i) => Some(rows[i])
  }

  predicate NumbersUnique(rows: seq<OrderRow>) {
    forall i, j :: 0 <= i < j < |rows| ==> rows[i].data.orderNumber != rows[j].data.orderNumber
  }

  predicate IdsUnique(rows: seq<OrderRow>) {
    forall i, j :: 0 <= i < j < |rows| ==> rows[i].id != rows[j].id
  }

  /** The table's invariant: one row per order number, distinct ids below
      the next generated one, and only customer ids an `Order` accepts. */
  predicate TableValid(rows: seq<OrderRow>, nextId: nat) {
    && NumbersUnique(rows)
    && IdsUnique(rows)
    && (forall i :: 0 <= i < |rows| ==> rows[i].id < nextId)
    && (forall i :: 0 <= i < |rows| ==> !AllSpace(rows[i].data.customerId))
  }

  /** The effect of `save` on the table: update the row with the same
      order number in place, keeping its id, or append a row with a newly
      generated id. */
  function Upsert(rows: seq<OrderRow>, nextId: nat, data: OrderData): (r: (seq<OrderRow>, nat))
    ensures r.1 == nextId <==> Lookup(rows, data.orderNumber).Some?
    ensures nextId <= r.1 <= nextId + 1 && |r.0| == |rows| + (r.1 - nextId)
    ensures forall i :: 0 <= i < |rows| && rows[i].data.orderNumber != data.orderNumber ==> r.0[i] == rows[i]
  {
    match IndexOfNumber(rows, data.orderNumber)
    case Some(i) => (rows[i := OrderRow(rows[i].id, data)], nextId)
    case None => (rows + [OrderRow(nextId, data)], nextId + 1)
  }

  /** `save` keeps the table valid: in particular at most one row per
      order number. */
  lemma UpsertKeepsTableValid(rows: seq<OrderRow>, nextId: nat, data: OrderData)
    requires TableValid(rows, nextId) && !AllSpace(data.customerId)
    ensures TableValid(Upsert(rows, nextId, data).0, Upsert(rows, nextId, data).1)
  {
  }

  /** In a table with one row per number, looking up a row's number
      finds that row. */
  lemma IndexOfNumberAt(rows: seq<OrderRow>, i: nat)
    requires NumbersUnique(rows) && i < |rows|
    ensures IndexOfNumber(rows, rows[i].data.orderNumber) == Some(i)
  {
    var r := IndexOfNumber(rows, rows[i].data.orderNumber);
    assert r.Some?;
  }

  lemma IndexOfIdAt(rows: seq<OrderRow>, i: nat)
    requires IdsUnique(rows) && i < |rows|
    ensures IndexOfId(rows, rows[i].id) == Some(i)
  {
    var r := IndexOfId(rows, rows[i].id);
    assert r.Some?;
  }

  /** Once the table has one row per number, `Lookup` of a number that
      some row holds returns that row. */
  lemma LookupAt(rows: seq<OrderRow>, i: nat)
    requires NumbersUnique(rows) && i < |rows|
    ensures Lookup(rows, rows[i].data.orderNumber) == Some(rows[i])
  {
    IndexOfNumberAt(rows, i);
  }

  /** `save` of a stored number updates that row and keeps its id; of an
      unseen number inserts one row with a new id. Afterwards the number
      finds the saved data. */
  lemma UpsertSpec(rows: seq<OrderRow>, nextId: nat, data: OrderData)
    requires TableValid(rows, nextId) && !AllSpace(data.customerId)
    ensures var (rows', nextId') := Upsert(rows, nextId, data);
      match Lookup(rows, data.orderNumber)
      case Some(prev) =>
        |rows'| == |rows| && nextId' == nextId && Lookup(rows', data.orderNumber) == Some(OrderRow(prev.id, data))
      case None =>
        |rows'| == |rows| + 1 && nextId' == nextId + 1 && Lookup(rows', data.orderNumber) == Some(OrderRow(nextId, data))
          && (forall i :: 0 <= i < |rows| ==> rows[i].id != nextId)
  {
    UpsertKeepsTableValid(rows, nextId, data);
    var rows' := Upsert(rows, nextId, data).0;
    match IndexOfNumber(rows, data.orderNumber)
    case Some(i) => LookupAt(rows', i);
    case None => LookupAt(rows', |rows|);
  }

  /** `save` leaves every other order number's row as it was. */
  lemma UpsertKeepsOthers(rows: seq<OrderRow>, nextId: nat, data: OrderData, m: OrderNumber)
    requires TableValid(rows, nextId) && !AllSpace(data.customerId)
    requires m != data.orderNumber
    ensures Lookup(Upsert(rows, nextId, data).0, m) == Lookup(rows, m)
  {
    UpsertKeepsTableValid(rows, nextId, data);
    var rows' := Upsert(rows, nextId, data).0;
    if k :| 0 <= k < |rows| && rows[k].data.orderNumber == m {
      LookupAt(rows, k);
      assert rows'[k] == rows[k];
      LookupAt(rows', k);
    } else {
      assert forall j :: 0 <= j < |rows'| ==> rows'[j].data.orderNumber != m;
    }
  }

  /** The table with every row numbered `n` taken out. */
  function RemoveNumber(rows: seq<OrderRow>, n: OrderNumber): (r: seq<OrderRow>)
    ensures forall x :: x in r ==> x in rows && x.data.orderNumber != n
  {
    if rows == [] then []
    else (if rows[0].data.orderNumber == n then [] else [rows[0]]) + RemoveNumber(rows[1..], n)
  }

  /** Deleting keeps the table valid. */
  lemma {:induction false} RemoveNumberKeepsTableValid(rows: seq<OrderRow>, nextId: nat, n: OrderNumber)
    requires TableValid(rows, nextId)
    ensures TableValid(RemoveNumber(rows, n), nextId)
  {
    if rows != [] {
      RemoveNumberKeepsTableValid(rows[1..], nextId, n);
      var rest := RemoveNumber(rows[1..], n);
      forall x | x in rest
        ensures x.data.orderNumber != rows[0].data.orderNumber && x.id != rows[0].id
      {
        var k :| 0 <= k < |rows[1..]| && rows[1..][k] == x;
        assert rows[k + 1] == x;
      }
    }
  }

  /** `Lookup` on a table whose first row carries the number. */
  lemma LookupHead(rows: seq<OrderRow>, m: OrderNumber)
    requires rows != [] && rows[0].data.orderNumber == m
    ensures Lookup(rows, m) == Some(rows[0])
  {
  }

  /** `Lookup` skips a first row with another number. */
  lemma LookupTail(rows: seq<OrderRow>, m: OrderNumber)
    requires rows != [] && rows[0].data.orderNumber != m
    ensures Lookup(rows, m) == Lookup(rows[1..], m)
  {
    assert IndexOfNumber(rows, m) == match IndexOfNumber(rows[1..], m) case None => None case Some(i) => Some(i + 1);
  }

  /** `deleteByOrderNumber` removes the row with that number and no other. */
  lemma {:induction false} RemoveNumberSpec(rows: seq<OrderRow>, n: OrderNumber, m: OrderNumber)
    ensures Lookup(RemoveNumber(rows, n), n).None?
    ensures m != n ==> Lookup(RemoveNumber(rows, n), m) == Lookup(rows, m)
  {
    if rows != [] && m != n {
      RemoveNumberSpec(rows[1..], n, m);
      var rest := RemoveNumber(rows[1..], n);
      if rows[0].data.orderNumber == n {
        assert RemoveNumber(rows, n) == rest;
        LookupTail(rows, m);
      } else {
        var kept := [rows[0]] + rest;
        assert RemoveNumber(rows, n) == kept;
        if rows[0].data.orderNumber == m {
          LookupHead(kept, m);
          LookupHead(rows, m);
        } else {
          assert kept[1..] == rest;
          LookupTail(kept, m);
          LookupTail(rows, m);
        }
      }
    }
  }

  /** The order an order row maps back to. */
  function ToEntity(order: Order): OrderData
    reads order, order.items
    requires order.orderNumber.Some?
  {
    OrderData(order.orderNumber.value, order.customerId, order.orderDate, order.items.elems, order.status)
  }

  /** `OrderJpaMapper.toDomain`: the mapper is not part of this model; it
      can build an `Order` only through the Order constructor, so the
      result carries the constructor's created event. */
  method ToDomain(row: OrderRow) returns (order: Order)
    requires !AllSpace(row.data.customerId)
    ensures fresh(order) && fresh(order.items) && order.Valid()
    ensures order.orderNumber == Some(row.data.orderNumber)
    ensures ToEntity(order) == row.data
    ensures order.domainEvents == [OrderCreated(None, Some(row.data.orderNumber))]
  {
    var items := new ItemList(row.data.items);
    order := new Order(Some(row.data.orderNumber), row.data.customerId, row.data.orderDate, items, row.data.status);
  }

  class OrderRepository {
    var rows: seq<OrderRow>
    var nextId: nat

    predicate Valid()
      reads this
    {
      TableValid(rows, nextId)
    }

    constructor ()
      ensures Valid() && rows == []
    {
      rows := [];
      nextId := 0;
    }

    /** `orderJpaRepository.save(entity)`: merge into the row with the
        entity's id when it has one, otherwise insert with a new id. */
    method JpaSave(id: Option<nat>, data: OrderData) returns (stored: OrderRow)
      requires Valid() && !AllSpace(data.customerId)
      requires id.Some? ==> exists i :: 0 <= i < |rows| && rows[i].id == id.value && rows[i].data.orderNumber == data.orderNumber
      requires id.None? ==> Lookup(rows, data.orderNumber).None?
      modifies this
      ensures (rows, nextId) == Upsert(old(rows), old(nextId), data)
      ensures Valid() && stored in rows && stored.data == data
    {
      if id.Some? {
        var k :| 0 <= k < |rows| && rows[k].id == id.value && rows[k].data.orderNumber == data.orderNumber;
        IndexOfIdAt(rows, k);
        IndexOfNumberAt(rows, k);
        var i := IndexOfId(rows, id.value).value;
        stored := OrderRow(id.value, data);
        rows := rows[i := stored];
        assert rows[i] == stored;
      } else {
        stored := OrderRow(nextId, data);
        rows := rows + [stored];
        assert rows[|rows| - 1] == stored;
        nextId := nextId + 1;
      }
      UpsertKeepsTableValid(old(rows), old(nextId), data);
    }

    /** `save`: map to an entity, copy the id of the stored row with the
        same order number, save, map back. */
    method Save(order: Order) returns (saved: Order)
      requires Valid() && order.Valid() && order.orderNumber.Some?
      modifies this
      ensures Valid()
      ensures (rows, nextId) == Upsert(old(rows), old(nextId), ToEntity(order))
      ensures fresh(saved) && fresh(saved.items) && saved.Valid()
      ensures saved.orderNumber == order.orderNumber
      ensures ToEntity(saved) == ToEntity(order)
      ensures saved.domainEvents == [OrderCreated(None, order.orderNumber)]
    {
      var entity := ToEntity(order);
      var existing := Lookup(rows, entity.orderNumber);
      var id: Option<nat> := None;
      if existing.Some? {
        id := Some(existing.value.id);
      }
      var stored := JpaSave(id, entity);
      saved := ToDomain(stored);
    }

    /** `findByOrderNumber`: the stored order with that number, iff there is one. */
    method FindByOrderNumber(n: OrderNumber) returns (r: Option<Order>)
      requires Valid()
      ensures r.Some? <==> Lookup(rows, n).Some?
      ensures r.Some? ==>
        && fresh(r.value) && fresh(r.value.items) && r.value.Valid()
        && r.value.orderNumber == Some(n)
        && ToEntity(r.value) == Lookup(rows, n).value.data
        && r.value.domainEvents == [OrderCreated(None, Some(n))]
    {
      var row := Lookup(rows, n);
      if row.None? {
        return None;
      }
      var order := ToDomain(row.value);
      return Some(order);
    }

    /** `findAll`: one mapped order per row, in storage order. */
    method FindAll() returns (orders: seq<Order>)
      requires Valid()
      ensures |orders| == |rows|
      ensures forall i :: 0 <= i < |orders| ==> fresh(orders[i]) && orders[i].orderNumber.Some?
      ensures forall i :: 0 <= i < |orders| ==> ToEntity(orders[i]) == rows[i].data
    {
      orders := [];
      var i := 0;
      while i < |rows|
        invariant 0 <= i <= |rows| && |orders| == i
        invariant forall j :: 0 <= j < i ==> fresh(orders[j]) && orders[j].orderNumber.Some?
        invariant forall j :: 0 <= j < i ==> ToEntity(orders[j]) == rows[j].data
      {
        var order := ToDomain(rows[i]);
        orders := orders + [order];
        i := i + 1;
      }
    }

    /** `deleteByOrderNumber`. */
    method DeleteByOrderNumber(n: OrderNumber)
      requires Valid()
      modifies this
      ensures Valid() && nextId == old(nextId)
      ensures rows == RemoveNumber(old(rows), n)
    {
      RemoveNumberKeepsTableValid(rows, nextId, n);
      rows := RemoveNumber(rows, n);
    }
  }
}
