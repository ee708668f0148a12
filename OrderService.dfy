/** OrderService.java: the use cases. `createOrder` and `confirmOrder`
    build or load the aggregate, mutate it, copy its event buffer, save
    it, publish every copied event in order and finally clear the buffer.
    Publishing is synchronous delivery to the DomainEventHandler, so the
    outbox rows come from the handler; the service's own outbox calls are
    commented out in the source and never run. */
module Service {
  import opened Common
  import opened Domain
  import opened Outbox
  import opened OrderAggregate
  import opened Persistence
  import opened Handlers

  const NotFound: string := "Order not found: "

  /** What publishing a list of events did: the events published so far,
      the outbox rows their listeners appended, and the exception that
      stopped the loop, if one did. */
  datatype Delivery = Delivery(published: seq<DomainEvent>, rows: seq<OutboxMessage>, failure: Option<Error>)

  /** The `for` loop over the copied events: each event is published, then
      its listeners run; the first exception ends the loop. */
  function Deliver(h: DomainEventHandler, events: seq<DomainEvent>): (r: Delivery)
    ensures |r.published| <= |events|
    ensures r.failure.None? ==> |r.published| == |events|
    ensures r.failure.Some? ==> |r.published| > 0
    decreases |events|
  {
    if events == [] then Delivery([], [], None)
    else
      var d := Deliver(h, events[..|events| - 1]);
      var e := events[|events| - 1];
      if d.failure.Some? then d
      else match h.Effect(e)
        case Ok(rows) => Delivery(d.published + [e], d.rows + rows, None)
        case Err(err) => Delivery(d.published + [e], d.rows, Some(err))
  }

  /** The events published are the list's first ones, in order, up to and
      including the one whose listener threw; without an exception, all
      of them. */
  lemma {:induction false} DeliverPublishesPrefix(h: DomainEventHandler, events: seq<DomainEvent>)
    ensures Deliver(h, events).published == events[..|Deliver(h, events).published|]
    ensures Deliver(h, events).failure.None? ==> Deliver(h, events).published == events
  {
    if events != [] {
      var init := events[..|events| - 1];
      DeliverPublishesPrefix(h, init);
      var d := Deliver(h, init);
      if d.failure.None? {
        assert init + [events[|events| - 1]] == events;
      } else {
        assert events[..|d.published|] == init[..|d.published|];
      }
    }
  }

  /** One more event after a run without failure: it is published, and
      its listeners' rows or exception are added. */
  lemma DeliverStep(h: DomainEventHandler, events: seq<DomainEvent>, i: nat)
    requires i < |events| && Deliver(h, events[..i]).failure.None?
    ensures var d := Deliver(h, events[..i]);
      Deliver(h, events[..i + 1]) == match h.Effect(events[i])
        case Ok(rows) => Delivery(d.published + [events[i]], d.rows + rows, None)
        case Err(err) => Delivery(d.published + [events[i]], d.rows, Some(err))
  {
    assert events[..i + 1][..i] == events[..i];
  }

  /** Nothing after the first exception is published or written. */
  lemma {:induction false} DeliverStopsAtFailure(h: DomainEventHandler, s: seq<DomainEvent>, t: seq<DomainEvent>)
    requires Deliver(h, s).failure.Some?
    ensures Deliver(h, s + t) == Deliver(h, s)
  {
    if t == [] {
      assert s + t == s;
    } else {
      DeliverStopsAtFailure(h, s, t[..|t| - 1]);
      assert (s + t)[..|s + t| - 1] == s + t[..|t| - 1];
    }
  }

  /** A run that failed within its first `i` events is over. */
  lemma DeliverFailedPrefix(h: DomainEventHandler, events: seq<DomainEvent>, i: nat)
    requires i <= |events| && Deliver(h, events[..i]).failure.Some?
    ensures Deliver(h, events) == Deliver(h, events[..i])
  {
    DeliverStopsAtFailure(h, events[..i], events[i..]);
    assert events[..i] + events[i..] == events;
  }

  /** Events without an integration mapping are all published and write
      nothing. */
  lemma {:induction false} DeliverWithoutConfirmed(h: DomainEventHandler, s: seq<DomainEvent>)
    requires forall i :: 0 <= i < |s| ==> !s[i].OrderConfirmed?
    ensures Deliver(h, s) == Delivery(s, [], None)
  {
    if s != [] {
      DeliverWithoutConfirmed(h, s[..|s| - 1]);
      assert s[..|s| - 1] + [s[|s| - 1]] == s;
    }
  }

  /** Confirming an order whose buffer holds no earlier confirmation
      publishes the whole buffer and appends exactly one row to the
      outbox: aggregate type "Order", event type
      "OrderConfirmedIntegrationEvent", an id derived from the order
      number, status pending. A serialisation failure appends nothing. */
  lemma ConfirmAppendsOneRow(h: DomainEventHandler, buffer: seq<DomainEvent>, n: OrderNumber)
    requires forall i :: 0 <= i < |buffer| ==> !buffer[i].OrderConfirmed?
    ensures var d := Deliver(h, buffer + [OrderConfirmed(None, Some(n))]);
      && d.published == buffer + [OrderConfirmed(None, Some(n))]
      && match h.toJson(IntegrationEventJson(OrderConfirmedIntegrationEvent(n)))
        case Some(payload) =>
          d.failure.None? &&
          d.rows == [OutboxMessage("Order", h.nameUuid(n.value), "OrderConfirmedIntegrationEvent", payload, PendingMessage)]
        case None =>
          d.rows == [] &&
          d.failure == Some(Runtime(ConfirmationFailed, Some(Runtime(PersistFailed, Some(SerializationFailure)))))
  {
    DeliverWithoutConfirmed(h, buffer);
    var s := buffer + [OrderConfirmed(None, Some(n))];
    assert s[..|s| - 1] == buffer;
  }

  class OrderService {
    const repository: OrderRepository
    const handler: DomainEventHandler
    const outbox: OutboxStore
    // the service's own ObjectMapper and name-based UUID, used only by PersistToOutbox
    const toJson: Serializable -> Option<string>
    const nameUuid: string -> Uuid
    /** The in-process event publisher's log, append-only. */
    var published: seq<DomainEvent>

    predicate Valid()
      reads this, repository
    {
      repository.Valid() && handler.outbox == outbox
    }

    constructor (repository: OrderRepository, handler: DomainEventHandler,
                 toJson: Serializable -> Option<string>, nameUuid: string -> Uuid)
      requires repository.Valid()
      ensures Valid() && published == []
      ensures this.repository == repository && this.handler == handler && this.outbox == handler.outbox
      ensures this.toJson == toJson && this.nameUuid == nameUuid
    {
      this.repository := repository;
      this.handler := handler;
      this.outbox := handler.outbox;
      this.toJson := toJson;
      this.nameUuid := nameUuid;
      published := [];
    }

    /** Publishes each event in order; the listeners' exception, if any,
        ends the loop and is rethrown. */
    method PublishEvents(events: seq<DomainEvent>) returns (r: Outcome)
      requires handler.outbox == outbox
      modifies this`published, outbox
      ensures published == old(published) + Deliver(handler, events).published
      ensures outbox.rows == old(outbox.rows) + Deliver(handler, events).rows
      ensures r == match Deliver(handler, events).failure case None => Pass case Some(e) => Fail(e)
    {
      var i := 0;
      while i < |events|
        invariant 0 <= i <= |events|
        invariant Deliver(handler, events[..i]).failure.None?
        invariant published == old(published) + Deliver(handler, events[..i]).published
        invariant outbox.rows == old(outbox.rows) + Deliver(handler, events[..i]).rows
      {
        var event := events[i];
        published := published + [event];
        var outcome := handler.Dispatch(event);
        DeliverStep(handler, events, i);
        if outcome.Fail? {
          DeliverFailedPrefix(handler, events, i + 1);
          return outcome;
        }
        i := i + 1;
      }
      assert events[..|events|] == events;
      return Pass;
    }

    /** `createOrder`. `validation` is the verdict of the order validation
        service on the draft and `number` the generator's next number,
        both outside this model. The new order shares the draft's item
        list; the caller gets the repository's order, not the local one. */
    method CreateOrder(draft: Order, validation: Outcome, number: OrderNumber) returns (r: Result<Order>)
      requires Valid() && draft.Valid()
      modifies this`published, repository, outbox
      ensures Valid()
      ensures validation.Fail? ==>
        && r == Err(validation.error)
        && published == old(published) && outbox.rows == old(outbox.rows)
        && repository.rows == old(repository.rows) && repository.nextId == old(repository.nextId)
      ensures validation.Pass? ==>
        var data := OrderData(number, draft.customerId, draft.orderDate, draft.items.elems, draft.status);
        && r.Ok? && fresh(r.value) && fresh(r.value.items) && r.value.orderNumber == Some(number)
        && ToEntity(r.value) == data
        && r.value.domainEvents == [OrderCreated(None, Some(number))]
        && (repository.rows, repository.nextId) == Upsert(old(repository.rows), old(repository.nextId), data)
        && published == old(published) + [OrderCreated(None, Some(number))]
        && outbox.rows == old(outbox.rows)
    {
      if validation.Fail? {
        return Err(validation.error);
      }
      var orderWithNumber := new Order(Some(number), draft.customerId, draft.orderDate, draft.items, draft.status);
      var events := orderWithNumber.GetDomainEvents();
      var saved := repository.Save(orderWithNumber);
      // the created event has no integration mapping: no listener can throw
      DeliverWithoutConfirmed(handler, events);
      var _ := PublishEvents(events);
      orderWithNumber.ClearDomainEvents();
      return Ok(saved);
    }

    /** Steps 2 to 5 of `confirmOrder` on an order already loaded, whatever
        its buffer holds: confirm, copy the buffer, save, publish the copy,
        clear. An exception from a listener rolls the transaction back:
        the order table and the outbox are restored, while the in-process
        publications already made stay. */
    method ConfirmLoaded(order: Order) returns (r: Result<Order>)
      requires Valid() && order.Valid() && order.orderNumber.Some?
      modifies this`published, repository, outbox, order`status, order`domainEvents
      ensures Valid()
      ensures old(order.status) != Pending ==>
        && r == Err(IllegalState(NotPending))
        && order.status == old(order.status) && order.domainEvents == old(order.domainEvents)
        && published == old(published) && outbox.rows == old(outbox.rows)
        && repository.rows == old(repository.rows) && repository.nextId == old(repository.nextId)
      ensures old(order.status) == Pending ==>
        var events := old(order.domainEvents) + [OrderConfirmed(None, order.orderNumber)];
        var d := Deliver(handler, events);
        && order.status == Confirmed
        && published == old(published) + d.published
        && (d.failure.None? ==>
          && r.Ok? && fresh(r.value) && fresh(r.value.items) && r.value.orderNumber == order.orderNumber
          && ToEntity(r.value) == ToEntity(order)
          && r.value.domainEvents == [OrderCreated(None, order.orderNumber)]
          && order.domainEvents == []
          && (repository.rows, repository.nextId) == Upsert(old(repository.rows), old(repository.nextId), ToEntity(order))
          && outbox.rows == old(outbox.rows) + d.rows)
        && (d.failure.Some? ==>
          && r == Err(d.failure.value)
          && order.domainEvents == events
          && outbox.rows == old(outbox.rows)
          && repository.rows == old(repository.rows) && repository.nextId == old(repository.nextId))
    {
      var confirmed := order.Confirm(None);
      if confirmed.Fail? {
        return Err(confirmed.error);
      }
      var events := order.GetDomainEvents();
      var rowsBefore, nextIdBefore, outboxBefore := repository.rows, repository.nextId, outbox.rows;
      var saved := repository.Save(order);
      var outcome := PublishEvents(events);
      if outcome.Fail? {
        // @Transactional: the exception undoes the writes of this call
        repository.rows, repository.nextId := rowsBefore, nextIdBefore;
        outbox.rows := outboxBefore;
        return Err(outcome.error);
      }
      order.ClearDomainEvents();
      return Ok(saved);
    }

    /** `confirmOrder`: an unknown number throws "Order not found"; a stored
        order that is not pending throws the aggregate's exception; both
        leave everything as it was. A pending order is confirmed, saved with
        status CONFIRMED and its buffer published. */
    method ConfirmOrder(number: OrderNumber) returns (r: Result<Order>)
      requires Valid()
      modifies this`published, repository, outbox
      ensures Valid()
      ensures Lookup(old(repository.rows), number).None? ==>
        && r == Err(Runtime(NotFound + number.value, None))
        && published == old(published) && outbox.rows == old(outbox.rows)
        && repository.rows == old(repository.rows) && repository.nextId == old(repository.nextId)
      ensures Lookup(old(repository.rows), number).Some? && Lookup(old(repository.rows), number).value.data.status != Pending ==>
        && r == Err(IllegalState(NotPending))
        && published == old(published) && outbox.rows == old(outbox.rows)
        && repository.rows == old(repository.rows) && repository.nextId == old(repository.nextId)
      ensures Lookup(old(repository.rows), number).Some? && Lookup(old(repository.rows), number).value.data.status == Pending ==>
        var data := Lookup(old(repository.rows), number).value.data.(status := Confirmed);
        var d := Deliver(handler, [OrderCreated(None, Some(number)), OrderConfirmed(None, Some(number))]);
        && published == old(published) + d.published
        && (d.failure.None? ==>
          && r.Ok? && fresh(r.value) && fresh(r.value.items) && r.value.orderNumber == Some(number)
          && ToEntity(r.value) == data && r.value.domainEvents == [OrderCreated(None, Some(number))]
          && (repository.rows, repository.nextId) == Upsert(old(repository.rows), old(repository.nextId), data)
          && outbox.rows == old(outbox.rows) + d.rows)
        && (d.failure.Some? ==>
          && r == Err(d.failure.value) && outbox.rows == old(outbox.rows)
          && repository.rows == old(repository.rows) && repository.nextId == old(repository.nextId))
    {
      var loaded := repository.FindByOrderNumber(number);
      if loaded.None? {
        return Err(Runtime(NotFound + number.value, None));
      }
      var order := loaded.value;
      r := ConfirmLoaded(order);
    }

    /** `getOrder`. */
    method GetOrder(number: OrderNumber) returns (r: Option<Order>)
      requires Valid()
      ensures r.Some? <==> Lookup(repository.rows, number).Some?
      ensures r.Some? ==>
        fresh(r.value) && r.value.orderNumber == Some(number)
        && ToEntity(r.value) == Lookup(repository.rows, number).value.data
    {
      r := repository.FindByOrderNumber(number);
    }

    /** `getAllOrders`. */
    method GetAllOrders() returns (orders: seq<Order>)
      requires Valid()
      ensures |orders| == |repository.rows|
      ensures forall i :: 0 <= i < |orders| ==> fresh(orders[i]) && orders[i].orderNumber.Some?
      ensures forall i :: 0 <= i < |orders| ==> ToEntity(orders[i]) == repository.rows[i].data
    {
      orders := repository.FindAll();
    }

    /** `deleteOrder`. */
    method DeleteOrder(number: OrderNumber)
      requires Valid()
      modifies repository
      ensures Valid() && repository.nextId == old(repository.nextId)
      ensures repository.rows == RemoveNumber(old(repository.rows), number)
    {
      repository.DeleteByOrderNumber(number);
    }

    /** The service's own `persistToOutbox`, which no use case calls. */
    method PersistToOutbox(event: DomainEvent, aggregateType: string, aggregateId: string) returns (r: Outcome)
      modifies outbox
      ensures match PendingRow(toJson, nameUuid, DomainEventJson(event), aggregateType, aggregateId)
        case Ok(m) => r == Pass && outbox.rows == old(outbox.rows) + [m]
        case Err(e) => r == Fail(e) && outbox.rows == old(outbox.rows)
    {
      var payload := toJson(DomainEventJson(event));
      if payload.None? {
        return Fail(Runtime(PersistFailed, Some(SerializationFailure)));
      }
      var eventType := SimpleName(DomainEventJson(event));
      var uuid := nameUuid(aggregateId);
      var message := CreatePendingMessage(aggregateType, uuid, eventType, payload.value);
      outbox.Save(message);
      return Pass;
    }
  }

  /** `confirmOrder` on a stored pending order, when serialisation works,
      appends exactly one OrderConfirmedIntegrationEvent row to the outbox:
      the loaded order's buffer holds only its created event. */
  lemma ConfirmOrderWritesOneRow(h: DomainEventHandler, n: OrderNumber, payload: string)
    requires h.toJson(IntegrationEventJson(OrderConfirmedIntegrationEvent(n))) == Some(payload)
    ensures var d := Deliver(h, [OrderCreated(None, Some(n)), OrderConfirmed(None, Some(n))]);
      && d.failure.None?
      && d.published == [OrderCreated(None, Some(n)), OrderConfirmed(None, Some(n))]
      && d.rows == [OutboxMessage("Order", h.nameUuid(n.value), "OrderConfirmedIntegrationEvent", payload, PendingMessage)]
  {
    ConfirmAppendsOneRow(h, [OrderCreated(None, Some(n))], n);
    assert [OrderCreated(None, Some(n))] + [OrderConfirmed(None, Some(n))]
        == [OrderCreated(None, Some(n)), OrderConfirmed(None, Some(n))];
  }

  /** `createOrder` writes no outbox row and publishes exactly the one
      created event. */
  lemma CreateOrderWritesNoRow(h: DomainEventHandler, n: OrderNumber)
    ensures Deliver(h, [OrderCreated(None, Some(n))]) == Delivery([OrderCreated(None, Some(n))], [], None)
  {
    DeliverWithoutConfirmed(h, [OrderCreated(None, Some(n))]);
  }
}
