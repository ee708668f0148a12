/** DomainEventHandler.java: the listener that receives every published
    domain event. Only an `OrderConfirmedEvent` gets an integration
    mapping; it becomes one pending outbox row. Every other event is only
    logged. */
module Handlers {
  import opened Common
  import opened Domain
  import opened Outbox

  const ConfirmationFailed: string := "Failed to process order confirmation integration event"
  const NoMappingLog: string := "Domain event received (no integration mapping): "

  class DomainEventHandler {
    const outbox: OutboxStore
    // ObjectMapper.writeValueAsString; None when it throws
    const toJson: Serializable -> Option<string>
    // UUID.nameUUIDFromBytes(s.getBytes())
    const nameUuid: string -> Uuid

    constructor (outbox: OutboxStore, toJson: Serializable -> Option<string>, nameUuid: string -> Uuid)
      ensures this.outbox == outbox && this.toJson == toJson && this.nameUuid == nameUuid
    {
      this.outbox := outbox;
      this.toJson := toJson;
      this.nameUuid := nameUuid;
    }

    /** What `handleOrderConfirmed` saves, or what it throws: a null order
        number fails on `value()`, a serialisation failure comes back from
        `persistToOutbox`; both are wrapped once more. */
    function ConfirmedRow(orderNumber: Option<OrderNumber>): (r: Result<OutboxMessage>)
      ensures orderNumber.None? ==> r == Err(Runtime(ConfirmationFailed, Some(NullPointer)))
      ensures orderNumber.Some? ==>
        var subject := IntegrationEventJson(OrderConfirmedIntegrationEvent(orderNumber.value));
        match toJson(subject)
        case None =>
          r == Err(Runtime(ConfirmationFailed, Some(Runtime(PersistFailed, Some(SerializationFailure)))))
        case Some(payload) =>
          r == Ok(OutboxMessage("Order", nameUuid(orderNumber.value.value), "OrderConfirmedIntegrationEvent",
                                payload, PendingMessage))
    {
      match orderNumber
      case None => Err(Runtime(ConfirmationFailed, Some(NullPointer)))
      case Some(n) =>
        match PendingRow(toJson, nameUuid, IntegrationEventJson(OrderConfirmedIntegrationEvent(n)), "Order", n.value)
        case Err(e) => Err(Runtime(ConfirmationFailed, Some(e)))
        case Ok(m) => Ok(m)
    }

    /** The rows that delivering `event` to the listeners appends, or the
        exception that delivery throws. */
    function Effect(event: DomainEvent): (r: Result<seq<OutboxMessage>>)
      ensures !event.OrderConfirmed? ==> r == Ok([])
    {
      if event.OrderConfirmed? then
        match ConfirmedRow(event.orderNumber)
        case Ok(m) => Ok([m])
        case Err(e) => Err(e)
      else Ok([])
    }

    /** `persistToOutbox`: serialise, build a pending row, save it. */
    method PersistToOutbox(subject: Serializable, aggregateType: string, aggregateId: string) returns (r: Outcome)
      modifies outbox
      ensures match PendingRow(toJson, nameUuid, subject, aggregateType, aggregateId)
        case Ok(m) => r == Pass && outbox.rows == old(outbox.rows) + [m]
        case Err(e) => r == Fail(e) && outbox.rows == old(outbox.rows)
    {
      var payload := toJson(subject);
      if payload.None? {
        return Fail(Runtime(PersistFailed, Some(SerializationFailure)));
      }
      var eventType := SimpleName(subject);
      var uuid := nameUuid(aggregateId);
      var message := CreatePendingMessage(aggregateType, uuid, eventType, payload.value);
      outbox.Save(message);
      return Pass;
    }

    /** `handleOrderConfirmed`, for the OrderConfirmedEvent Spring hands it. */
    method HandleOrderConfirmed(event: DomainEvent) returns (r: Outcome)
      requires event.OrderConfirmed?
      modifies outbox
      ensures match ConfirmedRow(event.orderNumber)
        case Ok(m) => r == Pass && outbox.rows == old(outbox.rows) + [m]
        case Err(e) => r == Fail(e) && outbox.rows == old(outbox.rows)
    {
      if event.orderNumber.None? {
        return Fail(Runtime(ConfirmationFailed, Some(NullPointer)));
      }
      var n := event.orderNumber.value;
      var integration := OrderConfirmedIntegrationEvent(n);
      var outcome := PersistToOutbox(IntegrationEventJson(integration), "Order", n.value);
      if outcome.Fail? {
        return Fail(Runtime(ConfirmationFailed, Some(outcome.error)));
      }
      return Pass;
    }

    /** `handleGenericDomainEvent`: writes nothing; returns the debug line
        it logs. */
    method HandleGenericDomainEvent(event: DomainEvent) returns (logLine: string)
      ensures logLine == NoMappingLog + SimpleName(DomainEventJson(event))
    {
      logLine := NoMappingLog + SimpleName(DomainEventJson(event));
    }

    /** Spring's synchronous dispatch of one published event: both
        listeners for an OrderConfirmedEvent, the generic one otherwise. A
        listener's exception comes out of `publishEvent`. */
    method Dispatch(event: DomainEvent) returns (r: Outcome)
      modifies outbox
      ensures match Effect(event)
        case Ok(rows) => r == Pass && outbox.rows == old(outbox.rows) + rows
        case Err(e) => r == Fail(e) && outbox.rows == old(outbox.rows)
    {
      var _ := HandleGenericDomainEvent(event);
      if event.OrderConfirmed? {
        r := HandleOrderConfirmed(event);
      } else {
        r := Pass;
      }
    }
  }

  /** A confirmation writes one row exactly when it carries an order
      number that serialises; the row is the pending
      "OrderConfirmedIntegrationEvent" row of aggregate "Order" whose id
      is derived from the order number. */
  lemma ConfirmedEffect(h: DomainEventHandler, event: DomainEvent)
    requires event.OrderConfirmed?
    ensures var r := h.Effect(event);
      && (r.Ok? <==> event.orderNumber.Some? && h.toJson(IntegrationEventJson(OrderConfirmedIntegrationEvent(event.orderNumber.value))).Some?)
      && (r.Ok? ==>
        && |r.value| == 1
        && r.value[0].aggregateType == "Order"
        && r.value[0].aggregateId == h.nameUuid(event.orderNumber.value.value)
        && r.value[0].eventType == "OrderConfirmedIntegrationEvent"
        && r.value[0].status == PendingMessage)
  {
  }

  /** The identity of a confirmation's outbox row depends on the order
      number alone, not on the order id: two confirmations of one order
      number succeed or fail together, and their rows carry the same
      aggregate type, event type and message id. */
  lemma ConfirmedRowIgnoresOrderId(h: DomainEventHandler, e1: DomainEvent, e2: DomainEvent)
    requires e1.OrderConfirmed? && e2.OrderConfirmed? && e1.orderNumber == e2.orderNumber
    ensures h.Effect(e1).Ok? <==> h.Effect(e2).Ok?
    ensures h.Effect(e1).Ok? ==>
      && |h.Effect(e1).value| == |h.Effect(e2).value| == 1
      && h.Effect(e1).value[0].aggregateType == h.Effect(e2).value[0].aggregateType
      && h.Effect(e1).value[0].eventType == h.Effect(e2).value[0].eventType
      && h.Effect(e1).value[0].aggregateId == h.Effect(e2).value[0].aggregateId
  {
    ConfirmedEffect(h, e1);
    ConfirmedEffect(h, e2);
  }
}
