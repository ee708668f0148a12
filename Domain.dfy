/** The value types the core passes around: order numbers, line items,
    statuses, the domain events an `Order` raises, and the integration
    event the handler publishes. Java classes whose code is not part of
    this model (OrderNumber, OrderItem, the event classes) are reduced to
    the fields the core reads. */
module Domain {
  import opened Common

  /** `OrderNumber` wraps the string `value()` returns. */
  datatype OrderNumber = OrderNumber(value: string)

  /** A `LocalDateTime`, as an opaque token. */
  datatype Timestamp = Timestamp(token: nat)

  /** A line item: the two fields the aggregate reads. Java `equals` on
      items is modelled as equality of these values. */
  datatype OrderItem = OrderItem(productNumber: string, quantity: int)

  datatype OrderStatus = Pending | Confirmed

  /** The domain events. `orderId` is a nullable `Long`. */
  datatype DomainEvent =
    | OrderCreated(orderId: Option<int>, orderNumber: Option<OrderNumber>)
    | OrderConfirmed(orderId: Option<int>, orderNumber: Option<OrderNumber>)
    | OrderItemAdded(orderId: Option<int>, itemId: Option<int>, productNumber: string, quantity: int)

  /** The integration event built from an `OrderConfirmedEvent`. */
  datatype OrderConfirmedIntegrationEvent = OrderConfirmedIntegrationEvent(orderNumber: OrderNumber)

  /** The objects handed to the JSON serialiser. */
  datatype Serializable =
    | DomainEventJson(event: DomainEvent)
    | IntegrationEventJson(integration: OrderConfirmedIntegrationEvent)

  /** `getClass().getSimpleName()`. */
  function SimpleName(x: Serializable): string {
    match x
    case DomainEventJson(OrderCreated(_, _)) => "OrderCreatedEvent"
    case DomainEventJson(OrderConfirmed(_, _)) => "OrderConfirmedEvent"
    case DomainEventJson(OrderItemAdded(_, _, _, _)) => "OrderItemAddedEvent"
    case IntegrationEventJson(_) => "OrderConfirmedIntegrationEvent"
  }

  /** A `java.util.UUID`. */
  datatype Uuid = Uuid(mostSigBits: bv64, leastSigBits: bv64)
}
