# Order events and the outbox, in Dafny

This project models the event-capture and outbox path of the hexagonal
Orders service:

- **the Order aggregate**, a small state machine. Its status moves only from PENDING to CONFIRMED. It buffers the domain events it raises until its caller clears the buffer.
- **OrderService**, the use cases. `createOrder` and `confirmOrder` build or load an order, mutate it and copy its buffer. They then save the order, publish every copied event in order and clear the buffer.
- **DomainEventHandler**, the listener for published events. An `OrderConfirmedEvent` becomes one pending outbox row describing an `OrderConfirmedIntegrationEvent`. Every other event is only logged.
- **OrderRepositoryAdapter** over an in-memory table. `save` keys on the order number and reuses the id of the stored row, so it updates instead of inserting.
- **TopicNameMapper**, the topic-name rule: an override table, otherwise a lower-casing default.
- **KafkaMessagePublisher**, up to the hand-off to the Kafka client. It parses `"Aggregate.EventType"` with the rules of Java's `String.split` and maps the parts to a topic.

Each Java class whose fields change is a Dafny `class` with `modifies` clauses:

- `Order`, and the shared `ItemList` it holds
- `OrderRepository`
- `OutboxStore`
- `OrderService`, whose in-process publication log is append-only

`TopicNameMapper` is a class too. Its override table is filled only by its
constructor, and `MapToTopicName` reads it without changing anything.

Pure computations are functions with lemmas about them:

- topic naming and parsing
- the row the handler writes
- the upsert rule of the repository

The modules are:

| module | file |
|---|---|
| `Common` | `Common.dfy`: Option and Result, plus the Java exceptions as an `Error` datatype |
| `JavaStrings` | `JavaStrings.dfy`: `trim`, ASCII `toLowerCase`, `replace` and `split("\\.")` |
| `Domain` | `Domain.dfy`: value types and events |
| `Outbox` | `Outbox.dfy` |
| `OrderAggregate` | `Order.dfy` |
| `TopicNames` | `TopicNameMapper.dfy` |
| `Messaging` | `KafkaMessagePublisher.dfy` |
| `Persistence` | `OrderRepositoryAdapter.dfy` |
| `Handlers` | `DomainEventHandler.dfy` |
| `Service` | `OrderService.dfy` |

How the model treats the Java runtime:

- Java exceptions are `Err` or `Fail` values, and a wrapping `RuntimeException` keeps its cause.
- Spring's `publishEvent` is synchronous, in-order delivery to the handler's listeners. An `OrderConfirmedEvent` reaches both listeners. A listener's exception comes out of `publishEvent`.
- `@Transactional` is modelled at most as "an exception undoes this call's writes". The order table and the outbox are restored. The in-process publication log is not.

The model follows the code, including where its behaviour departs from what the outbox design would lead a reader to expect:

- The Order constructor keeps whatever status it is given; it does not force PENDING.
- `createOrder` writes no outbox row, and no row describes an `OrderCreatedEvent`. OrderService's own `persistToOutbox` calls are commented out.
- Outbox rows come only from the handler. Their event type is `OrderConfirmedIntegrationEvent`, not `OrderConfirmedEvent`.
- The outbox id is a name-based UUID of the order number alone. The aggregate type does not enter it.
- The topic rule deletes every occurrence of "IntegrationEvent", not only a suffix. It does not reject names that contain a dot.
- The Kafka record is keyed by the event type, not by the aggregate id.
- "Order not found" is a plain `RuntimeException`.
- In-process publication is not best-effort: a listener's exception fails the whole `confirmOrder`.

## Model

| member | source | states |
|---|---|---|
| JavaStrings.TrimEmptyIff | Eventos/src/main/java/com/example/hexagonalorders/domain/model/Order.java:34 | `trim().isEmpty()` holds exactly when every character is at most a space |
| JavaStrings.RemoveAllSplits | Eventos/src/main/java/com/example/hexagonalorders/infrastructure/out/messaging/TopicNameMapper.java:29 | removing a border-free fragment from `a + fragment + b` gives the removal from `a` followed by the removal from `b` |
| JavaStrings.RemoveAllAbsent | Eventos/src/main/java/com/example/hexagonalorders/infrastructure/out/messaging/TopicNameMapper.java:29 | `replace` of a fragment that does not occur leaves the string unchanged |
| OrderAggregate.RemoveFirst | Eventos/src/main/java/com/example/hexagonalorders/domain/model/Order.java:101 | `List.remove(item)` on the contents: one element fewer exactly when the item is present, and no element that was not there before |
| OrderAggregate.RemoveFirstAbsent | Eventos/src/main/java/com/example/hexagonalorders/domain/model/Order.java:101 | `List.remove` of an item that is not in the list leaves the list as it is |
| OrderAggregate.RemoveFirstPresent | Eventos/src/main/java/com/example/hexagonalorders/domain/model/Order.java:101 | `List.remove` of a present item takes out exactly its first occurrence and keeps the rest in order |
| OrderAggregate.RemoveFirstMultiset | Eventos/src/main/java/com/example/hexagonalorders/domain/model/Order.java:101 | as multisets, `remove` takes away one copy of the item when there is one |
| OrderAggregate.ItemList.Add | Eventos/src/main/java/com/example/hexagonalorders/domain/model/Order.java:88 | the item is appended at the end of the shared list |
| OrderAggregate.ItemList.Remove | Eventos/src/main/java/com/example/hexagonalorders/domain/model/Order.java:101 | the result says whether the item was present; the list loses its first equal element |
| OrderAggregate.ConstructionError | Eventos/src/main/java/com/example/hexagonalorders/domain/model/Order.java:34-45 | no error exactly when the customer id is non-blank and date, items and status are non-null; otherwise the first failing check's IllegalArgumentException message, in the constructor's order; the order number is not checked |
| OrderAggregate.Order.constructor | Eventos/src/main/java/com/example/hexagonalorders/domain/model/Order.java:46-53 | the fields are exactly the arguments, including whatever status was supplied; the items are the caller's list object itself; the buffer is exactly one created event with a null id and the given number |
| OrderAggregate.Order.Create | Eventos/src/main/java/com/example/hexagonalorders/domain/model/Order.java:29-54 | throws exactly what ConstructionError names; on success it returns a fresh order with the given fields and the single created event |
| OrderAggregate.Order.GetDomainEvents | Eventos/src/main/java/com/example/hexagonalorders/domain/model/Order.java:76-78 | returns the buffer and changes nothing |
| OrderAggregate.Order.ClearDomainEvents | Eventos/src/main/java/com/example/hexagonalorders/domain/model/Order.java:80-82 | the buffer is empty; only the buffer may change |
| OrderAggregate.Order.AddItem | Eventos/src/main/java/com/example/hexagonalorders/domain/model/Order.java:84-95 | null is rejected with no change; otherwise the item is appended to the list and one item-added event with its product number and quantity is appended to the buffer |
| OrderAggregate.Order.RemoveItem | Eventos/src/main/java/com/example/hexagonalorders/domain/model/Order.java:97-102 | null is rejected; otherwise the first equal item is removed; status and buffer cannot change |
| OrderAggregate.Order.Confirm | Eventos/src/main/java/com/example/hexagonalorders/domain/model/Order.java:108-114 | the status moves only from PENDING to CONFIRMED; a non-pending order throws IllegalStateException and keeps its status and buffer; a pending one becomes CONFIRMED with one confirmed event appended after the earlier events; the items cannot change |
| TopicNames.TopicNameMapper.constructor | Eventos/src/main/java/com/example/hexagonalorders/infrastructure/out/messaging/TopicNameMapper.java:12-22 | prefix and environment as injected, and a table holding the single override `Order.OrderConfirmedIntegrationEvent` to `order-confirmed` |
| TopicNames.MapToTopicNameDeterministic | Eventos/src/main/java/com/example/hexagonalorders/infrastructure/out/messaging/TopicNameMapper.java:24-31 | two mappers with equal prefix, environment and table give the same topic for every pair; the function reads nothing else and changes nothing |
| TopicNames.OverrideWins | Eventos/src/main/java/com/example/hexagonalorders/infrastructure/out/messaging/TopicNameMapper.java:25-28 | when the key `aggregate.event` is in the table, its entry is the base name |
| TopicNames.DefaultRule | Eventos/src/main/java/com/example/hexagonalorders/infrastructure/out/messaging/TopicNameMapper.java:26-29 | without an entry, the base is the lower-cased aggregate, a hyphen, and the lower-cased event type with "IntegrationEvent" removed |
| TopicNames.DefaultBaseRemovesEveryOccurrence | Eventos/src/main/java/com/example/hexagonalorders/infrastructure/out/messaging/TopicNameMapper.java:29 | an occurrence of "IntegrationEvent" in the middle of the event type is removed as well, not only a suffix |
| TopicNames.TopicNameMapper.MapToTopicName | Eventos/src/main/java/com/example/hexagonalorders/infrastructure/out/messaging/TopicNameMapper.java:24-31 | every topic starts with `prefix-env-`, followed by the base name; OverrideWins and DefaultRule say which base |
| TopicNames.ConfirmedResolvesToDeliveryTopic | Eventos/src/main/java/com/example/hexagonalorders/infrastructure/out/messaging/TopicNameMapper.java:12-21 | with the default prefix and environment, ("Order", "OrderConfirmedIntegrationEvent") maps to `hexagonal-orders-dev-order-confirmed`, the topic the delivery service consumes |
| TopicNames.ConfirmedDefaultRuleMisses | Eventos/src/main/java/com/example/hexagonalorders/infrastructure/out/messaging/TopicNameMapper.java:21-29 | without the override, the default rule would give "order-orderconfirmed", a different topic |
| JavaStrings.SplitOnDot | Eventos/src/main/java/com/example/hexagonalorders/infrastructure/out/messaging/KafkaMessagePublisher.java:23 | `split("\\.")`: the whole string exactly when it holds no dot; every part is dot-free; with two parts or more the last one is not empty |
| Messaging.ParseTopic | Eventos/src/main/java/com/example/hexagonalorders/infrastructure/out/messaging/KafkaMessagePublisher.java:23-28 | a rejection carries the IllegalArgumentException with the format message; an accepted topic holds a dot, and its two parts are dot-free with a non-empty event type; ParseTopicComplete and ParseTopicSound give the exact accepted set |
| Messaging.ParseTopicComplete | Eventos/src/main/java/com/example/hexagonalorders/infrastructure/out/messaging/KafkaMessagePublisher.java:23-28 | every `a.e` followed by any number of trailing dots, with `a` and `e` dot-free and `e` non-empty, is accepted as (a, e) |
| Messaging.ParseTopicSound | Eventos/src/main/java/com/example/hexagonalorders/infrastructure/out/messaging/KafkaMessagePublisher.java:23-28 | conversely, every accepted topic is of that form and its parts are dot-free with a non-empty event type |
| Messaging.OverrideKeyInjective | Eventos/src/main/java/com/example/hexagonalorders/infrastructure/out/messaging/TopicNameMapper.java:25-26 | keys built from dot-free parts do not collide, so a parsed pair finds only its own override |
| Messaging.TrailingDotAccepted | Eventos/src/main/java/com/example/hexagonalorders/infrastructure/out/messaging/KafkaMessagePublisher.java:23-24 | "Order.X." is accepted as ("Order", "X") |
| Messaging.EmptyAggregateAccepted | Eventos/src/main/java/com/example/hexagonalorders/infrastructure/out/messaging/KafkaMessagePublisher.java:23-24 | ".X" is accepted with an empty aggregate |
| Messaging.EmptyEventTypeRejected | Eventos/src/main/java/com/example/hexagonalorders/infrastructure/out/messaging/KafkaMessagePublisher.java:23-26 | "Order." and "" are rejected with the format message |
| Messaging.ThreePartsRejected | Eventos/src/main/java/com/example/hexagonalorders/infrastructure/out/messaging/KafkaMessagePublisher.java:23-26 | "Order.A.B" is rejected |
| Messaging.KafkaMessagePublisher.Publish | Eventos/src/main/java/com/example/hexagonalorders/infrastructure/out/messaging/KafkaMessagePublisher.java:21-49 | succeeds exactly when the topic parses; then the record goes to `mapToTopicName(parts[0], parts[1])`, keyed by the event type and carrying the payload unchanged; a rejection is a RuntimeException "Failed to publish message to Kafka" wrapping the IllegalArgumentException with the format message |
| Messaging.ConfirmedTopicReachesDelivery | Eventos/src/main/java/com/example/hexagonalorders/infrastructure/out/messaging/KafkaMessagePublisher.java:23-30 | the mapper's override key `Order.OrderConfirmedIntegrationEvent`, passed as the topic argument of `publish`, parses to its two parts, which map to the delivery service's topic |
| Outbox.PendingRow | Eventos/src/main/java/com/example/hexagonalorders/application/handler/DomainEventHandler.java:40-49 | fails exactly when serialisation fails, with a RuntimeException "Failed to persist event to outbox"; otherwise a PENDING row with the given aggregate type, the name-based id of `aggregateId`, the subject's simple class name and the serialised payload |
| Outbox.OutboxStore.Save | Eventos/src/main/java/com/example/hexagonalorders/application/handler/DomainEventHandler.java:46 | the message is appended to the outbox rows |
| Handlers.DomainEventHandler.ConfirmedRow | Eventos/src/main/java/com/example/hexagonalorders/application/handler/DomainEventHandler.java:25-33 | a null order number fails; a serialisation failure is rethrown wrapped twice; otherwise the row is "Order", the id of the number's string, "OrderConfirmedIntegrationEvent", the payload, PENDING |
| Handlers.DomainEventHandler.PersistToOutbox | Eventos/src/main/java/com/example/hexagonalorders/application/handler/DomainEventHandler.java:40-50 | the outbox gains exactly the PendingRow message, or stays as it was and the failure is returned |
| Handlers.DomainEventHandler.HandleOrderConfirmed | Eventos/src/main/java/com/example/hexagonalorders/application/handler/DomainEventHandler.java:24-33 | the outbox gains exactly the ConfirmedRow message, or stays as it was and the wrapped failure is returned |
| Handlers.DomainEventHandler.HandleGenericDomainEvent | Eventos/src/main/java/com/example/hexagonalorders/application/handler/DomainEventHandler.java:35-38 | only produces the debug line with the simple class name; it may change nothing |
| Handlers.DomainEventHandler.Dispatch | Eventos/src/main/java/com/example/hexagonalorders/application/handler/DomainEventHandler.java:24-38 | the outbox gains exactly the rows of Effect, or is unchanged and the listener's exception is returned |
| Handlers.DomainEventHandler.Effect | Eventos/src/main/java/com/example/hexagonalorders/application/handler/DomainEventHandler.java:24-38 | what both listeners together do on one event: an event other than a confirmation writes no row and cannot fail; ConfirmedEffect states what a confirmation writes |
| Handlers.ConfirmedEffect | Eventos/src/main/java/com/example/hexagonalorders/application/handler/DomainEventHandler.java:25-46 | a confirmation writes exactly one row when its order number is present and serialises, and otherwise fails; the row is the pending "OrderConfirmedIntegrationEvent" row of aggregate "Order" with the id derived from the order number |
| Handlers.ConfirmedRowIgnoresOrderId | Eventos/src/main/java/com/example/hexagonalorders/application/handler/DomainEventHandler.java:27-44 | two confirmations of the same order number, whatever their order ids, succeed or fail together, and their rows carry the same aggregate type, event type and message id |
| Persistence.IndexOfNumber | Eventos/src/main/java/com/example/hexagonalorders/infrastructure/out/persistence/repository/OrderRepositoryAdapter.java:28 | the first row holding the number, or none exactly when no row holds it |
| Persistence.Lookup | Eventos/src/main/java/com/example/hexagonalorders/infrastructure/out/persistence/repository/OrderRepositoryAdapter.java:44-47 | a row is found exactly when some row carries the number, and the row found is one of the table's rows with that number |
| Persistence.LookupAt | Eventos/src/main/java/com/example/hexagonalorders/infrastructure/out/persistence/repository/OrderRepositoryAdapter.java:44-47 | in a table with one row per number, looking up a stored row's number returns that row |
| Persistence.Upsert | Eventos/src/main/java/com/example/hexagonalorders/infrastructure/out/persistence/repository/OrderRepositoryAdapter.java:28-37 | the effect of `save` on the table: no new id exactly when the number is already stored; one row more exactly when a new id is used; rows with other numbers are unchanged |
| Persistence.LookupHead | Eventos/src/main/java/com/example/hexagonalorders/infrastructure/out/persistence/repository/OrderRepositoryAdapter.java:44-47 | a first row carrying the number is the one found |
| Persistence.LookupTail | Eventos/src/main/java/com/example/hexagonalorders/infrastructure/out/persistence/repository/OrderRepositoryAdapter.java:44-47 | a first row with another number is skipped |
| Persistence.UpsertKeepsTableValid | Eventos/src/main/java/com/example/hexagonalorders/infrastructure/out/persistence/repository/OrderRepositoryAdapter.java:28-37 | `save` keeps at most one row per order number and keeps ids distinct and below the next generated id |
| Persistence.UpsertSpec | Eventos/src/main/java/com/example/hexagonalorders/infrastructure/out/persistence/repository/OrderRepositoryAdapter.java:28-37 | a stored number is updated in place and keeps its id, with no new row and no new id; an unseen number adds one row with a new unused id; afterwards the number finds the saved data |
| Persistence.UpsertKeepsOthers | Eventos/src/main/java/com/example/hexagonalorders/infrastructure/out/persistence/repository/OrderRepositoryAdapter.java:36-37 | `save` leaves every other number's row as it was |
| Persistence.RemoveNumber | Eventos/src/main/java/com/example/hexagonalorders/infrastructure/out/persistence/repository/OrderRepositoryAdapter.java:57-59 | every remaining row was in the table and carries another number |
| Persistence.RemoveNumberKeepsTableValid | Eventos/src/main/java/com/example/hexagonalorders/infrastructure/out/persistence/repository/OrderRepositoryAdapter.java:57-59 | deleting keeps the table's invariant |
| Persistence.RemoveNumberSpec | Eventos/src/main/java/com/example/hexagonalorders/infrastructure/out/persistence/repository/OrderRepositoryAdapter.java:57-59 | after deleting, the number is not found, while every other number finds what it found before |
| Persistence.ToDomain | Eventos/src/main/java/com/example/hexagonalorders/infrastructure/out/persistence/repository/OrderRepositoryAdapter.java:40 | a fresh order whose fields are the row's columns, with the constructor's single created event |
| Persistence.OrderRepository.JpaSave | Eventos/src/main/java/com/example/hexagonalorders/infrastructure/out/persistence/repository/OrderRepositoryAdapter.java:37 | merging into the row with the copied id, or inserting with a new id, is exactly the upsert, and keeps the table valid |
| Persistence.OrderRepository.Save | Eventos/src/main/java/com/example/hexagonalorders/infrastructure/out/persistence/repository/OrderRepositoryAdapter.java:22-41 | the table becomes Upsert of the order's columns; the result is a fresh order, not the argument, with the same columns |
| Persistence.OrderRepository.FindByOrderNumber | Eventos/src/main/java/com/example/hexagonalorders/infrastructure/out/persistence/repository/OrderRepositoryAdapter.java:43-47 | an order exactly when a row has the number, mapped from that row |
| Persistence.OrderRepository.FindAll | Eventos/src/main/java/com/example/hexagonalorders/infrastructure/out/persistence/repository/OrderRepositoryAdapter.java:49-54 | one fresh mapped order per row, in storage order |
| Persistence.OrderRepository.DeleteByOrderNumber | Eventos/src/main/java/com/example/hexagonalorders/infrastructure/out/persistence/repository/OrderRepositoryAdapter.java:56-59 | the table becomes RemoveNumber of the old table and stays valid |
| Service.Deliver | Eventos/src/main/java/com/example/hexagonalorders/application/service/OrderService.java:111-114 | the loop over the copied events with the listeners: it publishes no more events than it is given, and all of them when no listener throws; a failure follows at least one published event |
| Service.DeliverPublishesPrefix | Eventos/src/main/java/com/example/hexagonalorders/application/service/OrderService.java:111-114 | the events published are the list's first ones, in order, up to the one whose listener threw, and the whole list when none did |
| Service.DeliverStep | Eventos/src/main/java/com/example/hexagonalorders/application/service/OrderService.java:111-113 | after a run without failure, the next event is published and its listeners' rows or exception are added |
| Service.DeliverFailedPrefix | Eventos/src/main/java/com/example/hexagonalorders/application/service/OrderService.java:111-114 | a run that failed within its first events is over: the rest is neither published nor delivered |
| Service.DeliverStopsAtFailure | Eventos/src/main/java/com/example/hexagonalorders/application/service/OrderService.java:111-114 | once a listener has thrown, later events are neither published nor delivered |
| Service.DeliverWithoutConfirmed | Eventos/src/main/java/com/example/hexagonalorders/application/service/OrderService.java:57-60 | a list without confirmations is published in full and writes no outbox row |
| Service.ConfirmAppendsOneRow | Eventos/src/main/java/com/example/hexagonalorders/application/service/OrderService.java:102-114 | a confirmation appended to a buffer without confirmations publishes the whole buffer; it appends exactly one `OrderConfirmedIntegrationEvent` row for the order number, or none and fails when serialisation fails |
| Service.ConfirmOrderWritesOneRow | Eventos/src/main/java/com/example/hexagonalorders/application/service/OrderService.java:90-120 | for the buffer a loaded order has, `confirmOrder` publishes the created and the confirmed event and adds exactly one pending `OrderConfirmedIntegrationEvent` outbox row |
| Service.CreateOrderWritesNoRow | Eventos/src/main/java/com/example/hexagonalorders/application/service/OrderService.java:51-60 | the buffer of a new order is published in full and adds no outbox row |
| Service.OrderService.constructor | Eventos/src/main/java/com/example/hexagonalorders/application/service/OrderService.java:27-32 | the service shares the handler's outbox, and its publication log starts empty |
| Service.OrderService.PublishEvents | Eventos/src/main/java/com/example/hexagonalorders/application/service/OrderService.java:111-114 | the log, the outbox and the outcome are those of Deliver over the copied events, in order |
| Service.OrderService.CreateOrder | Eventos/src/main/java/com/example/hexagonalorders/application/service/OrderService.java:34-66 | a failed validation changes nothing; otherwise it saves a new order with the generated number and the draft's fields, publishes exactly one created event and writes no outbox row; it returns the repository's order, which has a fresh item list and still holds its created event, not the local order whose buffer was cleared |
| Service.OrderService.ConfirmLoaded | Eventos/src/main/java/com/example/hexagonalorders/application/service/OrderService.java:98-119 | a non-pending order fails with the aggregate's exception before any save or publish; a pending one becomes CONFIRMED, and its buffer plus one confirmed event with a null id is published in order; on success the order is saved and its buffer cleared, and the result is the repository's fresh order with its own created event, not the loaded one; on a listener exception the table and the outbox are restored |
| Service.OrderService.ConfirmOrder | Eventos/src/main/java/com/example/hexagonalorders/application/service/OrderService.java:88-120 | an unknown number throws "Order not found: " followed by the number, with no effect; a stored order that is not pending throws IllegalStateException with no effect; a pending one is stored as CONFIRMED, the outbox gains exactly what Deliver of the created and confirmed events writes, and the result is the repository's fresh order, not the loaded one |
| Service.OrderService.GetOrder | Eventos/src/main/java/com/example/hexagonalorders/application/service/OrderService.java:68-71 | the repository's order with that number, exactly when one is stored |
| Service.OrderService.GetAllOrders | Eventos/src/main/java/com/example/hexagonalorders/application/service/OrderService.java:73-76 | one order per stored row, in storage order |
| Service.OrderService.DeleteOrder | Eventos/src/main/java/com/example/hexagonalorders/application/service/OrderService.java:78-82 | the table loses the rows with that number and no other |
| Service.OrderService.PersistToOutbox | Eventos/src/main/java/com/example/hexagonalorders/application/service/OrderService.java:122-139 | the outbox gains exactly the PendingRow message for the domain event, or the failure is returned and the outbox is unchanged |

## Left out

- I/O: logging (`log.debug`, `log.info`, `log.error`) is not modelled. HandleGenericDomainEvent returns its debug line instead of writing it.
- The asynchronous `kafkaTemplate.send` and its `whenComplete` callback only log, so they are left out; Publish returns the record it would send. There is no relay, `findPending` or `markPublished` in the code, so none is modelled.
- The delivery service's consumer is not part of this model. Its business effect is a TODO. The same holds for the Kafka producer configuration, which has no behaviour.
- The consumer's copy of the integration event and its date format are not modelled. Nor is a `confirmedAt` field of the producer's integration event: its class is not part of this model, and the payload is the opaque result of serialisation.
- JSON serialisation (`ObjectMapper.writeValueAsString`) is a function field that may fail. `UUID.nameUUIDFromBytes` (section 4.3 of RFC 4122, MD5 name-based) is another function field. Both are fixed when the handler or the service is constructed.
- `OrderNumberGenerator.generate` and `OrderValidationService.validateOrder` are not part of this model. CreateOrder takes their results, the number and the validation outcome, as parameters.
- Persistence.ToDomain: `OrderJpaMapper` is not part of this model. It is assumed to map every column and to build the order through its only constructor, so a loaded order carries one created event. ConfirmLoaded is stated for any buffer as well.
- Persistence.OrderRepository: the table is a sequence of rows with one row per order number, used as a map keyed by the number. A plain map would lose the storage order that `findAll` returns.
- Outbox.OutboxStore.Save: the outbox repository adapter is not part of this model, and saving never fails. The "save failure" path of `persistToOutbox` is therefore not represented; its serialisation failure is.
- Service.OrderService.ConfirmLoaded: the rollback also restores the next generated row id. A database sequence would not roll back.
- Spring behaviour is not modelled beyond what is described above. That covers `@Transactional` propagation, listener ordering between the two listeners of one event, and concurrency (`ConcurrentHashMap`, concurrent requests). The two listeners are independent: only one of them can throw, and the other writes nothing.
- `LocalDateTime` values are opaque, non-null tokens.
- Domain.OrderConfirmedIntegrationEvent: it carries only the order number. The producer's class is not part of this model. If its constructor stamps a confirmation time, two confirmations of one order serialise differently, which the model does not represent; Handlers.ConfirmedRowIgnoresOrderId therefore promises equal identity fields, not equal payloads.
- OrderAggregate.Order.GetDomainEvents: it returns a snapshot of the buffer, not the live read-only view `Collections.unmodifiableList` gives. Both callers copy the view at once, so later changes to the buffer are never seen through it.
- `OrderItem` equality is value equality of its two fields.
- There are only the two order statuses that the core uses.
- `toLowerCase` is ASCII lower-casing; the locale-sensitive Unicode mapping is not modelled.
- `trim` strips every character up to and including a space, as Java's does.
- TopicNames.TopicNameMapper.MapToTopicName: `String.format` is plain concatenation. A null prefix or environment cannot occur, because the Spring properties have defaults.
