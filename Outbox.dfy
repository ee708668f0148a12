/** Outbox rows and the store they are appended to. The row factory and
    the store's adapter are not part of this model: a row holds the four
    values `OutboxMessage.createPendingMessage` is given and starts
    pending, and the store appends every message it is asked to save. */
module Outbox {
  import opened Common
  import opened Domain

  datatype MessageStatus = PendingMessage | PublishedMessage

  datatype OutboxMessage = OutboxMessage(
    aggregateType: string,
    aggregateId: Uuid,
    eventType: string,
    payload: string,
    status: MessageStatus)

  function CreatePendingMessage(aggregateType: string, aggregateId: Uuid, eventType: string, payload: string): OutboxMessage {
    OutboxMessage(aggregateType, aggregateId, eventType, payload, PendingMessage)
  }

  const PersistFailed: string := "Failed to persist event to outbox"

  /** The row a `persistToOutbox(event, aggregateType, aggregateId)` call
      saves, or the exception it throws. `toJson` is the object mapper
      (`None` when it cannot serialise), `nameUuid` is
      `UUID.nameUUIDFromBytes(aggregateId.getBytes())`. */
  function PendingRow(toJson: Serializable -> Option<string>, nameUuid: string -> Uuid,
                      subject: Serializable, aggregateType: string, aggregateId: string): (r: Result<OutboxMessage>)
    ensures r.Err? <==> toJson(subject).None?
    ensures r.Err? ==> r.error == Runtime(PersistFailed, Some(SerializationFailure))
    ensures r.Ok? ==>
      && r.value.aggregateType == aggregateType
      && r.value.aggregateId == nameUuid(aggregateId)
      && r.value.eventType == SimpleName(subject)
      && r.value.payload == toJson(subject).value
      && r.value.status == PendingMessage
  {
    match toJson(subject)
    case None => Err(Runtime(PersistFailed, Some(SerializationFailure)))
    case Some(payload) => Ok(CreatePendingMessage(aggregateType, nameUuid(aggregateId), SimpleName(subject), payload))
  }

  /** The outbox table: rows in insertion order, only ever appended to. */
  class OutboxStore {
    var rows: seq<OutboxMessage>

    constructor ()
      ensures rows == []
    {
      rows := [];
    }

    method Save(message: OutboxMessage)
      modifies this
      ensures rows == old(rows) + [message]
    {
      rows := rows + [message];
    }
  }
}
