/** KafkaMessagePublisher.java, up to the hand-off to the Kafka client:
    the topic argument "Aggregate.EventType" is split on dots, checked to
    have exactly two parts, and mapped to a Kafka topic; the record handed
    to `kafkaTemplate.send` is keyed by the event type. */
module Messaging {
  import opened Common
  import opened JavaStrings
  import opened TopicNames

  /** What `kafkaTemplate.send(topic, key, value)` receives. */
  datatype ProducerRecord = ProducerRecord(topic: string, key: string, value: string)

  const PublishFailed: string := "Failed to publish message to Kafka"

  function BadTopicMessage(topic: string): string {
    "Topic debe ser 'Aggregate.EventType' (recibido: " + topic + ")"
  }

  /** The split and the length check of `publish`. */
  function ParseTopic(topic: string): (r: Result<(string, string)>)
    ensures r.Err? ==> r.error == IllegalArgument(BadTopicMessage(topic))
    ensures r.Ok? ==> !NoDot(topic) && NoDot(r.value.0) && NoDot(r.value.1) && r.value.1 != ""
  {
    var parts := SplitOnDot(topic);
    if |parts| != 2 then Err(IllegalArgument(BadTopicMessage(topic)))
    else Ok((parts[0], parts[1]))
  }

  lemma {:induction false} DropEmpties(xs: seq<string>, k: nat)
    requires xs != [] && xs[|xs| - 1] != ""
    ensures DropTrailingEmpty(xs + Empties(k)) == xs
  {
    if k > 0 {
      assert (xs + Empties(k))[..|xs| + k - 1] == xs + Empties(k - 1);
      DropEmpties(xs, k - 1);
    } else {
      assert xs + Empties(0) == xs;
    }
  }

  lemma {:induction false} FieldsOfTopic(a: string, e: string, k: nat)
    requires NoDot(a) && NoDot(e)
    ensures Fields(a + "." + e + Dots(k)) == [a, e] + Empties(k)
  {
    assert a + "." + e + Dots(k) == a + "." + (e + Dots(k));
    FieldsNoDot(a, e + Dots(k));
    if k == 0 {
      assert e + Dots(0) == e;
      FieldsNoDot(e, "");
    } else {
      assert e + Dots(k) == e + "." + Dots(k - 1);
      FieldsNoDot(e, Dots(k - 1));
      FieldsDots(k - 1);
    }
  }

  /** Every topic of the form `a.e` followed by any number of dots, with
      `a` and `e` dot-free and `e` non-empty, is accepted as `(a, e)`. */
  lemma ParseTopicComplete(a: string, e: string, k: nat)
    requires NoDot(a) && NoDot(e) && e != ""
    ensures ParseTopic(a + "." + e + Dots(k)) == Ok((a, e))
  {
    var t := a + "." + e + Dots(k);
    FieldsOfTopic(a, e, k);
    DropEmpties([a, e], k);
    assert t[|a|] == '.';
  }

  /** Conversely, an accepted topic has exactly that form: Java's `split`
      drops trailing empty fields, so any number of trailing dots is
      tolerated, while an empty event type is not. */
  lemma ParseTopicSound(topic: string)
    requires ParseTopic(topic).Ok?
    ensures var (a, e) := ParseTopic(topic).value;
      NoDot(a) && NoDot(e) && e != "" && exists k: nat :: topic == a + "." + e + Dots(k)
  {
    var (a, e) := ParseTopic(topic).value;
    var fs := Fields(topic);
    assert !NoDot(topic);
    var m := |fs| - 2;
    assert fs == [a, e] + Empties(m);
    JoinFields(topic);
    JoinEmpties(a, e, m);
  }

  /** Keys built from dot-free parts never collide, so a pair obtained by
      `ParseTopic` finds exactly its own override. */
  lemma OverrideKeyInjective(a1: string, e1: string, a2: string, e2: string)
    requires NoDot(a1) && NoDot(e1) && NoDot(a2) && NoDot(e2)
    requires OverrideKey(a1, e1) == OverrideKey(a2, e2)
    ensures a1 == a2 && e1 == e2
  {
    var s := OverrideKey(a1, e1);
    assert s[|a1|] == '.' && s[|a2|] == '.';
    assert forall i :: 0 <= i < |a1| ==> s[i] == a1[i] != '.';
    assert forall i :: 0 <= i < |a2| ==> s[i] == a2[i] != '.';
    assert |a1| == |a2|;
    assert a1 == s[..|a1|] == a2;
    assert e1 == s[|a1| + 1..] == e2;
  }

  // Concrete cases of Java's split rule.

  lemma TrailingDotAccepted()
    ensures ParseTopic("Order.X.") == Ok(("Order", "X"))
  {
    assert "Order.X." == "Order" + "." + "X" + Dots(1);
    ParseTopicComplete("Order", "X", 1);
  }

  lemma EmptyAggregateAccepted()
    ensures ParseTopic(".X") == Ok(("", "X"))
  {
    assert ".X" == "" + "." + "X" + Dots(0);
    ParseTopicComplete("", "X", 0);
  }

  lemma EmptyEventTypeRejected()
    ensures ParseTopic("Order.") == Err(IllegalArgument(BadTopicMessage("Order.")))
    ensures ParseTopic("") == Err(IllegalArgument(BadTopicMessage("")))
  {
    assert "Order." == "Order" + "." + "";
    FieldsNoDot("Order", "");
    assert Fields("Order.") == ["Order", ""];
    assert DropTrailingEmpty(["Order", ""]) == DropTrailingEmpty(["Order"]);
  }

  lemma ThreePartsRejected()
    ensures ParseTopic("Order.A.B").Err?
  {
    ThreePartsFields();
    assert DropTrailingEmpty(["Order", "A", "B"]) == ["Order", "A", "B"];
    assert "Order.A.B"[5] == '.';
  }

  lemma ThreePartsFields()
    ensures Fields("Order.A.B") == ["Order", "A", "B"]
  {
    assert "Order.A.B" == "Order" + "." + "A.B";
    assert "A.B" == "A" + "." + "B";
    FieldsNoDot("A", "B");
    FieldsNoDot("B", "");
    FieldsNoDot("Order", "A.B");
  }

  class KafkaMessagePublisher {
    const mapper: TopicNameMapper

    constructor (mapper: TopicNameMapper)
      ensures this.mapper == mapper
    {
      this.mapper := mapper;
    }

    /** `publish(topic, payload)` up to `kafkaTemplate.send`: the record it
        sends, or the exception it throws, every failure wrapped in a
        RuntimeException. Nothing is changed. */
    method Publish(topic: string, payload: string) returns (r: Result<ProducerRecord>)
      ensures r.Ok? <==> ParseTopic(topic).Ok?
      ensures r.Ok? ==>
        var (aggregate, eventType) := ParseTopic(topic).value;
        r.value == ProducerRecord(mapper.MapToTopicName(aggregate, eventType), eventType, payload)
      ensures r.Err? ==>
        r.error == Runtime(PublishFailed, Some(IllegalArgument(BadTopicMessage(topic))))
    {
      var parts := SplitOnDot(topic);
      if |parts| != 2 {
        return Err(Runtime(PublishFailed, Some(IllegalArgument(BadTopicMessage(topic)))));
      }
      var aggregate := parts[0];
      var eventType := parts[1];
      var kafkaTopic := mapper.MapToTopicName(aggregate, eventType);
      r := Ok(ProducerRecord(kafkaTopic, eventType, payload));
    }
  }

  /** The mapper's override key `Order.OrderConfirmedIntegrationEvent`,
      passed as the topic argument of `publish` with the default
      configuration, parses into its two parts and is sent to the
      delivery service's topic. */
  lemma ConfirmedTopicReachesDelivery(p: KafkaMessagePublisher, payload: string)
    requires p.mapper.prefix == DefaultPrefix && p.mapper.env == DefaultEnv
    requires p.mapper.mappings == map[ConfirmedKey := ConfirmedBase]
    ensures ParseTopic(ConfirmedKey) == Ok(("Order", "OrderConfirmedIntegrationEvent"))
    ensures p.mapper.MapToTopicName("Order", "OrderConfirmedIntegrationEvent") == DeliveryTopic
  {
    ConfirmedKeyParts();
    ParseTopicComplete("Order", "OrderConfirmedIntegrationEvent", 0);
    ConfirmedResolvesToDeliveryTopic(p.mapper);
  }

  lemma ConfirmedKeyParts()
    ensures ConfirmedKey == "Order" + "." + "OrderConfirmedIntegrationEvent" + Dots(0)
    ensures NoDot("Order") && NoDot("OrderConfirmedIntegrationEvent")
  {
  }
}
