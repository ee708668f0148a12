/** TopicNameMapper.java: turns an (aggregate type, event type) pair into
    the Kafka topic name `<prefix>-<env>-<base>`, where `base` comes from
    an override table or from a default lower-casing rule. */
module TopicNames {
  import opened JavaStrings

  /** Defaults of the `kafka.topic.prefix` and `kafka.topic.environment`
      properties. */
  const DefaultPrefix: string := "hexagonal-orders"
  const DefaultEnv: string := "dev"

  /** The event-type fragment the default rule deletes. */
  const IntegrationSuffix: string := "IntegrationEvent"

  /** The one override the constructor registers. */
  const ConfirmedKey: string := "Order.OrderConfirmedIntegrationEvent"
  const ConfirmedBase: string := "order-confirmed"

  /** The topic the delivery service's consumer subscribes to. */
  const DeliveryTopic: string := "hexagonal-orders-dev-order-confirmed"

  /** The lookup key of a pair. */
  function OverrideKey(aggregateType: string, eventType: string): string {
    aggregateType + "." + eventType
  }

  /** The default base name: lower-cased aggregate type, a hyphen, and the
      lower-cased event type with "IntegrationEvent" removed. */
  function DefaultBase(aggregateType: string, eventType: string): string {
    Lower(aggregateType) + "-" + Lower(RemoveAll(eventType, IntegrationSuffix))
  }

  class TopicNameMapper {
    const prefix: string
    const env: string
    var mappings: map<string, string>

    /** The constructor fills the table with its single override; prefix and
        environment are the injected property values. */
    constructor (prefix: string, env: string)
      ensures this.prefix == prefix && this.env == env
      ensures mappings == map[ConfirmedKey := ConfirmedBase]
    {
      this.prefix := prefix;
      this.env := env;
      mappings := map[ConfirmedKey := ConfirmedBase];
    }

    /** `mapToTopicName`: reads only the arguments, prefix, env and the
        table, and changes nothing. */
    function MapToTopicName(aggregateType: string, eventType: string): (r: string)
      reads this
      ensures |r| >= |prefix| + |env| + 2 && r[..|prefix| + |env| + 2] == prefix + "-" + env + "-"
    {
      var full := OverrideKey(aggregateType, eventType);
      var base := if full in mappings then mappings[full] else DefaultBase(aggregateType, eventType);
      prefix + "-" + env + "-" + base
    }
  }

  /** Two mappers that agree on prefix, env and table resolve every pair
      to the same topic. */
  lemma MapToTopicNameDeterministic(m1: TopicNameMapper, m2: TopicNameMapper, aggregateType: string, eventType: string)
    requires m1.prefix == m2.prefix && m1.env == m2.env && m1.mappings == m2.mappings
    ensures m1.MapToTopicName(aggregateType, eventType) == m2.MapToTopicName(aggregateType, eventType)
  {
  }

  /** An explicit mapping wins over the default rule. */
  lemma OverrideWins(m: TopicNameMapper, aggregateType: string, eventType: string)
    requires OverrideKey(aggregateType, eventType) in m.mappings
    ensures m.MapToTopicName(aggregateType, eventType)
         == m.prefix + "-" + m.env + "-" + m.mappings[OverrideKey(aggregateType, eventType)]
  {
  }

  /** Without a mapping the default rule applies. */
  lemma DefaultRule(m: TopicNameMapper, aggregateType: string, eventType: string)
    requires OverrideKey(aggregateType, eventType) !in m.mappings
    ensures m.MapToTopicName(aggregateType, eventType)
         == m.prefix + "-" + m.env + "-" + DefaultBase(aggregateType, eventType)
  {
  }

  /** "IntegrationEvent" is removed wherever it occurs, not only at the end:
      an event type made of `a`, the fragment and `b` has the base name of
      `a` and `b` with the fragment removed from each. */
  lemma DefaultBaseRemovesEveryOccurrence(aggregateType: string, a: string, b: string)
    ensures DefaultBase(aggregateType, a + IntegrationSuffix + b)
         == Lower(aggregateType) + "-" + (Lower(RemoveAll(a, IntegrationSuffix)) + Lower(RemoveAll(b, IntegrationSuffix)))
  {
    SuffixBorderFree();
    var ra, rb := RemoveAll(a, IntegrationSuffix), RemoveAll(b, IntegrationSuffix);
    RemoveAllSplits(a, IntegrationSuffix, b);
    LowerAppend(ra, rb);
  }

  lemma SuffixBorderFree()
    ensures BorderFree(IntegrationSuffix)
  {
    forall k | 0 < k < |IntegrationSuffix|
      ensures IntegrationSuffix[..k] != IntegrationSuffix[|IntegrationSuffix| - k..]
    {
      assert IntegrationSuffix[..k][0] == 'I';
      assert IntegrationSuffix[|IntegrationSuffix| - k..][0] == IntegrationSuffix[|IntegrationSuffix| - k];
    }
  }

  /** With the default configuration, ("Order", "OrderConfirmedIntegrationEvent")
      resolves to the topic the delivery service subscribes to. */
  lemma ConfirmedResolvesToDeliveryTopic(m: TopicNameMapper)
    requires m.prefix == DefaultPrefix && m.env == DefaultEnv
    requires m.mappings == map[ConfirmedKey := ConfirmedBase]
    ensures m.MapToTopicName("Order", "OrderConfirmedIntegrationEvent") == DeliveryTopic
  {
    ConfirmedKeyIsOrderConfirmed();
    OverrideWins(m, "Order", "OrderConfirmedIntegrationEvent");
    DeliveryTopicIsConfirmedTopic();
  }

  lemma ConfirmedKeyIsOrderConfirmed()
    ensures OverrideKey("Order", "OrderConfirmedIntegrationEvent") == ConfirmedKey
  {
  }

  lemma DeliveryTopicIsConfirmedTopic()
    ensures DefaultPrefix + "-" + DefaultEnv + "-" + ConfirmedBase == DeliveryTopic
  {
  }

  /** Without the override the default rule would produce a different
      topic, "hexagonal-orders-dev-order-orderconfirmed": the override is
      what makes producer and consumer meet. */
  lemma ConfirmedDefaultRuleMisses()
    ensures DefaultBase("Order", "OrderConfirmedIntegrationEvent") == "order-orderconfirmed"
    ensures DefaultBase("Order", "OrderConfirmedIntegrationEvent") != ConfirmedBase
  {
    ConfirmedEventTypeSplits();
    DefaultBaseRemovesEveryOccurrence("Order", "OrderConfirmed", "");
    RemoveAllAbsent("OrderConfirmed", IntegrationSuffix);
    assert RemoveAll("", IntegrationSuffix) == "";
    LowerOrderConfirmed();
  }

  lemma ConfirmedEventTypeSplits()
    ensures "OrderConfirmedIntegrationEvent" == "OrderConfirmed" + IntegrationSuffix + ""
  {
  }

  lemma LowerOrderConfirmed()
    ensures Lower("Order") + "-" + (Lower("OrderConfirmed") + Lower("")) == "order-orderconfirmed"
  {
  }
}
