/**
 * The broker-backed publisher (crates/importer/src/events/kafka/publisher.rs). Sending is an
 * external effect: whether the broker acknowledges a send is an input of `Publish`, and
 * `delivered` is the broker's view of what this publisher produced.
 */
module KafkaPublishing {
  import opened Wrappers
  import opened Json
  import opened EventPublisher

  /** One message as the broker stores it: topic, partitioning key and body. */
  datatype ProducedRecord = ProducedRecord(topic: string, key: string, payload: Value)

  /**
   * The message key: `payload.data.reference` when that is a string, and the empty string
   * otherwise.
   */
  function MessageKey(payload: Value): (key: string)
    ensures key != "" ==>
      payload.Obj? && "data" in payload.fields
      && payload.fields["data"].Obj? && "reference" in payload.fields["data"].fields
      && payload.fields["data"].fields["reference"] == Str(key)
  {
    match Get(payload, "data")
    case None => ""
    case Some(data) =>
      match Get(data, "reference")
      case None => ""
      case Some(reference) =>
        match AsStr(reference)
        case None => ""
        case Some(s) => s
  }

  /** A string at `data.reference` is the key. */
  lemma MessageKeyIsDataReference(payload: Value, reference: string)
    requires payload.Obj? && "data" in payload.fields
    requires payload.fields["data"].Obj? && "reference" in payload.fields["data"].fields
    requires payload.fields["data"].fields["reference"] == Str(reference)
    ensures MessageKey(payload) == reference
  {
  }

  /** Without a `data` member the key is empty. */
  lemma MessageKeyWithoutData(payload: Value)
    requires !(payload.Obj? && "data" in payload.fields)
    ensures MessageKey(payload) == ""
  {
  }

  class KafkaPublisher {
    /** The records the broker acknowledged, in send order. */
    var delivered: seq<ProducedRecord>

    constructor ()
      ensures delivered == []
    {
      delivered := [];
    }

    /**
     * `publish`: sends the whole payload, unchanged, as the body of one record keyed by
     * `MessageKey(payload)`; an acknowledged send is `Ok(())`, any other is an error.
     */
    method Publish(topic: string, payload: Value, acknowledged: bool) returns (r: Outcome<PublishError>)
      modifies this
      ensures r == (if acknowledged then Pass else Fail(SendFailed))
      ensures delivered == if acknowledged
        then old(delivered) + [ProducedRecord(topic, MessageKey(payload), payload)]
        else old(delivered)
    {
      var key := MessageKey(payload);
      var record := ProducedRecord(topic, key, payload);
      if !acknowledged {
        return Fail(SendFailed);
      }
      delivered := delivered + [record];
      return Pass;
    }
  }
}
