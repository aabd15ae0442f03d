/**
 * The two services together: the producer's import job publishes one event per merchant and
 * the receiver's consumer handles them. An event carries the fields the receiver needs in a
 * form its handler reads back exactly, so once the events of a successful import have been
 * consumed, both tables agree on every imported merchant's date, cadence and fee.
 */
module Synchronisation {
  import opened Wrappers
  import opened Integers
  import opened Json
  import opened Uuids
  import opened Dates
  import P = ImporterEntities
  import C = CalculatorEntities
  import opened KeyedUpsert
  import PR = ImporterRepository
  import CR = CalculatorRepository
  import opened KafkaPublishing
  import opened ImportJob
  import opened MerchantUpsertedHandling
  import opened KafkaConsumption

  /** The receiver's cadence of the same name as the producer's. */
  function ReceiverFrequency(f: P.DisbursementFrequency): (g: C.DisbursementFrequency)
    ensures C.Display(g) == P.Display(f)
  {
    match f
    case Daily => C.Daily
    case Weekly => C.Weekly
  }

  /** The receiver-side record of a producer merchant, under the id the receiver generated. */
  function ReceiverView(m: P.Merchant, id: Uuid): (v: C.Merchant)
    ensures v.id == id && v.reference == m.reference && v.liveOn == m.liveOn
    ensures C.Display(v.frequency) == P.Display(m.frequency)
    ensures v.minimumMonthlyFee == m.minimumMonthlyFee
  {
    C.Merchant(id, m.reference, m.liveOn, ReceiverFrequency(m.frequency), m.minimumMonthlyFee)
  }

  /**
   * Round trip: the handler reads back from a producer merchant's event exactly that merchant's
   * reference, date, cadence and fee; only the id is the receiver's own.
   */
  lemma PayloadRoundTrip(m: P.Merchant, freshId: Uuid)
    requires P.WellFormed(m)
    ensures BuildMerchant(MerchantPayload(m), freshId) == Success(ReceiverView(m, freshId))
  {
    var payload := MerchantPayload(m);
    assert At(payload, "live_on") == Str(FormatDate(m.liveOn));
    ParseFormatDate(m.liveOn);
    assert At(payload, "disbursement_frequency") == Str(C.Display(ReceiverFrequency(m.frequency)));
    C.DeserializeDisplay(ReceiverFrequency(m.frequency));
    assert At(payload, "minimum_monthly_fee") == Int(m.minimumMonthlyFee);
    assert At(payload, "merchant_reference") == Str(m.reference);
  }

  /** The consumer's view of the records the producer sent: each arrives with its payload as body. */
  function Deliver(records: seq<ProducedRecord>): seq<Polled> {
    seq(|records|, i requires 0 <= i < |records| => Received(Some(Json(records[i].payload))))
  }

  /** Every handler call finds the database. */
  predicate AllReachable(envs: seq<HandlerEnv>) {
    forall i | 0 <= i < |envs| :: envs[i].reachable
  }

  /** One producer event, handled with the database up, stores that merchant's receiver view. */
  lemma AppliedByEvent(m: P.Merchant, env: HandlerEnv)
    requires P.WellFormed(m) && env.reachable
    ensures AppliedBy(Received(Some(Json(MerchantPayload(m)))), env) == [ReceiverView(m, env.freshId)]
  {
    PayloadRoundTrip(m, env.freshId);
  }

  /**
   * Consuming the events of a batch of well-formed merchants with the database up stores
   * every merchant of the batch, in batch order, each under the id generated for its event.
   */
  lemma AppliedEvents(ms: seq<P.Merchant>, envs: seq<HandlerEnv>)
    requires |envs| == |ms| && AllReachable(envs)
    requires forall i | 0 <= i < |ms| :: P.WellFormed(ms[i])
    ensures var applied := Applied(Deliver(EventRecords(ms)), envs);
      |applied| == |ms| && forall i | 0 <= i < |ms| :: applied[i] == ReceiverView(ms[i], envs[i].freshId)
  {
    var stream := Deliver(EventRecords(ms));
    var views := seq(|ms|, i requires 0 <= i < |ms| => ReceiverView(ms[i], envs[i].freshId));
    forall i | 0 <= i < |ms| ensures AppliedBy(stream[i], envs[i]) == [views[i]] {
      AppliedByEvent(ms[i], envs[i]);
    }
    AppliedEach(stream, envs, views);
  }

  /** A successful import sent exactly the events of its batch, whose references are distinct. */
  lemma SuccessfulImportSends(producerRows: map<string, PR.Row>, ms: seq<P.Merchant>, db: Database, acks: seq<bool>)
    requires ImportAfterRead(producerRows, Success(ms), db, acks).outcome.Pass?
    ensures ImportAfterRead(producerRows, Success(ms), db, acks).sent == EventRecords(ms)
    ensures ms != [] ==> DistinctReferences(PR.Entries(ms))
  {
    var run := ImportAfterRead(producerRows, Success(ms), db, acks);
    ImportRunSucceeds(producerRows, Success(ms), db, acks);
    assert |run.sent| == |ms|;
    forall i | 0 <= i < |ms| ensures run.sent[i] == EventRecords(ms)[i] {
      EventRecordShape(ms[i]);
    }
  }

  /**
   * Consuming the events of a batch of well-formed merchants with distinct references, with the
   * database up, leaves every merchant of the batch in the receiver's table with its own date,
   * cadence string and fee.
   */
  lemma ReceiverStoresEvents(receiverRows: map<string, CR.Row>, ms: seq<P.Merchant>, envs: seq<HandlerEnv>)
    requires forall i | 0 <= i < |ms| :: P.WellFormed(ms[i])
    requires |envs| == |ms| && AllReachable(envs)
    requires DistinctReferences(PR.Entries(ms))
    ensures var received := Consume(receiverRows, Deliver(EventRecords(ms)), envs).rows;
      forall i | 0 <= i < |ms| ::
        && ms[i].reference in received
        && received[ms[i].reference].fields
           == CR.Columns(ms[i].liveOn, P.Display(ms[i].frequency), ms[i].minimumMonthlyFee)
  {
    var stream := Deliver(EventRecords(ms));
    AppliedEvents(ms, envs);
    var views := Applied(stream, envs);
    ConsumeUpsertsApplied(receiverRows, stream, envs);
    assert DistinctReferences(CR.Entries(views)) by {
      forall i, j | 0 <= i < j < |views| ensures CR.Entries(views)[i].reference != CR.Entries(views)[j].reference {
        assert PR.Entries(ms)[i].reference != PR.Entries(ms)[j].reference;
      }
    }
    forall i | 0 <= i < |ms|
      ensures ms[i].reference in Consume(receiverRows, stream, envs).rows
      ensures Consume(receiverRows, stream, envs).rows[ms[i].reference].fields
           == CR.Columns(ms[i].liveOn, P.Display(ms[i].frequency), ms[i].minimumMonthlyFee)
    {
      UpsertAllAt(receiverRows, CR.Entries(views), i);
    }
  }

  /**
   * End to end: after a successful import whose events the receiver consumed with its
   * database up, every imported reference is in both tables, with the same date, the same
   * cadence string and the same fee.
   */
  lemma ProducerAndReceiverAgree(
    producerRows: map<string, PR.Row>, ms: seq<P.Merchant>, db: Database, acks: seq<bool>,
    receiverRows: map<string, CR.Row>, envs: seq<HandlerEnv>)
    requires forall i | 0 <= i < |ms| :: P.WellFormed(ms[i])
    requires ImportAfterRead(producerRows, Success(ms), db, acks).outcome.Pass?
    requires |envs| == |ms| && AllReachable(envs)
    ensures var run := ImportAfterRead(producerRows, Success(ms), db, acks);
      var received := Consume(receiverRows, Deliver(run.sent), envs).rows;
      forall i | 0 <= i < |ms| ::
        && ms[i].reference in run.rows && ms[i].reference in received
        && received[ms[i].reference].fields.liveOn == run.rows[ms[i].reference].fields.liveOn
        && received[ms[i].reference].fields.disbursementFrequency
           == run.rows[ms[i].reference].fields.disbursementFrequency
        && received[ms[i].reference].fields.minimumMonthlyFee
           == run.rows[ms[i].reference].fields.minimumMonthlyFee
  {
    ImportedRows(producerRows, ms, db, acks);
    SuccessfulImportSends(producerRows, ms, db, acks);
    if ms != [] {
      ReceiverStoresEvents(receiverRows, ms, envs);
    }
  }
}
