/**
 * The import job (crates/importer/src/jobs/import_csv.rs): normalise the batch file, upsert
 * every merchant in one statement, then publish one redacted event per merchant, in order.
 * Each step's failure ends the run. The transaction the job opens is never used by the
 * upsert, so nothing is rolled back: a failed publish leaves the upsert in place.
 */
module ImportJob {
  import opened Wrappers
  import opened Json
  import opened Dates
  import opened ImporterEntities
  import opened KeyedUpsert
  import opened CsvNormalizer
  import opened ImporterRepository
  import opened EventPublisher
  import opened KafkaPublishing

  const MerchantUpsertedTopic: string := "merchant_upserted"

  /** The four members every event payload carries, and nothing else. */
  const PayloadKeys: set<string> :=
    {"merchant_reference", "live_on", "disbursement_frequency", "minimum_monthly_fee"}

  /**
   * The event for one merchant: reference, date, cadence token and fee. The identifier and
   * the email are not sent to other services.
   */
  function MerchantPayload(m: Merchant): (p: Value)
    ensures p.Obj? && p.fields.Keys == PayloadKeys
    ensures "id" !in p.fields && "email" !in p.fields
  {
    Obj(map[
      "merchant_reference" := Str(m.reference),
      "live_on" := Str(FormatDate(m.liveOn)),
      "disbursement_frequency" := Str(Display(m.frequency)),
      "minimum_monthly_fee" := Int(m.minimumMonthlyFee)])
  }

  /** The record the broker stores for one merchant's event. */
  function EventRecord(m: Merchant): ProducedRecord {
    ProducedRecord(MerchantUpsertedTopic, MessageKey(MerchantPayload(m)), MerchantPayload(m))
  }

  function EventRecords(ms: seq<Merchant>): (rs: seq<ProducedRecord>)
    ensures |rs| == |ms| && forall i | 0 <= i < |ms| :: rs[i] == EventRecord(ms[i])
  {
    seq(|ms|, i requires 0 <= i < |ms| => EventRecord(ms[i]))
  }

  /**
   * Every event goes to `merchant_upserted` with an empty key: the payload has no `data`
   * member, so the publisher finds no reference to key it by.
   */
  lemma EventRecordShape(m: Merchant)
    ensures EventRecord(m).topic == MerchantUpsertedTopic
    ensures EventRecord(m).key == ""
    ensures EventRecord(m).payload == MerchantPayload(m)
  {
    MessageKeyWithoutData(MerchantPayload(m));
  }

  /** Whether the broker acknowledges the `i`-th send of the run; sends past the script are acknowledged. */
  predicate Acknowledged(acks: seq<bool>, i: nat) {
    i >= |acks| || acks[i]
  }

  /** The index of the first of `n` sends the broker refuses, or `n` when it refuses none. */
  function FirstRefused(n: nat, acks: seq<bool>): (k: nat)
    ensures k <= n
    ensures forall j | 0 <= j < k :: Acknowledged(acks, j)
    ensures k < n ==> !Acknowledged(acks, k)
  {
    if n == 0 then 0
    else
      var k := FirstRefused(n - 1, acks);
      if k < n - 1 then k
      else if Acknowledged(acks, n - 1) then n else n - 1
  }

  /**
   * `publish_merchants`: one publish per merchant in list order, stopping at the first
   * refused send and returning its error.
   */
  method PublishMerchants(publisher: KafkaPublisher, merchants: seq<Merchant>, acks: seq<bool>)
    returns (r: Outcome<PublishError>)
    modifies publisher
    ensures r == (if FirstRefused(|merchants|, acks) < |merchants| then Fail(SendFailed) else Pass)
    ensures publisher.delivered
         == old(publisher.delivered) + EventRecords(merchants)[..FirstRefused(|merchants|, acks)]
  {
    ghost var events := EventRecords(merchants);
    var i := 0;
    while i < |merchants|
      invariant 0 <= i <= |merchants|
      invariant forall j | 0 <= j < i :: Acknowledged(acks, j)
      invariant publisher.delivered == old(publisher.delivered) + events[..i]
    {
      var payload := MerchantPayload(merchants[i]);
      var sent := publisher.Publish(MerchantUpsertedTopic, payload, Acknowledged(acks, i));
      if sent.Fail? {
        return sent;
      }
      assert events[i] == ProducedRecord(MerchantUpsertedTopic, MessageKey(payload), payload);
      assert events[..i + 1] == events[..i] + [events[i]];
      i := i + 1;
    }
    return Pass;
  }

  /** What can fail in a run. */
  datatype ImportError =
    | Normalize(normalizeError: NormalizeError)
    | Storage(storageError: StorageError)
    | Publish(publishError: PublishError)

  /** How the database answers the job's connect, begin, upsert and commit. */
  datatype Database = Database(connects: bool, begins: bool, executes: bool, commits: bool)

  /** The result of a run: its outcome, the producer's rows after it, and the records it sent. */
  datatype Run = Run(outcome: Outcome<ImportError>, rows: map<string, Row>, sent: seq<ProducedRecord>)

  /**
   * The job once the batch file has been read: `read` is what the reader returned. Each step's
   * failure ends the run; the steps before the failure keep their effects.
   */
  function ImportAfterRead(rows: map<string, Row>, read: Result<seq<Merchant>, NormalizeError>, db: Database, acks: seq<bool>): Run {
    match read
    case Failure(e) => Run(Fail(Normalize(e)), rows, [])
    case Success(ms) =>
      if !db.connects || !db.begins then Run(Fail(Storage(Unreachable)), rows, [])
      else
        match UpsertResult(ms, db.executes)
        case Fail(e) => Run(Fail(Storage(e)), rows, [])
        case Pass =>
          var stored := UpsertAll(rows, Entries(ms));
          var k := FirstRefused(|ms|, acks);
          if k < |ms| then Run(Fail(Publish(SendFailed)), stored, EventRecords(ms)[..k])
          else if !db.commits then Run(Fail(Storage(Unreachable)), stored, EventRecords(ms))
          else Run(Pass, stored, EventRecords(ms))
  }

  /** A whole run of the job from the producer's rows `rows`. */
  function ImportRun(rows: map<string, Row>, source: BatchSource, db: Database, acks: seq<bool>): Run
    requires IndexableSource(source)
  {
    ImportAfterRead(rows, Normalized(source), db, acks)
  }

  /** `import_merchants_csv_handler`. */
  method ImportMerchantsCsvHandler(
    source: BatchSource, db: Database, acks: seq<bool>, table: MerchantTable, publisher: KafkaPublisher)
    returns (r: Outcome<ImportError>)
    requires IndexableSource(source)
    modifies table, publisher
    ensures r == ImportRun(old(table.rows), source, db, acks).outcome
    ensures table.rows == ImportRun(old(table.rows), source, db, acks).rows
    ensures publisher.delivered == old(publisher.delivered) + ImportRun(old(table.rows), source, db, acks).sent
  {
    var normalized := ReadAndNormalizeMerchants(source);
    if normalized.Failure? {
      return Fail(Normalize(normalized.error));
    }
    var merchants := normalized.value;
    if !db.connects || !db.begins {
      return Fail(Storage(Unreachable));
    }
    // The transaction begun here is not the one the upsert runs on: the upsert goes
    // straight to the pool and is durable on its own.
    var upserted := table.Upsert(merchants, db.executes);
    if upserted.Fail? {
      return Fail(Storage(upserted.error));
    }
    var published := PublishMerchants(publisher, merchants, acks);
    if published.Fail? {
      return Fail(Publish(published.error));
    }
    if !db.commits {
      return Fail(Storage(Unreachable));
    }
    assert EventRecords(merchants)[..|merchants|] == EventRecords(merchants);
    return Pass;
  }

  /**
   * A batch that does not normalise ends the run before the database or the broker is
   * touched: the result does not depend on how either would have answered, no row changes
   * and nothing is sent.
   */
  lemma NormalizeFailureTouchesNothing(
    rows: map<string, Row>, e: NormalizeError, db: Database, acks: seq<bool>, db': Database, acks': seq<bool>)
    ensures ImportAfterRead(rows, Failure(e), db, acks) == ImportAfterRead(rows, Failure(e), db', acks')
    ensures ImportAfterRead(rows, Failure(e), db, acks) == Run(Fail(Normalize(e)), rows, [])
  {
  }

  /** Nothing is published unless the batch was read and its upsert went through. */
  lemma PublishOnlyAfterUpsert(rows: map<string, Row>, read: Result<seq<Merchant>, NormalizeError>, db: Database, acks: seq<bool>)
    requires ImportAfterRead(rows, read, db, acks).sent != []
    ensures read.Success? && db.connects && db.begins && UpsertResult(read.value, db.executes).Pass?
    ensures ImportAfterRead(rows, read, db, acks).rows == UpsertAll(rows, Entries(read.value))
  {
  }

  /** A run leaves the producer's rows either untouched or holding the whole batch, never part of it. */
  lemma ImportRunAllOrNothing(rows: map<string, Row>, read: Result<seq<Merchant>, NormalizeError>, db: Database, acks: seq<bool>)
    ensures var after := ImportAfterRead(rows, read, db, acks).rows;
      after == rows || (read.Success? && after == UpsertAll(rows, Entries(read.value)))
  {
  }

  /** What a run sends is always a prefix of the batch's events, in list order. */
  lemma SentIsPrefix(rows: map<string, Row>, ms: seq<Merchant>, db: Database, acks: seq<bool>)
    ensures var sent := ImportAfterRead(rows, Success(ms), db, acks).sent;
      |sent| <= |ms| && sent == EventRecords(ms)[..|sent|]
  {
    assert EventRecords(ms)[..|ms|] == EventRecords(ms);
  }

  /**
   * A run succeeds exactly when every step does; it then stores the whole batch and has sent one
   * record per merchant, in list order, each on `merchant_upserted` with an empty key and that
   * merchant's redacted payload.
   */
  lemma ImportRunSucceeds(rows: map<string, Row>, read: Result<seq<Merchant>, NormalizeError>, db: Database, acks: seq<bool>)
    ensures ImportAfterRead(rows, read, db, acks).outcome.Pass? <==>
        && read.Success? && db.connects && db.begins && db.commits
        && UpsertResult(read.value, db.executes).Pass?
        && forall j | 0 <= j < |read.value| :: Acknowledged(acks, j)
    ensures var run := ImportAfterRead(rows, read, db, acks);
      run.outcome.Pass? ==>
        && run.rows == UpsertAll(rows, Entries(read.value))
        && |run.sent| == |read.value|
        && forall i | 0 <= i < |read.value| ::
             && run.sent[i].topic == MerchantUpsertedTopic
             && run.sent[i].key == ""
             && run.sent[i].payload == MerchantPayload(read.value[i])
  {
    if read.Success? {
      var ms := read.value;
      var k := FirstRefused(|ms|, acks);
      if k < |ms| {
        assert !Acknowledged(acks, k);
      }
      forall i | 0 <= i < |ms|
        ensures EventRecords(ms)[i].key == ""
      {
        EventRecordShape(ms[i]);
      }
    }
  }

  /**
   * With a publisher that acknowledges every send, as the in-memory one of the integration
   * tests does, a run whose database steps all succeed passes, stores the whole batch and
   * sends one event per merchant, in list order.
   */
  lemma EveryAckPublishesAll(rows: map<string, Row>, ms: seq<Merchant>, db: Database)
    requires db.connects && db.begins && db.commits && UpsertResult(ms, db.executes).Pass?
    ensures ImportAfterRead(rows, Success(ms), db, []) == Run(Pass, UpsertAll(rows, Entries(ms)), EventRecords(ms))
  {
  }

  /**
   * A refused send ends the run with the publish error. The transaction is never used by the
   * upsert, so the batch stays stored; exactly the records before the refused one were sent.
   */
  lemma PublishFailureKeepsUpserts(rows: map<string, Row>, read: Result<seq<Merchant>, NormalizeError>, db: Database, acks: seq<bool>)
    requires ImportAfterRead(rows, read, db, acks).outcome == Fail(Publish(SendFailed))
    ensures read.Success?
    ensures var run := ImportAfterRead(rows, read, db, acks);
      && run.rows == UpsertAll(rows, Entries(read.value))
      && |run.sent| < |read.value|
      && run.sent == EventRecords(read.value)[..|run.sent|]
      && (forall j | 0 <= j < |run.sent| :: Acknowledged(acks, j))
      && !Acknowledged(acks, |run.sent|)
  {
    var ms := read.value;
    var k := FirstRefused(|ms|, acks);
    assert k < |ms|;
    assert ImportAfterRead(rows, read, db, acks) == Run(Fail(Publish(SendFailed)), UpsertAll(rows, Entries(ms)), EventRecords(ms)[..k]);
  }

  /**
   * Running the job again on the same batch after a successful run gives the same run: the
   * second upsert rewrites every row with what it already holds, and the same events go out.
   */
  lemma ReimportIsIdempotent(rows: map<string, Row>, ms: seq<Merchant>, db: Database, acks: seq<bool>)
    requires ImportAfterRead(rows, Success(ms), db, acks).outcome.Pass?
    ensures ImportAfterRead(ImportAfterRead(rows, Success(ms), db, acks).rows, Success(ms), db, acks)
         == ImportAfterRead(rows, Success(ms), db, acks)
  {
    if ms != [] {
      UpsertAllIdempotent(rows, Entries(ms));
    }
  }

  /**
   * After a successful run each merchant of the batch is stored under its reference with its
   * email, date, cadence string and fee; a reference that was already stored keeps its id, a
   * batch whose references are all stored already adds no row, and other rows are unchanged.
   */
  lemma ImportedRows(rows: map<string, Row>, ms: seq<Merchant>, db: Database, acks: seq<bool>)
    requires ImportAfterRead(rows, Success(ms), db, acks).outcome.Pass?
    ensures var after := ImportAfterRead(rows, Success(ms), db, acks).rows;
      forall i | 0 <= i < |ms| ::
        && ms[i].reference in after
        && after[ms[i].reference]
           == Stored(if ms[i].reference in rows then rows[ms[i].reference].id else ms[i].id,
                     Columns(ms[i].email, ms[i].liveOn, Display(ms[i].frequency), ms[i].minimumMonthlyFee))
    ensures var after := ImportAfterRead(rows, Success(ms), db, acks).rows;
      (forall i | 0 <= i < |ms| :: ms[i].reference in rows) ==> |after| == |rows|
    ensures var after := ImportAfterRead(rows, Success(ms), db, acks).rows;
      forall k | k in rows && k !in References(Entries(ms)) :: k in after && after[k] == rows[k]
  {
    var after := UpsertAll(rows, Entries(ms));
    assert ImportAfterRead(rows, Success(ms), db, acks).rows == after;
    forall i | 0 <= i < |ms|
      ensures ms[i].reference in after
      ensures after[ms[i].reference]
           == Stored(if ms[i].reference in rows then rows[ms[i].reference].id else ms[i].id,
                     Columns(ms[i].email, ms[i].liveOn, Display(ms[i].frequency), ms[i].minimumMonthlyFee))
    {
      UpsertedRow(rows, ms, i);
    }
    if forall i | 0 <= i < |ms| :: ms[i].reference in rows {
      ReimportKeepsRowCount(rows, ms);
    }
    forall k | k in rows && k !in References(Entries(ms))
      ensures k in after && after[k] == rows[k]
    {
      UpsertAllElsewhere(rows, Entries(ms), k);
    }
  }
}
