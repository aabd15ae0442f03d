/**
 * The receiver's handler for `merchant_upserted` events
 * (crates/calculator/src/events/handlers/merchant_upserted_handler.rs): it builds a receiver
 * merchant from the loosely-typed payload, with defaults for a missing reference or fee, and
 * upserts that one merchant. The id is generated afresh for every event; it is a parameter here.
 */
module MerchantUpsertedHandling {
  import opened Wrappers
  import opened Integers
  import opened Json
  import opened Uuids
  import opened Dates
  import opened CalculatorEntities
  import opened KeyedUpsert
  import opened CalculatorRepository

  /** Why handling an event failed. */
  datatype HandleError =
    | InvalidDate
    | InvalidFrequency(cause: DeserializeError)
    | Storage(storageError: StorageError)

  /** `.as_str().unwrap_or_default()`: the string a JSON value holds, or `""` when it is not a string. */
  function StrOrDefault(v: Value): (s: string)
    ensures v.Str? ==> s == v.s
    ensures !v.Str? ==> s == ""
  {
    match AsStr(v)
    case Some(s) => s
    case None => ""
  }

  /** The merchant reference the payload names, `""` when it names none. */
  function ReferenceOf(payload: Value): string {
    StrOrDefault(At(payload, "merchant_reference"))
  }

  /** The text handed to the date parser, `""` when the payload has no string date. */
  function DateTextOf(payload: Value): string {
    StrOrDefault(At(payload, "live_on"))
  }

  /** `payload["minimum_monthly_fee"].as_i64().unwrap_or(0) as i32`. */
  function FeeOf(payload: Value): (fee: int)
    ensures I32Min <= fee <= I32Max
    ensures AsI64(At(payload, "minimum_monthly_fee")).None? ==> fee == 0
    ensures AsI64(At(payload, "minimum_monthly_fee")).Some?
        ==> (At(payload, "minimum_monthly_fee").i - fee) % 0x1_0000_0000 == 0
    ensures At(payload, "minimum_monthly_fee").Int? && I32Min <= At(payload, "minimum_monthly_fee").i <= I32Max
        ==> fee == At(payload, "minimum_monthly_fee").i
  {
    match AsI64(At(payload, "minimum_monthly_fee"))
    case Some(n) => WrapI32(n)
    case None => 0
  }

  /**
   * The merchant the handler builds. The date is checked before the cadence, so a payload
   * wrong in both is reported as a bad date; a missing reference or fee is not an error.
   */
  function BuildMerchant(payload: Value, freshId: Uuid): (r: Result<Merchant, HandleError>)
    ensures r.Success? <==> ParseDate(DateTextOf(payload)).Some?
                            && Deserialize(At(payload, "disbursement_frequency")).Success?
    ensures ParseDate(DateTextOf(payload)).None? ==> r == Failure(InvalidDate)
    ensures ParseDate(DateTextOf(payload)).Some? && Deserialize(At(payload, "disbursement_frequency")).Failure?
        ==> r == Failure(InvalidFrequency(Deserialize(At(payload, "disbursement_frequency")).error))
    ensures r.Success? ==> r.value.id == freshId && r.value.reference == ReferenceOf(payload)
    ensures r.Success? ==> ParseDate(DateTextOf(payload)) == Some(r.value.liveOn)
    ensures r.Success? ==> Deserialize(At(payload, "disbursement_frequency")) == Success(r.value.frequency)
    ensures r.Success? ==> r.value.minimumMonthlyFee == FeeOf(payload)
  {
    match ParseDate(DateTextOf(payload))
    case None => Failure(InvalidDate)
    case Some(liveOn) =>
      match Deserialize(At(payload, "disbursement_frequency"))
      case Failure(e) => Failure(InvalidFrequency(e))
      case Success(frequency) =>
        Success(Merchant(freshId, ReferenceOf(payload), liveOn, frequency, FeeOf(payload)))
  }

  /** A built merchant has a real date, rendered exactly as the payload spelled it, and an `i32` fee. */
  lemma BuiltMerchantIsValid(payload: Value, freshId: Uuid)
    requires BuildMerchant(payload, freshId).Success?
    ensures var m := BuildMerchant(payload, freshId).value;
      ValidDate(m.liveOn) && FormatDate(m.liveOn) == At(payload, "live_on").s
      && I32Min <= m.minimumMonthlyFee <= I32Max
  {
    var text := DateTextOf(payload);
    ParsedDateFormatsBack(text);
    assert |text| == 10;
  }

  /** What one handled event did: its outcome and the receiver's rows after it. */
  datatype Handled = Handled(outcome: Outcome<HandleError>, rows: map<string, Row>)

  /** Handling `payload` against rows `rows`; `reachable` says whether the upsert can reach the database. */
  function HandleEvent(rows: map<string, Row>, payload: Value, freshId: Uuid, reachable: bool): Handled {
    match BuildMerchant(payload, freshId)
    case Failure(e) => Handled(Fail(e), rows)
    case Success(m) =>
      match UpsertResult([m], reachable)
      case Fail(e) => Handled(Fail(Storage(e)), rows)
      case Pass => Handled(Pass, UpsertAll(rows, Entries([m])))
  }

  class MerchantUpsertedHandler {
    /** The receiver's table, reached through the handler's connection pool. */
    const repository: MerchantTable

    constructor (repository: MerchantTable)
      ensures this.repository == repository
    {
      this.repository := repository;
    }

    /** `handle`: build the merchant, then upsert it as a batch of one. */
    method Handle(payload: Value, freshId: Uuid, reachable: bool) returns (r: Outcome<HandleError>)
      modifies repository
      ensures r == HandleEvent(old(repository.rows), payload, freshId, reachable).outcome
      ensures repository.rows == HandleEvent(old(repository.rows), payload, freshId, reachable).rows
    {
      var built := BuildMerchant(payload, freshId);
      if built.Failure? {
        return Fail(built.error);
      }
      var upserted := repository.Upsert([built.value], reachable);
      if upserted.Fail? {
        return Fail(Storage(upserted.error));
      }
      return Pass;
    }
  }

  /**
   * A payload that does not build a merchant, or a database that cannot be reached, leaves the
   * rows as they were; an event succeeds exactly when it builds and the database is reachable.
   */
  lemma HandleEventFailureKeepsRows(rows: map<string, Row>, payload: Value, freshId: Uuid, reachable: bool)
    ensures HandleEvent(rows, payload, freshId, reachable).outcome.Pass?
        <==> BuildMerchant(payload, freshId).Success? && reachable
    ensures HandleEvent(rows, payload, freshId, reachable).outcome.Fail?
        ==> HandleEvent(rows, payload, freshId, reachable).rows == rows
  {
    if BuildMerchant(payload, freshId).Success? {
      var m := BuildMerchant(payload, freshId).value;
      assert DistinctReferences(Entries([m]));
    }
  }

  /**
   * A handled event upserts exactly one row, under the payload's reference: a new reference
   * gets the fresh id, an existing one keeps its id and takes the event's date, cadence string
   * and fee. No other reference changes.
   */
  lemma HandleEventUpsertsOneRow(rows: map<string, Row>, payload: Value, freshId: Uuid, reachable: bool)
    requires HandleEvent(rows, payload, freshId, reachable).outcome.Pass?
    ensures var m := BuildMerchant(payload, freshId).value; var after := HandleEvent(rows, payload, freshId, reachable).rows;
      && after.Keys == rows.Keys + {ReferenceOf(payload)}
      && after[ReferenceOf(payload)]
         == Stored(if ReferenceOf(payload) in rows then rows[ReferenceOf(payload)].id else freshId,
                   Columns(m.liveOn, Display(m.frequency), FeeOf(payload)))
      && forall k | k in rows && k != ReferenceOf(payload) :: after[k] == rows[k]
  {
    var m := BuildMerchant(payload, freshId).value;
    UpsertSingle(rows, m);
  }

  /**
   * Handling the same event twice leaves the rows as handling it once, although each handling
   * generates its own id: the second upsert finds the reference and keeps the first id.
   */
  lemma HandleEventTwice(rows: map<string, Row>, payload: Value, firstId: Uuid, secondId: Uuid)
    ensures var once := HandleEvent(rows, payload, firstId, true).rows;
      HandleEvent(once, payload, secondId, true).rows == once
  {
    var once := HandleEvent(rows, payload, firstId, true).rows;
    if BuildMerchant(payload, firstId).Success? {
      var m1 := BuildMerchant(payload, firstId).value;
      var m2 := BuildMerchant(payload, secondId).value;
      UpsertSingle(rows, m1);
      UpsertSingle(once, m2);
      assert DistinctReferences(Entries([m1])) && DistinctReferences(Entries([m2]));
      var twice := HandleEvent(once, payload, secondId, true).rows;
      assert twice.Keys == once.Keys;
      forall k | k in once ensures twice[k] == once[k] {
      }
    }
  }
}
