/**
 * The receiver's merchant record and its cadence enum (crates/calculator/src/entities/merchants.rs).
 * The record has no contact field; the enum displays and deserialises as upper-case tokens.
 */
module CalculatorEntities {
  import opened Wrappers
  import opened Json
  import opened Uuids
  import opened Dates

  datatype DisbursementFrequency = Daily | Weekly

  /** The `strum` display string, which is what the receiver's table stores. */
  function Display(f: DisbursementFrequency): string {
    match f
    case Daily => "DAILY"
    case Weekly => "WEEKLY"
  }

  datatype DeserializeError = UnknownVariant | InvalidType

  /**
   * `serde_json::from_value::<DisbursementFrequency>`: the variant's exact upper-case name,
   * either as a string or as the key of a single-member object whose value is `null`.
   */
  function Deserialize(v: Value): (r: Result<DisbursementFrequency, DeserializeError>)
    ensures r.Success? ==> v == Str(Display(r.value)) || v == Obj(map[Display(r.value) := Null])
  {
    match v
    case Str(name) =>
      if name == "DAILY" then Success(Daily)
      else if name == "WEEKLY" then Success(Weekly)
      else Failure(UnknownVariant)
    case Obj(fields) =>
      if |fields| != 1 then Failure(InvalidType)
      else if "DAILY" in fields then
        if fields["DAILY"] == Null then SingleKey(fields, "DAILY"); Success(Daily)
        else Failure(InvalidType)
      else if "WEEKLY" in fields then
        if fields["WEEKLY"] == Null then SingleKey(fields, "WEEKLY"); Success(Weekly)
        else Failure(InvalidType)
      else Failure(UnknownVariant)
    case _ => Failure(InvalidType)
  }

  /** A one-member map is determined by its member. */
  lemma SingleKey(fields: map<string, Value>, k: string)
    requires |fields| == 1 && k in fields
    ensures fields == map[k := fields[k]]
  {
    var rest := fields.Keys - {k};
    assert |fields.Keys| == |rest| + 1;
    assert rest == {};
  }

  /** Each cadence deserialises back from its display string. */
  lemma DeserializeDisplay(f: DisbursementFrequency)
    ensures Deserialize(Str(Display(f))) == Success(f)
  {
  }

  /** As a string, exactly the two upper-case tokens are accepted: no case folding. */
  lemma DeserializeStrings(s: string)
    ensures Deserialize(Str(s)).Success? <==> s == "DAILY" || s == "WEEKLY"
  {
  }

  /** The display strings of the two cadences differ. */
  lemma DisplayInjective(f: DisbursementFrequency, g: DisbursementFrequency)
    ensures Display(f) == Display(g) ==> f == g
  {
  }

  /** A receiver-side record: locally generated identifier, natural key and billing terms. */
  datatype Merchant = Merchant(
    id: Uuid,
    reference: string,
    liveOn: Date,
    frequency: DisbursementFrequency,
    minimumMonthlyFee: int)
}
