/**
 * The producer's merchant record. Its entity file is not part of this model: the fields are
 * the ones the row normaliser fills in (crates/importer/src/services/csv_normalizer.rs), and
 * the cadence is taken to render as the upper-case tokens the receiver's enum uses.
 */
module ImporterEntities {
  import opened Integers
  import opened Uuids
  import opened Dates

  datatype DisbursementFrequency = Daily | Weekly

  /** The cadence's display string, stored in the producer's table and sent in events. */
  function Display(f: DisbursementFrequency): string {
    match f
    case Daily => "DAILY"
    case Weekly => "WEEKLY"
  }

  /** A full producer-side record: identifier, natural key, contact field and billing terms. */
  datatype Merchant = Merchant(
    id: Uuid,
    reference: string,
    email: string,
    liveOn: Date,
    frequency: DisbursementFrequency,
    minimumMonthlyFee: int)

  /** What the Rust types guarantee of a record: a real date and a fee that fits an `i32`. */
  predicate WellFormed(m: Merchant) {
    ValidUuid(m.id) && ValidDate(m.liveOn) && I32Min <= m.minimumMonthlyFee <= I32Max
  }
}
