/**
 * The producer's `merchants` table and its batch upsert
 * (crates/importer/src/repositories/merchants.rs).
 */
module ImporterRepository {
  import opened Wrappers
  import opened Uuids
  import opened Dates
  import opened ImporterEntities
  import opened KeyedUpsert

  /** The columns the statement overwrites on conflict: everything but id and reference. */
  datatype Columns = Columns(
    email: string,
    liveOn: Date,
    disbursementFrequency: string,
    minimumMonthlyFee: int)

  type Row = Stored<Uuid, Columns>

  /** The values one merchant binds into the statement; the cadence is bound as its display string. */
  function ToEntry(m: Merchant): (e: Entry<Uuid, Columns>)
    ensures e.reference == m.reference && e.id == m.id
    ensures e.fields.email == m.email && e.fields.liveOn == m.liveOn
    ensures e.fields.disbursementFrequency == Display(m.frequency)
    ensures e.fields.minimumMonthlyFee == m.minimumMonthlyFee
  {
    Entry(m.reference, m.id, Columns(m.email, m.liveOn, Display(m.frequency), m.minimumMonthlyFee))
  }

  function Entries(ms: seq<Merchant>): (es: seq<Entry<Uuid, Columns>>)
    ensures |es| == |ms| && forall i | 0 <= i < |ms| :: es[i] == ToEntry(ms[i])
  {
    seq(|ms|, i requires 0 <= i < |ms| => ToEntry(ms[i]))
  }

  /** Why the database refused the statement. */
  datatype StorageError =
    | Unreachable         // connectivity failure while executing
    | DuplicateReference  // one statement may not update the same row twice

  /**
   * The result of `upsert_merchants`: an empty batch succeeds without touching the database;
   * otherwise the statement needs a reachable database and pairwise distinct references.
   */
  function UpsertResult(merchants: seq<Merchant>, reachable: bool): (r: Outcome<StorageError>)
    ensures r.Pass? <==> merchants == [] || (reachable && DistinctReferences(Entries(merchants)))
    ensures merchants != [] && !reachable ==> r == Fail(Unreachable)
  {
    if merchants == [] then Pass
    else if !reachable then Fail(Unreachable)
    else if !DistinctReferences(Entries(merchants)) then Fail(DuplicateReference)
    else Pass
  }

  class MerchantTable {
    /** The table's rows, keyed by the unique `merchant_reference` column. */
    var rows: map<string, Row>

    constructor ()
      ensures rows == map[]
    {
      rows := map[];
    }

    /**
     * One batched `INSERT ... ON CONFLICT (merchant_reference) DO UPDATE` statement: applied to
     * every row of the batch or, when refused, to none.
     */
    method Upsert(merchants: seq<Merchant>, reachable: bool) returns (r: Outcome<StorageError>)
      modifies this
      ensures r == UpsertResult(merchants, reachable)
      ensures r.Pass? ==> rows == UpsertAll(old(rows), Entries(merchants))
      ensures r.Fail? ==> rows == old(rows)
    {
      if |merchants| == 0 {
        return Pass;
      }
      ghost var es := Entries(merchants);
      var staged := rows;
      var i := 0;
      while i < |merchants|
        invariant 0 <= i <= |merchants|
        invariant staged == UpsertAll(rows, es[..i])
      {
        assert es[..i + 1][..i] == es[..i];
        staged := UpsertOne(staged, ToEntry(merchants[i]));
        i := i + 1;
      }
      assert es[..i] == es;
      if !reachable {
        return Fail(Unreachable);
      }
      if !DistinctReferences(Entries(merchants)) {
        return Fail(DuplicateReference);
      }
      rows := staged;
      return Pass;
    }
  }

  /**
   * After a successful upsert each merchant's reference holds that merchant's email, date,
   * cadence string and fee, under the id already stored for it, or its own id when new.
   */
  lemma UpsertedRow(t: map<string, Row>, merchants: seq<Merchant>, i: nat)
    requires DistinctReferences(Entries(merchants)) && i < |merchants|
    ensures merchants[i].reference in UpsertAll(t, Entries(merchants))
    ensures UpsertAll(t, Entries(merchants))[merchants[i].reference]
         == Stored(if merchants[i].reference in t then t[merchants[i].reference].id else merchants[i].id,
                   Columns(merchants[i].email, merchants[i].liveOn,
                           Display(merchants[i].frequency), merchants[i].minimumMonthlyFee))
  {
    UpsertAllAt(t, Entries(merchants), i);
  }

  /** Re-importing references that are all present already overwrites rows without adding any. */
  lemma ReimportKeepsRowCount(t: map<string, Row>, merchants: seq<Merchant>)
    requires forall i | 0 <= i < |merchants| :: merchants[i].reference in t
    ensures |UpsertAll(t, Entries(merchants))| == |t|
  {
    UpsertAllSize(t, Entries(merchants));
    assert References(Entries(merchants)) - t.Keys == {};
  }
}
