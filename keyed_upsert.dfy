/**
 * The meaning of `INSERT ... ON CONFLICT (merchant_reference) DO UPDATE SET ...` on a table
 * keyed by merchant reference, shared by the producer's and the receiver's stores. A new
 * reference is inserted with the incoming identifier; an existing one keeps its stored
 * identifier and has every listed field replaced.
 */
module KeyedUpsert {

  /** A stored row: the identifier assigned at first insert and the overwritable fields. */
  datatype Stored<I, V> = Stored(id: I, fields: V)

  /** One incoming row: natural key, candidate identifier and new field values. */
  datatype Entry<I, V> = Entry(reference: string, id: I, fields: V)

  type Table<I, V> = map<string, Stored<I, V>>

  /** The row `e` leaves in a table: its fields, under the identifier already stored if any. */
  function RowAfter<I, V>(t: Table<I, V>, e: Entry<I, V>): Stored<I, V> {
    Stored(if e.reference in t then t[e.reference].id else e.id, e.fields)
  }

  /** One row of the statement. */
  function UpsertOne<I, V>(t: Table<I, V>, e: Entry<I, V>): Table<I, V> {
    t[e.reference := RowAfter(t, e)]
  }

  /** The rows of a batch applied in order (the last row of the batch is applied last). */
  function UpsertAll<I, V>(t: Table<I, V>, batch: seq<Entry<I, V>>): Table<I, V> {
    if batch == [] then t else UpsertOne(UpsertAll(t, batch[..|batch| - 1]), batch[|batch| - 1])
  }

  function References<I, V>(batch: seq<Entry<I, V>>): set<string> {
    set i | 0 <= i < |batch| :: batch[i].reference
  }

  /** No reference occurs twice in the batch (otherwise the statement is refused). */
  predicate DistinctReferences<I, V>(batch: seq<Entry<I, V>>) {
    forall i, j | 0 <= i < j < |batch| :: batch[i].reference != batch[j].reference
  }

  lemma ReferencesPrefix<I, V>(batch: seq<Entry<I, V>>)
    requires batch != []
    ensures References(batch) == References(batch[..|batch| - 1]) + {batch[|batch| - 1].reference}
  {
    var init := batch[..|batch| - 1];
    forall r | r in References(batch)
      ensures r in References(init) + {batch[|batch| - 1].reference}
    {
      var i :| 0 <= i < |batch| && batch[i].reference == r;
      if i < |batch| - 1 {
        assert init[i] == batch[i];
      }
    }
    forall r | r in References(init) ensures r in References(batch) {
      var i :| 0 <= i < |init| && init[i].reference == r;
      assert batch[i] == init[i];
    }
  }

  /** The statement adds exactly the batch's references to the table's keys. */
  lemma {:induction false} UpsertAllKeys<I, V>(t: Table<I, V>, batch: seq<Entry<I, V>>)
    ensures UpsertAll(t, batch).Keys == t.Keys + References(batch)
  {
    if batch != [] {
      UpsertAllKeys(t, batch[..|batch| - 1]);
      ReferencesPrefix(batch);
    }
  }

  /** A reference outside the batch is untouched. */
  lemma {:induction false} UpsertAllElsewhere<I, V>(t: Table<I, V>, batch: seq<Entry<I, V>>, k: string)
    requires k !in References(batch)
    ensures k in UpsertAll(t, batch) <==> k in t
    ensures k in t ==> UpsertAll(t, batch)[k] == t[k]
  {
    if batch != [] {
      ReferencesPrefix(batch);
      UpsertAllElsewhere(t, batch[..|batch| - 1], k);
    }
  }

  /**
   * With distinct references, each batch row ends up stored with its own fields, under the
   * identifier the table already had for that reference, or its own identifier if none.
   */
  lemma {:induction false} UpsertAllAt<I, V>(t: Table<I, V>, batch: seq<Entry<I, V>>, i: nat)
    requires DistinctReferences(batch) && i < |batch|
    ensures batch[i].reference in UpsertAll(t, batch)
    ensures UpsertAll(t, batch)[batch[i].reference] == RowAfter(t, batch[i])
  {
    var n := |batch| - 1;
    var init := batch[..n];
    if i < n {
      assert init[i] == batch[i];
      UpsertAllAt(t, init, i);
      assert batch[i].reference != batch[n].reference;
    } else {
      assert forall j | 0 <= j < |init| :: init[j].reference != batch[n].reference by {
        forall j | 0 <= j < |init| ensures init[j].reference != batch[n].reference {
          assert init[j] == batch[j];
        }
      }
      UpsertAllElsewhere(t, init, batch[n].reference);
    }
  }

  /** The table grows by exactly the number of references it did not have. */
  lemma UpsertAllSize<I, V>(t: Table<I, V>, batch: seq<Entry<I, V>>)
    ensures |UpsertAll(t, batch)| == |t| + |References(batch) - t.Keys|
  {
    var after := UpsertAll(t, batch);
    UpsertAllKeys(t, batch);
    var added := References(batch) - t.Keys;
    assert after.Keys == t.Keys + added;
    DisjointUnionSize(t.Keys, added);
    assert |after| == |after.Keys| && |t| == |t.Keys|;
  }

  lemma DisjointUnionSize<T>(a: set<T>, b: set<T>)
    requires a !! b
    ensures |a + b| == |a| + |b|
  {
  }

  /** Applying the same batch of distinct references twice leaves the table it left once. */
  lemma UpsertAllIdempotent<I, V>(t: Table<I, V>, batch: seq<Entry<I, V>>)
    requires DistinctReferences(batch)
    ensures UpsertAll(UpsertAll(t, batch), batch) == UpsertAll(t, batch)
  {
    var once := UpsertAll(t, batch);
    var twice := UpsertAll(once, batch);
    UpsertAllKeys(t, batch);
    UpsertAllKeys(once, batch);
    forall k | k in twice ensures twice[k] == once[k] {
      if k in References(batch) {
        var i :| 0 <= i < |batch| && batch[i].reference == k;
        UpsertAllAt(t, batch, i);
        UpsertAllAt(once, batch, i);
      } else {
        UpsertAllElsewhere(once, batch, k);
      }
    }
  }

  /** The position of the first batch row for reference `k`. */
  function FirstWith<I, V>(batch: seq<Entry<I, V>>, k: string): (f: nat)
    requires k in References(batch)
    ensures f < |batch| && batch[f].reference == k
    ensures forall j | 0 <= j < f :: batch[j].reference != k
  {
    if batch[0].reference == k then 0
    else
      assert k in References(batch[1..]) by {
        var i :| 0 <= i < |batch| && batch[i].reference == k;
        assert batch[1..][i - 1] == batch[i];
      }
      1 + FirstWith(batch[1..], k)
  }

  /**
   * Last write wins: after rows are applied one after another, a reference carries the
   * fields of the last row for it, under the identifier it already had in the table or,
   * when it was new, the identifier of the first row for it in the batch.
   */
  lemma {:induction false} UpsertAllLastWrite<I, V>(t: Table<I, V>, batch: seq<Entry<I, V>>, i: nat)
    requires i < |batch|
    requires forall j | i < j < |batch| :: batch[j].reference != batch[i].reference
    ensures batch[i].reference in References(batch)
    ensures batch[i].reference in UpsertAll(t, batch)
    ensures UpsertAll(t, batch)[batch[i].reference].fields == batch[i].fields
    ensures batch[i].reference in t ==> UpsertAll(t, batch)[batch[i].reference].id == t[batch[i].reference].id
    ensures batch[i].reference !in t
        ==> UpsertAll(t, batch)[batch[i].reference].id == batch[FirstWith(batch, batch[i].reference)].id
  {
    LastFields(t, batch, i);
    var k := batch[i].reference;
    if k in t {
      UpsertAllKeepsId(t, batch, k);
    } else {
      UpsertAllFirstInsert(t, batch, FirstWith(batch, k));
    }
  }

  lemma {:induction false} LastFields<I, V>(t: Table<I, V>, batch: seq<Entry<I, V>>, i: nat)
    requires i < |batch|
    requires forall j | i < j < |batch| :: batch[j].reference != batch[i].reference
    ensures batch[i].reference in References(batch)
    ensures batch[i].reference in UpsertAll(t, batch)
    ensures UpsertAll(t, batch)[batch[i].reference].fields == batch[i].fields
  {
    var n := |batch| - 1;
    var init := batch[..n];
    if i < n {
      assert init[i] == batch[i];
      LastFields(t, init, i);
    }
  }

  /**
   * A reference new to the table is inserted with the identifier of its first batch row,
   * and later rows for it keep that identifier.
   */
  lemma {:induction false} UpsertAllFirstInsert<I, V>(t: Table<I, V>, batch: seq<Entry<I, V>>, f: nat)
    requires f < |batch| && batch[f].reference !in t
    requires forall j | 0 <= j < f :: batch[j].reference != batch[f].reference
    ensures batch[f].reference in UpsertAll(t, batch)
    ensures UpsertAll(t, batch)[batch[f].reference].id == batch[f].id
  {
    var n := |batch| - 1;
    var init := batch[..n];
    var k := batch[f].reference;
    if f < n {
      assert init[f] == batch[f];
      UpsertAllFirstInsert(t, init, f);
    } else {
      assert k !in References(init) by {
        forall j | 0 <= j < |init| ensures init[j].reference != k {
          assert init[j] == batch[j];
        }
      }
      UpsertAllElsewhere(t, init, k);
    }
  }

  /** A reference already in the table keeps its identifier whatever the batch holds. */
  lemma {:induction false} UpsertAllKeepsId<I, V>(t: Table<I, V>, batch: seq<Entry<I, V>>, k: string)
    requires k in t
    ensures k in UpsertAll(t, batch) && UpsertAll(t, batch)[k].id == t[k].id
  {
    if batch != [] {
      UpsertAllKeepsId(t, batch[..|batch| - 1], k);
    }
  }
}
