/**
 * The in-memory publisher of the importer's integration tests
 * (crates/importer/tests/mock_publisher.rs): an append-only log of `(topic, payload)` pairs.
 */
module MockPublishing {
  import opened Wrappers
  import opened Json
  import opened EventPublisher

  class MockPublisher {
    /** Every publish call so far, oldest first. */
    var published: seq<(string, Value)>
    /** How many times `Publish` has been called. */
    ghost var calls: nat

    ghost predicate Valid()
      reads this
    {
      |published| == calls
    }

    constructor ()
      ensures Valid() && published == [] && calls == 0
    {
      published := [];
      calls := 0;
    }

    /** Always succeeds and appends the call to the end of the log. */
    method Publish(topic: string, payload: Value) returns (r: Outcome<PublishError>)
      requires Valid()
      modifies this
      ensures Valid() && calls == old(calls) + 1
      ensures r == Pass
      ensures published == old(published) + [(topic, payload)]
    {
      published := published + [(topic, payload)];
      calls := calls + 1;
      return Pass;
    }

    /** Whether some logged call was made on `topic`. */
    method WasCalledWith(topic: string) returns (b: bool)
      ensures b <==> exists i | 0 <= i < |published| :: published[i].0 == topic
    {
      var i := 0;
      while i < |published|
        invariant 0 <= i <= |published|
        invariant forall j | 0 <= j < i :: published[j].0 != topic
      {
        if published[i].0 == topic {
          return true;
        }
        i := i + 1;
      }
      return false;
    }

    /** The number of publish calls made so far. */
    method CallsCount() returns (n: nat)
      requires Valid()
      ensures n == calls
    {
      return |published|;
    }
  }
}
