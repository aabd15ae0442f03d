/**
 * The receiver's consumer loop (crates/calculator/src/events/kafka/consumer.rs): messages are
 * taken from the stream one at a time and each parsed payload is handed to the handler, whose
 * call finishes before the next message is taken. No failure stops the loop: broker errors,
 * unparseable payloads and handler errors are logged, messages without a payload are skipped.
 */
module KafkaConsumption {
  import opened Wrappers
  import opened Json
  import opened Uuids
  import opened CalculatorEntities
  import opened KeyedUpsert
  import opened CalculatorRepository
  import opened MerchantUpsertedHandling

  /** A message body: bytes that are not JSON, or the JSON value they encode. */
  datatype Body = Unparseable | Json(value: Value)

  /** What the stream yields: a broker error, or a message with or without a body. */
  datatype Polled = BrokerError | Received(body: Option<Body>)

  /** What the handler's environment decides for one call: the id it generates and whether the database answers. */
  datatype HandlerEnv = HandlerEnv(freshId: Uuid, reachable: bool)

  /** The lines the loop writes to standard error. */
  datatype LogLine = KafkaError | ParseFailed | HandlerFailed(error: HandleError)

  /** The receiver's rows and the log after some messages. */
  datatype Consumed = Consumed(rows: map<string, Row>, log: seq<LogLine>)

  /** One message: only a parsed body reaches the handler. */
  function Step(rows: map<string, Row>, message: Polled, env: HandlerEnv): Consumed {
    match message
    case BrokerError => Consumed(rows, [KafkaError])
    case Received(None) => Consumed(rows, [])
    case Received(Some(Unparseable)) => Consumed(rows, [ParseFailed])
    case Received(Some(Json(payload))) =>
      var handled := HandleEvent(rows, payload, env.freshId, env.reachable);
      Consumed(handled.rows, if handled.outcome.Fail? then [HandlerFailed(handled.outcome.error)] else [])
  }

  /** The loop over the stream, the `i`-th message with the environment `envs[i]`, each handled by `step`. */
  function Loop(step: (map<string, Row>, Polled, HandlerEnv) -> Consumed,
                rows: map<string, Row>, stream: seq<Polled>, envs: seq<HandlerEnv>): Consumed
    requires |envs| == |stream|
  {
    if stream == [] then Consumed(rows, [])
    else
      var before := Loop(step, rows, stream[..|stream| - 1], envs[..|envs| - 1]);
      var last := step(before.rows, stream[|stream| - 1], envs[|envs| - 1]);
      Consumed(last.rows, before.log + last.log)
  }

  /** The consumer's loop: every message of the stream in order, none of them stopping it. */
  function Consume(rows: map<string, Row>, stream: seq<Polled>, envs: seq<HandlerEnv>): Consumed
    requires |envs| == |stream|
  {
    Loop(Step, rows, stream, envs)
  }

  /** The merchant a message makes the handler store, if it does: a parsed body that builds, with the database up. */
  function AppliedBy(message: Polled, env: HandlerEnv): (ms: seq<Merchant>)
    ensures |ms| <= 1
  {
    match message
    case Received(Some(Json(payload))) =>
      if env.reachable && BuildMerchant(payload, env.freshId).Success?
      then [BuildMerchant(payload, env.freshId).value] else []
    case _ => []
  }

  /** The sequences of `xss`, one after another. */
  function Flatten<T>(xss: seq<seq<T>>): seq<T> {
    if xss == [] then [] else Flatten(xss[..|xss| - 1]) + xss[|xss| - 1]
  }

  /** Sequences of one element each flatten to the sequence of those elements. */
  lemma {:induction false} FlattenSingletons<T>(xss: seq<seq<T>>, xs: seq<T>)
    requires |xss| == |xs|
    requires forall i | 0 <= i < |xss| :: xss[i] == [xs[i]]
    ensures Flatten(xss) == xs
  {
    if xss != [] {
      var n := |xss| - 1;
      FlattenSingletons(xss[..n], xs[..n]);
      assert xs == xs[..n] + [xs[n]];
    }
  }

  /** What each message of the stream makes the handler store. */
  function AppliedByEach(stream: seq<Polled>, envs: seq<HandlerEnv>): (per: seq<seq<Merchant>>)
    requires |envs| == |stream|
    ensures |per| == |stream|
  {
    seq(|stream|, i requires 0 <= i < |stream| => AppliedBy(stream[i], envs[i]))
  }

  /** The merchants the handler stored while consuming `stream`, in stream order. */
  function Applied(stream: seq<Polled>, envs: seq<HandlerEnv>): seq<Merchant>
    requires |envs| == |stream|
  {
    Flatten(AppliedByEach(stream, envs))
  }

  /** The last message's merchant, if any, comes after those of the messages before it. */
  lemma AppliedSnoc(stream: seq<Polled>, envs: seq<HandlerEnv>)
    requires |envs| == |stream| && stream != []
    ensures var n := |stream| - 1;
      Applied(stream, envs) == Applied(stream[..n], envs[..n]) + AppliedBy(stream[n], envs[n])
  {
    var n := |stream| - 1;
    assert AppliedByEach(stream, envs)[..n] == AppliedByEach(stream[..n], envs[..n]);
  }

  /** When each message applies a known merchant, the stream applies all of them, in order. */
  lemma AppliedEach(stream: seq<Polled>, envs: seq<HandlerEnv>, ms: seq<Merchant>)
    requires |envs| == |stream| && |ms| == |stream|
    requires forall i | 0 <= i < |stream| :: AppliedBy(stream[i], envs[i]) == [ms[i]]
    ensures Applied(stream, envs) == ms
  {
    FlattenSingletons(AppliedByEach(stream, envs), ms);
  }

  class KafkaCalculatorConsumer {
    const handler: MerchantUpsertedHandler
    /** What the loop has written to standard error. */
    var log: seq<LogLine>

    constructor (handler: MerchantUpsertedHandler)
      ensures this.handler == handler && log == []
    {
      this.handler := handler;
      log := [];
    }

    /** `run`: handles every message of the stream in turn and returns `Ok` once it ends. */
    method Run(stream: seq<Polled>, envs: seq<HandlerEnv>) returns (r: Outcome<HandleError>)
      requires |envs| == |stream|
      modifies this, handler.repository
      ensures r == Pass
      ensures handler.repository.rows == Consume(old(handler.repository.rows), stream, envs).rows
      ensures log == old(log) + Consume(old(handler.repository.rows), stream, envs).log
    {
      var i := 0;
      while i < |stream|
        invariant 0 <= i <= |stream|
        invariant handler.repository.rows == Consume(old(handler.repository.rows), stream[..i], envs[..i]).rows
        invariant log == old(log) + Consume(old(handler.repository.rows), stream[..i], envs[..i]).log
      {
        assert stream[..i + 1][..i] == stream[..i] && envs[..i + 1][..i] == envs[..i];
        match stream[i] {
          case BrokerError =>
            log := log + [KafkaError];
          case Received(None) =>
          case Received(Some(Unparseable)) =>
            log := log + [ParseFailed];
          case Received(Some(Json(payload))) =>
            var handled := handler.Handle(payload, envs[i].freshId, envs[i].reachable);
            if handled.Fail? {
              log := log + [HandlerFailed(handled.error)];
            }
        }
        i := i + 1;
      }
      assert stream[..i] == stream && envs[..i] == envs;
      return Pass;
    }
  }

  /**
   * Messages that never reach the handler leave the rows alone: a broker error and an
   * unparseable body are logged, a message without a body is skipped without a line.
   */
  lemma StepSkips(rows: map<string, Row>, message: Polled, env: HandlerEnv)
    requires !(message.Received? && message.body.Some? && message.body.value.Json?)
    ensures Step(rows, message, env).rows == rows
    ensures Step(rows, message, env).log
         == if message.BrokerError? then [KafkaError] else if message.body.None? then [] else [ParseFailed]
  {
    match message {
      case BrokerError =>
      case Received(None) =>
      case Received(Some(Unparseable)) =>
    }
  }

  /**
   * The loop never stops early: consuming one stream after another is consuming the first and
   * then the second from where the first left the rows, and the logs follow one another.
   */
  lemma ConsumeAppend(
    rows: map<string, Row>, first: seq<Polled>, firstEnvs: seq<HandlerEnv>, second: seq<Polled>, secondEnvs: seq<HandlerEnv>)
    requires |firstEnvs| == |first| && |secondEnvs| == |second|
    ensures var a := Consume(rows, first, firstEnvs); var b := Consume(a.rows, second, secondEnvs);
      Consume(rows, first + second, firstEnvs + secondEnvs) == Consumed(b.rows, a.log + b.log)
  {
    LoopAppend(Step, rows, first, firstEnvs, second, secondEnvs);
  }

  /** A loop over two streams in turn is the loop over the first, continued over the second. */
  lemma {:induction false} LoopAppend(step: (map<string, Row>, Polled, HandlerEnv) -> Consumed,
    rows: map<string, Row>, first: seq<Polled>, firstEnvs: seq<HandlerEnv>, second: seq<Polled>, secondEnvs: seq<HandlerEnv>)
    requires |firstEnvs| == |first| && |secondEnvs| == |second|
    ensures var a := Loop(step, rows, first, firstEnvs); var b := Loop(step, a.rows, second, secondEnvs);
      Loop(step, rows, first + second, firstEnvs + secondEnvs) == Consumed(b.rows, a.log + b.log)
  {
    var a := Loop(step, rows, first, firstEnvs);
    if second == [] {
      assert first + second == first && firstEnvs + secondEnvs == firstEnvs;
    } else {
      var stream, envs := first + second, firstEnvs + secondEnvs;
      var n := |second| - 1;
      assert stream[..|stream| - 1] == first + second[..n];
      assert envs[..|envs| - 1] == firstEnvs + secondEnvs[..n];
      LoopAppend(step, rows, first, firstEnvs, second[..n], secondEnvs[..n]);
      var before := Loop(step, a.rows, second[..n], secondEnvs[..n]);
      var last := step(before.rows, second[n], secondEnvs[n]);
      assert (a.log + before.log) + last.log == a.log + (before.log + last.log);
    }
  }

  /** What a parsed body does to the rows is one upsert of the merchant it applies, if any. */
  lemma StepUpserts(rows: map<string, Row>, message: Polled, env: HandlerEnv)
    ensures Step(rows, message, env).rows == UpsertAll(rows, Entries(AppliedBy(message, env)))
  {
    match message {
      case BrokerError =>
      case Received(None) =>
      case Received(Some(Unparseable)) =>
      case Received(Some(Json(payload))) =>
        HandleEventFailureKeepsRows(rows, payload, env.freshId, env.reachable);
    }
  }

  /**
   * The final rows are the fold of the handler's upserts: exactly the merchants the handler
   * stored, in stream order, upserted one after another into the initial rows.
   */
  lemma {:induction false} ConsumeUpsertsApplied(rows: map<string, Row>, stream: seq<Polled>, envs: seq<HandlerEnv>)
    requires |envs| == |stream|
    ensures Consume(rows, stream, envs).rows == UpsertAll(rows, Entries(Applied(stream, envs)))
  {
    if stream != [] {
      var n := |stream| - 1;
      var init, last := Applied(stream[..n], envs[..n]), AppliedBy(stream[n], envs[n]);
      AppliedSnoc(stream, envs);
      ConsumeUpsertsApplied(rows, stream[..n], envs[..n]);
      var mid := Consume(rows, stream[..n], envs[..n]).rows;
      StepUpserts(mid, stream[n], envs[n]);
      UpsertAllAppend(rows, init, last);
    }
  }

  /** Upserting a batch and then a batch of at most one is upserting them together. */
  lemma UpsertAllAppend(rows: map<string, Row>, init: seq<Merchant>, last: seq<Merchant>)
    requires |last| <= 1
    ensures UpsertAll(UpsertAll(rows, Entries(init)), Entries(last)) == UpsertAll(rows, Entries(init + last))
  {
    var all := Entries(init + last);
    if last != [] {
      assert all[..|all| - 1] == Entries(init);
      assert Entries(last)[..0] == [];
    } else {
      assert init + last == init;
    }
  }

  /**
   * Last write wins: a reference carries the date, cadence and fee of the last merchant the
   * handler stored for it, under the id the reference already had or, when it was new, the
   * id of the first merchant the handler stored for it.
   */
  lemma ConsumeLastWriteWins(rows: map<string, Row>, stream: seq<Polled>, envs: seq<HandlerEnv>, i: nat)
    requires |envs| == |stream|
    requires i < |Applied(stream, envs)|
    requires forall j | i < j < |Applied(stream, envs)| ::
      Applied(stream, envs)[j].reference != Applied(stream, envs)[i].reference
    ensures var ms := Applied(stream, envs); var m := ms[i]; var after := Consume(rows, stream, envs).rows;
      && m.reference in after
      && after[m.reference].fields == Columns(m.liveOn, Display(m.frequency), m.minimumMonthlyFee)
      && (m.reference in rows ==> after[m.reference].id == rows[m.reference].id)
      && (m.reference !in rows ==>
            forall f | 0 <= f < |ms| && ms[f].reference == m.reference
                       && (forall j | 0 <= j < f :: ms[j].reference != m.reference) ::
              after[m.reference].id == ms[f].id)
  {
    ConsumeUpsertsApplied(rows, stream, envs);
    StoredLastWrite(rows, Applied(stream, envs), i);
  }

  /** Last write wins over the merchants the handler stored, in the order it stored them. */
  lemma StoredLastWrite(rows: map<string, Row>, ms: seq<Merchant>, i: nat)
    requires i < |ms|
    requires forall j | i < j < |ms| :: ms[j].reference != ms[i].reference
    ensures var m := ms[i]; var after := UpsertAll(rows, Entries(ms));
      && m.reference in after
      && after[m.reference].fields == Columns(m.liveOn, Display(m.frequency), m.minimumMonthlyFee)
      && (m.reference in rows ==> after[m.reference].id == rows[m.reference].id)
      && (m.reference !in rows ==>
            forall f | 0 <= f < |ms| && ms[f].reference == m.reference
                       && (forall j | 0 <= j < f :: ms[j].reference != m.reference) ::
              after[m.reference].id == ms[f].id)
  {
    var es := Entries(ms);
    var k := ms[i].reference;
    UpsertAllLastWrite(rows, es, i);
    if k !in rows {
      forall f | 0 <= f < |ms| && ms[f].reference == k && (forall j | 0 <= j < f :: ms[j].reference != k)
        ensures UpsertAll(rows, es)[k].id == ms[f].id
      {
        assert FirstWith(es, k) == f;
      }
    }
  }

  /** A reference that no handled event stored keeps its row, or stays absent. */
  lemma ConsumeElsewhere(rows: map<string, Row>, stream: seq<Polled>, envs: seq<HandlerEnv>, k: string)
    requires |envs| == |stream|
    requires forall j | 0 <= j < |Applied(stream, envs)| :: Applied(stream, envs)[j].reference != k
    ensures k in Consume(rows, stream, envs).rows <==> k in rows
    ensures k in rows ==> Consume(rows, stream, envs).rows[k] == rows[k]
  {
    ConsumeUpsertsApplied(rows, stream, envs);
    UpsertAllElsewhere(rows, Entries(Applied(stream, envs)), k);
  }
}
