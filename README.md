# Merchant synchronisation, modelled in Dafny

This project models the merchant synchronisation pipeline of a payment system. It has two Rust
services joined by a Kafka topic.

**The importer (producer)** runs an import job that does four things, in order:

1. It reads a semicolon-separated batch file.
2. It normalises each record into a merchant: the cadence token is matched ignoring case, then
   come the UUID, the `%Y-%m-%d` date, and the fee in cents.
3. It upserts the whole batch into its `merchants` table in one
   `INSERT … ON CONFLICT (merchant_reference) DO UPDATE` statement.
4. It publishes one redacted `merchant_upserted` event per merchant. The event carries no id
   and no email.

**The calculator (receiver)** runs a consumer loop. For each message it does the following:

- It parses the body as JSON.
- It hands the JSON to a handler. The handler builds a receiver merchant, generating a fresh
  id, and upserts that one row.
- Broker errors, unparseable bodies and handler errors are logged. The loop carries on after
  each of them.

**Layout.** There is one Dafny module per source file:

- `CsvNormalizer`
- `ImporterRepository`
- `ImportJob`
- `KafkaPublishing`
- `MockPublishing`
- `CalculatorEntities`
- `MerchantUpsertedHandling`
- `CalculatorRepository`
- `KafkaConsumption`

Shared helpers sit in their own modules:

- `Json`: serde_json's `Value` and the accessors the services use on it.
- `Dates`: `NaiveDate` and its `%Y-%m-%d` form.
- `Uuids`, `Digits`, `Integers`.
- `KeyedUpsert`: the ON CONFLICT semantics, generic over the row type.
- `Collecting`: a loop of `?` steps that stops at the first error.

`Synchronisation` puts the two services together.

**How state is modelled.** The stateful parts are classes:

- each table is a class with a `rows` map and an `Upsert` method;
- the broker-backed publisher and the test publisher are classes with logs;
- the consumer is a class with a log.

Each method is proved against a function that the lemmas talk about. Examples:
`ImportRun` for `ImportMerchantsCsvHandler`, `HandleEvent` for `Handle`, and `Consume` for
`Run`.

**Inputs.** The environment is passed in as parameters:

- whether the database connects, begins, executes and commits;
- which sends the broker acknowledges;
- the UUID each handler call generates;
- whether the receiver's database is reachable.

In these respects the code behaves differently from what one might expect:

- **Fee rounding.** The fee is rounded with Rust's `f64::round`, which rounds halves away from
  zero, not to even.
- **Message key.** The key is `payload.data.reference`. The import job's payloads have no
  `data` member, so every event is keyed by the empty string, not by the merchant reference.
- **Producer id on conflict.** On a conflict the producer keeps the stored id, because `id` is
  not in its SET list.
- **Handler checks.** The receiver's handler checks only the date and the cadence. A missing
  reference or fee is defaulted rather than rejected. The cadence must be exactly `DAILY` or
  `WEEKLY`.
- **Duplicate references.** A batch with the same reference twice is refused as a whole.
  PostgreSQL refuses an ON CONFLICT statement that would update the same row twice.

## Model

| member | source | states |
|---|---|---|
| CsvNormalizer.UpperChar | crates/importer/src/services/csv_normalizer.rs:31 | defines the upper-casing of one character as far as the cadence match can see it: ASCII letters, dotless i and long s |
| CsvNormalizer.ToUpper | crates/importer/src/services/csv_normalizer.rs:31 | defines `to_uppercase` on the token, character by character |
| CsvNormalizer.ParseFrequency | crates/importer/src/services/csv_normalizer.rs:31-35 | the token is accepted exactly when its upper-case form is `DAILY` or `WEEKLY`; it then yields the cadence whose display string that is; otherwise the error carries the token as the model upper-cases it |
| CsvNormalizer.ParseFrequencyIgnoresCase | crates/importer/src/services/csv_normalizer.rs:31-33 | two tokens that agree letter by letter up to case parse to the same result |
| CsvNormalizer.ParseFrequencySpellings | crates/importer/src/services/csv_normalizer.rs:31-34 | `daily`, `Daily` and `DAILY` are Daily; `weekly`, `Weekly` and `WEEKLY` are Weekly; `MONTHLY` is an unknown-cadence error |
| CsvNormalizer.ParseDecimal | crates/importer/src/services/csv_normalizer.rs:43 | defines the fee literals the parser accepts: an optional sign, digits, and an optional point with digits, at least one digit in all |
| CsvNormalizer.RoundHalfAwayFromZero | crates/importer/src/services/csv_normalizer.rs:43 | the result is within half a unit of `num/den`; on an exact half it is the neighbour further from zero (`f64::round`) |
| CsvNormalizer.SaturateI32 | crates/importer/src/services/csv_normalizer.rs:43 | defines the saturating `as i32` cast: identity inside the i32 range, clamped to the nearer bound outside it |
| CsvNormalizer.FeeCents | crates/importer/src/services/csv_normalizer.rs:43 | defines the fee before the cast: the decimal value × 100, rounded half away from zero; `None` when the literal is refused |
| CsvNormalizer.ParseFee | crates/importer/src/services/csv_normalizer.rs:43 | a parsed fee always fits an i32 |
| CsvNormalizer.ParseDecimalPoint | crates/importer/src/services/csv_normalizer.rs:43 | `whole.fraction` denotes the digits of `whole ++ fraction` at scale `|fraction|` |
| CsvNormalizer.ParseFeeExact | crates/importer/src/services/csv_normalizer.rs:43 | `whole.fraction` with at most two decimal places is not rounded: the fee is the digits of `whole ++ fraction`, padded with zeros to two places, read as cents and cast to i32 |
| CsvNormalizer.CentDigitsValue | crates/importer/src/services/csv_normalizer.rs:43 | those cents are `whole × 100 + fraction × 10^(2 − |fraction|)` |
| CsvNormalizer.ParseFeeWhole | crates/importer/src/services/csv_normalizer.rs:43 | a fee written without a point (`12`) is its value × 100 cents, cast to i32 |
| CsvNormalizer.ParseFeePlus | crates/importer/src/services/csv_normalizer.rs:43 | a leading `+` is accepted and gives the same fee as the unsigned literal |
| CsvNormalizer.ParseFeeMinusExact | crates/importer/src/services/csv_normalizer.rs:43 | `-whole.fraction` with at most two decimal places is the exact cents negated, cast to i32 |
| CsvNormalizer.ParseFeeMinusWhole | crates/importer/src/services/csv_normalizer.rs:43 | `-whole` without a point is −100 × its value cents, cast to i32 |
| CsvNormalizer.FeeCentsMinus | crates/importer/src/services/csv_normalizer.rs:43 | a leading `-` negates the rounded cents of any literal the parser accepts, and keeps a refused literal refused (halves round away from zero on both sides) |
| CsvNormalizer.ParseFeeTwelveFifty | crates/importer/src/services/csv_normalizer.rs:43 | `12.50` is 1250 cents |
| CsvNormalizer.ParseFeeZero | crates/importer/tests/import_csv.rs:116 | `0.00` is 0 cents, the fee the re-import test expects |
| CsvNormalizer.ParseMerchantRecord | crates/importer/src/services/csv_normalizer.rs:30-45 | defines `parse_merchant_record`: checks cadence, id, date and fee in that order, and the first failure is the error; otherwise a merchant of the six fields |
| CsvNormalizer.ParsedRecordFields | crates/importer/src/services/csv_normalizer.rs:37-44 | a parsed record is well formed: its reference and email are fields 1 and 2 verbatim, its date renders back as field 3, and id, cadence and fee are what fields 0, 4 and 5 parse to |
| CsvNormalizer.ParseMerchantRecordPrecedence | crates/importer/src/services/csv_normalizer.rs:30-44 | the checks run in the order cadence, id, date, fee, and the first failure is the error; the record parses exactly when all four succeed |
| CsvNormalizer.ReadRecord | crates/importer/src/services/csv_normalizer.rs:22-23 | defines what the reader hands over: a readable record as long as the header; any other record is a reader error |
| CsvNormalizer.NormalizeAll | crates/importer/src/services/csv_normalizer.rs:20-27 | defines the record loop: each record read and then parsed, in file order, stopping at the first error |
| CsvNormalizer.Normalized | crates/importer/src/services/csv_normalizer.rs:9-27 | defines `read_and_normalize_merchants_from_csv`: a missing file is an error, otherwise the record loop over the batch |
| CsvNormalizer.NormalizeAllSucceeds | crates/importer/src/services/csv_normalizer.rs:20-27 | when every record normalises, the result is those merchants, one per record, in file order |
| CsvNormalizer.NormalizeAllStops | crates/importer/src/services/csv_normalizer.rs:22-25 | the first failing record's error is the result, whatever the later records hold |
| CsvNormalizer.NormalizeAllSuccess | crates/importer/src/services/csv_normalizer.rs:20-27 | a successful read has exactly one merchant per data record, each that record's own, in order |
| CsvNormalizer.NormalizeAllFailure | crates/importer/src/services/csv_normalizer.rs:22-25 | a failed read returns the error of some record all of whose predecessors normalised |
| CsvNormalizer.NormalizedWellFormed | crates/importer/src/services/csv_normalizer.rs:37-44 | every merchant of a successful read has a real date and an i32 fee |
| CsvNormalizer.ReadAndNormalizeMerchants | crates/importer/src/services/csv_normalizer.rs:9-28 | the loop returns what the fail-fast fold over the records specifies: a missing file fails, otherwise the merchants or the first record error |
| Dates.ParseDate | crates/importer/src/services/csv_normalizer.rs:41 | defines `parse_from_str(_, "%Y-%m-%d")` on the zero-padded form: four-digit year, month and day, accepted only when they name a real calendar day |
| Dates.ParsedDateFormatsBack | crates/importer/src/services/csv_normalizer.rs:41 | an accepted date string is a real calendar day and is exactly the `YYYY-MM-DD` rendering of it |
| Dates.ParseFormatDate | crates/importer/src/services/csv_normalizer.rs:41 | every valid date renders and parses back to itself |
| Dates.ParseDateExactly | crates/importer/src/services/csv_normalizer.rs:41 | a string is accepted exactly when it is the rendering of a valid date |
| Uuids.ParseUuid | crates/importer/src/services/csv_normalizer.rs:38 | an accepted identifier has 32 hexadecimal digits |
| Uuids.SpellingsAgree | crates/importer/src/services/csv_normalizer.rs:38 | the simple, hyphenated, braced and URN spellings of one identifier are all accepted and denote the same identifier |
| ImporterRepository.ToEntry | crates/importer/src/repositories/merchants.rs:13-19 | defines the values one merchant binds: its id, reference, email, date, the cadence's display string and its fee |
| ImporterRepository.UpsertResult | crates/importer/src/repositories/merchants.rs:4-7 | defines the outcome of `upsert_merchants`: an empty batch succeeds untouched; a non-empty one succeeds exactly when the database answers and the references are distinct |
| ImporterRepository.MerchantTable.Upsert | crates/importer/src/repositories/merchants.rs:4-34 | on success the table is the batch upserted into the old rows; on failure it is unchanged (one statement, all or nothing) |
| ImporterRepository.UpsertedRow | crates/importer/src/repositories/merchants.rs:22-27 | after the upsert each reference holds its merchant's email, date, cadence string and fee, under the id already stored, or its own id when new |
| ImporterRepository.ReimportKeepsRowCount | crates/importer/src/repositories/merchants.rs:22-27 | a batch whose references are all stored already adds no row |
| KeyedUpsert.UpsertOne | crates/importer/src/repositories/merchants.rs:22-27 | defines one row of the ON CONFLICT statement: a new reference is inserted with the incoming id; an existing one keeps its stored id and takes every listed field |
| KeyedUpsert.UpsertAll | crates/calculator/src/repositories/merchants.rs:21-26 | defines the statement over a batch: its rows applied one after another, in batch order |
| KeyedUpsert.UpsertAllKeys | crates/importer/src/repositories/merchants.rs:22-27 | the references after an upsert are the old ones plus the batch's |
| KeyedUpsert.UpsertAllElsewhere | crates/importer/src/repositories/merchants.rs:22-27 | a reference outside the batch is present afterwards exactly when it was before, with the same row |
| KeyedUpsert.UpsertAllAt | crates/importer/src/repositories/merchants.rs:22-27 | with distinct references each batch entry's row is that entry's fields under the kept or the new id |
| KeyedUpsert.UpsertAllSize | crates/importer/src/repositories/merchants.rs:22-27 | the row count grows by exactly the number of new references |
| KeyedUpsert.UpsertAllIdempotent | crates/importer/src/repositories/merchants.rs:22-27 | applying the same batch twice gives the same table as applying it once |
| KeyedUpsert.UpsertAllLastWrite | crates/calculator/src/repositories/merchants.rs:21-26 | a reference carries the fields of its last entry; it keeps the id it had before or, when new, takes the id of its first entry in the batch |
| KeyedUpsert.FirstWith | crates/calculator/src/repositories/merchants.rs:21-26 | the position of the first batch entry for a reference: it carries that reference and no earlier entry does |
| KeyedUpsert.UpsertAllFirstInsert | crates/calculator/src/repositories/merchants.rs:21-26 | a reference new to the table is inserted with the id of its first entry, and later entries for it keep that id |
| KeyedUpsert.UpsertAllKeepsId | crates/calculator/src/repositories/merchants.rs:21-26 | a stored reference keeps its id through any upsert |
| ImportJob.EventRecords | crates/importer/src/jobs/import_csv.rs:38-45 | defines the events of a batch: one `merchant_upserted` record per merchant, in list order |
| ImportJob.ImportAfterRead | crates/importer/src/jobs/import_csv.rs:19-31 | defines a run once the file is read: the read, connect, begin, upsert, publish and commit steps in that order, each failure ending the run with the effects of the steps before it |
| ImportJob.ImportRun | crates/importer/src/jobs/import_csv.rs:18-32 | defines a whole run: reading and normalising the batch, then the steps above |
| ImportJob.MerchantPayload | crates/importer/src/jobs/import_csv.rs:39-44 | the payload has exactly the keys `merchant_reference`, `live_on`, `disbursement_frequency` and `minimum_monthly_fee`, and never `id` or `email` |
| ImportJob.EventRecordShape | crates/importer/src/jobs/import_csv.rs:39-44 | every event goes to `merchant_upserted` with its payload as body and the empty key |
| ImportJob.FirstRefused | crates/importer/src/jobs/import_csv.rs:38-45 | the first refused send: every send before it is acknowledged and it is not, or there is none |
| ImportJob.PublishMerchants | crates/importer/src/jobs/import_csv.rs:34-48 | one publish per merchant in list order, stopping at the first refused send; the broker holds the events before it, and the result is that send's error or `Ok` |
| ImportJob.ImportMerchantsCsvHandler | crates/importer/src/jobs/import_csv.rs:18-32 | the job's outcome, the producer's rows and the records sent are those of the run function |
| ImportJob.NormalizeFailureTouchesNothing | crates/importer/src/jobs/import_csv.rs:19 | a batch that does not normalise ends the run before the database or the broker: no row changes, nothing is sent, whatever they would answer |
| ImportJob.PublishOnlyAfterUpsert | crates/importer/src/jobs/import_csv.rs:25-27 | if anything was sent, the batch was read, the connection and transaction opened, and the upsert went through |
| ImportJob.ImportRunAllOrNothing | crates/importer/src/jobs/import_csv.rs:23-29 | the producer's rows end up either unchanged or holding the whole batch |
| ImportJob.SentIsPrefix | crates/importer/src/jobs/import_csv.rs:38-45 | what a run sends is a prefix of the batch's events, in list order |
| ImportJob.ImportRunSucceeds | crates/importer/src/jobs/import_csv.rs:18-32 | a run succeeds exactly when every step does; it then stores the whole batch and sends one event per merchant, in order, on `merchant_upserted`, keyed `""`, with that merchant's payload |
| ImportJob.EveryAckPublishesAll | crates/importer/tests/import_csv.rs:33-35 | with every send acknowledged, as with the in-memory publisher, a run whose database steps succeed passes and sends one event per merchant |
| ImportJob.PublishFailureKeepsUpserts | crates/importer/src/jobs/import_csv.rs:23-29 | a refused send ends the run with the publish error; the upsert is not rolled back, and exactly the acknowledged events before it were sent |
| ImportJob.ReimportIsIdempotent | crates/importer/src/jobs/import_csv.rs:18-32 | re-running a successful import on its own result gives the same run |
| ImportJob.ImportedRows | crates/importer/tests/import_csv.rs:97-116 | after a successful run each reference holds its email, date, cadence string and fee under the kept or new id; an all-existing batch adds no row; other rows are unchanged |
| KafkaPublishing.MessageKey | crates/importer/src/events/kafka/publisher.rs:46-49 | a non-empty key is the string at `data.reference` |
| KafkaPublishing.MessageKeyIsDataReference | crates/importer/src/events/kafka/publisher.rs:46-49 | a string at `data.reference` is the key |
| KafkaPublishing.MessageKeyWithoutData | crates/importer/src/events/kafka/publisher.rs:46-49 | a payload without a `data` member has the empty key |
| KafkaPublishing.KafkaPublisher.Publish | crates/importer/src/events/kafka/publisher.rs:43-59 | an acknowledged send is `Ok` and the broker holds the whole payload, unchanged, under the extracted key; a refused send is an error and delivers nothing |
| MockPublishing.MockPublisher.Publish | crates/importer/tests/mock_publisher.rs:14-18 | always `Ok`; appends `(topic, payload)` at the end of the log and counts the call |
| MockPublishing.MockPublisher.WasCalledWith | crates/importer/tests/mock_publisher.rs:22-25 | true exactly when some logged call used the topic; the log is not modified |
| MockPublishing.MockPublisher.CallsCount | crates/importer/tests/mock_publisher.rs:27-30 | the number of `publish` calls made so far; the log is not modified |
| CalculatorEntities.Deserialize | crates/calculator/src/entities/merchants.rs:16-18 | a value deserialises only from the variant's upper-case name, as a string or as a one-member object with a `null` value |
| CalculatorEntities.DeserializeDisplay | crates/calculator/src/entities/merchants.rs:16-22 | each cadence deserialises back from its display string |
| CalculatorEntities.DeserializeStrings | crates/calculator/src/entities/merchants.rs:16-18 | as a string, exactly `DAILY` and `WEEKLY` are accepted, with no case folding |
| CalculatorEntities.DisplayInjective | crates/calculator/src/entities/merchants.rs:19-22 | the two cadences display differently |
| CalculatorRepository.ToEntry | crates/calculator/src/repositories/merchants.rs:13-18 | defines the values one merchant binds: its id, reference, date, the cadence's display string and its fee; there is no email |
| CalculatorRepository.UpsertResult | crates/calculator/src/repositories/merchants.rs:4-7 | defines the outcome of `upsert_merchants`: an empty batch succeeds untouched; a non-empty one succeeds exactly when the database answers and the references are distinct |
| CalculatorRepository.MerchantTable.Upsert | crates/calculator/src/repositories/merchants.rs:4-32 | on success the table is the batch upserted into the old rows; on failure it is unchanged |
| CalculatorRepository.UpsertSingle | crates/calculator/src/repositories/merchants.rs:9-26 | one merchant: a new reference is inserted with the given id; an existing one keeps its id and takes the new date, cadence string and fee; nothing else changes |
| Integers.WrapI32 | crates/calculator/src/events/handlers/merchant_upserted_handler.rs:42 | the `i64 as i32` cast: the result fits an i32, differs from the input by a multiple of 2^32, and is the input when that fits |
| Json.At | crates/calculator/src/events/handlers/merchant_upserted_handler.rs:33 | defines `value[key]`: the member when present, `Null` for a missing member or a non-object |
| Json.AsI64 | crates/calculator/src/events/handlers/merchant_upserted_handler.rs:42 | defines `as_i64`: only an integer in the i64 range is read |
| MerchantUpsertedHandling.StrOrDefault | crates/calculator/src/events/handlers/merchant_upserted_handler.rs:33-38 | defines `as_str().unwrap_or_default()`, as used for the reference and the date text: the string a value holds, or `""` when it is not a string |
| MerchantUpsertedHandling.FeeOf | crates/calculator/src/events/handlers/merchant_upserted_handler.rs:42 | a missing or non-integer fee is 0; an integer fee is truncated to 32 bits, so the result always fits an i32 |
| MerchantUpsertedHandling.BuildMerchant | crates/calculator/src/events/handlers/merchant_upserted_handler.rs:31-43 | the merchant builds exactly when the date parses and the cadence deserialises; a bad date is reported before a bad cadence; the built merchant has the fresh id, the defaulted reference and fee, and the parsed date and cadence |
| MerchantUpsertedHandling.BuiltMerchantIsValid | crates/calculator/src/events/handlers/merchant_upserted_handler.rs:37-40 | a built merchant has a real date that renders exactly as the payload spelled it, and an i32 fee |
| MerchantUpsertedHandling.HandleEvent | crates/calculator/src/events/handlers/merchant_upserted_handler.rs:31-54 | defines one handled event: build the merchant, then upsert it alone; a build or storage failure is the error and leaves the rows |
| MerchantUpsertedHandling.MerchantUpsertedHandler.Handle | crates/calculator/src/events/handlers/merchant_upserted_handler.rs:29-55 | the outcome and the receiver's rows are those the handling function gives |
| MerchantUpsertedHandling.HandleEventFailureKeepsRows | crates/calculator/src/events/handlers/merchant_upserted_handler.rs:31-52 | an event succeeds exactly when it builds and the database answers; a failed event leaves the rows unchanged |
| MerchantUpsertedHandling.HandleEventUpsertsOneRow | crates/calculator/src/events/handlers/merchant_upserted_handler.rs:52 | a handled event upserts exactly the payload's reference, with the fresh id only when the reference is new; no other row changes |
| MerchantUpsertedHandling.HandleEventTwice | crates/calculator/src/events/handlers/merchant_upserted_handler.rs:31-52 | handling the same event twice, with different fresh ids, leaves the rows as handling it once |
| KafkaConsumption.Step | crates/calculator/src/events/kafka/consumer.rs:53-71 | defines one message: a broker error or an unparseable body is logged, a body-less message is skipped, and a parsed body goes to the handler, whose failure is logged |
| KafkaConsumption.Loop | crates/calculator/src/events/kafka/consumer.rs:52-73 | defines the loop over a finite stream with any per-message step: every message in order, the logs concatenated |
| KafkaConsumption.Consume | crates/calculator/src/events/kafka/consumer.rs:52-75 | defines the consumer loop: the loop with the handler's step |
| KafkaConsumption.AppliedBy | crates/calculator/src/events/kafka/consumer.rs:55-62 | a message makes the handler store at most one merchant |
| KafkaConsumption.KafkaCalculatorConsumer.Run | crates/calculator/src/events/kafka/consumer.rs:48-76 | the loop returns `Ok` once the stream ends; the rows and the log are those of consuming every message in order |
| KafkaConsumption.StepSkips | crates/calculator/src/events/kafka/consumer.rs:53-71 | a broker error or an unparseable body is logged and a body-less message is skipped silently; none of them changes the rows |
| KafkaConsumption.StepUpserts | crates/calculator/src/events/kafka/consumer.rs:56-62 | a parsed body changes the rows by upserting the merchant it applies, if any |
| KafkaConsumption.ConsumeAppend | crates/calculator/src/events/kafka/consumer.rs:52-73 | the loop never stops early: consuming two streams in turn is consuming the first, then the second from where the first left off, and the logs follow one another |
| KafkaConsumption.LoopAppend | crates/calculator/src/events/kafka/consumer.rs:52-73 | the same for the loop with any per-message step |
| KafkaConsumption.ConsumeUpsertsApplied | crates/calculator/src/events/kafka/consumer.rs:52-75 | the final rows are the fold of the handler's upserts: the merchants it stored, in stream order, upserted into the initial rows |
| KafkaConsumption.AppliedEach | crates/calculator/src/events/kafka/consumer.rs:52-62 | when each message applies a known merchant, the stream applies all of them, in order |
| KafkaConsumption.ConsumeLastWriteWins | crates/calculator/src/events/kafka/consumer.rs:52-73 | a reference carries the date, cadence and fee of the last merchant stored for it; it keeps the id it had before or, when new, takes the id of the first merchant the handler stored for it |
| KafkaConsumption.StoredLastWrite | crates/calculator/src/events/kafka/consumer.rs:52-73 | the same over the sequence of merchants the handler stored, upserted in order |
| KafkaConsumption.ConsumeElsewhere | crates/calculator/src/events/kafka/consumer.rs:52-73 | a reference no handled event stored keeps its row, or stays absent |
| Synchronisation.ReceiverFrequency | crates/calculator/src/entities/merchants.rs:16-22 | the receiver's cadence has the same display string as the producer's |
| Synchronisation.ReceiverView | crates/calculator/src/entities/merchants.rs:8-14 | defines the receiver record of a producer merchant: its reference, date, cadence string and fee, with the receiver's id and no email |
| Synchronisation.PayloadRoundTrip | crates/calculator/src/events/handlers/merchant_upserted_handler.rs:31-43 | the handler reads back from a producer merchant's payload exactly its reference, date, cadence and fee; only the id is new |
| Synchronisation.AppliedByEvent | crates/calculator/src/events/handlers/merchant_upserted_handler.rs:31-52 | one producer event, handled with the database up, stores that merchant's receiver record |
| Synchronisation.AppliedEvents | crates/calculator/src/events/kafka/consumer.rs:52-62 | consuming a batch's events with the database up stores every merchant of the batch, in order, each under its event's fresh id |
| Synchronisation.SuccessfulImportSends | crates/importer/src/jobs/import_csv.rs:38-45 | a successful import sent exactly its batch's events, and their references are distinct |
| Synchronisation.ReceiverStoresEvents | crates/calculator/src/events/kafka/consumer.rs:52-62 | after consuming those events, every merchant of the batch is in the receiver's table with its own date, cadence string and fee |
| Synchronisation.ProducerAndReceiverAgree | crates/importer/src/jobs/import_csv.rs:18-32 | after a successful import whose events were consumed with the database up, both tables hold every imported reference with the same date, cadence string and fee |

## Left out

- Batch file reading: opening the file and the CSV reader are external, so the input is a `BatchSource` value: a missing file, or a header and records that the reader hands over or refuses. The reader's delimiter and quoting rules are not modelled.
- The panic of `record[i]` on a record with fewer than six fields: the reader only hands over records as long as the header. A header with fewer than six columns together with readable data records is excluded by a precondition (`Indexable`) rather than modelled as a panic. The precondition also excludes inputs the code handles without a panic: a five-column header whose first record fails its cadence, id or date check returns that ordinary error before `record[5]` is read.
- CsvNormalizer.ParseFee: the fee is read as an exact decimal (optional sign, digits, optional point and digits). It does not model `f64` parsing of exponents, `inf` or `nan`, nor binary floating-point error in `× 100`; rounding is exact half-away-from-zero on the decimal value.
- CsvNormalizer.UpperChar: `to_uppercase` is modelled for the ASCII letters and for dotless i and long s, the only non-ASCII characters whose upper case is a single ASCII letter. Every other character is left unchanged. Some of them upper-case to several ASCII letters: `ß` to `SS`, and the ligatures `ﬀ ﬁ ﬂ ﬃ ﬄ ﬅ ﬆ` to `FF FI FL FFI FFL ST ST`. Each of those expansions holds an `F` or an `S`, and neither letter occurs in `DAILY` or `WEEKLY`. All other letters (`é` to `É`, say) upper-case to non-ASCII text. So which tokens are accepted is exactly as in the code.
- CsvNormalizer.ParseFrequency: for a refused token holding non-ASCII letters, the token in the error is not Rust's upper-cased text. It is the model's: those letters are left as they are, and `ß` and the ligatures are not expanded.
- Dates.ParseDate: only the zero-padded `YYYY-MM-DD` form with a four-digit year is accepted. chrono also accepts unpadded fields, signed or longer years, and leading or trailing whitespace; these lenient forms are not modelled.
- Synchronisation.Deliver: the broker and serde_json are not modelled, so nothing is proved about delivery. The function takes it as given that each produced record reaches the consumer as one message, in order, and that its serialised bytes parse back to the same `Json.Value`. The byte-level JSON text, and whether serialising and parsing really round-trip, are not modelled.
- The producer's entity file is not part of this model: `ImporterEntities` takes its fields from the normaliser and assumes its cadence renders as `DAILY`/`WEEKLY`, as the receiver's does and as the re-import test expects.
- The import job is generic over `EventPublisher`; the model runs it with the broker-backed `KafkaPublisher`. A send is acknowledged or not according to an input sequence, and sends past its end are acknowledged. The in-memory test publisher is modelled on its own; `ImportJob.EveryAckPublishesAll` states the run it gives, since it acknowledges every send.
- The mock publisher's `Arc<Mutex<…>>` exists only for async sharing and is modelled as a plain sequence field.
- The unused transaction (`pool.begin`, `tx.commit`) is modelled only as steps that may fail; PostgreSQL transaction semantics, connection pools and SQL text are not modelled.
- The handler's fresh `Uuid::new_v4()` and the receiver database's availability are parameters of each call.
- The consumer's stream is a finite sequence of poll results; the real loop waits indefinitely. Broker client construction, configuration and subscription are not modelled.
- The `println!`/`eprintln!` output: the consumer's error lines are kept as a log of line kinds without their text; the normaliser's and handler's `println!` are not modelled.
- Settings loading, process entry points and the cron scheduler are not modelled.
