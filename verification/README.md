# Email scheduler core, modelled in Dafny

The modelled system is a bulk e-mail scheduler. A user composes a campaign in a web dialog. The
recipient box is a comma-separated list. A CSV upload can be merged into it. On submit the
dialog posts the campaign to `POST /api/schedule`.

The backend validates the request. It creates one database record per recipient, spaced
`delayBetweenSeconds` apart from the start time. For each record it enqueues a delayed
`send-email` job with id `email:<id>:init`.

A worker processes those jobs:

- It skips records that are missing or no longer `scheduled`.
- It asks the limiter for one unit of the sender's hourly quota. The quota is a Redis counter keyed by
  `rate:<sender>:<YYYYMMDDTHH>` (UTC), updated by an atomic Lua script.
- A denied attempt is re-enqueued as `email:<id>:retry:<now>`. Its delay is the bucket's
  remaining time to live plus a minimum gap.
- An allowed attempt is handed to the mail transport. The record then becomes `sent`, or
  `failed` (with the error message) if anything in the send block throws. A throw from the
  log line after the `sent` update still turns the record `failed`, with `sentAt` kept.

`GET /scheduled` and `GET /sent` list the first 200 matching records.

## Modules

- `Wrappers` holds `Option`.
- `Text` holds decimal rendering and parsing, two-digit padding, and the "split at the last
  separator" lemma.
- `RateLimiter` models the hour bucket key, the Lua script as one transition of a
  key→counter map, expiry as an explicit `Elapse` transition, and `consumeRate`. It also states
  quota lemmas over any interleaving of script calls.
- `Emails` holds the record, job and config types, and the two job-id formats with their
  injectivity.
- `Worker` models the processor as a pure `Step`, and `RunWorker` over a sequence of attempts.
  Lemmas give at most one delivery per record and the hourly quota on deliveries.
- `Scheduling` models schema validation and the `/schedule` loop, as a method with loop
  invariants.
- `Listing` models the two listings: filter, stable insertion sort, and the first 200 rows.
- `Recipients` models the dialog's string handling:
  - `split(',')`, `trim`, and dropping empty entries;
  - the submit guard;
  - CSV cell flattening;
  - the insertion-ordered-set merge of an upload into the box.

Two things in the source are parameters of the model:

- The Redis database, the database table, the job queue and the transport become values the
  functions take and return. The outcome of the send block is an input.
- `Date.now()`, the UTC calendar fields, zod's `email()`/`datetime()` checks, `Date` parsing,
  database-assigned ids and the CSV parser are also inputs.

The worker never reads the record's stored `sender` or `hourlyLimit`. The quota is charged to
the job's payload sender, and the limit is the service-wide `maxEmailsPerHour`.
`Worker.StoredSenderAndLimitIgnored` states this.

## Model

| member | source | states |
|---|---|---|
| RateLimiter.Script | backend/src/rateLimiter.ts:23-41 | a missing key becomes count 1 with the full window and is allowed, whatever the limit; an existing key is incremented and allowed iff count+1 <= limit, else denied with the store unchanged; only that key changes; the reply's ttl is the key's remaining time to live |
| RateLimiter.Elapse | backend/src/rateLimiter.ts:29 | after `ms` milliseconds a key set with `PX` disappears once its time to live runs out; the others keep their count with a shorter ttl; keys without expiry are untouched |
| RateLimiter.Normalise | backend/src/rateLimiter.ts:49 | allowed iff the script's flag is 1; a negative ttl becomes one hour, a non-negative one is passed through, so ttlMs is never negative |
| RateLimiter.ConsumeRate | backend/src/rateLimiter.ts:27-50 | one call touches only the sender's current hour bucket: allowed calls add one, denied calls change nothing; a fresh bucket answers allowed with a one-hour ttl; an existing bucket admits the call iff count + 1 <= maxEmailsPerHour and reports its remaining ttl, or one hour when Redis reports none; the bucket keeps the expiry it was created with (one hour from its first call, never re-armed by later calls); the count never passes max(old, max(limit, 1)) |
| RateLimiter.StampRoundTrip | backend/src/rateLimiter.ts:13-18 | the `YYYYMMDDTHH` stamp parses back to the UTC year, month, day and hour it was made from |
| RateLimiter.HourKeyInjective | backend/src/rateLimiter.ts:11-20 | two bucket keys are equal exactly when sender and UTC hour are both equal, even though the sender may contain ':' |
| RateLimiter.RunCountsAllowed | backend/src/rateLimiter.ts:27-40 | over any interleaving of calls on different keys, each bucket grows by exactly the number of its allowed calls and never past max(start, max(limit, 1)) |
| RateLimiter.QuotaBound | backend/src/rateLimiter.ts:27-40 | starting from no buckets, no key ever admits more than max(limit, 1) calls |
| RateLimiter.RepeatedCalls | backend/src/rateLimiter.ts:28-40 | n calls on a bucket at count c: the i-th is allowed exactly when c + i < limit |
| RateLimiter.FreshBucketAdmitsLimit | backend/src/rateLimiter.ts:28-40 | on a fresh key with limit L >= 1, exactly the first L calls are allowed |
| RateLimiter.WellFormedPreserved | backend/src/rateLimiter.ts:29-39 | script calls and expiry keep every bucket at count >= 1 with ttl in (0, one hour], so a denied sender waits a positive time of at most an hour |
| RateLimiter.ExpiredBucketStartsOver | backend/src/rateLimiter.ts:27-30 | once a bucket's time to live has elapsed, the next call starts over at count 1 with a full window |
| Text.TwoDigitsIsPadded | backend/src/rateLimiter.ts:13-18 | `n.toString().padStart(2, '0')` for n < 100 is the two-digit rendering used in the stamp |
| Text.ParseIntRoundTrip | backend/src/worker.ts:25 | an integer's decimal rendering (the `Date.now()` in a retry id, the year in a stamp) reads back as that integer |
| Text.NatToStringRoundTrip | backend/src/worker.ts:25 | a natural number's decimal rendering reads back as that number |
| Emails.InitIdInjective | backend/src/routes/emailRoutes.ts:49 | initial job ids of two records are equal exactly when the record ids are |
| Emails.RetryIdInjective | backend/src/worker.ts:25 | retry ids are equal exactly when record id and `Date.now()` reading are both equal |
| Emails.RetryIdIsNotInitId | backend/src/worker.ts:25 | a retry id never collides with any record's initial id |
| Worker.Step | backend/src/worker.ts:10-53 | a missing or non-scheduled record is a no-op; otherwise the counters become exactly those after `consumeRate` on the payload sender; a denied answer enqueues exactly one job, the retry `email:<id>:retry:<now>` with the same payload and delay ttlMs + minDelayBetweenMs, and changes nothing else; an allowed answer enqueues nothing and hands the record's recipient, subject and body to the transport unless the transporter setup threw; a completed send block marks the record `sent` at now with the error cleared; a throw marks it `failed` with the error's message (keeping `sentAt` when the throw came after the `sent` update) and rethrows the same value; no other record changes |
| Worker.StoredSenderAndLimitIgnored | backend/src/worker.ts:11-22 | changing a record's stored sender or hourly limit changes neither the quota charged, the retry, the message sent nor the throw |
| Worker.RunWorker | backend/src/worker.ts:10-54 | running the processor over any attempts keeps the set of record ids |
| Worker.ResolvedStaysResolved | backend/src/worker.ts:16-18 | a `sent` or `failed` record is never changed nor delivered again, whatever jobs arrive for it |
| Worker.AtMostOneDeliveryPerRecord | backend/src/worker.ts:16-43 | over any sequence of attempts, duplicate and stale jobs included, each record is handed to the transport at most once |
| Worker.DeliveriesCharged | backend/src/worker.ts:20-31 | every delivery consumed a unit of its bucket, and no bucket passes max(start, max(maxEmailsPerHour, 1)) |
| Worker.HourlyQuota | backend/src/worker.ts:20-29 | from no counters, no (sender, UTC hour) bucket is charged for more than max(maxEmailsPerHour, 1) messages to the transport; the run applies no expiry, which holds when the latency between computing the key and running the script is negligible: a bucket made in hour H lives one hour and so cannot expire before H ends |
| Scheduling.Issues | backend/src/routes/emailRoutes.ts:10-18 | a field is reported exactly when the schema rejects it: bad `from`, empty subject or body, no recipients or a bad one, bad start time, a given negative delay or a given non-positive limit |
| Scheduling.ParseSchedule | backend/src/routes/emailRoutes.ts:10-22 | the body parses iff no field fails; the parsed campaign carries the body's fields, with the delay defaulting to 2 and the limit to the configured hourly maximum |
| Scheduling.ScheduledAtMonotone | backend/src/routes/emailRoutes.ts:27-29 | later recipients are scheduled no earlier, exactly (j - i) * delay seconds later |
| Scheduling.InitialDelay | backend/src/routes/emailRoutes.ts:44 | the job delay is never negative: 0 for a time already past, otherwise the time left until the send time |
| Scheduling.Schedule | backend/src/routes/emailRoutes.ts:20-63 | a rejected body creates nothing and reports its issues; an accepted one adds exactly one `scheduled` record per recipient under the assigned ids, leaves other records alone, enqueues one `email:<id>:init` job per record in recipient order, and answers "Emails scheduled" with the count and ids |
| Listing.Filter | backend/src/routes/emailRoutes.ts:68 | keeps exactly the rows matching the `where` clause, each as often as in the table |
| Listing.FirstPage | backend/src/routes/emailRoutes.ts:69-70 | min(200, n) rows of the input, ordered, none left out that orders before a row kept |
| Listing.ListScheduled | backend/src/routes/emailRoutes.ts:65-76 | up to 200 `scheduled` rows of the table, ascending by send time, none left out that is due earlier than a row shown |
| Listing.SentKeyOrdersDescending | backend/src/routes/emailRoutes.ts:82 | between rows with a send time, the `/sent` order puts the later send first |
| Listing.ListSent | backend/src/routes/emailRoutes.ts:78-89 | up to 200 `sent` or `failed` rows, sent times descending, none left out that was sent later than a row shown |
| Recipients.Split | frontend/components/compose-modal.tsx:69-70 | at least one part, none containing the separator, and joining them back gives the input |
| Recipients.SplitJoinRoundTrip | frontend/components/compose-modal.tsx:58-60 | joining separator-free parts with ',' and splitting again returns the parts |
| Recipients.Trim | frontend/components/compose-modal.tsx:71 | the result has no whitespace at either end, and is empty exactly when the input is all whitespace |
| Recipients.TrimIsInfix | frontend/components/compose-modal.tsx:71 | trim removes only leading and trailing whitespace, keeping the middle intact |
| Recipients.TrimIdempotent | frontend/components/compose-modal.tsx:71 | trimming twice is trimming once |
| Recipients.CleanAppend | frontend/components/compose-modal.tsx:71-72 | trim-and-drop-empty keeps the entries' relative order (it distributes over concatenation) |
| Recipients.CleanEmpty | frontend/components/compose-modal.tsx:71-72 | nothing survives exactly when every part is whitespace |
| Recipients.CleanSingle | frontend/components/compose-modal.tsx:71-72 | one piece becomes its trim, or nothing when the trim is empty; with CleanAppend this fixes every entry as the trim of its piece, in order |
| Recipients.ParseRecipients | frontend/components/compose-modal.tsx:69-72 | every entry is non-empty, trimmed and comma-free; there are none exactly when the box holds only commas and whitespace |
| Recipients.ParseRecipientsOfPieces | frontend/components/compose-modal.tsx:69-72 | text made of comma-free pieces joined by ',' parses to exactly the trimmed, non-empty pieces in order |
| Recipients.ParseJoinRoundTrip | frontend/components/compose-modal.tsx:57-61 | writing the parsed list back with `join(',')` and parsing again gives the same list |
| Recipients.Submit | frontend/components/compose-modal.tsx:64-96 | no entries gives "Please add at least one recipient" and no request; an invalid start date gives the generic failure; otherwise the posted body carries the parsed recipients (at least one), the form's fields, the start time in ISO form or now, and both numbers |
| Recipients.NonEmptyCells | frontend/components/compose-modal.tsx:17 | keeps exactly the non-empty cells of a row, and never more cells than the row has |
| Recipients.NonEmptyCellsAppend | frontend/components/compose-modal.tsx:17 | filtering distributes over concatenation, so kept cells stay in their row order |
| Recipients.NonEmptyCellsKeepsFullRow | frontend/components/compose-modal.tsx:17 | a row with no empty cell is kept whole, order and repeats included |
| Recipients.ExtractEmails | frontend/components/compose-modal.tsx:10-23 | an address is extracted exactly when it is a non-empty cell of some row |
| Recipients.ExtractAppend | frontend/components/compose-modal.tsx:14-17 | extraction is row-major: the cells of earlier rows come first |
| Recipients.ExtractOneRow | frontend/components/compose-modal.tsx:14-17 | a single row contributes exactly its non-empty cells, in their order; with ExtractAppend extraction is row-major within rows too |
| Recipients.Distinct | frontend/components/compose-modal.tsx:59 | `Array.from(new Set(xs))` has no repeats and the same values as `xs` |
| Recipients.DistinctPrefix | frontend/components/compose-modal.tsx:59 | adding values never moves or drops those already in the set |
| Recipients.DistinctOfDistinct | frontend/components/compose-modal.tsx:59 | a list without repeats is its own set |
| Recipients.CurrentIsParse | frontend/components/compose-modal.tsx:58 | the empty-box shortcut agrees with parsing the empty box |
| Recipients.MergeKeepsEverything | frontend/components/compose-modal.tsx:57-61 | after an upload the box holds every earlier entry and every uploaded address, each once, earlier entries first and in place |
| Recipients.MergeNothingNew | frontend/components/compose-modal.tsx:57-61 | uploading addresses that are all listed already leaves a repeat-free list unchanged |
| Recipients.MergeReadsBack | frontend/components/compose-modal.tsx:52-61 | when uploaded cells are trimmed and comma-free, the text the upload writes parses back to exactly the merged list; the source does not trim uploaded cells, and the next row shows what happens when they are not trimmed |
| Recipients.MergeUntrimmedRepeat | frontend/components/compose-modal.tsx:57-61 | `new Set` compares uploaded cells untrimmed: an entry already in the box, uploaded again with a leading space, survives the merge, and the box then parses to that recipient twice |

## Left out

- Redis, the database, BullMQ and nodemailer are not modelled as services. Each is a value
  passed in and returned, and each script call is one atomic step. Concurrent workers,
  interleaving between the worker's reads and writes, and Redis' own expiry timing are not
  modelled. Expiry happens only where `Elapse` is applied.
- The job queue is the list of jobs that a step or the handler asks to add. BullMQ's delayed
  eligibility, its one-job-per-interval limiter, worker concurrency, job-id de-duplication and
  job removal are library behaviour and are not modelled.
- Infrastructure failures are not modelled: `findUnique`, `consumeRate`, `emailQueue.add`,
  `prisma.email.create`, or the update inside the `catch` throwing. The send block's own
  failures are modelled, by stage.
- The Gregorian conversion from `Date.now()` to UTC year, month, day and hour is an input.
  `UtcHour.Valid` only bounds the fields.
- JavaScript numbers are unbounded integers here. Non-integer JSON numbers, double rounding in
  `base + index * delay * 1000`, and `Invalid Date` results of `new Date(startTime)` are left
  out. zod's `datetime()` check is the `isDateTime` parameter.
- Scheduling.ParseSchedule: assumes zod 4's `.default()`, where an absent `hourlyLimit` takes
  `maxEmailsPerHour` unchecked. Under zod 3 the default would go through `.int().positive()`
  and an absent limit would be refused when `maxEmailsPerHour` is not a positive integer. No
  package manifest in the modelled sources fixes the version.
- Scheduling.Schedule: assumes the database hands out fresh, distinct ids. It also assumes the
  status column's default is `scheduled`; the Prisma schema is not part of this model. Error responses carry the set of failing fields, not zod's message text.
- Listing.ListSent: rows without a `sentAt` are ordered first or last by a parameter, and rows
  with equal keys stay in table order. The contract says nothing about where those rows land
  relative to rows with a send time.
- `config.ts` parsing of environment variables is not part of this model. `maxEmailsPerHour`
  and `minDelayBetweenMs` are inputs.
- The worker computes the bucket key before its Redis round trip. If that call reaches Redis
  after bucket H expired, it recreates bucket H at count 1. Runs of the worker apply no expiry,
  so this latency window is not modelled.
- Logging output (`console.log`, `console.error`, the test-message URL) is left out; only a
  throw from the log line inside the send block is modelled, as a failure stage. All rendering, loading and
  session state of the dialog are left out. So is the `fileName` label.
- Recipients.ExtractEmails: the `Array.isArray(v) ? v[0] : v` branch is left out. Rows are
  `string[]`, so after `flat()` no cell is an array.
- Recipients.Submit: the outcome of the POST itself is not modelled. A rejected request shows
  the same generic failure message as an invalid start date.
- The CSV parser (Papa) is a parameter: the model starts from its rows of cells.
