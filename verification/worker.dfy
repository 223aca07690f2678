/** The delivery worker's processor: one pure step per dequeued job.

    A step reads the job's record; skips it when the record is missing or no
    longer scheduled; otherwise asks the limiter for one unit of the sender's
    hourly quota.
    A denied attempt is re-enqueued with a back-off; an allowed one is handed
    to the transport, and the record becomes `sent`, or `failed` when anything
    in the send block throws (the throw is then passed on to the queue).

    The transport, the clock and the queue are parameters: the send's outcome
    is an input, the step returns the jobs it asks the queue to add, and
    whether it rethrows. */
module Worker {
  import opened Text
  import opened Wrappers
  import opened Emails
  import opened RateLimiter

  /** A thrown value: an `Error` object with its message, or anything else. */
  datatype Thrown = ErrorObject(message: String) | NonError

  /** Where in the send block the throw came from. */
  datatype FailureStage =
    | TransporterSetup   // `getTransporter()`: nothing was handed to the transport
    | Transport          // `sendMail(...)`
    | SentUpdate         // the update that records `sent`
    | SentLog            // the `console.log` after it: the record already reads `sent`

  /** What the send block did: all its statements completed, or one threw. */
  datatype SendOutcome = Delivered | Threw(stage: FailureStage, thrown: Thrown)

  /** The message handed to `sendMail`. */
  datatype Message = Message(from: String, to: String, subject: String, html: String)

  /** `Date.now()` and its UTC calendar fields. */
  datatype Clock = Clock(nowMs: int, utc: UtcHour)

  datatype StepResult = StepResult(
    records: RecordStore,
    rates: CounterStore,
    enqueued: seq<Job>,
    handedOff: Option<Message>,
    thrown: Option<Thrown>)

  /** The message stored on a failed record. */
  function ErrorMessage(e: Thrown): String {
    match e
    case ErrorObject(msg) => msg
    case NonError => "Send failed"
  }

  /** The record after a successful send. */
  function MarkSent(email: EmailRecord, nowMs: int): EmailRecord {
    email.(status := Sent, sentAt := Some(nowMs), error := None)
  }

  /** The record after a throw in the send block: `sentAt` is left as it was. */
  function MarkFailed(email: EmailRecord, e: Thrown): EmailRecord {
    email.(status := Failed, error := Some(ErrorMessage(e)))
  }

  /** The job that retries a deferred attempt after `waitMs`. */
  function RetryJob(p: Payload, waitMs: int, nowMs: int): Job {
    Job(SendEmail, RetryJobId(p.emailId, nowMs), Payload(p.emailId, p.sender), waitMs)
  }

  /** True when the step leaves everything as it was and does nothing. */
  predicate NoOp(r: StepResult, records: RecordStore, rates: CounterStore) {
    r == StepResult(records, rates, [], None, None)
  }

  /** One run of the processor on `job`. */
  function Step(records: RecordStore, rates: CounterStore, job: Job, clock: Clock, cfg: Config,
                outcome: SendOutcome): (r: StepResult)
    requires clock.utc.Valid()
    // records are never created or deleted, and only the job's record can change
    ensures r.records.Keys == records.Keys
    ensures forall id :: id in records && id != job.payload.emailId ==> r.records[id] == records[id]
    // a missing record, or one no longer scheduled, makes the step a no-op
    ensures job.payload.emailId !in records ==> NoOp(r, records, rates)
    ensures job.payload.emailId in records && records[job.payload.emailId].status != Scheduled ==>
              NoOp(r, records, rates)
    // the quota consulted is the job's sender's bucket for the current hour
    ensures forall k :: k != HourKey(job.payload.sender, clock.utc) ==> (k in r.rates <==> k in rates)
    ensures forall k :: k in rates && k != HourKey(job.payload.sender, clock.utc) ==> r.rates[k] == rates[k]
    // a deferral: exactly one retry job, the record untouched, nothing sent or thrown
    ensures |r.enqueued| <= 1
    ensures |r.enqueued| == 1 ==>
              && job.payload.emailId in records
              && records[job.payload.emailId].status == Scheduled
              && r.records == records && r.rates == rates
              && r.handedOff.None? && r.thrown.None?
              && r.enqueued[0].name == SendEmail
              && r.enqueued[0].id == RetryJobId(job.payload.emailId, clock.nowMs)
              && r.enqueued[0].payload == job.payload
              && r.enqueued[0].delay >= cfg.minDelayBetweenMs
    // a scheduled record is charged to the job's sender's current bucket, and
    // the quota's answer decides between a retry and the send block
    ensures var id := job.payload.emailId;
      var c := ConsumeRate(rates, job.payload.sender, clock.utc, cfg.maxEmailsPerHour);
      id in records && records[id].status == Scheduled ==>
        && r.rates == c.store
        && (!c.result.allowed ==>
              && r.records == records && r.handedOff.None? && r.thrown.None?
              && r.enqueued == [RetryJob(job.payload, c.result.ttlMs + cfg.minDelayBetweenMs, clock.nowMs)])
        && (c.result.allowed ==>
              && r.enqueued == []
              && (r.handedOff.Some? <==> !(outcome.Threw? && outcome.stage == TransporterSetup)))
    // an allowed attempt ends `sent` when the send block completes ...
    ensures var id := job.payload.emailId;
      var c := ConsumeRate(rates, job.payload.sender, clock.utc, cfg.maxEmailsPerHour);
      id in records && records[id].status == Scheduled && c.result.allowed && outcome.Delivered? ==>
        && r.records[id] == MarkSent(records[id], clock.nowMs)
        && r.thrown.None?
    // ... and `failed` with the thrown value passed on when it throws; a throw
    // after the `sent` update leaves that update's `sentAt` in place
    ensures var id := job.payload.emailId;
      var c := ConsumeRate(rates, job.payload.sender, clock.utc, cfg.maxEmailsPerHour);
      id in records && records[id].status == Scheduled && c.result.allowed && outcome.Threw? ==>
        && r.thrown == Some(outcome.thrown)
        && r.records[id] == MarkFailed(if outcome.stage == SentLog then MarkSent(records[id], clock.nowMs)
                                       else records[id], outcome.thrown)
    // a changed record was scheduled and is now sent or failed
    ensures forall id :: id in records && r.records[id] != records[id] ==>
              && id == job.payload.emailId
              && records[id].status == Scheduled
              && r.records[id].status != Scheduled
    // sent: `sentAt` is now, the error cleared, nothing else changed, nothing thrown
    ensures job.payload.emailId in r.records && r.records[job.payload.emailId].status == Sent
              && records[job.payload.emailId].status == Scheduled ==>
              && outcome.Delivered?
              && r.records[job.payload.emailId] == MarkSent(records[job.payload.emailId], clock.nowMs)
              && r.thrown.None?
    // failed: only a throw from the send block is passed on
    ensures r.thrown.Some? ==>
              && outcome.Threw? && r.thrown.value == outcome.thrown
              && job.payload.emailId in records
              && r.records[job.payload.emailId].status == Failed
    // whatever reaches the transport comes from the job's sender and the record's contents
    ensures r.handedOff.Some? ==>
              && job.payload.emailId in records
              && var email := records[job.payload.emailId];
              && email.status == Scheduled
              && r.records[job.payload.emailId].status != Scheduled
              && r.handedOff.value == Message(job.payload.sender, email.recipient, email.subject, email.body)
              && CountOf(r.rates, HourKey(job.payload.sender, clock.utc))
                 == CountOf(rates, HourKey(job.payload.sender, clock.utc)) + 1
    // the bucket never shrinks, and never grows past the service-wide hourly limit (or 1)
    ensures CountOf(r.rates, HourKey(job.payload.sender, clock.utc))
            >= CountOf(rates, HourKey(job.payload.sender, clock.utc))
    ensures CountOf(r.rates, HourKey(job.payload.sender, clock.utc))
            <= Max(CountOf(rates, HourKey(job.payload.sender, clock.utc)), Max(cfg.maxEmailsPerHour, 1))
  {
    var p := job.payload;
    if p.emailId !in records then StepResult(records, rates, [], None, None)
    else
      var email := records[p.emailId];
      if email.status != Scheduled then StepResult(records, rates, [], None, None)
      else
        var c := ConsumeRate(rates, p.sender, clock.utc, cfg.maxEmailsPerHour);
        if !c.result.allowed then
          StepResult(records, c.store, [RetryJob(p, c.result.ttlMs + cfg.minDelayBetweenMs, clock.nowMs)], None, None)
        else
          var msg := Message(p.sender, email.recipient, email.subject, email.body);
          match outcome
          case Delivered =>
            StepResult(records[p.emailId := MarkSent(email, clock.nowMs)], c.store, [], Some(msg), None)
          case Threw(stage, e) =>
            var reached := if stage == SentLog then MarkSent(email, clock.nowMs) else email;
            StepResult(records[p.emailId := MarkFailed(reached, e)], c.store, [],
                       if stage == TransporterSetup then None else Some(msg), Some(e))
  }

  /** The stored sender and the stored `hourlyLimit` play no part in a step:
      the quota is the job's sender's bucket under the service-wide limit, and
      the transport sees the job's sender as `from`. */
  lemma StoredSenderAndLimitIgnored(records: RecordStore, rates: CounterStore, job: Job, clock: Clock,
                                    cfg: Config, outcome: SendOutcome, sender: String, hourlyLimit: int)
    requires clock.utc.Valid()
    requires job.payload.emailId in records
    ensures var email := records[job.payload.emailId];
      var edited := records[job.payload.emailId := email.(sender := sender, hourlyLimit := hourlyLimit)];
      var a, b := Step(records, rates, job, clock, cfg, outcome), Step(edited, rates, job, clock, cfg, outcome);
      a.rates == b.rates && a.enqueued == b.enqueued && a.handedOff == b.handedOff && a.thrown == b.thrown
  {
  }

  // ---------------------------------------------------------------------------
  // Sequences of attempts

  /** A dequeued job, the clock when it ran, and what its send block did. */
  datatype Attempt = Attempt(job: Job, clock: Clock, outcome: SendOutcome)

  /** A message handed to the transport: for which record, charged to which bucket. */
  datatype Delivery = Delivery(emailId: String, bucket: String)

  predicate ValidClocks(attempts: seq<Attempt>) {
    forall i :: 0 <= i < |attempts| ==> attempts[i].clock.utc.Valid()
  }

  datatype RunResult = RunResult(records: RecordStore, rates: CounterStore, deliveries: seq<Delivery>, enqueued: seq<Job>)

  /** The processor applied to each attempt in turn (no expiry in between). */
  function RunWorker(records: RecordStore, rates: CounterStore, attempts: seq<Attempt>, cfg: Config): (r: RunResult)
    requires ValidClocks(attempts)
    ensures r.records.Keys == records.Keys
    decreases |attempts|
  {
    if |attempts| == 0 then RunResult(records, rates, [], [])
    else
      var a := attempts[0];
      var s := Step(records, rates, a.job, a.clock, cfg, a.outcome);
      var d := if s.handedOff.Some? then [Delivery(a.job.payload.emailId, HourKey(a.job.payload.sender, a.clock.utc))] else [];
      var rest := RunWorker(s.records, s.rates, attempts[1..], cfg);
      RunResult(rest.records, rest.rates, d + rest.deliveries, s.enqueued + rest.enqueued)
  }

  /** How many deliveries were made for record `id`. */
  function DeliveriesFor(ds: seq<Delivery>, id: String): nat {
    if |ds| == 0 then 0 else (if ds[0].emailId == id then 1 else 0) + DeliveriesFor(ds[1..], id)
  }

  /** How many deliveries were charged to `bucket`. */
  function DeliveriesIn(ds: seq<Delivery>, bucket: String): nat {
    if |ds| == 0 then 0 else (if ds[0].bucket == bucket then 1 else 0) + DeliveriesIn(ds[1..], bucket)
  }

  /** The deliveries of a run: those of the first step, then those of the rest. */
  lemma RunUnfolds(records: RecordStore, rates: CounterStore, attempts: seq<Attempt>, cfg: Config)
    requires ValidClocks(attempts) && |attempts| > 0
    ensures ValidClocks(attempts[1..])
    ensures var a := attempts[0];
      var s := Step(records, rates, a.job, a.clock, cfg, a.outcome);
      var rest := RunWorker(s.records, s.rates, attempts[1..], cfg);
      var r := RunWorker(records, rates, attempts, cfg);
      && r.records == rest.records && r.rates == rest.rates
      && (s.handedOff.None? ==> r.deliveries == rest.deliveries)
      && (s.handedOff.Some? ==> r.deliveries == [Delivery(a.job.payload.emailId, HourKey(a.job.payload.sender, a.clock.utc))] + rest.deliveries)
  {
    assert ValidClocks(attempts[1..]) by {
      forall i | 0 <= i < |attempts| - 1 ensures attempts[1..][i].clock.utc.Valid() {
        assert attempts[1..][i] == attempts[i + 1];
      }
    }
  }

  /** Counting over a delivery log that starts with `d`. */
  lemma CountsOfCons(d: Delivery, ds: seq<Delivery>, id: String, bucket: String)
    ensures DeliveriesFor([d] + ds, id) == (if d.emailId == id then 1 else 0) + DeliveriesFor(ds, id)
    ensures DeliveriesIn([d] + ds, bucket) == (if d.bucket == bucket then 1 else 0) + DeliveriesIn(ds, bucket)
  {
    assert ([d] + ds)[1..] == ds;
  }

  /** A record that is already `sent` or `failed` is never touched and never
      delivered again, however many stale or duplicate jobs arrive for it. */
  lemma {:induction false} ResolvedStaysResolved(records: RecordStore, rates: CounterStore, attempts: seq<Attempt>,
                                                 cfg: Config, id: String)
    requires ValidClocks(attempts)
    requires id in records && records[id].status != Scheduled
    ensures var r := RunWorker(records, rates, attempts, cfg);
      r.records[id] == records[id] && DeliveriesFor(r.deliveries, id) == 0
    decreases |attempts|
  {
    if |attempts| > 0 {
      var a := attempts[0];
      var s := Step(records, rates, a.job, a.clock, cfg, a.outcome);
      RunUnfolds(records, rates, attempts, cfg);
      ResolvedStaysResolved(s.records, s.rates, attempts[1..], cfg, id);
      if s.handedOff.Some? {
        CountsOfCons(Delivery(a.job.payload.emailId, HourKey(a.job.payload.sender, a.clock.utc)),
                     RunWorker(s.records, s.rates, attempts[1..], cfg).deliveries, id, "");
      }
    }
  }

  /** At most one message per record ever reaches the transport: the first
      delivery resolves the record, and resolved records are skipped. */
  lemma {:induction false} AtMostOneDeliveryPerRecord(records: RecordStore, rates: CounterStore, attempts: seq<Attempt>,
                                                      cfg: Config, id: String)
    requires ValidClocks(attempts)
    ensures DeliveriesFor(RunWorker(records, rates, attempts, cfg).deliveries, id) <= 1
    decreases |attempts|
  {
    if |attempts| > 0 {
      var a := attempts[0];
      var s := Step(records, rates, a.job, a.clock, cfg, a.outcome);
      RunUnfolds(records, rates, attempts, cfg);
      var rest := RunWorker(s.records, s.rates, attempts[1..], cfg);
      if s.handedOff.Some? {
        CountsOfCons(Delivery(a.job.payload.emailId, HourKey(a.job.payload.sender, a.clock.utc)), rest.deliveries, id, "");
        if a.job.payload.emailId == id {
          ResolvedStaysResolved(s.records, s.rates, attempts[1..], cfg, id);
        } else {
          AtMostOneDeliveryPerRecord(s.records, s.rates, attempts[1..], cfg, id);
        }
      } else {
        AtMostOneDeliveryPerRecord(s.records, s.rates, attempts[1..], cfg, id);
      }
    }
  }

  /** Every delivery consumed one unit of its bucket, and no bucket grows past
      the larger of its starting count and the service-wide hourly limit (or 1). */
  lemma {:induction false} DeliveriesCharged(records: RecordStore, rates: CounterStore, attempts: seq<Attempt>,
                                             cfg: Config, bucket: String)
    requires ValidClocks(attempts)
    ensures var r := RunWorker(records, rates, attempts, cfg);
      && CountOf(rates, bucket) + DeliveriesIn(r.deliveries, bucket) <= CountOf(r.rates, bucket)
      && CountOf(r.rates, bucket) <= Max(CountOf(rates, bucket), Max(cfg.maxEmailsPerHour, 1))
    decreases |attempts|
  {
    if |attempts| > 0 {
      var a := attempts[0];
      var s := Step(records, rates, a.job, a.clock, cfg, a.outcome);
      RunUnfolds(records, rates, attempts, cfg);
      var rest := RunWorker(s.records, s.rates, attempts[1..], cfg);
      DeliveriesCharged(s.records, s.rates, attempts[1..], cfg, bucket);
      var k := HourKey(a.job.payload.sender, a.clock.utc);
      if s.handedOff.Some? {
        CountsOfCons(Delivery(a.job.payload.emailId, k), rest.deliveries, "", bucket);
      }
      if bucket != k {
        assert CountOf(s.rates, bucket) == CountOf(rates, bucket);
      }
    }
  }

  /** The system's quota: starting from no counters, no sender is handed to
      the transport more than `max(maxEmailsPerHour, 1)` times in one UTC hour.
      A run applies no expiry. That is faithful within an hour when the key is
      computed at the moment the script runs: a bucket made during hour H lives
      one hour, so it cannot expire before H is over. */
  lemma HourlyQuota(records: RecordStore, attempts: seq<Attempt>, cfg: Config, bucket: String)
    requires ValidClocks(attempts)
    ensures DeliveriesIn(RunWorker(records, map[], attempts, cfg).deliveries, bucket) <= Max(cfg.maxEmailsPerHour, 1)
  {
    DeliveriesCharged(records, map[], attempts, cfg, bucket);
  }
}
