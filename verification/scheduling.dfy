/** `POST /schedule`: validate a campaign request, then create one record and
    one delayed initial job per recipient, spacing the recipients
    `delayBetweenSeconds` apart from the start time.

    zod's `email()` and `datetime()` checks and `new Date(startTime).getTime()`
    are parameters; record ids are handed out by the database and arrive here
    as a parameter too, as do the `Date.now()` readings taken in the loop. */
module Scheduling {
  import opened Text
  import opened Wrappers
  import opened Emails

  /** The JSON body as received; the two defaulted fields may be absent. */
  datatype ScheduleBody = ScheduleBody(
    from: String,
    subject: String,
    body: String,
    recipients: seq<String>,
    startTime: String,
    delayBetweenSeconds: Option<int>,
    hourlyLimit: Option<int>)

  /** The library functions validation and date parsing rely on. */
  datatype Checks = Checks(isEmail: String -> bool, isDateTime: String -> bool, epochMs: String -> int)

  datatype Field = From | Subject | Body | Recipients | StartTime | DelayBetweenSeconds | HourlyLimit

  /** A validated request, defaults filled in. */
  datatype Campaign = Campaign(
    from: String,
    subject: String,
    body: String,
    recipients: seq<String>,
    startTime: String,
    delayBetweenSeconds: int,
    hourlyLimit: int)

  const DefaultDelayBetweenSeconds: int := 2

  /** A field declared with zod's `.default(d)`: the value sent, or `d` when absent. */
  function Defaulted(field: Option<int>, d: int): int {
    if field.Some? then field.value else d
  }

  /** Whether `scheduleSchema` rejects field `f` of the body. An absent
      defaulted field is taken as unchecked (zod 4's `.default()`), so the
      hourly-limit default is accepted as configured. */
  predicate Fails(b: ScheduleBody, checks: Checks, f: Field) {
    match f
    case From => !checks.isEmail(b.from)
    case Subject => |b.subject| < 1
    case Body => |b.body| < 1
    case Recipients => |b.recipients| < 1 || exists i :: 0 <= i < |b.recipients| && !checks.isEmail(b.recipients[i])
    case StartTime => !checks.isDateTime(b.startTime)
    case DelayBetweenSeconds => b.delayBetweenSeconds.Some? && b.delayBetweenSeconds.value < 0
    case HourlyLimit => b.hourlyLimit.Some? && b.hourlyLimit.value <= 0
  }

  /** Every issue zod reports for the body. */
  function Issues(b: ScheduleBody, checks: Checks): (issues: set<Field>)
    ensures forall f :: f in issues <==> Fails(b, checks, f)
  {
    (if Fails(b, checks, From) then {From} else {})
    + (if Fails(b, checks, Subject) then {Subject} else {})
    + (if Fails(b, checks, Body) then {Body} else {})
    + (if Fails(b, checks, Recipients) then {Recipients} else {})
    + (if Fails(b, checks, StartTime) then {StartTime} else {})
    + (if Fails(b, checks, DelayBetweenSeconds) then {DelayBetweenSeconds} else {})
    + (if Fails(b, checks, HourlyLimit) then {HourlyLimit} else {})
  }

  datatype Parsed = Parsed(campaign: Campaign) | Rejected(issues: set<Field>)

  /** `scheduleSchema.parse(req.body)`. */
  function ParseSchedule(b: ScheduleBody, checks: Checks, cfg: Config): (p: Parsed)
    ensures p.Parsed? <==> forall f :: !Fails(b, checks, f)
    ensures p.Rejected? ==> p.issues != {} && forall f :: f in p.issues <==> Fails(b, checks, f)
    ensures p.Parsed? ==>
              && var c := p.campaign;
              && c.from == b.from && c.subject == b.subject && c.body == b.body
              && c.recipients == b.recipients && c.startTime == b.startTime
              && checks.isEmail(c.from) && |c.subject| >= 1 && |c.body| >= 1 && checks.isDateTime(c.startTime)
              && |c.recipients| >= 1 && (forall i :: 0 <= i < |c.recipients| ==> checks.isEmail(c.recipients[i]))
              && c.delayBetweenSeconds >= 0
              && c.delayBetweenSeconds == Defaulted(b.delayBetweenSeconds, DefaultDelayBetweenSeconds)
              && c.hourlyLimit == Defaulted(b.hourlyLimit, cfg.maxEmailsPerHour)
  {
    var issues := Issues(b, checks);
    if issues != {} then Rejected(issues)
    else
      assert !Fails(b, checks, DelayBetweenSeconds) && !Fails(b, checks, Recipients);
      Parsed(Campaign(b.from, b.subject, b.body, b.recipients, b.startTime,
                      Defaulted(b.delayBetweenSeconds, DefaultDelayBetweenSeconds),
                      Defaulted(b.hourlyLimit, cfg.maxEmailsPerHour)))
  }

  /** The send time of the recipient at `index`, in epoch milliseconds. */
  function ScheduledAt(base: int, index: nat, delayBetweenSeconds: int): int {
    base + index * delayBetweenSeconds * 1000
  }

  /** Recipients later in the list are never scheduled earlier. */
  lemma ScheduledAtMonotone(base: int, i: nat, j: nat, delayBetweenSeconds: int)
    requires i <= j && delayBetweenSeconds >= 0
    ensures ScheduledAt(base, i, delayBetweenSeconds) <= ScheduledAt(base, j, delayBetweenSeconds)
    ensures ScheduledAt(base, j, delayBetweenSeconds) - ScheduledAt(base, i, delayBetweenSeconds)
            == (j - i) * delayBetweenSeconds * 1000
  {
    assert j * delayBetweenSeconds * 1000 - i * delayBetweenSeconds * 1000 == (j - i) * delayBetweenSeconds * 1000;
    assert (j - i) * delayBetweenSeconds >= 0;
  }

  /** `Math.max(scheduledAt - Date.now(), 0)`. */
  function InitialDelay(scheduledAt: int, nowMs: int): (d: int)
    ensures d >= 0
    ensures scheduledAt <= nowMs ==> d == 0
    ensures scheduledAt >= nowMs ==> nowMs + d == scheduledAt
  {
    if scheduledAt - nowMs >= 0 then scheduledAt - nowMs else 0
  }

  /** The record created for the recipient at `index`; its status is the
      database default, `scheduled`. */
  function NewRecord(c: Campaign, base: int, id: String, index: nat): (r: EmailRecord)
    requires index < |c.recipients|
  {
    EmailRecord(id, c.from, c.recipients[index], c.subject, c.body,
                ScheduledAt(base, index, c.delayBetweenSeconds), c.delayBetweenSeconds, c.hourlyLimit,
                Scheduled, None, None)
  }

  /** The initial delivery job for record `id`. */
  function InitialJob(id: String, from: String, delay: int): Job {
    Job(SendEmail, InitJobId(id), Payload(id, from), delay)
  }

  datatype Response = Created(message: String, count: nat, ids: seq<String>) | BadRequest(issues: set<Field>)

  datatype Outcome = Outcome(records: RecordStore, jobs: seq<Job>, response: Response)

  /** The `/schedule` handler. `ids[i]` is the id the database assigns to the
      i-th created record and `clock[i]` the `Date.now()` reading taken when its
      job is enqueued. */
  method Schedule(b: ScheduleBody, checks: Checks, cfg: Config, records: RecordStore,
                  ids: seq<String>, clock: seq<int>) returns (out: Outcome)
    requires |ids| == |b.recipients| && |clock| == |b.recipients|
    requires forall i :: 0 <= i < |ids| ==> ids[i] !in records
    requires forall i, j :: 0 <= i < j < |ids| ==> ids[i] != ids[j]
    // a rejected request creates nothing
    ensures Issues(b, checks) != {} ==> out == Outcome(records, [], BadRequest(Issues(b, checks)))
    // an accepted one: one record and one job per recipient, in recipient order
    ensures Issues(b, checks) == {} ==>
              && var c := ParseSchedule(b, checks, cfg).campaign;
              && var base := checks.epochMs(c.startTime);
              && out.response == Created("Emails scheduled", |b.recipients|, ids)
              && out.records.Keys == records.Keys + (set i | 0 <= i < |ids| :: ids[i])
              && (forall k :: k in records ==> out.records[k] == records[k])
              && |out.jobs| == |ids|
              && (forall i :: 0 <= i < |ids| ==>
                    && out.records[ids[i]] == NewRecord(c, base, ids[i], i)
                    && out.jobs[i] == InitialJob(ids[i], c.from, InitialDelay(out.records[ids[i]].scheduledAt, clock[i])))
              && (forall i, j :: 0 <= i <= j < |ids| ==> out.records[ids[i]].scheduledAt <= out.records[ids[j]].scheduledAt)
  {
    var parsed := ParseSchedule(b, checks, cfg);
    if parsed.Rejected? {
      return Outcome(records, [], BadRequest(parsed.issues));
    }
    var c := parsed.campaign;
    var base := checks.epochMs(c.startTime);
    var store := records;
    var created: seq<String> := [];
    var jobs: seq<Job> := [];
    var index := 0;
    while index < |c.recipients|
      invariant 0 <= index <= |c.recipients|
      invariant created == ids[..index]
      invariant |jobs| == index
      invariant store.Keys == records.Keys + (set i | 0 <= i < index :: ids[i])
      invariant forall k :: k in records ==> store[k] == records[k]
      invariant forall i :: 0 <= i < index ==>
                  && store[ids[i]] == NewRecord(c, base, ids[i], i)
                  && jobs[i] == InitialJob(ids[i], c.from, InitialDelay(store[ids[i]].scheduledAt, clock[i]))
    {
      var email := NewRecord(c, base, ids[index], index);
      store := store[ids[index] := email];
      created := created + [ids[index]];
      var delay := InitialDelay(email.scheduledAt, clock[index]);
      jobs := jobs + [InitialJob(ids[index], c.from, delay)];
      index := index + 1;
    }
    assert created == ids;
    forall i, j | 0 <= i <= j < |ids|
      ensures store[ids[i]].scheduledAt <= store[ids[j]].scheduledAt
    {
      ScheduledAtMonotone(base, i, j, c.delayBetweenSeconds);
    }
    return Outcome(store, jobs, Created("Emails scheduled", |created|, created));
  }
}
