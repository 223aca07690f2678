/** The entities the scheduling route and the delivery worker share: the
    persisted email record, the queue's job requests, the service
    configuration, and the job identities built from record ids. */
module Emails {
  import opened Text
  import opened Wrappers

  datatype Status = Scheduled | Sent | Failed

  /** One row of the `email` table. */
  datatype EmailRecord = EmailRecord(
    id: String,
    sender: String,
    recipient: String,
    subject: String,
    body: String,
    scheduledAt: int,
    delaySeconds: int,
    hourlyLimit: int,
    status: Status,
    sentAt: Option<int>,
    error: Option<String>)

  /** The record store, keyed by record id. */
  type RecordStore = map<String, EmailRecord>

  /** A job's data: which record to deliver, and as whom. */
  datatype Payload = Payload(emailId: String, sender: String)

  /** The job name both producers use. */
  const SendEmail: String := "send-email"

  /** One `emailQueue.add(name, payload, {jobId, delay})` request. */
  datatype Job = Job(name: String, id: String, payload: Payload, delay: int)

  /** The values read from the environment that the core consumes. */
  datatype Config = Config(maxEmailsPerHour: int, minDelayBetweenMs: int)

  /** `email:<id>:init`, the id of a record's first delivery attempt. */
  function InitJobId(emailId: String): String {
    "email:" + emailId + ":init"
  }

  /** `email:<id>:retry:<now>`, the id of a deferred attempt. */
  function RetryJobId(emailId: String, nowMs: int): String {
    "email:" + emailId + ":retry:" + IntToString(nowMs)
  }

  /** A retry id is never an initial id: the one ends in a digit, the other in 't'. */
  lemma RetryIdIsNotInitId(e1: String, e2: String, t: int)
    ensures InitJobId(e1) != RetryJobId(e2, t)
  {
    var n := IntToString(t);
    var r := RetryJobId(e2, t);
    assert r[|r| - 1] == n[|n| - 1];
    assert n[|n| - 1] != 't';
  }

  /** Initial ids of distinct records differ. */
  lemma InitIdInjective(e1: String, e2: String)
    ensures InitJobId(e1) == InitJobId(e2) <==> e1 == e2
  {
    if InitJobId(e1) == InitJobId(e2) {
      assert e1 == InitJobId(e1)[6..|InitJobId(e1)| - 5];
    }
  }

  /** Retry ids differ unless both the record and the attempt time agree. */
  lemma RetryIdInjective(e1: String, e2: String, t1: int, t2: int)
    ensures RetryJobId(e1, t1) == RetryJobId(e2, t2) <==> e1 == e2 && t1 == t2
  {
    if RetryJobId(e1, t1) == RetryJobId(e2, t2) {
      var n1, n2 := IntToString(t1), IntToString(t2);
      assert Lacks(n1, ':') && Lacks(n2, ':');
      var a1, a2 := e1 + ":retry", e2 + ":retry";
      assert RetryJobId(e1, t1)[6..] == a1 + [':'] + n1;
      assert RetryJobId(e2, t2)[6..] == a2 + [':'] + n2;
      SplitAtLastSeparator(a1, n1, a2, n2, ':');
      assert e1 == a1[..|a1| - 6] && e2 == a2[..|a2| - 6];
      ParseIntRoundTrip(t1);
      ParseIntRoundTrip(t2);
    }
  }
}
