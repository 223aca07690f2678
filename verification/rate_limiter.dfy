/** The per-sender, per-UTC-hour send quota: the bucket key, the atomic
    check-and-increment script Redis runs for each send attempt, and the
    mapping of the script's reply to `{allowed, ttlMs}`.

    The Redis database is a map from key to counter. Redis runs the script
    atomically, so one call is one transition of that map; sequences of calls
    are modelled sequentially. Wall-clock expiry is an explicit `Elapse`
    transition. */
module RateLimiter {
  import opened Text
  import opened Wrappers

  /** `ONE_HOUR_MS`: the window a fresh bucket lives for. */
  const OneHourMs: int := 60 * 60 * 1000

  /** The UTC calendar fields of "now", as `getUTCFullYear`, `getUTCMonth`
      (0-based), `getUTCDate` and `getUTCHours` report them. */
  datatype UtcHour = UtcHour(year: int, month0: int, date: int, hours: int) {
    predicate Valid() {
      0 <= month0 < 12 && 1 <= date <= 31 && 0 <= hours < 24
    }
  }

  /** `YYYYMMDDTHH` for the given UTC hour: the year as `toString()` renders
      it, then month (1-based), day and hour each padded to two digits. */
  function Stamp(t: UtcHour): (s: String)
    requires t.Valid()
    ensures |s| == |IntToString(t.year)| + 7
    ensures Lacks(s, ':')
  {
    var y := IntToString(t.year);
    var m, d, h := TwoDigits(t.month0 + 1), TwoDigits(t.date), TwoDigits(t.hours);
    var rest := [m[0], m[1], d[0], d[1], 'T', h[0], h[1]];
    assert Lacks(y, ':') && Lacks(rest, ':');
    LacksConcat(y, rest, ':');
    y + rest
  }

  /** `hourKey(sender)`: `rate:<sender>:<YYYYMMDDTHH>`. */
  function HourKey(sender: String, t: UtcHour): (k: String)
    requires t.Valid()
  {
    "rate:" + sender + ":" + Stamp(t)
  }

  /** Reads a stamp back into the UTC hour it was rendered from. */
  function ParseStamp(s: String): Option<UtcHour> {
    if |s| < 8 || s[|s| - 3] != 'T' then None
    else
      var n := |s| - 7;
      var y, m, d, h := ParseInt(s[..n]), ParseTwoDigits(s[n], s[n + 1]),
                        ParseTwoDigits(s[n + 2], s[n + 3]), ParseTwoDigits(s[n + 5], s[n + 6]);
      if y.None? || m.None? || d.None? || h.None? then None
      else Some(UtcHour(y.value, m.value - 1, d.value, h.value))
  }

  lemma StampRoundTrip(t: UtcHour)
    requires t.Valid()
    ensures ParseStamp(Stamp(t)) == Some(t)
  {
    ParseIntRoundTrip(t.year);
    var s := Stamp(t);
    assert s[..|s| - 7] == IntToString(t.year);
  }

  /** Distinct UTC hours give distinct stamps. */
  lemma StampInjective(t1: UtcHour, t2: UtcHour)
    requires t1.Valid() && t2.Valid()
    requires Stamp(t1) == Stamp(t2)
    ensures t1 == t2
  {
    StampRoundTrip(t1);
    StampRoundTrip(t2);
  }

  /** The bucket key determines both the sender and the UTC hour: the same
      sender in the same hour shares one counter, and any other sender or any
      other hour gets a counter of its own. */
  lemma HourKeyInjective(s1: String, t1: UtcHour, s2: String, t2: UtcHour)
    requires t1.Valid() && t2.Valid()
    ensures HourKey(s1, t1) == HourKey(s2, t2) <==> s1 == s2 && t1 == t2
  {
    if HourKey(s1, t1) == HourKey(s2, t2) {
      var k := HourKey(s1, t1);
      assert s1 + [':'] + Stamp(t1) == k[5..] == s2 + [':'] + Stamp(t2);
      SplitAtLastSeparator(s1, Stamp(t1), s2, Stamp(t2), ':');
      StampInjective(t1, t2);
    }
  }

  /** One bucket: the send count and the remaining time to live that Redis'
      `PTTL` reports for it (negative when the key carries no expiry). */
  datatype Counter = Counter(count: int, pttl: int)

  type CounterStore = map<String, Counter>

  /** The two-element table the script returns: `{allowed flag, ttl}`. */
  datatype Reply = Reply(flag: int, ttl: int)

  datatype Transition = Transition(store: CounterStore, reply: Reply)

  /** The bucket's count, 0 while the key is absent. */
  function CountOf(store: CounterStore, key: String): int {
    if key in store then store[key].count else 0
  }

  /** The Lua script: atomic check-and-increment of the counter at `key`.
      A missing key is created with count 1 and expiry `window` and the call
      is allowed, whatever `limit` is; an existing count is incremented only
      while the incremented value stays within `limit`. */
  function Script(store: CounterStore, key: String, limit: int, window: int): (t: Transition)
    // only the bucket at `key` can change
    ensures forall k :: k != key ==> (k in t.store <==> k in store)
    ensures forall k :: k in store && k != key ==> t.store[k] == store[k]
    ensures key in t.store
    // a call is allowed exactly when it adds one to the bucket's count
    ensures t.reply.flag == 1 || t.reply.flag == 0
    ensures t.reply.flag == 1 ==> CountOf(t.store, key) == CountOf(store, key) + 1
    ensures t.reply.flag == 0 ==> t.store == store
    // a fresh bucket admits its first call even when the limit is not positive
    ensures key !in store ==> t.reply.flag == 1 && t.store[key] == Counter(1, window)
    // an existing bucket admits a call only while the count stays within the limit
    ensures key in store ==> (t.reply.flag == 1 <==> store[key].count + 1 <= limit)
    // the count never grows beyond the limit, or 1 for a fresh bucket
    ensures CountOf(t.store, key) <= Max(CountOf(store, key), Max(limit, 1))
    // the reply carries the bucket's remaining time to live after the call
    ensures t.reply.ttl == t.store[key].pttl
    ensures key in store ==> t.store[key].pttl == store[key].pttl
  {
    if key !in store then
      Transition(store[key := Counter(1, window)], Reply(1, window))
    else
      var c := store[key];
      if c.count + 1 <= limit then
        Transition(store[key := Counter(c.count + 1, c.pttl)], Reply(1, c.pttl))
      else
        Transition(store, Reply(0, c.pttl))
  }

  function Max(a: int, b: int): int {
    if a >= b then a else b
  }

  /** Redis' passive expiry after `ms` milliseconds: keys whose remaining time
      to live runs out disappear, the others keep their count with a shorter
      time to live, and keys without expiry are untouched. */
  function Elapse(store: CounterStore, ms: nat): (r: CounterStore)
    ensures forall k :: k in r ==> k in store && r[k].count == store[k].count
    ensures forall k :: k in store && store[k].pttl < 0 ==> k in r && r[k] == store[k]
    ensures forall k :: k in store && store[k].pttl >= 0 ==>
              (k in r <==> store[k].pttl > ms) && (k in r ==> r[k].pttl == store[k].pttl - ms)
  {
    map k | k in store && (store[k].pttl < 0 || store[k].pttl > ms) ::
      if store[k].pttl < 0 then store[k] else Counter(store[k].count, store[k].pttl - ms)
  }

  /** What `consumeRate` returns. */
  datatype RateLimitResult = RateLimitResult(allowed: bool, ttlMs: int)

  /** The result mapping of `consumeRate`: allowed iff the flag is 1, and a
      negative ttl read as a full window, so that a denied caller never waits
      less than nothing. */
  function Normalise(reply: Reply): (r: RateLimitResult)
    ensures r.allowed <==> reply.flag == 1
    ensures r.ttlMs >= 0
    ensures reply.ttl >= 0 ==> r.ttlMs == reply.ttl
    ensures reply.ttl < 0 ==> r.ttlMs == OneHourMs
  {
    RateLimitResult(reply.flag == 1, if reply.ttl < 0 then OneHourMs else reply.ttl)
  }

  datatype Consumed = Consumed(store: CounterStore, result: RateLimitResult)

  /** `consumeRate(sender)`: the script on the sender's current bucket, with the
      limit taken from the service-wide `maxEmailsPerHour` and the window fixed
      at one hour. */
  function ConsumeRate(store: CounterStore, sender: String, now: UtcHour, maxEmailsPerHour: int): (c: Consumed)
    requires now.Valid()
    ensures forall k :: k != HourKey(sender, now) ==> (k in c.store <==> k in store)
    ensures forall k :: k in store && k != HourKey(sender, now) ==> c.store[k] == store[k]
    ensures c.result.allowed ==> CountOf(c.store, HourKey(sender, now)) == CountOf(store, HourKey(sender, now)) + 1
    ensures !c.result.allowed ==> c.store == store
    ensures HourKey(sender, now) !in store ==> c.result == RateLimitResult(true, OneHourMs)
    // an existing bucket admits the call iff one more stays within the limit,
    // and the caller learns its remaining ttl (a full window when Redis reports none)
    ensures var k := HourKey(sender, now);
      k in store ==> (c.result.allowed <==> store[k].count + 1 <= maxEmailsPerHour)
    ensures var k := HourKey(sender, now);
      k in store ==> c.result.ttlMs == (if store[k].pttl < 0 then OneHourMs else store[k].pttl)
    // the bucket keeps the expiry it was created with: one hour from its first
    // call, never re-armed by later calls
    ensures var k := HourKey(sender, now);
      k in c.store && c.store[k].pttl == (if k in store then store[k].pttl else OneHourMs)
    ensures CountOf(c.store, HourKey(sender, now)) <= Max(CountOf(store, HourKey(sender, now)), Max(maxEmailsPerHour, 1))
    ensures c.result.ttlMs >= 0
  {
    var t := Script(store, HourKey(sender, now), maxEmailsPerHour, OneHourMs);
    Consumed(t.store, Normalise(t.reply))
  }

  // ---------------------------------------------------------------------------
  // Sequences of calls

  datatype Run = Run(store: CounterStore, replies: seq<Reply>)

  /** The script applied to each key of `keys` in turn. */
  function RunScript(store: CounterStore, keys: seq<String>, limit: int, window: int): (r: Run)
    ensures |r.replies| == |keys|
    decreases |keys|
  {
    if |keys| == 0 then Run(store, [])
    else
      var t := Script(store, keys[0], limit, window);
      var rest := RunScript(t.store, keys[1..], limit, window);
      Run(rest.store, [t.reply] + rest.replies)
  }

  /** How many of the calls on `key` were allowed. */
  function AllowedOn(keys: seq<String>, replies: seq<Reply>, key: String): nat
    requires |keys| == |replies|
    decreases |keys|
  {
    if |keys| == 0 then 0
    else (if keys[0] == key && replies[0].flag == 1 then 1 else 0) + AllowedOn(keys[1..], replies[1..], key)
  }

  /** The quota bound: however calls on different buckets interleave (with no
      expiry in between), every bucket's count grows by exactly the number of
      calls on it that were allowed, and it never exceeds the larger of its
      starting count and `max(limit, 1)`. */
  lemma {:induction false} RunCountsAllowed(store: CounterStore, keys: seq<String>, limit: int, window: int, key: String)
    ensures var r := RunScript(store, keys, limit, window);
      && CountOf(r.store, key) == CountOf(store, key) + AllowedOn(keys, r.replies, key)
      && CountOf(r.store, key) <= Max(CountOf(store, key), Max(limit, 1))
    decreases |keys|
  {
    if |keys| > 0 {
      var t := Script(store, keys[0], limit, window);
      RunCountsAllowed(t.store, keys[1..], limit, window, key);
      var r := RunScript(store, keys, limit, window);
      assert r.replies[1..] == RunScript(t.store, keys[1..], limit, window).replies;
    }
  }

  /** From an empty store, no bucket ever admits more than `max(limit, 1)` calls. */
  lemma QuotaBound(keys: seq<String>, limit: int, window: int, key: String)
    ensures AllowedOn(keys, RunScript(map[], keys, limit, window).replies, key) <= Max(limit, 1)
  {
    RunCountsAllowed(map[], keys, limit, window, key);
  }

  /** `n` calls on the same key. */
  function Repeat(key: String, n: nat): (keys: seq<String>)
    ensures |keys| == n && forall i :: 0 <= i < n ==> keys[i] == key
  {
    seq(n, _ => key)
  }

  /** The i-th reply is allowed exactly when `c + i < limit`. */
  predicate AllowedWhileBelow(replies: seq<Reply>, c: int, limit: int) {
    forall i :: 0 <= i < |replies| ==> (replies[i].flag == 1 <==> c + i < limit)
  }

  /** Repeated calls on one bucket whose count is `c` (0 for a missing key,
      which needs a positive limit for the formula to hold): the i-th call is
      allowed exactly when `c + i < limit`. */
  lemma {:induction false} RepeatedCalls(store: CounterStore, key: String, n: nat, limit: int, window: int, c: int)
    requires key in store ==> store[key].count == c
    requires key !in store ==> c == 0 && limit >= 1
    ensures AllowedWhileBelow(RunScript(store, Repeat(key, n), limit, window).replies, c, limit)
    decreases n
  {
    if n > 0 {
      var keys := Repeat(key, n);
      var t := Script(store, key, limit, window);
      var c' := if c < limit then c + 1 else c;
      assert keys[1..] == Repeat(key, n - 1);
      RepeatedCalls(t.store, key, n - 1, limit, window, c');
      var r := RunScript(store, keys, limit, window);
      var rest := RunScript(t.store, keys[1..], limit, window);
      forall i | 0 <= i < n
        ensures r.replies[i].flag == 1 <==> c + i < limit
      {
        if i > 0 {
          assert r.replies[i] == rest.replies[i - 1];
        }
      }
    }
  }

  /** From a fresh key with limit L >= 1: the first L calls are allowed and
      every later one is denied. */
  lemma FreshBucketAdmitsLimit(key: String, n: nat, limit: int, window: int)
    requires limit >= 1
    ensures var r := RunScript(map[], Repeat(key, n), limit, window);
      forall i :: 0 <= i < n ==> (r.replies[i].flag == 1 <==> i < limit)
  {
    RepeatedCalls(map[], key, n, limit, window, 0);
  }

  /** A store every live bucket of which was created by the script with the one-hour window. */
  predicate WellFormed(store: CounterStore) {
    forall k :: k in store ==> 1 <= store[k].count && 0 < store[k].pttl <= OneHourMs
  }

  /** The script and expiry keep buckets well formed, and a call on a
      well-formed store reports a time to live in (0, one hour]: a denied
      sender is always told to wait a positive time. */
  lemma WellFormedPreserved(store: CounterStore, key: String, limit: int, ms: nat)
    requires WellFormed(store)
    ensures var t := Script(store, key, limit, OneHourMs);
      && WellFormed(t.store)
      && 0 < t.reply.ttl <= OneHourMs
      && 0 < Normalise(t.reply).ttlMs <= OneHourMs
    ensures WellFormed(Elapse(store, ms))
  {
  }

  /** After a bucket's time to live has elapsed, the next call starts over:
      the count is reset to 1 and the call is allowed with a full window. */
  lemma ExpiredBucketStartsOver(store: CounterStore, key: String, limit: int, ms: nat)
    requires key in store && 0 <= store[key].pttl <= ms
    ensures var t := Script(Elapse(store, ms), key, limit, OneHourMs);
      t.reply == Reply(1, OneHourMs) && t.store[key] == Counter(1, OneHourMs)
  {
  }
}
