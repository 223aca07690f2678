/** `GET /scheduled` and `GET /sent`: filter the email table, order it, and
    return the first 200 rows.

    The table arrives as a sequence of rows in the database's scan order. Rows
    with equal sort keys stay in scan order here; the database is free to
    order them otherwise. Where `/sent` puts rows whose `sentAt` is null is
    the database's choice too, so it is a parameter. */
module Listing {
  import opened Wrappers
  import opened Emails

  /** `take: 200`. */
  const PageSize: nat := 200

  /** A sort key, compared tier first, then value. */
  datatype SortKey = SortKey(tier: int, value: int)

  predicate KeyLe(a: SortKey, b: SortKey) {
    a.tier < b.tier || (a.tier == b.tier && a.value <= b.value)
  }

  predicate SortedBy(xs: seq<EmailRecord>, order: Order) {
    forall i, j :: 0 <= i < j < |xs| ==> KeyLe(KeyOf(order, xs[i]), KeyOf(order, xs[j]))
  }

  /** The rows satisfying `keep`, in their original order. */
  function Filter(xs: seq<EmailRecord>, keep: EmailRecord -> bool): (r: seq<EmailRecord>)
    ensures forall i :: 0 <= i < |r| ==> keep(r[i])
    ensures forall x :: multiset(r)[x] == if keep(x) then multiset(xs)[x] else 0
  {
    if |xs| == 0 then []
    else
      assert xs == [xs[0]] + xs[1..];
      (if keep(xs[0]) then [xs[0]] else []) + Filter(xs[1..], keep)
  }

  /** `x` inserted into sorted `xs` after every row whose key is not greater. */
  function Insert(x: EmailRecord, xs: seq<EmailRecord>, order: Order): (r: seq<EmailRecord>)
    requires SortedBy(xs, order)
    ensures SortedBy(r, order)
    ensures multiset(r) == multiset(xs) + multiset{x}
  {
    if |xs| == 0 then [x]
    else if KeyLe(KeyOf(order, xs[0]), KeyOf(order, x)) then
      var rest := Insert(x, xs[1..], order);
      assert xs == [xs[0]] + xs[1..];
      assert forall i :: 0 <= i < |rest| ==> KeyLe(KeyOf(order, xs[0]), KeyOf(order, rest[i])) by {
        forall i | 0 <= i < |rest|
          ensures KeyLe(KeyOf(order, xs[0]), KeyOf(order, rest[i]))
        {
          assert rest[i] in multiset(rest);
          assert rest[i] == x || rest[i] in multiset(xs[1..]);
          if rest[i] != x {
            var j :| 0 <= j < |xs[1..]| && xs[1..][j] == rest[i];
            assert xs[1 + j] == rest[i];
          }
        }
      }
      [xs[0]] + rest
    else
      [x] + xs
  }

  /** Insertion sort: a stable ordering of the rows by `order`. */
  function Sort(xs: seq<EmailRecord>, order: Order): (r: seq<EmailRecord>)
    ensures SortedBy(r, order)
    ensures multiset(r) == multiset(xs)
  {
    if |xs| == 0 then []
    else
      assert xs == [xs[0]] + xs[1..];
      Insert(xs[0], Sort(xs[1..], order), order)
  }

  function Min(a: nat, b: nat): nat {
    if a <= b then a else b
  }

  /** The first page of `xs` ordered by `order`: rows from `xs` only, ordered,
      as many as the page holds, and none left out that orders before a row
      kept. */
  function FirstPage(xs: seq<EmailRecord>, order: Order): (r: seq<EmailRecord>)
    ensures |r| == Min(PageSize, |xs|)
    ensures multiset(r) <= multiset(xs)
    ensures SortedBy(r, order)
    ensures forall x, i :: x in multiset(xs) - multiset(r) && 0 <= i < |r| ==> KeyLe(KeyOf(order, r[i]), KeyOf(order, x))
  {
    var s := Sort(xs, order);
    assert |s| == |multiset(s)| == |xs|;
    var n := Min(PageSize, |s|);
    SortedPrefix(s, n, order);
    s[..n]
  }

  /** A prefix of a sorted sequence is sorted, and orders before everything
      after it. */
  lemma SortedPrefix(s: seq<EmailRecord>, n: nat, order: Order)
    requires SortedBy(s, order) && n <= |s|
    ensures SortedBy(s[..n], order)
    ensures multiset(s[..n]) <= multiset(s)
    ensures forall x, i :: x in multiset(s) - multiset(s[..n]) && 0 <= i < n ==> KeyLe(KeyOf(order, s[i]), KeyOf(order, x))
  {
    assert s == s[..n] + s[n..];
    assert multiset(s) == multiset(s[..n]) + multiset(s[n..]);
    forall x, i | x in multiset(s) - multiset(s[..n]) && 0 <= i < n
      ensures KeyLe(KeyOf(order, s[i]), KeyOf(order, x))
    {
      assert x in multiset(s[n..]);
      var j :| 0 <= j < |s[n..]| && s[n..][j] == x;
      assert s[n + j] == x;
    }
  }

  predicate IsScheduled(x: EmailRecord) {
    x.status == Scheduled
  }

  predicate IsResolved(x: EmailRecord) {
    x.status == Sent || x.status == Failed
  }

  /** The two orders the listings use: `scheduledAt` ascending, and `sentAt`
      descending with null `sentAt` first or last as `nullsFirst` says. */
  datatype Order = ScheduledAtAsc | SentAtDesc(nullsFirst: bool)

  function KeyOf(order: Order, x: EmailRecord): SortKey {
    match order
    case ScheduledAtAsc => SortKey(0, x.scheduledAt)
    case SentAtDesc(nullsFirst) =>
      match x.sentAt
      case None => SortKey(if nullsFirst then 0 else 2, 0)
      case Some(t) => SortKey(1, -t)
  }

  /** `GET /scheduled`. */
  function ListScheduled(rows: seq<EmailRecord>): (r: seq<EmailRecord>)
    ensures |r| == Min(PageSize, |Filter(rows, IsScheduled)|)
    ensures multiset(r) <= multiset(rows)
    ensures forall i :: 0 <= i < |r| ==> r[i].status == Scheduled
    ensures forall i, j :: 0 <= i < j < |r| ==> r[i].scheduledAt <= r[j].scheduledAt
    ensures forall x, i :: x in multiset(rows) - multiset(r) && x.status == Scheduled && 0 <= i < |r| ==>
              r[i].scheduledAt <= x.scheduledAt
  {
    var f := Filter(rows, IsScheduled);
    var r := FirstPage(f, ScheduledAtAsc);
    assert multiset(f) <= multiset(rows);
    forall i | 0 <= i < |r| ensures r[i].status == Scheduled {
      assert r[i] in multiset(f);
    }
    forall x, i | x in multiset(rows) - multiset(r) && x.status == Scheduled && 0 <= i < |r|
      ensures r[i].scheduledAt <= x.scheduledAt
    {
      assert x in multiset(f) - multiset(r);
      assert KeyLe(KeyOf(ScheduledAtAsc, r[i]), KeyOf(ScheduledAtAsc, x));
    }
    r
  }

  /** Between two rows that both have a `sentAt`, the sent key puts the later send first. */
  lemma SentKeyOrdersDescending(a: EmailRecord, b: EmailRecord, nullsFirst: bool)
    requires a.sentAt.Some? && b.sentAt.Some?
    ensures KeyLe(KeyOf(SentAtDesc(nullsFirst), a), KeyOf(SentAtDesc(nullsFirst), b)) <==> a.sentAt.value >= b.sentAt.value
  {
  }

  /** Rows of a page ordered by `sentAt` descending: between rows that both
      have a `sentAt`, kept rows are in descending order and no row left out
      was sent later than a row kept. */
  lemma SentPageDescending(f: seq<EmailRecord>, nullsFirst: bool)
    ensures var r := FirstPage(f, SentAtDesc(nullsFirst));
      && (forall i, j :: 0 <= i < j < |r| && r[i].sentAt.Some? && r[j].sentAt.Some? ==>
            r[i].sentAt.value >= r[j].sentAt.value)
      && (forall x, i :: x in multiset(f) - multiset(r) && 0 <= i < |r| && x.sentAt.Some? && r[i].sentAt.Some? ==>
            r[i].sentAt.value >= x.sentAt.value)
  {
    var r := FirstPage(f, SentAtDesc(nullsFirst));
    forall i, j | 0 <= i < j < |r| && r[i].sentAt.Some? && r[j].sentAt.Some?
      ensures r[i].sentAt.value >= r[j].sentAt.value
    {
      SentKeyOrdersDescending(r[i], r[j], nullsFirst);
    }
    forall x, i | x in multiset(f) - multiset(r) && 0 <= i < |r| && x.sentAt.Some? && r[i].sentAt.Some?
      ensures r[i].sentAt.value >= x.sentAt.value
    {
      SentKeyOrdersDescending(r[i], x, nullsFirst);
    }
  }

  /** `GET /sent`. */
  function ListSent(rows: seq<EmailRecord>, nullsFirst: bool): (r: seq<EmailRecord>)
    ensures |r| == Min(PageSize, |Filter(rows, IsResolved)|)
    ensures multiset(r) <= multiset(rows)
    ensures forall i :: 0 <= i < |r| ==> r[i].status == Sent || r[i].status == Failed
    ensures forall i, j :: 0 <= i < j < |r| && r[i].sentAt.Some? && r[j].sentAt.Some? ==>
              r[i].sentAt.value >= r[j].sentAt.value
    ensures forall x, i ::
              (x in multiset(rows) - multiset(r) && IsResolved(x) && 0 <= i < |r| && x.sentAt.Some? && r[i].sentAt.Some?)
              ==> r[i].sentAt.value >= x.sentAt.value
  {
    var f := Filter(rows, IsResolved);
    var r := FirstPage(f, SentAtDesc(nullsFirst));
    SentPageDescending(f, nullsFirst);
    assert multiset(f) <= multiset(rows);
    assert forall i :: 0 <= i < |r| ==> r[i].status == Sent || r[i].status == Failed by {
      forall i | 0 <= i < |r| ensures r[i].status == Sent || r[i].status == Failed {
        assert r[i] in multiset(f);
      }
    }
    assert forall x :: x in multiset(rows) - multiset(r) && IsResolved(x) ==> x in multiset(f) - multiset(r);
    r
  }
}
