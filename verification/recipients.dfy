/** The compose dialog's handling of the recipient list: the comma-separated
    text box is split, each entry trimmed and empty entries dropped; an
    uploaded CSV is flattened into its non-empty cells and merged into the
    box as an insertion-ordered set; and on submit an empty list is refused
    before anything is posted.

    CSV parsing itself and `new Date(..).toISOString()` are parameters. */
module Recipients {
  import opened Text
  import opened Wrappers
  import Scheduling

  // ---------------------------------------------------------------------
  // String.prototype.split with a one-character separator

  /** The text between separators, in order; the empty string splits into
      one empty part, as in JavaScript. */
  function Split(s: String, sep: char): (parts: seq<String>)
    ensures |parts| >= 1
    ensures forall i :: 0 <= i < |parts| ==> Lacks(parts[i], sep)
    ensures Join(parts, sep) == s
    decreases |s|
  {
    if |s| == 0 then [""]
    else
      var rest := Split(s[1..], sep);
      if s[0] == sep then
        assert [sep] + Join(rest, sep) == s;
        [""] + rest
      else
        var parts := [[s[0]] + rest[0]] + rest[1..];
        assert Join(parts, sep) == [s[0]] + Join(rest, sep) by {
          if |rest| > 1 {
            assert parts[1..] == rest[1..];
            assert [s[0]] + rest[0] + [sep] + Join(rest[1..], sep)
                == [s[0]] + (rest[0] + [sep] + Join(rest[1..], sep));
          }
        }
        assert [s[0]] + s[1..] == s;
        parts
  }

  /** Array.prototype.join with a one-character separator. */
  function Join(parts: seq<String>, sep: char): String
    decreases |parts|
  {
    if |parts| == 0 then ""
    else if |parts| == 1 then parts[0]
    else parts[0] + [sep] + Join(parts[1..], sep)
  }

  lemma {:induction false} SplitWithoutSeparator(s: String, sep: char)
    requires Lacks(s, sep)
    ensures Split(s, sep) == [s]
    decreases |s|
  {
    if |s| > 0 {
      assert Lacks(s[1..], sep);
      SplitWithoutSeparator(s[1..], sep);
      assert [s[0]] + s[1..] == s;
    }
  }

  /** Splitting at a leading separator-free piece peels it off. */
  lemma {:induction false} SplitCons(p: String, sep: char, t: String)
    requires Lacks(p, sep)
    ensures Split(p + [sep] + t, sep) == [p] + Split(t, sep)
    decreases |p|
  {
    var s := p + [sep] + t;
    if |p| == 0 {
      assert s[0] == sep && s[1..] == t;
    } else {
      assert s[0] == p[0] && s[1..] == p[1..] + [sep] + t;
      SplitCons(p[1..], sep, t);
      assert [p[0]] + p[1..] == p;
    }
  }

  /** Joining separator-free parts and splitting again gives the parts back. */
  lemma {:induction false} SplitJoinRoundTrip(parts: seq<String>, sep: char)
    requires |parts| >= 1
    requires forall i :: 0 <= i < |parts| ==> Lacks(parts[i], sep)
    ensures Split(Join(parts, sep), sep) == parts
    decreases |parts|
  {
    if |parts| == 1 {
      SplitWithoutSeparator(parts[0], sep);
    } else {
      SplitJoinRoundTrip(parts[1..], sep);
      SplitCons(parts[0], sep, Join(parts[1..], sep));
      assert [parts[0]] + parts[1..] == parts;
    }
  }

  // ---------------------------------------------------------------------
  // String.prototype.trim

  /** The characters `trim` removes: ECMAScript WhiteSpace and LineTerminator. */
  predicate IsJsSpace(c: char) {
    c == '\t' || c == '\n' || c == '\U{000B}' || c == '\U{000C}' || c == '\r' || c == ' '
    || c == '\U{00A0}' || c == '\U{1680}' || ('\U{2000}' <= c <= '\U{200A}')
    || c == '\U{2028}' || c == '\U{2029}' || c == '\U{202F}' || c == '\U{205F}'
    || c == '\U{3000}' || c == '\U{FEFF}'
  }

  predicate AllSpace(s: String) {
    forall i :: 0 <= i < |s| ==> IsJsSpace(s[i])
  }

  /** Neither end is whitespace. */
  predicate IsTrimmed(s: String) {
    |s| == 0 || (!IsJsSpace(s[0]) && !IsJsSpace(s[|s| - 1]))
  }

  /** How many whitespace characters `s` starts with. */
  function Lead(s: String): (n: nat)
    ensures n <= |s|
    ensures forall i :: 0 <= i < n ==> IsJsSpace(s[i])
    ensures n < |s| ==> !IsJsSpace(s[n])
    decreases |s|
  {
    if |s| > 0 && IsJsSpace(s[0]) then
      var n := 1 + Lead(s[1..]);
      assert forall i :: 1 <= i < n ==> s[i] == s[1..][i - 1];
      n
    else 0
  }

  /** How many whitespace characters `s` ends with. */
  function Trail(s: String): (n: nat)
    ensures n <= |s|
    ensures forall i :: |s| - n <= i < |s| ==> IsJsSpace(s[i])
    ensures n < |s| ==> !IsJsSpace(s[|s| - n - 1])
    decreases |s|
  {
    if |s| > 0 && IsJsSpace(s[|s| - 1]) then
      var n := 1 + Trail(s[..|s| - 1]);
      assert forall i :: |s| - n <= i < |s| - 1 ==> s[i] == s[..|s| - 1][i];
      n
    else 0
  }

  /** `s` is `lead + r + trail` with whitespace-only `lead` and `trail`. */
  predicate Pads(s: String, r: String, lead: nat) {
    lead + |r| <= |s| && s[lead..lead + |r|] == r
    && AllSpace(s[..lead]) && AllSpace(s[lead + |r|..])
  }

  /** `String.prototype.trim`: strip leading, then trailing, whitespace. */
  function Trim(s: String): (r: String)
    ensures IsTrimmed(r)
    ensures r == "" <==> AllSpace(s)
  {
    var a := Lead(s);
    if a == |s| then "" else s[a..|s| - Trail(s)]
  }

  /** `trim` removes whitespace at the two ends and nothing else. */
  lemma TrimIsInfix(s: String)
    ensures Pads(s, Trim(s), Lead(s))
  {
    var r := Trim(s);
    var a := Lead(s);
    if a < |s| {
      assert s[a..a + |r|] == r;
      var tail := s[a + |r|..];
      assert forall i :: 0 <= i < |tail| ==> tail[i] == s[a + |r| + i];
    }
  }

  /** A string with nothing to remove is its own trim. */
  lemma TrimTrimmed(s: String)
    requires IsTrimmed(s)
    ensures Trim(s) == s
  {
    assert |s| > 0 ==> Lead(s) == 0 && Trail(s) == 0;
    assert |s| > 0 ==> s[0..|s|] == s;
  }

  lemma TrimIdempotent(s: String)
    ensures Trim(Trim(s)) == Trim(s)
  {
    TrimTrimmed(Trim(s));
  }

  // ---------------------------------------------------------------------
  // split(',').map(trim).filter(Boolean)

  predicate IsEntry(e: String) {
    e != "" && IsTrimmed(e) && Lacks(e, ',')
  }

  /** Trimming only removes characters. */
  lemma TrimKeepsAbsence(s: String, c: char)
    requires Lacks(s, c)
    ensures Lacks(Trim(s), c)
  {
    TrimIsInfix(s);
    var t := Trim(s);
    var lead := Lead(s);
    assert forall k :: 0 <= k < |t| ==> t[k] == s[lead..lead + |t|][k];
  }

  /** Trim every part and drop the ones that come out empty. */
  function Clean(parts: seq<String>): (r: seq<String>)
    ensures |r| <= |parts|
    ensures forall i :: 0 <= i < |r| ==> r[i] != "" && IsTrimmed(r[i])
    decreases |parts|
  {
    if |parts| == 0 then []
    else
      var t := Trim(parts[0]);
      (if t == "" then [] else [t]) + Clean(parts[1..])
  }

  /** Entries hold no character that no part holds. */
  lemma {:induction false} CleanKeepsAbsence(parts: seq<String>, c: char)
    requires forall i :: 0 <= i < |parts| ==> Lacks(parts[i], c)
    ensures forall k :: 0 <= k < |Clean(parts)| ==> Lacks(Clean(parts)[k], c)
    decreases |parts|
  {
    if |parts| > 0 {
      TrimKeepsAbsence(parts[0], c);
      assert forall i :: 0 <= i < |parts[1..]| ==> parts[1..][i] == parts[i + 1];
      CleanKeepsAbsence(parts[1..], c);
    }
  }

  /** Nothing survives exactly when every part is whitespace. */
  lemma {:induction false} CleanEmpty(parts: seq<String>)
    ensures Clean(parts) == [] <==> forall i :: 0 <= i < |parts| ==> AllSpace(parts[i])
    decreases |parts|
  {
    if |parts| > 0 {
      CleanEmpty(parts[1..]);
      assert forall i :: 1 <= i < |parts| ==> parts[i] == parts[1..][i - 1];
    }
  }

  /** Cleaning keeps the relative order of the entries: it distributes over
      concatenation. */
  lemma {:induction false} CleanAppend(a: seq<String>, b: seq<String>)
    ensures Clean(a + b) == Clean(a) + Clean(b)
    decreases |a|
  {
    if |a| > 0 {
      var t := Trim(a[0]);
      var head: seq<String> := if t == "" then [] else [t];
      assert (a + b)[0] == a[0];
      assert (a + b)[1..] == a[1..] + b;
      assert Clean(a + b) == head + Clean(a[1..] + b);
      CleanAppend(a[1..], b);
      assert head + (Clean(a[1..]) + Clean(b)) == (head + Clean(a[1..])) + Clean(b);
    } else {
      assert a + b == b;
    }
  }

  /** Entries that are already clean pass through unchanged. */
  lemma {:induction false} CleanEntries(xs: seq<String>)
    requires forall i :: 0 <= i < |xs| ==> xs[i] != "" && IsTrimmed(xs[i])
    ensures Clean(xs) == xs
    decreases |xs|
  {
    if |xs| > 0 {
      TrimTrimmed(xs[0]);
      CleanEntries(xs[1..]);
      assert [xs[0]] + xs[1..] == xs;
    }
  }

  /** Nothing but separators and whitespace. */
  predicate Blank(s: String) {
    forall i :: 0 <= i < |s| ==> s[i] == ',' || IsJsSpace(s[i])
  }

  /** The recipient list the dialog derives from the text box. */
  function ParseRecipients(text: String): (r: seq<String>)
    ensures forall i :: 0 <= i < |r| ==> IsEntry(r[i])
    ensures r == [] <==> Blank(text)
  {
    var parts := Split(text, ',');
    NoEntriesIffBlank(text, parts);
    CleanEmpty(parts);
    CleanKeepsAbsence(parts, ',');
    Clean(parts)
  }

  /** A single piece becomes its trim, or nothing when that is empty. */
  lemma CleanSingle(p: String)
    ensures Clean([p]) == if Trim(p) == "" then [] else [Trim(p)]
  {
    assert [p][1..] == [];
  }

  /** Parsing text made of comma-free pieces cleans exactly those pieces:
      with CleanAppend and CleanSingle, each entry is the trim of its piece. */
  lemma ParseRecipientsOfPieces(parts: seq<String>)
    requires |parts| >= 1
    requires forall i :: 0 <= i < |parts| ==> Lacks(parts[i], ',')
    ensures ParseRecipients(Join(parts, ',')) == Clean(parts)
  {
    SplitJoinRoundTrip(parts, ',');
  }

  /** Over the parts of a split, "every part is whitespace" is "every
      character other than the separator is whitespace". */
  lemma {:induction false} NoEntriesIffBlank(text: String, parts: seq<String>)
    requires parts == Split(text, ',')
    ensures (forall i :: 0 <= i < |parts| ==> AllSpace(parts[i])) <==> Blank(text)
    decreases |text|
  {
    if |text| > 0 {
      var rest := Split(text[1..], ',');
      NoEntriesIffBlank(text[1..], rest);
      assert Blank(text) <==> (text[0] == ',' || IsJsSpace(text[0])) && Blank(text[1..]) by {
        assert forall k :: 1 <= k < |text| ==> text[k] == text[1..][k - 1];
      }
      if text[0] != ',' {
        var p0 := [text[0]] + rest[0];
        assert parts == [p0] + rest[1..];
        assert AllSpace(p0) <==> IsJsSpace(text[0]) && AllSpace(rest[0]) by {
          assert p0[0] == text[0];
          assert forall k :: 1 <= k < |p0| ==> p0[k] == rest[0][k - 1];
          assert forall k :: 0 <= k < |rest[0]| ==> rest[0][k] == p0[k + 1];
        }
        assert forall i :: 1 <= i < |parts| ==> parts[i] == rest[i];
      } else {
        assert parts == [""] + rest;
        assert forall i :: 1 <= i < |parts| ==> parts[i] == rest[i - 1];
      }
    }
  }

  /** Writing the list back with `join(',')` and reading it again is lossless. */
  lemma ParseJoinRoundTrip(text: String)
    ensures ParseRecipients(Join(ParseRecipients(text), ',')) == ParseRecipients(text)
  {
    var r := ParseRecipients(text);
    if r == [] {
      assert Split("", ',') == [""];
      assert Trim("") == "";
    } else {
      SplitJoinRoundTrip(r, ',');
      CleanEntries(r);
    }
  }

  // ---------------------------------------------------------------------
  // Submitting the form

  datatype Form = Form(
    fromAddress: String,
    toList: String,
    subject: String,
    body: String,
    startTime: String,
    delaySeconds: int,
    hourlyLimit: int)

  const NoRecipientsMessage: String := "Please add at least one recipient"
  const FailedMessage: String := "Failed to schedule emails. Check inputs."

  /** What pressing "Schedule" leads to: an error shown without a request,
      or the body of `POST /api/schedule`. */
  datatype Submission = Refused(error: String) | Post(request: Scheduling.ScheduleBody)

  /** `toIso` is `new Date(x).toISOString()`, `None` when it throws on an
      invalid date; `nowIso` is the current time in the same format. */
  function Submit(form: Form, nowIso: String, toIso: String -> Option<String>): (s: Submission)
    ensures s.Refused? && s.error == NoRecipientsMessage
            <==> ParseRecipients(form.toList) == []
    ensures s.Refused? ==> s.error in {NoRecipientsMessage, FailedMessage}
    ensures s.Refused? && s.error == FailedMessage
            <==> ParseRecipients(form.toList) != [] && form.startTime != "" && toIso(form.startTime).None?
    ensures s.Post? ==>
              && s.request.recipients == ParseRecipients(form.toList)
              && |s.request.recipients| >= 1
              && s.request.from == form.fromAddress
              && s.request.subject == form.subject
              && s.request.body == form.body
              && (form.startTime == "" ==> s.request.startTime == nowIso)
              && (form.startTime != "" ==> toIso(form.startTime) == Some(s.request.startTime))
              && s.request.delayBetweenSeconds == Some(form.delaySeconds)
              && s.request.hourlyLimit == Some(form.hourlyLimit)
  {
    var recipients := ParseRecipients(form.toList);
    if |recipients| == 0 then Refused(NoRecipientsMessage)
    else
      var scheduledFor := if form.startTime != "" then toIso(form.startTime) else Some(nowIso);
      if scheduledFor.None? then Refused(FailedMessage)
      else Post(Scheduling.ScheduleBody(form.fromAddress, form.subject, form.body, recipients,
                                        scheduledFor.value, Some(form.delaySeconds), Some(form.hourlyLimit)))
  }

  // ---------------------------------------------------------------------
  // Uploading a CSV of addresses

  /** The cells of one parsed row that are non-empty, in order. */
  function NonEmptyCells(row: seq<String>): (r: seq<String>)
    ensures forall x :: x in r <==> x in row && x != ""
    ensures |r| <= |row|
    decreases |row|
  {
    if |row| == 0 then []
    else (if row[0] == "" then [] else [row[0]]) + NonEmptyCells(row[1..])
  }

  /** Filtering keeps the cells' order: the kept cells of a row's first part
      come before those of its second part. */
  lemma {:induction false} NonEmptyCellsAppend(a: seq<String>, b: seq<String>)
    ensures NonEmptyCells(a + b) == NonEmptyCells(a) + NonEmptyCells(b)
    decreases |a|
  {
    if |a| > 0 {
      var head: seq<String> := if a[0] == "" then [] else [a[0]];
      assert (a + b)[0] == a[0];
      assert (a + b)[1..] == a[1..] + b;
      assert NonEmptyCells(a + b) == head + NonEmptyCells(a[1..] + b);
      NonEmptyCellsAppend(a[1..], b);
      assert head + (NonEmptyCells(a[1..]) + NonEmptyCells(b)) == (head + NonEmptyCells(a[1..])) + NonEmptyCells(b);
    } else {
      assert a + b == b;
    }
  }

  /** A row without empty cells is kept whole, repeats and order included. */
  lemma {:induction false} NonEmptyCellsKeepsFullRow(row: seq<String>)
    requires forall i :: 0 <= i < |row| ==> row[i] != ""
    ensures NonEmptyCells(row) == row
    decreases |row|
  {
    if |row| > 0 {
      NonEmptyCellsKeepsFullRow(row[1..]);
      assert [row[0]] + row[1..] == row;
    }
  }

  /** `results.data.flat().filter(Boolean)`: every non-empty cell, row by row. */
  function ExtractEmails(rows: seq<seq<String>>): (r: seq<String>)
    ensures forall x :: x in r <==> x != "" && exists i :: 0 <= i < |rows| && x in rows[i]
    decreases |rows|
  {
    if |rows| == 0 then []
    else
      var rest := ExtractEmails(rows[1..]);
      assert forall i :: 1 <= i < |rows| ==> rows[i] == rows[1..][i - 1];
      NonEmptyCells(rows[0]) + rest
  }

  /** A single row contributes its non-empty cells, in their order. */
  lemma ExtractOneRow(row: seq<String>)
    ensures ExtractEmails([row]) == NonEmptyCells(row)
  {
    assert [row][1..] == [];
  }

  /** Row-major order: the cells of earlier rows come first. */
  lemma {:induction false} ExtractAppend(a: seq<seq<String>>, b: seq<seq<String>>)
    ensures ExtractEmails(a + b) == ExtractEmails(a) + ExtractEmails(b)
    decreases |a|
  {
    if |a| > 0 {
      assert (a + b)[1..] == a[1..] + b;
      ExtractAppend(a[1..], b);
    } else {
      assert a + b == b;
    }
  }

  predicate NoDuplicates(xs: seq<String>) {
    forall i, j :: 0 <= i < j < |xs| ==> xs[i] != xs[j]
  }

  /** `Array.from(new Set(xs))`: each value once, at its first occurrence. */
  function Distinct(xs: seq<String>): (r: seq<String>)
    ensures NoDuplicates(r)
    ensures forall x :: x in r <==> x in xs
    decreases |xs|
  {
    if |xs| == 0 then []
    else
      var r := Distinct(xs[..|xs| - 1]);
      var x := xs[|xs| - 1];
      assert forall y :: y in xs <==> y in xs[..|xs| - 1] || y == x by {
        assert xs == xs[..|xs| - 1] + [x];
      }
      if x in r then r else r + [x]
  }

  /** Adding values never moves or drops the ones already in the set. */
  lemma {:induction false} DistinctPrefix(a: seq<String>, b: seq<String>)
    ensures |Distinct(a)| <= |Distinct(a + b)|
    ensures Distinct(a + b)[..|Distinct(a)|] == Distinct(a)
    decreases |b|
  {
    if |b| == 0 {
      assert a + b == a;
    } else {
      var b' := b[..|b| - 1];
      DistinctPrefix(a, b');
      assert (a + b)[..|a + b| - 1] == a + b';
    }
  }

  /** A list without repeats is its own set. */
  lemma {:induction false} DistinctOfDistinct(xs: seq<String>)
    requires NoDuplicates(xs)
    ensures Distinct(xs) == xs
    decreases |xs|
  {
    if |xs| > 0 {
      var init := xs[..|xs| - 1];
      DistinctOfDistinct(init);
      assert xs[|xs| - 1] !in init;
      assert init + [xs[|xs| - 1]] == xs;
    }
  }

  /** The entries already in the box, as the upload handler reads them. */
  function Current(prev: String): seq<String> {
    if prev == "" then [] else ParseRecipients(prev)
  }

  /** The `prev ? ... : []` guard is only a shortcut: an empty box parses to
      no entries anyway. */
  lemma CurrentIsParse(prev: String)
    ensures Current(prev) == ParseRecipients(prev)
  {
    if prev == "" {
      assert Split("", ',') == [""];
      assert Trim("") == "";
    }
  }

  /** The entry list after merging an upload into the box. */
  function MergedList(prev: String, emails: seq<String>): seq<String> {
    Distinct(Current(prev) + emails)
  }

  /** The new text-box contents after an upload. */
  function Merge(prev: String, emails: seq<String>): String {
    Join(MergedList(prev, emails), ',')
  }

  /** Uploaded cells are compared untrimmed: an address already in the box,
      uploaded again with a leading space, survives the merge and reads back
      as a second copy of the same recipient. */
  lemma MergeUntrimmedRepeat(x: String)
    requires IsEntry(x)
    ensures ParseRecipients(Merge(x, [[' '] + x])) == [x, x]
  {
    var sx := [' '] + x;
    ParseSingleEntry(x);
    assert Current(x) + [sx] == [x, sx];
    assert |sx| != |x|;
    DistinctOfDistinct([x, sx]);
    LacksConcat([' '], x, ',');
    ParseRecipientsOfPieces([x, sx]);
    assert [x, sx] == [x] + [sx];
    CleanAppend([x], [sx]);
    CleanSingle(x);
    CleanSingle(sx);
    TrimTrimmed(x);
    TrimLeadingSpace(x);
  }

  /** An entry on its own in the box parses to itself. */
  lemma ParseSingleEntry(x: String)
    requires IsEntry(x)
    ensures ParseRecipients(x) == [x]
  {
    SplitWithoutSeparator(x, ',');
    CleanSingle(x);
    TrimTrimmed(x);
  }

  /** One leading space in front of an entry is trimmed away. */
  lemma TrimLeadingSpace(x: String)
    requires IsEntry(x)
    ensures Trim([' '] + x) == x
  {
    var sx := [' '] + x;
    assert sx[1..] == x;
    TrimTrimmed(x);
    assert Lead(x) == 0;
    assert Lead(sx) == 1;
    assert sx[|sx| - 1] == x[|x| - 1];
    assert Trail(sx) == 0;
    assert sx[1..|sx|] == x;
  }

  /** The merged list holds every earlier entry and every uploaded address,
      each once; earlier entries keep their places at the front. */
  lemma MergeKeepsEverything(prev: String, emails: seq<String>)
    ensures NoDuplicates(MergedList(prev, emails))
    ensures forall x :: x in MergedList(prev, emails) <==> x in ParseRecipients(prev) || x in emails
    ensures |Distinct(ParseRecipients(prev))| <= |MergedList(prev, emails)|
    ensures MergedList(prev, emails)[..|Distinct(ParseRecipients(prev))|] == Distinct(ParseRecipients(prev))
  {
    CurrentIsParse(prev);
    DistinctPrefix(ParseRecipients(prev), emails);
  }

  /** Values already present change nothing. */
  lemma {:induction false} DistinctAbsorbs(c: seq<String>, extra: seq<String>)
    requires NoDuplicates(c)
    requires forall i :: 0 <= i < |extra| ==> extra[i] in c
    ensures Distinct(c + extra) == c
    decreases |extra|
  {
    if |extra| == 0 {
      assert c + extra == c;
      DistinctOfDistinct(c);
    } else {
      var init := extra[..|extra| - 1];
      DistinctAbsorbs(c, init);
      assert (c + extra)[..|c + extra| - 1] == c + init;
      assert (c + extra)[|c + extra| - 1] == extra[|extra| - 1];
    }
  }

  /** Uploading a file whose addresses are all already listed, into a box
      without repeats, leaves the entries as they were. */
  lemma MergeNothingNew(prev: String, emails: seq<String>)
    requires NoDuplicates(ParseRecipients(prev))
    requires forall i :: 0 <= i < |emails| ==> emails[i] in ParseRecipients(prev)
    ensures MergedList(prev, emails) == ParseRecipients(prev)
  {
    CurrentIsParse(prev);
    DistinctAbsorbs(ParseRecipients(prev), emails);
  }

  /** When the uploaded cells are addresses without commas or surrounding
      whitespace, the text the upload writes reads back as exactly the
      merged list. */
  lemma MergeReadsBack(prev: String, rows: seq<seq<String>>)
    requires forall i, j :: 0 <= i < |rows| && 0 <= j < |rows[i]| && rows[i][j] != ""
               ==> IsTrimmed(rows[i][j]) && Lacks(rows[i][j], ',')
    ensures ParseRecipients(Merge(prev, ExtractEmails(rows))) == MergedList(prev, ExtractEmails(rows))
  {
    var emails := ExtractEmails(rows);
    var m := MergedList(prev, emails);
    forall k | 0 <= k < |m|
      ensures IsEntry(m[k])
    {
      assert m[k] in m;
      assert m[k] in Current(prev) + emails;
      if m[k] !in Current(prev) {
        assert m[k] in emails;
        var i :| 0 <= i < |rows| && m[k] in rows[i];
        var j :| 0 <= j < |rows[i]| && rows[i][j] == m[k];
      }
    }
    if m == [] {
      assert Split("", ',') == [""];
      assert Trim("") == "";
    } else {
      SplitJoinRoundTrip(m, ',');
      CleanEntries(m);
    }
  }
}
