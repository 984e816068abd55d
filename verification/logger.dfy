/**
 * The main-process logger (packages/main/src/modules/Logger.ts): where the
 * log files live, the one-line-per-entry format, reading back the most
 * recent error entries, the age-based cleanup, and the export file name.
 *
 * `JSON.stringify` and `JSON.parse` are not modelled; they are a codec
 * passed in, with the properties the round trip relies on stated as a
 * precondition where it is used.
 */
module Logger {
  import opened Wrappers
  import opened Js
  import Strings
  import Search

  /** `logDir`: the `logs` directory under the user-data path. */
  function LogDir(userData: string): string {
    userData + "/logs"
  }

  function LogFile(userData: string): string {
    LogDir(userData) + "/app.log"
  }

  function ErrorLogFile(userData: string): string {
    LogDir(userData) + "/error.log"
  }

  /** Both log files sit directly in the log directory, under different names. */
  lemma LogFilesDistinct(userData: string)
    ensures LogFile(userData) != ErrorLogFile(userData)
    ensures Strings.StartsWith(LogFile(userData), LogDir(userData) + "/")
    ensures Strings.StartsWith(ErrorLogFile(userData), LogDir(userData) + "/")
  {
    var d := LogDir(userData) + "/";
    assert LogFile(userData)[|d|] == 'a' && ErrorLogFile(userData)[|d|] == 'e';
    assert LogFile(userData)[..|d|] == d;
    assert ErrorLogFile(userData)[..|d|] == d;
  }

  /** `JSON.stringify` and `JSON.parse`; `parse` yields `None` where it throws. */
  datatype Codec = Codec(stringify: Json -> string, parse: string -> Option<Json>)

  /** How `JSON.stringify` prints an object: braces at both ends, no raw line break. */
  predicate IsSerializedObject(s: string) {
    |s| >= 2 && s[0] == '{' && s[|s| - 1] == '}' && '\n' !in s
  }

  /** The codec properties the read-back relies on, for objects. */
  ghost predicate ValidCodec(c: Codec) {
    forall j: Json :: j.JObj? ==> IsSerializedObject(c.stringify(j)) && c.parse(c.stringify(j)) == Some(j)
  }

  /** The line `log` and `logError` append: the serialized entry and a line break. */
  function LogLine(c: Codec, entry: Json): string {
    c.stringify(entry) + "\n"
  }

  /** A serialized object is written as exactly one line. */
  lemma LogLineIsOneLine(c: Codec, entry: Json)
    requires ValidCodec(c) && entry.JObj?
    ensures Strings.Split(LogLine(c, entry), '\n') == [c.stringify(entry), ""]
  {
    var s := c.stringify(entry);
    Strings.SplitJoin([s, ""], '\n');
    assert Strings.Join([s, ""], '\n') == s + "\n";
  }

  /** The entry `logError` writes to the error log. */
  function ErrorEntry(timestamp: string, kind: string, errorData: Json, processInfo: Json): (j: Json)
    ensures j.JObj? && j.fields.Keys == {"timestamp", "type", "errorData", "processInfo"}
  {
    JObj(map["timestamp" := JStr(timestamp), "type" := JStr(kind), "errorData" := errorData, "processInfo" := processInfo])
  }

  /** The error log after appending one line per entry to an empty file. */
  function Written(c: Codec, entries: seq<Json>): string
    decreases |entries|
  {
    if |entries| == 0 then "" else LogLine(c, entries[0]) + Written(c, entries[1..])
  }

  // ----- getRecentErrors -----

  /** What `existsSync` and `readFile` find at the error log's path. */
  datatype LogFileState = Missing | Unreadable | Present(content: string)

  /** `.filter(line => line.length > 0)`. */
  function NonEmpty(lines: seq<string>): (r: seq<string>)
    ensures |r| <= |lines|
    ensures forall k :: 0 <= k < |r| ==> r[k] != "" && r[k] in lines
    ensures forall k :: 0 <= k < |lines| && lines[k] != "" ==> lines[k] in r
    ensures (forall k :: 0 <= k < |lines| ==> lines[k] != "") ==> r == lines
    decreases |lines|
  {
    if |lines| == 0 then []
    else
      var rest := NonEmpty(lines[1..]);
      assert forall k :: 1 <= k < |lines| ==> lines[k] == lines[1..][k - 1];
      if lines[0] == "" then rest else [lines[0]] + rest
  }

  /** The filter works line by line: filtering a concatenation filters each part, in order. */
  lemma {:induction false} NonEmptyAppend(a: seq<string>, b: seq<string>)
    ensures NonEmpty(a + b) == NonEmpty(a) + NonEmpty(b)
    decreases |a|
  {
    if |a| > 0 {
      assert (a + b)[1..] == a[1..] + b;
      NonEmptyAppend(a[1..], b);
    } else {
      assert a + b == b;
    }
  }

  function Min(a: int, b: int): int {
    if a <= b then a else b
  }

  /** `xs.slice(start)` for an integer `start`, negative counting from the end. */
  function SliceFrom<T>(xs: seq<T>, start: int): (r: seq<T>)
    ensures |r| <= |xs| && r == xs[|xs| - |r|..]
    ensures start < 0 ==> |r| == Min(-start, |xs|)
    ensures start >= 0 ==> |r| == |xs| - Min(start, |xs|)
  {
    if start < 0 then
      (if |xs| + start <= 0 then xs else xs[|xs| + start..])
    else if start <= |xs| then xs[start..] else []
  }

  /** `.map(line => { try { return JSON.parse(line) } catch { return null } })`. */
  function ParseAll(lines: seq<string>, parse: string -> Option<Json>): (r: seq<Option<Json>>)
    ensures |r| == |lines| && forall k :: 0 <= k < |lines| ==> r[k] == parse(lines[k])
  {
    seq(|lines|, k requires 0 <= k < |lines| => parse(lines[k]))
  }

  /** A parse result survives `.filter(Boolean)`: not `null`, and truthy. */
  predicate Kept(x: Option<Json>) {
    x.Some? && JsonTruthy(x.value)
  }

  /** `.filter(Boolean)` over the parse results. */
  function KeepTruthy(xs: seq<Option<Json>>): (r: seq<Json>)
    ensures |r| <= |xs|
    ensures forall j :: j in r <==> Some(j) in xs && JsonTruthy(j)
    ensures (forall k :: 0 <= k < |xs| ==> Kept(xs[k])) ==>
              |r| == |xs| && forall k :: 0 <= k < |xs| ==> Some(r[k]) == xs[k]
    decreases |xs|
  {
    if |xs| == 0 then []
    else
      var rest := KeepTruthy(xs[1..]);
      assert forall x :: x in xs <==> x == xs[0] || x in xs[1..];
      if Kept(xs[0]) then [xs[0].value] + rest else rest
  }

  /** `.filter(Boolean)` works element by element: filtering a concatenation filters each part, in order. */
  lemma {:induction false} KeepTruthyAppend(a: seq<Option<Json>>, b: seq<Option<Json>>)
    ensures KeepTruthy(a + b) == KeepTruthy(a) + KeepTruthy(b)
    decreases |a|
  {
    if |a| > 0 {
      assert (a + b)[1..] == a[1..] + b;
      assert (a + b)[0] == a[0];
      KeepTruthyAppend(a[1..], b);
    } else {
      assert a + b == b;
    }
  }

  /**
   * The positions whose parse result `.filter(Boolean)` keeps, in increasing
   * order: every kept position is listed and no other.
   */
  function KeptIndices(xs: seq<Option<Json>>): (idx: seq<nat>)
    ensures forall k :: 0 <= k < |idx| ==> idx[k] < |xs| && Kept(xs[idx[k]])
    ensures forall k, l :: 0 <= k < l < |idx| ==> idx[k] < idx[l]
    ensures forall i :: 0 <= i < |xs| && Kept(xs[i]) ==> i in idx
    decreases |xs|
  {
    if |xs| == 0 then []
    else
      var init := xs[..|xs| - 1];
      var front := KeptIndices(init);
      assert forall i :: 0 <= i < |init| ==> init[i] == xs[i];
      if Kept(xs[|xs| - 1]) then front + [|xs| - 1] else front
  }

  /** What `.filter(Boolean)` keeps is the kept positions' values, in their order. */
  lemma {:induction false} KeepTruthyIsKeptIndices(xs: seq<Option<Json>>)
    ensures var r := KeepTruthy(xs);
            var idx := KeptIndices(xs);
            |r| == |idx| && forall k :: 0 <= k < |r| ==> Some(r[k]) == xs[idx[k]]
    decreases |xs|
  {
    if |xs| > 0 {
      var init := xs[..|xs| - 1];
      var last := xs[|xs| - 1];
      assert xs == init + [last];
      var idx := KeptIndices(init);
      var all := KeptIndices(xs);
      assert all == idx + (if Kept(last) then [|init|] else []);
      var front := KeepTruthy(init);
      var r := KeepTruthy(xs);
      assert r == front + (if Kept(last) then [last.value] else []) by {
        KeepTruthyAppend(init, [last]);
        assert KeepTruthy([last]) == (if Kept(last) then [last.value] else []) by {
          assert [last][1..] == [];
        }
      }
      assert |front| == |idx| && forall k :: 0 <= k < |front| ==> idx[k] < |init| && Some(front[k]) == init[idx[k]] by {
        KeepTruthyIsKeptIndices(init);
      }
      KeptSnoc(init, last, front, idx, r, all);
    }
  }

  /** One inductive step of `KeepTruthyIsKeptIndices`: appending one parse result keeps the correspondence. */
  lemma KeptSnoc(init: seq<Option<Json>>, last: Option<Json>, front: seq<Json>, idx: seq<nat>, r: seq<Json>, all: seq<nat>)
    requires |front| == |idx| && forall k :: 0 <= k < |front| ==> idx[k] < |init| && Some(front[k]) == init[idx[k]]
    requires r == front + (if Kept(last) then [last.value] else [])
    requires all == idx + (if Kept(last) then [|init|] else [])
    ensures |r| == |all| && forall k :: 0 <= k < |r| ==> all[k] < |init| + 1 && Some(r[k]) == (init + [last])[all[k]]
  {
    forall k | 0 <= k < |r|
      ensures all[k] < |init| + 1 && Some(r[k]) == (init + [last])[all[k]]
    {
      if k < |front| {
        assert r[k] == front[k] && all[k] == idx[k];
      } else {
        assert r[k] == last.value && all[k] == |init|;
      }
    }
  }

  /** `.reverse()`. */
  function Reverse<T>(xs: seq<T>): (r: seq<T>)
    ensures |r| == |xs| && forall k :: 0 <= k < |xs| ==> r[k] == xs[|xs| - 1 - k]
  {
    seq(|xs|, k requires 0 <= k < |xs| => xs[|xs| - 1 - k])
  }

  const DefaultLimit: int := 50

  /**
   * How many lines from the end `slice(-limit)` keeps: `limit` defaults to
   * 50, a fractional limit is truncated toward zero, and NaN keeps every
   * line like 0.
   */
  function LimitOf(limit: Option<Number>): int {
    ToInteger(limit.GetOr(Finite(DefaultLimit as real)))
  }

  /** The start `slice` computes from `-limit` is the negated count: `slice(-limit)` is `SliceFrom(_, -LimitOf(limit))`. */
  lemma SliceStartOfLimit(limit: Option<Number>)
    ensures ToInteger(Negate(limit.GetOr(Finite(DefaultLimit as real)))) == -LimitOf(limit)
  {
    ToIntegerNegate(limit.GetOr(Finite(DefaultLimit as real)));
  }

  /** The non-empty lines of the trimmed content, as `getRecentErrors` splits them. */
  function ContentLines(content: string): seq<string> {
    NonEmpty(Strings.Split(Strings.Trim(content), '\n'))
  }

  /**
   * `getRecentErrors(limit)`: the last `limit` non-empty lines of the error
   * log, parsed, with unparsable and falsy ones dropped, newest first. A
   * missing or unreadable file gives `[]`; `limit` is `None` when omitted.
   */
  function GetRecentErrors(file: LogFileState, limit: Option<Number>, parse: string -> Option<Json>): (r: seq<Json>)
    ensures !file.Present? ==> r == []
    ensures forall k :: 0 <= k < |r| ==> JsonTruthy(r[k])
    ensures file.Present? ==> forall k :: 0 <= k < |r| ==>
              exists line :: line in ContentLines(file.content) && parse(line) == Some(r[k])
    ensures LimitOf(limit) > 0 ==> |r| <= LimitOf(limit)
  {
    match file
    case Missing => []
    case Unreadable => []
    case Present(content) =>
      var lines := ContentLines(content);
      RecentProps(lines, LimitOf(limit), parse);
      Recent(lines, LimitOf(limit), parse)
  }

  /** The steps of `getRecentErrors` on the file's lines: the last `limit`, parsed, kept when truthy, reversed. */
  function Recent(lines: seq<string>, limit: int, parse: string -> Option<Json>): seq<Json> {
    Reverse(KeepTruthy(ParseAll(SliceFrom(lines, -limit), parse)))
  }

  lemma RecentProps(lines: seq<string>, limit: int, parse: string -> Option<Json>)
    ensures var r := Recent(lines, limit, parse);
            && (forall k :: 0 <= k < |r| ==> JsonTruthy(r[k]))
            && (forall k :: 0 <= k < |r| ==> exists line :: line in lines && parse(line) == Some(r[k]))
            && (limit > 0 ==> |r| <= limit)
  {
    var tail := SliceFrom(lines, -limit);
    var parsed := ParseAll(tail, parse);
    var kept := KeepTruthy(parsed);
    assert forall j :: j in kept ==> exists line :: line in lines && parse(line) == Some(j) by {
      forall j | j in kept
        ensures exists line :: line in lines && parse(line) == Some(j)
      {
        var k :| 0 <= k < |parsed| && parsed[k] == Some(j);
        assert tail[k] in lines;
      }
    }
    var r := Reverse(kept);
    assert forall k :: 0 <= k < |r| ==> r[k] in kept;
  }

  /** `slice(-0)` is `slice(0)`: a zero limit keeps every line. */
  lemma ZeroLimitKeepsAll<T>(xs: seq<T>)
    ensures SliceFrom(xs, -0) == xs
  {
  }

  /** A negative limit turns into a positive start: it drops that many of the oldest lines. */
  lemma NegativeLimitDropsOldest<T>(xs: seq<T>, limit: int)
    requires limit < 0 && -limit <= |xs|
    ensures SliceFrom(xs, -limit) == xs[-limit..]
  {
  }

  // The read-back of what the logger wrote.

  /** The serialized entries, one per line. */
  function Lines(c: Codec, entries: seq<Json>): (ls: seq<string>)
    ensures |ls| == |entries| && forall k :: 0 <= k < |entries| ==> ls[k] == c.stringify(entries[k])
  {
    seq(|entries|, k requires 0 <= k < |entries| => c.stringify(entries[k]))
  }

  lemma {:induction false} WrittenIsJoin(c: Codec, entries: seq<Json>)
    requires |entries| > 0
    ensures Written(c, entries) == Strings.Join(Lines(c, entries), '\n') + "\n"
    decreases |entries|
  {
    if |entries| > 1 {
      WrittenIsJoin(c, entries[1..]);
      assert Lines(c, entries)[1..] == Lines(c, entries[1..]);
    }
  }

  lemma JoinFirst(parts: seq<string>, sep: char)
    requires |parts| >= 1 && |parts[0]| > 0
    ensures var j := Strings.Join(parts, sep);
            |j| > 0 && j[0] == parts[0][0]
  {
  }

  lemma {:induction false} JoinLast(parts: seq<string>, sep: char)
    requires |parts| >= 1 && |parts[|parts| - 1]| > 0
    ensures var j := Strings.Join(parts, sep);
            |j| > 0 && j[|j| - 1] == parts[|parts| - 1][|parts[|parts| - 1]| - 1]
    decreases |parts|
  {
    if |parts| > 1 {
      JoinLast(parts[1..], sep);
    }
  }

  lemma TrimDropsFinalNewline(x: string)
    requires |x| > 0 && !Strings.IsJsWhitespace(x[0]) && !Strings.IsJsWhitespace(x[|x| - 1])
    ensures Strings.Trim(x + "\n") == x
  {
    var s := x + "\n";
    assert Strings.LeadingWhitespace(s) == 0;
    assert s[..|s| - 1] == x;
    assert Strings.TrailingWhitespace(x) == 0;
    assert Strings.TrailingWhitespace(s) == 1;
  }

  /** Serialized objects joined into a file, one per line, split back into the same lines. */
  lemma ContentLinesOfJoin(ls: seq<string>)
    requires |ls| > 0
    requires forall k :: 0 <= k < |ls| ==> IsSerializedObject(ls[k])
    ensures ContentLines(Strings.Join(ls, '\n') + "\n") == ls
  {
    var x := Strings.Join(ls, '\n');
    JoinBraced(ls);
    TrimDropsFinalNewline(x);
    ContentLinesOfTrimmed(x);
    SplitSerialized(ls);
  }

  /** Joined serialized objects start with `{` and end with `}`. */
  lemma JoinBraced(ls: seq<string>)
    requires |ls| > 0
    requires forall k :: 0 <= k < |ls| ==> IsSerializedObject(ls[k])
    ensures var x := Strings.Join(ls, '\n');
            |x| > 0 && x[0] == '{' && x[|x| - 1] == '}'
  {
    JoinFirst(ls, '\n');
    JoinLast(ls, '\n');
  }

  lemma ContentLinesOfTrimmed(x: string)
    requires Strings.Trim(x + "\n") == x
    ensures ContentLines(x + "\n") == NonEmpty(Strings.Split(x, '\n'))
  {
  }

  lemma SplitSerialized(ls: seq<string>)
    requires |ls| > 0
    requires forall k :: 0 <= k < |ls| ==> IsSerializedObject(ls[k])
    ensures NonEmpty(Strings.Split(Strings.Join(ls, '\n'), '\n')) == ls
  {
    assert forall k :: 0 <= k < |ls| ==> '\n' !in ls[k] && ls[k] != "";
    Strings.SplitJoin(ls, '\n');
  }

  lemma LinesSerialized(c: Codec, entries: seq<Json>)
    requires ValidCodec(c)
    requires forall k :: 0 <= k < |entries| ==> entries[k].JObj?
    ensures forall k :: 0 <= k < |entries| ==> IsSerializedObject(Lines(c, entries)[k])
    ensures forall k :: 0 <= k < |entries| ==> c.parse(Lines(c, entries)[k]) == Some(entries[k])
  {
  }

  /** The lines of a log written from `entries` are the serialized entries. */
  lemma ContentLinesOfWritten(c: Codec, entries: seq<Json>)
    requires ValidCodec(c)
    requires forall k :: 0 <= k < |entries| ==> entries[k].JObj?
    ensures ContentLines(Written(c, entries)) == Lines(c, entries)
  {
    if |entries| == 0 {
      assert Strings.Trim("") == "";
    } else {
      LinesSerialized(c, entries);
      WrittenIsJoin(c, entries);
      ContentLinesOfJoin(Lines(c, entries));
    }
  }

  /**
   * Reading back what `logError` appended: with a positive limit, the last
   * `limit` entries come back, newest first, each exactly as written.
   */
  lemma RecentErrorsRoundTrip(c: Codec, entries: seq<Json>, limit: int)
    requires ValidCodec(c)
    requires forall k :: 0 <= k < |entries| ==> entries[k].JObj?
    requires limit > 0
    ensures var n := Min(limit, |entries|);
            GetRecentErrors(Present(Written(c, entries)), Some(Finite(limit as real)), c.parse) == Reverse(entries[|entries| - n..])
  {
    var content := Written(c, entries);
    ContentLinesOfWritten(c, entries);
    ToIntegerOfInt(limit);
    assert GetRecentErrors(Present(content), Some(Finite(limit as real)), c.parse) == Recent(ContentLines(content), limit, c.parse);
    RecentOfLines(c, entries, limit);
  }

  lemma RecentOfLines(c: Codec, entries: seq<Json>, limit: int)
    requires ValidCodec(c)
    requires forall k :: 0 <= k < |entries| ==> entries[k].JObj?
    requires limit > 0
    ensures var n := Min(limit, |entries|);
            Recent(Lines(c, entries), limit, c.parse) == Reverse(entries[|entries| - n..])
  {
    var n := Min(limit, |entries|);
    var recent := entries[|entries| - n..];
    var tail := SliceFrom(Lines(c, entries), -limit);
    assert tail == Lines(c, recent) by {
      TailOfLines(c, entries, limit);
    }
    assert KeepTruthy(ParseAll(Lines(c, recent), c.parse)) == recent by {
      SliceKeepsObjects(entries, |entries| - n);
      ParseLinesBack(c, recent);
    }
    RecentOfTail(Lines(c, entries), limit, c.parse, recent);
  }

  lemma RecentOfTail(lines: seq<string>, limit: int, parse: string -> Option<Json>, recent: seq<Json>)
    requires KeepTruthy(ParseAll(SliceFrom(lines, -limit), parse)) == recent
    ensures Recent(lines, limit, parse) == Reverse(recent)
  {
  }

  lemma SliceKeepsObjects(entries: seq<Json>, from: int)
    requires 0 <= from <= |entries|
    requires forall k :: 0 <= k < |entries| ==> entries[k].JObj?
    ensures forall k :: 0 <= k < |entries[from..]| ==> entries[from..][k].JObj?
  {
    assert forall k :: 0 <= k < |entries[from..]| ==> entries[from..][k] == entries[from + k];
  }

  /** The last `limit` lines of a log are the lines of its last `limit` entries. */
  lemma TailOfLines(c: Codec, entries: seq<Json>, limit: int)
    requires limit > 0
    ensures var n := Min(limit, |entries|);
            SliceFrom(Lines(c, entries), -limit) == Lines(c, entries[|entries| - n..])
  {
  }

  /** Serialized objects parse back to themselves, and objects are truthy, so nothing is dropped. */
  lemma ParseLinesBack(c: Codec, entries: seq<Json>)
    requires ValidCodec(c)
    requires forall k :: 0 <= k < |entries| ==> entries[k].JObj?
    ensures KeepTruthy(ParseAll(Lines(c, entries), c.parse)) == entries
  {
    LinesSerialized(c, entries);
    var parsed := ParseAll(Lines(c, entries), c.parse);
    assert forall k :: 0 <= k < |parsed| ==> parsed[k] == Some(entries[k]) && Kept(parsed[k]);
  }

  /**
   * `r`, read newest first, is the subsequence of `tail` made of the lines
   * whose parse `.filter(Boolean)` keeps: the `k`-th kept line from the
   * start is the `k`-th entry from the end of `r`.
   */
  predicate NewestFirstKept(r: seq<Json>, tail: seq<string>, parse: string -> Option<Json>) {
    var idx := KeptIndices(ParseAll(tail, parse));
    |r| == |idx| && forall k :: 0 <= k < |r| ==> Some(r[|r| - 1 - k]) == parse(tail[idx[k]])
  }

  /**
   * `getRecentErrors` for any content: the result is the kept lines of the
   * last `limit` non-empty lines, newest first; every other line of that
   * tail is unparsable or falsy.
   */
  lemma RecentErrorsAreLastKept(content: string, limit: Option<Number>, parse: string -> Option<Json>)
    ensures NewestFirstKept(GetRecentErrors(Present(content), limit, parse),
                            SliceFrom(ContentLines(content), -LimitOf(limit)), parse)
  {
    PresentIsRecent(content, limit, parse);
    RecentIsKept(ContentLines(content), LimitOf(limit), parse, GetRecentErrors(Present(content), limit, parse));
  }

  lemma PresentIsRecent(content: string, limit: Option<Number>, parse: string -> Option<Json>)
    ensures GetRecentErrors(Present(content), limit, parse) == Recent(ContentLines(content), LimitOf(limit), parse)
  {
  }

  lemma RecentIsKept(lines: seq<string>, limit: int, parse: string -> Option<Json>, r: seq<Json>)
    requires r == Recent(lines, limit, parse)
    ensures NewestFirstKept(r, SliceFrom(lines, -limit), parse)
  {
    var tail := SliceFrom(lines, -limit);
    var parsed := ParseAll(tail, parse);
    assert Recent(lines, limit, parse) == Reverse(KeepTruthy(parsed));
    KeepTruthyIsKeptIndices(parsed);
  }


  /** A missing error log reads as no errors. */
  lemma MissingLogIsEmpty(limit: Option<Number>, parse: string -> Option<Json>)
    ensures GetRecentErrors(Missing, limit, parse) == []
  {
  }

  /** `slice(-2.5)` is `slice(-2)`: a fractional limit reads back as its truncation. */
  lemma FractionalLimitTruncated(file: LogFileState, parse: string -> Option<Json>)
    ensures GetRecentErrors(file, Some(Finite(2.5)), parse) == GetRecentErrors(file, Some(Finite(2.0)), parse)
  {
    assert LimitOf(Some(Finite(2.5))) == 2;
    assert LimitOf(Some(Finite(2.0))) == 2;
  }

  /** `slice(-NaN)` is `slice(0)`: a NaN limit reads back every non-empty line, like a zero limit. */
  lemma NaNLimitKeepsAll(content: string, parse: string -> Option<Json>)
    ensures GetRecentErrors(Present(content), Some(NaN), parse)
            == GetRecentErrors(Present(content), Some(Finite(0.0)), parse)
            == Reverse(KeepTruthy(ParseAll(ContentLines(content), parse)))
  {
    assert LimitOf(Some(NaN)) == 0;
    assert LimitOf(Some(Finite(0.0))) == 0;
    assert SliceFrom(ContentLines(content), -0) == ContentLines(content);
  }

  // ----- cleanupOldLogs -----

  const MillisecondsPerDay: int := 24 * 60 * 60 * 1000
  const DefaultDaysToKeep: Number := Finite(7.0)

  /**
   * A directory entry, what `stat` gives for it (the modification time, or
   * `None` when it fails) and whether `unlink` would remove it (it fails on
   * a directory, or on a file removed in the meantime).
   */
  datatype DirEntry = DirEntry(name: string, mtime: Option<int>, unlinks: bool)

  predicate IsLogName(name: string) {
    Strings.EndsWith(name, ".log")
  }

  /**
   * The file is a log older than the kept period: strictly more than
   * `daysToKeep` days, a JavaScript number that may be fractional, so the
   * period is `daysToKeep * 86400000` milliseconds as a real number. A NaN
   * period makes the comparison false.
   */
  predicate Expired(name: string, mtime: int, now: int, daysToKeep: Number) {
    && IsLogName(name)
    && daysToKeep.Finite?
    && (now - mtime) as real > daysToKeep.x * MillisecondsPerDay as real
  }

  /**
   * Handling a log entry throws: its `stat` fails, or it is expired and its
   * `unlink` fails. The exception ends the cleanup there.
   */
  predicate Throws(e: DirEntry, now: int, daysToKeep: Number) {
    IsLogName(e.name) && (e.mtime.None? || (Expired(e.name, e.mtime.value, now, daysToKeep) && !e.unlinks))
  }

  /** The reference: the expired logs among entries whose `stat` succeeds, in directory order. */
  function ExpiredNames(entries: seq<DirEntry>, now: int, daysToKeep: Number): seq<string>
    decreases |entries|
  {
    if |entries| == 0 then []
    else
      var e := entries[0];
      var rest := ExpiredNames(entries[1..], now, daysToKeep);
      if e.mtime.Some? && Expired(e.name, e.mtime.value, now, daysToKeep) then [e.name] + rest else rest
  }

  lemma ExpiredNamesAppend(entries: seq<DirEntry>, e: DirEntry, now: int, daysToKeep: Number)
    ensures ExpiredNames(entries + [e], now, daysToKeep) ==
              ExpiredNames(entries, now, daysToKeep) + ExpiredNames([e], now, daysToKeep)
    decreases |entries|
  {
    if |entries| > 0 {
      assert (entries + [e])[1..] == entries[1..] + [e];
      ExpiredNamesAppend(entries[1..], e, now, daysToKeep);
    }
  }

  /**
   * `cleanupOldLogs(daysToKeep)` over the directory listing: the files
   * unlinked, in order, and whether a failed `stat` or `unlink` stopped the
   * loop.
   */
  method CleanupOldLogs(entries: seq<DirEntry>, now: int, daysToKeep: Option<Number>)
    returns (deleted: seq<string>, aborted: bool)
    ensures var days := daysToKeep.GetOr(DefaultDaysToKeep);
            aborted <==> exists k :: 0 <= k < |entries| && Throws(entries[k], now, days)
    ensures !aborted ==> deleted == ExpiredNames(entries, now, daysToKeep.GetOr(DefaultDaysToKeep))
    ensures var days := daysToKeep.GetOr(DefaultDaysToKeep);
            aborted ==> exists k ::
              && Search.IsFirst(entries, e => Throws(e, now, days), k)
              && deleted == ExpiredNames(entries[..k], now, days)
  {
    var days := daysToKeep.GetOr(DefaultDaysToKeep);
    deleted := [];
    aborted := false;
    var i := 0;
    while i < |entries|
      invariant 0 <= i <= |entries|
      invariant forall k :: 0 <= k < i ==> !Throws(entries[k], now, days)
      invariant deleted == ExpiredNames(entries[..i], now, days)
    {
      var e := entries[i];
      if IsLogName(e.name) {
        if e.mtime.None? {
          aborted := true;
          assert Search.IsFirst(entries, e => Throws(e, now, days), i);
          return;
        }
        if Expired(e.name, e.mtime.value, now, days) {
          if !e.unlinks {
            aborted := true;
            assert Search.IsFirst(entries, e => Throws(e, now, days), i);
            return;
          }
          deleted := deleted + [e.name];
        }
      }
      assert entries[..i + 1] == entries[..i] + [e];
      ExpiredNamesAppend(entries[..i], e, now, days);
      i := i + 1;
    }
    assert entries[..i] == entries;
  }

  /** Only names ending in ".log" are ever deleted. */
  lemma {:induction false} ExpiredAreLogs(entries: seq<DirEntry>, now: int, daysToKeep: Number)
    ensures forall n :: n in ExpiredNames(entries, now, daysToKeep) ==> IsLogName(n)
    decreases |entries|
  {
    if |entries| > 0 {
      ExpiredAreLogs(entries[1..], now, daysToKeep);
    }
  }

  /** A file exactly `daysToKeep` days old is kept: the comparison is strict. */
  lemma BoundaryKept(name: string, mtime: int, now: int, daysToKeep: real)
    requires (now - mtime) as real == daysToKeep * MillisecondsPerDay as real
    ensures !Expired(name, mtime, now, Finite(daysToKeep))
  {
  }

  /** A fractional period counts in milliseconds: `cleanupOldLogs(0.5)` keeps twelve hours of logs and no more. */
  lemma HalfDayKeepsTwelveHours(name: string, now: int)
    requires IsLogName(name)
    ensures !Expired(name, now - 12 * 60 * 60 * 1000, now, Finite(0.5))
    ensures Expired(name, now - 12 * 60 * 60 * 1000 - 1, now, Finite(0.5))
  {
  }

  /** `cleanupOldLogs(NaN)` deletes nothing: every age comparison with NaN is false. */
  lemma {:induction false} NaNDaysDeletesNothing(entries: seq<DirEntry>, now: int)
    ensures ExpiredNames(entries, now, NaN) == []
    decreases |entries|
  {
    if |entries| > 0 {
      NaNDaysDeletesNothing(entries[1..], now);
    }
  }

  // ----- exportLogs -----

  /** `app-logs-${timestamp}.txt` with every ':' and '.' of the timestamp turned into '-'. */
  function ExportFileName(isoTimestamp: string): string {
    "app-logs-" + Strings.ReplaceChars(isoTimestamp, {':', '.'}, '-') + ".txt"
  }

  /** The export name keeps the timestamp's length and other characters, and its only '.' is the extension's. */
  lemma ExportFileNameSanitised(isoTimestamp: string)
    ensures var name := ExportFileName(isoTimestamp);
            && |name| == |isoTimestamp| + 13
            && Strings.StartsWith(name, "app-logs-") && Strings.EndsWith(name, ".txt")
            && (forall k :: 0 <= k < |name| - 4 ==> name[k] != ':' && name[k] != '.')
            && (forall k :: 0 <= k < |isoTimestamp| && isoTimestamp[k] !in {':', '.'} ==> name[9 + k] == isoTimestamp[k])
  {
    var name := ExportFileName(isoTimestamp);
    var mid := Strings.ReplaceChars(isoTimestamp, {':', '.'}, '-');
    assert forall k :: 0 <= k < 9 ==> name[k] == "app-logs-"[k];
    assert forall k :: 9 <= k < |name| - 4 ==> name[k] == mid[k - 9];
    assert name[..9] == "app-logs-";
    assert name[|name| - 4..] == ".txt";
  }

  /** The `get-log-path` handler answers with the log directory. */
  function HandleGetLogPath(userData: string): (dir: string)
    ensures Strings.StartsWith(dir, userData + "/") && Strings.EndsWith(dir, "/logs") && |dir| == |userData| + 5
    ensures Strings.StartsWith(LogFile(userData), dir + "/") && Strings.StartsWith(ErrorLogFile(userData), dir + "/")
  {
    var d := LogDir(userData);
    assert d[|d| - 5..] == "/logs";
    assert d[..|userData| + 1] == userData + "/";
    LogFilesDistinct(userData);
    d
  }
}
