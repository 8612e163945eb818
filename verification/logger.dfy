/**
 The structured logger: one file per day named `app-YYYY-MM-DD.log`, a
 retention pass that keeps the 30 most recently modified files, and log
 entries that carry an id, a timestamp, a level and a message followed by
 caller metadata, which may override any of those four fields.
 */
module Logger {
  import opened Wrappers
  import opened Text

  // ---------------------------------------------------------------------------
  // File names
  // ---------------------------------------------------------------------------

  /** The local-time fields `getFullYear()`, `getMonth()` (0-based) and `getDate()`. */
  datatype CalendarDate = CalendarDate(year: int, month: int, day: int)

  /** The ranges a JavaScript `Date` gives its month and day. */
  predicate ValidDate(d: CalendarDate) {
    0 <= d.month < 12 && 1 <= d.day <= 31
  }

  /** `n.toString().padStart(2, '0')`. */
  function TwoDigits(n: int): string {
    PadStart(ShowInt(n), 2, '0')
  }

  /** The name of the day's log file. */
  function LogFileName(d: CalendarDate): string {
    "app-" + ShowInt(d.year) + "-" + TwoDigits(d.month + 1) + "-" + TwoDigits(d.day) + ".log"
  }

  /** Reads the date back out of a log file name; the inverse of `LogFileName`. */
  function ParseLogFileName(name: string): Option<CalendarDate> {
    if |name| < 15 || name[..4] != "app-" || name[|name| - 4..] != ".log" then None
    else ParseDatePart(name[4..|name| - 4])
  }

  /** Reads `<year>-<mm>-<dd>`. */
  function ParseDatePart(mid: string): Option<CalendarDate>
    requires |mid| >= 7
  {
    var year := mid[..|mid| - 6];
    var month := mid[|mid| - 5..|mid| - 3];
    var day := mid[|mid| - 2..];
    if mid[|mid| - 6] != '-' || mid[|mid| - 3] != '-'
       || !AllDigits(year) || !AllDigits(month) || !AllDigits(day) then None
    else Some(DateOf(year, month, day))
  }

  /** The date whose year, month (counted from 1) and day fields read as given. */
  function DateOf(year: string, month: string, day: string): CalendarDate
    requires AllDigits(year) && AllDigits(month) && AllDigits(day)
  {
    CalendarDate(ParseDigits(year), ParseDigits(month) - 1, ParseDigits(day))
  }

  /** Below 100, `TwoDigits` writes exactly two digits that read back as `n`. */
  lemma {:induction false} TwoDigitsRoundTrip(n: nat)
    requires n < 100
    ensures |TwoDigits(n)| == 2 && AllDigits(TwoDigits(n))
    ensures ParseDigits(TwoDigits(n)) == n
  {
    var s := ShowNat(n);
    assert ShowInt(n) == s;
    ShowNatBelow100(n);
    ParseShowNat(n);
    PadToTwo(s);
    if |s| == 1 {
      ParseLeadingZero(s);
    }
  }

  /** Numbers below 100 take one or two digits. */
  lemma ShowNatBelow100(n: nat)
    requires n < 100
    ensures |ShowNat(n)| == if n < 10 then 1 else 2
  {
    if n >= 10 {
      assert |ShowNat(n / 10)| == 1;
    }
  }

  /** Padding one or two digits to width two. */
  lemma PadToTwo(s: string)
    requires AllDigits(s) && 1 <= |s| <= 2
    ensures PadStart(s, 2, '0') == if |s| == 1 then "0" + s else s
    ensures AllDigits(PadStart(s, 2, '0'))
  {
    var t := PadStart(s, 2, '0');
    if |s| == 1 {
      assert t[1..] == s && t[0] == '0';
      assert t == "0" + s;
    }
  }

  /** The pieces of a log file name, located. */
  lemma NameParts(y: string, mm: string, dd: string)
    requires |mm| == 2 && |dd| == 2
    ensures var name := "app-" + y + "-" + mm + "-" + dd + ".log";
            && |name| == |y| + 14
            && name[..4] == "app-"
            && name[|name| - 4..] == ".log"
            && name[4..|name| - 4] == y + "-" + mm + "-" + dd
  {
    var name := "app-" + y + "-" + mm + "-" + dd + ".log";
    var mid := y + "-" + mm + "-" + dd;
    assert name == "app-" + mid + ".log";
  }

  /** The date part `<year>-<mm>-<dd>` of a log file name, located. */
  lemma MidParts(y: string, mm: string, dd: string)
    requires |mm| == 2 && |dd| == 2
    ensures var mid := y + "-" + mm + "-" + dd;
            && mid[..|mid| - 6] == y
            && mid[|mid| - 6] == '-' && mid[|mid| - 3] == '-'
            && mid[|mid| - 5..|mid| - 3] == mm
            && mid[|mid| - 2..] == dd
  {
  }

  /**
   The file name holds the year in full and the month (counted from 1) and
   day as two digits each, and the date can be read back from it.
   */
  lemma {:induction false} LogFileNameRoundTrip(d: CalendarDate)
    requires ValidDate(d) && d.year >= 0
    ensures ParseLogFileName(LogFileName(d)) == Some(d)
  {
    var y, mm, dd := ShowInt(d.year), TwoDigits(d.month + 1), TwoDigits(d.day);
    var name := LogFileName(d);
    assert name == "app-" + y + "-" + mm + "-" + dd + ".log";
    TwoDigitsRoundTrip(d.month + 1);
    TwoDigitsRoundTrip(d.day);
    assert y == ShowNat(d.year);
    ParseShowNat(d.year);
    ParseNameOf(y, mm, dd);
    assert ParseLogFileName(name) == Some(CalendarDate(d.year, d.month + 1 - 1, d.day));
  }

  /** `ParseLogFileName` on a name assembled from digit fields reads those fields. */
  lemma ParseNameOf(y: string, mm: string, dd: string)
    requires |y| >= 1 && AllDigits(y) && |mm| == 2 && AllDigits(mm) && |dd| == 2 && AllDigits(dd)
    ensures ParseLogFileName("app-" + y + "-" + mm + "-" + dd + ".log") == Some(DateOf(y, mm, dd))
  {
    NameParts(y, mm, dd);
    ParseMidOf(y, mm, dd);
  }

  lemma ParseMidOf(y: string, mm: string, dd: string)
    requires |y| >= 1 && AllDigits(y) && |mm| == 2 && AllDigits(mm) && |dd| == 2 && AllDigits(dd)
    ensures ParseDatePart(y + "-" + mm + "-" + dd) == Some(DateOf(y, mm, dd))
  {
    var mid := y + "-" + mm + "-" + dd;
    MidParts(y, mm, dd);
    assert mid[..|mid| - 6] == y;
    assert mid[|mid| - 5..|mid| - 3] == mm;
    assert mid[|mid| - 2..] == dd;
  }

  /** Different days are logged to different files. */
  lemma LogFileNamesDistinct(d: CalendarDate, e: CalendarDate)
    requires ValidDate(d) && d.year >= 0 && ValidDate(e) && e.year >= 0 && d != e
    ensures LogFileName(d) != LogFileName(e)
  {
    LogFileNameRoundTrip(d);
    LogFileNameRoundTrip(e);
  }

  // ---------------------------------------------------------------------------
  // Retention
  // ---------------------------------------------------------------------------

  /** How many log files the retention pass keeps. */
  const MaxLogFiles: nat := 30

  /** A file of the logs directory and its modification time in milliseconds. */
  datatype LogFile = LogFile(name: string, mtime: int)

  predicate NewestFirst(s: seq<LogFile>) {
    forall i, j | 0 <= i < j < |s| :: s[i].mtime >= s[j].mtime
  }

  /** Inserts `x` after every file at least as new as it. */
  function InsertByMtime(x: LogFile, sorted: seq<LogFile>): (r: seq<LogFile>)
    ensures |r| == |sorted| + 1
    ensures multiset(r) == multiset(sorted) + multiset{x}
  {
    if |sorted| == 0 then [x]
    else if sorted[0].mtime >= x.mtime then
      assert sorted == [sorted[0]] + sorted[1..];
      [sorted[0]] + InsertByMtime(x, sorted[1..])
    else [x] + sorted
  }

  /** Inserting into a newest-first list keeps it newest first. */
  lemma {:induction false} InsertKeepsNewestFirst(x: LogFile, sorted: seq<LogFile>)
    requires NewestFirst(sorted)
    ensures NewestFirst(InsertByMtime(x, sorted))
  {
    if |sorted| > 0 {
      if sorted[0].mtime >= x.mtime {
        var tail := sorted[1..];
        assert NewestFirst(tail) by {
          forall i, j | 0 <= i < j < |tail|
            ensures tail[i].mtime >= tail[j].mtime
          {
            assert tail[i] == sorted[i + 1] && tail[j] == sorted[j + 1];
          }
        }
        InsertKeepsNewestFirst(x, tail);
        var rest := InsertByMtime(x, tail);
        forall y | y in rest
          ensures y.mtime <= sorted[0].mtime
        {
          assert y in multiset(rest);
          if y != x {
            assert y in multiset(tail);
            var k :| 0 <= k < |tail| && tail[k] == y;
            assert sorted[k + 1] == y;
          }
        }
        ConsNewestFirst(sorted[0], rest);
      } else {
        forall y | y in sorted
          ensures y.mtime <= x.mtime
        {
          var k :| 0 <= k < |sorted| && sorted[k] == y;
        }
        ConsNewestFirst(x, sorted);
      }
    }
  }

  /** A file at least as new as every file of a newest-first list can go in front of it. */
  lemma ConsNewestFirst(h: LogFile, rest: seq<LogFile>)
    requires NewestFirst(rest)
    requires forall y | y in rest :: y.mtime <= h.mtime
    ensures NewestFirst([h] + rest)
  {
    var r := [h] + rest;
    forall i, j | 0 <= i < j < |r|
      ensures r[i].mtime >= r[j].mtime
    {
      assert r[j] == rest[j - 1];
      if i > 0 {
        assert r[i] == rest[i - 1];
      }
    }
  }

  /**
   The retention pass orders the log files by modification time, newest
   first. JavaScript's sort is stable, so files with equal times keep their
   directory order.
   */
  function SortNewestFirst(files: seq<LogFile>): (r: seq<LogFile>)
    ensures |r| == |files|
    ensures NewestFirst(r)
    ensures multiset(r) == multiset(files)
  {
    if |files| == 0 then []
    else
      assert files == files[..|files| - 1] + [files[|files| - 1]];
      InsertKeepsNewestFirst(files[|files| - 1], SortNewestFirst(files[..|files| - 1]));
      InsertByMtime(files[|files| - 1], SortNewestFirst(files[..|files| - 1]))
  }

  /** The files a retention pass keeps and the files, in order, it deletes. */
  datatype CleanupPlan = CleanupPlan(keep: seq<LogFile>, delete: seq<LogFile>)

  /**
   Nothing is deleted while there are at most 30 files; beyond that, the 30
   newest are kept and every other file is deleted, so no deleted file is
   newer than a kept one.
   */
  function PlanCleanup(files: seq<LogFile>): (plan: CleanupPlan)
    ensures |files| <= MaxLogFiles ==> plan.delete == [] && plan.keep == files
    ensures |files| > MaxLogFiles ==>
              |plan.keep| == MaxLogFiles && |plan.delete| == |files| - MaxLogFiles
    ensures multiset(plan.keep) + multiset(plan.delete) == multiset(files)
    ensures forall d, k | d in plan.delete && k in plan.keep :: d.mtime <= k.mtime
  {
    if |files| <= MaxLogFiles then CleanupPlan(files, [])
    else
      var sorted := SortNewestFirst(files);
      assert sorted == sorted[..MaxLogFiles] + sorted[MaxLogFiles..];
      var plan := CleanupPlan(sorted[..MaxLogFiles], sorted[MaxLogFiles..]);
      assert forall d, k | d in plan.delete && k in plan.keep :: d.mtime <= k.mtime by {
        forall d, k | d in plan.delete && k in plan.keep
          ensures d.mtime <= k.mtime
        {
          var i :| 0 <= i < |plan.delete| && plan.delete[i] == d;
          var j :| 0 <= j < |plan.keep| && plan.keep[j] == k;
          assert sorted[j] == k && sorted[MaxLogFiles + i] == d;
        }
      }
      plan
  }

  /** What a retention pass did: the files removed, and the error it logged, if any. */
  datatype CleanupReport = CleanupReport(removed: seq<string>, logged: Option<string>)

  /**
   `cleanupOldLogs`: list the directory, plan, and unlink the planned files in
   order. An error, listing or unlinking, stops the pass and is logged; it is
   never passed on to the caller.
   */
  method CleanupOldLogs(listing: Result<seq<LogFile>>, unlink: string -> Outcome)
    returns (report: CleanupReport)
    ensures listing.Failure? ==> report == CleanupReport([], Some(listing.message))
    ensures listing.Success? ==>
              var plan := PlanCleanup(listing.value).delete;
              && |report.removed| <= |plan|
              && (forall i | 0 <= i < |report.removed| ::
                    report.removed[i] == plan[i].name && unlink(plan[i].name).Done?)
              && (report.logged.None? <==> |report.removed| == |plan|)
              && (report.logged.Some? ==>
                    unlink(plan[|report.removed|].name) == Threw(report.logged.value))
  {
    if listing.Failure? {
      return CleanupReport([], Some(listing.message));
    }
    var plan := PlanCleanup(listing.value).delete;
    var removed: seq<string> := [];
    var i := 0;
    while i < |plan|
      invariant 0 <= i <= |plan| && |removed| == i
      invariant forall j | 0 <= j < i :: removed[j] == plan[j].name && unlink(plan[j].name).Done?
    {
      var outcome := unlink(plan[i].name);
      if outcome.Threw? {
        return CleanupReport(removed, Some(outcome.message));
      }
      removed := removed + [plan[i].name];
      i := i + 1;
    }
    report := CleanupReport(removed, None);
  }

  // ---------------------------------------------------------------------------
  // Entries
  // ---------------------------------------------------------------------------

  /** A field value: a string, or any other JSON value, kept in serialised form. */
  datatype Value = Str(s: string) | Json(serialized: string)

  /** The fields of a JSON object in property order. */
  type Fields = seq<(string, Value)>

  /** The first position of `key` in `fields`. */
  function KeyIndex(fields: Fields, key: string): (r: Option<nat>)
    ensures r.Some? ==> r.value < |fields| && fields[r.value].0 == key
    ensures forall i | 0 <= i < |fields| && (r.None? || i < r.value) :: fields[i].0 != key
  {
    if |fields| == 0 then None
    else if fields[0].0 == key then Some(0)
    else match KeyIndex(fields[1..], key)
      case None => None
      case Some(i) => Some(i + 1)
  }

  /** No property name occurs twice, as in every JavaScript object. */
  predicate DistinctKeys(fields: Fields) {
    forall i, j | 0 <= i < j < |fields| :: fields[i].0 != fields[j].0
  }

  /** The value of property `key`, if the object has one. */
  function Lookup(fields: Fields, key: string): Option<Value> {
    match KeyIndex(fields, key)
    case None => None
    case Some(i) => Some(fields[i].1)
  }

  /**
   Setting property `key` of an object literal: an existing property keeps
   its position and takes the new value; a new one is appended.
   */
  function Put(fields: Fields, key: string, value: Value): (r: Fields)
    ensures |r| == |fields| + (if KeyIndex(fields, key).None? then 1 else 0)
    ensures DistinctKeys(fields) ==> DistinctKeys(r)
    ensures forall i | 0 <= i < |fields| :: r[i].0 == fields[i].0
    ensures Lookup(r, key) == Some(value)
    ensures forall k | k != key :: Lookup(r, k) == Lookup(fields, k)
  {
    match KeyIndex(fields, key)
    case None =>
      var r := fields + [(key, value)];
      assert forall k | k != key :: KeyIndex(r, k) == KeyIndex(fields, k) by {
        forall k | k != key
          ensures KeyIndex(r, k) == KeyIndex(fields, k)
        {
          KeyIndexAppend(fields, (key, value), k);
        }
      }
      KeyIndexAppend(fields, (key, value), key);
      assert forall i | 0 <= i < |fields| :: r[i].0 != key;
      r
    case Some(i) =>
      var r := fields[i := (key, value)];
      assert forall k | k != key :: KeyIndex(r, k) == KeyIndex(fields, k) by {
        forall k | k != key
          ensures KeyIndex(r, k) == KeyIndex(fields, k)
        {
          KeyIndexSameKeys(fields, r, k);
        }
      }
      KeyIndexSameKeys(fields, r, key);
      r
  }

  /** The first field named `key` is at `i`. */
  lemma KeyIndexAt(fields: Fields, key: string, i: nat)
    requires i < |fields| && fields[i].0 == key
    requires forall j | 0 <= j < i :: fields[j].0 != key
    ensures KeyIndex(fields, key) == Some(i)
  {
  }

  /** Appending a field does not move the first position of any key already present. */
  lemma KeyIndexAppend(fields: Fields, f: (string, Value), key: string)
    ensures KeyIndex(fields + [f], key) ==
              if KeyIndex(fields, key).Some? then KeyIndex(fields, key)
              else if f.0 == key then Some(|fields|) else None
  {
    var r := KeyIndex(fields + [f], key);
    var q := KeyIndex(fields, key);
    if q.Some? {
      assert (fields + [f])[q.value].0 == key;
    } else if f.0 == key {
      assert (fields + [f])[|fields|].0 == key;
    }
  }

  /** Objects with the same keys in the same order find every key at the same position. */
  lemma KeyIndexSameKeys(a: Fields, b: Fields, key: string)
    requires |a| == |b| && forall i | 0 <= i < |a| :: a[i].0 == b[i].0
    ensures KeyIndex(a, key) == KeyIndex(b, key)
  {
    var p, q := KeyIndex(a, key), KeyIndex(b, key);
    if p.Some? {
      assert b[p.value].0 == key;
    }
    if q.Some? {
      assert a[q.value].0 == key;
    }
  }

  /** `{ ...fields, ...metadata }`: every metadata property set in order. */
  function Spread(fields: Fields, metadata: Fields): Fields {
    if |metadata| == 0 then fields
    else
      var last := metadata[|metadata| - 1];
      Put(Spread(fields, metadata[..|metadata| - 1]), last.0, last.1)
  }

  /** Spreading keeps the property names of an object distinct. */
  lemma {:induction false} SpreadDistinct(fields: Fields, metadata: Fields)
    requires DistinctKeys(fields)
    ensures DistinctKeys(Spread(fields, metadata))
  {
    if |metadata| > 0 {
      SpreadDistinct(fields, metadata[..|metadata| - 1]);
    }
  }

  /** The value the last metadata property named `key` carries. */
  function LastValue(metadata: Fields, key: string): Option<Value> {
    if |metadata| == 0 then None
    else if metadata[|metadata| - 1].0 == key then Some(metadata[|metadata| - 1].1)
    else LastValue(metadata[..|metadata| - 1], key)
  }

  /**
   After the spread, a property named in the metadata has the metadata's
   (last) value, and every other property keeps its value; properties present
   before keep their position.
   */
  lemma {:induction false} SpreadOverrides(fields: Fields, metadata: Fields, key: string)
    ensures Lookup(Spread(fields, metadata), key) ==
              if LastValue(metadata, key).Some? then LastValue(metadata, key) else Lookup(fields, key)
    ensures |Spread(fields, metadata)| >= |fields|
    ensures forall i | 0 <= i < |fields| :: Spread(fields, metadata)[i].0 == fields[i].0
  {
    if |metadata| > 0 {
      SpreadOverrides(fields, metadata[..|metadata| - 1], key);
    }
  }

  /** The names of the fields every entry starts with, in order. */
  const EntryKeys: seq<string> := ["logId", "timestamp", "level", "message"]

  /** The four fields the logger supplies, in order. */
  function Header(logId: string, timestamp: string, level: string, message: string): Fields {
    [("logId", Str(logId)), ("timestamp", Str(timestamp)), ("level", Str(level)), ("message", Str(message))]
  }

  /** The header holds exactly the four entry keys, once each, with the supplied values. */
  lemma HeaderFields(logId: string, timestamp: string, level: string, message: string)
    ensures var h := Header(logId, timestamp, level, message);
            && |h| == 4 && (forall i | 0 <= i < 4 :: h[i].0 == EntryKeys[i])
            && (forall key :: Lookup(h, key).Some? <==> key in EntryKeys)
            && Lookup(h, "logId") == Some(Str(logId))
            && Lookup(h, "timestamp") == Some(Str(timestamp))
            && Lookup(h, "level") == Some(Str(level))
            && Lookup(h, "message") == Some(Str(message))
  {
    var h := Header(logId, timestamp, level, message);
    KeyIndexAt(h, "logId", 0);
    KeyIndexAt(h, "timestamp", 1);
    KeyIndexAt(h, "level", 2);
    KeyIndexAt(h, "message", 3);
    forall key | Lookup(h, key).Some?
      ensures key in EntryKeys
    {
    }
  }

  /** Everything the spread of the metadata over an object keeps and changes. */
  lemma SpreadFields(fields: Fields, metadata: Fields)
    ensures var r := Spread(fields, metadata);
            && |r| >= |fields| && (forall i | 0 <= i < |fields| :: r[i].0 == fields[i].0)
            && forall key :: Lookup(r, key) ==
                 if LastValue(metadata, key).Some? then LastValue(metadata, key) else Lookup(fields, key)
  {
    SpreadOverrides(fields, metadata, "");
    forall key
      ensures Lookup(Spread(fields, metadata), key) ==
                if LastValue(metadata, key).Some? then LastValue(metadata, key) else Lookup(fields, key)
    {
      SpreadOverrides(fields, metadata, key);
    }
  }

  /** A log entry before it is serialised. */
  function LogEntry(logId: string, timestamp: string, level: string, message: string,
                    metadata: Fields): (entry: Fields)
    ensures |entry| >= 4
    ensures forall i | 0 <= i < 4 :: entry[i].0 == EntryKeys[i]
    ensures DistinctKeys(entry)
    ensures forall key :: Lookup(entry, key).Some? <==> key in EntryKeys || LastValue(metadata, key).Some?
    ensures forall key | LastValue(metadata, key).Some? :: Lookup(entry, key) == LastValue(metadata, key)
    ensures LastValue(metadata, "logId").None? ==> Lookup(entry, "logId") == Some(Str(logId))
    ensures LastValue(metadata, "timestamp").None? ==> Lookup(entry, "timestamp") == Some(Str(timestamp))
    ensures LastValue(metadata, "level").None? ==> Lookup(entry, "level") == Some(Str(level))
    ensures LastValue(metadata, "message").None? ==> Lookup(entry, "message") == Some(Str(message))
  {
    var h := Header(logId, timestamp, level, message);
    assert DistinctKeys(Spread(h, metadata)) by {
      SpreadDistinct(h, metadata);
    }
    HeaderFields(logId, timestamp, level, message);
    SpreadFields(h, metadata);
    Spread(h, metadata)
  }

  /** A log call's effect: the entry appended to the day's file. */
  datatype LogRecord = LogRecord(file: string, entry: Fields)

  /** `log(level, message, metadata)` on `date`, with the given id and timestamp. */
  function Log(level: string, message: string, metadata: Fields,
               logId: string, timestamp: string, date: CalendarDate): LogRecord {
    LogRecord(LogFileName(date), LogEntry(logId, timestamp, level, message, metadata))
  }

  /** The levels the logger exports a wrapper for: `info`, `error`, `warn` and `debug`. */
  datatype Level = Info | Error | Warn | Debug

  /** The level name a wrapper writes into its entries. */
  function LevelName(l: Level): string {
    match l
    case Info => "INFO"
    case Error => "ERROR"
    case Warn => "WARN"
    case Debug => "DEBUG"
  }

  /**
   A wrapper call `info(message, metadata)` and so on: an entry at the
   wrapper's level, for the day's file, whose level and message are the
   caller's unless the metadata overrides them.
   */
  function LogAt(l: Level, message: string, metadata: Fields, logId: string, timestamp: string,
                 date: CalendarDate): (r: LogRecord)
    ensures LastValue(metadata, "level").None? ==> Lookup(r.entry, "level") == Some(Str(LevelName(l)))
    ensures LastValue(metadata, "message").None? ==> Lookup(r.entry, "message") == Some(Str(message))
  {
    Log(LevelName(l), message, metadata, logId, timestamp, date)
  }

  /** A wrapper call writes to the file of the calendar day it is given. */
  lemma LogAtFile(l: Level, message: string, metadata: Fields, logId: string, timestamp: string,
                  date: CalendarDate)
    requires ValidDate(date) && date.year >= 0
    ensures ParseLogFileName(LogAt(l, message, metadata, logId, timestamp, date).file) == Some(date)
  {
    LogFileNameRoundTrip(date);
  }
}
