/**
 * The line pipeline of the log viewer (enhanced_log_viewer.py) once a file
 * has been read: `_filter_by_time`, the level and search filters, the
 * optional reversal and the line limit of `_read_and_filter_log`, and the
 * ordering of the recent errors in `_analyze_error_log`. The lines keep
 * their line breaks. `stampOf` stands for the timestamp search
 * (`\d{4}-\d{2}-\d{2} \d{2}:\d{2}:\d{2}`) followed by `strptime`; `now` and
 * the parsed time are in seconds.
 */
module LogFilter {
  import opened Wrappers
  import opened PyText
  import opened Seqs

  /** The choice that switches a filter off. */
  const All := "全部"

  /** What the timestamp search finds in a line: nothing, a stamp `strptime` rejects, or a time. */
  datatype Stamp = NoStamp | Unparseable(text: string) | At(text: string, seconds: int)

  /** How far back each known time range reaches, in seconds. */
  function RangeSpan(timeRange: string): (r: Option<int>)
    ensures r.Some? ==> r.value > 0
  {
    match timeRange
    case "最近1小时" => Some(3600)
    case "最近6小时" => Some(6 * 3600)
    case "最近24小时" => Some(24 * 3600)
    case "最近7天" => Some(7 * 24 * 3600)
    case _ => None
  }

  /** A line passes the time filter unless it carries a time before the cutoff. */
  predicate RecentEnough(stamp: Stamp, cutoff: int) {
    !stamp.At? || stamp.seconds >= cutoff
  }

  function RecentFn(stampOf: string -> Stamp, cutoff: int): string -> bool {
    line => RecentEnough(stampOf(line), cutoff)
  }

  /**
   * `_filter_by_time(lines, time_range)`: an unknown range keeps every line;
   * otherwise a line is kept, in order, when it has no stamp, an unparseable
   * stamp, or a time at or after the cutoff.
   */
  function FilterByTime(lines: seq<string>, timeRange: string, now: int, stampOf: string -> Stamp): (r: seq<string>)
    ensures |r| <= |lines|
    ensures RangeSpan(timeRange).None? ==> r == lines
    ensures RangeSpan(timeRange).Some? ==> forall line :: line in r <==>
      line in lines && RecentEnough(stampOf(line), now - RangeSpan(timeRange).value)
  {
    var span := RangeSpan(timeRange);
    if span.None? then lines
    else
      var r := Filter(lines, RecentFn(stampOf, now - span.value));
      assert forall line :: line in r <==> line in lines && RecentEnough(stampOf(line), now - span.value) by {
        forall line {
          FilterMembership(lines, RecentFn(stampOf, now - span.value), line);
        }
      }
      r
  }

  function LevelFn(level: string): string -> bool {
    line => Contains(line, level)
  }

  function SearchFn(term: string): string -> bool {
    line => Contains(Lower(line), Lower(term))
  }

  /** The parameters of one viewing. */
  datatype Query = Query(level: string, timeRange: string, search: string, maxLines: int, reverse: bool)

  /** The time filter, applied unless the range is `全部`. */
  function Timed(lines: seq<string>, q: Query, now: int, stampOf: string -> Stamp): (r: seq<string>)
    ensures |r| <= |lines|
  {
    if q.timeRange != All then FilterByTime(lines, q.timeRange, now, stampOf) else lines
  }

  /** The level filter, applied unless the level is `全部`. */
  function Leveled(lines: seq<string>, level: string): (r: seq<string>)
    ensures |r| <= |lines|
  {
    if level != All then Filter(lines, LevelFn(level)) else lines
  }

  /** The search filter, applied when the term is not empty. */
  function Searched(lines: seq<string>, term: string): (r: seq<string>)
    ensures |r| <= |lines|
  {
    if |term| > 0 then Filter(lines, SearchFn(term)) else lines
  }

  /** The lines that survive the three filters, in file order. */
  function Matching(lines: seq<string>, q: Query, now: int, stampOf: string -> Stamp): (r: seq<string>)
    ensures |r| <= |lines|
  {
    Searched(Leveled(Timed(lines, q, now, stampOf), q.level), q.search)
  }

  /** The lines `_read_and_filter_log` joins: the matching lines, reversed on request, then cut to `max_lines`. */
  function Selected(lines: seq<string>, q: Query, now: int, stampOf: string -> Stamp): (r: seq<string>)
    ensures |r| <= |lines|
    ensures q.maxLines >= 0 ==> |r| <= q.maxLines
  {
    var m := Matching(lines, q, now, stampOf);
    SliceTo(if q.reverse then Reverse(m) else m, q.maxLines)
  }

  /** `_read_and_filter_log(...)`: `None` is a missing or unreadable file, which shows as the empty text. */
  function ReadAndFilter(file: Option<seq<string>>, q: Query, now: int, stampOf: string -> Stamp): (r: string)
    ensures file.None? ==> r == ""
    ensures file.Some? ==> r == Join(Selected(file.value, q, now, stampOf), "")
  {
    if file.None? then "" else Join(Selected(file.value, q, now, stampOf), "")
  }

  /** A single line passes every active filter. */
  ghost predicate Matches(line: string, q: Query, now: int, stampOf: string -> Stamp) {
    && (q.timeRange == All || RangeSpan(q.timeRange).None? || RecentEnough(stampOf(line), now - RangeSpan(q.timeRange).value))
    && (q.level == All || Contains(line, q.level))
    && (|q.search| == 0 || exists i :: CiOccursAt(q.search, line, i))
  }

  lemma TimedIff(lines: seq<string>, q: Query, now: int, stampOf: string -> Stamp, line: string)
    ensures line in Timed(lines, q, now, stampOf) <==> (line in lines &&
      (q.timeRange == All || RangeSpan(q.timeRange).None? || RecentEnough(stampOf(line), now - RangeSpan(q.timeRange).value)))
  {
  }

  lemma LeveledIff(lines: seq<string>, level: string, line: string)
    ensures line in Leveled(lines, level) <==> line in lines && (level == All || Contains(line, level))
  {
    FilterMembership(lines, LevelFn(level), line);
  }

  lemma SearchedIff(lines: seq<string>, term: string, line: string)
    ensures line in Searched(lines, term) <==> line in lines && (|term| == 0 || exists i :: CiOccursAt(term, line, i))
  {
    FilterMembership(lines, SearchFn(term), line);
    LowerContainsIff(line, term);
  }

  /**
   * A line is among the matching lines exactly when it is in the file and
   * passes every active filter: the time window, containing the level, and
   * containing the search term with ASCII case ignored.
   */
  lemma MatchingIff(lines: seq<string>, q: Query, now: int, stampOf: string -> Stamp, line: string)
    ensures line in Matching(lines, q, now, stampOf) <==> line in lines && Matches(line, q, now, stampOf)
  {
    var timed := Timed(lines, q, now, stampOf);
    TimedIff(lines, q, now, stampOf, line);
    LeveledIff(timed, q.level, line);
    SearchedIff(Leveled(timed, q.level), q.search, line);
  }

  /** Without reversal the output is the first `max_lines` matching lines, in file order. */
  lemma ForwardTakesFirst(lines: seq<string>, q: Query, now: int, stampOf: string -> Stamp)
    requires !q.reverse && q.maxLines >= 0
    ensures var m := Matching(lines, q, now, stampOf);
      Selected(lines, q, now, stampOf) == m[..if q.maxLines < |m| then q.maxLines else |m|]
  {
  }

  /** With reversal the output is the last `max_lines` matching lines, newest first. */
  lemma ReverseTakesLast(lines: seq<string>, q: Query, now: int, stampOf: string -> Stamp)
    requires q.reverse && q.maxLines >= 0
    ensures var m := Matching(lines, q, now, stampOf);
      var n := if q.maxLines < |m| then q.maxLines else |m|;
      Selected(lines, q, now, stampOf) == Reverse(m[|m| - n..])
  {
    SliceOfReverse(Matching(lines, q, now, stampOf), q.maxLines);
  }

  /** With every filter off and no limit, the output is the whole file. */
  lemma NoFilterKeepsFile(lines: seq<string>, maxLines: int, now: int, stampOf: string -> Stamp)
    requires maxLines >= |lines|
    ensures Selected(lines, Query(All, All, "", maxLines, false), now, stampOf) == lines
  {
  }

  lemma SliceOfReverse(m: seq<string>, maxLines: nat)
    ensures var n := if maxLines < |m| then maxLines else |m|;
      SliceTo(Reverse(m), maxLines) == Reverse(m[|m| - n..])
  {
    var n := if maxLines < |m| then maxLines else |m|;
    var r := SliceTo(Reverse(m), maxLines);
    assert |r| == n;
    forall i | 0 <= i < n ensures r[i] == Reverse(m[|m| - n..])[i] {
      assert r[i] == Reverse(m)[i];
    }
  }

  /** An entry of `recent_errors`: the stamp text and the stripped line. */
  datatype ErrorEntry = ErrorEntry(time: string, message: string)

  /** The `ERROR` lines with a parseable stamp, in file order. */
  function ErrorEntries(lines: seq<string>, stampOf: string -> Stamp): (r: seq<ErrorEntry>)
    ensures |r| <= |lines|
    decreases |lines|
  {
    if |lines| == 0 then []
    else
      var rest := ErrorEntries(lines[1..], stampOf);
      var line := lines[0];
      if Contains(line, "ERROR") && stampOf(line).At? then [ErrorEntry(stampOf(line).text, Strip(line))] + rest
      else rest
  }

  /** `sort(key=lambda x: x['time'], reverse=True)` places an entry before another with an earlier or equal stamp. */
  function NewerFirst(): (ErrorEntry, ErrorEntry) -> bool {
    (a: ErrorEntry, b: ErrorEntry) => LexLe(b.time, a.time)
  }

  lemma NewerFirstPreorder()
    ensures TotalPreorder(NewerFirst())
  {
    var le := NewerFirst();
    forall a: ErrorEntry, b: ErrorEntry ensures le(a, b) || le(b, a) {
      LexLeTotal(a.time, b.time);
    }
    forall a: ErrorEntry, b: ErrorEntry, c: ErrorEntry | le(a, b) && le(b, c) ensures le(a, c) {
      LexLeTrans(c.time, b.time, a.time);
    }
  }

  /** `recent_errors` of `_analyze_error_log`. */
  function RecentErrors(lines: seq<string>, stampOf: string -> Stamp): (r: seq<ErrorEntry>)
    ensures multiset(r) == multiset(ErrorEntries(lines, stampOf))
    ensures forall i, j :: 0 <= i < j < |r| ==> LexLe(r[j].time, r[i].time)
  {
    var r := InsertionSort(ErrorEntries(lines, stampOf), NewerFirst());
    assert SortedBy(r, NewerFirst()) by {
      NewerFirstPreorder();
      InsertionSortSorted(ErrorEntries(lines, stampOf), NewerFirst());
    }
    r
  }

  /** `e` is the entry made from `line`. */
  predicate EntryOf(line: string, e: ErrorEntry, stampOf: string -> Stamp) {
    Contains(line, "ERROR") && stampOf(line).At? && stampOf(line).text == e.time && e.message == Strip(line)
  }

  /** Every recent error comes from an `ERROR` line of the file with a parseable stamp, whose text it carries. */
  lemma {:induction false} ErrorEntriesFromLines(lines: seq<string>, stampOf: string -> Stamp)
    ensures forall e :: e in ErrorEntries(lines, stampOf) ==> exists k :: 0 <= k < |lines| && EntryOf(lines[k], e, stampOf)
    decreases |lines|
  {
    if |lines| > 0 {
      var rest := ErrorEntries(lines[1..], stampOf);
      ErrorEntriesFromLines(lines[1..], stampOf);
      forall e | e in ErrorEntries(lines, stampOf) ensures exists k :: 0 <= k < |lines| && EntryOf(lines[k], e, stampOf) {
        if e in rest {
          var k :| 0 <= k < |lines[1..]| && EntryOf(lines[1..][k], e, stampOf);
          assert EntryOf(lines[k + 1], e, stampOf);
        } else {
          assert EntryOf(lines[0], e, stampOf);
        }
      }
    }
  }

  /** `'ERROR' in line` and the stamp parses: the lines `recent_errors` takes. */
  function Qualifies(stampOf: string -> Stamp): string -> bool {
    line => Contains(line, "ERROR") && stampOf(line).At?
  }

  /** The entry a qualifying line yields. */
  function EntryFor(line: string, stampOf: string -> Stamp): ErrorEntry {
    match stampOf(line)
    case At(text, _) => ErrorEntry(text, Strip(line))
    case Unparseable(text) => ErrorEntry(text, Strip(line))
    case NoStamp => ErrorEntry([], Strip(line))
  }

  /** The entries of the given lines, one each, in order. */
  function EntriesOf(ls: seq<string>, stampOf: string -> Stamp): (r: seq<ErrorEntry>)
    ensures |r| == |ls|
    ensures forall i :: 0 <= i < |ls| ==> r[i] == EntryFor(ls[i], stampOf)
  {
    if |ls| == 0 then [] else [EntryFor(ls[0], stampOf)] + EntriesOf(ls[1..], stampOf)
  }

  /** One step of the extraction and of the filter it agrees with. */
  lemma ErrorEntriesStep(lines: seq<string>, stampOf: string -> Stamp)
    requires |lines| > 0
    ensures Qualifies(stampOf)(lines[0]) ==>
      && ErrorEntries(lines, stampOf) == [EntryFor(lines[0], stampOf)] + ErrorEntries(lines[1..], stampOf)
      && Filter(lines, Qualifies(stampOf)) == [lines[0]] + Filter(lines[1..], Qualifies(stampOf))
    ensures !Qualifies(stampOf)(lines[0]) ==>
      && ErrorEntries(lines, stampOf) == ErrorEntries(lines[1..], stampOf)
      && Filter(lines, Qualifies(stampOf)) == Filter(lines[1..], Qualifies(stampOf))
  {
  }

  lemma EntriesOfCons(x: string, f: seq<string>, stampOf: string -> Stamp)
    ensures EntriesOf([x] + f, stampOf) == [EntryFor(x, stampOf)] + EntriesOf(f, stampOf)
  {
    assert ([x] + f)[1..] == f;
  }

  /** The extracted entries are exactly those of the qualifying lines, in file order. */
  lemma {:induction false} ErrorEntriesOfQualifying(lines: seq<string>, stampOf: string -> Stamp)
    ensures ErrorEntries(lines, stampOf) == EntriesOf(Filter(lines, Qualifies(stampOf)), stampOf)
    decreases |lines|
  {
    if |lines| > 0 {
      var f := Filter(lines[1..], Qualifies(stampOf));
      ErrorEntriesOfQualifying(lines[1..], stampOf);
      ErrorEntriesStep(lines, stampOf);
      if Qualifies(stampOf)(lines[0]) {
        EntriesOfCons(lines[0], f, stampOf);
      }
    }
  }

  /** Every qualifying line of the file shows up among the recent errors. */
  lemma QualifyingLineListed(lines: seq<string>, stampOf: string -> Stamp, k: nat)
    requires k < |lines| && Contains(lines[k], "ERROR") && stampOf(lines[k]).At?
    ensures ErrorEntry(stampOf(lines[k]).text, Strip(lines[k])) in RecentErrors(lines, stampOf)
  {
    var q := Filter(lines, Qualifies(stampOf));
    ErrorEntriesOfQualifying(lines, stampOf);
    FilterMembership(lines, Qualifies(stampOf), lines[k]);
    var i :| 0 <= i < |q| && q[i] == lines[k];
    assert ErrorEntries(lines, stampOf)[i] == EntryFor(lines[k], stampOf);
    assert EntryFor(lines[k], stampOf) in multiset(ErrorEntries(lines, stampOf));
  }
}
