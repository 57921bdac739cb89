/** The usage log (src/usage-log.ts): one JSON record per compiled prompt,
    read back through a filter, summed into a summary and rendered. The log
    file's text, the JSON parser, `Date.parse` and the session state file are
    parameters. */
module Usage {
  import opened Wrappers
  import opened Text
  import opened Seqs
  import opened Js

  /** `sessionId?: string | null`: missing, `null`, or an id. */
  datatype SessionField = Absent | NullId | Id(id: string)

  /** The fields of a `UsageRecord` that are read back. */
  datatype UsageRecord = UsageRecord(
    timestamp: string,
    tool: string,
    sessionId: SessionField,
    originalTokens: int,
    compiledTokens: int,
    savingsTokens: int)

  /** `UsageFilters`. */
  datatype UsageFilters = UsageFilters(tool: Option<string>, sessionId: SessionField, since: Option<string>)

  /** `UsageSummary` without `averageSavingsPct`, a rounded float. */
  datatype UsageSummary = UsageSummary(
    tool: Option<string>,
    sessionId: Option<string>,
    totalPrompts: nat,
    totalOriginalTokens: int,
    totalCompiledTokens: int,
    totalSavingsTokens: int,
    firstSeen: Option<string>,
    lastSeen: Option<string>)

  datatype SessionInfo = SessionInfo(id: string, startedAt: string)

  /** `Date.parse`: `None` for `NaN`. */
  type DateParser = string -> Option<int>

  /** `JSON.parse(line)` read as a record; `None` when it throws or the
      result has no record shape. */
  type RecordParser = string -> Option<UsageRecord>

  /** `registryPath || process.env.BEBOP_REGISTRY || path.join(home, '.bebop')`. */
  function RegistryPath(registryPath: Option<string>, env: Env, home: string): (r: string)
    ensures registryPath.Some? && registryPath.value != "" ==> r == registryPath.value
    ensures (registryPath.None? || registryPath.value == "") && EnvSet(env, "BEBOP_REGISTRY") ==> r == env["BEBOP_REGISTRY"]
    ensures ((registryPath.None? || registryPath.value == "") && !EnvSet(env, "BEBOP_REGISTRY")) ==> r == home + "/.bebop"
  {
    if registryPath.Some? && registryPath.value != "" then registryPath.value
    else if EnvSet(env, "BEBOP_REGISTRY") then env["BEBOP_REGISTRY"]
    else home + "/.bebop"
  }

  /** `countWords(text)`. */
  function CountWords(text: string): nat {
    |Words(text)|
  }

  /** Words joined by single spaces count as themselves. */
  lemma CountJoinedWords(ws: seq<string>)
    requires forall i :: 0 <= i < |ws| ==> |ws[i]| > 0 && NoSep(ws[i], Whitespace)
    ensures CountWords(Join(ws, " ")) == |ws|
  {
    FieldsOfJoin(ws, Whitespace);
  }

  /** The `since` bound in force: `filters.since` parsed, and only when both
      the text and the parsed number are truthy (`NaN` and `0` switch it off). */
  function SinceBound(since: Option<string>, parseDate: DateParser): (r: Option<int>)
    ensures r.Some? ==> r.value != 0 && since.Some? && since.value != "" && parseDate(since.value) == r
    ensures since.Some? && since.value != "" && parseDate(since.value).Some? && parseDate(since.value).value != 0 ==>
      r == parseDate(since.value)
  {
    if since.Some? && since.value != "" then
      match parseDate(since.value)
      case Some(n) => if n != 0 then Some(n) else None
      case None => None
    else None
  }

  /** The three `continue` conditions of `readUsageRecords`, negated. */
  predicate Keep(record: UsageRecord, filters: UsageFilters, parseDate: DateParser) {
    && !(filters.tool.Some? && filters.tool.value != "" && record.tool != filters.tool.value)
    && !(filters.sessionId != Absent && record.sessionId != filters.sessionId)
    && !(var since := SinceBound(filters.since, parseDate);
         since.Some? && parseDate(record.timestamp).Some? && parseDate(record.timestamp).value < since.value)
  }

  /** What each log line yields: a kept record, or nothing for a blank line,
      an unparsable one or one the filters reject. */
  function LineRecord(line: string, parse: RecordParser, filters: UsageFilters, parseDate: DateParser): (r: Option<UsageRecord>)
    ensures r.Some? ==> line != "" && parse(line) == r && Keep(r.value, filters, parseDate)
  {
    if line == "" then None
    else match parse(line)
      case Some(record) => if Keep(record, filters, parseDate) then Some(record) else None
      case None => None
  }

  /** A log line yields a record: it is non-empty, parses, and the record
      passes the filters. */
  predicate Accepted(line: string, parse: RecordParser, filters: UsageFilters, parseDate: DateParser) {
    line != "" && parse(line).Some? && Keep(parse(line).value, filters, parseDate)
  }

  /** `readUsageRecords(filters)`: no log file gives no records; otherwise
      the kept records of the non-empty lines, in file order. */
  function ReadUsageRecords(log: Option<string>, parse: RecordParser, filters: UsageFilters, parseDate: DateParser)
    : (r: seq<UsageRecord>)
    ensures log.None? ==> r == []
    ensures log.Some? ==>
      var accepted := Seqs.Keep(Split(log.value, '\n'), (line: string) => Accepted(line, parse, filters, parseDate));
      && |r| == |accepted|
      && forall k :: 0 <= k < |r| ==> parse(accepted[k]) == Some(r[k])
    ensures forall k :: 0 <= k < |r| ==> Keep(r[k], filters, parseDate)
    ensures log.Some? ==> forall k :: 0 <= k < |r| ==> FromLine(Split(log.value, '\n'), parse, r[k])
    ensures log.Some? ==> forall line :: (line in Split(log.value, '\n') && line != "" && parse(line).Some?
      && Keep(parse(line).value, filters, parseDate)) ==> parse(line).value in r
  {
    match log
    case None => []
    case Some(raw) =>
      var lines := Split(raw, '\n');
      RecordsOfLines(lines, parse, filters, parseDate);
      FilterMap(lines, (line: string) => LineRecord(line, parse, filters, parseDate))
  }

  /** `record` is the parse of a non-empty line of `lines`. */
  ghost predicate FromLine(lines: seq<string>, parse: RecordParser, record: UsageRecord) {
    exists line :: line in lines && line != "" && parse(line) == Some(record)
  }

  /** The records `readUsageRecords` keeps from the lines of the log. */
  lemma RecordsOfLines(lines: seq<string>, parse: RecordParser, filters: UsageFilters, parseDate: DateParser)
    ensures var r := FilterMap(lines, (line: string) => LineRecord(line, parse, filters, parseDate));
      var accepted := Seqs.Keep(lines, (line: string) => Accepted(line, parse, filters, parseDate));
      && |r| == |accepted|
      && (forall k :: 0 <= k < |r| ==> parse(accepted[k]) == Some(r[k]))
      && (forall k :: 0 <= k < |r| ==> Keep(r[k], filters, parseDate))
      && (forall k :: 0 <= k < |r| ==> FromLine(lines, parse, r[k]))
      && (forall line :: (line in lines && line != "" && parse(line).Some? && Keep(parse(line).value, filters, parseDate))
            ==> parse(line).value in r)
  {
    var f := (line: string) => LineRecord(line, parse, filters, parseDate);
    var r := FilterMap(lines, f);
    assert forall k :: 0 <= k < |r| ==> (Keep(r[k], filters, parseDate)
      && exists line :: line in lines && line != "" && parse(line) == Some(r[k])) by {
      forall k | 0 <= k < |r|
        ensures Keep(r[k], filters, parseDate)
        ensures exists line :: line in lines && line != "" && parse(line) == Some(r[k])
      {
        assert Produced(lines, f, r[k]);
        var i :| 0 <= i < |lines| && f(lines[i]) == Some(r[k]);
        assert lines[i] != "" && parse(lines[i]) == Some(r[k]);
      }
    }
    assert forall line :: (line in lines && line != "" && parse(line).Some?
      && Keep(parse(line).value, filters, parseDate)) ==> parse(line).value in r by {
      forall line | line in lines && line != "" && parse(line).Some? && Keep(parse(line).value, filters, parseDate)
        ensures parse(line).value in r
      {
        var i :| 0 <= i < |lines| && lines[i] == line;
        assert f(lines[i]).Some?;
      }
    }
    FilterMapIsKeep(lines, f, (line: string) => Accepted(line, parse, filters, parseDate));
  }

  /** JavaScript `a < b` on strings: lexicographic by character, a proper
      prefix first. */
  predicate Before(a: string, b: string)
    decreases |a|
  {
    if a == [] then b != []
    else if b == [] then false
    else if a[0] != b[0] then a[0] < b[0]
    else Before(a[1..], b[1..])
  }

  lemma {:induction false} BeforeIrreflexive(a: string)
    ensures !Before(a, a)
    decreases |a|
  {
    if a != [] {
      BeforeIrreflexive(a[1..]);
    }
  }

  lemma {:induction false} BeforeTransitive(a: string, b: string, c: string)
    requires Before(a, b) && Before(b, c)
    ensures Before(a, c)
    decreases |a|
  {
    if a != [] && b != [] && c != [] && a[0] == b[0] && b[0] == c[0] {
      BeforeTransitive(a[1..], b[1..], c[1..]);
    }
  }

  /** Two different strings are ordered one way or the other. */
  lemma {:induction false} BeforeTotal(a: string, b: string)
    requires a != b
    ensures Before(a, b) || Before(b, a)
    decreases |a|
  {
    if a != [] && b != [] && a[0] == b[0] {
      assert a == [a[0]] + a[1..] && b == [b[0]] + b[1..];
      BeforeTotal(a[1..], b[1..]);
    }
  }

  lemma {:induction false} BeforeAsymmetric(a: string, b: string)
    requires Before(a, b)
    ensures !Before(b, a)
  {
    if Before(b, a) {
      BeforeTransitive(a, b, a);
      BeforeIrreflexive(a);
    }
  }

  /** One step of the `firstSeen` update: an unset or empty value is
      replaced, otherwise an earlier timestamp wins. */
  function Earlier(cur: Option<string>, t: string): Option<string> {
    if cur.None? || cur.value == "" || Before(t, cur.value) then Some(t) else cur
  }

  /** One step of the `lastSeen` update. */
  function Later(cur: Option<string>, t: string): Option<string> {
    if cur.None? || cur.value == "" || Before(cur.value, t) then Some(t) else cur
  }

  /** `firstSeen` after the loop over `records`. */
  function FirstSeen(records: seq<UsageRecord>): (r: Option<string>)
    ensures r.None? <==> records == []
    decreases |records|
  {
    if records == [] then None
    else Earlier(FirstSeen(records[..|records| - 1]), records[|records| - 1].timestamp)
  }

  /** `lastSeen` after the loop over `records`. */
  function LastSeen(records: seq<UsageRecord>): (r: Option<string>)
    ensures r.None? <==> records == []
    decreases |records|
  {
    if records == [] then None
    else Later(LastSeen(records[..|records| - 1]), records[|records| - 1].timestamp)
  }

  /** Every record carries a non-empty timestamp. */
  predicate Stamped(records: seq<UsageRecord>) {
    forall k :: 0 <= k < |records| ==> records[k].timestamp != ""
  }

  /** With non-empty timestamps, `firstSeen` is the least of them. */
  lemma {:induction false} FirstSeenIsMinimum(records: seq<UsageRecord>)
    requires Stamped(records) && records != []
    ensures exists k :: 0 <= k < |records| && records[k].timestamp == FirstSeen(records).value
    ensures forall k :: 0 <= k < |records| ==> !Before(records[k].timestamp, FirstSeen(records).value)
    decreases |records|
  {
    var n := |records| - 1;
    var t := records[n].timestamp;
    var init := records[..n];
    var m := FirstSeen(records).value;
    if init == [] {
      BeforeIrreflexive(t);
    } else {
      FirstSeenIsMinimum(init);
      var p := FirstSeen(init).value;
      var j :| 0 <= j < |init| && init[j].timestamp == p;
      assert p != "";
      if Before(t, p) {
        assert m == t;
        BeforeIrreflexive(t);
        forall k | 0 <= k < |records| ensures !Before(records[k].timestamp, m) {
          if k < n {
            assert init[k] == records[k];
            if Before(records[k].timestamp, t) {
              BeforeTransitive(records[k].timestamp, t, p);
            }
          }
        }
      } else {
        assert m == p;
        assert records[j] == init[j];
        forall k | 0 <= k < |records| ensures !Before(records[k].timestamp, m) {
          if k < n {
            assert init[k] == records[k];
          }
        }
      }
    }
  }

  /** With non-empty timestamps, `lastSeen` is the greatest of them. */
  lemma {:induction false} LastSeenIsMaximum(records: seq<UsageRecord>)
    requires Stamped(records) && records != []
    ensures exists k :: 0 <= k < |records| && records[k].timestamp == LastSeen(records).value
    ensures forall k :: 0 <= k < |records| ==> !Before(LastSeen(records).value, records[k].timestamp)
    decreases |records|
  {
    var n := |records| - 1;
    var t := records[n].timestamp;
    var init := records[..n];
    var m := LastSeen(records).value;
    if init == [] {
      BeforeIrreflexive(t);
    } else {
      LastSeenIsMaximum(init);
      var p := LastSeen(init).value;
      var j :| 0 <= j < |init| && init[j].timestamp == p;
      assert p != "";
      if Before(p, t) {
        assert m == t;
        BeforeIrreflexive(t);
        forall k | 0 <= k < |records| ensures !Before(m, records[k].timestamp) {
          if k < n {
            assert init[k] == records[k];
            if Before(t, records[k].timestamp) {
              BeforeTransitive(p, t, records[k].timestamp);
            }
          }
        }
      } else {
        assert m == p;
        assert records[j] == init[j];
        forall k | 0 <= k < |records| ensures !Before(m, records[k].timestamp) {
          if k < n {
            assert init[k] == records[k];
          }
        }
      }
    }
  }

  /** The sum of one numeric field over the records. */
  function Total(records: seq<UsageRecord>, field: UsageRecord -> int): int
    decreases |records|
  {
    if records == [] then 0 else Total(records[..|records| - 1], field) + field(records[|records| - 1])
  }

  /** Totals add up over a split of the log. */
  lemma {:induction false} TotalAppend(a: seq<UsageRecord>, b: seq<UsageRecord>, field: UsageRecord -> int)
    ensures Total(a + b, field) == Total(a, field) + Total(b, field)
    decreases |b|
  {
    if b == [] {
      assert a + b == a;
    } else {
      var bi := b[..|b| - 1];
      assert (a + b)[..|a + b| - 1] == a + bi;
      assert (a + b)[|a + b| - 1] == b[|b| - 1];
      TotalAppend(a, bi, field);
    }
  }

  function OriginalOf(r: UsageRecord): int { r.originalTokens }
  function CompiledOf(r: UsageRecord): int { r.compiledTokens }
  function SavedOf(r: UsageRecord): int { r.savingsTokens }

  /** `summarizeUsage(records, tool, sessionId)`. */
  function SummarizeUsage(records: seq<UsageRecord>, tool: Option<string>, sessionId: Option<string>): (s: UsageSummary)
    ensures s.tool == tool
    ensures s.totalPrompts == |records|
    ensures s.firstSeen.None? <==> records == []
    ensures s.lastSeen.None? <==> records == []
    ensures s.sessionId.Some? <==> sessionId.Some? && sessionId.value != ""
  {
    UsageSummary(
      tool,
      if sessionId.Some? && sessionId.value != "" then sessionId else None,
      |records|,
      Total(records, OriginalOf),
      Total(records, CompiledOf),
      Total(records, SavedOf),
      FirstSeen(records),
      LastSeen(records))
  }

  /** The loop of `summarizeUsage`, which computes the same totals and
      bounds as the field sums and the earliest and latest timestamps. */
  method SummarizeLoop(records: seq<UsageRecord>, tool: Option<string>, sessionId: Option<string>)
    returns (s: UsageSummary)
    ensures s == SummarizeUsage(records, tool, sessionId)
  {
    var original, compiled, saved := 0, 0, 0;
    var first: Option<string> := None;
    var last: Option<string> := None;
    var i := 0;
    while i < |records|
      invariant 0 <= i <= |records|
      invariant original == Total(records[..i], OriginalOf)
      invariant compiled == Total(records[..i], CompiledOf)
      invariant saved == Total(records[..i], SavedOf)
      invariant first == FirstSeen(records[..i])
      invariant last == LastSeen(records[..i])
    {
      assert records[..i + 1][..i] == records[..i];
      var record := records[i];
      original := original + record.originalTokens;
      compiled := compiled + record.compiledTokens;
      saved := saved + record.savingsTokens;
      if first.None? || first.value == "" || Before(record.timestamp, first.value) {
        first := Some(record.timestamp);
      }
      if last.None? || last.value == "" || Before(last.value, record.timestamp) {
        last := Some(record.timestamp);
      }
      i := i + 1;
    }
    assert records[..i] == records;
    s := UsageSummary(tool, if sessionId.Some? && sessionId.value != "" then sessionId else None,
                      |records|, original, compiled, saved, first, last);
  }

  /** A present, non-empty field. */
  predicate Shown(s: Option<string>) {
    s.Some? && s.value != ""
  }

  /** The lines of a non-empty summary; `average` is the rendered
      `averageSavingsPct`. */
  function SummaryLines(s: UsageSummary, average: string): (r: seq<string>)
    ensures |r| == 6 + (if Shown(s.tool) then 1 else 0) + (if Shown(s.sessionId) then 1 else 0)
                    + (if Shown(s.firstSeen) then 1 else 0) + (if Shown(s.lastSeen) then 1 else 0)
    ensures r[0] == "Bebop usage summary"
    ensures Shown(s.tool) ==> r[1] == "Tool: " + s.tool.value
    ensures Shown(s.sessionId) ==> r[if Shown(s.tool) then 2 else 1] == "Session: " + s.sessionId.value
    ensures var o := (if Shown(s.tool) then 1 else 0) + (if Shown(s.sessionId) then 1 else 0);
      && r[o + 1] == "Prompts: " + NatToString(s.totalPrompts)
      && r[o + 2] == "Original tokens: " + IntToString(s.totalOriginalTokens)
      && r[o + 3] == "Compiled tokens: " + IntToString(s.totalCompiledTokens)
      && r[o + 4] == "Tokens saved: " + IntToString(s.totalSavingsTokens)
      && r[o + 5] == "Average savings: " + average + "%"
      && (Shown(s.firstSeen) ==> r[o + 6] == "First: " + s.firstSeen.value)
    ensures Shown(s.lastSeen) ==> r[|r| - 1] == "Last: " + s.lastSeen.value
  {
    SummaryHead(s) + SummaryTotals(s, average) + SummarySeen(s)
  }

  /** The title, then the tool and session when shown. */
  function SummaryHead(s: UsageSummary): seq<string> {
    ["Bebop usage summary"]
      + (if Shown(s.tool) then ["Tool: " + s.tool.value] else [])
      + (if Shown(s.sessionId) then ["Session: " + s.sessionId.value] else [])
  }

  /** The five totals lines. */
  function SummaryTotals(s: UsageSummary, average: string): seq<string> {
    ["Prompts: " + NatToString(s.totalPrompts),
     "Original tokens: " + IntToString(s.totalOriginalTokens),
     "Compiled tokens: " + IntToString(s.totalCompiledTokens),
     "Tokens saved: " + IntToString(s.totalSavingsTokens),
     "Average savings: " + average + "%"]
  }

  /** The first and last timestamps when shown. */
  function SummarySeen(s: UsageSummary): seq<string> {
    (if Shown(s.firstSeen) then ["First: " + s.firstSeen.value] else [])
      + (if Shown(s.lastSeen) then ["Last: " + s.lastSeen.value] else [])
  }

  const NoUsage: string := "No Bebop usage recorded."

  /** `formatSummary(summary)`: the fixed sentence exactly for an empty
      summary, otherwise the summary lines. */
  function FormatSummary(s: UsageSummary, average: string): (r: string)
    ensures r == NoUsage <==> s.totalPrompts == 0
    ensures s.totalPrompts != 0 ==> StartsWith(r, "Bebop usage summary")
    ensures s.totalPrompts != 0 ==> r == Join(SummaryLines(s, average), "\n")
  {
    if s.totalPrompts == 0 then NoUsage
    else
      var lines := SummaryLines(s, average);
      TitledJoin(lines);
      Join(lines, "\n")
  }

  /** Lines opening with the title join to a text that opens with it, and
      so is not the empty-log sentence. */
  lemma TitledJoin(lines: seq<string>)
    requires |lines| >= 1 && lines[0] == "Bebop usage summary"
    ensures StartsWith(Join(lines, "\n"), "Bebop usage summary") && Join(lines, "\n") != NoUsage
  {
    var title := lines[0];
    var r := Join(lines, "\n");
    var rest := if |lines| == 1 then "" else "\n" + Join(lines[1..], "\n");
    assert r == title + rest;
    assert r[..|title|] == title;
    assert r[0] == title[0] == 'B';
  }

  /** A field that would print without a line break. */
  predicate OneLine(f: Option<string>) {
    f.None? || '\n' !in f.value
  }

  /** No line of `lines` holds a line break. */
  predicate NoBreaks(lines: seq<string>) {
    forall k :: 0 <= k < |lines| ==> '\n' !in lines[k]
  }

  /** Splitting a summary at its line breaks gives its lines back, when no
      field it prints holds a line break. */
  lemma SummaryReadsBack(s: UsageSummary, average: string)
    requires s.totalPrompts != 0
    requires OneLine(s.tool) && OneLine(s.sessionId) && OneLine(s.firstSeen) && OneLine(s.lastSeen)
    requires '\n' !in average
    ensures Split(FormatSummary(s, average), '\n') == SummaryLines(s, average)
  {
    var head, totals, seen := SummaryHead(s), SummaryTotals(s, average), SummarySeen(s);
    var lines := SummaryLines(s, average);
    HeadNoBreaks(s);
    TotalsNoBreaks(s, average);
    SeenNoBreaks(s);
    NoBreaksConcat(head, totals);
    NoBreaksConcat(head + totals, seen);
    assert NoBreaks(lines);
    SplitJoin(lines, '\n');
    assert FormatSummary(s, average) == Join(lines, "\n");
  }

  lemma NoBreaksConcat(a: seq<string>, b: seq<string>)
    requires NoBreaks(a) && NoBreaks(b)
    ensures NoBreaks(a + b)
  {
    forall k | 0 <= k < |a + b| ensures '\n' !in (a + b)[k] {
      if k >= |a| { assert (a + b)[k] == b[k - |a|]; }
    }
  }

  lemma HeadNoBreaks(s: UsageSummary)
    requires OneLine(s.tool) && OneLine(s.sessionId)
    ensures NoBreaks(SummaryHead(s))
  {
    var a := ["Bebop usage summary"];
    var b := if Shown(s.tool) then ["Tool: " + s.tool.value] else [];
    var c := if Shown(s.sessionId) then ["Session: " + s.sessionId.value] else [];
    NoBreaksConcat(a, b);
    NoBreaksConcat(a + b, c);
  }

  lemma TotalsNoBreaks(s: UsageSummary, average: string)
    requires '\n' !in average
    ensures NoBreaks(SummaryTotals(s, average))
  {
    NoNewlineInNumber(s.totalPrompts);
    NoNewlineInNumber(s.totalOriginalTokens);
    NoNewlineInNumber(s.totalCompiledTokens);
    NoNewlineInNumber(s.totalSavingsTokens);
    assert IntToString(s.totalPrompts) == NatToString(s.totalPrompts);
  }

  lemma SeenNoBreaks(s: UsageSummary)
    requires OneLine(s.firstSeen) && OneLine(s.lastSeen)
    ensures NoBreaks(SummarySeen(s))
  {
    var a := if Shown(s.firstSeen) then ["First: " + s.firstSeen.value] else [];
    var b := if Shown(s.lastSeen) then ["Last: " + s.lastSeen.value] else [];
    NoBreaksConcat(a, b);
  }

  /** The session state file: tool name to its open session. */
  type SessionState = map<string, SessionInfo>

  /** `getActiveSession(tool)`. */
  function ActiveSession(state: SessionState, tool: string): (r: Option<SessionInfo>)
    ensures r.Some? <==> tool in state
  {
    if tool in state then Some(state[tool]) else None
  }

  /** `startSession(tool)` given the fresh session (its id comes from the
      clock and a random number). */
  function StartSession(state: SessionState, tool: string, info: SessionInfo): (r: SessionState)
    ensures ActiveSession(r, tool) == Some(info)
    ensures forall t :: t != tool ==> ActiveSession(r, t) == ActiveSession(state, t)
  {
    state[tool := info]
  }

  datatype EndResult = EndResult(summary: Option<UsageSummary>, session: Option<SessionInfo>, state: SessionState)

  /** `endSession(tool)`: with no open session nothing changes; otherwise
      the session's records are summarised and the session is closed. */
  function EndSession(state: SessionState, tool: string, log: Option<string>, parse: RecordParser, parseDate: DateParser)
    : (r: EndResult)
    ensures r.session == ActiveSession(state, tool)
    ensures r.summary.Some? <==> r.session.Some?
    ensures r.session.None? ==> r.state == state
    ensures tool !in r.state
    ensures forall t :: t != tool ==> ActiveSession(r.state, t) == ActiveSession(state, t)
  {
    match ActiveSession(state, tool)
    case None => EndResult(None, None, state)
    case Some(session) =>
      var records := ReadUsageRecords(log, parse, UsageFilters(Some(tool), Id(session.id), None), parseDate);
      EndResult(Some(SummarizeUsage(records, Some(tool), Some(session.id))), Some(session), state - {tool})
  }

  /** Ending a session just started reports it, counts only its own records
      and leaves the other tools' sessions as they were. */
  lemma EndAfterStart(state: SessionState, tool: string, info: SessionInfo, log: Option<string>,
                      parse: RecordParser, parseDate: DateParser)
    requires tool != ""
    ensures var r := EndSession(StartSession(state, tool, info), tool, log, parse, parseDate);
      && r.session == Some(info)
      && r.state == state - {tool}
      && r.summary.value.totalPrompts
         == |ReadUsageRecords(log, parse, UsageFilters(Some(tool), Id(info.id), None), parseDate)|
      && forall k :: 0 <= k < |ReadUsageRecords(log, parse, UsageFilters(Some(tool), Id(info.id), None), parseDate)| ==>
           var rec := ReadUsageRecords(log, parse, UsageFilters(Some(tool), Id(info.id), None), parseDate)[k];
           rec.tool == tool && rec.sessionId == Id(info.id)
  {
    assert StartSession(state, tool, info) - {tool} == state - {tool};
  }
}
