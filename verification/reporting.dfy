/** `reporter(results, options)`: the input guard, the log it writes (as plain
    structured lines, without colours), and the choice between returning the
    results and throwing the failure. The earlier and the current variant have
    the same reporter. */
module Reporting {
  import opened Wrappers
  import Js
  import Text
  import Messages
  import Seqs
  import Settings
  import Response

  datatype ReporterSettings = ReporterSettings(
    continueOnFail: bool,
    maxMessageLen: Option<int>,
    quiet: bool,
    title: Option<string>)

  /** What reaches `reporter`: a record with a boolean verdict, a plain object
      without one, an array of primitive values, or a primitive value. */
  datatype ReporterInput =
    | Checked(results: Response.Results)
    | PlainObject
    | ArrayOf(items: seq<Js.Value>)
    | Primitive(value: Js.Value)

  /** One call of the logger. */
  datatype LogLine =
    | Header(passed: bool, title: string, count: string)
    | MessageLine(tag: string, text: string)
    | LocationLine(location: string, lineText: Option<string>)

  datatype Outcome = Returned(results: Response.Results) | Thrown(message: string)

  datatype Report = Report(log: seq<LogLine>, outcome: Outcome)

  const InvalidResultsPrefix := "[w3c-html-validator] Invalid results for reporter(): "
  const FailedPrefix := "[w3c-html-validator] Failed: "

  /** `${results}` for what reached the reporter: a plain object prints as
      `[object Object]`, an array as its elements joined by commas (with
      `null` and `undefined` printing as nothing), a primitive as `String(v)`. */
  function Describe(input: ReporterInput): (r: string)
    ensures input.Primitive? ==> r == Js.ToString(input.value)
    ensures input.PlainObject? ==> r == "[object Object]"
    ensures input.ArrayOf? && |input.items| == 0 ==> r == ""
    ensures input.ArrayOf? && |input.items| == 1 ==> r == Js.JoinText(input.items[0])
  {
    match input
    case Primitive(v) => Js.ToString(v)
    case ArrayOf(items) => Text.Join(seq(|items|, i requires 0 <= i < |items| => Js.JoinText(items[i])), ",")
    case _ => "[object Object]"
  }

  /** A location line is written only for a message whose `lastLine` is truthy. */
  predicate HasLocation(m: Messages.Msg) {
    m.lastLine.Some? && m.lastLine.value != 0
  }

  function Position(p: Option<int>): string {
    Js.ToString(Js.FromOptionalInt(p))
  }

  function EscapeExtract(extract: Option<string>): Option<string> {
    match extract
    case Some(e) => Some(Text.EscapeNewlines(e))
    case None => None
  }

  /** `logMessage(message)`: the label and the (possibly truncated) text, then
      the location line when there is a location. */
  function MessageLines(m: Messages.Msg, maxLen: Option<int>): seq<LogLine> {
    [MessageLine("HTML " + Messages.Label(m) + ":", Text.Substring0(m.message, maxLen))] +
    (if HasLocation(m)
     then [LocationLineOf(m)]
     else [])
  }

  function LocationLineOf(m: Messages.Msg): LogLine {
    LocationLine("line " + Position(m.lastLine) + ", column " + Position(m.firstColumn) + ":", EscapeExtract(m.extract))
  }

  /** `messages.forEach(logMessage)`. */
  function MessageLog(ms: seq<Messages.Msg>, maxLen: Option<int>): seq<LogLine>
    decreases |ms|
  {
    if |ms| == 0 then [] else MessageLines(ms[0], maxLen) + MessageLog(ms[1..], maxLen)
  }

  /** The status line, left out for a passing result in quiet mode. */
  function HeaderLines(results: Response.Results, settings: ReporterSettings): seq<LogLine> {
    var count := if results.validates then "" else "(messages: " + Text.NatToString(|results.messages.GetOr([])|) + ")";
    if !results.validates || !settings.quiet
    then [Header(results.validates, settings.title.GetOr(results.title), count)]
    else []
  }

  /** One entry of the failure details: `<subType ?? type> line L column C`. */
  function DetailEntry(m: Messages.Msg): string {
    Messages.Label(m) + " line " + Position(m.lastLine) + " column " + Position(m.firstColumn)
  }

  function Entries(ms: seq<Messages.Msg>): (entries: seq<string>)
    ensures |entries| == |ms|
    ensures forall i :: 0 <= i < |ms| ==> entries[i] == DetailEntry(ms[i])
  {
    seq(|ms|, i requires 0 <= i < |ms| => DetailEntry(ms[i]))
  }

  /** The failure details are defined: there is a message list, and either a
      file name or a first message to quote. Otherwise the source dereferences
      `null` or `undefined`. */
  predicate DetailsDefined(results: Response.Results) {
    results.messages.Some? && (Settings.Present(results.filename) || |results.messages.value| > 0)
  }

  /** `failDetails()`: the first message's text without a file name, otherwise
      the file name, " -- " and the entries joined by ", ". */
  function FailDetails(results: Response.Results): string
    requires DetailsDefined(results)
  {
    if !Settings.Present(results.filename) then results.messages.value[0].message
    else results.filename.value + " -- " + Text.Join(Entries(results.messages.value), ", ")
  }

  /** `reporter(results, settings)`. */
  function Reporter(input: ReporterInput, settings: ReporterSettings): (rep: Report)
    requires input.Checked? && !input.results.validates && !settings.continueOnFail ==> DetailsDefined(input.results)
    ensures !input.Checked? ==> rep == Report([], Thrown(InvalidResultsPrefix + Describe(input)))
    ensures input.Checked? && (input.results.validates || settings.continueOnFail) ==>
              rep.outcome == Returned(input.results)
    ensures input.Checked? && !input.results.validates && !settings.continueOnFail ==>
              rep.outcome == Thrown(FailedPrefix + FailDetails(input.results))
    ensures input.Checked? ==>
              ((|rep.log| > 0 && rep.log[0].Header?) <==> !(input.results.validates && settings.quiet))
    ensures input.Checked? ==>
              rep.log == HeaderLines(input.results, settings) +
                         MessageLog(input.results.messages.GetOr([]), settings.maxMessageLen)
  {
    match input
    case Checked(results) =>
      var log := HeaderLines(results, settings) + MessageLog(results.messages.GetOr([]), settings.maxMessageLen);
      assert |MessageLog(results.messages.GetOr([]), settings.maxMessageLen)| > 0 ==>
               !MessageLog(results.messages.GetOr([]), settings.maxMessageLen)[0].Header?;
      if !settings.continueOnFail && !results.validates
      then Report(log, Thrown(FailedPrefix + FailDetails(results)))
      else Report(log, Returned(results))
    case _ => Report([], Thrown(InvalidResultsPrefix + Describe(input)))
  }

  /** An empty array is rejected with nothing after the prefix, and nothing is logged. */
  lemma EmptyArrayRejected(settings: ReporterSettings)
    ensures Reporter(ArrayOf([]), settings) == Report([], Thrown(InvalidResultsPrefix))
  {
    assert Describe(ArrayOf([])) == "";
    assert InvalidResultsPrefix + "" == InvalidResultsPrefix;
  }

  // ---------------------------------------------------------------------------
  // Properties of the log and of the failure details

  function OnlyMessageLines(log: seq<LogLine>): seq<LogLine>
    decreases |log|
  {
    if |log| == 0 then [] else (if log[0].MessageLine? then [log[0]] else []) + OnlyMessageLines(log[1..])
  }

  function OnlyLocationLines(log: seq<LogLine>): seq<LogLine>
    decreases |log|
  {
    if |log| == 0 then [] else (if log[0].LocationLine? then [log[0]] else []) + OnlyLocationLines(log[1..])
  }

  lemma {:induction false} OnlyMessageLinesAppend(a: seq<LogLine>, b: seq<LogLine>)
    ensures OnlyMessageLines(a + b) == OnlyMessageLines(a) + OnlyMessageLines(b)
    decreases |a|
  {
    if |a| > 0 {
      assert (a + b)[1..] == a[1..] + b;
      OnlyMessageLinesAppend(a[1..], b);
    } else {
      assert a + b == b;
    }
  }

  lemma {:induction false} OnlyLocationLinesAppend(a: seq<LogLine>, b: seq<LogLine>)
    ensures OnlyLocationLines(a + b) == OnlyLocationLines(a) + OnlyLocationLines(b)
    decreases |a|
  {
    if |a| > 0 {
      assert (a + b)[1..] == a[1..] + b;
      OnlyLocationLinesAppend(a[1..], b);
    } else {
      assert a + b == b;
    }
  }

  /** One message contributes exactly one message line, and a location line
      exactly when it has a location. */
  lemma MessageLinesParts(m: Messages.Msg, maxLen: Option<int>)
    ensures OnlyMessageLines(MessageLines(m, maxLen)) == [MessageLines(m, maxLen)[0]]
    ensures OnlyLocationLines(MessageLines(m, maxLen)) == (if HasLocation(m) then [LocationLineOf(m)] else [])
  {
    var lines := MessageLines(m, maxLen);
    assert lines[0].MessageLine?;
    if HasLocation(m) {
      assert lines == [lines[0], LocationLineOf(m)];
      assert lines[1..] == [LocationLineOf(m)];
      assert lines[1..][1..] == [];
      assert OnlyMessageLines(lines[1..]) == [];
      assert OnlyMessageLines(lines) == [lines[0]] + OnlyMessageLines(lines[1..]);
      assert OnlyLocationLines(lines[1..]) == [LocationLineOf(m)] + OnlyLocationLines(lines[1..][1..]);
      assert OnlyLocationLines(lines) == OnlyLocationLines(lines[1..]);
    } else {
      assert lines[1..] == [];
    }
  }

  /** The message lines of the log are one per message, in message order, each
      labelled `subType ?? type` and carrying the text cut to `maxMessageLen`. */
  lemma {:induction false} MessageLinesInOrder(ms: seq<Messages.Msg>, maxLen: Option<int>)
    ensures OnlyMessageLines(MessageLog(ms, maxLen)) ==
            seq(|ms|, i requires 0 <= i < |ms| =>
                  MessageLine("HTML " + Messages.Label(ms[i]) + ":", Text.Substring0(ms[i].message, maxLen)))
    decreases |ms|
  {
    if |ms| > 0 {
      MessageLinesInOrder(ms[1..], maxLen);
      OnlyMessageLinesAppend(MessageLines(ms[0], maxLen), MessageLog(ms[1..], maxLen));
      MessageLinesParts(ms[0], maxLen);
    }
  }

  /** Messages that have a location, in order. */
  function Located(ms: seq<Messages.Msg>): (located: seq<Messages.Msg>)
    ensures Seqs.IsSubsequence(located, ms)
    ensures forall m :: m in located <==> m in ms && HasLocation(m)
    ensures forall m :: multiset(located)[m] == (if HasLocation(m) then multiset(ms)[m] else 0)
    decreases |ms|
  {
    if |ms| == 0 then []
    else
      var rest := Located(ms[1..]);
      assert forall m :: m in ms <==> m == ms[0] || m in ms[1..];
      assert ms == [ms[0]] + ms[1..];
      if HasLocation(ms[0]) then [ms[0]] + rest else rest
  }

  function LocationLinesOf(ms: seq<Messages.Msg>): seq<LogLine>
    decreases |ms|
  {
    if |ms| == 0 then [] else [LocationLineOf(ms[0])] + LocationLinesOf(ms[1..])
  }

  /** The location lines of the log belong, in order, to exactly the messages
      with a non-zero `lastLine`, and carry the extract with line breaks escaped. */
  lemma {:induction false} LocationLinesInOrder(ms: seq<Messages.Msg>, maxLen: Option<int>)
    ensures OnlyLocationLines(MessageLog(ms, maxLen)) == LocationLinesOf(Located(ms))
    decreases |ms|
  {
    if |ms| > 0 {
      LocationLinesInOrder(ms[1..], maxLen);
      OnlyLocationLinesAppend(MessageLines(ms[0], maxLen), MessageLog(ms[1..], maxLen));
      MessageLinesParts(ms[0], maxLen);
      if HasLocation(ms[0]) {
        var located := Located(ms);
        assert located == [ms[0]] + Located(ms[1..]);
        assert located[1..] == Located(ms[1..]);
      }
    }
  }

  /** No entry of the failure details contains a comma: labels are fixed words
      and positions are numerals or "undefined". */
  lemma NoCommaInEntry(m: Messages.Msg)
    ensures ',' !in DetailEntry(m)
  {
    NoCommaInPosition(m.lastLine);
    NoCommaInPosition(m.firstColumn);
    var name := Messages.Label(m);
    assert ',' !in name;
  }

  lemma NoCommaInPosition(p: Option<int>)
    ensures ',' !in Position(p)
  {
    if p.Some? {
      var s := Position(p);
      assert Text.IsDecimal(s);
      if s[0] == '-' {
        assert s == [s[0]] + s[1..];
      }
    }
  }

  /** With a file name, the failure details are the file name and " -- "
      followed by one entry per message, in order: cutting the list at its
      commas gives back the entries. */
  lemma FailDetailsEntries(results: Response.Results)
    requires results.messages.Some? && |results.messages.value| > 0
    requires Settings.Present(results.filename)
    ensures var ms := results.messages.value;
            var list := FailDetails(results)[|results.filename.value| + 4..];
            && FailDetails(results)[..|results.filename.value| + 4] == results.filename.value + " -- "
            && Text.Split(list, ',') ==
               [DetailEntry(ms[0])] + seq(|ms| - 1, i requires 0 <= i < |ms| - 1 => " " + DetailEntry(ms[i + 1]))
  {
    var ms := results.messages.value;
    var entries := Entries(ms);
    forall i | 0 <= i < |entries|
      ensures ',' !in entries[i]
    {
      NoCommaInEntry(ms[i]);
    }
    Text.SplitJoin(entries, ',', " ");
    var head := results.filename.value + " -- ";
    assert ", " == [','] + " ";
    assert FailDetails(results) == head + Text.Join(entries, [','] + " ");
    assert |head| == |results.filename.value| + 4;
  }

  /** A failing result with a single message, reported without
      `continueOnFail`: the error quotes that message, or names the file and
      its one entry; the log is the header then that message's lines. */
  lemma ReportSingleFailure(results: Response.Results, m: Messages.Msg, settings: ReporterSettings)
    requires results.messages == Some([m]) && !results.validates && !settings.continueOnFail
    ensures var rep := Reporter(Checked(results), settings);
            && rep.outcome == Thrown(FailedPrefix +
                 (if Settings.Present(results.filename) then results.filename.value + " -- " + DetailEntry(m) else m.message))
            && rep.log == [Header(false, settings.title.GetOr(results.title), "(messages: 1)")] + MessageLines(m, settings.maxMessageLen)
  {
    assert Entries([m]) == [DetailEntry(m)];
    assert MessageLog([m], settings.maxMessageLen) == MessageLines(m, settings.maxMessageLen) + MessageLog([], settings.maxMessageLen);
    assert Text.NatToString(1) == "1";
    assert "(messages: " + Text.NatToString(|[m]|) + ")" == "(messages: 1)";
    assert HeaderLines(results, settings) == [Header(false, settings.title.GetOr(results.title), "(messages: 1)")];
    assert MessageLog([], settings.maxMessageLen) == [];
  }

  /** The entry of a synthetic network error, which has no position. */
  lemma NetworkErrorEntry(text: string)
    ensures DetailEntry(Response.NetworkErrorMessage(text)) == "network-error line undefined column undefined"
  {
  }

  /** The failure text for a file with a warning on line 9 and an error on
      line 12, assembled from the pieces the test suite expects in one string. */
  lemma FailDetailsExample(results: Response.Results, warning: Messages.Msg, error: Messages.Msg)
    requires results.filename == Some("spec/html/invalid.html")
    requires warning.msgType == Messages.Info && warning.subType == Some(Messages.Warning)
    requires warning.lastLine == Some(9) && warning.firstColumn == Some(4)
    requires error.msgType == Messages.Error && error.subType.None?
    requires error.lastLine == Some(12) && error.firstColumn == Some(10)
    requires results.messages == Some([warning, error])
    ensures FailDetails(results) ==
            "spec/html/invalid.html" + " -- " + "warning line 9 column 4" + ", " + "error line 12 column 10"
  {
    DetailEntryExample(warning, "warning", 9, 4);
    DetailEntryExample(error, "error", 12, 10);
    assert Text.NatToString(9) == "9";
    assert Text.NatToString(4) == "4";
    assert Text.NatToString(1) == "1";
    assert Text.NatToString(12) == "12";
    assert Text.NatToString(10) == "10";
    assert DetailEntry(warning) == "warning line 9 column 4";
    assert DetailEntry(error) == "error line 12 column 10";
    var entries := Entries([warning, error]);
    assert entries[1..] == [entries[1]];
    assert Text.Join(entries[1..], ", ") == entries[1];
    assert Text.Join(entries, ", ") == "warning line 9 column 4" + ", " + "error line 12 column 10";
  }

  lemma DetailEntryExample(m: Messages.Msg, name: string, line: nat, column: nat)
    requires Messages.Label(m) == name && m.lastLine == Some(line) && m.firstColumn == Some(column)
    ensures DetailEntry(m) == name + " line " + Text.NatToString(line) + " column " + Text.NatToString(column)
  {
  }
}
