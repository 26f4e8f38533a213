/** Validation messages and the filter that suppresses unwanted ones, by
    severity level and by ignore pattern. */
module Messages {
  import opened Wrappers
  import Seqs
  import Text

  datatype MsgType = Info | Error | NonDocumentError | NetworkError
  datatype SubType = Warning | Fatal | Io | Schema | Internal

  /** One message of the checker. Positions are missing on synthetic network errors. */
  datatype Msg = Msg(
    msgType: MsgType,
    subType: Option<SubType>,
    message: string,
    extract: Option<string>,
    lastLine: Option<int>,
    firstColumn: Option<int>,
    lastColumn: Option<int>,
    hiliteStart: Option<int>,
    hiliteLength: Option<int>)

  function TypeName(t: MsgType): string {
    match t
    case Info => "info"
    case Error => "error"
    case NonDocumentError => "non-document-error"
    case NetworkError => "network-error"
  }

  function SubTypeName(s: SubType): string {
    match s
    case Warning => "warning"
    case Fatal => "fatal"
    case Io => "io"
    case Schema => "schema"
    case Internal => "internal"
  }

  /** `message.subType ?? message.type`, the label the reporter prints. */
  function Label(m: Msg): string {
    match m.subType
    case Some(s) => SubTypeName(s)
    case None => TypeName(m.msgType)
  }

  /** The severity threshold: `null`, `'info'` or `'warning'`. */
  datatype Level = NoLevel | InfoLevel | WarningLevel

  /** An ignore pattern: a string matched as a substring, or a regular
      expression. `source` stands for the whole regular expression as written,
      flags included, so `/x/i` and `/x/` are different patterns. */
  datatype Pattern = Literal(text: string) | Regex(source: string)

  /** The semantics of `RegExp.prototype.test`, given from outside: (the whole
      regular expression, text) to verdict. */
  type RegexTest = (string, string) -> bool

  /** The built-in opinionated ignore list that `defaultRules` switches on. */
  const DefaultIgnoreList: seq<Pattern> := [Literal("Section lacks heading.")]

  /** The patterns in force: the caller's list, then the built-in list when enabled. */
  function EffectiveIgnoreList(ignoreMessages: seq<Pattern>, defaultRules: bool): (list: seq<Pattern>)
    ensures forall p :: p in list <==> p in ignoreMessages || (defaultRules && p in DefaultIgnoreList)
  {
    ignoreMessages + (if defaultRules then DefaultIgnoreList else [])
  }

  /** The message survives the severity threshold. */
  predicate AboveIgnoreLevel(level: Level, m: Msg) {
    level == NoLevel || m.msgType != Info || (level == InfoLevel && m.subType.Some?)
  }

  /** One pattern matched against a message text. */
  predicate Tester(test: RegexTest, text: string, pattern: Pattern) {
    match pattern
    case Literal(s) => Text.Includes(text, s)
    case Regex(r) => test(r, text)
  }

  /** `ignoreList.some(tester(text))`, scanning the list from the front. */
  predicate SkipMatchFound(test: RegexTest, ignoreList: seq<Pattern>, text: string)
    decreases |ignoreList|
  {
    |ignoreList| > 0 && (Tester(test, text, ignoreList[0]) || SkipMatchFound(test, ignoreList[1..], text))
  }

  predicate IsImportant(test: RegexTest, level: Level, ignoreList: seq<Pattern>, m: Msg) {
    AboveIgnoreLevel(level, m) && !SkipMatchFound(test, ignoreList, m.message)
  }

  /** `messages.filter(isImportant)`. */
  function FilterImportant(test: RegexTest, level: Level, ignoreList: seq<Pattern>, messages: seq<Msg>): (kept: seq<Msg>)
    ensures Seqs.IsSubsequence(kept, messages)
    ensures forall m :: m in kept <==> m in messages && IsImportant(test, level, ignoreList, m)
    ensures forall m :: multiset(kept)[m] == (if IsImportant(test, level, ignoreList, m) then multiset(messages)[m] else 0)
    decreases |messages|
  {
    if |messages| == 0 then []
    else
      var rest := FilterImportant(test, level, ignoreList, messages[1..]);
      assert forall m :: m in messages <==> m == messages[0] || m in messages[1..];
      assert messages == [messages[0]] + messages[1..];
      if IsImportant(test, level, ignoreList, messages[0]) then [messages[0]] + rest else rest
  }

  /** `body.messages?.filter(isImportant) ?? []`: a missing list is treated as
      an empty one, so what is kept is always drawn from `messages ?? []`. */
  function FilterBody(test: RegexTest, level: Level, ignoreList: seq<Pattern>, messages: Option<seq<Msg>>): (kept: seq<Msg>)
    ensures Seqs.IsSubsequence(kept, messages.GetOr([]))
    ensures forall m :: m in kept <==> m in messages.GetOr([]) && IsImportant(test, level, ignoreList, m)
    ensures forall m :: multiset(kept)[m] == (if IsImportant(test, level, ignoreList, m) then multiset(messages.GetOr([]))[m] else 0)
  {
    match messages
    case None => []
    case Some(ms) => FilterImportant(test, level, ignoreList, ms)
  }

  // ---------------------------------------------------------------------------
  // Properties of the filter

  /** The severity rule in words: only `info` messages are ever suppressed by
      level; a plain info message goes at either threshold, a warning (an info
      message with a sub-type) only at `'warning'`. */
  lemma SeverityRule(level: Level, m: Msg)
    ensures m.msgType != Info ==> AboveIgnoreLevel(level, m)
    ensures m.msgType == Info && m.subType.None? ==> (!AboveIgnoreLevel(level, m) <==> level in {InfoLevel, WarningLevel})
    ensures m.msgType == Info && m.subType.Some? ==> (!AboveIgnoreLevel(level, m) <==> level == WarningLevel)
  {
  }

  /** The front-to-back scan agrees with "some pattern of the list matches". */
  lemma {:induction false} SkipMatchFoundIff(test: RegexTest, ignoreList: seq<Pattern>, text: string)
    ensures SkipMatchFound(test, ignoreList, text) <==> exists p :: p in ignoreList && Tester(test, text, p)
    decreases |ignoreList|
  {
    if |ignoreList| > 0 {
      SkipMatchFoundIff(test, ignoreList[1..], text);
      assert forall p :: p in ignoreList <==> p == ignoreList[0] || p in ignoreList[1..];
    }
  }

  /** Only the set of patterns matters: reordering or repeating them changes nothing. */
  lemma PatternOrderIrrelevant(test: RegexTest, list1: seq<Pattern>, list2: seq<Pattern>, text: string)
    requires forall p :: p in list1 <==> p in list2
    ensures SkipMatchFound(test, list1, text) == SkipMatchFound(test, list2, text)
  {
    SkipMatchFoundIff(test, list1, text);
    SkipMatchFoundIff(test, list2, text);
  }

  /** Hence the filter gives the same kept list for any two lists with the same patterns. */
  lemma {:induction false} FilterIgnoresPatternOrder(
    test: RegexTest, level: Level, list1: seq<Pattern>, list2: seq<Pattern>, messages: seq<Msg>)
    requires forall p :: p in list1 <==> p in list2
    ensures FilterImportant(test, level, list1, messages) == FilterImportant(test, level, list2, messages)
    decreases |messages|
  {
    if |messages| > 0 {
      PatternOrderIrrelevant(test, list1, list2, messages[0].message);
      FilterIgnoresPatternOrder(test, level, list1, list2, messages[1..]);
    }
  }

  /** A literal pattern suppresses exactly the messages whose text contains it. */
  lemma LiteralPatternSuppresses(test: RegexTest, level: Level, s: string, m: Msg)
    ensures IsImportant(test, level, [Literal(s)], m) <==> AboveIgnoreLevel(level, m) && !Text.Includes(m.message, s)
  {
    var list := [Literal(s)];
    assert list[0] == Literal(s) && list[1..] == [];
    assert !SkipMatchFound(test, list[1..], m.message);
    assert SkipMatchFound(test, list, m.message) <==> Tester(test, m.message, list[0]);
  }

  /** With the default rules on, a message whose text contains "Section lacks
      heading." never survives, whatever else the caller configured. */
  lemma DefaultRulesDropSectionHeading(
    test: RegexTest, level: Level, ignoreMessages: seq<Pattern>, messages: seq<Msg>, m: Msg)
    requires Text.Includes(m.message, "Section lacks heading.")
    ensures m !in FilterImportant(test, level, EffectiveIgnoreList(ignoreMessages, true), messages)
  {
    var list := EffectiveIgnoreList(ignoreMessages, true);
    assert Literal("Section lacks heading.") in list;
    SkipMatchFoundIff(test, list, m.message);
  }

  /** Raising the threshold to `'warning'` keeps an order-preserving part of
      what no threshold keeps, and strictly less as soon as a warning that no
      pattern matches is present. */
  lemma {:induction false} WarningLevelKeepsLess(
    test: RegexTest, ignoreList: seq<Pattern>, messages: seq<Msg>)
    ensures Seqs.IsSubsequence(FilterImportant(test, WarningLevel, ignoreList, messages),
                               FilterImportant(test, NoLevel, ignoreList, messages))
    ensures (exists m :: m in messages && m.msgType == Info && m.subType.Some? && !SkipMatchFound(test, ignoreList, m.message)) ==>
            |FilterImportant(test, WarningLevel, ignoreList, messages)| < |FilterImportant(test, NoLevel, ignoreList, messages)|
    decreases |messages|
  {
    if |messages| > 0 {
      var m0 := messages[0];
      var tail := messages[1..];
      WarningLevelKeepsLess(test, ignoreList, tail);
      var w := FilterImportant(test, WarningLevel, ignoreList, tail);
      var n := FilterImportant(test, NoLevel, ignoreList, tail);
      Seqs.SubsequenceElements(w, n);
      assert forall m :: m in messages <==> m == m0 || m in tail;
      if IsImportant(test, WarningLevel, ignoreList, m0) {
        assert ([m0] + w)[1..] == w;
        assert ([m0] + n)[1..] == n;
      } else if IsImportant(test, NoLevel, ignoreList, m0) {
        assert ([m0] + n)[1..] == n;
      }
    }
  }

  /** Against `'info'`, the `'warning'` threshold additionally drops the info
      messages with a sub-type: it keeps an order-preserving part of what
      `'info'` keeps, and strictly less exactly when such a message matches no
      pattern. */
  lemma {:induction false} WarningKeepsLessThanInfo(
    test: RegexTest, ignoreList: seq<Pattern>, messages: seq<Msg>)
    ensures Seqs.IsSubsequence(FilterImportant(test, WarningLevel, ignoreList, messages),
                               FilterImportant(test, InfoLevel, ignoreList, messages))
    ensures (exists m :: m in messages && m.msgType == Info && m.subType.Some? && !SkipMatchFound(test, ignoreList, m.message)) <==>
            |FilterImportant(test, WarningLevel, ignoreList, messages)| < |FilterImportant(test, InfoLevel, ignoreList, messages)|
    decreases |messages|
  {
    if |messages| > 0 {
      var m0 := messages[0];
      var tail := messages[1..];
      WarningKeepsLessThanInfo(test, ignoreList, tail);
      var w := FilterImportant(test, WarningLevel, ignoreList, tail);
      var n := FilterImportant(test, InfoLevel, ignoreList, tail);
      Seqs.SubsequenceElements(w, n);
      assert forall m :: m in messages <==> m == m0 || m in tail;
      if IsImportant(test, WarningLevel, ignoreList, m0) {
        assert ([m0] + w)[1..] == w;
        assert ([m0] + n)[1..] == n;
      } else if IsImportant(test, InfoLevel, ignoreList, m0) {
        assert ([m0] + n)[1..] == n;
      }
    }
  }
}
