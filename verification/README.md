# w3c-html-validator: request/response normalisation, in Dafny

This project models the core of `w3cHtmlValidator`, a client of the W3C Nu
Markup Checker. Its `validate` call resolves the caller's options and
describes the request it would send. It filters the checker's messages by
severity and by ignore pattern. It then folds a success reply, an HTML page
or a transport failure into one result record. Its `reporter` call logs that
record and either returns it or throws the failure.

Two variants are modelled. The current one is `src/w3c-html-validator.ts`.
It adds the built-in ignore list (`defaultRules`) and the dry run. The
earlier one is the root `w3c-html-validator.ts`. The two share every piece
that is written the same in both files. Lemmas in `Legacy` relate the
variants.

The model is purely functional. The outside world enters as parameters:
- The HTTP transport is a function from the described request
  (`Request.RequestSpec`) to a `Response.Transport`. That value is either a
  reply or a failure.
- The file system is a map from path to contents.
- Regular-expression matching is a function `(source, text) -> bool`.

Strings are `seq<char>`, and a Dafny `char` is one Unicode code point
(a scalar value). So `|s|` counts code points, while JavaScript's `s.length`
counts UTF-16 code units. The two agree for text inside the Basic
Multilingual Plane. "## Left out" lists where the difference shows.

Modules:
- `Wrappers`: `Option` and `Result`.
- `Seqs`: order-preserving sub-sequences.
- `Text`: `includes`, decimal rendering with its parser, `join` with a
  splitting inverse, slash normalisation, carriage-return stripping, newline
  escaping and `substring(0, n)`.
- `Js`: the primitive values that reach the checks, with `String(v)`.
- `Messages`: messages, patterns and the filter.
- `Settings`: merging, the three checks, mode, payload and title.
- `Request`: the request description.
- `Response`: the transport outcome, the result record and normalisation.
- `Validator`: the current `validate`.
- `Legacy`: the earlier `validate`.
- `Reporting`: `reporter`, shared by both variants.

### Behaviour worth knowing

- A result can carry more than one input. Filename mode also sets `html` to
  the file contents (src/w3c-html-validator.ts:92,130). `website` is kept
  whenever it is a non-empty string (src/w3c-html-validator.ts:132). See
  `Validator.ModeAndTitle`.
- With HTML output, a failed request does not always fail validation. The
  verdict is whether the error response's text contains the success marker
  (src/w3c-html-validator.ts:127,136,146; `Response.Normalize`).
- A dry run still resolves the payload and reads the file, which can throw
  (src/w3c-html-validator.ts:91-92). It also prepares the request
  (src/w3c-html-validator.ts:93-101). Only the sending is replaced by the
  stub reply (src/w3c-html-validator.ts:155). See `Validator.Plan` and
  `Validator.DryRunBypassesNetwork`.
- The three inputs are treated inconsistently:
  - the missing-input check tests them by truthiness
    (src/w3c-html-validator.ts:82);
  - the payload uses `??` (src/w3c-html-validator.ts:92);
  - the request method tests the payload's truthiness
    (src/w3c-html-validator.ts:98).

  So `html: ""` beside a `filename` selects filename mode, never reads the
  file and prepares a GET (`Validator.EmptyHtmlWithFilename`).
- Any threshold drops plain info messages (src/w3c-html-validator.ts:110-113).
  Compared with `'info'`, the `'warning'` threshold also drops info messages
  that have a sub-type. So it keeps fewer than `'info'` exactly when such a
  message matches no ignore pattern (`Messages.WarningKeepsLessThanInfo`).
  Compared with no threshold, `'warning'` drops every info message that no
  pattern already drops (`Messages.WarningLevelKeepsLess`).
- A regular-expression pattern is applied with `RegExp.prototype.test`
  (src/w3c-html-validator.ts:117). That call looks for a match anywhere in
  the text.

## Model

| member | source | states |
|---|---|---|
| `Settings.CheckOptions` | src/w3c-html-validator.ts:82-87 | The three checks, in order, each with its fixed text: no truthy `html`/`filename`/`website`, then an `ignoreLevel` outside null/'info'/'warning' (the message names the value), then an `output` other than 'json'/'html'. It succeeds exactly when all pass, with the parsed threshold and output. |
| `Settings.ParseLevel` | src/w3c-html-validator.ts:84 | Exactly `null`, `'info'` and `'warning'` are accepted: null means no threshold and `'info'` the info threshold. |
| `Settings.ParseOutput` | src/w3c-html-validator.ts:86 | Exactly `'json'` and `'html'` are accepted, and the parsed output names the given string. |
| `Settings.Resolve` | src/w3c-html-validator.ts:88-108 | After the checks: the filename is slash-normalised; the mode is html, filename or website by truthiness precedence; the payload is `html ?? readFile(filename)` with carriage returns stripped; a missing file is a read error naming the normalised path. The title is exactly `HTML String (characters: N)` with N the payload length (html), the normalised path (filename) or the URL (website). |
| `Settings.HtmlTitleRoundTrip` | src/w3c-html-validator.ts:105 | The count in `"HTML String (characters: N)"` reads back as exactly N. |
| `Settings.HtmlTitleExample` | spec/mocha.spec.js:100 | A 153-character string is titled `HTML String (characters: 153)`. |
| `Js.ToString` | src/w3c-html-validator.ts:85 | A string is rendered as itself. An integer is rendered as a canonical decimal numeral (no leading zero, no `-0`) that parses back to it. |
| `Request.Build` | src/w3c-html-validator.ts:93-101 | It is a POST exactly when the payload is non-empty, carrying the payload as body and the `text/html; encoding=utf-8` Content-Type. Otherwise it is a GET with `doc=<website>`, no body and no Content-Type. The URL is `checkUrl`; the User-Agent header and `out=<output>` are always present. Nothing else is sent: a POST has exactly those two headers and the one parameter, and a GET exactly the one header and the two parameters. |
| `Messages.EffectiveIgnoreList` | src/w3c-html-validator.ts:114-115 | The patterns in force are the caller's plus, when `defaultRules` is on, the built-in list. |
| `Messages.FilterImportant` | src/w3c-html-validator.ts:120-123 | The kept list is an order-preserving sub-sequence of the raw list. A message is kept iff it passes the severity threshold and no pattern matches its text. Every copy of an important message is kept, and no copy of any other message. |
| `Messages.FilterBody` | src/w3c-html-validator.ts:123 | With a missing list read as `[]`: the kept list is an order-preserving sub-sequence of `messages ?? []`. It holds every copy of each important message and nothing else. |
| `Messages.SeverityRule` | src/w3c-html-validator.ts:110-113 | Non-info messages are never suppressed by level. A plain info message is suppressed at `'info'` or `'warning'`. An info message with a sub-type is suppressed only at `'warning'`. |
| `Messages.SkipMatchFoundIff` | src/w3c-html-validator.ts:116-119 | The scan over the ignore list reports a match iff some pattern in the list matches the text: substring containment for a string, the regex test otherwise. |
| `Messages.PatternOrderIrrelevant` | src/w3c-html-validator.ts:118-119 | Two ignore lists with the same patterns, in any order or multiplicity, suppress the same texts. |
| `Messages.FilterIgnoresPatternOrder` | src/w3c-html-validator.ts:114-123 | Two ignore lists with the same patterns yield the same kept list for any messages. |
| `Messages.LiteralPatternSuppresses` | src/w3c-html-validator.ts:116-117 | A single string pattern suppresses exactly the messages whose text contains it (given the threshold passes). |
| `Messages.DefaultRulesDropSectionHeading` | src/w3c-html-validator.ts:68-70 | With `defaultRules` on, no message whose text contains "Section lacks heading." is kept, whatever the caller's patterns. |
| `Messages.WarningLevelKeepsLess` | src/w3c-html-validator.ts:110-113 | The `'warning'` threshold keeps a sub-sequence of what no threshold keeps. It keeps strictly fewer when some info message with a sub-type matches no pattern. |
| `Messages.WarningKeepsLessThanInfo` | src/w3c-html-validator.ts:110-113 | The `'warning'` threshold keeps a sub-sequence of what `'info'` keeps. It keeps strictly fewer iff some info message with a sub-type matches no pattern. |
| `Text.IncludesIffOccurs` | src/w3c-html-validator.ts:117 | `includes` holds iff the needle occurs at some index of the text. |
| `Text.Unixify` | src/w3c-html-validator.ts:90 | The result has no carriage return. It is an order-preserving sub-sequence of the input with every other character's count unchanged, and it is the identity on text without carriage returns. |
| `Text.EscapeNewlines` | src/w3c-html-validator.ts:193 | The result has no line break. Its length grows by one per line break, and it is the identity on text without line breaks. |
| `Text.EscapeNewlinesConcat` | src/w3c-html-validator.ts:193 | Escaping a concatenation escapes each part in place, so the text is escaped character by character. |
| `Text.EscapeNewlinesChar` | src/w3c-html-validator.ts:193 | A line break becomes a backslash followed by `n`; any other character is kept as it is. |
| `Text.Substring0` | src/w3c-html-validator.ts:195 | `substring(0, n)` is a prefix of the text. It is the whole text for a missing or too-large n, empty for n <= 0, and of length n otherwise. |
| `Text.Slash` | src/w3c-html-validator.ts:88 | The normalised path has the same length and no backslash: each backslash becomes `/` and every other character stays in place. |
| `Text.SlashIdempotent` | src/w3c-html-validator.ts:88 | Normalising an already normalised path changes nothing. |
| `Text.IntToStringRoundTrip` | src/w3c-html-validator.ts:203 | Every integer rendered in a template literal is a canonical decimal numeral (no leading zero, no `-0`) that parses back to it. |
| `Text.CanonicalDecimalUnique` | src/w3c-html-validator.ts:203 | Any canonical decimal numeral is exactly the rendering of the integer it denotes, so `9` prints as `9` and never as `09`. |
| `Text.SplitJoin` | src/w3c-html-validator.ts:205 | Joining comma-free parts with `", "` and cutting at the commas gives back the parts, each but the first with its leading space. |
| `Response.Normalize` | src/w3c-html-validator.ts:126-147 | Mode, title, payload, filename, output and `dryRun` are carried over, and `website` is kept only when truthy. Status is the code, or -1 when it is 0 or missing. JSON: no display, and `validates` iff no messages; a reply's messages are the filtered body; a failure gives the single unfiltered `network-error` and never validates. HTML: no messages, the page as display, and `validates` iff the page has `<p class="success">`. |
| `Response.NetworkErrorTextShape` | src/w3c-html-validator.ts:141-145 | With an HTTP response the text is status, status text and URL separated by single spaces; without one it is the error number (empty if missing) and the error text. |
| `Response.ServiceUnavailableText` | spec/mocha.spec.js:342 | A 503 "Service Unavailable" reply is rendered `503 Service Unavailable <url>`. |
| `Validator.Plan` | src/w3c-html-validator.ts:93-98 | It fails exactly when resolution fails. Otherwise the request goes to `checkUrl` and is a POST iff the resolved payload is non-empty. |
| `Validator.Validate` | src/w3c-html-validator.ts:148-156 | It throws exactly when planning throws, and the result reports the `dryRun` setting. Without a dry run the result is the normalised network reply, using the effective ignore list. |
| `Validator.InputErrors` | src/w3c-html-validator.ts:82-87 | The missing-input error comes when all three inputs are absent or empty, before the threshold error, which comes before the output error. Once these pass, only a missing file (no `html` key, truthy `filename`) can still throw. |
| `Validator.BogusLevelNamed` | spec/mocha.spec.js:318-323 | `ignoreLevel: 'bogus'` throws `[w3c-html-validator] Invalid ignoreLevel option: bogus`. |
| `Validator.ModeAndTitle` | src/w3c-html-validator.ts:88-132 | The result's mode follows html > filename > website by truthiness. The title is exactly `HTML String (characters: N)` for the html length N, or the normalised path, or the URL. `filename` is the normalised name or null, `website` is `website \|\| null`, and `html` is the payload. |
| `Validator.RequestShape` | src/w3c-html-validator.ts:93-101 | A POST with body and HTML Content-Type iff the payload is non-empty, otherwise a GET with `doc=<website>`. The User-Agent header and `out=<output>` are always set, and no other header or parameter is. |
| `Validator.EmptyHtmlWithFilename` | src/w3c-html-validator.ts:88-98 | `html: ""` with a truthy `filename` gives filename mode, an empty payload and a GET, and succeeds without reading the file. |
| `Validator.JsonVerdict` | src/w3c-html-validator.ts:122-134 | JSON output on a reply: the messages are the filtered body, and the result validates iff every raw message is suppressed. Status is the reply's code or -1. |
| `Validator.HtmlVerdict` | src/w3c-html-validator.ts:126-136 | HTML output on a reply: messages are null, the display is the page, and the result validates iff the page has the success marker. |
| `Validator.NetworkFailure` | src/w3c-html-validator.ts:141-147 | In JSON output, a failed request gives exactly one unfiltered `network-error` message and `validates = false`. In any output, the status is the HTTP status, or -1 without a response. |
| `Validator.DryRunBypassesNetwork` | src/w3c-html-validator.ts:148-155 | A dry run's result does not depend on the network. Status is 200 and `dryRun` is true. JSON validates with `[]`; HTML does not validate and displays `Validation bypassed.`. |
| `Validator.DefaultsApply` | src/w3c-html-validator.ts:73-81 | With only `html` given: a POST to `https://validator.w3.org/nu/` asking for JSON, with no threshold, no patterns and no dry run. |
| `Reporting.Reporter` | src/w3c-html-validator.ts:168-211 | A non-record input (or one without a boolean `validates`) throws `Invalid results for reporter(): <value>` with nothing logged. A passing result, or any result under `continueOnFail`, is returned unchanged; otherwise it throws `[w3c-html-validator] Failed: <details>`. The header comes first and is left out iff the result passes in quiet mode. |
| `Reporting.EmptyArrayRejected` | src/w3c-html-validator.ts:176-177 | An empty array throws the invalid-results prefix with nothing after it, and nothing is logged. |
| `Reporting.MessageLinesParts` | src/w3c-html-validator.ts:189-198 | Each message writes one message line, plus one location line iff its `lastLine` is truthy. |
| `Reporting.MessageLinesInOrder` | src/w3c-html-validator.ts:189-199 | The log's message lines are one per message, in order, labelled `HTML <subType ?? type>:` with the text cut to `maxMessageLen`. |
| `Reporting.Located` | src/w3c-html-validator.ts:196 | The located messages are the order-preserving sub-sequence of messages whose `lastLine` is non-zero, with every copy of each such message and nothing else. |
| `Reporting.LocationLinesInOrder` | src/w3c-html-validator.ts:192-197 | The log's location lines belong, in order, to exactly the messages with a non-zero `lastLine`. Each carries `line L, column C:` and the extract with line breaks escaped. |
| `Reporting.NoCommaInEntry` | src/w3c-html-validator.ts:202-203 | No detail entry `<label> line L column C` contains a comma. |
| `Reporting.FailDetailsEntries` | src/w3c-html-validator.ts:200-206 | With a file name, the details are `<file> -- ` followed by a list that splits at its commas into exactly one entry per message, in order. |
| `Reporting.ReportSingleFailure` | src/w3c-html-validator.ts:200-209 | A failing one-message result throws the message text (no file) or `<file> -- <entry>`. The log is the failing header with `(messages: 1)`, then that message's lines. |
| `Reporting.NetworkErrorEntry` | src/w3c-html-validator.ts:202-203 | A synthetic network error's entry is `network-error line undefined column undefined`. |
| `Reporting.FailDetailsExample` | spec/mocha.spec.js:396-399 | A warning at 9:4 and an error at 12:10 in `spec/html/invalid.html` give `spec/html/invalid.html -- warning line 9 column 4, error line 12 column 10`. |
| `Legacy.Validate` | w3c-html-validator.ts:64-133 | It throws exactly when planning throws, and the result never has a `dryRun` field. |
| `Legacy.InputErrors` | w3c-html-validator.ts:72-77 | The same three input errors, in the same order, with the same texts. |
| `Legacy.ModeAndTitle` | w3c-html-validator.ts:78-96 | The same mode precedence and per-mode title, with the exact `HTML String (characters: N)` in html mode; the payload is `html ?? readFile(filename)`. |
| `Legacy.JsonVerdict` | w3c-html-validator.ts:97-122 | JSON: the kept messages are the order-preserving part of the raw list that survives the threshold and `ignoreMessages` alone (no built-in list). The result validates iff none are kept. |
| `Legacy.NetworkFailure` | w3c-html-validator.ts:125-131 | In JSON output, a failed request gives exactly one unfiltered `network-error` message and `validates = false`. |
| `Legacy.CurrentRefinesEarlier` | w3c-html-validator.ts:97-110 | With `defaultRules` off and no dry run, the current `validate` equals the earlier one except for the `dryRun: false` field. |
| `Legacy.DefaultRulesAsPatterns` | w3c-html-validator.ts:102-104 | Turning on the current `defaultRules` equals the earlier variant with the built-in list appended to `ignoreMessages`. |
| `Legacy.ReportNetworkFailure` | w3c-html-validator.ts:140-182 | Reporting the earlier variant's network failure without `continueOnFail` throws with `<file> -- network-error line undefined column undefined` (or the diagnostics when there is no file). It logs the header and one unlocated message line. |
| `Legacy.ReportSingleFailure` | w3c-html-validator.ts:161-181 | For any failing result holding one network error: the thrown text and the two log lines, with the label `HTML network-error:` and no location line. |

## Left out

- HTTP and file I/O (superagent, `fs.readFileSync`) and the promise chain are
  inputs: a network function, a path-to-contents map, and a `Result` in place
  of a synchronous throw. A read error is modelled as `IoError(path)`; Node's
  error text is not.
- JavaScript regular expressions: a `Regex` pattern is matched by a function
  given as a parameter. Only string patterns (substring containment) are
  defined here.
- Messages.PatternOrderIrrelevant and Messages.FilterIgnoresPatternOrder
  assume stateless patterns, with no `g` or `y` flag. `RegExp.prototype.test`
  on a global or sticky regex advances `lastIndex`. With such a regex,
  `.some` stopping early makes pattern order and repetition matter, and two
  equal messages can get different verdicts. The parameter is a pure
  function, so that state is not modelled.
- Reporting.Describe: renders a plain object, an array of primitives and a
  primitive. Nested arrays, functions, dates and objects with their own
  `toString` render their own text in JavaScript and are not modelled.
- Js.ToString: renders every integer in plain decimal. `String(n)` switches
  to exponent form at magnitude 1e21 (for example `1e+21`), which is not
  modelled. Such values would only appear in a bogus `ignoreLevel` or in
  message positions.
- Settings.Resolve: the html-mode title counts code points. JavaScript's
  `inputHtml.length` counts UTF-16 code units, so the count matches only for
  text inside the Basic Multilingual Plane. The same holds for
  Validator.ModeAndTitle and Legacy.ModeAndTitle. A character outside the
  plane, such as an emoji, counts once here and twice in JavaScript. Dafny's
  `char` cannot hold a lone surrogate.
- Text.Substring0: cuts after n code points. JavaScript's `substring` counts
  UTF-16 code units and can split a surrogate pair. The two agree only for
  text inside the Basic Multilingual Plane.
- Text.IncludesIffOccurs: `includes` is containment of code-point sequences.
  A needle that is half of a surrogate pair cannot be represented.
- The `slash` package is not part of this model. It is modelled as plain
  backslash-to-slash replacement; its special case for extended-length
  Windows paths is not modelled.
- Colours and log backends (chalk, fancy-log): log lines are structured
  values. `summary`, `dryRunNotice` and `version` only log or hold a
  constant.
- Reporting.Reporter: requires a message list, and a file name or a first
  message, on the throwing path. With HTML output (`messages` null) or an
  empty list and no file, the source raises a TypeError, which is not
  modelled.
- Non-list `ignoreMessages` (a bare string or RegExp) is not modelled. The
  declared type is a list, and spreading a string would iterate its
  characters.
- Settings.Options: an explicit `undefined` is modelled only for
  `ignoreLevel` and `output`, whose checks see it. Explicit `undefined` for
  `checkUrl`, `ignoreMessages`, `defaultRules` or `dryRun` (which would
  override the default) is not modelled.
- Numbers are integers: fractional or NaN `maxMessageLen`, `lastLine` and
  similar values are not modelled.
- A response body is always present. An exception raised inside the filter
  or the result mapping (for example a missing `body`) would also reach
  `handleError`; that path is not modelled.
- The batch orchestration with inter-request delays, the CLI (`bin/cli.js`),
  the examples and the build (`gulpfile.js`) are not part of this model.
  `validate` and `reporter` themselves hold no scheduling logic.
- `dist/` holds an older callback API (0.5.0) with a mutable global check URL,
  almost all request plumbing. It is not part of this model.
