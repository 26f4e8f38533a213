/** Settings resolution: options merged over defaults, the three input checks
    in their fixed order, path normalisation, mode precedence, the HTML payload
    and the display title. The earlier and the current `validate` share this
    logic line for line. */
module Settings {
  import opened Wrappers
  import Js
  import Text
  import Messages

  /** What a caller passes; `None` means the key was left out. For `html`,
      `filename` and `website` it also covers `undefined` and `null`. */
  datatype Options = Options(
    html: Option<string>,
    filename: Option<string>,
    website: Option<string>,
    checkUrl: Option<string>,
    ignoreLevel: Option<Js.Value>,
    ignoreMessages: Option<seq<Messages.Pattern>>,
    defaultRules: Option<bool>,
    output: Option<Js.Value>,
    dryRun: Option<bool>)

  /** `{ ...defaults, ...options }`. */
  datatype Merged = Merged(
    html: Option<string>,
    filename: Option<string>,
    website: Option<string>,
    checkUrl: string,
    ignoreLevel: Js.Value,
    ignoreMessages: seq<Messages.Pattern>,
    defaultRules: bool,
    output: Js.Value,
    dryRun: bool)

  const DefaultCheckUrl := "https://validator.w3.org/nu/"

  function Merge(o: Options): Merged {
    Merged(
      o.html, o.filename, o.website,
      o.checkUrl.GetOr(DefaultCheckUrl),
      o.ignoreLevel.GetOr(Js.Null),
      o.ignoreMessages.GetOr([]),
      o.defaultRules.GetOr(false),
      o.output.GetOr(Js.Str("json")),
      o.dryRun.GetOr(false))
  }

  datatype Mode = HtmlMode | FilenameMode | WebsiteMode
  datatype Output = Json | Html

  function OutputName(output: Output): string {
    match output
    case Json => "json"
    case Html => "html"
  }

  /** What `validate` throws before any request is made. */
  datatype ValidatorError = InvalidInput(message: string) | IoError(path: string)

  const MissingInputMessage := "[w3c-html-validator] Must specify the \"html\", \"filename\", or \"website\" option."
  const BadOutputMessage := "[w3c-html-validator] Option \"output\" must be \"json\" or \"html\"."

  function BadLevelMessage(level: Js.Value): string {
    "[w3c-html-validator] Invalid ignoreLevel option: " + Js.ToString(level)
  }

  /** A string option counts as given when it is present and non-empty (JavaScript truthiness). */
  predicate Present(o: Option<string>) {
    o.Some? && |o.value| > 0
  }

  predicate AnyInput(s: Merged) {
    Present(s.html) || Present(s.filename) || Present(s.website)
  }

  /** `[null, 'info', 'warning'].includes(value)`, and which threshold it names. */
  function ParseLevel(v: Js.Value): (level: Option<Messages.Level>)
    ensures level.Some? <==> v == Js.Null || v == Js.Str("info") || v == Js.Str("warning")
    ensures level == Some(Messages.NoLevel) <==> v == Js.Null
    ensures level == Some(Messages.InfoLevel) <==> v == Js.Str("info")
  {
    match v
    case Null => Some(Messages.NoLevel)
    case Str(s) => if s == "info" then Some(Messages.InfoLevel) else if s == "warning" then Some(Messages.WarningLevel) else None
    case _ => None
  }

  function ParseOutput(v: Js.Value): (output: Option<Output>)
    ensures output.Some? <==> v == Js.Str("json") || v == Js.Str("html")
    ensures output.Some? ==> v == Js.Str(OutputName(output.value))
  {
    match v
    case Str(s) => if s == "json" then Some(Json) else if s == "html" then Some(Html) else None
    case _ => None
  }

  const HtmlTitlePrefix := "HTML String (characters: "

  /** The title of an inline HTML string, which reports its length. */
  function HtmlTitle(length: nat): string {
    HtmlTitlePrefix + Text.NatToString(length) + ")"
  }

  /** Reads the character count back out of an inline-HTML title. */
  function ParseHtmlTitle(title: string): Option<nat> {
    var p := |HtmlTitlePrefix|;
    if |title| > p + 1 && title[..p] == HtmlTitlePrefix && title[|title| - 1] == ')' && Text.AllDigits(title[p..|title| - 1])
    then Some(Text.ParseNat(title[p..|title| - 1]))
    else None
  }

  /** The count in the title is the length of the string it names. */
  lemma HtmlTitleRoundTrip(length: nat)
    ensures ParseHtmlTitle(HtmlTitle(length)) == Some(length)
  {
    var t := HtmlTitle(length);
    var p := |HtmlTitlePrefix|;
    assert t[..p] == HtmlTitlePrefix;
    assert t[p..|t| - 1] == Text.NatToString(length);
    Text.NatToStringRoundTrip(length);
  }

  /** The title of the 153-character test document. */
  lemma HtmlTitleExample()
    ensures HtmlTitle(153) == "HTML String (characters: 153)"
  {
    assert Text.NatToString(1) == "1";
    assert Text.NatToString(15) == "15";
    assert Text.NatToString(153) == "153";
  }

  /** Everything the rest of `validate` derives from the settings. */
  datatype Resolved = Resolved(
    settings: Merged,
    level: Messages.Level,
    output: Output,
    filename: Option<string>,
    mode: Mode,
    inputHtml: Option<string>,
    title: string)

  /** The three input checks, always in this order: missing input, then a bad
      `ignoreLevel` (its message names the value), then a bad `output`. */
  function CheckOptions(s: Merged): (r: Result<(Messages.Level, Output), ValidatorError>)
    ensures !AnyInput(s) ==> r == Failure(InvalidInput(MissingInputMessage))
    ensures AnyInput(s) && ParseLevel(s.ignoreLevel).None? ==>
              r == Failure(InvalidInput(BadLevelMessage(s.ignoreLevel)))
    ensures AnyInput(s) && ParseLevel(s.ignoreLevel).Some? && ParseOutput(s.output).None? ==>
              r == Failure(InvalidInput(BadOutputMessage))
    ensures r.Success? <==> AnyInput(s) && ParseLevel(s.ignoreLevel).Some? && ParseOutput(s.output).Some?
    ensures r.Success? ==> r.value == (ParseLevel(s.ignoreLevel).value, ParseOutput(s.output).value)
  {
    if !AnyInput(s) then Failure(InvalidInput(MissingInputMessage))
    else if ParseLevel(s.ignoreLevel).None? then Failure(InvalidInput(BadLevelMessage(s.ignoreLevel)))
    else if ParseOutput(s.output).None? then Failure(InvalidInput(BadOutputMessage))
    else Success((ParseLevel(s.ignoreLevel).value, ParseOutput(s.output).value))
  }

  /** Settings resolution up to, and including, reading the file. The file
      system is given as a map from path to contents; a missing path is the
      read error. */
  function Resolve(s: Merged, files: map<string, string>): (r: Result<Resolved, ValidatorError>)
    ensures CheckOptions(s).Failure? ==> r == Failure(CheckOptions(s).error)
    ensures CheckOptions(s).Success? ==>
              (r.Failure? <==> s.html.None? && Present(s.filename) && Text.Slash(s.filename.value) !in files)
    ensures r.Failure? && CheckOptions(s).Success? ==> r.error == IoError(Text.Slash(s.filename.value))
    ensures r.Success? ==>
              && (r.value.level, r.value.output) == CheckOptions(s).value
              && r.value.settings == s
              && r.value.mode == (if Present(s.html) then HtmlMode else if Present(s.filename) then FilenameMode else WebsiteMode)
              && r.value.filename == (if Present(s.filename) then Some(Text.Slash(s.filename.value)) else None)
              && r.value.inputHtml == (if s.html.Some? then s.html
                                       else if Present(s.filename) then Some(Text.Unixify(files[Text.Slash(s.filename.value)]))
                                       else None)
              && (r.value.mode == HtmlMode ==> r.value.title == HtmlTitle(|s.html.value|))
              && (r.value.mode == HtmlMode ==> ParseHtmlTitle(r.value.title) == Some(|s.html.value|))
              && (r.value.mode == FilenameMode ==> r.value.title == Text.Slash(s.filename.value))
              && (r.value.mode == WebsiteMode ==> Present(s.website) && r.value.title == s.website.value)
  {
    match CheckOptions(s)
    case Failure(e) => Failure(e)
    case Success(checked) =>
      var filename := if Present(s.filename) then Some(Text.Slash(s.filename.value)) else None;
      var mode := if Present(s.html) then HtmlMode else if filename.Some? then FilenameMode else WebsiteMode;
      if s.html.None? && filename.Some? && filename.value !in files then Failure(IoError(filename.value))
      else
        var inputHtml :=
          if s.html.Some? then s.html
          else if filename.Some? then Some(Text.Unixify(files[filename.value]))
          else None;
        var title :=
          (match mode
           case HtmlMode => HtmlTitleRoundTrip(|s.html.value|); HtmlTitle(|s.html.value|)
           case FilenameMode => filename.value
           case WebsiteMode => s.website.value);
        Success(Resolved(s, checked.0, checked.1, filename, mode, inputHtml, title))
  }
}
