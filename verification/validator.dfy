/** The current `validate`: settings, request, an optional dry run in place of
    the network, the message filter with the optional built-in ignore list, and
    result normalisation. The network is a function from the request to what
    the transport delivers; the file system is a map from path to contents. */
module Validator {
  import opened Wrappers
  import Js
  import Text
  import Messages
  import Settings
  import Request
  import Response

  type Network = Request.RequestSpec -> Response.Transport

  /** Resolved settings together with the request they describe. The request is
      prepared even in a dry run; it is then simply not sent. */
  function Plan(o: Settings.Options, files: map<string, string>): (r: Result<(Settings.Resolved, Request.RequestSpec), Settings.ValidatorError>)
    ensures r.Failure? <==> Settings.Resolve(Settings.Merge(o), files).Failure?
    ensures r.Success? ==>
              && r.value.0 == Settings.Resolve(Settings.Merge(o), files).value
              && r.value.1.url == Settings.Merge(o).checkUrl
              && (r.value.1.verb == Request.Post <==> Settings.Present(r.value.0.inputHtml))
  {
    match Settings.Resolve(Settings.Merge(o), files)
    case Failure(e) => Failure(e)
    case Success(ctx) =>
      Success((ctx, Request.Build(ctx.settings.checkUrl, ctx.inputHtml, ctx.settings.website, ctx.output)))
  }

  /** The stand-in response of a dry run. */
  const DryRunResponse: Response.Transport := Response.Ok(200, Some([]), Some("Validation bypassed."))

  function IgnoreList(s: Settings.Merged): seq<Messages.Pattern> {
    Messages.EffectiveIgnoreList(s.ignoreMessages, s.defaultRules)
  }

  /** `validate(options)`: a thrown input or read error, or the result record. */
  function Validate(o: Settings.Options, files: map<string, string>, network: Network, test: Messages.RegexTest)
    : (r: Result<Response.Results, Settings.ValidatorError>)
    ensures r.Failure? <==> Plan(o, files).Failure?
    ensures r.Success? ==> r.value.dryRun == Some(Settings.Merge(o).dryRun)
    ensures r.Success? && !Settings.Merge(o).dryRun ==>
              r.value == Response.Normalize(Plan(o, files).value.0, test, IgnoreList(Settings.Merge(o)),
                                            network(Plan(o, files).value.1), Some(false))
  {
    match Plan(o, files)
    case Failure(e) => Failure(e)
    case Success(planned) =>
      var ctx := planned.0;
      var t := if ctx.settings.dryRun then DryRunResponse else network(planned.1);
      Success(Response.Normalize(ctx, test, IgnoreList(ctx.settings), t, Some(ctx.settings.dryRun)))
  }

  // ---------------------------------------------------------------------------
  // Properties of `validate`

  /** The three input errors, in their fixed order, each with its fixed text;
      once they pass, only a missing file can still make the call throw. */
  lemma InputErrors(o: Settings.Options, files: map<string, string>, network: Network, test: Messages.RegexTest)
    ensures var s := Settings.Merge(o);
            !Settings.Present(o.html) && !Settings.Present(o.filename) && !Settings.Present(o.website) ==>
              Validate(o, files, network, test) == Failure(Settings.InvalidInput(Settings.MissingInputMessage))
    ensures var s := Settings.Merge(o);
            Settings.AnyInput(s) && Settings.ParseLevel(s.ignoreLevel).None? ==>
              Validate(o, files, network, test) == Failure(Settings.InvalidInput(Settings.BadLevelMessage(s.ignoreLevel)))
    ensures var s := Settings.Merge(o);
            Settings.AnyInput(s) && Settings.ParseLevel(s.ignoreLevel).Some? && Settings.ParseOutput(s.output).None? ==>
              Validate(o, files, network, test) == Failure(Settings.InvalidInput(Settings.BadOutputMessage))
    ensures var s := Settings.Merge(o);
            Settings.AnyInput(s) && Settings.ParseLevel(s.ignoreLevel).Some? && Settings.ParseOutput(s.output).Some? ==>
              (Validate(o, files, network, test).Failure? <==>
                 o.html.None? && Settings.Present(o.filename) && Text.Slash(o.filename.value) !in files)
  {
  }

  /** A bogus threshold is named in the error: `'bogus'` gives "...option: bogus". */
  lemma BogusLevelNamed(o: Settings.Options, files: map<string, string>, network: Network, test: Messages.RegexTest)
    requires Settings.AnyInput(Settings.Merge(o))
    requires o.ignoreLevel == Some(Js.Str("bogus"))
    ensures Validate(o, files, network, test) ==
              Failure(Settings.InvalidInput("[w3c-html-validator] Invalid ignoreLevel option: " + "bogus"))
  {
  }

  /** Mode by precedence html, filename, website; the title by mode; the
      record's `filename` is the slash-normalised name or missing, its
      `website` the website when given, its `html` the payload. */
  lemma ModeAndTitle(o: Settings.Options, files: map<string, string>, network: Network, test: Messages.RegexTest)
    requires Plan(o, files).Success?
    ensures var r := Validate(o, files, network, test).value;
            && r.mode == (if Settings.Present(o.html) then Settings.HtmlMode
                          else if Settings.Present(o.filename) then Settings.FilenameMode
                          else Settings.WebsiteMode)
            && (r.mode == Settings.HtmlMode ==> r.title == Settings.HtmlTitle(|o.html.value|))
            && (r.mode == Settings.HtmlMode ==> Settings.ParseHtmlTitle(r.title) == Some(|o.html.value|))
            && (r.mode == Settings.FilenameMode ==> r.title == Text.Slash(o.filename.value))
            && (r.mode == Settings.WebsiteMode ==> r.title == o.website.value)
            && r.filename == (if Settings.Present(o.filename) then Some(Text.Slash(o.filename.value)) else None)
            && r.website == (if Settings.Present(o.website) then o.website else None)
            && r.html == (if o.html.Some? then o.html
                          else if Settings.Present(o.filename) then Some(Text.Unixify(files[Text.Slash(o.filename.value)]))
                          else None)
  {
  }

  /** The request: a POST with the payload and the HTML content type exactly
      when the payload is non-empty, otherwise a GET naming the website; the
      User-Agent header and `out=<output>` always. */
  lemma RequestShape(o: Settings.Options, files: map<string, string>)
    requires Plan(o, files).Success?
    ensures var (ctx, req) := Plan(o, files).value;
            && req.url == Settings.Merge(o).checkUrl
            && (req.verb == Request.Post <==> Settings.Present(ctx.inputHtml))
            && (req.verb == Request.Post ==>
                  req.body == ctx.inputHtml &&
                  Request.HeaderValue(req.headers, "Content-Type") == Some(Request.HtmlContentType))
            && (req.verb == Request.Get ==>
                  req.body.None? && Request.ParamValue(req.query, "doc") == Some(o.website))
            && Request.HeaderValue(req.headers, "User-Agent") == Some(Request.UserAgent)
            && Request.ParamValue(req.query, "out") == Some(Some(Settings.OutputName(ctx.output)))
            && |req.headers| == (if req.verb == Request.Post then 2 else 1)
            && |req.query| == (if req.verb == Request.Post then 1 else 2)
  {
  }

  /** The truthiness/nullishness mismatch: an empty `html` beside a `filename`
      selects filename mode, yet the payload stays the empty string, so the
      file is never read and a GET is prepared instead of a POST. */
  lemma EmptyHtmlWithFilename(o: Settings.Options, files: map<string, string>)
    requires o.html == Some("") && Settings.Present(o.filename)
    requires Settings.ParseLevel(Settings.Merge(o).ignoreLevel).Some?
    requires Settings.ParseOutput(Settings.Merge(o).output).Some?
    ensures Plan(o, files).Success?
    ensures Plan(o, files).value.0.mode == Settings.FilenameMode
    ensures Plan(o, files).value.0.inputHtml == Some("")
    ensures Plan(o, files).value.1.verb == Request.Get
  {
  }

  /** JSON output on a response: the record holds the filtered messages (a
      missing list counts as empty) and validates exactly when every raw
      message was suppressed; the status is the response's, or -1 for 0. */
  lemma JsonVerdict(o: Settings.Options, files: map<string, string>, network: Network, test: Messages.RegexTest)
    requires Plan(o, files).Success?
    requires Plan(o, files).value.0.output == Settings.Json
    requires !Settings.Merge(o).dryRun
    requires network(Plan(o, files).value.1).Ok?
    ensures var ctx := Plan(o, files).value.0;
            var t := network(Plan(o, files).value.1);
            var r := Validate(o, files, network, test).value;
            && r.messages == Some(Messages.FilterBody(test, ctx.level, IgnoreList(Settings.Merge(o)), t.bodyMessages))
            && r.display.None?
            && (r.validates <==> forall m :: m in t.bodyMessages.GetOr([]) ==>
                                   !Messages.IsImportant(test, ctx.level, IgnoreList(Settings.Merge(o)), m))
            && r.status == (if t.statusCode != 0 then t.statusCode else -1)
  {
    var ctx := Plan(o, files).value.0;
    var t := network(Plan(o, files).value.1);
    var kept := Messages.FilterBody(test, ctx.level, IgnoreList(Settings.Merge(o)), t.bodyMessages);
    if |kept| > 0 {
      assert kept[0] in kept;
    }
  }

  /** HTML output on a response: no messages, the page as display, and a pass
      exactly when the page carries the success marker. */
  lemma HtmlVerdict(o: Settings.Options, files: map<string, string>, network: Network, test: Messages.RegexTest)
    requires Plan(o, files).Success?
    requires Plan(o, files).value.0.output == Settings.Html
    requires !Settings.Merge(o).dryRun
    requires network(Plan(o, files).value.1).Ok?
    ensures var t := network(Plan(o, files).value.1);
            var r := Validate(o, files, network, test).value;
            && r.messages.None?
            && r.display == t.text
            && (r.validates <==> t.text.Some? && Text.Includes(t.text.value, Response.SuccessMarker))
  {
  }

  /** A failed request becomes a record with exactly one `network-error`
      message, whatever the ignore settings; in JSON output it never validates. */
  lemma NetworkFailure(o: Settings.Options, files: map<string, string>, network: Network, test: Messages.RegexTest)
    requires Plan(o, files).Success?
    requires !Settings.Merge(o).dryRun
    requires network(Plan(o, files).value.1).Fail?
    ensures var t := network(Plan(o, files).value.1);
            var r := Validate(o, files, network, test).value;
            && (r.output == Settings.Json ==>
                  && r.messages == Some([Response.NetworkErrorMessage(Response.NetworkErrorText(t))])
                  && r.messages.value[0].msgType == Messages.NetworkError
                  && !r.validates)
            && r.status == (if t.response.Some? && t.response.value.status != 0 then t.response.value.status else -1)
  {
  }

  /** A dry run never consults the network, passes in JSON output with no
      messages and status 200, fails in HTML output (the stub page has no
      success marker), and says so in `dryRun`. */
  lemma DryRunBypassesNetwork(
    o: Settings.Options, files: map<string, string>, network1: Network, network2: Network, test: Messages.RegexTest)
    requires Plan(o, files).Success?
    requires Settings.Merge(o).dryRun
    ensures Validate(o, files, network1, test) == Validate(o, files, network2, test)
    ensures var r := Validate(o, files, network1, test).value;
            && r.dryRun == Some(true)
            && r.status == 200
            && (r.output == Settings.Json ==> r.validates && r.messages == Some([]))
            && (r.output == Settings.Html ==> !r.validates && r.display == Some("Validation bypassed."))
  {
    Text.NotIncludedWithoutFirstChar("Validation bypassed.", Response.SuccessMarker);
  }

  /** With nothing but a non-empty `html` given, the defaults apply: a POST to
      the public checker asking for JSON, no threshold, no patterns, no dry run. */
  lemma DefaultsApply(h: string, files: map<string, string>)
    requires |h| > 0
    ensures var o := Settings.Options(Some(h), None, None, None, None, None, None, None, None);
            && Plan(o, files).Success?
            && Plan(o, files).value.0.level == Messages.NoLevel
            && Plan(o, files).value.0.output == Settings.Json
            && Plan(o, files).value.1.url == Settings.DefaultCheckUrl
            && Plan(o, files).value.1.verb == Request.Post
            && IgnoreList(Settings.Merge(o)) == []
            && !Settings.Merge(o).dryRun
  {
  }
}
