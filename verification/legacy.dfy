/** The earlier `validate` at the repository root: the same input checks, mode
    precedence, title and request as the current one, but patterns come only
    from `ignoreMessages` (no built-in list), there is no dry run, and the
    result has no `dryRun` field. Unknown keys such as `dryRun` or
    `defaultRules` are carried along by the merge and never read. */
module Legacy {
  import opened Wrappers
  import Seqs
  import Text
  import Messages
  import Settings
  import Response
  import Validator
  import Reporting

  function Validate(o: Settings.Options, files: map<string, string>, network: Validator.Network, test: Messages.RegexTest)
    : (r: Result<Response.Results, Settings.ValidatorError>)
    ensures r.Failure? <==> Validator.Plan(o, files).Failure?
    ensures r.Success? ==> r.value.dryRun.None?
  {
    match Validator.Plan(o, files)
    case Failure(e) => Failure(e)
    case Success(planned) =>
      Success(Response.Normalize(planned.0, test, planned.0.settings.ignoreMessages, network(planned.1), None))
  }

  /** The current result with its `dryRun` field removed. */
  function WithoutDryRun(r: Result<Response.Results, Settings.ValidatorError>): Result<Response.Results, Settings.ValidatorError> {
    match r
    case Success(res) => Success(res.(dryRun := None))
    case Failure(e) => Failure(e)
  }

  /** The three input errors of the earlier variant, in the same order and with the same texts. */
  lemma InputErrors(o: Settings.Options, files: map<string, string>, network: Validator.Network, test: Messages.RegexTest)
    ensures var s := Settings.Merge(o);
            !Settings.AnyInput(s) ==>
              Validate(o, files, network, test) == Failure(Settings.InvalidInput(Settings.MissingInputMessage))
    ensures var s := Settings.Merge(o);
            Settings.AnyInput(s) && Settings.ParseLevel(s.ignoreLevel).None? ==>
              Validate(o, files, network, test) == Failure(Settings.InvalidInput(Settings.BadLevelMessage(s.ignoreLevel)))
    ensures var s := Settings.Merge(o);
            Settings.AnyInput(s) && Settings.ParseLevel(s.ignoreLevel).Some? && Settings.ParseOutput(s.output).None? ==>
              Validate(o, files, network, test) == Failure(Settings.InvalidInput(Settings.BadOutputMessage))
  {
  }

  /** Mode by precedence, title by mode, and the payload `html ?? readFile(filename)`. */
  lemma ModeAndTitle(o: Settings.Options, files: map<string, string>, network: Validator.Network, test: Messages.RegexTest)
    requires Validator.Plan(o, files).Success?
    ensures var r := Validate(o, files, network, test).value;
            && r.mode == (if Settings.Present(o.html) then Settings.HtmlMode
                          else if Settings.Present(o.filename) then Settings.FilenameMode
                          else Settings.WebsiteMode)
            && (r.mode == Settings.HtmlMode ==> r.title == Settings.HtmlTitle(|o.html.value|))
            && (r.mode == Settings.HtmlMode ==> Settings.ParseHtmlTitle(r.title) == Some(|o.html.value|))
            && (r.mode == Settings.FilenameMode ==> r.title == Text.Slash(o.filename.value))
            && (r.mode == Settings.WebsiteMode ==> r.title == o.website.value)
            && r.html == (if o.html.Some? then o.html
                          else if Settings.Present(o.filename) then Some(Text.Unixify(files[Text.Slash(o.filename.value)]))
                          else None)
  {
  }

  /** JSON output on a response: the kept messages are the order-preserving
      part of the raw list that survives the threshold and `ignoreMessages`
      alone, and the result validates exactly when nothing is kept. */
  lemma JsonVerdict(o: Settings.Options, files: map<string, string>, network: Validator.Network, test: Messages.RegexTest)
    requires Validator.Plan(o, files).Success?
    requires Validator.Plan(o, files).value.0.output == Settings.Json
    requires network(Validator.Plan(o, files).value.1).Ok?
    ensures var ctx := Validator.Plan(o, files).value.0;
            var raw := network(Validator.Plan(o, files).value.1).bodyMessages.GetOr([]);
            var r := Validate(o, files, network, test).value;
            && r.messages == Some(Messages.FilterImportant(test, ctx.level, Settings.Merge(o).ignoreMessages, raw))
            && Seqs.IsSubsequence(r.messages.value, raw)
            && (r.validates <==> |r.messages.value| == 0)
            && r.display.None?
  {
  }

  /** A failed request gives one unfiltered `network-error` message. */
  lemma NetworkFailure(o: Settings.Options, files: map<string, string>, network: Validator.Network, test: Messages.RegexTest)
    requires Validator.Plan(o, files).Success?
    requires Validator.Plan(o, files).value.0.output == Settings.Json
    requires network(Validator.Plan(o, files).value.1).Fail?
    ensures var t := network(Validator.Plan(o, files).value.1);
            var r := Validate(o, files, network, test).value;
            && r.messages == Some([Response.NetworkErrorMessage(Response.NetworkErrorText(t))])
            && !r.validates
  {
  }

  /** The current variant, with the built-in list off and no dry run, behaves
      exactly like the earlier one apart from reporting `dryRun: false`. */
  lemma CurrentRefinesEarlier(o: Settings.Options, files: map<string, string>, network: Validator.Network, test: Messages.RegexTest)
    requires !Settings.Merge(o).defaultRules && !Settings.Merge(o).dryRun
    ensures WithoutDryRun(Validator.Validate(o, files, network, test)) == Validate(o, files, network, test)
  {
    var s := Settings.Merge(o);
    assert Validator.IgnoreList(s) == s.ignoreMessages;
  }

  /** Switching the built-in list on is the same as appending it to the
      earlier variant's `ignoreMessages`. */
  lemma DefaultRulesAsPatterns(o: Settings.Options, files: map<string, string>, network: Validator.Network, test: Messages.RegexTest)
    requires o.defaultRules == Some(true) && !Settings.Merge(o).dryRun
    ensures var o' := o.(ignoreMessages := Some(Settings.Merge(o).ignoreMessages + Messages.DefaultIgnoreList));
            WithoutDryRun(Validator.Validate(o, files, network, test)) == Validate(o', files, network, test)
  {
    var o' := o.(ignoreMessages := Some(Settings.Merge(o).ignoreMessages + Messages.DefaultIgnoreList));
    var s := Settings.Merge(o);
    var s' := Settings.Merge(o');
    assert s' == s.(ignoreMessages := s.ignoreMessages + Messages.DefaultIgnoreList);
    assert Settings.CheckOptions(s') == Settings.CheckOptions(s);
    assert Validator.IgnoreList(s) == s'.ignoreMessages;
    match Validator.Plan(o, files)
    case Failure(e) =>
    case Success(planned) =>
      var planned' := Validator.Plan(o', files).value;
      assert planned'.0 == planned.0.(settings := s');
      assert planned'.1 == planned.1;
  }

  /** Reporting a failed request of the earlier variant without
      `continueOnFail`: the error names the file and the one `network-error`
      entry, whose position is undefined, or quotes the diagnostics when there
      is no file. The log is the failing header and one message line, with no
      location line. */
  lemma ReportNetworkFailure(
    o: Settings.Options, files: map<string, string>, network: Validator.Network, test: Messages.RegexTest,
    settings: Reporting.ReporterSettings)
    requires Validator.Plan(o, files).Success?
    requires Validator.Plan(o, files).value.0.output == Settings.Json
    requires network(Validator.Plan(o, files).value.1).Fail?
    requires !settings.continueOnFail
    ensures var text := Response.NetworkErrorText(network(Validator.Plan(o, files).value.1));
            var r := Validate(o, files, network, test).value;
            var rep := Reporting.Reporter(Reporting.Checked(r), settings);
            && rep.outcome == Reporting.Thrown(Reporting.FailedPrefix +
                 (if Settings.Present(r.filename)
                  then r.filename.value + " -- " + "network-error line undefined column undefined"
                  else text))
            && rep.log == [Reporting.Header(false, settings.title.GetOr(r.title), "(messages: 1)"),
                           Reporting.MessageLine("HTML network-error:", Text.Substring0(text, settings.maxMessageLen))]
  {
    var text := Response.NetworkErrorText(network(Validator.Plan(o, files).value.1));
    var r := Validate(o, files, network, test).value;
    var m := Response.NetworkErrorMessage(text);
    NetworkFailure(o, files, network, test);
    assert r.messages == Some([m]) && !r.validates;
    ReportSingleFailure(r, m, settings);
  }

  /** The reporter step on its own terms, for any result holding just one network error. */
  lemma ReportSingleFailure(r: Response.Results, m: Messages.Msg, settings: Reporting.ReporterSettings)
    requires m == Response.NetworkErrorMessage(m.message)
    requires r.messages == Some([m]) && !r.validates && !settings.continueOnFail
    ensures var rep := Reporting.Reporter(Reporting.Checked(r), settings);
            && rep.outcome == Reporting.Thrown(Reporting.FailedPrefix +
                 (if Settings.Present(r.filename)
                  then r.filename.value + " -- " + "network-error line undefined column undefined"
                  else m.message))
            && rep.log == [Reporting.Header(false, settings.title.GetOr(r.title), "(messages: 1)"),
                           Reporting.MessageLine("HTML network-error:", Text.Substring0(m.message, settings.maxMessageLen))]
  {
    Reporting.ReportSingleFailure(r, m, settings);
    Reporting.NetworkErrorEntry(m.message);
    var lines := Reporting.MessageLines(m, settings.maxMessageLen);
    assert !Reporting.HasLocation(m);
    assert Messages.Label(m) == "network-error";
    assert "HTML " + "network-error" + ":" == "HTML network-error:";
    assert lines == [Reporting.MessageLine("HTML network-error:", Text.Substring0(m.message, settings.maxMessageLen))];
  }
}
