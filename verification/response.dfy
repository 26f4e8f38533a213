/** Response normalisation: what the checker answered, or how the request
    failed, turned into one result record. */
module Response {
  import opened Wrappers
  import Js
  import Text
  import Messages
  import Settings

  /** The HTTP response attached to a failed request (a non-2xx status). */
  datatype ErrorResponse = ErrorResponse(status: int, statusMessage: string, url: string, text: Option<string>)

  /** What the transport delivers: a response, or a failure with an optional
      HTTP response, a system error number and an error text. */
  datatype Transport =
    | Ok(statusCode: int, bodyMessages: Option<seq<Messages.Msg>>, text: Option<string>)
    | Fail(response: Option<ErrorResponse>, errno: Option<int>, errMessage: string)

  /** The canonical result of one `validate` call. `dryRun` is missing in the
      earlier variant, which has no such field. */
  datatype Results = Results(
    validates: bool,
    mode: Settings.Mode,
    title: string,
    html: Option<string>,
    filename: Option<string>,
    website: Option<string>,
    output: Settings.Output,
    status: int,
    messages: Option<seq<Messages.Msg>>,
    display: Option<string>,
    dryRun: Option<bool>)

  /** The marker of a passing check in the rendered HTML page. */
  const SuccessMarker := "<p class=\"success\">"

  /** The status code the response object exposes; 0 stands for none (`undefined`). */
  function StatusOf(t: Transport): int {
    match t
    case Ok(code, _, _) => code
    case Fail(res, _, _) => if res.Some? then res.value.status else 0
  }

  /** The page text the response object exposes. */
  function TextOf(t: Transport): Option<string> {
    match t
    case Ok(_, _, text) => text
    case Fail(res, _, _) => if res.Some? then res.value.text else None
  }

  /** The diagnostics of a failed request, joined by single spaces: status,
      status text and URL when there was an HTTP response, otherwise the error
      number and the error text. */
  function NetworkErrorText(t: Transport): string
    requires t.Fail?
  {
    match t.response
    case Some(res) => Text.Join([Js.JoinText(Js.Num(res.status)), res.statusMessage, res.url], " ")
    case None => Text.Join([Js.JoinText(Js.FromOptionalInt(t.errno)), t.errMessage], " ")
  }

  /** The single synthetic message standing for a failed request. */
  function NetworkErrorMessage(text: string): Messages.Msg {
    Messages.Msg(Messages.NetworkError, None, text, None, None, None, None, None, None)
  }

  /** `toValidatorResults`, given the (already filtered) messages, page text and status code. */
  function ToResults(ctx: Settings.Resolved, messages: seq<Messages.Msg>, text: Option<string>, statusCode: int, dryRun: Option<bool>): Results {
    var json := ctx.output == Settings.Json;
    Results(
      validates := if json then |messages| == 0 else text.Some? && Text.Includes(text.value, SuccessMarker),
      mode := ctx.mode,
      title := ctx.title,
      html := ctx.inputHtml,
      filename := ctx.filename,
      website := if Settings.Present(ctx.settings.website) then ctx.settings.website else None,
      output := ctx.output,
      status := if statusCode != 0 then statusCode else -1,
      messages := if json then Some(messages) else None,
      display := if json then None else text,
      dryRun := dryRun)
  }

  /** `then(filterMessages).then(toValidatorResults).catch(handleError)` on a
      settled transport. Filtering applies to successful JSON responses only;
      the synthetic network-error message is never filtered. */
  function Normalize(
    ctx: Settings.Resolved, test: Messages.RegexTest, ignoreList: seq<Messages.Pattern>,
    t: Transport, dryRun: Option<bool>): (r: Results)
    ensures && r.mode == ctx.mode && r.title == ctx.title && r.html == ctx.inputHtml
            && r.filename == ctx.filename && r.output == ctx.output && r.dryRun == dryRun
    ensures r.website == (if Settings.Present(ctx.settings.website) then ctx.settings.website else None)
    ensures r.status == (if StatusOf(t) != 0 then StatusOf(t) else -1)
    ensures ctx.output == Settings.Json ==>
              && r.display.None?
              && r.messages.Some?
              && (r.validates <==> |r.messages.value| == 0)
    ensures ctx.output == Settings.Html ==>
              && r.messages.None?
              && r.display == TextOf(t)
              && (r.validates <==> TextOf(t).Some? && Text.Includes(TextOf(t).value, SuccessMarker))
    ensures t.Ok? && ctx.output == Settings.Json ==>
              r.messages == Some(Messages.FilterBody(test, ctx.level, ignoreList, t.bodyMessages))
    ensures t.Fail? && ctx.output == Settings.Json ==>
              r.messages == Some([NetworkErrorMessage(NetworkErrorText(t))]) && !r.validates
  {
    match t
    case Ok(code, body, text) =>
      var kept := if ctx.output == Settings.Json then Messages.FilterBody(test, ctx.level, ignoreList, body) else [];
      ToResults(ctx, kept, text, code, dryRun)
    case Fail(res, _, _) =>
      ToResults(ctx, [NetworkErrorMessage(NetworkErrorText(t))], TextOf(t), StatusOf(t), dryRun)
  }

  /** The network-error text spelled out: with an HTTP response it is the
      status, the status text and the URL separated by single spaces; without
      one it is the error number (empty when there is none) and the error text. */
  lemma NetworkErrorTextShape(t: Transport)
    requires t.Fail?
    ensures t.response.Some? ==>
              NetworkErrorText(t) ==
                Text.IntToString(t.response.value.status) + " " + t.response.value.statusMessage + " " + t.response.value.url
    ensures t.response.None? && t.errno.Some? ==>
              NetworkErrorText(t) == Text.IntToString(t.errno.value) + " " + t.errMessage
    ensures t.response.None? && t.errno.None? ==> NetworkErrorText(t) == " " + t.errMessage
  {
    match t.response
    case Some(res) =>
      var parts := [Js.JoinText(Js.Num(res.status)), res.statusMessage, res.url];
      assert parts[0] == Text.IntToString(res.status);
      assert parts[1..][1..] == [res.url];
      assert Text.Join(parts[1..][1..], " ") == res.url;
      assert Text.Join(parts[1..], " ") == res.statusMessage + " " + res.url;
    case None =>
      var parts := [Js.JoinText(Js.FromOptionalInt(t.errno)), t.errMessage];
      assert t.errno.Some? ==> parts[0] == Text.IntToString(t.errno.value);
      assert t.errno.None? ==> parts[0] == "";
      assert parts[1..] == [t.errMessage];
      assert Text.Join(parts[1..], " ") == t.errMessage;
  }

  /** The text of a 503 reply as the test suite expects it: the code is rendered "503". */
  lemma ServiceUnavailableText(url: string)
    ensures NetworkErrorText(Fail(Some(ErrorResponse(503, "Service Unavailable", url, None)), None, "Service Unavailable"))
            == "503" + " " + "Service Unavailable" + " " + url
  {
    NetworkErrorTextShape(Fail(Some(ErrorResponse(503, "Service Unavailable", url, None)), None, "Service Unavailable"));
    assert Text.NatToString(5) == "5";
    assert Text.NatToString(50) == "50";
    assert Text.NatToString(503) == "503";
  }
}
