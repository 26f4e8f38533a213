/** The outbound request to the checker, described as data rather than sent. */
module Request {
  import opened Wrappers
  import Settings

  datatype Method = Get | Post
  datatype Header = Header(name: string, value: string)

  /** A query parameter; a missing value is `undefined` handed to `.query()`. */
  datatype Param = Param(name: string, value: Option<string>)

  datatype RequestSpec = RequestSpec(
    verb: Method,
    url: string,
    headers: seq<Header>,
    query: seq<Param>,
    body: Option<string>)

  const UserAgent := "W3C HTML Validator ~ github.com/center-key/w3c-html-validator"
  const HtmlContentType := "text/html; encoding=utf-8"

  /** The value of the first header called `name`, if any. */
  function HeaderValue(headers: seq<Header>, name: string): Option<string>
    decreases |headers|
  {
    if |headers| == 0 then None
    else if headers[0].name == name then Some(headers[0].value)
    else HeaderValue(headers[1..], name)
  }

  /** The value of the first query parameter called `name`, if there is one. */
  function ParamValue(query: seq<Param>, name: string): Option<Option<string>>
    decreases |query|
  {
    if |query| == 0 then None
    else if query[0].name == name then Some(query[0].value)
    else ParamValue(query[1..], name)
  }

  /** A POST carrying the payload when there is a non-empty one, a GET naming
      the website otherwise; the User-Agent header and `out` are always set. */
  function Build(checkUrl: string, inputHtml: Option<string>, website: Option<string>, output: Settings.Output): (r: RequestSpec)
    ensures r.url == checkUrl
    ensures r.verb == Post <==> Settings.Present(inputHtml)
    ensures r.verb == Post ==>
              && r.body == inputHtml
              && HeaderValue(r.headers, "Content-Type") == Some(HtmlContentType)
              && ParamValue(r.query, "doc").None?
    ensures r.verb == Get ==>
              && r.body.None?
              && HeaderValue(r.headers, "Content-Type").None?
              && ParamValue(r.query, "doc") == Some(website)
    ensures HeaderValue(r.headers, "User-Agent") == Some(UserAgent)
    ensures ParamValue(r.query, "out") == Some(Some(Settings.OutputName(output)))
    ensures |r.headers| == (if r.verb == Post then 2 else 1)
    ensures |r.query| == (if r.verb == Post then 1 else 2)
  {
    var out := Param("out", Some(Settings.OutputName(output)));
    var agent := Header("User-Agent", UserAgent);
    if Settings.Present(inputHtml) then
      RequestSpec(Post, checkUrl, [Header("Content-Type", HtmlContentType), agent], [out], inputHtml)
    else
      RequestSpec(Get, checkUrl, [agent], [Param("doc", website), out], None)
  }
}
