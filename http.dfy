/**
 * The incoming request as the servlet sees it through WEBrick: verb, path,
 * request line, the parsed query, the CGI-parsed URI query, the header hash
 * (lower-case names, one list of values per name) and the body chunks.
 */
module Http {
  import opened Wrappers
  import opened RubyText

  /** One octet of a body. */
  newtype byte = b: int | 0 <= b < 256

  /** `request.query`: WEBrick's parsed query string (form fields for a form POST). */
  type Query = map<string, string>

  /** `CGI::parse(request.request_uri.query || "")`: every value of every name. */
  type Params = map<string, seq<string>>

  /** `request.header`: the values of each header, under its lower-case name. */
  type Headers = map<string, seq<string>>

  datatype HttpRequest = HttpRequest(
    verb: string,
    path: string,
    requestLine: string,
    query: Query,
    params: Params,
    header: Headers,
    body: seq<string>)

  /** `request.header[name]`: the list of values, [] when the header is absent. */
  function HeaderValues(h: Headers, name: string): seq<string> {
    if name in h then h[name] else []
  }

  /** `request[name]`: all values joined by ", ", nil when there is none. */
  function HeaderText(h: Headers, name: string): (r: Option<string>)
    ensures r.None? <==> HeaderValues(h, name) == []
    ensures |HeaderValues(h, name)| == 1 ==> r == Some(HeaderValues(h, name)[0])
  {
    var vs := HeaderValues(h, name);
    if vs == [] then None else Some(Join(vs, ", "))
  }

  /** `request.header[name].first`. */
  function HeaderFirst(h: Headers, name: string): Option<string> {
    var vs := HeaderValues(h, name);
    if vs == [] then None else Some(vs[0])
  }

  /** `params[name].first`: the first value of a CGI-parsed parameter, nil when absent. */
  function ParamFirst(p: Params, name: string): Option<string> {
    if name in p && p[name] != [] then Some(p[name][0]) else None
  }

  /** `query[name]`: nil when absent. */
  function QueryValue(q: Query, name: string): Option<string> {
    if name in q then Some(q[name]) else None
  }

  /** The chunks of a body, appended in order. */
  function Concat(chunks: seq<string>): string
    decreases |chunks|
  {
    if chunks == [] then "" else Concat(chunks[..|chunks| - 1]) + chunks[|chunks| - 1]
  }

  /** `request.body`: the whole body as one string. */
  function BodyText(req: HttpRequest): string {
    Concat(req.body)
  }

  /**
   * `request.body { |chunk| parts_xml << chunk }` (server.rb:513-514): the
   * body-reading loop, appending each chunk to the buffer.
   */
  method ReadBody(chunks: seq<string>) returns (text: string)
    ensures text == Concat(chunks)
  {
    text := "";
    var i := 0;
    while i < |chunks|
      invariant 0 <= i <= |chunks|
      invariant text == Concat(chunks[..i])
    {
      assert chunks[..i + 1][..i] == chunks[..i];
      text := text + chunks[i];
      i := i + 1;
    }
    assert chunks[..|chunks|] == chunks;
  }
}
