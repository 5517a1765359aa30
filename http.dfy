/**
 * The request/response vocabulary shared by the two middleware versions and the compile
 * endpoint. The network and the codec libraries are not modelled: they are oracles, supplied
 * as function-valued fields, and every fetch a handler makes is recorded in its outcome.
 */
module Http {
  import opened Wrappers

  /**
   * A parsed JSON or YAML document (JavaScript's `any` after `JSON.parse` / `yaml.parse`).
   * A number keeps its source text; the codecs are oracles, so its value never matters.
   */
  datatype Json =
    | JNull
    | JBool(b: bool)
    | JNumber(text: string)
    | JString(s: string)
    | JArray(items: seq<Json>)
    | JObject(members: seq<(string, Json)>)

  /** What a handler can throw. */
  datatype Error =
    | UnsupportedFormat(format: string)               // parseContent's default branch
    | UnsupportedConversion(src: string, dst: string) // convertFormat's final throw
    | LibraryError(operation: string)                 // JSON.parse, yaml.parse or marked threw
    | NetworkError(url: string)                       // the fetch promise rejected

  /** The text of the errors the middleware throws itself. */
  function Message(e: Error): (m: string)
    requires e.UnsupportedFormat? || e.UnsupportedConversion?
  {
    match e
    case UnsupportedFormat(f) => "Unsupported format: " + f
    case UnsupportedConversion(src, dst) => "Unsupported conversion from " + src + " to " + dst
  }

  datatype Result<+T> = Ok(value: T) | Err(error: Error)

  /**
   * An inbound request: the parts of `new URL(request.url)` the handlers read, and the headers.
   * Header names are lower-case, as the `Headers` class stores them.
   */
  datatype Request = Request(origin: string, pathname: string, headers: map<string, string>)

  /** A request the handler sends out with `fetch`: the URL string it builds, and its headers. */
  datatype OutboundRequest = OutboundRequest(url: string, headers: map<string, string>)

  /** What the origin answers to a fetch. */
  datatype FetchResponse = FetchResponse(status: nat, body: string) {
    /** `response.ok`: a 2xx status. */
    predicate Ok() { 200 <= status <= 299 }
  }

  /** `fetch` as an oracle: `None` when the returned promise rejects. */
  type Fetcher = OutboundRequest -> Option<FetchResponse>

  /** A synthesised `new Response(body, { status, headers })` (status 200 when none is given). */
  datatype Response = Response(status: nat, headers: map<string, string>, body: string)

  /** What a middleware invocation resolves to. */
  datatype Handled =
    | PassThrough          // resolves to `undefined`: the platform serves the request as usual
    | Respond(response: Response)
    | Fail(error: Error)   // the returned promise rejects

  /** The result of one middleware invocation together with every fetch it issued, in order. */
  datatype Outcome = Outcome(fetches: seq<OutboundRequest>, result: Handled)

  /** The codec libraries as oracles. A parse returns `None` when the library throws. */
  datatype Codecs = Codecs(
    jsonParse: string -> Option<Json>,       // JSON.parse(text)
    yamlParse: string -> Option<Json>,       // yaml.parse(text)
    jsonStringify: Json -> string,           // JSON.stringify(data, null, 2)
    yamlStringify: Json -> string,           // yaml.stringify(data)
    marked: string -> string)                // marked(markdown)

  const CacheControl: string := "public, max-age=3600"
  const CharsetSuffix: string := "; charset=utf-8"
}
