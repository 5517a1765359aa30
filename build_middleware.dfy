/**
 * The full format-negotiation middleware (build/middleware.js). A request for `X.<format>` is
 * answered from the stored alternate `X.<alternate>`: the middleware fetches it once, marking
 * that fetch with the loop-guard header, parses it, converts it and wraps the text in a
 * cacheable response. Anything it cannot or need not convert passes through.
 */
module BuildMiddleware {
  import opened Wrappers
  import opened JsStrings
  import opened Http

  // ---------------------------------------------------------------------------
  // Formats and the constant tables

  /** The keys of `mapperObject`. */
  datatype Format = Json | Yaml | Md | Html | Ts

  /** A format's extension token. */
  function Token(f: Format): string
  {
    match f
    case Json => "json"
    case Yaml => "yaml"
    case Md => "md"
    case Html => "html"
    case Ts => "ts"
  }

  /** `token in mapperObject`, for the object's own keys: the format a token names, if any. */
  function FormatOf(token: string): (r: Option<Format>)
    ensures r.Some? ==> Token(r.value) == token
  {
    if token == "json" then Some(Json)
    else if token == "yaml" then Some(Yaml)
    else if token == "md" then Some(Md)
    else if token == "html" then Some(Html)
    else if token == "ts" then Some(Ts)
    else None
  }

  /** The token table is a bijection: every format's token names that format, and no other token does. */
  lemma TokensRoundTrip(f: Format, token: string)
    ensures FormatOf(Token(f)) == Some(f)
    ensures FormatOf(token) == Some(f) <==> token == Token(f)
    ensures '.' !in Token(f) && |Token(f)| > 0
  {
  }

  /** `mapperObject`: the stored format each requested format is derived from. */
  function Alternate(f: Format): Format
  {
    match f
    case Json => Yaml
    case Yaml => Json
    case Md => Html
    case Html => Md
    case Ts => Json
  }

  /** The media-type table, indexed by the requested format. */
  function MediaType(f: Format): string
  {
    match f
    case Json => "application/json"
    case Yaml => "text/yaml"
    case Html => "text/html"
    case Md => "text/markdown"
    case Ts => "text/plain"
  }

  /** The extensions of `config.matcher` (`/:path*.json`, `/:path*.yaml`, `/:path*.html`, `/:path*.ts`). */
  const MatcherExtensions: seq<Format> := [Json, Yaml, Html, Ts]

  /** The platform runs the middleware only on paths ending in one of the matcher's extensions. */
  predicate Matches(pathname: string)
  {
    exists f :: f in MatcherExtensions && EndsWith(pathname, "." + Token(f))
  }

  /** The loop-guard header `X-Original-Format`, by its stored (lower-case) name. */
  const GuardHeader: string := "x-original-format"

  /** The formats `parseContent` has a case for. */
  predicate Parsed(f: Format)
  {
    f != Ts
  }

  /** The conversions `convertFormat` implements, as (stored format, requested format). */
  const Edges: set<(Format, Format)> := {(Json, Ts), (Json, Yaml), (Yaml, Json), (Md, Html)}

  // ---------------------------------------------------------------------------
  // parseContent and convertFormat

  /** `parseContent(content, format)`: decode structured formats, pass md and html text through. */
  function ParseContent(content: string, format: Format, codecs: Codecs): (r: Result<Json>)
    ensures (r.Err? && r.error.UnsupportedFormat?) <==> !Parsed(format)
    ensures r.Err? && r.error.UnsupportedFormat? ==> Message(r.error) == "Unsupported format: " + Token(format)
    ensures format == Md || format == Html ==> r == Ok(JString(content))
    ensures format == Json ==>
      if r.Ok? then codecs.jsonParse(content) == Some(r.value) else codecs.jsonParse(content).None?
    ensures format == Yaml ==>
      if r.Ok? then codecs.yamlParse(content) == Some(r.value) else codecs.yamlParse(content).None?
  {
    match format
    case Json =>
      (match codecs.jsonParse(content)
       case Some(v) => Ok(v)
       case None => Err(LibraryError("JSON.parse")))
    case Yaml =>
      (match codecs.yamlParse(content)
       case Some(v) => Ok(v)
       case None => Err(LibraryError("yaml.parse")))
    case Md => Ok(JString(content))
    case Html => Ok(JString(content))
    case Ts => Err(UnsupportedFormat(Token(format)))
  }

  /** The URL the `json -> ts` conversion fetches: the compile endpoint, pointed at `${origin}/${name}.json`. */
  function CompileUrl(origin: string, name: string): string
  {
    origin + "/compile?schemaUrl=" + origin + "/" + name + ".json"
  }

  /** A conversion's result, with the fetches it made (only `json -> ts` makes one). */
  datatype Converted = Converted(fetches: seq<OutboundRequest>, result: Result<string>)

  /** `convertFormat(data, fromFormat, toFormat, name, origin)`. */
  function ConvertFormat(data: Json, src: Format, dst: Format, name: string, origin: string,
                         fetch: Fetcher, codecs: Codecs): (c: Converted)
    ensures (src, dst) !in Edges ==>
      c == Converted([], Err(UnsupportedConversion(Token(src), Token(dst))))
    ensures (src, dst) in Edges ==> !(c.result.Err? && c.result.error.UnsupportedConversion?)
    ensures (c.fetches != []) == ((src, dst) == (Json, Ts))
    ensures c.fetches != [] ==> c.fetches == [OutboundRequest(CompileUrl(origin, name), map[])]
  {
    if src == Json && dst == Ts then
      var out := OutboundRequest(CompileUrl(origin, name), map[]);
      // `fetch(url).then((res) => res.text())`: the body is taken whatever the status.
      match fetch(out)
      case None => Converted([out], Err(NetworkError(out.url)))
      case Some(response) => Converted([out], Ok(response.body))
    else if src == Json && dst == Yaml then
      Converted([], Ok(codecs.yamlStringify(data)))
    else if src == Yaml && dst == Json then
      Converted([], Ok(codecs.jsonStringify(data)))
    else if src == Md && dst == Html then
      // marked accepts only a string.
      Converted([], if data.JString? then Ok(codecs.marked(data.s)) else Err(LibraryError("marked")))
    else
      Converted([], Err(UnsupportedConversion(Token(src), Token(dst))))
  }

  // ---------------------------------------------------------------------------
  // The middleware

  /** `requestedFormat`: the last `.`-segment of the path. */
  function RequestedToken(pathname: string): string
  {
    SplitLast(pathname, '.').1
  }

  /** `name`: the path up to its last `.`. */
  function ResourceName(pathname: string): string
  {
    SplitLast(pathname, '.').0
  }

  /** The alternate path: the first `.<requested>` in the path becomes `.<alternate>`. */
  function AlternatePath(pathname: string, requested: Format): string
  {
    ReplaceFirst(pathname, "." + Token(requested), "." + Token(Alternate(requested)))
  }

  /** The one fetch the middleware issues for an intercepted request, carrying the guard header. */
  function GuardedRequest(req: Request, requested: Format): OutboundRequest
  {
    OutboundRequest(req.origin + AlternatePath(req.pathname, requested), map[GuardHeader := Token(requested)])
  }

  /** The headers of a synthesised response. */
  function ResponseHeaders(requested: Format): map<string, string>
  {
    map["content-type" := MediaType(requested) + CharsetSuffix, "cache-control" := CacheControl]
  }

  /** `middleware(request)`. */
  function Middleware(req: Request, fetch: Fetcher, codecs: Codecs): (o: Outcome)
    ensures GuardHeader in req.headers ==> o == Outcome([], PassThrough)
    ensures |o.fetches| <= 2
    ensures |o.fetches| == 2 ==> FormatOf(RequestedToken(req.pathname)) == Some(Ts)
    ensures o.fetches != [] ==>
      && FormatOf(RequestedToken(req.pathname)).Some?
      && o.fetches[0].headers == map[GuardHeader := RequestedToken(req.pathname)]
    ensures o.result.Respond? ==>
      && FormatOf(RequestedToken(req.pathname)).Some?
      && o.result.response.status == 200
      && o.result.response.headers ==
           map["content-type" := MediaType(FormatOf(RequestedToken(req.pathname)).value) + "; charset=utf-8",
               "cache-control" := "public, max-age=3600"]
  {
    var (name, token) := SplitLast(req.pathname, '.');
    if GuardHeader in req.headers then
      Outcome([], PassThrough)
    else
      match FormatOf(token)
      case None => Outcome([], PassThrough)
      case Some(requested) =>
        var alternate := Alternate(requested);
        var out := GuardedRequest(req, requested);
        match fetch(out)
        case None => Outcome([out], Fail(NetworkError(out.url)))
        case Some(response) =>
          if !response.Ok() then
            Outcome([out], PassThrough)
          else
            match ParseContent(response.body, alternate, codecs)
            case Err(e) => Outcome([out], Fail(e))
            case Ok(content) =>
              var c := ConvertFormat(content, alternate, requested, name, req.origin, fetch, codecs);
              Outcome([out] + c.fetches,
                      match c.result
                      case Err(e) => Fail(e)
                      case Ok(text) => Respond(Response(200, ResponseHeaders(requested), text)))
  }

  // ---------------------------------------------------------------------------
  // The registry and the tables

  /**
   * The registry pairs json with yaml and md with html in both directions and derives ts from
   * json; no format is its own alternate, ts is nobody's alternate, and so every alternate is
   * itself a key with a case in `parseContent` (the "Unsupported format" throw is unreachable).
   */
  lemma RegistryWellFormed(f: Format)
    ensures Alternate(f) != f
    ensures Alternate(f) != Ts && Parsed(Alternate(f))
    ensures f != Ts ==> Alternate(Alternate(f)) == f
    ensures Alternate(Ts) == Json && Alternate(Json) == Yaml
  {
  }

  /** The media table entries of the data formats, each followed by the charset in the response. */
  lemma MediaTable()
    ensures ResponseHeaders(Json)["content-type"] == "application/json; charset=utf-8"
    ensures ResponseHeaders(Yaml)["content-type"] == "text/yaml; charset=utf-8"
    ensures ResponseHeaders(Ts)["content-type"] == "text/plain; charset=utf-8"
  {
    ContentTypeHeader(Json);
    ContentTypeHeader(Yaml);
    ContentTypeHeader(Ts);
  }

  /** The media table entries of the markup formats, each followed by the charset in the response. */
  lemma MarkupMediaTable()
    ensures ResponseHeaders(Html)["content-type"] == "text/html; charset=utf-8"
    ensures ResponseHeaders(Md)["content-type"] == "text/markdown; charset=utf-8"
  {
    ContentTypeHeader(Html);
    ContentTypeHeader(Md);
  }

  /** The content-type header of a synthesised response, before its text is spelled out. */
  lemma ContentTypeHeader(f: Format)
    ensures ResponseHeaders(f)["content-type"] == MediaType(f) + CharsetSuffix
  {
  }

  /** Every synthesised response may be cached publicly for an hour. */
  lemma CachedForAnHour(f: Format)
    ensures ResponseHeaders(f)["cache-control"] == "public, max-age=3600"
    ensures ResponseHeaders(f).Keys == {"content-type", "cache-control"}
  {
  }

  /** parseContent's "Unsupported format" throw cannot happen inside the middleware. */
  lemma NoUnsupportedFormatFromMiddleware(req: Request, fetch: Fetcher, codecs: Codecs)
    ensures var r := Middleware(req, fetch, codecs).result;
      !(r.Fail? && r.error.UnsupportedFormat?)
  {
    var token := RequestedToken(req.pathname);
    if GuardHeader !in req.headers && FormatOf(token).Some? {
      var f := FormatOf(token).value;
      var out := GuardedRequest(req, f);
      if fetch(out).Some? && fetch(out).value.Ok() {
        RegistryWellFormed(f);
        assert !ParseContent(fetch(out).value.body, Alternate(f), codecs).Err?
            || !ParseContent(fetch(out).value.body, Alternate(f), codecs).error.UnsupportedFormat?;
      }
    }
  }

  // ---------------------------------------------------------------------------
  // The path

  /** A resource name with dots keeps them all: only the last segment is the format token. */
  lemma MultiDotResourceName()
    ensures ResourceName("/v1.0.report.json") == "/v1.0.report"
    ensures RequestedToken("/v1.0.report.json") == "json"
  {
    SplitLastOfJoined("/v1.0.report", '.', "json");
    assert "/v1.0.report" + ['.'] + "json" == "/v1.0.report.json";
  }

  /** The path `name.<token>` splits back into `name` and the token. */
  lemma SplitOfDotted(name: string, f: Format)
    ensures RequestedToken(name + "." + Token(f)) == Token(f)
    ensures ResourceName(name + "." + Token(f)) == name
  {
    TokensRoundTrip(f, Token(f));
    SplitLastOfJoined(name, '.', Token(f));
  }

  /**
   * The replacement is textual: it rewrites the first `.<f>` in the path, wherever it is. In
   * `a + ".<f>" + rest`, with no `.<f>` inside `a`, that is the one right after `a`.
   */
  lemma AlternatePathRewritesFirstToken(a: string, f: Format, rest: string)
    requires IndexOf(a, "." + Token(f)).None?
    ensures AlternatePath(a + ("." + Token(f)) + rest, f) == a + ("." + Token(Alternate(f))) + rest
  {
    TokensRoundTrip(f, Token(f));
    var pat := "." + Token(f);
    assert pat[1..] == Token(f);
    ReplaceFirstAfter(a, pat, rest, "." + Token(Alternate(f)));
  }

  /** The extension `.<f>` at the very end of `name`, when it is the first one, is what is rewritten. */
  lemma AlternatePathOfExtension(name: string, f: Format)
    requires IndexOf(name, "." + Token(f)).None?
    ensures AlternatePath(name + ("." + Token(f)), f) == name + ("." + Token(Alternate(f)))
  {
    TokensRoundTrip(f, Token(f));
    var pat := "." + Token(f);
    assert pat[1..] == Token(f);
    ReplaceFirstAtEnd(name, pat, "." + Token(Alternate(f)));
  }

  /**
   * For a path `name.<f>` whose resource name does not contain `.<f>`, the split gives back
   * `name` and `f`, and the alternate path is `name` with the alternate extension.
   */
  lemma AlternatePathReplacesExtension(name: string, f: Format)
    requires IndexOf(name, "." + Token(f)).None?
    ensures FormatOf(RequestedToken(name + "." + Token(f))) == Some(f)
    ensures ResourceName(name + "." + Token(f)) == name
    ensures AlternatePath(name + "." + Token(f), f) == name + "." + Token(Alternate(f))
  {
    SplitOfDotted(name, f);
    TokensRoundTrip(f, Token(f));
    AlternatePathOfExtension(name, f);
    ConcatAssoc(name, ".", Token(f));
    ConcatAssoc(name, ".", Token(Alternate(f)));
  }

  /** The path `/v1.json.d/spec.json` is `/v1`, then `.json`, then `.d/spec.json`. */
  lemma EarlierTokenPieces()
    ensures "/v1" + ("." + Token(Json)) + ".d/spec.json" == "/v1.json.d/spec.json"
    ensures "/v1" + ("." + Token(Alternate(Json))) + ".d/spec.json" == "/v1.yaml.d/spec.json"
    ensures IndexOf("/v1", "." + Token(Json)).None?
  {
    assert forall j :: !MatchAt("/v1", j, ".json");
  }

  /** For instance `/v1.json.d/spec.json` asks for json, and its alternate rewrites the directory. */
  lemma AlternatePathRewritesEarlierToken()
    ensures RequestedToken("/v1.json.d/spec.json") == "json"
    ensures AlternatePath("/v1.json.d/spec.json", Json) == "/v1.yaml.d/spec.json"
  {
    SplitLastOfJoined("/v1.json.d/spec", '.', "json");
    assert "/v1.json.d/spec" + ['.'] + "json" == "/v1.json.d/spec.json";
    EarlierTokenPieces();
    AlternatePathRewritesFirstToken("/v1", Json, ".d/spec.json");
  }

  // ---------------------------------------------------------------------------
  // Interception, the guard and the fetches

  /**
   * Without the guard header, the middleware fetches exactly when the requested token is a
   * registry key, and its first fetch is the guarded fetch of the alternate path; otherwise
   * the request passes through untouched.
   */
  lemma InterceptsExactlyRegisteredFormats(req: Request, fetch: Fetcher, codecs: Codecs)
    requires GuardHeader !in req.headers
    ensures var o := Middleware(req, fetch, codecs);
      var f := FormatOf(RequestedToken(req.pathname));
      && (o.fetches == [] <==> f.None?)
      && (f.None? ==> o.result == PassThrough)
      && (f.Some? ==> o.fetches[0] == GuardedRequest(req, f.value))
  {
  }

  /**
   * Only the first fetch carries the guard header, and when that fetch comes back into the
   * middleware (same origin, the alternate path, the guard header) it passes through at once,
   * so there is no recursion.
   */
  lemma GuardedFetchIsNotIntercepted(req: Request, fetch: Fetcher, codecs: Codecs,
                                     fetch': Fetcher, codecs': Codecs)
    requires Middleware(req, fetch, codecs).fetches != []
    ensures var o := Middleware(req, fetch, codecs);
      var f := FormatOf(RequestedToken(req.pathname));
      && f.Some?
      && o.fetches[0].url == req.origin + AlternatePath(req.pathname, f.value)
      && Middleware(Request(req.origin, AlternatePath(req.pathname, f.value), o.fetches[0].headers), fetch', codecs')
         == Outcome([], PassThrough)
    ensures var o := Middleware(req, fetch, codecs);
      forall k :: 1 <= k < |o.fetches| ==> GuardHeader !in o.fetches[k].headers
  {
  }

  /**
   * A path without a dot (such as the compile endpoint's `/compile`) is never intercepted, so
   * the unguarded compile fetch of a `ts` conversion does not come back into the middleware.
   */
  lemma DotlessPathPassesThrough(req: Request, fetch: Fetcher, codecs: Codecs)
    requires |req.pathname| > 0 && req.pathname[0] == '/'
    requires '.' !in req.pathname
    ensures Middleware(req, fetch, codecs) == Outcome([], PassThrough)
  {
    assert RequestedToken(req.pathname) == req.pathname;
  }

  /**
   * A fetch that answers with a non-2xx status makes the request pass through after that one
   * fetch, with nothing parsed or converted; a fetch that rejects makes the middleware reject.
   */
  lemma FailedFetch(req: Request, fetch: Fetcher, codecs: Codecs, f: Format)
    requires GuardHeader !in req.headers
    requires FormatOf(RequestedToken(req.pathname)) == Some(f)
    ensures var out := GuardedRequest(req, f);
      fetch(out).Some? && !fetch(out).value.Ok() ==> Middleware(req, fetch, codecs) == Outcome([out], PassThrough)
    ensures var out := GuardedRequest(req, f);
      fetch(out).None? ==> Middleware(req, fetch, codecs) == Outcome([out], Fail(NetworkError(out.url)))
  {
  }

  /**
   * Fetched text that the alternate format's parser rejects makes the request fail with that
   * parser's error, after the single guarded fetch and with nothing converted.
   */
  lemma ParseFailureFails(req: Request, fetch: Fetcher, codecs: Codecs, f: Format, r: FetchResponse)
    requires GuardHeader !in req.headers && FormatOf(RequestedToken(req.pathname)) == Some(f)
    requires fetch(GuardedRequest(req, f)) == Some(r) && r.Ok()
    requires ParseContent(r.body, Alternate(f), codecs).Err?
    ensures Middleware(req, fetch, codecs)
         == Outcome([GuardedRequest(req, f)], Fail(ParseContent(r.body, Alternate(f), codecs).error))
  {
  }

  // ---------------------------------------------------------------------------
  // The matcher

  /** A matched path's requested token names one of the matcher's formats. */
  lemma MatchedFormat(pathname: string)
    requires Matches(pathname)
    ensures FormatOf(RequestedToken(pathname)).Some?
    ensures FormatOf(RequestedToken(pathname)).value in MatcherExtensions
  {
    var f :| f in MatcherExtensions && EndsWith(pathname, "." + Token(f));
    var init := pathname[..|pathname| - |Token(f)| - 1];
    assert pathname == init + "." + Token(f) by {
      assert pathname[|pathname| - |Token(f)| - 1..] == "." + Token(f);
    }
    SplitOfDotted(init, f);
    TokensRoundTrip(f, Token(f));
  }

  /** The only request whose conversion is missing from `convertFormat` is one for `.md`. */
  lemma OnlyMarkdownIsUnsupported(req: Request, fetch: Fetcher, codecs: Codecs)
    ensures var r := Middleware(req, fetch, codecs).result;
      r.Fail? && r.error.UnsupportedConversion? ==> FormatOf(RequestedToken(req.pathname)) == Some(Md)
  {
  }

  /**
   * On the paths the matcher lets through, neither "Unsupported" error can happen: `.md`, whose
   * conversion from html is not implemented, is not among the matched extensions.
   */
  lemma MatchedRequestsNeverUnsupported(req: Request, fetch: Fetcher, codecs: Codecs)
    requires Matches(req.pathname)
    ensures var r := Middleware(req, fetch, codecs).result;
      !(r.Fail? && (r.error.UnsupportedConversion? || r.error.UnsupportedFormat?))
    ensures FormatOf(RequestedToken(req.pathname)) != Some(Md)
  {
    MatchedFormat(req.pathname);
    NoUnsupportedFormatFromMiddleware(req, fetch, codecs);
    OnlyMarkdownIsUnsupported(req, fetch, codecs);
  }

  // ---------------------------------------------------------------------------
  // Conversions, request by request

  /** The response synthesised for `format` with `body`. */
  function Served(format: Format, body: string): Response
  {
    Response(200, ResponseHeaders(format), body)
  }

  /** `X.yaml` is served as the YAML rendering of the parsed `X.json`. */
  lemma ServesYamlFromJson(req: Request, fetch: Fetcher, codecs: Codecs, v: Json)
    requires GuardHeader !in req.headers && FormatOf(RequestedToken(req.pathname)) == Some(Yaml)
    requires var r := fetch(GuardedRequest(req, Yaml));
      r.Some? && r.value.Ok() && codecs.jsonParse(r.value.body) == Some(v)
    ensures Middleware(req, fetch, codecs)
         == Outcome([GuardedRequest(req, Yaml)], Respond(Served(Yaml, codecs.yamlStringify(v))))
  {
  }

  /** `X.json` is served as the 2-space JSON rendering of the parsed `X.yaml`. */
  lemma ServesJsonFromYaml(req: Request, fetch: Fetcher, codecs: Codecs, v: Json)
    requires GuardHeader !in req.headers && FormatOf(RequestedToken(req.pathname)) == Some(Json)
    requires var r := fetch(GuardedRequest(req, Json));
      r.Some? && r.value.Ok() && codecs.yamlParse(r.value.body) == Some(v)
    ensures Middleware(req, fetch, codecs)
         == Outcome([GuardedRequest(req, Json)], Respond(Served(Json, codecs.jsonStringify(v))))
  {
  }

  /** `X.html` is served as marked's rendering of the unparsed `X.md` text. */
  lemma ServesHtmlFromMarkdown(req: Request, fetch: Fetcher, codecs: Codecs)
    requires GuardHeader !in req.headers && FormatOf(RequestedToken(req.pathname)) == Some(Html)
    requires var r := fetch(GuardedRequest(req, Html)); r.Some? && r.value.Ok()
    ensures var body := fetch(GuardedRequest(req, Html)).value.body;
      Middleware(req, fetch, codecs)
      == Outcome([GuardedRequest(req, Html)], Respond(Served(Html, codecs.marked(body))))
  {
  }

  /**
   * `X.ts` is served with whatever body the compile endpoint answers for `${origin}/${name}.json`
   * (its status is not looked at); the parsed `X.json` only has to parse.
   */
  lemma ServesTsFromCompileEndpoint(req: Request, fetch: Fetcher, codecs: Codecs, v: Json)
    requires GuardHeader !in req.headers && FormatOf(RequestedToken(req.pathname)) == Some(Ts)
    requires var r := fetch(GuardedRequest(req, Ts));
      r.Some? && r.value.Ok() && codecs.jsonParse(r.value.body) == Some(v)
    requires fetch(OutboundRequest(CompileUrl(req.origin, ResourceName(req.pathname)), map[])).Some?
    ensures var compile := OutboundRequest(CompileUrl(req.origin, ResourceName(req.pathname)), map[]);
      Middleware(req, fetch, codecs)
      == Outcome([GuardedRequest(req, Ts), compile], Respond(Served(Ts, fetch(compile).value.body)))
  {
  }

  /** The `json -> ts` conversion ignores the parsed data. */
  lemma TsConversionIgnoresData(d1: Json, d2: Json, name: string, origin: string, fetch: Fetcher, codecs: Codecs)
    ensures ConvertFormat(d1, Json, Ts, name, origin, fetch, codecs)
         == ConvertFormat(d2, Json, Ts, name, origin, fetch, codecs)
  {
  }

  /**
   * The schema URL handed to the compile endpoint repeats the path's leading slash after the
   * origin, since the resource name already starts with it: `/spec.ts` gives `${origin}//spec.json`.
   */
  lemma CompileUrlRepeatsLeadingSlash(origin: string, base: string)
    requires '.' !in base
    ensures ResourceName("/" + base + ".ts") == "/" + base
    ensures CompileUrl(origin, ResourceName("/" + base + ".ts"))
         == origin + "/compile?schemaUrl=" + origin + "//" + base + ".json"
  {
    SplitLastOfJoined("/" + base, '.', "ts");
    assert "/" + base + ['.'] + "ts" == "/" + base + ".ts";
  }

  /** A request for `X.md` always fails once `X.html` is fetched: html to md is not implemented. */
  lemma MarkdownRequestFails(req: Request, fetch: Fetcher, codecs: Codecs)
    requires GuardHeader !in req.headers && FormatOf(RequestedToken(req.pathname)) == Some(Md)
    requires var r := fetch(GuardedRequest(req, Md)); r.Some? && r.value.Ok()
    ensures Middleware(req, fetch, codecs).result == Fail(UnsupportedConversion("html", "md"))
  {
  }

  /** The text the failed markdown request is reported with. */
  lemma MarkdownFailureMessage()
    ensures Message(UnsupportedConversion("html", "md")) == "Unsupported conversion from html to md"
  {
  }
}
