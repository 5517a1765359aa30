/**
 * The earlier yaml/json-only middleware (middleware.ts). A request for `X.yaml` is answered by
 * fetching `X.json` and re-encoding it, and the reverse. The alternate path is made by
 * replacing the first occurrence of the bare token, and the fetch carries no marker, so the
 * only thing that keeps the middleware from intercepting its own fetches is the
 * `/:path*.yaml` matcher.
 */
module YamlMiddleware {
  import opened Wrappers
  import opened JsStrings
  import opened Http

  // ---------------------------------------------------------------------------
  // Formats

  /** `SupportedFormat`. */
  datatype Format = Json | Yaml

  function Token(f: Format): string
  {
    match f
    case Json => "json"
    case Yaml => "yaml"
  }

  /** The filter `requestedFormat !== "yaml" && requestedFormat !== "json"`, as a lookup. */
  function FormatOf(token: string): (r: Option<Format>)
    ensures r.Some? ==> Token(r.value) == token
    ensures r.None? <==> token != "yaml" && token != "json"
  {
    if token == "yaml" then Some(Yaml)
    else if token == "json" then Some(Json)
    else None
  }

  /** `alternateFormat`: the other member of the pair. */
  function Toggle(f: Format): Format
  {
    if f == Yaml then Json else Yaml
  }

  /** The toggle never returns its argument and undoes itself. */
  lemma ToggleIsInvolution(f: Format)
    ensures Toggle(f) != f
    ensures Toggle(Toggle(f)) == f
    ensures FormatOf(Token(f)) == Some(f)
  {
  }

  /** The platform runs this middleware only on paths ending in `.yaml` (`/:path*.yaml`). */
  predicate Matches(pathname: string)
  {
    EndsWith(pathname, ".yaml")
  }

  // ---------------------------------------------------------------------------
  // The codecs

  /** `parseContent`: the named format's parser; a parser that throws is an error. */
  function ParseContent(content: string, format: Format, codecs: Codecs): (r: Result<Json>)
    ensures format == Json ==>
      if r.Ok? then codecs.jsonParse(content) == Some(r.value) else codecs.jsonParse(content).None?
    ensures format == Yaml ==>
      if r.Ok? then codecs.yamlParse(content) == Some(r.value) else codecs.yamlParse(content).None?
  {
    match format
    case Json =>
      (match codecs.jsonParse(content)
       case Some(v) => Ok(v)
       case None => Err(LibraryError("JSON.parse")))
    case Yaml =>
      (match codecs.yamlParse(content)
       case Some(v) => Ok(v)
       case None => Err(LibraryError("yaml.parse")))
  }

  /** `convertFormat`: the encoder of the target format (2-space JSON or YAML). */
  function ConvertFormat(data: Json, toFormat: Format, codecs: Codecs): string
  {
    if toFormat == Json then codecs.jsonStringify(data) else codecs.yamlStringify(data)
  }

  // ---------------------------------------------------------------------------
  // The middleware

  /** `requestedFormat`: the last `.`-segment of the path. */
  function RequestedToken(pathname: string): string
  {
    SplitLast(pathname, '.').1
  }

  /** `url.pathname.replace(requestedFormat, alternateFormat)`: the bare token, first occurrence. */
  function AlternatePath(pathname: string, requested: Format): string
  {
    ReplaceFirst(pathname, Token(requested), Token(Toggle(requested)))
  }

  /** The fetch of the alternate URL; it carries no headers of its own. */
  function AlternateRequest(req: Request, requested: Format): OutboundRequest
  {
    OutboundRequest(req.origin + AlternatePath(req.pathname, requested), map[])
  }

  function ContentType(requested: Format): string
  {
    (if requested == Json then "application/json" else "text/yaml") + CharsetSuffix
  }

  function ResponseHeaders(requested: Format): map<string, string>
  {
    map["content-type" := ContentType(requested), "cache-control" := CacheControl]
  }

  /** `middleware(request)`. */
  function Middleware(req: Request, fetch: Fetcher, codecs: Codecs): (o: Outcome)
    ensures FormatOf(RequestedToken(req.pathname)).None? <==> o == Outcome([], PassThrough)
    ensures FormatOf(RequestedToken(req.pathname)).Some? ==>
      o.fetches == [AlternateRequest(req, FormatOf(RequestedToken(req.pathname)).value)]
    ensures forall i :: 0 <= i < |o.fetches| ==> o.fetches[i].headers == map[]
    ensures o.result.Respond? ==>
      && o.result.response.status == 200
      && o.result.response.headers.Keys == {"content-type", "cache-control"}
      && o.result.response.headers["cache-control"] == "public, max-age=3600"
  {
    match FormatOf(RequestedToken(req.pathname))
    case None => Outcome([], PassThrough)
    case Some(requested) =>
      var alternate := Toggle(requested);
      var out := AlternateRequest(req, requested);
      match fetch(out)
      case None => Outcome([out], Fail(NetworkError(out.url)))
      case Some(response) =>
        if !response.Ok() then
          Outcome([out], PassThrough)
        else
          match ParseContent(response.body, alternate, codecs)
          case Err(e) => Outcome([out], Fail(e))
          case Ok(content) =>
            Outcome([out], Respond(Response(200, ResponseHeaders(requested), ConvertFormat(content, requested, codecs))))
  }

  // ---------------------------------------------------------------------------
  // Requests, one by one

  /** The media types: json is served as `application/json`, yaml as `text/yaml`. */
  lemma MediaTypes()
    ensures ContentType(Json) == "application/json; charset=utf-8"
    ensures ContentType(Yaml) == "text/yaml; charset=utf-8"
  {
  }

  /** A failed or non-ok fetch ends the request: nothing is parsed, the request passes through. */
  lemma FetchFailure(req: Request, fetch: Fetcher, codecs: Codecs, f: Format)
    requires FormatOf(RequestedToken(req.pathname)) == Some(f)
    ensures var out := AlternateRequest(req, f);
      fetch(out).Some? && !fetch(out).value.Ok() ==> Middleware(req, fetch, codecs) == Outcome([out], PassThrough)
    ensures var out := AlternateRequest(req, f);
      fetch(out).None? ==> Middleware(req, fetch, codecs) == Outcome([out], Fail(NetworkError(out.url)))
  {
  }

  /** A yaml request decodes the fetched text as JSON and answers with its YAML encoding. */
  lemma ServesYamlFromJson(req: Request, fetch: Fetcher, codecs: Codecs, v: Json)
    requires RequestedToken(req.pathname) == "yaml"
    requires var out := AlternateRequest(req, Yaml);
      fetch(out).Some? && fetch(out).value.Ok() && codecs.jsonParse(fetch(out).value.body) == Some(v)
    ensures Middleware(req, fetch, codecs).result ==
      Respond(Response(200, ResponseHeaders(Yaml), codecs.yamlStringify(v)))
  {
  }

  /** A json request decodes the fetched text as YAML and answers with its 2-space JSON encoding. */
  lemma ServesJsonFromYaml(req: Request, fetch: Fetcher, codecs: Codecs, v: Json)
    requires RequestedToken(req.pathname) == "json"
    requires var out := AlternateRequest(req, Json);
      fetch(out).Some? && fetch(out).value.Ok() && codecs.yamlParse(fetch(out).value.body) == Some(v)
    ensures Middleware(req, fetch, codecs).result ==
      Respond(Response(200, ResponseHeaders(Json), codecs.jsonStringify(v)))
  {
  }

  /** Text the alternate format's parser rejects ends the request with that parser's error. */
  lemma UnparsableAlternate(req: Request, fetch: Fetcher, codecs: Codecs, f: Format, r: FetchResponse)
    requires FormatOf(RequestedToken(req.pathname)) == Some(f)
    requires fetch(AlternateRequest(req, f)) == Some(r) && r.Ok()
    requires ParseContent(r.body, Toggle(f), codecs).Err?
    ensures Middleware(req, fetch, codecs)
         == Outcome([AlternateRequest(req, f)], Fail(ParseContent(r.body, Toggle(f), codecs).error))
  {
  }

  // ---------------------------------------------------------------------------
  // The path

  /** A matched path asks for yaml and contains the token, so the replace always rewrites something. */
  lemma MatchedPathAsksForYaml(p: string)
    requires Matches(p)
    ensures RequestedToken(p) == "yaml"
    ensures FormatOf(RequestedToken(p)) == Some(Yaml)
    ensures IndexOf(p, "yaml").Some?
  {
    var init := p[..|p| - 5];
    assert p == init + ['.'] + "yaml" by {
      assert p[|p| - 5..] == ".yaml";
    }
    SplitLastOfJoined(init, '.', "yaml");
    assert MatchAt(p, |p| - 4, "yaml") by {
      assert p[|p| - 4..|p|] == "yaml";
    }
  }

  /**
   * The bare token is replaced wherever it first occurs: a path under a top-level `/yaml`
   * directory, `/yaml/x.yaml` say, is fetched as `/json/x.yaml`, which the matcher takes again.
   */
  lemma BareTokenRewritesDirectory(rest: string)
    ensures AlternatePath("/yaml" + rest, Yaml) == "/json" + rest
    ensures Matches(rest) ==> Matches("/json" + rest)
  {
    DirectoryPieces(rest);
    ReplaceFirstAfter("/", "yaml", rest, "json");
    if Matches(rest) {
      assert ("/json" + rest)[|"/json" + rest| - 5..] == rest[|rest| - 5..];
    }
  }

  /** `/yaml` + `rest` is `/`, then the token, then `rest`; `/` holds no token. */
  lemma DirectoryPieces(rest: string)
    ensures "/" + "yaml" + rest == "/yaml" + rest
    ensures "/" + "json" + rest == "/json" + rest
    ensures IndexOf("/", "yaml").None?
    ensures "yaml"[0] !in "yaml"[1..]
  {
    ConcatAssoc("/", "yaml", rest);
    ConcatAssoc("/", "json", rest);
  }

  /**
   * When `yaml` occurs in the path only as its extension, the fetch target is the same name with
   * the extension `.json`, and the matcher lets it through untouched.
   */
  lemma ExtensionOnlyReplace(name: string)
    requires IndexOf(name, "yaml").None?
    ensures RequestedToken(name + ".yaml") == "yaml"
    ensures AlternatePath(name + ".yaml", Yaml) == name + ".json"
    ensures !Matches(name + ".json")
  {
    MatchedPathAsksForYaml(name + ".yaml");
    NoMatchAppendForeign(name, '.', "yaml");
    ExtensionRewrite(name);
    JsonPathNotMatched(name);
  }

  /** With no `yaml` before the extension, the replace rewrites the extension. */
  lemma ExtensionRewrite(name: string)
    requires IndexOf(name + ".", "yaml").None?
    ensures AlternatePath(name + ".yaml", Yaml) == name + ".json"
  {
    Dotted(name);
    ReplaceFirstAtEnd(name + ".", "yaml", "json");
  }

  lemma Dotted(name: string)
    ensures name + ".yaml" == name + "." + "yaml"
    ensures name + ".json" == name + "." + "json"
  {
    ConcatAssoc(name, ".", "yaml");
    ConcatAssoc(name, ".", "json");
  }

  /** A `.json` path is not taken by the `.yaml` matcher. */
  lemma JsonPathNotMatched(name: string)
    ensures !Matches(name + ".json")
  {
    assert (name + ".json")[|name| + 1] == 'j';
  }

  // ---------------------------------------------------------------------------
  // Loop safety

  /** The platform intercepts a request for `a`, and the middleware fetches `b` for it. */
  predicate Refetches(a: string, b: string)
  {
    Matches(a) && b == AlternatePath(a, Yaml)
  }

  /**
   * The paths the middleware fetches when each fetch of a matched path is itself intercepted
   * again: every hop is the alternate path of the one before, the chain stops at the first
   * path the matcher does not take, and it is no longer than the number of `yaml`s in the start.
   */
  function Hops(p: string): (hops: seq<string>)
    ensures Matches(p) <==> hops != []
    ensures |hops| <= Occurrences(p, "yaml")
    ensures hops != [] ==> Refetches(p, hops[0]) && !Matches(hops[|hops| - 1])
    ensures forall i :: 0 <= i < |hops| - 1 ==> Refetches(hops[i], hops[i + 1])
    decreases Occurrences(p, "yaml")
  {
    if !Matches(p) then []
    else
      var q := AlternatePath(p, Yaml);
      YamlReplaceShrinks(p);
      var rest := Hops(q);
      [q] + rest
  }

  /** Replacing a `yaml` by `json` (no shared letters) leaves one `yaml` fewer. */
  lemma YamlReplaceShrinks(p: string)
    requires Matches(p)
    ensures Occurrences(AlternatePath(p, Yaml), "yaml") == Occurrences(p, "yaml") - 1
    ensures Occurrences(p, "yaml") >= 1
  {
    MatchedPathAsksForYaml(p);
    var rep := "json";
    assert forall k :: 0 <= k < |rep| ==> rep[k] !in "yaml";
    ReplaceFirstRemovesOne(p, "yaml", rep);
  }

  /** The first hop is the middleware's own fetch for a matched request. */
  lemma FirstHopIsTheFetch(req: Request, fetch: Fetcher, codecs: Codecs)
    requires Matches(req.pathname)
    ensures Middleware(req, fetch, codecs).fetches ==
      [OutboundRequest(req.origin + Hops(req.pathname)[0], map[])]
  {
    MatchedPathAsksForYaml(req.pathname);
  }

  /** With `yaml` only as the extension, the middleware's fetch is not intercepted again. */
  lemma SingleHop(name: string)
    requires IndexOf(name, "yaml").None?
    ensures Hops(name + ".yaml") == [name + ".json"]
  {
    ExtensionOnlyReplace(name);
    assert Hops(name + ".json") == [];
  }
}
