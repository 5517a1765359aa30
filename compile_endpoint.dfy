/**
 * The compile endpoint (api/compile.ts). `GET /compile?schemaUrl=<url>` fetches the JSON schema
 * at `<url>`, compiles it to TypeScript declarations and answers with them as plain text; a
 * missing parameter is a client error (422) and any failure on the way is a server error (500).
 */
module CompileEndpoint {
  import opened Wrappers
  import opened JsStrings
  import opened Http

  /** The options object passed to the schema compiler. */
  datatype CompileOptions = CompileOptions(declareExternallyReferenced: bool, bannerComment: string)

  /** The endpoint always compiles with external references declared and no banner comment. */
  const Options: CompileOptions := CompileOptions(true, "")

  /** One call `compile(schema, name, options)`. */
  datatype CompileCall = CompileCall(schema: Json, name: string, options: CompileOptions)

  /**
   * What the endpoint depends on: the network, the body decoder of `res.json()` and the schema
   * compiler; each returns `None` where the original rejects its promise.
   */
  datatype Env = Env(
    fetch: Fetcher,
    jsonParse: string -> Option<Json>,
    compile: CompileCall -> Option<string>)

  /** The response together with every fetch and every compiler call made on the way. */
  datatype GetOutcome = GetOutcome(fetches: seq<OutboundRequest>, compiles: seq<CompileCall>, response: Response)

  const MissingMessage: string := "No schemaUrl passed"
  const FailureMessage: string := "smth went wroong"

  /** The name the types are declared under: the URL with its last `.`-segment dropped. */
  function Filename(schemaUrl: string): string
  {
    SplitLast(schemaUrl, '.').0
  }

  /** `!schemaUrl`: the parameter is absent (`null`) or empty. */
  predicate Missing(schemaUrl: Option<string>)
  {
    schemaUrl.None? || schemaUrl.value == ""
  }

  /** The response for any failure inside the `try`. */
  function Failure(): Response
  {
    Response(500, map[], FailureMessage)
  }

  /** `GET(request)`, given the value of the request's `schemaUrl` query parameter. */
  function Get(schemaUrl: Option<string>, env: Env): (o: GetOutcome)
    ensures Missing(schemaUrl) <==> o.response.status == 422
    ensures Missing(schemaUrl) ==> o == GetOutcome([], [], Response(422, map[], "No schemaUrl passed"))
    ensures !Missing(schemaUrl) ==>
      o.fetches == [OutboundRequest(schemaUrl.value, map[])]
    ensures o.response.status in {200, 422, 500}
    ensures o.response.status == 500 ==> o.response == Response(500, map[], "smth went wroong")
    ensures forall i :: 0 <= i < |o.compiles| ==>
      o.compiles[i].options == CompileOptions(true, "") && o.compiles[i].name == Filename(schemaUrl.value)
    ensures |o.compiles| <= 1
  {
    if Missing(schemaUrl) then
      GetOutcome([], [], Response(422, map[], MissingMessage))
    else
      var url := schemaUrl.value;
      var out := OutboundRequest(url, map[]);
      match env.fetch(out)
      case None => GetOutcome([out], [], Failure())
      case Some(res) =>
        match env.jsonParse(res.body)
        case None => GetOutcome([out], [], Failure())
        case Some(json) =>
          var call := CompileCall(json, Filename(url), Options);
          match env.compile(call)
          case None => GetOutcome([out], [call], Failure())
          case Some(ts) => GetOutcome([out], [call], Response(200, map["content-type" := "text/plain"], ts))
  }

  /**
   * Success: the endpoint answers 200 exactly when the fetch, the decoding and the compiler all
   * succeed, and then it serves the compiler's output as plain text.
   */
  lemma SucceedsIffEveryStepSucceeds(url: string, env: Env)
    requires url != ""
    ensures var o := Get(Some(url), env);
      o.response.status == 200 <==>
        && env.fetch(OutboundRequest(url, map[])).Some?
        && env.jsonParse(env.fetch(OutboundRequest(url, map[])).value.body).Some?
        && env.compile(CompileCall(env.jsonParse(env.fetch(OutboundRequest(url, map[])).value.body).value,
                                   Filename(url), Options)).Some?
    ensures var o := Get(Some(url), env);
      o.response.status == 200 ==>
        && o.response.headers == map["content-type" := "text/plain"]
        && o.compiles != []
        && Some(o.response.body) == env.compile(o.compiles[0])
  {
  }

  /**
   * Failure: the endpoint answers 500 with the fixed body exactly when the fetch rejects, the
   * body does not decode, or the compiler fails; a rejected fetch stops before the compiler.
   */
  lemma FailsIffSomeStepFails(url: string, env: Env)
    requires url != ""
    ensures var o := Get(Some(url), env);
      var res := env.fetch(OutboundRequest(url, map[]));
      o.response == Response(500, map[], "smth went wroong") <==>
        || res.None?
        || env.jsonParse(res.value.body).None?
        || env.compile(CompileCall(env.jsonParse(res.value.body).value, Filename(url), Options)).None?
    ensures var o := Get(Some(url), env);
      env.fetch(OutboundRequest(url, map[])).None? ==> o == GetOutcome([OutboundRequest(url, map[])], [], Failure())
  {
  }

  /** The response status of the fetched schema is not looked at: a 404 whose body decodes is compiled. */
  lemma FetchStatusIgnored(url: string, env: Env, status: nat, body: string, json: Json)
    requires url != ""
    requires env.fetch(OutboundRequest(url, map[])) == Some(FetchResponse(status, body))
    requires env.jsonParse(body) == Some(json)
    ensures Get(Some(url), env).compiles == [CompileCall(json, Filename(url), CompileOptions(true, ""))]
  {
  }

  /** Dropping the last segment keeps every earlier dot: `a.b/schema.json` names `a.b/schema`. */
  lemma FilenameDropsLastSegment(base: string, ext: string)
    requires '.' !in ext
    ensures Filename(base + "." + ext) == base
  {
    SplitLastOfJoined(base, '.', ext);
  }

  /** A URL with no dot at all yields the empty name. */
  lemma DotlessUrlHasEmptyFilename(url: string)
    requires '.' !in url
    ensures Filename(url) == ""
  {
  }

  /** The name together with the last segment gives the URL back. */
  lemma FilenameReconstructs(url: string)
    requires '.' in url
    ensures Filename(url) + "." + SplitLast(url, '.').1 == url
  {
  }

  /**
   * The schema URL the full middleware sends for `<name>.ts` is `<origin>/<name>.json`, so the
   * types are declared under `<origin>/<name>`: dots in the origin or the name are kept.
   */
  lemma MiddlewareSchemaName(origin: string, name: string)
    ensures Filename(origin + "/" + name + ".json") == origin + "/" + name
  {
    ConcatAssoc(origin + "/" + name, ".", "json");
    assert "." + "json" == ".json";
    FilenameDropsLastSegment(origin + "/" + name, "json");
  }
}
