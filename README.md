# Format-negotiation middleware, modelled in Dafny

The repository serves each document in several representations but stores only one. A
request for `X.yaml` is answered from the stored `X.json`, and the reverse. `X.html` is
rendered from `X.md`, and `X.ts` comes from compiling `X.json` into TypeScript declarations.
Three pieces of code do this, and each is modelled in its own module:

- `BuildMiddleware` (`build_middleware.dfy`) models the full edge middleware. It splits the
  path on its last dot and skips requests that carry the `X-Original-Format` loop-guard header.
  It looks the requested extension up in the alternate-format table and rewrites the first
  `.<requested>` in the path to `.<alternate>`. It fetches that path once, sending the guard
  header, then parses the text, converts it and answers with a cacheable response.
- `YamlMiddleware` (`yaml_middleware.dfy`) models the earlier yaml/json-only middleware. It
  replaces the bare token (no dot) and its fetch carries no header, so only the `.yaml`
  matcher stops it from intercepting its own fetches.
- `CompileEndpoint` (`compile_endpoint.dfy`) models `GET /compile?schemaUrl=…`. It answers 422
  when the parameter is missing. Otherwise it fetches the schema, decodes it and compiles it
  under a name derived from the URL, answering 200 on success and 500 on any failure.

Shared pieces:

- `JsStrings` (`js_strings.dfy`) gives the JavaScript string operations the code relies on, with
  their edge cases: `split`/`pop`/`join`, `indexOf`, `replace` with a string pattern (first
  occurrence only), `endsWith` and an occurrence count.
- `Http` (`http.dfy`) holds requests, responses, the error kinds and the outcome of one
  invocation. The outcome records every fetch the handler issued, so "no fetch" and "exactly
  one fetch" can be stated.
- `Wrappers` (`wrappers.dfy`) holds `Option`.

The network, the JSON/YAML codecs, `marked` and the schema compiler are oracles: they are
function-valued parameters and their results are arbitrary. A `None` from an oracle is a
promise that rejects or a library call that throws. Header names are stored lower-case
(`x-original-format`, `content-type`), as the Fetch `Headers` class stores them.

Where the code's behaviour is surprising, the model follows the code:

- The `json → ts` conversion serves the compile endpoint's body whatever its status.
- The compile endpoint decodes the schema body without looking at the fetch status.
- The schema URL repeats the path's leading slash (`${origin}//spec.json`).
- `middleware.ts` rewrites the first bare `yaml` anywhere in the path, such as a `/yaml/`
  directory.

## Model

| member | source | states |
|---|---|---|
| JsStrings.Split | build/middleware.js:45 | `split(".")` yields at least one chunk and no chunk contains the separator; there is exactly one chunk, the whole string, when the separator is absent |
| JsStrings.JoinSplit | build/middleware.js:45-47 | joining the chunks of a split with the same separator gives the original string back |
| JsStrings.SplitLast | build/middleware.js:45-47 | `pop` then `join`: the last segment holds no separator; with a separator present, init + sep + last is the input; without one, the pair is (empty, input) |
| JsStrings.SplitLastOfJoined | build/middleware.js:45-47 | splitting init + sep + last, with no separator in last, gives back exactly (init, last), whatever separators init holds |
| JsStrings.IndexOf | build/middleware.js:56 | `indexOf`: the result is a match position with no match before it, and no result means no match anywhere |
| JsStrings.ReplaceFirst | build/middleware.js:56 | `replace` with a string pattern: unchanged when the pattern is absent; otherwise the text before the first match is kept, the replacement stands at that position, and the text after the match is kept |
| JsStrings.ReplaceFirstAfter | build/middleware.js:56 | for a non-empty pattern whose first character does not recur in it (true of `.<token>`, `yaml`, `json`): when the prefix holds no match, prefix + pat + rest becomes prefix + rep + rest, whatever matches rest holds |
| JsStrings.ReplaceFirstAtEnd | build/middleware.js:56 | for a non-empty pattern whose first character does not recur in it (true of `.<token>`, `yaml`, `json`): when the prefix holds no match, prefix + pat becomes prefix + rep |
| JsStrings.ReplaceFirstRemovesOne | middleware.ts:27-30 | for a present, non-empty pattern whose first character does not recur in it (true of `yaml`): replacing its first occurrence by a non-empty text that shares no character with it removes exactly one occurrence |
| BuildMiddleware.TokensRoundTrip | build/middleware.js:6-12 | the token table is a bijection between the five formats and their extensions; tokens are non-empty and dot-free |
| BuildMiddleware.RegistryWellFormed | build/middleware.js:6-12 | no format is its own alternate; ts is nobody's alternate, so every alternate has a parser case; the table is an involution on json/yaml/md/html; ts maps to json |
| BuildMiddleware.ParseContent | build/middleware.js:30-42 | the "Unsupported format" error happens exactly for formats without a case, with the message text; md and html text is returned unchanged; json and yaml succeed exactly when their parser does |
| BuildMiddleware.ConvertFormat | build/middleware.js:13-29 | a pair outside the four edges throws "Unsupported conversion" and fetches nothing; an edge never throws it; only json → ts fetches, once, from the compile URL without a guard header |
| BuildMiddleware.Middleware | build/middleware.js:43-79 | a guarded request passes through with no fetch; at most two fetches, and two only for a ts request; the first carries the guard header set to the requested token; a response has status 200, the media type with the charset, and the fixed cache header |
| BuildMiddleware.MediaTable | build/middleware.js:66-75 | the content type of json, yaml and ts responses (`application/json`, `text/yaml`, `text/plain`), followed by `; charset=utf-8` |
| BuildMiddleware.MarkupMediaTable | build/middleware.js:66-75 | the content type of html and md responses (`text/html`, `text/markdown`), followed by `; charset=utf-8` |
| BuildMiddleware.CachedForAnHour | build/middleware.js:73-78 | every synthesised response carries exactly the content-type and cache-control headers, the latter `public, max-age=3600` |
| BuildMiddleware.NoUnsupportedFormatFromMiddleware | build/middleware.js:55-64 | `parseContent` is called only with an alternate, so its "Unsupported format" throw is unreachable |
| BuildMiddleware.MultiDotResourceName | build/middleware.js:45-47 | `/v1.0.report.json` keeps its earlier dots in the name and asks for json |
| BuildMiddleware.SplitOfDotted | build/middleware.js:45-47 | `name.<token>` splits back into the name and the token, for any name |
| BuildMiddleware.AlternatePathRewritesFirstToken | build/middleware.js:56 | the first `.<requested>` in the path is rewritten, wherever it stands, and the rest is untouched |
| BuildMiddleware.AlternatePathOfExtension | build/middleware.js:56 | with no earlier `.<requested>`, the trailing extension is the one rewritten |
| BuildMiddleware.AlternatePathReplacesExtension | build/middleware.js:45-56 | for `name.<f>` with no `.<f>` inside `name`: the request asks for f, the name is `name`, and the alternate path is `name.<alternate>` |
| BuildMiddleware.AlternatePathRewritesEarlierToken | build/middleware.js:56 | `/v1.json.d/spec.json` asks for json but its alternate path is `/v1.yaml.d/spec.json`: the directory is rewritten, not the extension |
| BuildMiddleware.InterceptsExactlyRegisteredFormats | build/middleware.js:52-59 | without the guard the middleware fetches exactly when the token is a table key; an unknown token passes through; the first fetch is the guarded fetch of the alternate path |
| BuildMiddleware.GuardedFetchIsNotIntercepted | build/middleware.js:48-59 | the guarded fetch targets the alternate path and, re-entering the middleware, passes through at once; no later fetch carries the guard |
| BuildMiddleware.DotlessPathPassesThrough | build/middleware.js:45-54 | a path with no dot, such as `/compile`, is never intercepted, so the unguarded compile fetch does not come back |
| BuildMiddleware.FailedFetch | build/middleware.js:57-62 | a non-2xx answer passes through after the single fetch, with nothing parsed; a rejected fetch rejects |
| BuildMiddleware.ParseFailureFails | build/middleware.js:63-64 | fetched text the alternate format's parser rejects makes the request fail with that parser's error, after the single guarded fetch and with nothing converted |
| BuildMiddleware.MatchedFormat | build/middleware.js:3-5 | a path the matcher takes asks for json, yaml, html or ts |
| BuildMiddleware.OnlyMarkdownIsUnsupported | build/middleware.js:24-28 | an "Unsupported conversion" result comes only from a request for md |
| BuildMiddleware.MatchedRequestsNeverUnsupported | build/middleware.js:3-5 | on matched paths neither "Unsupported" error can occur, because md is not matched |
| BuildMiddleware.ServesYamlFromJson | build/middleware.js:18-19 | `X.yaml` is one guarded fetch, then the YAML rendering of the parsed JSON, served as text/yaml |
| BuildMiddleware.ServesJsonFromYaml | build/middleware.js:21-22 | `X.json` is one guarded fetch, then the 2-space JSON rendering of the parsed YAML, served as application/json |
| BuildMiddleware.ServesHtmlFromMarkdown | build/middleware.js:24-25 | `X.html` is one guarded fetch, then marked's rendering of the raw markdown text |
| BuildMiddleware.ServesTsFromCompileEndpoint | build/middleware.js:14-16 | `X.ts` is the guarded fetch, then an unguarded compile fetch whose body is served whatever its status |
| BuildMiddleware.TsConversionIgnoresData | build/middleware.js:14-16 | the json → ts conversion does not depend on the parsed data |
| BuildMiddleware.CompileUrlRepeatsLeadingSlash | build/middleware.js:15 | since the name keeps the path's leading slash, the schema URL reads `${origin}//…json` |
| BuildMiddleware.MarkdownRequestFails | build/middleware.js:27-28 | a request for md whose html fetch succeeds always fails with the html-to-md unsupported-conversion error |
| BuildMiddleware.MarkdownFailureMessage | build/middleware.js:28 | that error reads "Unsupported conversion from html to md" |
| YamlMiddleware.FormatOf | middleware.ts:19-23 | only the tokens `yaml` and `json` are handled; any other token is refused |
| YamlMiddleware.ToggleIsInvolution | middleware.ts:25-26 | the alternate is never the requested format, and toggling twice gives it back |
| YamlMiddleware.ParseContent | middleware.ts:12-13 | the named format's parser decodes the text, and the call fails exactly when that parser throws |
| YamlMiddleware.Middleware | middleware.ts:15-49 | no fetch and pass-through exactly for tokens other than yaml and json; otherwise exactly one fetch of the alternate path, with no headers; a response has status 200 and the fixed cache header |
| YamlMiddleware.MediaTypes | middleware.ts:41-48 | json is served as `application/json; charset=utf-8`, yaml as `text/yaml; charset=utf-8` |
| YamlMiddleware.FetchFailure | middleware.ts:32-35 | a non-ok fetch passes through with nothing parsed; a rejected fetch rejects |
| YamlMiddleware.ServesYamlFromJson | middleware.ts:37-39 | a yaml request decodes the fetched text as JSON and answers with its YAML encoding |
| YamlMiddleware.ServesJsonFromYaml | middleware.ts:37-39 | a json request decodes the fetched text as YAML and answers with its 2-space JSON encoding |
| YamlMiddleware.UnparsableAlternate | middleware.ts:37-38 | text the alternate format's parser rejects makes the request fail with that parser's error, after the one fetch |
| YamlMiddleware.MatchedPathAsksForYaml | middleware.ts:3-5 | a path the matcher takes asks for yaml and contains the token, so the replace always rewrites something |
| YamlMiddleware.BareTokenRewritesDirectory | middleware.ts:27-30 | `/yaml` + rest is fetched as `/json` + rest, so `/yaml/x.yaml` becomes `/json/x.yaml`, which the matcher takes again |
| YamlMiddleware.ExtensionOnlyReplace | middleware.ts:27-30 | when `yaml` occurs only as the extension, the fetch target is `name.json`, which the matcher does not take |
| YamlMiddleware.YamlReplaceShrinks | middleware.ts:27-30 | on a matched path the replace removes exactly one `yaml` occurrence |
| YamlMiddleware.Hops | middleware.ts:4-32 | repeated interception of the middleware's own fetches is a finite chain of alternate paths, no longer than the number of `yaml`s in the first path, ending at a path the matcher does not take |
| YamlMiddleware.FirstHopIsTheFetch | middleware.ts:27-32 | the first hop of the chain is the middleware's own fetch |
| YamlMiddleware.SingleHop | middleware.ts:4-32 | with `yaml` only as the extension, the chain is one hop long: the self-fetch is not intercepted |
| CompileEndpoint.Get | api/compile.ts:3-32 | a missing or empty `schemaUrl` gives 422 "No schemaUrl passed" exactly, with no fetch; otherwise exactly one fetch of that URL; status is 200, 422 or 500, and 500 has the fixed body; the compiler is called at most once, with the fixed options and the derived name |
| CompileEndpoint.SucceedsIffEveryStepSucceeds | api/compile.ts:15-28 | 200 exactly when fetch, decoding and compiling all succeed; then the body is the compiler's output and the content type text/plain |
| CompileEndpoint.FailsIffSomeStepFails | api/compile.ts:29-31 | the fixed 500 response exactly when any of the three steps fails |
| CompileEndpoint.FetchStatusIgnored | api/compile.ts:16 | a fetched body that decodes is compiled whatever the fetch status |
| CompileEndpoint.FilenameDropsLastSegment | api/compile.ts:11-13 | the name drops only the last `.`-segment, keeping earlier dots |
| CompileEndpoint.DotlessUrlHasEmptyFilename | api/compile.ts:11-13 | a URL without a dot gives the empty name |
| CompileEndpoint.FilenameReconstructs | api/compile.ts:11-13 | the name, a dot and the last segment give the URL back |
| CompileEndpoint.MiddlewareSchemaName | api/compile.ts:11-13 | the schema URL `<origin>/<name>.json` that the full middleware sends is compiled under `<origin>/<name>` |

## Left out

- URL parsing (`new URL`, `searchParams`) and percent-encoding are not modelled. Handlers receive the origin, pathname and query value as strings. The compile URL is built without encoding, exactly as the code builds it.
- The JavaScript `in` operator also finds inherited keys such as `constructor` in `mapperObject`. The model looks up only the table's own keys. The matcher keeps such paths out.
- Fetch `Headers` match names case-insensitively. The model stores the names the code uses in lower case and does not model other spellings.
- The headers `new Response` adds by default, such as `text/plain;charset=UTF-8` for the 422 and 500 bodies, are not modelled.
- The codec libraries (JSON, YAML, `marked`) and the schema compiler are oracles. So there is no `json → yaml → json` round-trip lemma, and any JSON number detail is irrelevant.
- The network is an oracle that answers the same request the same way. Timeouts, async ordering and `console.log` are not modelled.
- `$` patterns in a `replace` replacement are not modelled. The replacements are fixed tokens with no `$`.
- BuildMiddleware.ParseContent: its format argument is one of the five table formats, since the middleware can only pass an alternate. The "Unsupported format" message is proved for ts, the only format without a case, rather than for arbitrary strings.
- BuildMiddleware.Matches and YamlMiddleware.Matches: each matcher is a suffix test on the path. The platform's path-pattern engine is not modelled.
- YamlMiddleware.ConvertFormat has no contract of its own. Its choice of encoder is stated by YamlMiddleware.ServesYamlFromJson and YamlMiddleware.ServesJsonFromYaml.
- The generated type-declaration files under `public/` have no behaviour and are not part of this model.
