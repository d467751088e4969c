# weboverlay in Dafny

A model of the core of weboverlay, a layered hybrid web server. The server answers a
request from local files, from upstream servers or from inline handlers. It can rewrite
the responses with transforms. All of this is configured by a list of one-line *layer
directives*.

The model covers five parts of weboverlay.

- **The directive parser** (`Layers`, `Wildcard`; lib/layer.ts).
  - `Layer.from` trims a directive and splits an optional mount alias off at the first `=`.
  - The alias scopes the layer to one of:
    - a virtual host, exact or wildcard;
    - a mount path;
    - a path pattern.
  - `handler` puts an inner handler behind the layer's guards.
  - `toString` renders the layer back as a directive.
  - Wildcard hosts are compiled to a token list with a recursive anchored matcher. This
    keeps a quirk of `wildcardToRE` in lib/layer.ts: a run of punctuation characters gets only one backslash.
  - `Layer` is a class whose `From`, `SetHost` and `Handler` are proved against the pure
    `Parse`, `Render` and `Scoped`.
- **The composer** (`Overlay`, `WebOverlay`, `BasicAuth`, `Encoding`, `OverlayHelpers`;
  lib/weboverlay.ts).
  - The options set up a fixed run of global stages.
  - Each directive is then classified by the first test it passes. It becomes scoped
    stages, a response transform, a log line, or nothing.
  - A local and a remote counter are kept.
  - The cache and decompression stages are set up once, just before the first upstream.
  - A pipeline without a content source is an error.
  - `Build` describes the result as a pure function.
  - The class `WebOverlay.Composer` makes the same changes in place, directive by
    directive, and is proved to reach `Build`'s result.
  - Also modelled: the Basic-auth user table and check, with Base64 per section 4 of
    RFC 4648 and the scheme of section 2 of RFC 7617.
  - Also modelled: the pure string helpers. These are the redirect Location rewrite
    (section 6.4 of RFC 7231), the content-type gate of function transforms, the cache
    directory, the git repository/root split, and the escaping of transform log lines.
- **ETag revalidation** (`ETag`; lib/etag.ts).
  - `Exchange` is a class with request and response header maps.
  - Its request phase removes the five conditional headers and keeps If-None-Match aside.
  - Its response phase turns 200 into 304 when the normalised tags match. This is a
    simplified weak comparison in the sense of sections 2.3.2, 3.2 and 4.1 of RFC 7232.
- **The charset gate** (`Charset`; lib/charset.ts).
  - `getCharset` is modelled with the lazy-match and split semantics of its regular expression.
  - Also modelled: the two guards of `encodeBuffer` and `decodeBuffer`, and their
    transcoding branch.
  - iconv is a `Codec` parameter whose `encode` and `decode` may fail, as iconv throws for a charset it does not recognise.
- **The log file** (`FileLog`; lib/logfile.ts).
  - The stream is modelled by its index among the streams opened so far.
  - It is opened lazily.
  - SIGHUP writes a last line to it, then releases and closes it.
  - Every message is written with its trailing newlines collapsed to one.
  - `FileLogger` is a class proved against the pure `Open`, `Write` and `Reopened`.

The model states JavaScript semantics explicitly where they matter:

- A missing header stringifies to `"undefined"`.
- The regular-expression `.` does not match a line terminator.
- `/i` is ASCII case folding.
- A plain object inherits `constructor`, `toString` and the rest.
- The charset capture `[^"']+` runs on past `;`, so later parameters become part of the charset name.
- express's `app.use` and `Router.use` throw when given a value that is not a function.

Foreign code is given as parameters:

- `Engine` supplies what `eval`, express-sed, the RegExp constructor and express-intercept's `use` (given a value that is not a function) answer.
- `RouteTests` supplies the express mount test and the path-pattern test.
- `Codec` supplies iconv, including its failure for an unknown charset, and `buf.toString()`.
- A `rewrite` function supplies what a transform does to a body.

The modules are `Wrappers`, `Text`, `Wildcard`, `Layers`, `Encoding`, `BasicAuth`,
`OverlayHelpers`, `Overlay`, `WebOverlay`, `ETag`, `Charset` and `FileLog`. There is one
module per file.

## Model

| member | source | states |
|---|---|---|
| Wildcard.PunctRun | lib/layer.ts:91 | the punctuation run at the start (characters below U+0100 that are neither word characters nor `?` or `*`) is maximal: all punctuation, and the next character is not |
| Wildcard.RunTail | lib/layer.ts:98-99 | after the one escaped first character of a run, a `.` is the regular-expression wildcard and every other character stands for itself |
| Wildcard.AllowedRunMatches | lib/layer.ts:94-95 | `*` (`[^.:]*`) matches a string iff some prefix of characters other than `.` and `:` can be consumed before the rest of the pattern matches the rest |
| Wildcard.AnythingMatches | lib/layer.ts:96-97 | `**` (`.*`) on its own accepts exactly the strings without a line terminator |
| Wildcard.LitsMatchExactly | lib/layer.ts:103 | the anchored pattern of literal characters accepts its own text and nothing else |
| Wildcard.StrictKeepsSeparators | lib/layer.ts:90-104 | a pattern with no `**` and no unescaped `.` accepts only hosts with exactly the `.` and `:` separators it spells out |
| Wildcard.IsolatedCompilesToLiterals | lib/layer.ts:91-101 | a pattern with no `?`, no `*` and no adjacent punctuation compiles to its characters as literals |
| Wildcard.LeadingStar | lib/layer.ts:94-95 | a leading single `*` compiles to `[^.:]*` followed by the compiled rest |
| Wildcard.StarThenIsolated | lib/layer.ts:90-104 | `*` followed by an isolated tail compiles to `[^.:]*` and the tail's literals |
| Wildcard.StarDotOrgRejectsPort | test/wildcard-host.ts:24-27 | `*.org` does not accept `example.org:3000` |
| Wildcard.StarDotOrgPortAccepts | test/wildcard-host.ts:24-27 | `*.org:3000` accepts `example.org:3000` |
| Wildcard.RunTailIsUnescaped | lib/layer.ts:91-99 | in the run `-.` only `-` is escaped, so `a-.b` accepts `a-xb` |
| Layers.Layer.constructor | lib/layer.ts:19 | a new layer has no host, host pattern, path or path pattern, and an empty definition |
| Layers.Layer.SetHost | lib/layer.ts:46-52 | a host holding `*` or `?` sets only the compiled wildcard; any other host sets only the exact host; nothing else changes |
| Layers.Layer.From | lib/layer.ts:15-44 | the fresh layer holds exactly the fields `Parse` gives for the directive; it fails exactly when the RegExp constructor rejects a `^` alias, with that message |
| Layers.Layer.FromAliasParts | lib/layer.ts:26-42 | the fields of a layer whose alias was split off, as `FromAlias` gives them, or the RegExp constructor's error |
| Layers.Layer.Handler | lib/layer.ts:58-78 | the wrapped handler is reached exactly when every scope the layer has (wildcard host, exact host, path pattern, mount path) accepts and the inner handler is reached |
| Layers.ScopedGuards | lib/layer.ts:58-78 | the guards of a scoped handler are the conjunction of the layer's scopes |
| Layers.ScopedInnermost | lib/layer.ts:58-78 | wrapping never changes the handler that finally runs |
| Layers.TrimmedShape | lib/layer.ts:16-17 | the trimmed directive starts and ends with a non-space |
| Layers.NoAliasKeepsText | lib/layer.ts:16-42 | without an alias (no leading `/` or `^`, or no `=`) the definition is the whole trimmed text and no host, path or pattern is set; with one, a path or pattern is set |
| Layers.AliasSplitsAtFirstEquals | lib/layer.ts:22-24 | the alias is the text before the first `=` without trailing spaces; the definition is the text after it without leading spaces |
| Layers.HostIsThirdField | lib/layer.ts:29 | the host of `//host/path` is the third `/`-separated field |
| Layers.HostAliasFields | lib/layer.ts:28-30 | `//h/rest` scopes the layer to host `h` (a wildcard when `h` holds `*` or `?`) with path `/rest` and no pattern |
| Layers.FromAliasFields | lib/layer.ts:28-42 | a pattern alias is kept verbatim; a host alias is `"//" + host + path`; a plain alias is the path; the definition is kept |
| Layers.AliasSetsScope | lib/layer.ts:28-39 | every alias sets a path or a path pattern |
| Layers.ParseAliasLine | lib/layer.ts:15-44 | `P = D` parses to the layer the alias `P` and definition `D` describe |
| Layers.RootAliasLine | lib/layer.ts:15-44 | `/ = D` parses to path `/` and definition `D` |
| Layers.RenderRoot | lib/layer.ts:83-86 | a layer with no path and no pattern renders as `/ = def` |
| Layers.RenderHostAlias | lib/layer.ts:80-87 | an exact-host alias renders as `//host/path = def` |
| Layers.RenderPathAlias | lib/layer.ts:80-87 | a path alias renders as `path = def` |
| Layers.RenderPatternAlias | lib/layer.ts:84 | a pattern alias renders as the pattern's source, escaped as `String(RegExp)` does, then ` = def` |
| Layers.WildcardHostNotRendered | lib/layer.ts:82 | a wildcard host is dropped from the rendering, which shows only the path |
| Layers.EscapeSourceOneLine | lib/layer.ts:84 | the escaped pattern source has no line terminator and gains no `=` |
| Layers.EscapeSourceIdempotent | lib/layer.ts:84 | escaping an already escaped source changes nothing |
| Layers.EscapeSourceKeepsCaret | lib/layer.ts:84 | the escaped source of a `^` pattern still starts with `^` |
| Layers.RenderRoundTrip | lib/layer.ts:15-87 | for a line-break-free directive without a wildcard host, parsing the rendering gives the same host and definition, the same path (or `/` when there was none), the escaped pattern, and the same rendering again |
| Layers.ParsedRoundTrips | lib/layer.ts:15-87 | every such parsed layer survives render-then-parse |
| Layers.RoundTripAlias | lib/layer.ts:15-87 | every alias layer without a wildcard host survives render-then-parse |
| Layers.RoundTripNoAlias | lib/layer.ts:15-87 | every layer without an alias survives render-then-parse as `/ = def` |
| Encoding.Utf8RoundTrip | lib/weboverlay.ts:87 | the UTF-8 bytes of a string decode back to it |
| Encoding.Utf8Injective | lib/weboverlay.ts:87 | different strings have different UTF-8 bytes |
| Encoding.Base64RoundTrip | lib/weboverlay.ts:87 | Base64 (section 4 of RFC 4648) decodes back to the encoded bytes |
| Encoding.Base64Length | lib/weboverlay.ts:87 | the encoding of n bytes has 4 * ceil(n / 3) characters |
| Encoding.Base64Injective | lib/weboverlay.ts:87 | different byte strings have different encodings |
| Encoding.Base64HasNoColon | lib/weboverlay.ts:87 | an encoding never holds `:` |
| BasicAuth.BuildUsers | lib/weboverlay.ts:82-92 | the two `forEach` loops fill the table with exactly `UserTable(list)` |
| BasicAuth.UserTableMembers | lib/weboverlay.ts:86-92 | a key is stored iff it is the Base64 of a listed entry holding `:`, or a listed non-empty entry without `:` |
| BasicAuth.PairAccepted | lib/weboverlay.ts:86-88 | the encoding of `user:password` is stored iff the pair or its encoding is listed |
| BasicAuth.PairKeyLength | lib/weboverlay.ts:86-88 | a key stored for a pair has a length divisible by 4 |
| BasicAuth.ConstructorNotStored | lib/weboverlay.ts:86-92 | `constructor` is stored only when it is listed |
| BasicAuth.BasicSchemeStripped | lib/weboverlay.ts:97 | `Basic ` and the spaces after it are stripped from the header |
| BasicAuth.Check | lib/weboverlay.ts:96-101 | the Authorization header is removed and every other header is kept; the request passes iff its credentials are stored; otherwise the reply is 401 with the Basic challenge |
| BasicAuth.CheckAsWritten | lib/weboverlay.ts:99 | as written, the request also passes when its credentials name a property every object inherits |
| BasicAuth.ClientCredentialsPass | lib/weboverlay.ts:96-99 | a client sending `Basic` and the Base64 of listed `user:password` passes |
| BasicAuth.InheritedNameAdmitted | lib/weboverlay.ts:82-99 | `Authorization: Basic constructor` passes the check as written and fails the intended one, unless `constructor` is listed |
| OverlayHelpers.RedirectCodes | lib/weboverlay.ts:59 | a three-digit status passes the redirect test iff it is 301, 302, 303 or 307 |
| OverlayHelpers.StripOriginChanges | lib/weboverlay.ts:294 | removing `http(s)://authority` changes the location iff it has one, and the result then starts with `/` |
| OverlayHelpers.RewriteLocation | lib/weboverlay.ts:286-300 | the Location is rewritten iff the status is a redirect, its host field equals the upstream's, and it has an origin; the new Location starts with `/` |
| OverlayHelpers.SameHostRedirect | lib/weboverlay.ts:286-300 | a redirect to `scheme://host/path` on the upstream's host becomes `/path` |
| OverlayHelpers.LocationParts | lib/weboverlay.ts:292-294 | `scheme://host/path` has host field `host`, has an origin, and strips to `/path` |
| OverlayHelpers.OriginField | lib/weboverlay.ts:287 | the host of `scheme//host/rest` is the third `/`-separated field |
| OverlayHelpers.FunctionParts | lib/weboverlay.ts:259-262 | `name(body)` splits into the type `name` and the code `(body)` |
| OverlayHelpers.GateOnSubtype | lib/weboverlay.ts:260-267 | a function transform named T applies to `main/sub` when `sub` is T in any ASCII case and is followed by a non-word character or the end |
| OverlayHelpers.GateShut | lib/weboverlay.ts:260-267 | the gate stays shut when the content type lacks the first letter of T in either case |
| OverlayHelpers.HtmlGateOpen | lib/weboverlay.ts:260-267 | `html(...)` applies to `text/html` with or without parameters |
| OverlayHelpers.HtmlGateShutForCss | lib/weboverlay.ts:260-267 | `html(...)` does not apply to `text/css` |
| OverlayHelpers.CacheDir | lib/weboverlay.ts:274 | the cache directory is never empty |
| OverlayHelpers.RemoveUpsSegment | lib/weboverlay.ts:274 | a leading `seg/../` is removed |
| OverlayHelpers.RemoveUpsKeeps | lib/weboverlay.ts:274 | a path with no `seg/../` is kept as it is |
| OverlayHelpers.NoDotDotNoUps | lib/weboverlay.ts:274 | a path without `/../` has no `seg/../` anywhere |
| OverlayHelpers.GitRoot | lib/weboverlay.ts:212 | the root ends in exactly one `/` |
| OverlayHelpers.GitParts | lib/weboverlay.ts:211-212 | `repo:root///` splits into the repository `repo` and the root `root/` |
| OverlayHelpers.GitRepoPart | lib/weboverlay.ts:211 | the repository is the text before the first `:` |
| OverlayHelpers.GitRootPart | lib/weboverlay.ts:212 | the root is the text after the last `:` with its trailing slashes replaced by one |
| OverlayHelpers.EscapeControlsClean | lib/weboverlay.ts:163-164 | the escaped log line holds no CR, LF or TAB, and a line without them is unchanged |
| OverlayHelpers.StripBom | lib/weboverlay.ts:136 | the result is a suffix that does not start with U+FEFF |
| OverlayHelpers.StripBomDropsMarks | lib/weboverlay.ts:136 | only U+FEFF characters are removed |
| OverlayHelpers.StripNewlines | lib/weboverlay.ts:66 | the result is a prefix that does not end in a newline, and only newlines are removed |
| Overlay.ClassifyFirstMatch | lib/weboverlay.ts:153-220 | a definition gets the first kind in the order empty, comment, sed, function, middleware, status, upstream, git, local whose test it passes |
| Overlay.SedByCount | lib/weboverlay.ts:162 | a definition is sed iff it starts with `s` and its second character occurs at least three times in it |
| Overlay.StatusCodeSpelled | lib/weboverlay.ts:189-192 | a status directive has a code from 100 to 599 whose decimal spelling is the definition |
| Overlay.StepCounts | lib/weboverlay.ts:150-227 | one directive adds 1 to the local count for middleware, status, git and local, 1 to the remote count for upstream, its transform at the front of the chain, and its stages at the end |
| Overlay.StepKindEffect | lib/weboverlay.ts:153-227 | the same effect, for each kind |
| Overlay.MiddlewareMounted | lib/weboverlay.ts:176-186 | a middleware directive succeeds only if its code evaluates, passes the arity guard, and is a function or is accepted by express-intercept behind a host or path-pattern scope; an unscoped value that is not a function always fails |
| Overlay.NonFunctionMiddlewareStopsBuild | lib/weboverlay.ts:176-186 | directives holding an unscoped middleware whose value is not a function never build |
| Overlay.RunCounts | lib/weboverlay.ts:150-228 | after the loop, the counts are the numbers of local sources and upstreams, and the chain has one entry per transform |
| Overlay.NoContentSource | lib/weboverlay.ts:230-232 | construction fails with "No content source applied" iff no directive is a local source or an upstream |
| Overlay.GlobalStagesShape | lib/weboverlay.ts:75-144 | the global stages are unscoped, hold no setup stage, and end with the transform hook |
| Overlay.RunKeepsPrefix | lib/weboverlay.ts:150-228 | the loop only appends stages |
| Overlay.HookBeforeLayers | lib/weboverlay.ts:143-144 | the application starts with the global stages, and the transform hook comes before every stage of a layer |
| Overlay.DecompressSetUp | lib/weboverlay.ts:280-282 | decompression is set up iff cache, a transform or compress is set |
| Overlay.KindStagesNoSetup | lib/weboverlay.ts:197-205 | only the first upstream adds the setup stages, right before its own stages |
| Overlay.NoUpstreamNoSetup | lib/weboverlay.ts:199 | directives without an upstream add no setup stage |
| Overlay.SetupOnce | lib/weboverlay.ts:199 | the setup stages appear once, just before the first upstream's stages, and stay |
| Overlay.NoSetupWithoutUpstream | lib/weboverlay.ts:272-283 | an application without an upstream has no cache, tee or decompression stage |
| Overlay.SetupBeforeFirstUpstream | lib/weboverlay.ts:272-283 | the setup stages come right before the first upstream; decompression is among them iff cache, compress or a transform declared earlier is set |
| Overlay.RunAppend | lib/weboverlay.ts:150 | the loop over `a + b` is the loop over `a`, then over `b`, stopping at the first exception |
| Overlay.RunTransforms | lib/weboverlay.ts:252-254 | the chain is the declared transforms in reverse order |
| Overlay.FinishHook | lib/weboverlay.ts:235-240 | the hook is empty without transforms, and otherwise encode, the chain, decode, charset |
| Overlay.ChainInDeclarationOrder | lib/weboverlay.ts:252-254 | a chain built by prepending rewrites the body in declaration order, given that in `use(a, b)` b's rewrite runs before a's |
| Overlay.TransformsInDeclarationOrder | lib/weboverlay.ts:235-240 | the application's hook is empty iff nothing was declared; otherwise it is encode, chain, decode, charset, and the chain applies the transforms in declaration order |
| Overlay.SedOrderExample | test/order.ts:22-35 | `s/foo/bar/g` then `s/bar/buz/g` turn `foo:bar:buz` into `buz:buz:buz` |
| Overlay.FooToBar | test/order.ts:25 | the first substitution gives `bar:bar:buz` |
| Overlay.BarToBuz | test/order.ts:25 | the second substitution gives `buz:buz:buz` |
| WebOverlay.Composer.constructor | lib/weboverlay.ts:75-144 | the closure starts with the global stages and log lines, no transform, and zero counts |
| WebOverlay.Composer.PrependTransform | lib/weboverlay.ts:252-254 | the handler goes in front of the chain; nothing else changes |
| WebOverlay.Composer.BeforeUpstream | lib/weboverlay.ts:272-283 | the stages and log lines `beforeUpstream` adds |
| WebOverlay.Composer.ApplySed | lib/weboverlay.ts:161-166 | logs the escaped rendering and prepends the scoped sed, or throws express-sed's error |
| WebOverlay.Composer.ApplyFunction | lib/weboverlay.ts:170-173 | logs and prepends the gated function, or throws `eval`'s error or "Invalid function" |
| WebOverlay.Composer.ApplyMiddleware | lib/weboverlay.ts:176-186 | counts before evaluating; appends the scoped middleware, or throws `eval`'s error, "Invalid middleware" for a non-function with an arity of 2 to 4, or the error `app.use`, `Router.use` or express-intercept throws for any other non-function |
| WebOverlay.Composer.ApplyStatus | lib/weboverlay.ts:189-195 | counts and appends the scoped status stage |
| WebOverlay.Composer.ApplyUpstream | lib/weboverlay.ts:198-205 | sets up cache and decompression when no upstream came before, then appends the redirection and the proxy and counts |
| WebOverlay.Composer.ApplyGit | lib/weboverlay.ts:208-215 | counts and appends the git stage with its repository and root |
| WebOverlay.Composer.ApplyLocal | lib/weboverlay.ts:218-227 | counts and appends the static stage, and the listing when `index` is set |
| WebOverlay.Composer.AddLayer | lib/weboverlay.ts:151-227 | one directive changes the closure as `Step` says, or throws its error |
| WebOverlay.Composer.ApplyKind | lib/weboverlay.ts:153-227 | the branch of the directive's kind changes the closure as `StepKind` says, or throws its error |
| WebOverlay.Composer.AddLayers | lib/weboverlay.ts:150-228 | the loop changes the closure as `Run` says and stops at the first error |
| WebOverlay.Weboverlay | lib/weboverlay.ts:34-246 | the result is `Build(options)`, so every `Overlay` property above holds of it |
| ETag.RemoveAll | lib/etag.ts:17 | the character is gone, every other character is kept, and the length drops by its count |
| ETag.Normalize | lib/etag.ts:17 | one leading `W/` and every double quote are removed |
| ETag.NormalizeQuoted | lib/etag.ts:17 | `"x"` normalises to `x` |
| ETag.NormalizeWeak | lib/etag.ts:17 | `W/"x"` normalises to `x` |
| ETag.WeakMatchesStrong | lib/etag.ts:45 | `W/"x"` and `"x"` revalidate against each other |
| ETag.DifferentTagsKeepStatus | lib/etag.ts:45 | tags with different opaque parts never revalidate |
| ETag.Exchange.ForRequest | lib/etag.ts:21-35 | If-None-Match is kept aside; none of the five conditional headers remain and all other headers keep their values; the response phase is active iff If-None-Match is non-empty |
| ETag.Exchange.GetResponse | lib/etag.ts:36-49 | the status becomes 304 iff it was 200, an ETag is present, and the normalised tags are equal; nothing else changes, the ETag header included |
| Charset.QuoteFreeEnd | lib/charset.ts:11 | `[^"']*` stops at the first quote or the end |
| Charset.CharsetAt | lib/charset.ts:11 | there is a capture at position j iff `\Wcharset=` is there and a value follows (not the end, not two quotes as in `charset=""`); it is non-empty and quote-free |
| Charset.CharsetValue | lib/charset.ts:11 | the capture is the text right after the optional quote, up to the next quote or the end, so it runs on past `;` |
| Charset.FindCharset | lib/charset.ts:11 | the lazy search yields only non-empty, quote-free captures |
| Charset.GetCharset | lib/charset.ts:11 | the charset, when there is one, is non-empty and quote-free |
| Charset.FindCharsetIs | lib/charset.ts:11 | the search yields the capture at the first usable `charset=` on the first line |
| Charset.FirstUsableFrom | lib/charset.ts:11 | a position the lazy search passes over leaves the first usable `charset=` where it is |
| Charset.FindCharsetFound | lib/charset.ts:11 | a charset found comes from the first usable position |
| Charset.CharsetImpliesParam | lib/charset.ts:19 | a charset is found only where `/\Wcharset=/` holds |
| Charset.Transcoding | lib/charset.ts:18-24 | transcoding happens only for a textual Content-Type with a charset; never for a charset starting with `utf-8` in any case |
| Charset.EncodeBuffer | lib/charset.ts:17-26 | the buffer is unchanged when no transcoding applies; the handler throws iff it transcodes and iconv's `encode` throws |
| Charset.DecodeBuffer | lib/charset.ts:32-41 | the buffer is unchanged when no transcoding applies; the handler throws iff it transcodes and iconv's `decode` throws; otherwise the result is UTF-8 |
| Charset.MissingContentTypeUntouched | lib/charset.ts:9 | a response without Content-Type is never transcoded |
| Charset.EncodeAfterDecode | lib/charset.ts:17-41 | decode then encode succeed and give the upstream bytes back when the codec knows the charset and round-trips |
| Charset.NamedCharsetTranscoded | lib/charset.ts:18-22 | a textual `mime charset=NAME` is transcoded with the whole of NAME unless it starts with `utf-8` |
| Charset.CharsetParameterReachesCodec | lib/charset.ts:36-38 | a parameter after the charset is part of the name iconv gets, so a codec that does not know it makes the decoding handler throw |
| Charset.DecodeAfterEncode | lib/charset.ts:17-41 | encode then decode succeed and give the UTF-8 bytes back when the codec knows the charset and round-trips |
| Charset.NamedCharset | lib/charset.ts:11 | `mime charset=NAME` yields NAME, as for `application/xml; charset=Shift_JIS` |
| Charset.QuotedCharset | lib/charset.ts:11 | `mime charset="NAME"` and `mime charset='NAME'` yield NAME without the quotes |
| Charset.CharsetKeepsLaterParameters | lib/charset.ts:11 | `text/html; charset=Shift_JIS; q=1` yields `Shift_JIS; q=1`: the capture does not stop at `;` |
| Charset.CharsetAfterMime | lib/charset.ts:11 | after a part without `=` or line breaks, the search reaches the `charset=` that follows it |
| Charset.QuotedRun | lib/charset.ts:11 | behind an opening quote, `([^"']+)` takes the name up to the closing quote |
| Charset.QuoteFreeStop | lib/charset.ts:11 | `[^"']*` stops at the first quote |
| FileLog.Line | lib/logfile.ts:23 | a written line ends in a newline |
| FileLog.LineEndsOnce | lib/logfile.ts:23 | it ends in exactly one newline, after the message without its trailing newlines |
| FileLog.LineIdempotent | lib/logfile.ts:23 | writing a written line again changes nothing |
| FileLog.Open | lib/logfile.ts:10 | afterwards a stream is held |
| FileLog.Start | lib/logfile.ts:20 | after `fileLogger` returns, exactly one stream is open and held |
| FileLog.ValidKept | lib/logfile.ts:8-18 | opening, logging and SIGHUP keep at most one stream open |
| FileLog.WriteToHeld | lib/logfile.ts:10-23 | a message goes to the held stream and to no other, and no stream is opened |
| FileLog.NextLogAfterReopen | lib/logfile.ts:13-23 | SIGHUP writes its line to the current stream and closes it; the next message opens a new stream that holds just that message |
| FileLog.FileLogger.constructor | lib/logfile.ts:7-20 | the logger starts with one stream open and held |
| FileLog.FileLogger.OpenFile | lib/logfile.ts:10 | the held stream, or a new one when none is held |
| FileLog.FileLogger.Log | lib/logfile.ts:22-24 | one line goes to the stream `openFile` yields |
| FileLog.FileLogger.Reopen | lib/logfile.ts:13-18 | the signal line is logged, then the stream is released and closed |

## Left out

- `Layer.match` as a general regular-expression test: each test the classifier applies to a definition is a predicate of its own (`IsSed`, `IsFunction`, …).
- Express mount-prefix matching and path-pattern tests are `RouteTests` parameters. So are the foreign handlers behind each stage (express-sed, express-upstream, express-tee, serve-static-git, serve-index, morgan, express-compress, express-charset), which are opaque `Action` tags.
- `eval`, express-sed's parsing, the RegExp constructor and express-intercept's verdict on a handler that is not a function are `Engine` parameters. What a sed or function transform does to a body is a `rewrite` parameter; `ReplaceAll` covers only the literal `s/x/y/g` case of the order example.
- Layers.RenderRoundTrip: it assumes a directive without line breaks and without a wildcard host; `toString` drops wildcard hosts, as `Layers.WildcardHostNotRendered` shows.
- `String(RegExp)` of an empty pattern (`(?:)`) is not modelled; an alias always has at least `^`.
- Wildcard: in a punctuation-run tail, characters other than `.` stand for themselves. So a regex metacharacter such as `(` or `[` after the first character of a run is treated as a literal, not as regex structure.
- Strings are sequences of code points: lone surrogates and case folding beyond ASCII are not modelled.
- iconv and `buf.toString()` are the `Codec` parameter; the file system is streams as indices with their written lines; `process.on("SIGHUP")` registration, `app.listen` and `port`, the http/https agents and the choice of logger are I/O.
- JSON pretty-printing: only the BOM strip and the `application/json` gate are modelled, not JSON.parse/stringify.
- The `index` options object is not modelled; `index` is a flag.
- The access-log lines morgan writes per request are not part of the construction log; only `StripNewlines` models their clean-up.
- Per-request asynchrony and concurrent requests are not modelled; the construction is sequential.
- The log lines written before a thrown error are not part of the error result.
- OverlayHelpers.RedirectCodes: states the redirect test for three-digit statuses only, the statuses a response carries.
- Overlay.MiddlewareMounted: an array of handlers, which express flattens and mounts, is treated like any other value that is not a function. Behind a host or path-pattern scope, whether express-intercept throws is the `Engine`'s answer.
- Overlay.ChainInDeclarationOrder: rests on one stated assumption about express-intercept: in `use(a, b)`, b's body rewrite runs before a's.
- ETag: header values are strings; numeric or array header values are not modelled.
- ETag.Exchange.ForRequest: removes the five conditional headers in one map subtraction rather than five deletes. It does so for every request, with or without If-None-Match, as lib/etag.ts:27-31 does.
- lib/weboverlay.js, the command-line tools and the type declarations are not part of this model.

## Findings

| source | as written | input that shows it | evidently intended | confidence | as-written member | corrected member |
|---|---|---|---|---|---|---|
| lib/weboverlay.ts:82-99 | the user table is a plain `{}` and `users[sent]` is read on it, so every name inherited from `Object.prototype` is truthy | `Authorization: Basic constructor`, with `constructor` not listed | only stored credentials pass | not executed | BasicAuth.InheritedNameAdmitted | BasicAuth.Check |
