/**
 * The composer of lib/weboverlay.ts: the options set up a fixed run of global stages, then
 * every layer directive is classified by its definition and turned into scoped stages, a
 * response transform, or nothing, with counts of the local and remote content sources.
 * `Build` is the pipeline as a function of the options; the `Composer` class makes the same
 * changes in place, as the closure in lib/weboverlay.ts does, and is proved against it.
 */
module Overlay {
  import opened Wrappers
  import opened Text
  import opened Layers
  import opened BasicAuth
  import opened OverlayHelpers

  /** The options the composer reads; the logger, `logfile` and `port` are not part of this model. */
  datatype Options = Options(
    basic: Option<BasicOption>,
    cache: Option<string>,
    compress: Option<string>,
    index: bool,
    json: Option<int>,
    layers: Option<seq<string>>,
    log: Option<string>)

  /** `if (json)`: a number other than 0. */
  predicate JsonOn(o: Options) {
    o.json.Some? && o.json.value != 0
  }

  /** `if (basic)`: a non-empty string or any list. */
  predicate BasicOn(o: Options) {
    o.basic.Some? && Enabled(o.basic.value)
  }

  /**
   * What `eval` gives back: whether it is a function, its `length` as the guard's `<=` compares
   * it (converted to a number, so `{length: "3"}` has 3; `None` when that is NaN, as for a
   * missing `length`), and the type name express reports for it (`typeof`, or the tag of `Object.prototype.toString`
   * for objects, as in "number", "string" or "Null").
   */
  datatype JsValue = JsValue(isFunction: bool, length: Option<real>, typeName: string)

  /**
   * The JavaScript engine and foreign parsers, as far as the composer depends on them: the
   * value of evaluated code or the message it throws, express-sed's verdict on an
   * expression, the RegExp constructor's verdict on a pattern source, and what
   * express-intercept's `use` throws, if anything, when it is given a value that is not a
   * function.
   */
  datatype Engine = Engine(
    eval: string -> Result<JsValue, string>,
    sedError: string -> Option<string>,
    syntaxError: string -> Option<string>,
    interceptError: JsValue -> Option<string>)

  /** One handler given to `app.use`; the handlers themselves are foreign. */
  datatype Action =
    | Morgan(format: string)
    | BasicAuthCheck(users: set<string>)
    | EtagCheck
    | ForceEncoding(encoding: string)
    | Compress
    | HeadFake
    | Json(indent: int)
    | TransformHook
    | Middleware(code: string, fn: JsValue)
    | Status(status: nat)
    | CacheStatic(dir: string)
    | Tee(dir: string)
    | Decompress
    | Redirection(upstream: string)
    | Upstream(url: string)
    | Git(repo: string, root: string)
    | Static(dir: string)
    | Index(listed: string)

  /** A stage of the pipeline: an action behind the guards of its layer, if any. */
  type Stage = RequestHandler<Action>

  /** A response transform: an express-sed expression, or a function gated by content type. */
  datatype Transform = Sed(expression: string) | Function(typeName: string, code: string)

  type TransformHandler = RequestHandler<Transform>

  /** What the transform hook holds once the layers are read. */
  datatype HookEntry = EncodeBuffer | Transforms(chain: seq<TransformHandler>) | DecodeBuffer | ExpressCharset

  /** The composer's closure: the stages so far, the transform chain (newest first), the counts and the log. */
  datatype State = State(
    stages: seq<Stage>,
    transforms: seq<TransformHandler>,
    localCount: nat,
    remoteCount: nat,
    log: seq<string>)

  /** The application: its stages, the contents of the transform hook, and the log lines written. */
  datatype App = App(stages: seq<Stage>, hook: seq<HookEntry>, log: seq<string>)

  // Global stages

  /** `log || "tiny"` */
  function LogFormat(o: Options): string {
    if Truthy(o.log) then o.log.value else "tiny"
  }

  /** The stages set up before any layer, in the order of lib/weboverlay.ts:75-144. */
  function GlobalStages(o: Options): seq<Stage> {
    [Leaf(Morgan(LogFormat(o)))]
    + (if BasicOn(o) then [Leaf(BasicAuthCheck(UserTable(Entries(o.basic.value))))] else [])
    + [Leaf(EtagCheck)]
    + (if o.compress.Some? then [Leaf(ForceEncoding(o.compress.value))] else [])
    + [Leaf(Compress), Leaf(HeadFake)]
    + (if JsonOn(o) then [Leaf(Json(o.json.value))] else [])
    + [Leaf(TransformHook)]
  }

  function GlobalLog(o: Options): seq<string> {
    (if BasicOn(o) then ["authentication: Basic"] else [])
    + (if o.compress.Some? then ["compress: " + o.compress.value] else [])
  }

  function Globals(o: Options): State {
    State(GlobalStages(o), [], 0, 0, GlobalLog(o))
  }

  // Classification

  datatype Kind =
    | EmptyLine | CommentLine | SedLine | FunctionLine | MiddlewareLine
    | StatusLine | UpstreamLine | GitLine | LocalLine

  /** `/^s/.test(def) && def.split(def[1]).length > 3`; `def[1]` is undefined for one character. */
  predicate IsSed(def: string) {
    |def| >= 2 && def[0] == 's' && |Split(def, def[1])| > 3
  }

  /** `/^\w.*\(.+\)$/`: one line, a word character first, a `(` with something before the final `)`. */
  predicate IsFunction(def: string) {
    && |def| >= 4 && IsWordChar(def[0]) && NoLineBreak(def) && def[|def| - 1] == ')'
    && var k := IndexFrom(def, '(', 1);
       k.Some? && k.value <= |def| - 3
  }

  /** `/^\(.+\)$/` */
  predicate IsMiddleware(def: string) {
    |def| >= 3 && def[0] == '(' && def[|def| - 1] == ')' && NoLineBreak(def)
  }

  /** `/^[1-5]\d\d$/` */
  predicate IsStatus(def: string) {
    |def| == 3 && '1' <= def[0] <= '5' && IsDigit(def[1]) && IsDigit(def[2])
  }

  /** `/^https?:\/\//` */
  predicate IsUpstream(def: string) {
    SchemeLength(def) > 0
  }

  /** `/\.git:/` */
  predicate IsGit(def: string) {
    Contains(def, ".git:")
  }

  /** The kind of a definition: the first test, in the order of lib/weboverlay.ts:153-220, that it passes. */
  function Classify(def: string): Kind {
    if def == [] then EmptyLine
    else if def[0] == '#' then CommentLine
    else if IsSed(def) then SedLine
    else if IsFunction(def) then FunctionLine
    else if IsMiddleware(def) then MiddlewareLine
    else if IsStatus(def) then StatusLine
    else if IsUpstream(def) then UpstreamLine
    else if IsGit(def) then GitLine
    else LocalLine
  }

  /** The test each kind stands for, on its own. */
  predicate Tests(k: Kind, def: string) {
    match k
    case EmptyLine => def == []
    case CommentLine => def != [] && def[0] == '#'
    case SedLine => IsSed(def)
    case FunctionLine => IsFunction(def)
    case MiddlewareLine => IsMiddleware(def)
    case StatusLine => IsStatus(def)
    case UpstreamLine => IsUpstream(def)
    case GitLine => IsGit(def)
    case LocalLine => true
  }

  /** The position of each test in lib/weboverlay.ts. */
  function Rank(k: Kind): nat {
    match k
    case EmptyLine => 0
    case CommentLine => 1
    case SedLine => 2
    case FunctionLine => 3
    case MiddlewareLine => 4
    case StatusLine => 5
    case UpstreamLine => 6
    case GitLine => 7
    case LocalLine => 8
  }

  /** Kinds that count as local content sources. */
  predicate IsLocalSource(k: Kind) {
    k == MiddlewareLine || k == StatusLine || k == GitLine || k == LocalLine
  }

  predicate IsTransform(k: Kind) {
    k == SedLine || k == FunctionLine
  }

  // Layers

  /** `+layer.def` for a three-digit status. */
  function StatusCode(def: string): nat
    requires IsStatus(def)
  {
    (def[0] as int - '0' as int) * 100 + (def[1] as int - '0' as int) * 10 + (def[2] as int - '0' as int)
  }

  /** `parseFunction(func)`: what `eval` of the code throws, or the gated function transform. */
  function ParseFunction(e: Engine, func: string): Result<Transform, string> {
    var t := FunctionType(func);
    var code := FunctionCode(func);
    match e.eval(code)
    case Failure(m) => Failure(m)
    case Success(fn) =>
      if t == [] || !fn.isFunction then Failure("Invalid function: " + func) else Success(Function(t, code))
  }

  /** The check of lib/weboverlay.ts:181: it throws only for a value that is not a function yet has a `length` from 2 to 4. */
  predicate RejectsMiddleware(fn: JsValue) {
    !fn.isFunction && fn.length.Some? && 2.0 <= fn.length.value <= 4.0
  }

  function AddSed(e: Engine, s: State, v: LayerValue): Result<State, string> {
    var s1 := s.(log := s.log + ["transform: " + EscapeControls(Render(v))]);
    match e.sedError(v.def)
    case Some(m) => Failure(m)
    case None => Success(s1.(transforms := [Scoped(v, Leaf(Sed(v.def)))] + s1.transforms))
  }

  function AddFunction(e: Engine, s: State, v: LayerValue): Result<State, string> {
    var s1 := s.(log := s.log + ["function: " + Render(v)]);
    match ParseFunction(e, v.def)
    case Failure(m) => Failure(m)
    case Success(f) => Success(s1.(transforms := [Scoped(v, Leaf(f))] + s1.transforms))
  }

  /** `layer.handler` first hands the value to express-intercept: a host or path-pattern scope. */
  predicate Intercepted(v: LayerValue) {
    v.hostRE.Some? || (v.host.Some? && v.host.value != "") || v.pathRE.Some?
  }

  /**
   * What mounting the value with `app.use(layer.handler(fn))` throws. A function is mounted.
   * Otherwise express-intercept's `use` has the first word in a scoped layer; else the value
   * reaches `Router.use` under a mount path, or `app.use`, and both require a function.
   */
  function MountError(e: Engine, v: LayerValue, fn: JsValue): Option<string> {
    if fn.isFunction then None
    else if Intercepted(v) then e.interceptError(fn)
    else if v.path.Some? && v.path.value != "" then
      Some("Router.use() requires a middleware function but got a " + fn.typeName)
    else Some("app.use() requires a middleware function")
  }

  function AddMiddleware(e: Engine, s: State, v: LayerValue): Result<State, string> {
    var s1 := s.(log := s.log + ["middleware: " + Render(v)], localCount := s.localCount + 1);
    match e.eval(v.def)
    case Failure(m) => Failure(m)
    case Success(fn) =>
      if RejectsMiddleware(fn) then Failure("Invalid middleware: " + v.def)
      else match MountError(e, v, fn)
        case Some(m) => Failure(m)
        case None => Success(s1.(stages := s1.stages + [Scoped(v, Leaf(Middleware(v.def, fn)))]))
  }

  /**
   * A middleware directive is mounted only when its code evaluates, passes the argument-count
   * guard and is a value express accepts: a value that is not a function and is not scoped by
   * host or path pattern always makes the directive fail.
   */
  lemma {:induction false} MiddlewareMounted(e: Engine, s: State, v: LayerValue)
    ensures AddMiddleware(e, s, v).Success? ==>
              && e.eval(v.def).Success?
              && !RejectsMiddleware(e.eval(v.def).value)
              && (e.eval(v.def).value.isFunction
                  || (Intercepted(v) && e.interceptError(e.eval(v.def).value).None?))
    ensures e.eval(v.def).Success? && !e.eval(v.def).value.isFunction && !Intercepted(v) ==>
              AddMiddleware(e, s, v).Failure?
  {
  }

  function AddStatus(s: State, v: LayerValue): State
    requires IsStatus(v.def)
  {
    s.(log := s.log + ["status: " + Render(v)], localCount := s.localCount + 1,
       stages := s.stages + [Scoped(v, Leaf(Status(StatusCode(v.def))))])
  }

  /** The stages `beforeUpstream` adds, given whether a transform was declared by then. */
  function SetupStages(o: Options, hasTransforms: bool): seq<Stage> {
    (if Truthy(o.cache) then [Leaf(CacheStatic(CacheDir(o.cache.value))), Leaf(Tee(CacheDir(o.cache.value)))] else [])
    + (if Truthy(o.cache) || hasTransforms || Truthy(o.compress) then [Leaf(Decompress)] else [])
  }

  /** `beforeUpstream()`: cache and decompression, ahead of the first upstream. */
  function BeforeUpstreamState(o: Options, s: State): State {
    var log := if Truthy(o.cache) then s.log + ["cache: " + CacheDir(o.cache.value)] else s.log;
    s.(stages := s.stages + SetupStages(o, s.transforms != []), log := log)
  }

  function AddUpstream(o: Options, s: State, v: LayerValue): State {
    var s1 := if s.remoteCount == 0 then BeforeUpstreamState(o, s) else s;
    s1.(log := s1.log + ["upstream: " + Render(v)],
        stages := s1.stages + [Scoped(v, Leaf(Redirection(v.def))), Scoped(v, Leaf(Upstream(v.def)))],
        remoteCount := s1.remoteCount + 1)
  }

  function AddGit(s: State, v: LayerValue): State {
    s.(log := s.log + ["git: " + Render(v)], localCount := s.localCount + 1,
       stages := s.stages + [Scoped(v, Leaf(Git(GitRepo(v.def), GitRoot(v.def))))])
  }

  function AddLocal(o: Options, s: State, v: LayerValue): State {
    s.(log := s.log + ["local: " + Render(v)], localCount := s.localCount + 1,
       stages := s.stages + [Scoped(v, Leaf(Static(v.def)))] + (if o.index then [Scoped(v, Leaf(Index(v.def)))] else []))
  }

  /** What one parsed layer does to the closure. */
  function StepLayer(o: Options, e: Engine, s: State, v: LayerValue): Result<State, string> {
    StepKind(o, e, s, v, Classify(v.def))
  }

  /** What a parsed layer of kind `k` does to the closure. */
  function StepKind(o: Options, e: Engine, s: State, v: LayerValue, k: Kind): Result<State, string>
    requires k == StatusLine ==> IsStatus(v.def)
  {
    match k
    case EmptyLine => Success(s)
    case CommentLine => Success(s.(log := s.log + [v.def]))
    case SedLine => AddSed(e, s, v)
    case FunctionLine => AddFunction(e, s, v)
    case MiddlewareLine => AddMiddleware(e, s, v)
    case StatusLine => Success(AddStatus(s, v))
    case UpstreamLine => Success(AddUpstream(o, s, v))
    case GitLine => Success(AddGit(s, v))
    case LocalLine => Success(AddLocal(o, s, v))
  }

  /** One iteration of `layers.forEach`: `Layer.from` may throw on a path pattern. */
  function Step(o: Options, e: Engine, s: State, raw: string): Result<State, string> {
    var v := Parse(raw);
    match PatternError(v, e.syntaxError)
    case Some(m) => Failure(m)
    case None => StepLayer(o, e, s, v)
  }

  /** The loop over the directives, stopping at the first exception. */
  function Run(o: Options, e: Engine, s: State, layers: seq<string>): Result<State, string>
    decreases |layers|
  {
    if layers == [] then Success(s)
    else
      match Run(o, e, s, layers[..|layers| - 1])
      case Failure(m) => Failure(m)
      case Success(t) => Step(o, e, t, layers[|layers| - 1])
  }

  /** After the loop: no content source is an error; the hook is filled only when there are transforms. */
  function Finish(s: State): Result<App, string> {
    if s.localCount + s.remoteCount == 0 then Failure("No content source applied")
    else
      var hook := if s.transforms != [] then [EncodeBuffer, Transforms(s.transforms), DecodeBuffer, ExpressCharset] else [];
      Success(App(s.stages, hook, s.log))
  }

  /** `weboverlay(options)` */
  function Build(o: Options, e: Engine): Result<App, string> {
    match Run(o, e, Globals(o), o.layers.GetOr([]))
    case Failure(m) => Failure(m)
    case Success(s) => Finish(s)
  }

  // Properties of the classification

  /** The kind is the one of the earliest test in lib/weboverlay.ts that the definition passes. */
  lemma {:induction false} ClassifyFirstMatch(def: string)
    ensures Tests(Classify(def), def)
    ensures forall k :: Tests(k, def) ==> Rank(Classify(def)) <= Rank(k)
  {
  }

  /** A sed transform: `s`, then a delimiter that occurs at least three times in all. */
  lemma {:induction false} SedByCount(def: string)
    ensures IsSed(def) <==> |def| >= 2 && def[0] == 's' && Count(def, def[1]) >= 3
  {
    if |def| >= 2 {
      SplitLength(def, def[1]);
    }
  }

  /** A status definition is read back as the number it spells, between 100 and 599. */
  lemma {:induction false} StatusCodeSpelled(def: string)
    requires IsStatus(def)
    ensures 100 <= StatusCode(def) < 600
    ensures Decimal(StatusCode(def)) == def
  {
    var n := StatusCode(def);
    var a, b, c := def[0] as int - '0' as int, def[1] as int - '0' as int, def[2] as int - '0' as int;
    assert n / 10 == a * 10 + b && n % 10 == c;
    assert n / 10 / 10 == a && n / 10 % 10 == b;
    assert Decimal(n / 10 / 10) == [def[0]];
    assert Decimal(n / 10) == [def[0], def[1]];
    assert def == [def[0], def[1], def[2]];
  }

  // Counts

  /** The kind of a raw directive. */
  function KindOf(raw: string): Kind {
    Classify(Parse(raw).def)
  }

  predicate IsUpstreamKind(k: Kind) {
    k == UpstreamLine
  }

  /** How many directives have a kind that `p` selects. */
  function CountWhere(layers: seq<string>, p: Kind -> bool): nat
    decreases |layers|
  {
    if layers == [] then 0
    else CountWhere(layers[..|layers| - 1], p) + (if p(KindOf(layers[|layers| - 1])) then 1 else 0)
  }

  /** What one directive does to the stages, the transforms and the counts. */
  lemma {:induction false} StepCounts(o: Options, e: Engine, s: State, raw: string, t: State)
    requires Step(o, e, s, raw) == Success(t)
    ensures t.localCount == s.localCount + (if IsLocalSource(KindOf(raw)) then 1 else 0)
    ensures t.remoteCount == s.remoteCount + (if KindOf(raw) == UpstreamLine then 1 else 0)
    ensures t.transforms == TransformOf(e, Parse(raw)) + s.transforms
    ensures |t.transforms| == |s.transforms| + (if IsTransform(KindOf(raw)) then 1 else 0)
    ensures t.stages == s.stages + LayerStages(o, e, s, Parse(raw))
  {
    var v := Parse(raw);
    StepKindEffect(o, e, s, v, Classify(v.def), t);
  }

  lemma {:induction false} StepKindEffect(o: Options, e: Engine, s: State, v: LayerValue, k: Kind, t: State)
    requires k == StatusLine ==> IsStatus(v.def)
    requires StepKind(o, e, s, v, k) == Success(t)
    ensures t.localCount == s.localCount + (if IsLocalSource(k) then 1 else 0)
    ensures t.remoteCount == s.remoteCount + (if k == UpstreamLine then 1 else 0)
    ensures t.transforms == KindTransform(e, v, k) + s.transforms
    ensures |t.transforms| == |s.transforms| + (if IsTransform(k) then 1 else 0)
    ensures t.stages == s.stages + KindStages(o, e, s, v, k)
  {
    match k
    case EmptyLine =>
    case CommentLine =>
    case SedLine =>
      assert AddSed(e, s, v) == Success(t);
    case FunctionLine =>
      assert AddFunction(e, s, v) == Success(t);
    case MiddlewareLine =>
      assert AddMiddleware(e, s, v) == Success(t);
    case StatusLine =>
      assert AddStatus(s, v) == t;
    case UpstreamLine =>
      assert AddUpstream(o, s, v) == t;
    case GitLine =>
      assert AddGit(s, v) == t;
    case LocalLine =>
      assert AddLocal(o, s, v) == t;
  }

  /** The transform a parsed layer declares, if any. */
  function TransformOf(e: Engine, v: LayerValue): (r: seq<TransformHandler>)
    ensures |r| <= 1
  {
    KindTransform(e, v, Classify(v.def))
  }

  function KindTransform(e: Engine, v: LayerValue, k: Kind): (r: seq<TransformHandler>)
    ensures |r| <= 1
  {
    match k
    case SedLine => [Scoped(v, Leaf(Sed(v.def)))]
    case FunctionLine =>
      (match ParseFunction(e, v.def)
       case Success(f) => [Scoped(v, Leaf(f))]
       case Failure(_) => [])
    case _ => []
  }

  /** The stages one layer appends. */
  function LayerStages(o: Options, e: Engine, s: State, v: LayerValue): seq<Stage> {
    KindStages(o, e, s, v, Classify(v.def))
  }

  function KindStages(o: Options, e: Engine, s: State, v: LayerValue, k: Kind): seq<Stage>
    requires k == StatusLine ==> IsStatus(v.def)
  {
    match k
    case MiddlewareLine =>
      (match e.eval(v.def)
       case Success(fn) => [Scoped(v, Leaf(Middleware(v.def, fn)))]
       case Failure(_) => [])
    case StatusLine => [Scoped(v, Leaf(Status(StatusCode(v.def))))]
    case UpstreamLine => (if s.remoteCount == 0 then SetupStages(o, s.transforms != []) else []) + UpstreamStages(v)
    case GitLine => [Scoped(v, Leaf(Git(GitRepo(v.def), GitRoot(v.def))))]
    case LocalLine => [Scoped(v, Leaf(Static(v.def)))] + (if o.index then [Scoped(v, Leaf(Index(v.def)))] else [])
    case _ => []
  }

  /** The two stages of an upstream layer: the redirect rewriter, then the proxy. */
  function UpstreamStages(v: LayerValue): seq<Stage> {
    [Scoped(v, Leaf(Redirection(v.def))), Scoped(v, Leaf(Upstream(v.def)))]
  }

  /** A successful run ends with a successful step from the run over all but the last directive. */
  lemma {:induction false} RunLast(o: Options, e: Engine, s: State, layers: seq<string>, t: State)
    requires layers != [] && Run(o, e, s, layers) == Success(t)
    ensures Run(o, e, s, layers[..|layers| - 1]).Success?
    ensures Step(o, e, Run(o, e, s, layers[..|layers| - 1]).value, layers[|layers| - 1]) == Success(t)
  {
  }

  /**
   * Middleware, status, git and local layers count as local sources, upstreams as remote
   * ones, and every sed or function layer adds one transform.
   */
  lemma {:induction false} RunCounts(o: Options, e: Engine, s: State, layers: seq<string>, t: State)
    requires Run(o, e, s, layers) == Success(t)
    ensures t.localCount == s.localCount + CountWhere(layers, IsLocalSource)
    ensures t.remoteCount == s.remoteCount + CountWhere(layers, IsUpstreamKind)
    ensures |t.transforms| == |s.transforms| + CountWhere(layers, IsTransform)
    decreases |layers|
  {
    if layers != [] {
      var init := layers[..|layers| - 1];
      RunLast(o, e, s, layers, t);
      var m := Run(o, e, s, init).value;
      RunCounts(o, e, s, init, m);
      StepCounts(o, e, m, layers[|layers| - 1], t);
    }
  }

  /** The composer throws "No content source applied" exactly when no layer is a content source. */
  lemma {:induction false} NoContentSource(o: Options, e: Engine)
    requires Run(o, e, Globals(o), o.layers.GetOr([])).Success?
    ensures var layers := o.layers.GetOr([]);
            Build(o, e).Failure? <==> CountWhere(layers, IsLocalSource) + CountWhere(layers, IsUpstreamKind) == 0
    ensures Build(o, e).Failure? ==> Build(o, e).error == "No content source applied"
  {
    var layers := o.layers.GetOr([]);
    RunCounts(o, e, Globals(o), layers, Run(o, e, Globals(o), layers).value);
  }

  // Order of the stages

  /** A stage `beforeUpstream` adds. */
  predicate IsSetup(st: Stage) {
    var a := Innermost(st);
    a.CacheStatic? || a.Tee? || a.Decompress?
  }

  predicate NoSetup(stages: seq<Stage>) {
    forall i | 0 <= i < |stages| :: !IsSetup(stages[i])
  }

  /** A stage only a layer adds: a content source, or the setup ahead of the upstreams. */
  predicate IsLayerStage(st: Stage) {
    var a := Innermost(st);
    || a.Middleware? || a.Status? || a.CacheStatic? || a.Tee? || a.Decompress?
    || a.Redirection? || a.Upstream? || a.Git? || a.Static? || a.Index?
  }

  /** The global stages hold no layer stage and end with the transform hook. */
  lemma {:induction false} GlobalStagesShape(o: Options)
    ensures var g := GlobalStages(o);
            && |g| >= 5 && g[|g| - 1] == Leaf(TransformHook)
            && (forall i | 0 <= i < |g| :: g[i].Leaf? && !IsLayerStage(g[i]))
            && NoSetup(g)
  {
    var g := GlobalStages(o);
    forall i | 0 <= i < |g| ensures g[i].Leaf? && !IsLayerStage(g[i]) {
      var a := g[i].action;
      assert a.Morgan? || a.BasicAuthCheck? || a.EtagCheck? || a.ForceEncoding? || a.Compress?
             || a.HeadFake? || a.Json? || a.TransformHook?;
    }
  }

  /** A directive appends stages only: the ones before it stay in place. */
  lemma {:induction false} RunKeepsPrefix(o: Options, e: Engine, s: State, layers: seq<string>, t: State)
    requires Run(o, e, s, layers) == Success(t)
    ensures |s.stages| <= |t.stages| && t.stages[..|s.stages|] == s.stages
    decreases |layers|
  {
    if layers != [] {
      var init := layers[..|layers| - 1];
      RunLast(o, e, s, layers, t);
      var m := Run(o, e, s, init).value;
      RunKeepsPrefix(o, e, s, init, m);
      StepCounts(o, e, m, layers[|layers| - 1], t);
      assert t.stages[..|m.stages|] == m.stages;
    }
  }

  /**
   * The transform hook is in place before every stage a layer adds, so transforms see the
   * responses of every content source.
   */
  lemma {:induction false} HookBeforeLayers(o: Options, e: Engine, app: App)
    requires Build(o, e) == Success(app)
    ensures var g := GlobalStages(o);
            && |g| <= |app.stages| && app.stages[..|g|] == g
            && app.stages[|g| - 1] == Leaf(TransformHook)
            && forall i | 0 <= i < |app.stages| && IsLayerStage(app.stages[i]) :: |g| <= i
  {
    var g := GlobalStages(o);
    var t := Run(o, e, Globals(o), o.layers.GetOr([])).value;
    RunKeepsPrefix(o, e, Globals(o), o.layers.GetOr([]), t);
    GlobalStagesShape(o);
    LayerStagesAfter(g, app.stages);
  }

  lemma {:induction false} LayerStagesAfter(g: seq<Stage>, stages: seq<Stage>)
    requires |g| <= |stages| && stages[..|g|] == g
    requires forall i | 0 <= i < |g| :: !IsLayerStage(g[i])
    ensures forall i | 0 <= i < |stages| && IsLayerStage(stages[i]) :: |g| <= i
  {
    forall i | 0 <= i < |stages| && IsLayerStage(stages[i]) ensures |g| <= i {
    }
  }

  lemma {:induction false} NoSetupConcat(a: seq<Stage>, b: seq<Stage>)
    ensures NoSetup(a + b) <==> NoSetup(a) && NoSetup(b)
  {
    if NoSetup(a) && NoSetup(b) {
      forall i | 0 <= i < |a + b| ensures !IsSetup((a + b)[i]) {
        if i >= |a| {
          assert (a + b)[i] == b[i - |a|];
        }
      }
    }
    if NoSetup(a + b) {
      forall i | 0 <= i < |a| ensures !IsSetup(a[i]) {
        assert (a + b)[i] == a[i];
      }
      forall i | 0 <= i < |b| ensures !IsSetup(b[i]) {
        assert (a + b)[|a| + i] == b[i];
      }
    }
  }

  /** Only the first upstream brings the setup along. */
  lemma {:induction false} KindStagesNoSetup(o: Options, e: Engine, s: State, v: LayerValue, k: Kind)
    requires k == StatusLine ==> IsStatus(v.def)
    ensures k == UpstreamLine && s.remoteCount == 0 ==>
              KindStages(o, e, s, v, k) == SetupStages(o, s.transforms != []) + UpstreamStages(v)
    ensures !(k == UpstreamLine && s.remoteCount == 0) ==> NoSetup(KindStages(o, e, s, v, k))
  {
    match k
    case MiddlewareLine =>
      if e.eval(v.def).Success? {
        ScopedInnermost(v, Leaf(Middleware(v.def, e.eval(v.def).value)));
      }
    case StatusLine =>
      ScopedInnermost(v, Leaf(Status(StatusCode(v.def))));
    case UpstreamLine =>
      if s.remoteCount != 0 {
        UpstreamNoSetup(v);
      }
    case GitLine =>
      ScopedInnermost(v, Leaf(Git(GitRepo(v.def), GitRoot(v.def))));
    case LocalLine =>
      ScopedInnermost(v, Leaf(Static(v.def)));
      ScopedInnermost(v, Leaf(Index(v.def)));
    case _ =>
  }

  /**
   * The setup stands right after the stages of the closure `p`, with no setup stage before or
   * after it.
   */
  predicate SetupAfter(o: Options, p: State, stages: seq<Stage>) {
    var n := |p.stages| + |SetupStages(o, p.transforms != [])|;
    && NoSetup(p.stages)
    && n <= |stages|
    && stages[..n] == p.stages + SetupStages(o, p.transforms != [])
    && NoSetup(stages[n..])
  }

  /** Without an upstream among the directives there is no setup and no remote source. */
  lemma {:induction false} NoUpstreamNoSetup(o: Options, e: Engine, s: State, layers: seq<string>, t: State)
    requires Run(o, e, s, layers) == Success(t)
    requires NoSetup(s.stages) && s.remoteCount == 0
    requires CountWhere(layers, IsUpstreamKind) == 0
    ensures NoSetup(t.stages) && t.remoteCount == 0
    decreases |layers|
  {
    if layers != [] {
      var n := |layers| - 1;
      var init := layers[..n];
      RunLast(o, e, s, layers, t);
      var m := Run(o, e, s, init).value;
      assert CountWhere(init, IsUpstreamKind) == 0 && !IsUpstreamKind(KindOf(layers[n]));
      NoUpstreamNoSetup(o, e, s, init, m);
      StepNoSetup(o, e, m, layers[n], t);
      NoSetupConcat(m.stages, LayerStages(o, e, m, Parse(layers[n])));
    }
  }

  /** A directive other than the first upstream adds no setup. */
  lemma {:induction false} StepNoSetup(o: Options, e: Engine, m: State, raw: string, t: State)
    requires Step(o, e, m, raw) == Success(t)
    requires !(KindOf(raw) == UpstreamLine && m.remoteCount == 0)
    ensures t.stages == m.stages + LayerStages(o, e, m, Parse(raw)) && NoSetup(LayerStages(o, e, m, Parse(raw)))
    ensures t.remoteCount == m.remoteCount + (if KindOf(raw) == UpstreamLine then 1 else 0)
  {
    var v := Parse(raw);
    StepCounts(o, e, m, raw, t);
    KindStagesNoSetup(o, e, m, v, Classify(v.def));
  }

  /** Running two lists of directives one after the other is running their concatenation. */
  lemma {:induction false} RunAppend(o: Options, e: Engine, s: State, a: seq<string>, b: seq<string>)
    ensures Run(o, e, s, a + b) ==
            match Run(o, e, s, a)
            case Failure(m) => Failure(m)
            case Success(m) => Run(o, e, m, b)
    decreases |b|
  {
    if b == [] {
      assert a + b == a;
    } else {
      var n := |b| - 1;
      RunAppend(o, e, s, a, b[..n]);
      assert (a + b)[..|a + b| - 1] == a + b[..n];
      assert (a + b)[|a + b| - 1] == b[n];
    }
  }

  /** The run over one more directive. */
  lemma {:induction false} RunSnoc(o: Options, e: Engine, s: State, layers: seq<string>, i: nat)
    requires i < |layers|
    ensures Run(o, e, s, layers[..i + 1]) ==
            match Run(o, e, s, layers[..i])
            case Failure(m) => Failure(m)
            case Success(t) => Step(o, e, t, layers[i])
  {
    assert layers[..i + 1][..i] == layers[..i];
  }

  /**
   * A list of directives holding a middleware whose code evaluates to something other than a
   * function, with no host or path-pattern scope, never builds: the run ends at that directive
   * or earlier.
   */
  lemma {:induction false} NonFunctionMiddlewareStopsBuild(o: Options, e: Engine, i: nat)
    requires i < |o.layers.GetOr([])|
    requires var v := Parse(o.layers.GetOr([])[i]);
             && Classify(v.def) == MiddlewareLine && !Intercepted(v)
             && e.eval(v.def).Success? && !e.eval(v.def).value.isFunction
    ensures Build(o, e).Failure?
  {
    var layers := o.layers.GetOr([]);
    RunSnoc(o, e, Globals(o), layers, i);
    var before := Run(o, e, Globals(o), layers[..i]);
    if before.Success? {
      var v := Parse(layers[i]);
      MiddlewareMounted(e, before.value, v);
      assert Step(o, e, before.value, layers[i]).Failure?;
    }
    RunStopsAt(o, e, Globals(o), layers, i);
  }

  /** The first directive that throws ends the whole run with its error. */
  lemma {:induction false} RunStopsAt(o: Options, e: Engine, s: State, layers: seq<string>, i: nat)
    requires i < |layers| && Run(o, e, s, layers[..i + 1]).Failure?
    ensures Run(o, e, s, layers) == Run(o, e, s, layers[..i + 1])
  {
    RunAppend(o, e, s, layers[..i + 1], layers[i + 1..]);
    assert layers[..i + 1] + layers[i + 1..] == layers;
  }

  /** Directives after the first upstream leave the setup where it is. */
  lemma {:induction false} SetupPersists(o: Options, e: Engine, p: State, m: State, rest: seq<string>, t: State)
    requires Run(o, e, m, rest) == Success(t)
    requires m.remoteCount > 0 && SetupAfter(o, p, m.stages)
    ensures t.remoteCount > 0 && SetupAfter(o, p, t.stages)
    decreases |rest|
  {
    if rest != [] {
      var n := |rest| - 1;
      var mid := Run(o, e, m, rest[..n]).value;
      SetupPersists(o, e, p, m, rest[..n], mid);
      SetupLater(o, e, p, mid, rest[n], t);
    }
  }

  /**
   * The setup happens once, ahead of the stages of the first upstream `up`: right after the
   * stages of the directives before it.
   */
  lemma {:induction false} SetupOnce(o: Options, e: Engine, s: State, pre: seq<string>, up: string, post: seq<string>, t: State)
    requires Run(o, e, s, pre + [up] + post) == Success(t)
    requires NoSetup(s.stages) && s.remoteCount == 0
    requires CountWhere(pre, IsUpstreamKind) == 0 && KindOf(up) == UpstreamLine
    ensures t.remoteCount > 0
    ensures Run(o, e, s, pre).Success?
    ensures SetupAfter(o, Run(o, e, s, pre).value, t.stages)
  {
    RunAppend(o, e, s, pre + [up], post);
    RunAppend(o, e, s, pre, [up]);
    var p := Run(o, e, s, pre).value;
    NoUpstreamNoSetup(o, e, s, pre, p);
    var m := Run(o, e, p, [up]).value;
    assert [up][..0] == [];
    StepFirstUpstream(o, e, p, up, m);
    SetupPersists(o, e, p, m, post, t);
  }

  /** A directive after the first upstream leaves the setup where it is. */
  lemma {:induction false} SetupLater(o: Options, e: Engine, p: State, m: State, raw: string, t: State)
    requires Step(o, e, m, raw) == Success(t)
    requires m.remoteCount > 0 && SetupAfter(o, p, m.stages)
    ensures t.remoteCount > 0 && SetupAfter(o, p, t.stages)
  {
    StepNoSetup(o, e, m, raw, t);
    SetupKept(o, p, m.stages, LayerStages(o, e, m, Parse(raw)), t.stages);
  }

  /** The first upstream brings the setup along, ahead of its own stages. */
  lemma {:induction false} StepFirstUpstream(o: Options, e: Engine, m: State, raw: string, t: State)
    requires Step(o, e, m, raw) == Success(t)
    requires KindOf(raw) == UpstreamLine && m.remoteCount == 0 && NoSetup(m.stages)
    ensures t.remoteCount > 0 && SetupAfter(o, m, t.stages)
  {
    var v := Parse(raw);
    StepCounts(o, e, m, raw, t);
    KindStagesNoSetup(o, e, m, v, Classify(v.def));
    UpstreamNoSetup(v);
    SetupFirst(o, m, v, t.stages);
  }

  lemma {:induction false} SetupFirst(o: Options, m: State, v: LayerValue, stages: seq<Stage>)
    requires NoSetup(m.stages) && NoSetup(UpstreamStages(v))
    requires stages == m.stages + (SetupStages(o, m.transforms != []) + UpstreamStages(v))
    ensures SetupAfter(o, m, stages)
  {
    var setup := SetupStages(o, m.transforms != []);
    assert stages == (m.stages + setup) + UpstreamStages(v);
    assert stages[..|m.stages| + |setup|] == m.stages + setup;
    assert stages[|m.stages| + |setup|..] == UpstreamStages(v);
  }

  lemma {:induction false} SetupKept(o: Options, p: State, before: seq<Stage>, added: seq<Stage>, stages: seq<Stage>)
    requires SetupAfter(o, p, before) && NoSetup(added)
    requires stages == before + added
    ensures SetupAfter(o, p, stages)
  {
    var k := |p.stages| + |SetupStages(o, p.transforms != [])|;
    assert stages[..k] == before[..k];
    assert stages[k..] == before[k..] + added;
    NoSetupConcat(before[k..], added);
  }

  lemma {:induction false} UpstreamNoSetup(v: LayerValue)
    ensures NoSetup(UpstreamStages(v))
  {
    ScopedInnermost(v, Leaf(Redirection(v.def)));
    ScopedInnermost(v, Leaf(Upstream(v.def)));
  }

  /** Decompression is set up when a cache or a compression is set, or a transform was declared. */
  lemma {:induction false} DecompressSetUp(o: Options, hasTransforms: bool)
    ensures Leaf(Decompress) in SetupStages(o, hasTransforms) <==> Truthy(o.cache) || hasTransforms || Truthy(o.compress)
  {
    var setup := SetupStages(o, hasTransforms);
    if Truthy(o.cache) {
      assert setup[2] == Leaf(Decompress);
    } else if hasTransforms || Truthy(o.compress) {
      assert setup[0] == Leaf(Decompress);
    }
  }

  /** With no upstream directive, the application has no cache or decompression stage. */
  lemma {:induction false} NoSetupWithoutUpstream(o: Options, e: Engine, app: App)
    requires Build(o, e) == Success(app)
    requires CountWhere(o.layers.GetOr([]), IsUpstreamKind) == 0
    ensures NoSetup(app.stages)
  {
    var layers := o.layers.GetOr([]);
    GlobalStagesShape(o);
    NoUpstreamNoSetup(o, e, Globals(o), layers, Run(o, e, Globals(o), layers).value);
  }

  /**
   * In the application, with the directives split at the first upstream `up`: the cache and
   * decompression stages come right after the stages of the directives before it, and
   * decompression is there exactly when a cache or a compression is set or one of those
   * directives declared a transform.
   */
  lemma {:induction false} SetupBeforeFirstUpstream(o: Options, e: Engine, app: App, pre: seq<string>, up: string, post: seq<string>)
    requires Build(o, e) == Success(app)
    requires o.layers.GetOr([]) == pre + [up] + post
    requires CountWhere(pre, IsUpstreamKind) == 0 && KindOf(up) == UpstreamLine
    ensures Run(o, e, Globals(o), pre).Success?
    ensures var p := Run(o, e, Globals(o), pre).value;
            && SetupAfter(o, p, app.stages)
            && (Leaf(Decompress) in SetupStages(o, p.transforms != []) <==>
                  Truthy(o.cache) || Truthy(o.compress) || CountWhere(pre, IsTransform) > 0)
  {
    GlobalStagesShape(o);
    SetupOnce(o, e, Globals(o), pre, up, post, Run(o, e, Globals(o), pre + [up] + post).value);
    var p := Run(o, e, Globals(o), pre).value;
    RunCounts(o, e, Globals(o), pre, p);
    DecompressSetUp(o, p.transforms != []);
  }

  // Order of the transforms

  /** The transforms the directives declare, in declaration order. */
  function Declared(e: Engine, layers: seq<string>): seq<TransformHandler>
    decreases |layers|
  {
    if layers == [] then []
    else Declared(e, layers[..|layers| - 1]) + TransformOf(e, Parse(layers[|layers| - 1]))
  }

  function Reverse<T>(xs: seq<T>): (r: seq<T>)
    ensures |r| == |xs|
    ensures forall i | 0 <= i < |xs| :: r[i] == xs[|xs| - 1 - i]
    decreases |xs|
  {
    if xs == [] then [] else Reverse(xs[1..]) + [xs[0]]
  }

  lemma {:induction false} ReverseSnoc(xs: seq<TransformHandler>, ys: seq<TransformHandler>)
    requires |ys| <= 1
    ensures Reverse(xs + ys) == ys + Reverse(xs)
  {
    if ys != [] {
      var r := Reverse(xs + ys);
      assert r[0] == ys[0];
      forall i | 1 <= i < |r| ensures r[i] == Reverse(xs)[i - 1] {
      }
      assert r == ys + Reverse(xs);
    } else {
      assert xs + ys == xs;
    }
  }

  /** `prependTransform`: the chain holds the transforms newest first. */
  lemma {:induction false} RunTransforms(o: Options, e: Engine, s: State, layers: seq<string>, t: State)
    requires Run(o, e, s, layers) == Success(t)
    ensures t.transforms == Reverse(Declared(e, layers)) + s.transforms
    decreases |layers|
  {
    if layers != [] {
      var n := |layers| - 1;
      RunLast(o, e, s, layers, t);
      var m := Run(o, e, s, layers[..n]).value;
      RunTransforms(o, e, s, layers[..n], m);
      StepCounts(o, e, m, layers[n], t);
      PrependReversed(Declared(e, layers[..n]), TransformOf(e, Parse(layers[n])), s.transforms, m.transforms, t.transforms);
    }
  }

  lemma {:induction false} PrependReversed(declared: seq<TransformHandler>, added: seq<TransformHandler>, before: seq<TransformHandler>, mid: seq<TransformHandler>, after: seq<TransformHandler>)
    requires |added| <= 1
    requires mid == Reverse(declared) + before && after == added + mid
    ensures after == Reverse(declared + added) + before
  {
    ReverseSnoc(declared, added);
  }

  /**
   * The body after the chain, newest transform first as the hook holds it. `rewrite(h, b)` is
   * what handler `h` makes of body `b`, guards and content-type gate included. Assumed of
   * express-intercept: in `use(a, b)`, the body rewrite of `b` runs before that of `a`.
   */
  function ChainRewrite(chain: seq<TransformHandler>, rewrite: (TransformHandler, string) -> string, body: string): string
    decreases |chain|
  {
    if chain == [] then body else rewrite(chain[0], ChainRewrite(chain[1..], rewrite, body))
  }

  /** The body after applying the transforms one after the other, first to last. */
  function InOrder(xs: seq<TransformHandler>, rewrite: (TransformHandler, string) -> string, body: string): string
    decreases |xs|
  {
    if xs == [] then body else InOrder(xs[1..], rewrite, rewrite(xs[0], body))
  }

  lemma {:induction false} ChainSnoc(chain: seq<TransformHandler>, x: TransformHandler, rewrite: (TransformHandler, string) -> string, body: string)
    ensures ChainRewrite(chain + [x], rewrite, body) == ChainRewrite(chain, rewrite, rewrite(x, body))
    decreases |chain|
  {
    if chain == [] {
      assert (chain + [x])[1..] == [];
    } else {
      assert (chain + [x])[1..] == chain[1..] + [x];
      ChainSnoc(chain[1..], x, rewrite, body);
    }
  }

  /** A chain built newest first rewrites in declaration order. */
  lemma {:induction false} ChainInDeclarationOrder(xs: seq<TransformHandler>, rewrite: (TransformHandler, string) -> string, body: string)
    ensures ChainRewrite(Reverse(xs), rewrite, body) == InOrder(xs, rewrite, body)
    decreases |xs|
  {
    if xs != [] {
      ChainSnoc(Reverse(xs[1..]), xs[0], rewrite, body);
      ChainInDeclarationOrder(xs[1..], rewrite, rewrite(xs[0], body));
    }
  }

  /**
   * The transform hook is filled exactly when some directive declares a transform, with the
   * chain between the buffer encoding and decoding, and its rewrites run in declaration order.
   */
  lemma {:induction false} TransformsInDeclarationOrder(o: Options, e: Engine, app: App, rewrite: (TransformHandler, string) -> string, body: string)
    requires Build(o, e) == Success(app)
    ensures app.hook == [] <==> Declared(e, o.layers.GetOr([])) == []
    ensures app.hook != [] ==>
              && |app.hook| == 4 && app.hook[0] == EncodeBuffer && app.hook[1].Transforms?
              && app.hook[2] == DecodeBuffer && app.hook[3] == ExpressCharset
              && ChainRewrite(app.hook[1].chain, rewrite, body) == InOrder(Declared(e, o.layers.GetOr([])), rewrite, body)
  {
    var layers := o.layers.GetOr([]);
    BuildFinishes(o, e, app);
    var t := Run(o, e, Globals(o), layers).value;
    RunTransforms(o, e, Globals(o), layers, t);
    HookOrder(Declared(e, layers), t, app, rewrite, body);
  }

  lemma {:induction false} HookOrder(declared: seq<TransformHandler>, t: State, app: App, rewrite: (TransformHandler, string) -> string, body: string)
    requires Finish(t) == Success(app) && t.transforms == Reverse(declared)
    ensures app.hook == [] <==> declared == []
    ensures app.hook != [] ==>
              && |app.hook| == 4 && app.hook[0] == EncodeBuffer && app.hook[1].Transforms?
              && app.hook[2] == DecodeBuffer && app.hook[3] == ExpressCharset
              && ChainRewrite(app.hook[1].chain, rewrite, body) == InOrder(declared, rewrite, body)
  {
    FinishHook(t, app);
    ChainInDeclarationOrder(declared, rewrite, body);
  }

  lemma {:induction false} BuildFinishes(o: Options, e: Engine, app: App)
    requires Build(o, e) == Success(app)
    ensures Run(o, e, Globals(o), o.layers.GetOr([])).Success?
    ensures Finish(Run(o, e, Globals(o), o.layers.GetOr([])).value) == Success(app)
  {
  }

  lemma {:induction false} FinishHook(t: State, app: App)
    requires Finish(t) == Success(app)
    ensures app.hook == [] <==> t.transforms == []
    ensures app.hook != [] ==> app.hook == [EncodeBuffer, Transforms(t.transforms), DecodeBuffer, ExpressCharset]
  {
  }

  /** What a global sed substitution with a literal pattern does: every match, left to right. */
  function ReplaceAll(s: string, pat: string, rep: string): string
    requires pat != []
    decreases |s|
  {
    if |s| < |pat| then s
    else if s[..|pat|] == pat then rep + ReplaceAll(s[|pat|..], pat, rep)
    else [s[0]] + ReplaceAll(s[1..], pat, rep)
  }

  lemma {:induction false} ReplaceAllAbsent(s: string, pat: string, rep: string)
    requires pat != [] && !Contains(s, pat)
    ensures ReplaceAll(s, pat, rep) == s
    decreases |s|
  {
    if |s| >= |pat| {
      assert !OccursAt(s, pat, 0);
      if Contains(s[1..], pat) {
        var i :| 0 <= i <= |s[1..]| - |pat| && OccursAt(s[1..], pat, i);
        assert s[i + 1..i + 1 + |pat|] == s[1..][i..i + |pat|];
        assert OccursAt(s, pat, i + 1);
      }
      ReplaceAllAbsent(s[1..], pat, rep);
      assert [s[0]] + s[1..] == s;
    }
  }

  lemma {:induction false} ReplaceAllHead(pat: string, rep: string, rest: string)
    requires pat != []
    ensures ReplaceAll(pat + rest, pat, rep) == rep + ReplaceAll(rest, pat, rep)
  {
    assert (pat + rest)[..|pat|] == pat;
    assert (pat + rest)[|pat|..] == rest;
  }

  lemma {:induction false} ReplaceAllSkip(c: char, pat: string, rep: string, rest: string)
    requires pat != [] && c != pat[0]
    ensures ReplaceAll([c] + rest, pat, rep) == [c] + ReplaceAll(rest, pat, rep)
  {
    var s := [c] + rest;
    if |s| >= |pat| {
      assert s[..|pat|][0] == c;
      assert s[1..] == rest;
    } else {
      assert |rest| < |pat|;
    }
  }

  /**
   * `s/foo/bar/g` declared before `s/bar/buz/g` turns "foo:bar:buz" into "buz:buz:buz":
   * the second sees the output of the first.
   */
  lemma {:induction false} SedOrderExample(first: TransformHandler, second: TransformHandler, rewrite: (TransformHandler, string) -> string)
    requires forall b :: rewrite(first, b) == ReplaceAll(b, "foo", "bar")
    requires forall b :: rewrite(second, b) == ReplaceAll(b, "bar", "buz")
    ensures ChainRewrite(Reverse([first, second]), rewrite, "foo:bar:buz") == "buz:buz:buz"
  {
    var xs := [first, second];
    ChainInDeclarationOrder(xs, rewrite, "foo:bar:buz");
    FooToBar();
    assert rewrite(first, "foo:bar:buz") == "bar:bar:buz";
    assert xs[1..] == [second];
    assert InOrder(xs, rewrite, "foo:bar:buz") == InOrder([second], rewrite, "bar:bar:buz");
    BarToBuz();
    assert rewrite(second, "bar:bar:buz") == "buz:buz:buz";
    assert [second][1..] == [];
    assert InOrder([second], rewrite, "bar:bar:buz") == "buz:buz:buz";
  }

  lemma {:induction false} FooToBar()
    ensures ReplaceAll("foo:bar:buz", "foo", "bar") == "bar:bar:buz"
  {
    var rest := ":bar:buz";
    NoFooIn(rest);
    SubstituteHeadOnly("foo", "bar", rest);
    FooBarSplit(rest);
  }

  lemma {:induction false} BarToBuz()
    ensures ReplaceAll("bar:bar:buz", "bar", "buz") == "buz:buz:buz"
  {
    var rest := ":buz";
    NoBarIn(rest);
    SubstituteTwice("bar", "buz", ':', rest);
    assert "bar:bar:buz" == "bar" + [':'] + "bar" + rest;
    assert "buz:buz:buz" == "buz" + [':'] + "buz" + rest;
  }

  /** A pattern at the head of a text where it does not occur again. */
  lemma {:induction false} SubstituteHeadOnly(pat: string, rep: string, rest: string)
    requires pat != [] && !Contains(rest, pat)
    ensures ReplaceAll(pat + rest, pat, rep) == rep + rest
  {
    ReplaceAllHead(pat, rep, rest);
    ReplaceAllAbsent(rest, pat, rep);
  }

  /** A pattern at the head and again after a character it does not start with. */
  lemma {:induction false} SubstituteTwice(pat: string, rep: string, c: char, rest: string)
    requires pat != [] && c != pat[0] && !Contains(rest, pat)
    ensures ReplaceAll(pat + [c] + pat + rest, pat, rep) == rep + [c] + rep + rest
  {
    assert pat + [c] + pat + rest == pat + ([c] + (pat + rest));
    ReplaceAllHead(pat, rep, [c] + (pat + rest));
    ReplaceAllSkip(c, pat, rep, pat + rest);
    SubstituteHeadOnly(pat, rep, rest);
    assert rep + [c] + rep + rest == rep + ([c] + (rep + rest));
  }

  /** A pattern with a character that does not occur in `s` does not occur in `s` either. */
  lemma {:induction false} CharAbsent(s: string, pat: string, k: nat)
    requires k < |pat| && pat[k] !in s
    ensures !Contains(s, pat)
  {
    forall i | 0 <= i <= |s| - |pat| ensures !OccursAt(s, pat, i) {
      assert s[i + k] in s;
      assert s[i..i + |pat|][k] == s[i + k];
    }
  }

  lemma {:induction false} FooBarSplit(rest: string)
    requires rest == ":bar:buz"
    ensures "foo:bar:buz" == "foo" + rest && "bar:bar:buz" == "bar" + rest
  {
  }

  lemma {:induction false} NoFooIn(s: string)
    requires s == ":bar:buz"
    ensures !Contains(s, "foo")
  {
    assert 'f' !in s;
    CharAbsent(s, "foo", 0);
  }

  lemma {:induction false} NoBarIn(s: string)
    requires s == ":buz"
    ensures !Contains(s, "bar")
  {
    assert 'a' !in s;
    CharAbsent(s, "bar", 1);
  }
}
