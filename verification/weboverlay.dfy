/**
 * `weboverlay(options)` as lib/weboverlay.ts writes it: a closure over the stage list, the transform
 * chain and two counters, set up by the global options and then changed in place by each
 * layer directive in turn. Every method is proved to make the change the pure `Overlay`
 * functions describe, so the properties proved there hold of the application built here.
 */
module WebOverlay {
  import opened Wrappers
  import opened Text
  import opened Layers
  import opened BasicAuth
  import opened OverlayHelpers
  import opened Overlay

  class Composer {
    var stages: seq<Stage>
    var transforms: seq<TransformHandler>
    var localCount: nat
    var remoteCount: nat
    var log: seq<string>

    /** The closure's variables as a value. */
    function Value(): State
      reads this
    {
      State(stages, transforms, localCount, remoteCount, log)
    }

    /** The global stages, in the order the options set them up. */
    constructor (o: Options)
      ensures Value() == Globals(o)
    {
      var auth: seq<Stage> := [];
      var authLog: seq<string> := [];
      if BasicOn(o) {
        var users := BuildUsers(Entries(o.basic.value));
        authLog := ["authentication: Basic"];
        auth := [Leaf(BasicAuthCheck(users))];
      }
      var force: seq<Stage> := [];
      var forceLog: seq<string> := [];
      if o.compress.Some? {
        forceLog := ["compress: " + o.compress.value];
        force := [Leaf(ForceEncoding(o.compress.value))];
      }
      var json: seq<Stage> := if JsonOn(o) then [Leaf(Json(o.json.value))] else [];
      stages := [Leaf(Morgan(LogFormat(o)))] + auth + [Leaf(EtagCheck)] + force
        + [Leaf(Compress), Leaf(HeadFake)] + json + [Leaf(TransformHook)];
      transforms := [];
      localCount := 0;
      remoteCount := 0;
      log := authLog + forceLog;
    }

    /** `logger.log(line)` */
    method Log(line: string)
      modifies this
      ensures Value() == old(Value()).(log := old(log) + [line])
    {
      log := log + [line];
    }

    /** `app.use(stage)` */
    method Use(stage: Stage)
      modifies this
      ensures Value() == old(Value()).(stages := old(stages) + [stage])
    {
      stages := stages + [stage];
    }

    /** `prependTransform(handler)` */
    method PrependTransform(handler: TransformHandler)
      modifies this
      ensures Value() == old(Value()).(transforms := [handler] + old(transforms))
    {
      transforms := [handler] + transforms;
    }

    /** `beforeUpstream()` */
    method BeforeUpstream(o: Options)
      modifies this
      ensures Value() == BeforeUpstreamState(o, old(Value()))
    {
      if Truthy(o.cache) {
        var dir := CacheDir(o.cache.value);
        Log("cache: " + dir);
        Use(Leaf(CacheStatic(dir)));
        Use(Leaf(Tee(dir)));
      }
      if Truthy(o.cache) || transforms != [] || Truthy(o.compress) {
        Use(Leaf(Decompress));
      }
    }

    /** A sed directive: logged with its control characters escaped, then prepended. */
    method ApplySed(e: Engine, layer: Layer) returns (err: Option<string>)
      modifies this
      ensures var r := Overlay.AddSed(e, old(Value()), layer.Value());
              && (err.None? <==> r.Success?)
              && (r.Success? ==> Value() == r.value)
              && (r.Failure? ==> err == Some(r.error))
    {
      Log("transform: " + EscapeControls(layer.ToString()));
      var m := e.sedError(layer.def);
      if m.Some? {
        return Some(m.value);
      }
      var h := layer.Handler(Leaf(Sed(layer.def)));
      PrependTransform(h);
      return None;
    }

    /** A function directive: logged, parsed and prepended. */
    method ApplyFunction(e: Engine, layer: Layer) returns (err: Option<string>)
      modifies this
      ensures var r := Overlay.AddFunction(e, old(Value()), layer.Value());
              && (err.None? <==> r.Success?)
              && (r.Success? ==> Value() == r.value)
              && (r.Failure? ==> err == Some(r.error))
    {
      Log("function: " + layer.ToString());
      var f := ParseFunction(e, layer.def);
      if f.Failure? {
        return Some(f.error);
      }
      var h := layer.Handler(Leaf(f.value));
      PrependTransform(h);
      return None;
    }

    /** A middleware directive: counted before its code is evaluated and checked. */
    method ApplyMiddleware(e: Engine, layer: Layer) returns (err: Option<string>)
      modifies this
      ensures var r := Overlay.AddMiddleware(e, old(Value()), layer.Value());
              && (err.None? <==> r.Success?)
              && (r.Success? ==> Value() == r.value)
              && (r.Failure? ==> err == Some(r.error))
    {
      Log("middleware: " + layer.ToString());
      localCount := localCount + 1;
      var fn := e.eval(layer.def);
      if fn.Failure? {
        return Some(fn.error);
      }
      if RejectsMiddleware(fn.value) {
        return Some("Invalid middleware: " + layer.def);
      }
      var thrown := MountError(e, layer.Value(), fn.value);
      if thrown.Some? {
        return thrown;
      }
      var h := layer.Handler(Leaf(Middleware(layer.def, fn.value)));
      Use(h);
      return None;
    }

    /** A status directive: an empty response with that status. */
    method ApplyStatus(layer: Layer)
      requires IsStatus(layer.def)
      modifies this
      ensures Value() == AddStatus(old(Value()), layer.Value())
    {
      Log("status: " + layer.ToString());
      localCount := localCount + 1;
      var h := layer.Handler(Leaf(Status(StatusCode(layer.def))));
      Use(h);
    }

    /** An upstream directive; the first one brings the cache and decompression along. */
    method ApplyUpstream(o: Options, layer: Layer)
      modifies this
      ensures Value() == AddUpstream(o, old(Value()), layer.Value())
    {
      if remoteCount == 0 {
        BeforeUpstream(o);
      }
      Log("upstream: " + layer.ToString());
      var redirect := layer.Handler(Leaf(Redirection(layer.def)));
      Use(redirect);
      var proxy := layer.Handler(Leaf(Upstream(layer.def)));
      Use(proxy);
      remoteCount := remoteCount + 1;
    }

    /** A git directive: the repository and the root inside it. */
    method ApplyGit(layer: Layer)
      modifies this
      ensures Value() == AddGit(old(Value()), layer.Value())
    {
      Log("git: " + layer.ToString());
      localCount := localCount + 1;
      var h := layer.Handler(Leaf(Git(GitRepo(layer.def), GitRoot(layer.def))));
      Use(h);
    }

    /** A local directory, with its listing when `index` is set. */
    method ApplyLocal(o: Options, layer: Layer)
      modifies this
      ensures Value() == AddLocal(o, old(Value()), layer.Value())
    {
      Log("local: " + layer.ToString());
      localCount := localCount + 1;
      var h := layer.Handler(Leaf(Static(layer.def)));
      Use(h);
      if o.index {
        var listing := layer.Handler(Leaf(Index(layer.def)));
        Use(listing);
      }
    }

    /** One iteration of `layers.forEach`: the error it throws, if any. */
    method AddLayer(o: Options, e: Engine, raw: string) returns (err: Option<string>)
      modifies this
      ensures var r := Step(o, e, old(Value()), raw);
              && (err.None? <==> r.Success?)
              && (r.Success? ==> Value() == r.value)
              && (r.Failure? ==> err == Some(r.error))
    {
      var from := Layer.From(raw, e.syntaxError);
      if from.Failure? {
        return Some(from.error);
      }
      var layer := from.value;
      assert Step(o, e, old(Value()), raw) == StepKind(o, e, old(Value()), layer.Value(), Classify(layer.def));
      err := ApplyKind(o, e, layer, Classify(layer.def));
    }

    /** The branch of the directive's kind, in the order `weboverlay` tests them. */
    method ApplyKind(o: Options, e: Engine, layer: Layer, k: Kind) returns (err: Option<string>)
      requires k == Classify(layer.def)
      modifies this
      ensures var r := StepKind(o, e, old(Value()), layer.Value(), k);
              && (err.None? <==> r.Success?)
              && (r.Success? ==> Value() == r.value)
              && (r.Failure? ==> err == Some(r.error))
    {
      match k
      case EmptyLine =>
        err := None;
      case CommentLine =>
        Log(layer.def);
        err := None;
      case SedLine =>
        err := ApplySed(e, layer);
      case FunctionLine =>
        err := ApplyFunction(e, layer);
      case MiddlewareLine =>
        err := ApplyMiddleware(e, layer);
      case StatusLine =>
        ApplyStatus(layer);
        err := None;
      case UpstreamLine =>
        ApplyUpstream(o, layer);
        err := None;
      case GitLine =>
        ApplyGit(layer);
        err := None;
      case LocalLine =>
        ApplyLocal(o, layer);
        err := None;
    }

    /** `layers.forEach(...)`: the directives in order, up to the first error thrown. */
    method AddLayers(o: Options, e: Engine, layers: seq<string>) returns (err: Option<string>)
      modifies this
      ensures var r := Run(o, e, old(Value()), layers);
              && (err.None? <==> r.Success?)
              && (r.Success? ==> Value() == r.value)
              && (r.Failure? ==> err == Some(r.error))
    {
      ghost var start := Value();
      for i := 0 to |layers|
        invariant Run(o, e, start, layers[..i]) == Success(Value())
      {
        RunSnoc(o, e, start, layers, i);
        err := AddLayer(o, e, layers[i]);
        if err.Some? {
          RunStopsAt(o, e, start, layers, i);
          return;
        }
      }
      assert layers[..|layers|] == layers;
      err := None;
    }
  }

  /** `weboverlay(options)`: the application, or the message of the first error thrown. */
  method Weboverlay(o: Options, e: Engine) returns (r: Result<App, string>)
    ensures r == Build(o, e)
  {
    var c := new Composer(o);
    var err := c.AddLayers(o, e, o.layers.GetOr([]));
    if err.Some? {
      return Failure(err.value);
    }
    if c.localCount + c.remoteCount == 0 {
      return Failure("No content source applied");
    }
    var hook := if c.transforms != [] then [EncodeBuffer, Transforms(c.transforms), DecodeBuffer, ExpressCharset] else [];
    r := Success(App(c.stages, hook, c.log));
  }
}
