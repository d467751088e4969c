/**
 * One layer directive (lib/layer.ts): an optional scope — an exact or wildcard virtual
 * host, a mount path or a path pattern — split off at the first `=`, and the definition
 * that follows it. The parse is a pure function on strings; the `Layer` class assigns the
 * same fields step by step, as `Layer.from` and `setHost` do, and is proved against it.
 */
module Layers {
  import opened Wrappers
  import opened Text
  import opened Wildcard

  /** The fields of a Layer; `None` is a field lib/layer.ts leaves undefined. */
  datatype LayerValue = LayerValue(
    host: Option<string>,
    hostRE: Option<seq<Token>>,
    path: Option<string>,
    pathRE: Option<string>,
    def: string)

  /** Both ends stripped of `\s`. */
  function Trim(raw: string): string {
    TrimEnd(TrimStart(raw))
  }

  /** `/^[\/^].*=/`: a `/` or `^` first, and an `=` on the first line. */
  predicate HasAlias(d: string) {
    && |d| > 0
    && (d[0] == '/' || d[0] == '^')
    && var e := IndexFrom(d, '=', 1);
       e.Some? && NoLineBreak(d[1..e.value])
  }

  /**
   * `d.replace(/\s*=.*$/, "")`: the match starts at the whitespace before the first `=`
   * of the last line and runs to the end.
   */
  function BeforeEquals(d: string): string {
    match IndexFrom(d, '=', LineStart(d))
    case None => d
    case Some(k) => d[..SpaceRunStart(d, k)]
  }

  /**
   * `d.replace(/^.*?=\s*` + `/, "")`: the shortest first-line prefix ending in `=`, and the
   * whitespace after it, are removed.
   */
  function AfterEquals(d: string): string {
    match IndexFrom(d, '=', 0)
    case Some(e) => if NoLineBreak(d[..e]) then TrimStart(d[e + 1..]) else d
    case None => d
  }

  /** `/^\/\/[^\/]+\//`: two slashes, a non-empty host, and a slash after it. */
  predicate IsHostAlias(p: string) {
    |p| >= 3 && p[0] == '/' && p[1] == '/' && p[2] != '/' && IndexFrom(p, '/', 2).Some?
  }

  predicate IsWildcard(host: string) {
    '*' in host || '?' in host
  }

  /** The fields set by an alias `p` and a definition `def`, as `Layer.from` sets them. */
  function FromAlias(p: string, def: string): LayerValue {
    if IsHostAlias(p) then
      var k := IndexFrom(p, '/', 2).value;
      var host := p[2..k];
      if IsWildcard(host) then LayerValue(None, Some(Compile(host)), Some(p[k..]), None, def)
      else LayerValue(Some(host), None, Some(p[k..]), None, def)
    else if |p| > 0 && p[0] == '^' then LayerValue(None, None, None, Some(p), def)
    else LayerValue(None, None, Some(p), None, def)
  }

  /** `Layer.from(raw)` when no path pattern is rejected. */
  function Parse(raw: string): LayerValue {
    var d := Trim(raw);
    if HasAlias(d) then FromAlias(BeforeEquals(d), AfterEquals(d))
    else LayerValue(None, None, None, None, d)
  }

  /**
   * `new RegExp(path)` throws on a malformed pattern; `syntaxError` is the JavaScript
   * engine's verdict on a pattern source.
   */
  function PatternError(v: LayerValue, syntaxError: string -> Option<string>): Option<string> {
    if v.pathRE.Some? then syntaxError(v.pathRE.value) else None
  }

  /**
   * The `source` of a RegExp as V8 prints it: an unescaped `/` outside a character class
   * gets a backslash, line terminators become escape sequences, a backslash in front of a
   * line terminator is dropped, and every other escape is copied as it stands.
   */
  function EscapeSource(s: string, inClass: bool): string
    decreases |s|
  {
    if s == [] then []
    else if s[0] == '\\' then
      if |s| >= 2 && IsLineTerminator(s[1]) then EscapeSource(s[1..], inClass)
      else if |s| >= 2 then ['\\', s[1]] + EscapeSource(s[2..], inClass)
      else ['\\']
    else EscapeChar(s[0], inClass) + EscapeSource(s[1..], ClassAfter(s[0], inClass))
  }

  /** The printed source is one line and gains no `=`. */
  lemma {:induction false} EscapeSourceOneLine(s: string, inClass: bool)
    ensures NoLineBreak(EscapeSource(s, inClass))
    ensures '=' !in s ==> '=' !in EscapeSource(s, inClass)
    decreases |s|
  {
    if s == [] {
    } else if s[0] == '\\' {
      if |s| >= 2 && IsLineTerminator(s[1]) {
        EscapeSourceOneLine(s[1..], inClass);
      } else if |s| >= 2 {
        assert s == [s[0], s[1]] + s[2..];
        EscapeSourceOneLine(s[2..], inClass);
      }
    } else {
      assert s == [s[0]] + s[1..];
      EscapeCharShape(s[0], inClass);
      EscapeSourceOneLine(s[1..], ClassAfter(s[0], inClass));
    }
  }

  /** A one-line source keeps its last character when printed. */
  lemma {:induction false} EscapeSourceKeepsLast(s: string, inClass: bool)
    requires s != [] && NoLineBreak(s)
    ensures var r := EscapeSource(s, inClass); r != [] && r[|r| - 1] == s[|s| - 1]
    decreases |s|
  {
    var r := EscapeSource(s, inClass);
    if s[0] == '\\' {
      if |s| > 2 {
        EscapeSourceKeepsLast(s[2..], inClass);
        assert r == ['\\', s[1]] + EscapeSource(s[2..], inClass);
      }
    } else {
      EscapeCharShape(s[0], inClass);
      var rest := EscapeSource(s[1..], ClassAfter(s[0], inClass));
      assert r == EscapeChar(s[0], inClass) + rest;
      if |s| > 1 {
        EscapeSourceKeepsLast(s[1..], ClassAfter(s[0], inClass));
      }
    }
  }

  lemma {:induction false} EscapeCharShape(c: char, inClass: bool)
    ensures var r := EscapeChar(c, inClass);
            && r != [] && NoLineBreak(r) && (c != '=' ==> '=' !in r)
            && (!IsLineTerminator(c) ==> r[|r| - 1] == c)
  {
  }

  const EscapedLS: string := "\\u2028"
  const EscapedPS: string := "\\u2029"

  /** What the printer writes for one character that is not a backslash. */
  function EscapeChar(c: char, inClass: bool): string {
    if c == '/' && !inClass then ['\\', '/']
    else if c == '\n' then ['\\', 'n']
    else if c == '\r' then ['\\', 'r']
    else if c == '\U{2028}' then EscapedLS
    else if c == '\U{2029}' then EscapedPS
    else [c]
  }

  /** The part of `toString()` in front of ` = `. */
  function RenderScope(v: LayerValue): string {
    var path :=
      if v.path.Some? && v.path.value != "" then v.path.value
      else if v.pathRE.Some? then EscapeSource(v.pathRE.value, false)
      else "/";
    if v.host.Some? && v.host.value != "" then "//" + v.host.value + path else path
  }

  /** `toString()`: a wildcard host is held only as a pattern, so it is not printed. */
  function Render(v: LayerValue): string {
    RenderScope(v) + " = " + v.def
  }

  /** A request as the scopes see it: the Host header (if sent) and the path. */
  datatype Request = Request(host: Option<string>, path: string)

  /** `hostRE.test(req.headers.host)`: a missing header is tested as the string "undefined". */
  function HostText(req: Request): string {
    Stringify(req.host)
  }

  /**
   * Express's mount-path test (`Router().use(path, …)`) and a RegExp test on `req.path`,
   * both foreign to the model: `mount(path, reqPath)`, `pattern(source, reqPath)`.
   */
  datatype RouteTests = RouteTests(mount: (string, string) -> bool, pattern: (string, string) -> bool)

  /** A handler wrapped in guards, innermost first. */
  datatype RequestHandler<+A> =
    | Leaf(action: A)
    | ForHostPattern(hostPattern: seq<Token>, inner: RequestHandler<A>)
    | ForHost(host: string, inner: RequestHandler<A>)
    | ForPath(pattern: string, inner: RequestHandler<A>)
    | Mount(path: string, inner: RequestHandler<A>)

  /** Whether a request gets through the guards to the leaf. */
  predicate Reaches<A>(h: RequestHandler<A>, req: Request, t: RouteTests) {
    match h
    case Leaf(_) => true
    case ForHostPattern(p, inner) => Matches(p, HostText(req)) && Reaches(inner, req, t)
    case ForHost(host, inner) => req.host == Some(host) && Reaches(inner, req, t)
    case ForPath(p, inner) => t.pattern(p, req.path) && Reaches(inner, req, t)
    case Mount(path, inner) => t.mount(path, req.path) && Reaches(inner, req, t)
  }

  /** Every scope the layer sets (a field that is set and truthy) accepts the request. */
  predicate InScope(v: LayerValue, req: Request, t: RouteTests) {
    && (v.hostRE.Some? ==> Matches(v.hostRE.value, HostText(req)))
    && (v.host.Some? && v.host.value != "" ==> req.host == Some(v.host.value))
    && (v.pathRE.Some? ==> t.pattern(v.pathRE.value, req.path))
    && (v.path.Some? && v.path.value != "" ==> t.mount(v.path.value, req.path))
  }

  /** The handler `handler(inner)` builds, wrapping from the host pattern outwards. */
  function Scoped<A>(v: LayerValue, inner: RequestHandler<A>): RequestHandler<A> {
    var h1 := if v.hostRE.Some? then ForHostPattern(v.hostRE.value, inner) else inner;
    var h2 := if v.host.Some? && v.host.value != "" then ForHost(v.host.value, h1) else h1;
    var h3 := if v.pathRE.Some? then ForPath(v.pathRE.value, h2) else h2;
    if v.path.Some? && v.path.value != "" then Mount(v.path.value, h3) else h3
  }

  /** The handler a request reaches once it is through every guard. */
  function Innermost<A>(h: RequestHandler<A>): A {
    match h
    case Leaf(a) => a
    case ForHostPattern(_, inner) => Innermost(inner)
    case ForHost(_, inner) => Innermost(inner)
    case ForPath(_, inner) => Innermost(inner)
    case Mount(_, inner) => Innermost(inner)
  }

  /** Scoping adds guards only: the handler behind them is the one given. */
  lemma {:induction false} ScopedInnermost<A>(v: LayerValue, inner: RequestHandler<A>)
    ensures Innermost(Scoped(v, inner)) == Innermost(inner)
  {
    var h1 := if v.hostRE.Some? then ForHostPattern(v.hostRE.value, inner) else inner;
    var h2 := if v.host.Some? && v.host.value != "" then ForHost(v.host.value, h1) else h1;
    var h3 := if v.pathRE.Some? then ForPath(v.pathRE.value, h2) else h2;
    assert Innermost(h1) == Innermost(inner);
    assert Innermost(h2) == Innermost(h1);
    assert Innermost(h3) == Innermost(h2);
  }

  /** The guards of a scoped handler are exactly the layer's scopes, conjoined. */
  lemma {:induction false} ScopedGuards<A>(v: LayerValue, inner: RequestHandler<A>)
    ensures forall req, t :: Reaches(Scoped(v, inner), req, t) <==> InScope(v, req, t) && Reaches(inner, req, t)
  {
    forall req, t ensures Reaches(Scoped(v, inner), req, t) <==> InScope(v, req, t) && Reaches(inner, req, t) {
      var h1 := if v.hostRE.Some? then ForHostPattern(v.hostRE.value, inner) else inner;
      var h2 := if v.host.Some? && v.host.value != "" then ForHost(v.host.value, h1) else h1;
      var h3 := if v.pathRE.Some? then ForPath(v.pathRE.value, h2) else h2;
      assert Reaches(h1, req, t) <==> (v.hostRE.Some? ==> Matches(v.hostRE.value, HostText(req))) && Reaches(inner, req, t);
      assert Reaches(h2, req, t) <==> (v.host.Some? && v.host.value != "" ==> req.host == Some(v.host.value)) && Reaches(h1, req, t);
      assert Reaches(h3, req, t) <==> (v.pathRE.Some? ==> t.pattern(v.pathRE.value, req.path)) && Reaches(h2, req, t);
    }
  }

  class Layer {
    var host: Option<string>
    var hostRE: Option<seq<Token>>
    var path: Option<string>
    var pathRE: Option<string>
    var def: string

    function Value(): LayerValue
      reads this
    {
      LayerValue(host, hostRE, path, pathRE, def)
    }

    constructor ()
      ensures Value() == LayerValue(None, None, None, None, "")
    {
      host, hostRE, path, pathRE, def := None, None, None, None, "";
    }

    /** An exact host, or a compiled pattern when the host holds `*` or `?`. */
    method SetHost(h: string)
      modifies this
      ensures IsWildcard(h) ==> hostRE == Some(Compile(h)) && host == old(host)
      ensures !IsWildcard(h) ==> host == Some(h) && hostRE == old(hostRE)
      ensures path == old(path) && pathRE == old(pathRE) && def == old(def)
    {
      if IsWildcard(h) {
        hostRE := Some(Compile(h));
      } else {
        host := Some(h);
      }
    }

    /** `Layer.from`: a fresh layer with the parsed fields, or the RegExp constructor's error. */
    static method From(raw: string, syntaxError: string -> Option<string>) returns (r: Result<Layer, string>)
      ensures r.Failure? <==> PatternError(Parse(raw), syntaxError).Some?
      ensures r.Failure? ==> r.error == PatternError(Parse(raw), syntaxError).value
      ensures r.Success? ==> fresh(r.value) && r.value.Value() == Parse(raw)
    {
      var d := TrimStart(raw);
      d := TrimEnd(d);
      if HasAlias(d) {
        var p := BeforeEquals(d);
        d := AfterEquals(d);
        r := FromAliasParts(p, d, syntaxError);
      } else {
        var layer := new Layer();
        layer.def := d;
        r := Success(layer);
      }
    }

    /** The scope part of `Layer.from`, once the alias `p` and the definition `def` are split. */
    static method FromAliasParts(p: string, def: string, syntaxError: string -> Option<string>)
      returns (r: Result<Layer, string>)
      ensures r.Failure? <==> PatternError(FromAlias(p, def), syntaxError).Some?
      ensures r.Failure? ==> r.error == PatternError(FromAlias(p, def), syntaxError).value
      ensures r.Success? ==> fresh(r.value) && r.value.Value() == FromAlias(p, def)
    {
      var layer := new Layer();
      if IsHostAlias(p) {
        var k := IndexFrom(p, '/', 2).value;
        HostIsThirdField(p);
        layer.SetHost(Field(p, '/', 2).value);
        layer.path := Some(p[k..]);
      } else if |p| > 0 && p[0] == '^' {
        match syntaxError(p)
        case Some(message) =>
          return Failure(message);
        case None =>
          layer.pathRE := Some(p);
      } else {
        layer.path := Some(p);
      }
      layer.def := def;
      return Success(layer);
    }

    /** `handler(inner)`: the wrapped handler runs only where every scope of the layer accepts. */
    method Handler<A>(inner: RequestHandler<A>) returns (h: RequestHandler<A>)
      ensures h == Scoped(Value(), inner)
      ensures forall req, t :: Reaches(h, req, t) <==> InScope(Value(), req, t) && Reaches(inner, req, t)
    {
      ScopedGuards(Value(), inner);
      h := inner;
      if hostRE.Some? {
        h := ForHostPattern(hostRE.value, h);
      }
      if host.Some? && host.value != "" {
        h := ForHost(host.value, h);
      }
      if pathRE.Some? {
        h := ForPath(pathRE.value, h);
      }
      if path.Some? && path.value != "" {
        h := Mount(path.value, h);
      }
    }

    /** `toString()` */
    function ToString(): string
      reads this
    {
      Render(Value())
    }
  }

  /** The host of a `//host/path` alias is the third `/`-separated field, `path.split("/")[2]`. */
  lemma {:induction false} HostIsThirdField(p: string)
    requires IsHostAlias(p)
    ensures Field(p, '/', 2) == Some(p[2..IndexFrom(p, '/', 2).value])
  {
    var k := IndexFrom(p, '/', 2).value;
    SplitAt(p, '/', 0);
    SplitAt(p[1..], '/', 0);
    assert p[1..][1..] == p[2..];
    SplitAt(p[2..], '/', k - 2);
    assert p[2..][..k - 2] == p[2..k];
  }

  /** Whether the printer is inside a character class after an unescaped `c`. */
  function ClassAfter(c: char, inClass: bool): bool {
    if c == '[' then true else if c == ']' then false else inClass
  }

  /** A character that needs no escape is copied. */
  lemma {:induction false} EscapeSourceCopies(c: char, rest: string, inClass: bool)
    requires c != '\\' && !(c == '/' && !inClass) && !IsLineTerminator(c)
    ensures EscapeSource([c] + rest, inClass) == [c] + EscapeSource(rest, ClassAfter(c, inClass))
  {
    assert ([c] + rest)[1..] == rest;
  }

  /** An escape sequence other than a backslash before a line terminator is copied. */
  lemma {:induction false} EscapeSourceKeepsEscape(c: char, rest: string, inClass: bool)
    requires !IsLineTerminator(c)
    ensures EscapeSource(['\\', c] + rest, inClass) == ['\\', c] + EscapeSource(rest, inClass)
  {
    assert (['\\', c] + rest)[2..] == rest;
  }

  /** A leading word character is copied. */
  lemma {:induction false} EscapeSourceCopiesHead(t: string, inClass: bool)
    requires t != [] && IsWordChar(t[0])
    ensures EscapeSource(t, inClass) == [t[0]] + EscapeSource(t[1..], inClass)
  {
  }

  /** A run of word characters is copied as it stands. */
  lemma {:induction false} EscapeSourceCopiesWords(t: string, n: nat, inClass: bool)
    requires n <= |t| && forall i | 0 <= i < n :: IsWordChar(t[i])
    ensures EscapeSource(t, inClass) == t[..n] + EscapeSource(t[n..], inClass)
  {
    if n > 0 {
      assert forall i | 0 <= i < n - 1 :: IsWordChar(t[1..][i]) by {
        forall i | 0 <= i < n - 1 ensures IsWordChar(t[1..][i]) { assert t[1..][i] == t[i + 1]; }
      }
      EscapeSourceCopiesHead(t, inClass);
      EscapeSourceCopiesWords(t[1..], n - 1, inClass);
      PrependOne(t, n, EscapeSource(t, inClass), EscapeSource(t[1..], inClass), EscapeSource(t[n..], inClass));
    } else {
      assert t[0..] == t;
    }
  }

  lemma {:induction false} PrependOne(t: string, n: nat, whole: string, tail: string, rest: string)
    requires 0 < n <= |t|
    requires whole == [t[0]] + tail && tail == t[1..][..n - 1] + rest
    ensures whole == t[..n] + rest
  {
    assert [t[0]] + t[1..][..n - 1] == t[..n];
  }

  /** Printing a pattern source a second time changes nothing. */
  lemma {:induction false} EscapeSourceIdempotent(s: string, inClass: bool)
    ensures EscapeSource(EscapeSource(s, inClass), inClass) == EscapeSource(s, inClass)
    decreases |s|
  {
    if s == [] {
    } else if s[0] == '\\' {
      if |s| >= 2 && IsLineTerminator(s[1]) {
        EscapeSourceIdempotent(s[1..], inClass);
      } else if |s| >= 2 {
        EscapeSourceIdempotent(s[2..], inClass);
        EscapeSourceKeepsEscape(s[1], EscapeSource(s[2..], inClass), inClass);
      }
    } else {
      var c := ClassAfter(s[0], inClass);
      EscapeSourceIdempotent(s[1..], c);
      EscapeCharStable(s[0], inClass, EscapeSource(s[1..], c));
    }
  }

  /** A printed character followed by printed text is printed unchanged. */
  lemma {:induction false} EscapeCharStable(c: char, inClass: bool, rest: string)
    requires c != '\\'
    requires EscapeSource(rest, ClassAfter(c, inClass)) == rest
    ensures EscapeSource(EscapeChar(c, inClass) + rest, inClass) == EscapeChar(c, inClass) + rest
  {
    if c == '/' && !inClass {
      EscapeSourceKeepsEscape('/', rest, inClass);
    } else if c == '\n' {
      EscapeSourceKeepsEscape('n', rest, inClass);
    } else if c == '\r' {
      EscapeSourceKeepsEscape('r', rest, inClass);
    } else if c == '\U{2028}' || c == '\U{2029}' {
      var digits := if c == '\U{2028}' then "2028" else "2029";
      EscapedHexStable(digits, rest, inClass);
      assert EscapeChar(c, inClass) + rest == ['\\', 'u'] + (digits + rest);
    } else {
      EscapeSourceCopies(c, rest, inClass);
    }
  }

  /** `\uXXXX` with four word characters is printed unchanged. */
  lemma {:induction false} EscapedHexStable(digits: string, rest: string, inClass: bool)
    requires |digits| == 4 && forall i | 0 <= i < 4 :: IsWordChar(digits[i])
    requires EscapeSource(rest, inClass) == rest
    ensures EscapeSource(['\\', 'u'] + (digits + rest), inClass) == ['\\', 'u'] + (digits + rest)
  {
    var t := digits + rest;
    assert t[..4] == digits && t[4..] == rest;
    assert forall i | 0 <= i < 4 :: t[i] == digits[i];
    EscapeSourceCopiesWords(t, 4, inClass);
    EscapeSourceKeepsEscape('u', t, inClass);
  }

  lemma {:induction false} NoLineBreakSlices(d: string, e: nat)
    requires NoLineBreak(d) && 1 <= e <= |d|
    ensures NoLineBreak(d[1..e]) && NoLineBreak(d[..e])
  {
    forall i | 0 <= i < e - 1 ensures !IsLineTerminator(d[1..e][i]) { assert d[1..e][i] == d[i + 1]; }
    forall i | 0 <= i < e ensures !IsLineTerminator(d[..e][i]) { assert d[..e][i] == d[i]; }
  }

  /** Parsing a line `pre = def` whose parts need no trimming gives back the alias and the definition. */
  lemma {:induction false} ParseAliasLine(pre: string, def: string)
    requires IsAliasText(pre) && IsTrimmedLine(def)
    ensures Parse(pre + " = " + def) == FromAlias(pre, def)
  {
    var tail := if def == [] then [] else " " + def;
    var d := pre + " =" + tail;
    AliasLineTrims(pre, def, tail, d);
    AliasLineSplits(pre, def, tail, d);
  }

  lemma {:induction false} AliasLineTrims(pre: string, def: string, tail: string, d: string)
    requires |pre| >= 1 && (pre[0] == '/' || pre[0] == '^')
    requires def == [] || !IsSpace(def[|def| - 1])
    requires tail == (if def == [] then [] else " " + def) && d == pre + " =" + tail
    ensures Trim(pre + " = " + def) == d
  {
    var s := pre + " = " + def;
    assert s[0] == pre[0];
    TrimStartKeeps(s);
    if def == [] {
      assert s == d + [' '];
      TrimEndDropsSpace(d, ' ');
      assert d[|d| - 1] == '=';
      TrimEndKeeps(d);
    } else {
      assert s == d && d[|d| - 1] == def[|def| - 1];
      TrimEndKeeps(d);
    }
  }

  /** The shape of a line `pre =` or `pre = def` as the scanners see it. */
  lemma {:induction false} AliasLineScan(pre: string, def: string, tail: string, d: string)
    requires |pre| >= 1 && (pre[0] == '/' || pre[0] == '^')
    requires '=' !in pre && NoLineBreak(pre) && NoLineBreak(def)
    requires tail == (if def == [] then [] else " " + def) && d == pre + " =" + tail
    ensures NoLineBreak(d) && d[..|pre|] == pre && d[|pre|] == ' ' && d[|pre| + 2..] == tail
    ensures IndexFrom(d, '=', 0) == Some(|pre| + 1) && IndexFrom(d, '=', 1) == Some(|pre| + 1)
  {
    var e := |pre| + 1;
    assert forall i | 0 <= i < |pre| :: d[i] == pre[i];
    assert d[e] == '=';
    IndexFromIs(d, '=', 1, e);
    IndexFromIs(d, '=', 0, e);
    assert NoLineBreak(tail);
    forall i | 0 <= i < |d| ensures !IsLineTerminator(d[i]) {
      if i > e { assert d[i] == tail[i - e - 1]; }
    }
  }

  lemma {:induction false} AliasLineSplits(pre: string, def: string, tail: string, d: string)
    requires |pre| >= 1 && (pre[0] == '/' || pre[0] == '^')
    requires '=' !in pre && NoLineBreak(pre) && !IsSpace(pre[|pre| - 1])
    requires NoLineBreak(def) && (def == [] || !IsSpace(def[0]))
    requires tail == (if def == [] then [] else " " + def) && d == pre + " =" + tail
    ensures HasAlias(d) && BeforeEquals(d) == pre && AfterEquals(d) == def
  {
    var e := |pre| + 1;
    AliasLineScan(pre, def, tail, d);
    assert LineStart(d) == 0;
    assert d[e - 1] == ' ' && d[e - 2] == pre[|pre| - 1];
    SpaceRunStartIs(d, e, |pre|);
    NoLineBreakSlices(d, e);
    if def != [] {
      TrimStartSkipsSpace(' ', def);
      TrimStartKeeps(def);
    }
  }

  /** A trimmed one-line directive: one line, no whitespace at either end. */
  lemma {:induction false} TrimmedShape(raw: string)
    requires NoLineBreak(raw)
    ensures IsTrimmedLine(Trim(raw))
  {
    TrimKeepsNoLineBreak(raw);
    var t := TrimStart(raw);
    var d := TrimEnd(t);
    if d != [] {
      assert d[0] == t[0];
    }
  }

  /** One line with no whitespace at either end, as trimming leaves a directive. */
  predicate IsTrimmedLine(s: string) {
    NoLineBreak(s) && (s == [] || (!IsSpace(s[0]) && !IsSpace(s[|s| - 1])))
  }

  /** An alias as a trimmed directive holds it: `/` or `^` first, one line, no `=`, no trailing whitespace. */
  predicate IsAliasText(p: string) {
    && |p| >= 1 && (p[0] == '/' || p[0] == '^')
    && '=' !in p && NoLineBreak(p) && !IsSpace(p[|p| - 1])
  }

  /** The first `=` of a one-line alias comes after its first character. */
  lemma {:induction false} FirstEquals(d: string)
    requires HasAlias(d)
    ensures IndexFrom(d, '=', 0).Some? && IndexFrom(d, '=', 0) == IndexFrom(d, '=', 1)
  {
    var e := IndexFrom(d, '=', 1).value;
    IndexFromIs(d, '=', 0, e);
  }

  /** The alias of a one-line directive: the text before the first `=`, right-trimmed. */
  lemma {:induction false} AliasPart(d: string, e: nat)
    requires NoLineBreak(d) && |d| > 0 && !IsSpace(d[0]) && 1 <= e < |d|
    requires IndexFrom(d, '=', 0) == Some(e)
    ensures var p := BeforeEquals(d);
            && p == TrimEnd(d[..e])
            && |p| >= 1 && p[0] == d[0] && '=' !in p && NoLineBreak(p) && !IsSpace(p[|p| - 1])
  {
    assert LineStart(d) == 0;
    var j := SpaceRunStart(d, e);
    assert j >= 1;
    var p := d[..j];
    TrimEndPrefix(d, e);
    assert BeforeEquals(d) == p;
    NoLineBreakPrefix(d, j);
    assert '=' !in p by {
      forall i | 0 <= i < j ensures p[i] != '=' { assert p[i] == d[i]; }
    }
    assert p[|p| - 1] == d[j - 1];
  }

  /** The definition of a one-line alias: the text after the first `=`, left-trimmed. */
  lemma {:induction false} DefinitionPart(d: string, e: nat)
    requires NoLineBreak(d) && e < |d| && !IsSpace(d[|d| - 1])
    requires IndexFrom(d, '=', 0) == Some(e)
    ensures var f := AfterEquals(d);
            && f == TrimStart(d[e + 1..])
            && IsTrimmedLine(f)
  {
    NoLineBreakPrefix(d, e);
    var t := d[e + 1..];
    NoLineBreakSuffix(d, e + 1);
    TrimKeepsNoLineBreak(t);
    var f := TrimStart(t);
    assert AfterEquals(d) == f;
    if f != [] {
      assert f[|f| - 1] == t[|t| - 1];
    }
  }

  /** What a parsed one-line alias and definition look like: the shape ParseAliasLine needs. */
  lemma {:induction false} ParsedAliasShape(raw: string)
    requires NoLineBreak(raw) && HasAlias(Trim(raw))
    ensures IsAliasText(BeforeEquals(Trim(raw))) && IsTrimmedLine(AfterEquals(Trim(raw)))
  {
    TrimmedShape(raw);
    AliasAndDefinition(Trim(raw));
  }

  /** The alias and the definition of a trimmed one-line alias directive. */
  lemma {:induction false} AliasAndDefinition(d: string)
    requires IsTrimmedLine(d) && HasAlias(d)
    ensures IsAliasText(BeforeEquals(d)) && IsTrimmedLine(AfterEquals(d))
  {
    FirstEquals(d);
    var e := IndexFrom(d, '=', 0).value;
    AliasPart(d, e);
    DefinitionPart(d, e);
  }

  /**
   * A directive that does not start with `/` or `^`, or has no `=` on its first line, keeps
   * its whole trimmed text as the definition and sets no scope; an alias always sets a mount
   * path or a path pattern.
   */
  lemma {:induction false} NoAliasKeepsText(raw: string)
    ensures var v := Parse(raw);
            && (!HasAlias(Trim(raw)) <==> v.path.None? && v.pathRE.None?)
            && (!HasAlias(Trim(raw)) ==> v.def == Trim(raw) && v.host.None? && v.hostRE.None?)
  {
    var d := Trim(raw);
    if HasAlias(d) {
      assert Parse(raw) == FromAlias(BeforeEquals(d), AfterEquals(d));
      AliasSetsScope(BeforeEquals(d), AfterEquals(d));
    } else {
      assert Parse(raw) == LayerValue(None, None, None, None, d);
    }
  }

  lemma {:induction false} AliasSetsScope(p: string, f: string)
    ensures FromAlias(p, f).path.Some? || FromAlias(p, f).pathRE.Some?
  {
  }

  /** The fields an alias `p` sets, against the text of `p`. */
  lemma {:induction false} FromAliasFields(p: string, f: string)
    ensures var v := FromAlias(p, f);
            && v.def == f
            && (v.pathRE.Some? ==> v.pathRE.value == p)
            && (v.host.Some? ==> v.path.Some? && "//" + v.host.value + v.path.value == p)
            && (v.host.None? && v.hostRE.None? && v.path.Some? ==> v.path.value == p)
  {
    if IsHostAlias(p) {
      var k := IndexFrom(p, '/', 2).value;
      assert p == "//" + p[2..k] + p[k..];
    }
  }

  /**
   * A trimmed one-line alias directive is split at its first `=`: the scope is the text
   * before it without trailing whitespace, the definition the text after it without leading
   * whitespace.
   */
  lemma {:induction false} AliasSplitsAtFirstEquals(d: string, e: nat)
    requires HasAlias(d) && NoLineBreak(d) && !IsSpace(d[|d| - 1])
    requires e < |d| && d[e] == '=' && forall i | 0 <= i < e :: d[i] != '='
    ensures BeforeEquals(d) == TrimEnd(d[..e])
    ensures AfterEquals(d) == TrimStart(d[e + 1..])
  {
    IndexFromIs(d, '=', 0, e);
    AliasPart(d, e);
    DefinitionPart(d, e);
  }

  /**
   * An alias `//h/rest` scopes the layer to the host `h`, the third `/`-separated field,
   * and mounts it at `/rest`; a host holding `*` or `?` becomes a wildcard pattern and sets
   * no exact host.
   */
  lemma {:induction false} HostAliasFields(p: string, f: string)
    requires IsHostAlias(p)
    ensures var v := FromAlias(p, f);
            var h := Field(p, '/', 2);
            && h.Some? && h.value != [] && '/' !in h.value
            && v.path.Some? && p == "//" + h.value + v.path.value && v.path.value[0] == '/'
            && (IsWildcard(h.value) ==> v.hostRE == Some(Compile(h.value)) && v.host.None?)
            && (!IsWildcard(h.value) ==> v.host == Some(h.value) && v.hostRE.None?)
            && v.pathRE.None? && v.def == f
  {
    var k := IndexFrom(p, '/', 2).value;
    HostIsThirdField(p);
    assert '/' !in p[2..k] by {
      forall i | 0 <= i < k - 2 ensures p[2..k][i] != '/' { assert p[2..k][i] == p[i + 2]; }
    }
    assert p == "//" + p[2..k] + p[k..];
  }

  lemma {:induction false} EscapeSourceKeepsCaret(s: string, inClass: bool)
    requires s != [] && s[0] == '^'
    ensures var r := EscapeSource(s, inClass); r != [] && r[0] == '^'
  {
  }

  /** Rendering a layer without an alias gives `/ = def`, which parses back as a mount at `/`. */
  lemma {:induction false} RoundTripNoAlias(raw: string)
    requires NoLineBreak(raw) && !HasAlias(Trim(raw))
    ensures RoundTrips(Parse(raw))
  {
    var d := Trim(raw);
    NoAliasKeepsText(raw);
    assert Parse(raw) == LayerValue(None, None, None, None, d);
    TrimmedShape(raw);
    RootAliasLine(d);
    RenderRoot(d);
  }

  /** The line `/ = def` mounts `def` at the root. */
  lemma {:induction false} RootAliasLine(def: string)
    requires IsTrimmedLine(def)
    ensures Parse("/" + " = " + def) == LayerValue(None, None, Some("/"), None, def)
  {
    ParseAliasLine("/", def);
  }

  /** A layer without a scope, and one mounted at `/`, print the same line. */
  lemma {:induction false} RenderRoot(def: string)
    ensures Render(LayerValue(None, None, None, None, def)) == "/" + " = " + def
    ensures Render(LayerValue(None, None, Some("/"), None, def)) == "/" + " = " + def
  {
  }

  /** An exact-host alias prints as written. */
  lemma {:induction false} RenderHostAlias(p: string, f: string)
    requires IsHostAlias(p) && FromAlias(p, f).hostRE.None?
    ensures Render(FromAlias(p, f)) == p + " = " + f
  {
    var k := IndexFrom(p, '/', 2).value;
    assert p == "//" + p[2..k] + p[k..];
  }

  /** A mount path prints as written. */
  lemma {:induction false} RenderPathAlias(p: string, f: string)
    requires |p| >= 1 && p[0] == '/' && !IsHostAlias(p)
    ensures Render(FromAlias(p, f)) == p + " = " + f
  {
  }

  /** A path pattern prints as its escaped source. */
  lemma {:induction false} RenderPatternAlias(p: string, f: string)
    requires |p| >= 1 && p[0] == '^'
    ensures FromAlias(p, f) == LayerValue(None, None, None, Some(p), f)
    ensures Render(FromAlias(p, f)) == EscapeSource(p, false) + " = " + f
  {
  }

  /** Rendering the fields of an alias and parsing the line again. */
  lemma {:induction false} RoundTripAlias(p: string, f: string)
    requires IsAliasText(p) && IsTrimmedLine(f)
    requires FromAlias(p, f).hostRE.None?
    ensures RoundTrips(FromAlias(p, f))
  {
    if p[0] == '^' {
      var q := EscapeSource(p, false);
      RenderPatternAlias(p, f);
      EscapeSourceOneLine(p, false);
      EscapeSourceKeepsLast(p, false);
      EscapeSourceKeepsCaret(p, false);
      ParseAliasLine(q, f);
      RenderPatternAlias(q, f);
      EscapeSourceIdempotent(p, false);
    } else {
      if IsHostAlias(p) {
        RenderHostAlias(p, f);
      } else {
        RenderPathAlias(p, f);
      }
      ParseAliasLine(p, f);
    }
  }

  /**
   * Printing `v` and parsing the line again keeps its host and definition, mounts it at its
   * path (`/` when it has none), keeps a path pattern in its printed form, and prints the
   * same line once more.
   */
  predicate RoundTrips(v: LayerValue) {
    var w := Parse(Render(v));
    && w.host == v.host && w.hostRE.None? && w.def == v.def
    && w.path == (if v.pathRE.Some? then None else if v.path.Some? then v.path else Some("/"))
    && w.pathRE == (if v.pathRE.Some? then Some(EscapeSource(v.pathRE.value, false)) else None)
    && Render(w) == Render(v)
  }

  /**
   * Rendering a layer and parsing the line again gives the same host and definition, the
   * same mount path (`/` for a layer without one) and the printed form of a path pattern;
   * rendering that layer once more prints the same line.
   */
  lemma {:induction false} RenderRoundTrip(raw: string)
    requires NoLineBreak(raw) && Parse(raw).hostRE.None?
    ensures var v := Parse(raw);
            var w := Parse(Render(v));
            && w.host == v.host && w.hostRE.None? && w.def == v.def
            && w.path == (if v.pathRE.Some? then None else if v.path.Some? then v.path else Some("/"))
            && w.pathRE == (if v.pathRE.Some? then Some(EscapeSource(v.pathRE.value, false)) else None)
            && Render(w) == Render(v)
  {
    ParsedRoundTrips(raw);
  }

  lemma {:induction false} ParsedRoundTrips(raw: string)
    requires NoLineBreak(raw) && Parse(raw).hostRE.None?
    ensures RoundTrips(Parse(raw))
  {
    if HasAlias(Trim(raw)) {
      RoundTripParsedAlias(raw);
    } else {
      RoundTripNoAlias(raw);
    }
  }

  lemma {:induction false} RoundTripParsedAlias(raw: string)
    requires NoLineBreak(raw) && HasAlias(Trim(raw)) && Parse(raw).hostRE.None?
    ensures RoundTrips(Parse(raw))
  {
    var d := Trim(raw);
    ParsedAliasShape(raw);
    assert Parse(raw) == FromAlias(BeforeEquals(d), AfterEquals(d));
    RoundTripAlias(BeforeEquals(d), AfterEquals(d));
  }

  /** A wildcard host is not printed: the line shows only the mount path and the definition. */
  lemma {:induction false} WildcardHostNotRendered(p: string, f: string)
    requires FromAlias(p, f).hostRE.Some?
    ensures var v := FromAlias(p, f);
            v.path.Some? && Render(v) == v.path.value + " = " + f
  {
    var k := IndexFrom(p, '/', 2).value;
    assert p[k..][0] == '/';
  }
}
