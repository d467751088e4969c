/**
 * The string helpers of the composer (lib/weboverlay.ts): the Location rewrite of redirects
 * from an upstream, the content-type gate of function transforms, the cache directory, the
 * repository and root of a git layer, the escaping of transform log lines, and the clean-ups
 * of JSON bodies and access-log lines.
 */
module OverlayHelpers {
  import opened Wrappers
  import opened Text

  // Redirects (section 6.4 of RFC 7231)

  function DigitChar(d: nat): (c: char)
    requires d < 10
    ensures IsDigit(c)
  {
    ('0' as int + d) as char
  }

  /** `String(n)` for a status code. */
  function Decimal(n: nat): (r: string)
    ensures |r| >= 1 && (n < 10 <==> |r| == 1)
  {
    if n < 10 then [DigitChar(n)] else Decimal(n / 10) + [DigitChar(n % 10)]
  }

  /** Different numbers print differently. */
  lemma {:induction false} DecimalInjective(m: nat, n: nat)
    requires Decimal(m) == Decimal(n)
    ensures m == n
  {
    if m >= 10 && n >= 10 {
      var a, b := Decimal(m), Decimal(n);
      assert a[..|a| - 1] == Decimal(m / 10) && b[..|b| - 1] == Decimal(n / 10);
      DecimalInjective(m / 10, n / 10);
      assert a[|a| - 1] == DigitChar(m % 10) && b[|b| - 1] == DigitChar(n % 10);
    }
  }

  /** A status code of three digits prints as three characters. */
  lemma {:induction false} ThreeDigitDecimal(n: nat)
    requires 100 <= n < 1000
    ensures |Decimal(n)| == 3
  {
    assert |Decimal(n / 10)| == 2 by {
      assert |Decimal(n / 100)| == 1;
    }
  }

  /** `t` occurs in `s` at `i`. */
  predicate OccursAt(s: string, t: string, i: nat) {
    i + |t| <= |s| && s[i..i + |t|] == t
  }

  /** `t` occurs somewhere in `s`. */
  predicate Contains(s: string, t: string) {
    exists i | 0 <= i <= |s| - |t| :: OccursAt(s, t, i)
  }

  lemma {:induction false} ContainsSameLength(s: string, t: string)
    requires |s| == |t|
    ensures Contains(s, t) <==> s == t
  {
    if s == t {
      assert OccursAt(s, t, 0);
    }
  }

  /** `/301|302|303|307/.test(String(statusCode))` */
  predicate IsRedirectStatus(status: nat) {
    var s := Decimal(status);
    Contains(s, "301") || Contains(s, "302") || Contains(s, "303") || Contains(s, "307")
  }

  /** For the three-digit codes of HTTP the test picks exactly the four redirects it names. */
  lemma {:induction false} RedirectCodes(status: nat)
    requires 100 <= status < 1000
    ensures IsRedirectStatus(status) <==> status == 301 || status == 302 || status == 303 || status == 307
  {
    var s := Decimal(status);
    ThreeDigitDecimal(status);
    assert Decimal(301) == "301" && Decimal(302) == "302" && Decimal(303) == "303" && Decimal(307) == "307" by {
      assert Decimal(30) == "30";
    }
    ContainsSameLength(s, "301");
    ContainsSameLength(s, "302");
    ContainsSameLength(s, "303");
    ContainsSameLength(s, "307");
    if s == Decimal(301) { DecimalInjective(status, 301); }
    if s == Decimal(302) { DecimalInjective(status, 302); }
    if s == Decimal(303) { DecimalInjective(status, 303); }
    if s == Decimal(307) { DecimalInjective(status, 307); }
  }

  /** Length of a leading `http://` or `https://`, 0 when there is none. */
  function SchemeLength(s: string): (k: nat)
    ensures k == 0 || k == 7 || k == 8
  {
    if StartsWith(s, "http://") then 7 else if StartsWith(s, "https://") then 8 else 0
  }

  /** `/^https?:\/\/[^\/]+/`: a scheme followed by a non-empty authority. */
  predicate HasOrigin(s: string) {
    var k := SchemeLength(s);
    0 < k < |s| && s[k] != '/'
  }

  /** `s.replace(/^https?:\/\/[^\/]+\/?/, "/")`: scheme, authority and one slash give way to `/`. */
  function StripOrigin(s: string): string {
    var k := SchemeLength(s);
    if HasOrigin(s) then
      match IndexFrom(s, '/', k)
      case Some(j) => ['/'] + s[j + 1..]
      case None => ['/']
    else s
  }

  /** The rewrite changes the text exactly when there is an origin to strip. */
  lemma {:induction false} StripOriginChanges(s: string)
    ensures StripOrigin(s) != s <==> HasOrigin(s)
    ensures HasOrigin(s) ==> StripOrigin(s)[0] == '/'
  {
    if HasOrigin(s) {
      assert s[0] == 'h';
    }
  }

  /**
   * The Location a redirect from the upstream `remote` gets, or None where the handler leaves
   * it alone: it is rewritten to a path when its host field (`split("/")[2]`) is the
   * upstream's. A missing header reads as the string "undefined".
   */
  function RewriteLocation(remote: string, status: nat, location: Option<string>): (r: Option<string>)
    ensures r.Some? <==>
              && IsRedirectStatus(status)
              && Field(Stringify(location), '/', 2) == Field(remote, '/', 2)
              && HasOrigin(Stringify(location))
    ensures r.Some? ==> r.value != [] && r.value[0] == '/'
  {
    var loc := Stringify(location);
    StripOriginChanges(loc);
    if !IsRedirectStatus(status) then None
    else
      var destPath := StripOrigin(loc);
      if Field(loc, '/', 2) == Field(remote, '/', 2) && destPath != loc then Some(destPath) else None
  }

  /** The third `/`-field of `scheme//host…` is the host. */
  lemma {:induction false} OriginField(scheme: string, host: string, rest: string)
    requires '/' !in scheme && '/' !in host && (rest == [] || rest[0] == '/')
    ensures Field(scheme + "//" + host + rest, '/', 2) == Some(host)
  {
    var x := host + rest;
    assert scheme + "//" + host + rest == scheme + "/" + ("/" + x);
    SplitPrefix(scheme, "/" + x);
    assert "/" + x == [] + "/" + x;
    SplitPrefix([], x);
    FirstField(host, rest);
  }

  /** Splitting at the first separator, when it follows a separator-free `a`. */
  lemma {:induction false} SplitPrefix(a: string, b: string)
    requires '/' !in a
    ensures Split(a + "/" + b, '/') == [a] + Split(b, '/')
  {
    var s := a + "/" + b;
    forall i | 0 <= i < |a| ensures s[i] != '/' {
      assert s[i] == a[i];
    }
    SplitAt(s, '/', |a|);
    assert s[..|a|] == a;
    assert s[|a| + 1..] == b;
  }

  /** A host followed by nothing or by a path is the first field. */
  lemma {:induction false} FirstField(host: string, rest: string)
    requires '/' !in host && (rest == [] || rest[0] == '/')
    ensures Split(host + rest, '/')[0] == host
  {
    if rest == [] {
      NoSeparator(host);
      assert host + rest == host;
    } else {
      SplitPrefix(host, rest[1..]);
      assert host + rest == host + "/" + rest[1..];
    }
  }

  /** The scheme of `http://…` or `https://…` is recognised. */
  lemma {:induction false} SchemeLengthOf(scheme: string, rest: string)
    requires scheme == "http:" || scheme == "https:"
    ensures SchemeLength(scheme + "//" + rest) == |scheme| + 2
  {
    var s := scheme + "//" + rest;
    if scheme == "http:" {
      assert s[..7] == "http://";
    } else {
      assert s[4] == 's';
      assert s[..8] == "https://";
    }
  }

  lemma {:induction false} NoSeparator(s: string)
    requires '/' !in s
    ensures Split(s, '/') == [s]
  {
    if s != [] {
      NoSeparator(s[1..]);
      assert [s[0]] + s[1..] == s;
    }
  }

  /**
   * A redirect to `http(s)://host/path` from an upstream `http(s)://host…` becomes `/path`,
   * whichever of the two schemes each side uses.
   */
  lemma {:induction false} SameHostRedirect(
    status: nat, upScheme: string, scheme: string, host: string, upRest: string, path: string)
    requires status == 301 || status == 302 || status == 303 || status == 307
    requires upScheme == "http:" || upScheme == "https:"
    requires scheme == "http:" || scheme == "https:"
    requires host != [] && host[0] != '/' && '/' !in host
    requires upRest == [] || upRest[0] == '/'
    ensures RewriteLocation(upScheme + "//" + host + upRest, status, Some(scheme + "//" + host + "/" + path))
            == Some("/" + path)
  {
    RedirectCodes(status);
    assert '/' !in upScheme;
    OriginField(upScheme, host, upRest);
    LocationParts(scheme, host, path);
  }

  /** `scheme//host/path` has the host as its third field and `/path` once its origin goes. */
  lemma {:induction false} LocationParts(scheme: string, host: string, path: string)
    requires scheme == "http:" || scheme == "https:"
    requires host != [] && host[0] != '/' && '/' !in host
    ensures var loc := scheme + "//" + host + "/" + path;
            Field(loc, '/', 2) == Some(host) && HasOrigin(loc) && StripOrigin(loc) == "/" + path
  {
    var loc := scheme + "//" + host + "/" + path;
    assert '/' !in scheme;
    assert loc == scheme + "//" + host + ("/" + path);
    OriginField(scheme, host, "/" + path);
    var k := |scheme| + 2;
    assert loc == scheme + "//" + (host + "/" + path);
    SchemeLengthOf(scheme, host + "/" + path);
    assert loc[k] == host[0];
    var j := k + |host|;
    assert loc[j] == '/';
    forall i | k <= i < j ensures loc[i] != '/' {
      assert loc[i] == host[i - k];
    }
    IndexFromIs(loc, '/', k, j);
    assert loc[j + 1..] == path;
  }

  // Function transforms

  /** `func.replace(/\(.*$/, "")`: the text before the first `(` of the last line. */
  function FunctionType(func: string): string {
    match IndexFrom(func, '(', LineStart(func))
    case Some(k) => func[..k]
    case None => func
  }

  /** `func.replace(/^[^(]+/, "")`: the text from the first `(` on. */
  function FunctionCode(func: string): string {
    if func == [] || func[0] == '(' then func
    else
      match IndexFrom(func, '(', 0)
      case Some(k) => func[k..]
      case None => []
  }

  /** A one-line `name(body)` splits into its name and `(body)`. */
  lemma {:induction false} FunctionParts(name: string, body: string)
    requires name != [] && '(' !in name && NoLineBreak(name + "(" + body)
    ensures FunctionType(name + "(" + body) == name
    ensures FunctionCode(name + "(" + body) == "(" + body
  {
    var func := name + "(" + body;
    var k := |name|;
    assert func[k] == '(';
    forall i | 0 <= i < k ensures func[i] != '(' {
      assert func[i] == name[i];
    }
    assert LineStart(func) == 0;
    IndexFromIs(func, '(', 0, k);
    assert func[..k] == name;
    assert func[k..] == "(" + body;
  }

  /** At `i`, `ct` holds `t` in any ASCII case, with no word character on either side. */
  predicate WordAt(ct: string, t: string, i: nat)
    requires i + |t| <= |ct|
  {
    && (i == 0 || !IsWordChar(ct[i - 1]))
    && EqualIgnoringCase(ct[i..i + |t|], t)
    && (i + |t| == |ct| || !IsWordChar(ct[i + |t|]))
  }

  /**
   * `new RegExp("(^|\\W)" + esc + "(\\W|$)", "i").test(String(contentType))`: every non-word
   * character of the type is escaped, so the type is matched literally, as a whole word.
   */
  predicate TypeGate(t: string, contentType: Option<string>) {
    var ct := Stringify(contentType);
    exists i | 0 <= i <= |ct| - |t| :: WordAt(ct, t, i)
  }

  /** A subtype (or main type) named like the function opens the gate, in any case. */
  lemma {:induction false} GateOnSubtype(t: string, main: string, sub: string, params: string)
    requires EqualIgnoringCase(sub, t)
    requires params == [] || !IsWordChar(params[0])
    ensures TypeGate(t, Some(main + "/" + sub + params))
  {
    var ct := main + "/" + sub + params;
    var i := |main| + 1;
    assert ct[i - 1] == '/';
    assert ct[i..i + |t|] == sub;
    if params != [] {
      assert ct[i + |t|] == params[0];
    }
    assert WordAt(ct, t, i);
    assert Stringify(Some(ct)) == ct;
  }

  /** No character of the Content-Type folds to the first letter of the type: the gate stays shut. */
  lemma {:induction false} GateShut(t: string, ct: string)
    requires t != [] && forall i | 0 <= i < |ct| :: LowerAscii(ct[i]) != LowerAscii(t[0])
    ensures !TypeGate(t, Some(ct))
  {
    forall i | 0 <= i <= |ct| - |t| ensures !WordAt(ct, t, i) {
      assert ct[i..i + |t|][0] == ct[i];
    }
  }

  /** `html(…)` applies to an HTML response, whatever its parameters. */
  lemma {:induction false} HtmlGateOpen(params: string)
    requires params == [] || !IsWordChar(params[0])
    ensures TypeGate("html", Some("text/html" + params))
  {
    GateOnSubtype("html", "text", "html", params);
    assert "text" + "/" + "html" == "text/html";
  }

  /** `html(…)` does not apply to a stylesheet. */
  lemma {:induction false} HtmlGateShutForCss()
    ensures !TypeGate("html", Some("text/css"))
  {
    var ct := "text/css";
    forall i | 0 <= i < |ct| ensures LowerAscii(ct[i]) != 'h' {
    }
    GateShut("html", ct);
  }

  // Cache directory

  /** Length of the leading run of characters other than `/`. */
  function SegmentLength(s: string): (n: nat)
    ensures n <= |s| && (n < |s| ==> s[n] == '/')
    ensures forall i | 0 <= i < n :: s[i] != '/'
  {
    if s == [] || s[0] == '/' then 0 else SegmentLength(s[1..]) + 1
  }

  /** `[^\/]+\/\.\.\/` at the start of `s`: the length of the match, if any. */
  function UpAt(s: string): Option<nat> {
    var n := SegmentLength(s);
    if n > 0 && StartsWith(s[n..], "/../") then Some(n + 4) else None
  }

  /** `s.replace(/[^\/]+\/\.\.\//g, "")`: one pass from the left, matches never overlapping. */
  function RemoveUps(s: string): (r: string)
    ensures |r| <= |s|
    decreases |s|
  {
    if s == [] then []
    else
      match UpAt(s)
      case Some(n) => RemoveUps(s[n..])
      case None => [s[0]] + RemoveUps(s[1..])
  }

  /** `cache.replace(…) || "."` */
  function CacheDir(cache: string): (r: string)
    ensures r != []
  {
    var d := RemoveUps(cache);
    if d == [] then "." else d
  }

  /** A segment followed by `/../` goes, together with it, and the pass carries on behind. */
  lemma {:induction false} RemoveUpsSegment(seg: string, rest: string)
    requires seg != [] && '/' !in seg
    ensures RemoveUps(seg + "/../" + rest) == RemoveUps(rest)
  {
    var s := seg + "/../" + rest;
    var n := |seg|;
    forall i | 0 <= i < n ensures s[i] != '/' { assert s[i] == seg[i]; }
    SegmentLengthIs(s, n);
    assert s[n..][..4] == "/../";
    assert s[n + 4..] == rest;
  }

  lemma {:induction false} SegmentLengthIs(s: string, n: nat)
    requires n < |s| && s[n] == '/' && forall i | 0 <= i < n :: s[i] != '/'
    ensures SegmentLength(s) == n
  {
    if n > 0 {
      SegmentLengthIs(s[1..], n - 1);
    }
  }

  /** Where no segment followed by `/../` starts, a character is copied and the pass moves on. */
  lemma {:induction false} RemoveUpsCopies(s: string)
    requires s != [] && UpAt(s) == None
    ensures RemoveUps(s) == [s[0]] + RemoveUps(s[1..])
  {
  }

  /** A path in which no segment is followed by `/../` is kept as it is. */
  lemma {:induction false} RemoveUpsKeeps(s: string)
    requires forall i | 0 <= i < |s| :: UpAt(s[i..]) == None
    ensures RemoveUps(s) == s
    decreases |s|
  {
    if s != [] {
      assert UpAt(s[0..]) == None;
      assert s[0..] == s;
      forall i | 0 <= i < |s[1..]| ensures UpAt(s[1..][i..]) == None {
        assert s[1..][i..] == s[i + 1..];
      }
      RemoveUpsKeeps(s[1..]);
      assert [s[0]] + s[1..] == s;
    }
  }

  /** A path without `/../` has no segment followed by it. */
  lemma {:induction false} NoDotDotNoUps(s: string)
    requires !Contains(s, "/../")
    ensures forall i | 0 <= i < |s| :: UpAt(s[i..]) == None
  {
    forall i | 0 <= i < |s| ensures UpAt(s[i..]) == None {
      var n := SegmentLength(s[i..]);
      OccursAtSuffix(s, "/../", i, n);
    }
  }

  /** An occurrence in a suffix is an occurrence in the whole. */
  lemma {:induction false} OccursAtSuffix(s: string, t: string, i: nat, n: nat)
    ensures i + n <= |s| && StartsWith(s[i..][n..], t) ==> OccursAt(s, t, i + n)
  {
    if i + n <= |s| && StartsWith(s[i..][n..], t) {
      assert s[i..][n..][..|t|] == s[i + n..i + n + |t|];
    }
  }

  // Git layers

  /** `def.replace(/:.*$/, "")`: the text before the first `:` of the last line. */
  function GitRepo(def: string): string {
    match IndexFrom(def, ':', LineStart(def))
    case Some(k) => def[..k]
    case None => def
  }

  /** Index of the first line terminator, `|s|` when there is none. */
  function LineEnd(s: string): (k: nat)
    ensures k <= |s| && NoLineBreak(s[..k]) && (k < |s| ==> IsLineTerminator(s[k]))
  {
    if s == [] || IsLineTerminator(s[0]) then 0
    else
      var k := LineEnd(s[1..]) + 1;
      assert s[..k] == [s[0]] + s[1..][..k - 1];
      k
  }

  /** Index just after the last `:` before `end`, 0 when there is none. */
  function AfterLastColon(s: string, end: nat): (k: nat)
    requires end <= |s|
    ensures k <= end && (k > 0 ==> s[k - 1] == ':')
    ensures forall i | k <= i < end :: s[i] != ':'
  {
    if end == 0 then 0 else if s[end - 1] == ':' then end else AfterLastColon(s, end - 1)
  }

  /**
   * `def.replace(/^.*:/, "")` keeps what follows the last `:` of the first line, and the
   * trailing-slash replace then leaves exactly one `/` at the end.
   */
  function GitRoot(def: string): (r: string)
    ensures r != [] && r[|r| - 1] == '/' && (|r| == 1 || r[|r| - 2] != '/')
  {
    var tail := def[AfterLastColon(def, LineEnd(def))..];
    tail[..|tail| - TrailingRun(tail, '/')] + "/"
  }

  /** `path/repo.git:root/` names the repository and the directory inside it. */
  lemma {:induction false} GitParts(repo: string, root: string, slashes: nat)
    requires ':' !in repo && ':' !in root && NoLineBreak(repo) && NoLineBreak(root)
    requires root == [] || root[|root| - 1] != '/'
    ensures GitRepo(repo + ":" + root + Slashes(slashes)) == repo
    ensures GitRoot(repo + ":" + root + Slashes(slashes)) == root + "/"
  {
    var tail := root + Slashes(slashes);
    assert repo + ":" + root + Slashes(slashes) == repo + ":" + tail;
    forall i | 0 <= i < |tail| ensures !IsLineTerminator(tail[i]) && tail[i] != ':' {
      if i >= |root| {
        assert tail[i] == Slashes(slashes)[i - |root|];
      }
    }
    GitRepoPart(repo, tail);
    GitRootPart(repo, tail);
    TrailingSlashes(root, slashes);
    assert tail[..|tail| - slashes] == root;
  }

  /** The repository is the text before the only `:`. */
  lemma {:induction false} GitRepoPart(repo: string, tail: string)
    requires ':' !in repo && NoLineBreak(repo) && NoLineBreak(tail)
    ensures GitRepo(repo + ":" + tail) == repo
  {
    var d := repo + ":" + tail;
    var k := |repo|;
    forall i | 0 <= i < |d| ensures !IsLineTerminator(d[i]) {
      if i < k {
        assert d[i] == repo[i];
      } else if i > k {
        assert d[i] == tail[i - k - 1];
      }
    }
    assert LineStart(d) == 0;
    forall i | 0 <= i < k ensures d[i] != ':' {
      assert d[i] == repo[i];
    }
    IndexFromIs(d, ':', 0, k);
    assert d[..k] == repo;
  }

  /** The root is taken from the text after the last `:`. */
  lemma {:induction false} GitRootPart(repo: string, tail: string)
    requires NoLineBreak(repo) && NoLineBreak(tail)
    requires forall i | 0 <= i < |tail| :: tail[i] != ':'
    ensures GitRoot(repo + ":" + tail) == tail[..|tail| - TrailingRun(tail, '/')] + "/"
  {
    var d := repo + ":" + tail;
    var k := |repo|;
    forall i | 0 <= i < |d| ensures !IsLineTerminator(d[i]) {
      if i < k {
        assert d[i] == repo[i];
      } else if i > k {
        assert d[i] == tail[i - k - 1];
      }
    }
    LineEndIs(d);
    forall i | k + 1 <= i < |d| ensures d[i] != ':' {
      assert d[i] == tail[i - k - 1];
    }
    AfterLastColonIs(d, |d|, k + 1);
    assert d[k + 1..] == tail;
  }

  lemma {:induction false} LineEndIs(s: string)
    requires NoLineBreak(s)
    ensures LineEnd(s) == |s|
  {
  }

  /** `n` slashes. */
  function Slashes(n: nat): (r: string)
    ensures |r| == n && forall i | 0 <= i < n :: r[i] == '/'
  {
    if n == 0 then [] else Slashes(n - 1) + "/"
  }

  lemma {:induction false} AfterLastColonIs(s: string, end: nat, k: nat)
    requires 0 < k <= end <= |s| && s[k - 1] == ':'
    requires forall i | k <= i < end :: s[i] != ':'
    ensures AfterLastColon(s, end) == k
    decreases end
  {
    if end > k {
      AfterLastColonIs(s, end - 1, k);
    }
  }

  lemma {:induction false} TrailingSlashes(root: string, n: nat)
    requires root == [] || root[|root| - 1] != '/'
    ensures var t := root + Slashes(n); TrailingRun(t, '/') == n
    decreases n
  {
    var t := root + Slashes(n);
    if n > 0 {
      assert t[..|t| - 1] == root + Slashes(n - 1);
      TrailingSlashes(root, n - 1);
    } else {
      assert t == root;
    }
  }

  // Log lines and bodies

  /** What the transform log line prints for one character. */
  function EscapeControl(c: char): string {
    if c == '\r' then "\\r" else if c == '\n' then "\\n" else if c == '\t' then "\\t" else [c]
  }

  predicate IsControl(c: char) {
    c == '\r' || c == '\n' || c == '\t'
  }

  /** `s.replace(/([\r\n\t])/g, …)`: CR, LF and TAB written as `\r`, `\n` and `\t`. */
  function EscapeControls(s: string): (r: string)
    ensures |r| >= |s|
  {
    if s == [] then [] else EscapeControl(s[0]) + EscapeControls(s[1..])
  }

  /** The log line holds no CR, LF or TAB, and text without them is printed unchanged. */
  lemma {:induction false} EscapeControlsClean(s: string)
    ensures forall i | 0 <= i < |EscapeControls(s)| :: !IsControl(EscapeControls(s)[i])
    ensures (forall i | 0 <= i < |s| :: !IsControl(s[i])) ==> EscapeControls(s) == s
  {
    if s != [] {
      EscapeControlsClean(s[1..]);
      var h, t := EscapeControl(s[0]), EscapeControls(s[1..]);
      forall i | 0 <= i < |h + t| ensures !IsControl((h + t)[i]) {
        if i >= |h| {
          assert (h + t)[i] == t[i - |h|];
        }
      }
      if forall i | 0 <= i < |s| :: !IsControl(s[i]) {
        assert forall i | 0 <= i < |s[1..]| :: !IsControl(s[1..][i]) by {
          forall i | 0 <= i < |s[1..]| ensures !IsControl(s[1..][i]) { assert s[1..][i] == s[i + 1]; }
        }
        assert [s[0]] + s[1..] == s;
      }
    }
  }

  /** `/^application\/json/.test(String(contentType))` */
  predicate IsJson(contentType: Option<string>) {
    StartsWith(Stringify(contentType), "application/json")
  }

  /** `s.replace(/^\uFEFF+/, "")`: the byte-order marks in front go. */
  function StripBom(s: string): (r: string)
    ensures |r| <= |s| && r == s[|s| - |r|..]
    ensures r == [] || r[0] != '\U{FEFF}'
  {
    if s != [] && s[0] == '\U{FEFF}' then StripBom(s[1..]) else s
  }

  /** Only byte-order marks are dropped. */
  lemma {:induction false} StripBomDropsMarks(s: string)
    ensures forall i | 0 <= i < |s| - |StripBom(s)| :: s[i] == '\U{FEFF}'
  {
    if s != [] && s[0] == '\U{FEFF}' {
      StripBomDropsMarks(s[1..]);
      forall i | 1 <= i < |s| - |StripBom(s)| ensures s[i] == '\U{FEFF}' {
        assert s[i] == s[1..][i - 1];
      }
    }
  }

  /** `String(message).replace(/\n+$/, "")`: the access-log line without its newlines. */
  function StripNewlines(s: string): (r: string)
    ensures |r| <= |s| && r == s[..|r|] && (r == [] || r[|r| - 1] != '\n')
    ensures forall i | |r| <= i < |s| :: s[i] == '\n'
  {
    s[..|s| - TrailingRun(s, '\n')]
  }
}
