/**
 * Wildcard host patterns (lib/layer.ts, wildcardToRE). A host such as `*.example.com` is
 * compiled to an anchored pattern, represented here as a list of tokens with a recursive
 * matcher instead of a regular expression. `allow` is `[^.:]` as `setHost` passes it.
 */
module Wildcard {
  import opened Text

  datatype Token =
    | Lit(c: char)   // a character that matches itself
    | AnyChar        // an unescaped `.`: any character but a line terminator
    | Allowed        // `?` compiled to `[^.:]`
    | AllowedRun     // `*` compiled to `[^.:]*`
    | Anything       // `**` compiled to `.*`

  predicate IsAllowed(c: char) {
    c != '.' && c != ':'
  }

  /**
   * Characters of the class `[^\w\u0100-\uFFFF?*]`, gathered into runs that get ONE
   * backslash in front. Characters above U+FFFF are surrogate pairs in JavaScript, which
   * fall in `\u0100-\uFFFF`, so they are not punctuation either.
   */
  predicate IsPunct(c: char) {
    !IsWordChar(c) && (c as int) < 0x100 && c != '?' && c != '*'
  }

  /** Length of the punctuation run at the start of `s`. */
  function PunctRun(s: string): (n: nat)
    ensures n <= |s|
    ensures forall i | 0 <= i < n :: IsPunct(s[i])
    ensures n < |s| ==> !IsPunct(s[n])
  {
    if s != [] && IsPunct(s[0]) then 1 + PunctRun(s[1..]) else 0
  }

  /**
   * The characters of a run after its escaped first one are left unescaped: a `.` there
   * is the regular-expression wildcard, the others stand for themselves.
   */
  function RunTail(s: string): (r: seq<Token>)
    ensures |r| == |s|
    ensures forall i | 0 <= i < |s| :: r[i] == (if s[i] == '.' then AnyChar else Lit(s[i]))
  {
    if s == [] then [] else [if s[0] == '.' then AnyChar else Lit(s[0])] + RunTail(s[1..])
  }

  /** `wildcardToRE(host, "[^.:]")`: the replacement scans `?`, `**`, `*` and punctuation runs. */
  function Compile(p: string): seq<Token>
    decreases |p|
  {
    if p == [] then []
    else if p[0] == '?' then [Allowed] + Compile(p[1..])
    else if p[0] == '*' then
      if |p| >= 2 && p[1] == '*' then [Anything] + Compile(p[2..]) else [AllowedRun] + Compile(p[1..])
    else if IsPunct(p[0]) then
      var n := PunctRun(p);
      [Lit(p[0])] + RunTail(p[1..n]) + Compile(p[n..])
    else [Lit(p[0])] + Compile(p[1..])
  }

  /** The anchored pattern `^...$` accepts exactly the strings this predicate accepts. */
  predicate Matches(t: seq<Token>, s: string)
    decreases |t| + |s|
  {
    if t == [] then s == []
    else match t[0]
      case Lit(c) => s != [] && s[0] == c && Matches(t[1..], s[1..])
      case AnyChar => s != [] && !IsLineTerminator(s[0]) && Matches(t[1..], s[1..])
      case Allowed => s != [] && IsAllowed(s[0]) && Matches(t[1..], s[1..])
      case AllowedRun => Matches(t[1..], s) || (s != [] && IsAllowed(s[0]) && Matches(t, s[1..]))
      case Anything => Matches(t[1..], s) || (s != [] && !IsLineTerminator(s[0]) && Matches(t, s[1..]))
  }

  predicate AllAllowed(s: string) {
    forall i | 0 <= i < |s| :: IsAllowed(s[i])
  }

  /** `*` matches a (possibly empty) run of characters other than `.` and `:`, and nothing longer. */
  lemma {:induction false} AllowedRunMatches(t: seq<Token>, s: string)
    ensures Matches([AllowedRun] + t, s) <==>
            exists k :: 0 <= k <= |s| && AllAllowed(s[..k]) && Matches(t, s[k..])
  {
    var u := [AllowedRun] + t;
    assert u[1..] == t;
    if Matches(u, s) {
      if Matches(t, s) {
        assert s[..0] == [] && s[0..] == s;
      } else {
        AllowedRunMatches(t, s[1..]);
        var k :| 0 <= k <= |s[1..]| && AllAllowed(s[1..][..k]) && Matches(t, s[1..][k..]);
        assert s[..k + 1] == [s[0]] + s[1..][..k];
        assert s[k + 1..] == s[1..][k..];
      }
    }
    if exists k :: 0 <= k <= |s| && AllAllowed(s[..k]) && Matches(t, s[k..]) {
      var k :| 0 <= k <= |s| && AllAllowed(s[..k]) && Matches(t, s[k..]);
      if k == 0 {
        assert s[0..] == s;
      } else {
        assert s[..k][0] == s[0];
        assert s[1..][..k - 1] == s[..k][1..];
        assert s[1..][k - 1..] == s[k..];
        AllowedRunMatches(t, s[1..]);
      }
    }
  }

  /** Only literal `.` and `:` tokens; what a pattern without `**` or a multi-character run compiles to. */
  predicate Strict(t: seq<Token>) {
    forall i | 0 <= i < |t| :: !t[i].AnyChar? && !t[i].Anything?
  }

  /** The `.` and `:` characters of a string, in order. */
  function Separators(s: string): string {
    if s == [] then [] else (if IsAllowed(s[0]) then [] else [s[0]]) + Separators(s[1..])
  }

  /** The `.` and `:` characters a strict pattern spells out literally. */
  function LiteralSeparators(t: seq<Token>): string {
    if t == [] then []
    else (if t[0].Lit? && !IsAllowed(t[0].c) then [t[0].c] else []) + LiteralSeparators(t[1..])
  }

  /**
   * A strict pattern never lets a wildcard cover a `.` or `:`: every host it accepts has
   * exactly the separators the pattern spells out. So `*.org` cannot accept a host with a
   * port.
   */
  lemma {:induction false} StrictKeepsSeparators(t: seq<Token>, s: string)
    requires Strict(t) && Matches(t, s)
    ensures Separators(s) == LiteralSeparators(t)
    decreases |t| + |s|
  {
    if t != [] {
      assert Strict(t[1..]);
      match t[0]
      case Lit(c) =>
        StrictKeepsSeparators(t[1..], s[1..]);
      case Allowed =>
        StrictKeepsSeparators(t[1..], s[1..]);
      case AllowedRun =>
        if Matches(t[1..], s) {
          StrictKeepsSeparators(t[1..], s);
        } else {
          StrictKeepsSeparators(t, s[1..]);
        }
    }
  }

  /** `**` matches every string without a line terminator. */
  lemma {:induction false} AnythingMatches(s: string)
    ensures Matches([Anything], s) <==> NoLineBreak(s)
  {
    var t := [Anything];
    assert t[1..] == [];
    if s != [] {
      AnythingMatches(s[1..]);
      if NoLineBreak(s) {
        assert NoLineBreak(s[1..]) by {
          forall i | 0 <= i < |s[1..]| ensures !IsLineTerminator(s[1..][i]) {
            assert s[1..][i] == s[i + 1];
          }
        }
      }
      if Matches(t, s) {
        assert !Matches([], s);
        assert !IsLineTerminator(s[0]) && NoLineBreak(s[1..]);
        forall i | 0 <= i < |s| ensures !IsLineTerminator(s[i]) {
          if i > 0 { assert s[i] == s[1..][i - 1]; }
        }
      }
    }
  }

  function Lits(s: string): (r: seq<Token>)
    ensures |r| == |s| && forall i | 0 <= i < |s| :: r[i] == Lit(s[i])
  {
    if s == [] then [] else [Lit(s[0])] + Lits(s[1..])
  }

  /** Literal portions are escaped soundly: a pattern of literal tokens accepts itself and nothing else. */
  lemma {:induction false} LitsMatchExactly(p: string, s: string)
    ensures Matches(Lits(p), s) <==> s == p
  {
    if p != [] {
      assert Lits(p)[1..] == Lits(p[1..]);
      if s != [] {
        LitsMatchExactly(p[1..], s[1..]);
        if s[0] == p[0] && s[1..] == p[1..] {
          assert s == [s[0]] + s[1..] && p == [p[0]] + p[1..];
        }
      }
    }
  }

  /** No `?`, no `*`, and no two punctuation characters side by side. */
  predicate Isolated(p: string) {
    forall i | 0 <= i < |p| ::
      p[i] != '?' && p[i] != '*' && (IsPunct(p[i]) && i + 1 < |p| ==> !IsPunct(p[i + 1]))
  }

  /**
   * Where every punctuation character stands alone, each one is escaped and the pattern
   * compiles to literal tokens.
   */
  lemma {:induction false} IsolatedCompilesToLiterals(p: string)
    requires Isolated(p)
    ensures Compile(p) == Lits(p)
  {
    if p != [] {
      assert Isolated(p[1..]) by {
        forall i | 0 <= i < |p[1..]|
          ensures p[1..][i] != '?' && p[1..][i] != '*'
          ensures IsPunct(p[1..][i]) && i + 1 < |p[1..]| ==> !IsPunct(p[1..][i + 1])
        {
          assert p[1..][i] == p[i + 1];
        }
      }
      IsolatedCompilesToLiterals(p[1..]);
      if IsPunct(p[0]) {
        assert PunctRun(p) == 1 by {
          if |p| > 1 { assert !IsPunct(p[1]); }
        }
        assert p[1..1] == [];
      }
    }
  }

  /** A single leading `*` becomes an `[^.:]*` run. */
  lemma {:induction false} LeadingStar(p: string)
    requires |p| >= 1 && p[0] == '*' && (|p| == 1 || p[1] != '*')
    ensures Compile(p) == [AllowedRun] + Compile(p[1..])
  {
  }

  /** The wildcard host test: `*.org` rejects `example.org:3000`. */
  lemma {:induction false} StarDotOrgRejectsPort()
    ensures !Matches(Compile("*.org"), "example.org:3000")
  {
    CompileStarDotOrg();
    var s := "example.org:3000";
    forall k | 0 <= k <= |s| ensures s[k..] != ".org" {
      PortHostSuffix(k);
    }
    StarLitsRejects(".org", s);
  }

  lemma {:induction false} CompileStarDotOrg()
    ensures Compile("*.org") == [AllowedRun] + Lits(".org")
  {
    OrgTailIsolated();
    DropStar();
    StarThenIsolated("*.org");
  }

  lemma {:induction false} OrgTailIsolated()
    ensures Isolated(".org")
  {
    var p := ".org";
    forall i | 0 <= i < |p| ensures p[i] in ".org" {}
  }

  /** `*` then literals accepts only strings that end in those literals. */
  lemma {:induction false} StarLitsRejects(tail: string, s: string)
    requires forall k | 0 <= k <= |s| :: s[k..] != tail
    ensures !Matches([AllowedRun] + Lits(tail), s)
  {
    AllowedRunMatches(Lits(tail), s);
    forall k | 0 <= k <= |s| && Matches(Lits(tail), s[k..]) ensures false {
      LitsMatchExactly(tail, s[k..]);
    }
  }

  /** No suffix of `example.org:3000` is `.org`. */
  lemma {:induction false} PortHostSuffix(k: nat)
    requires k <= 16
    ensures "example.org:3000"[k..] != ".org"
  {
    var s := "example.org:3000";
    if k == 12 {
      assert s[k..][0] == '3';
    }
  }

  /** The wildcard host test: `*.org:3000` accepts `example.org:3000`. */
  lemma {:induction false} StarDotOrgPortAccepts()
    ensures Matches(Compile("*.org:3000"), "example.org:3000")
  {
    var tail := ".org:3000";
    CompileStarDotOrgPort();
    var s := "example.org:3000";
    SplitExampleHost();
    LitsMatchExactly(tail, tail);
    AllowedRunMatches(Lits(tail), s);
  }

  lemma {:induction false} CompileStarDotOrgPort()
    ensures Compile("*.org:3000") == [AllowedRun] + Lits(".org:3000")
  {
    PortTailIsolated();
    DropStar();
    StarThenIsolated("*.org:3000");
  }

  /** A `*` followed by isolated characters: a run of allowed characters, then literals. */
  lemma {:induction false} StarThenIsolated(p: string)
    requires |p| >= 1 && p[0] == '*' && Isolated(p[1..])
    ensures Compile(p) == [AllowedRun] + Lits(p[1..])
  {
    LeadingStar(p);
    IsolatedCompilesToLiterals(p[1..]);
  }

  lemma {:induction false} DropStar()
    ensures "*.org:3000"[1..] == ".org:3000"
    ensures "*.org"[1..] == ".org"
  {
  }

  lemma {:induction false} PortTailIsolated()
    ensures Isolated(".org:3000")
  {
    var p := ".org:3000";
    forall i | 0 <= i < |p| ensures p[i] in ".org:3000" {}
  }

  lemma {:induction false} SplitExampleHost()
    ensures "example.org:3000"[7..] == ".org:3000"
    ensures AllAllowed("example.org:3000"[..7])
  {
    assert "example.org:3000"[..7] == "example";
  }

  /**
   * Only the first character of a punctuation run is escaped: in `a-.b` the `.` is left as the
   * regular-expression wildcard, so the pattern accepts `a-xb`.
   */
  lemma {:induction false} RunTailIsUnescaped()
    ensures Compile("a-.b") == [Lit('a'), Lit('-'), AnyChar, Lit('b')]
    ensures Matches(Compile("a-.b"), "a-xb")
  {
    assert PunctRun("-.b") == 2 by {
      assert PunctRun(".b") == 1 by { assert PunctRun("b") == 0; }
    }
    assert "-.b"[1..2] == ".";
    assert "-.b"[2..] == "b";
    assert Compile("-.b") == [Lit('-'), AnyChar] + Compile("b");
    var t := [Lit('a'), Lit('-'), AnyChar, Lit('b')];
    assert t[1..][1..][1..] == [Lit('b')];
  }
}
