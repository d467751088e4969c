/**
 * Character classes and string operations of JavaScript's regular expressions and
 * string methods, as the directive language uses them.
 */
module Text {
  import opened Wrappers

  /** `\s`: the WhiteSpace and LineTerminator code points of ECMAScript. */
  predicate IsSpace(c: char) {
    || c == ' ' || c == '\t' || c == '\n' || c == '\r' || c == '\U{0B}' || c == '\U{0C}'
    || c == '\U{A0}' || c == '\U{1680}' || ('\U{2000}' <= c <= '\U{200A}')
    || c == '\U{2028}' || c == '\U{2029}' || c == '\U{202F}' || c == '\U{205F}'
    || c == '\U{3000}' || c == '\U{FEFF}'
  }

  /** The characters that `.` does not match (no `s` flag). */
  predicate IsLineTerminator(c: char) {
    c == '\n' || c == '\r' || c == '\U{2028}' || c == '\U{2029}'
  }

  /** `\w`; `\W` is its complement. */
  predicate IsWordChar(c: char) {
    ('a' <= c <= 'z') || ('A' <= c <= 'Z') || ('0' <= c <= '9') || c == '_'
  }

  predicate IsDigit(c: char) {
    '0' <= c <= '9'
  }

  /** `String(value)` of a value that may be missing: a missing one is the string "undefined". */
  function Stringify(h: Option<string>): string {
    h.GetOr("undefined")
  }

  /** `!!value` of a string value that may be missing: set and non-empty. */
  predicate Truthy(h: Option<string>) {
    h.Some? && h.value != ""
  }

  predicate NoLineBreak(s: string) {
    forall i | 0 <= i < |s| :: !IsLineTerminator(s[i])
  }

  predicate StartsWith(s: string, prefix: string) {
    |prefix| <= |s| && s[..|prefix|] == prefix
  }

  /** `s.replace(/^\s+/, "")`; TrimStartDropsSpaces says what is removed. */
  function TrimStart(s: string): (r: string)
    ensures |r| <= |s| && r == s[|s| - |r|..]
    ensures r == [] || !IsSpace(r[0])
  {
    if s != [] && IsSpace(s[0]) then TrimStart(s[1..]) else s
  }

  /** `s.replace(/\s+$/, "")`; TrimEndDropsSpaces says what is removed. */
  function TrimEnd(s: string): (r: string)
    ensures |r| <= |s| && r == s[..|r|]
    ensures r == [] || !IsSpace(r[|r| - 1])
  {
    if s != [] && IsSpace(s[|s| - 1]) then TrimEnd(s[..|s| - 1]) else s
  }

  /** Only whitespace is removed from the front: the longest such run. */
  lemma {:induction false} TrimStartDropsSpaces(s: string)
    ensures forall i | 0 <= i < |s| - |TrimStart(s)| :: IsSpace(s[i])
  {
    if s != [] && IsSpace(s[0]) {
      TrimStartDropsSpaces(s[1..]);
      forall i | 1 <= i < |s| - |TrimStart(s)| ensures IsSpace(s[i]) {
        assert s[i] == s[1..][i - 1];
      }
    }
  }

  /** Only whitespace is removed from the end: the longest such run. */
  lemma {:induction false} TrimEndDropsSpaces(s: string)
    ensures forall i | |TrimEnd(s)| <= i < |s| :: IsSpace(s[i])
  {
    if s != [] && IsSpace(s[|s| - 1]) {
      TrimEndDropsSpaces(s[..|s| - 1]);
      forall i | |TrimEnd(s)| <= i < |s| - 1 ensures IsSpace(s[i]) {
        assert s[i] == s[..|s| - 1][i];
      }
    }
  }

  /** Number of occurrences of `c` in `s`. */
  function Count(s: string, c: char): nat {
    if s == [] then 0 else (if s[0] == c then 1 else 0) + Count(s[1..], c)
  }

  /** `s.split(c)` for a one-character separator. */
  function Split(s: string, c: char): (r: seq<string>)
    ensures |r| >= 1
  {
    if s == [] then [[]]
    else
      var rest := Split(s[1..], c);
      if s[0] == c then [[]] + rest else [[s[0]] + rest[0]] + rest[1..]
  }

  /** `parts.join(c)`, the inverse of Split. */
  function Join(parts: seq<string>, c: char): string
    requires |parts| >= 1
  {
    if |parts| == 1 then parts[0] else parts[0] + [c] + Join(parts[1..], c)
  }

  /** `s.split(c)[i]`; None where JavaScript yields undefined. */
  function Field(s: string, c: char, i: nat): Option<string> {
    var parts := Split(s, c);
    if i < |parts| then Some(parts[i]) else None
  }

  /** Splitting at a character yields one more piece than the character occurs. */
  lemma {:induction false} SplitLength(s: string, c: char)
    ensures |Split(s, c)| == Count(s, c) + 1
  {
    if s != [] {
      SplitLength(s[1..], c);
    }
  }

  /** The pieces never contain the separator, and joining them gives the string back. */
  lemma {:induction false} SplitJoin(s: string, c: char)
    ensures Join(Split(s, c), c) == s
    ensures forall k | 0 <= k < |Split(s, c)| :: c !in Split(s, c)[k]
  {
    if s != [] {
      SplitJoin(s[1..], c);
      var rest := Split(s[1..], c);
      if s[0] == c {
        assert Split(s, c) == [[]] + rest;
        assert Join(Split(s, c), c) == [] + [c] + Join(rest, c);
      } else {
        assert Split(s, c) == [[s[0]] + rest[0]] + rest[1..];
        if |rest| == 1 {
          assert Join(Split(s, c), c) == [s[0]] + rest[0];
        } else {
          assert rest == [rest[0]] + rest[1..];
          assert Join(rest, c) == rest[0] + [c] + Join(rest[1..], c);
          assert Join(Split(s, c), c) == ([s[0]] + rest[0]) + [c] + Join(rest[1..], c);
        }
        forall k | 0 <= k < |Split(s, c)| ensures c !in Split(s, c)[k] {
          if k == 0 {
            assert c !in rest[0];
          } else {
            assert Split(s, c)[k] == rest[k];
          }
        }
      }
    }
  }

  /** ASCII-only case folding, as non-Unicode `/i` regular expressions do for these patterns. */
  function LowerAscii(c: char): char {
    if 'A' <= c <= 'Z' then (c as int + 32) as char else c
  }

  predicate EqualIgnoringCase(a: string, b: string) {
    |a| == |b| && forall i | 0 <= i < |a| :: LowerAscii(a[i]) == LowerAscii(b[i])
  }

  predicate StartsWithIgnoringCase(s: string, prefix: string) {
    |prefix| <= |s| && EqualIgnoringCase(s[..|prefix|], prefix)
  }

  /** First index at or after `from` holding `c`. */
  function IndexFrom(s: string, c: char, from: nat): (r: Option<nat>)
    ensures r.Some? ==> from <= r.value < |s| && s[r.value] == c
    ensures r.Some? ==> forall i | from <= i < r.value :: s[i] != c
    ensures r.None? ==> forall i | from <= i < |s| :: s[i] != c
    decreases |s| - from
  {
    if from >= |s| then None
    else if s[from] == c then Some(from)
    else IndexFrom(s, c, from + 1)
  }

  /** Index just after the last line terminator, 0 when there is none. */
  function LineStart(s: string): (k: nat)
    ensures k <= |s| && NoLineBreak(s[k..])
    ensures k > 0 ==> IsLineTerminator(s[k - 1])
  {
    if s == [] then 0
    else if IsLineTerminator(s[|s| - 1]) then |s|
    else
      var k := LineStart(s[..|s| - 1]);
      assert s[k..] == s[..|s| - 1][k..] + [s[|s| - 1]];
      k
  }

  /** Smallest `j <= k` such that `s[j..k]` is all whitespace. */
  function SpaceRunStart(s: string, k: nat): (j: nat)
    requires k <= |s|
    ensures j <= k
    ensures forall i | j <= i < k :: IsSpace(s[i])
    ensures j == 0 || !IsSpace(s[j - 1])
  {
    if k > 0 && IsSpace(s[k - 1]) then SpaceRunStart(s, k - 1) else k
  }

  /** Length of the run of `c` at the end of `s`. */
  function TrailingRun(s: string, c: char): (n: nat)
    ensures n <= |s|
    ensures forall i | |s| - n <= i < |s| :: s[i] == c
    ensures n < |s| ==> s[|s| - n - 1] != c
  {
    if s != [] && s[|s| - 1] == c then TrailingRun(s[..|s| - 1], c) + 1 else 0
  }

  /** Dropping trailing whitespace from a prefix stops at the start of its last whitespace run. */
  lemma {:induction false} TrimEndPrefix(s: string, k: nat)
    requires k <= |s|
    ensures TrimEnd(s[..k]) == s[..SpaceRunStart(s, k)]
  {
    if k > 0 && IsSpace(s[k - 1]) {
      assert s[..k][..k - 1] == s[..k - 1];
      TrimEndPrefix(s, k - 1);
    }
  }

  /** Splitting at the first separator: the first piece is the text before it. */
  lemma {:induction false} SplitAt(s: string, c: char, k: nat)
    requires k < |s| && s[k] == c
    requires forall i | 0 <= i < k :: s[i] != c
    ensures Split(s, c) == [s[..k]] + Split(s[k + 1..], c)
  {
    if k > 0 {
      SplitAt(s[1..], c, k - 1);
      assert s[1..][k..] == s[k + 1..];
      assert [s[0]] + s[1..][..k - 1] == s[..k];
    } else {
      assert s[1..] == s[k + 1..];
    }
  }

  lemma {:induction false} NoLineBreakPrefix(s: string, j: nat)
    requires NoLineBreak(s) && j <= |s|
    ensures NoLineBreak(s[..j])
  {
    forall i | 0 <= i < j ensures !IsLineTerminator(s[..j][i]) { assert s[..j][i] == s[i]; }
  }

  lemma {:induction false} NoLineBreakSuffix(s: string, j: nat)
    requires NoLineBreak(s) && j <= |s|
    ensures NoLineBreak(s[j..])
  {
    forall i | 0 <= i < |s| - j ensures !IsLineTerminator(s[j..][i]) { assert s[j..][i] == s[i + j]; }
  }

  /** Trimming keeps a string free of line terminators. */
  lemma {:induction false} TrimKeepsNoLineBreak(s: string)
    requires NoLineBreak(s)
    ensures NoLineBreak(TrimStart(s)) && NoLineBreak(TrimEnd(TrimStart(s)))
  {
    var a := TrimStart(s);
    forall i | 0 <= i < |a| ensures !IsLineTerminator(a[i]) {
      assert a[i] == s[|s| - |a| + i];
    }
    var b := TrimEnd(a);
    forall i | 0 <= i < |b| ensures !IsLineTerminator(b[i]) {
      assert b[i] == a[i];
    }
  }

  /** `IndexFrom` finds the first occurrence at or after `from`. */
  lemma {:induction false} IndexFromIs(s: string, c: char, from: nat, k: nat)
    requires from <= k < |s| && s[k] == c
    requires forall i | from <= i < k :: s[i] != c
    ensures IndexFrom(s, c, from) == Some(k)
    decreases k - from
  {
    if from < k {
      IndexFromIs(s, c, from + 1, k);
    }
  }

  /** `SpaceRunStart` stops at the first non-space character before `k`. */
  lemma {:induction false} SpaceRunStartIs(s: string, k: nat, j: nat)
    requires j <= k <= |s|
    requires forall i | j <= i < k :: IsSpace(s[i])
    requires j == 0 || !IsSpace(s[j - 1])
    ensures SpaceRunStart(s, k) == j
    decreases k
  {
    if j < k {
      SpaceRunStartIs(s, k - 1, j);
    }
  }

  lemma {:induction false} TrimStartKeeps(s: string)
    requires s == [] || !IsSpace(s[0])
    ensures TrimStart(s) == s
  {
  }

  lemma {:induction false} TrimEndKeeps(s: string)
    requires s == [] || !IsSpace(s[|s| - 1])
    ensures TrimEnd(s) == s
  {
  }

  lemma {:induction false} TrimEndDropsSpace(s: string, c: char)
    requires IsSpace(c)
    ensures TrimEnd(s + [c]) == TrimEnd(s)
  {
    assert (s + [c])[..|s|] == s;
  }

  lemma {:induction false} TrimStartSkipsSpace(c: char, s: string)
    requires IsSpace(c)
    ensures TrimStart([c] + s) == TrimStart(s)
  {
    assert ([c] + s)[1..] == s;
  }
}
