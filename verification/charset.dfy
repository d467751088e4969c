/**
 * The charset gate of the transform hook (lib/charset.ts): a response whose Content-Type is
 * textual and names a charset other than UTF-8 is decoded to UTF-8 before the transforms and
 * encoded back to its charset after them. Everything else passes through unchanged.
 */
module Charset {
  import opened Wrappers
  import opened Text
  import opened Encoding

  /** `/^(text|application)\//` */
  predicate IsTextual(ct: string) {
    StartsWith(ct, "text/") || StartsWith(ct, "application/")
  }

  /** A non-word character at `j` followed by `charset=`. */
  predicate CharsetParamAt(s: string, j: nat) {
    j + 9 <= |s| && !IsWordChar(s[j]) && s[j + 1..j + 9] == "charset="
  }

  /** `/\Wcharset=/` */
  predicate HasCharsetParam(s: string) {
    exists j: nat | j < |s| :: CharsetParamAt(s, j)
  }

  predicate IsQuote(c: char) {
    c == '"' || c == '\''
  }

  /** End of the longest run of characters from `k` on that are not quotes: `[^"']*`. */
  function QuoteFreeEnd(s: string, k: nat): (e: nat)
    requires k <= |s|
    ensures k <= e <= |s|
    ensures forall i | k <= i < e :: !IsQuote(s[i])
    ensures e < |s| ==> IsQuote(s[e])
    decreases |s| - k
  {
    if k < |s| && !IsQuote(s[k]) then QuoteFreeEnd(s, k + 1) else k
  }

  /**
   * `["']?([^"']+)` has nothing to capture at `k`: the string ends there, or a quote is followed
   * by the end or by another quote (as in `charset=""`).
   */
  predicate EmptyValueAt(s: string, k: nat)
    requires k <= |s|
  {
    k == |s| || (IsQuote(s[k]) && (k + 1 == |s| || IsQuote(s[k + 1])))
  }

  /**
   * The capture of `\Wcharset=["']?([^"']+)` matched with its `\W` at `j`: the optional quote
   * is taken when a value follows it, otherwise the value must start right after `=`.
   * CharsetValue says which characters the value is.
   */
  function CharsetAt(s: string, j: nat): (r: Option<string>)
    requires j <= |s|
    ensures r.Some? <==> CharsetParamAt(s, j) && !EmptyValueAt(s, j + 9)
    ensures r.Some? ==> r.value != [] && forall i | 0 <= i < |r.value| :: !IsQuote(r.value[i])
  {
    if !CharsetParamAt(s, j) then None
    else
      var k := j + 9;
      if k + 1 < |s| && IsQuote(s[k]) && !IsQuote(s[k + 1]) then Some(s[k + 1..QuoteFreeEnd(s, k + 1)])
      else if k < |s| && !IsQuote(s[k]) then Some(s[k..QuoteFreeEnd(s, k)])
      else None
  }

  /**
   * The value starts after the optional quote and is the longest quote-free run there: it ends
   * at a quote or at the end, so it runs on past `;` and later parameters.
   */
  lemma {:induction false} CharsetValue(s: string, j: nat)
    requires j <= |s| && CharsetAt(s, j).Some?
    ensures var v := CharsetAt(s, j).value;
            var k := if IsQuote(s[j + 9]) then j + 10 else j + 9;
            && k + |v| <= |s| && s[k..k + |v|] == v
            && (k + |v| == |s| || IsQuote(s[k + |v|]))
  {
  }

  /** The lazy `.*?` tries `\W` at `j`, then further on, but never past a line terminator. */
  function FindCharset(s: string, j: nat): (r: Option<string>)
    requires j <= |s|
    ensures r.Some? ==> r.value != [] && forall i | 0 <= i < |r.value| :: !IsQuote(r.value[i])
    decreases |s| - j
  {
    if j == |s| then None
    else match CharsetAt(s, j)
      case Some(v) => Some(v)
      case None => if IsLineTerminator(s[j]) then None else FindCharset(s, j + 1)
  }

  /**
   * `getCharset`: `str.split(/^.*?\Wcharset=["']?([^"']+)/)[1]`. The anchored pattern can only
   * match at the start, and then the element at index 1 is its capture; otherwise the split
   * has one element and index 1 is undefined.
   */
  function GetCharset(s: string): (r: Option<string>)
    ensures r.Some? ==> r.value != [] && forall i | 0 <= i < |r.value| :: !IsQuote(r.value[i])
  {
    FindCharset(s, 0)
  }

  /** `j` is the first position from `j0` on where the pattern matches, and `.*?` reaches it. */
  predicate FirstUsable(s: string, j0: nat, j: nat) {
    && j0 <= j < |s|
    && CharsetAt(s, j).Some?
    && forall i | j0 <= i < j :: CharsetAt(s, i).None? && !IsLineTerminator(s[i])
  }

  /** The search returns the capture at the first usable `charset=` on the first line. */
  lemma {:induction false} FindCharsetIs(s: string, j0: nat, j: nat)
    requires FirstUsable(s, j0, j)
    ensures FindCharset(s, j0) == CharsetAt(s, j)
    decreases j - j0
  {
    if j0 < j {
      assert CharsetAt(s, j0).None? && !IsLineTerminator(s[j0]);
      assert FindCharset(s, j0) == FindCharset(s, j0 + 1);
      assert FirstUsable(s, j0 + 1, j);
      FindCharsetIs(s, j0 + 1, j);
    }
  }

  /** When the search succeeds, it does so at the first usable position. */
  lemma {:induction false} FindCharsetFound(s: string, j0: nat)
    requires j0 <= |s| && FindCharset(s, j0).Some?
    ensures exists j: nat :: FirstUsable(s, j0, j) && CharsetAt(s, j) == FindCharset(s, j0)
    decreases |s| - j0
  {
    assert j0 < |s|;
    if CharsetAt(s, j0).None? {
      assert !IsLineTerminator(s[j0]) && FindCharset(s, j0) == FindCharset(s, j0 + 1);
      FindCharsetFound(s, j0 + 1);
      var j: nat :| FirstUsable(s, j0 + 1, j) && CharsetAt(s, j) == FindCharset(s, j0 + 1);
      FirstUsableFrom(s, j0, j);
    } else {
      assert FirstUsable(s, j0, j0);
    }
  }

  /** A position the search passes over does not change which position is the first usable one. */
  lemma {:induction false} FirstUsableFrom(s: string, j0: nat, j: nat)
    requires j0 < |s| && CharsetAt(s, j0).None? && !IsLineTerminator(s[j0])
    requires FirstUsable(s, j0 + 1, j)
    ensures FirstUsable(s, j0, j)
  {
    forall i | j0 <= i < j ensures CharsetAt(s, i).None? && !IsLineTerminator(s[i]) {
      if i > j0 {
        assert j0 + 1 <= i < j;
      }
    }
  }

  /** A charset is only ever found where `/\Wcharset=/` holds, so the second guard never excludes one. */
  lemma {:induction false} CharsetImpliesParam(s: string)
    requires GetCharset(s).Some?
    ensures HasCharsetParam(s)
  {
    FindCharsetFound(s, 0);
    var j: nat :| FirstUsable(s, 0, j) && CharsetAt(s, j) == GetCharset(s);
    assert CharsetParamAt(s, j);
  }

  /**
   * The iconv-lite calls and `buf.toString()`, which the model takes as given. `iconv.encode`
   * and `iconv.decode` throw for a charset iconv does not recognise; a `Failure` carries the
   * message.
   */
  datatype Codec = Codec(
    toText: seq<Byte> -> string,
    encode: (string, string) -> Result<seq<Byte>, string>,
    decode: (seq<Byte>, string) -> Result<string, string>)

  /**
   * The charset the handlers transcode with: both guards pass and `getCharset` names a
   * charset that does not start with "utf-8" in any ASCII case.
   */
  function Transcoding(header: Option<string>): (r: Option<string>)
    ensures r.Some? ==> IsTextual(Stringify(header)) && GetCharset(Stringify(header)) == r
    ensures r.Some? ==> !StartsWithIgnoringCase(r.value, "utf-8")
    ensures r.None? && IsTextual(Stringify(header)) && GetCharset(Stringify(header)).Some? ==>
              StartsWithIgnoringCase(GetCharset(Stringify(header)).value, "utf-8")
  {
    var ct := Stringify(header);
    if IsTextual(ct) && HasCharsetParam(ct) then
      match GetCharset(ct)
      case Some(cs) => if !StartsWithIgnoringCase(cs, "utf-8") then Some(cs) else None
      case None => None
    else
      if IsTextual(ct) && GetCharset(ct).Some? then
        CharsetImpliesParam(ct);
        None
      else None
  }

  /**
   * `encodeBuffer`: UTF-8 bytes to the response's charset. It throws exactly when it
   * transcodes and iconv throws.
   */
  function EncodeBuffer(c: Codec, header: Option<string>, buf: seq<Byte>): (r: Result<seq<Byte>, string>)
    ensures Transcoding(header).None? ==> r == Success(buf)
    ensures r.Failure? <==> Transcoding(header).Some? && c.encode(c.toText(buf), Transcoding(header).value).Failure?
  {
    match Transcoding(header)
    case None => Success(buf)
    case Some(cs) => c.encode(c.toText(buf), cs)
  }

  /**
   * `decodeBuffer`: the response's charset to UTF-8 bytes. It throws exactly when it transcodes
   * and iconv throws; otherwise a transcoded buffer is UTF-8.
   */
  function DecodeBuffer(c: Codec, header: Option<string>, buf: seq<Byte>): (r: Result<seq<Byte>, string>)
    ensures Transcoding(header).None? ==> r == Success(buf)
    ensures r.Failure? <==> Transcoding(header).Some? && c.decode(buf, Transcoding(header).value).Failure?
    ensures Transcoding(header).Some? && r.Success? ==> exists t :: r.value == Utf8(t)
  {
    match Transcoding(header)
    case None => Success(buf)
    case Some(cs) =>
      match c.decode(buf, cs)
      case Failure(m) => Failure(m)
      case Success(t) => Success(Utf8(t))
  }

  /** A response without Content-Type is never transcoded: "undefined" is not textual. */
  lemma {:induction false} MissingContentTypeUntouched(c: Codec, buf: seq<Byte>)
    ensures EncodeBuffer(c, None, buf) == Success(buf) && DecodeBuffer(c, None, buf) == Success(buf)
  {
    assert Stringify(None)[0] == 'u';
  }

  /**
   * A textual `MIME charset=NAME` is transcoded with NAME, whatever NAME holds after the
   * charset proper, unless NAME starts with "utf-8".
   */
  lemma {:induction false} NamedCharsetTranscoded(mime: string, name: string)
    requires IsTextual(mime) && NoLineBreak(mime) && '=' !in mime
    requires name != [] && forall i | 0 <= i < |name| :: !IsQuote(name[i])
    requires !StartsWithIgnoringCase(name, "utf-8")
    ensures Transcoding(Some(mime + " charset=" + name)) == Some(name)
  {
    var ct := mime + " charset=" + name;
    assert Stringify(Some(ct)) == ct;
    assert IsTextual(ct) by {
      assert ct[..5] == mime[..5];
      if !StartsWith(mime, "text/") {
        assert ct[..12] == mime[..12];
      }
    }
    NamedCharset(mime, name);
    CharsetImpliesParam(ct);
  }

  /**
   * The charset name iconv is asked for is the whole capture, later parameters included: when
   * the codec does not know it, the decoding handler throws, as for
   * `text/html; charset=Shift_JIS; q=1`.
   */
  lemma {:induction false} CharsetParameterReachesCodec(c: Codec, buf: seq<Byte>, mime: string, name: string)
    requires IsTextual(mime) && NoLineBreak(mime) && '=' !in mime
    requires name != [] && forall i | 0 <= i < |name| :: !IsQuote(name[i])
    requires !StartsWithIgnoringCase(name, "utf-8")
    requires c.decode(buf, name).Failure?
    ensures DecodeBuffer(c, Some(mime + " charset=" + name), buf).Failure?
  {
    NamedCharsetTranscoded(mime, name);
  }

  /**
   * Decoding then encoding gives the upstream bytes back, provided the codec knows the charset,
   * its own round trip holds for them, and `toText` reads UTF-8 back.
   */
  lemma {:induction false} EncodeAfterDecode(c: Codec, header: Option<string>, buf: seq<Byte>)
    requires forall cs | Transcoding(header) == Some(cs) ::
               c.decode(buf, cs).Success? && c.encode(c.decode(buf, cs).value, cs) == Success(buf)
    requires forall t :: c.toText(Utf8(t)) == t
    ensures DecodeBuffer(c, header, buf).Success?
    ensures EncodeBuffer(c, header, DecodeBuffer(c, header, buf).value) == Success(buf)
  {
    match Transcoding(header)
    case None =>
    case Some(cs) =>
      var t := c.decode(buf, cs).value;
      assert c.toText(Utf8(t)) == t;
  }

  /** Encoding then decoding gives the UTF-8 bytes back, under the same assumptions. */
  lemma {:induction false} DecodeAfterEncode(c: Codec, header: Option<string>, t: string)
    requires forall cs | Transcoding(header) == Some(cs) ::
               c.encode(t, cs).Success? && c.decode(c.encode(t, cs).value, cs) == Success(t)
    requires c.toText(Utf8(t)) == t
    ensures EncodeBuffer(c, header, Utf8(t)).Success?
    ensures DecodeBuffer(c, header, EncodeBuffer(c, header, Utf8(t)).value) == Success(Utf8(t))
  {
    match Transcoding(header)
    case None =>
    case Some(cs) =>
      assert c.decode(c.encode(t, cs).value, cs) == Success(t);
  }

  /**
   * `MIME charset=NAME` yields NAME when NAME holds no quote and the MIME part no `=` and no
   * line terminator, as in `application/xml; charset=Shift_JIS`.
   */
  lemma {:induction false} NamedCharset(mime: string, name: string)
    requires NoLineBreak(mime) && '=' !in mime
    requires name != [] && forall i | 0 <= i < |name| :: !IsQuote(name[i])
    ensures GetCharset(mime + " charset=" + name) == Some(name)
  {
    var s := mime + " charset=" + name;
    var m := |mime|;
    assert s[m] == ' ' && s[m + 1..m + 9] == "charset=";
    assert s[m + 9..] == name;
    QuoteFreeTail(s, m + 9);
    assert !IsQuote(s[m + 9]) && s[m + 9..|s|] == name;
    assert CharsetAt(s, m) == Some(s[m + 9..QuoteFreeEnd(s, m + 9)]);
    CharsetAfterMime(mime, name);
  }

  /**
   * `MIME charset="NAME"` and `MIME charset='NAME'` yield NAME without its quotes, under the
   * same conditions.
   */
  lemma {:induction false} QuotedCharset(mime: string, q: char, name: string)
    requires NoLineBreak(mime) && '=' !in mime && IsQuote(q)
    requires name != [] && forall i | 0 <= i < |name| :: !IsQuote(name[i])
    ensures GetCharset(mime + " charset=" + ([q] + name + [q])) == Some(name)
  {
    var s := mime + " charset=" + ([q] + name + [q]);
    var m := |mime|;
    var k := m + 9;
    assert s[m] == ' ' && s[m + 1..k] == "charset=";
    assert s[k..] == [q] + name + [q];
    QuotedRun(s, k, name);
    assert CharsetAt(s, m) == Some(s[k + 1..QuoteFreeEnd(s, k + 1)]);
    CharsetAfterMime(mime, [q] + name + [q]);
  }

  /**
   * The capture is not cut at `;`: later parameters become part of the charset name, as in
   * `text/html; charset=Shift_JIS; q=1`.
   */
  lemma {:induction false} CharsetKeepsLaterParameters()
    ensures GetCharset("text/html; charset=Shift_JIS; q=1") == Some("Shift_JIS; q=1")
  {
    NamedCharset("text/html;", "Shift_JIS; q=1");
    assert "text/html;" + " charset=" + "Shift_JIS; q=1" == "text/html; charset=Shift_JIS; q=1";
  }

  /**
   * After a MIME part without `=` and line terminators, the search reaches the `charset=` that
   * follows it, so a capture there is the result.
   */
  lemma {:induction false} CharsetAfterMime(mime: string, tail: string)
    requires NoLineBreak(mime) && '=' !in mime
    requires CharsetAt(mime + " charset=" + tail, |mime|).Some?
    ensures GetCharset(mime + " charset=" + tail) == CharsetAt(mime + " charset=" + tail, |mime|)
  {
    var s := mime + " charset=" + tail;
    var m := |mime|;
    forall i | 0 <= i < m ensures CharsetAt(s, i).None? && !IsLineTerminator(s[i]) {
      assert s[i] == mime[i];
      NoCharsetInside(mime, tail, i);
    }
    assert FirstUsable(s, 0, m);
    FindCharsetIs(s, 0, m);
  }

  /** Behind an opening quote, the run is the quote-free name up to the closing quote. */
  lemma {:induction false} QuotedRun(s: string, k: nat, name: string)
    requires k <= |s| && name != [] && forall i | 0 <= i < |name| :: !IsQuote(name[i])
    requires exists q, q' :: IsQuote(q) && IsQuote(q') && s[k..] == [q] + name + [q']
    ensures k + 1 < |s| && IsQuote(s[k]) && !IsQuote(s[k + 1])
    ensures QuoteFreeEnd(s, k + 1) == k + 1 + |name| && s[k + 1..k + 1 + |name|] == name
  {
    var q, q' :| IsQuote(q) && IsQuote(q') && s[k..] == [q] + name + [q'];
    var t := s[k..];
    assert s[k] == t[0] == q && s[k + 1] == t[1] == name[0];
    forall i | k + 1 <= i < k + 1 + |name| ensures !IsQuote(s[i]) {
      assert s[i] == t[i - k] == name[i - (k + 1)];
    }
    assert s[k + 1 + |name|] == t[1 + |name|] == q';
    QuoteFreeStop(s, k + 1, k + 1 + |name|);
    assert s[k + 1..k + 1 + |name|] == t[1..1 + |name|] == name;
  }

  /** The run stops at the first quote. */
  lemma {:induction false} QuoteFreeStop(s: string, k: nat, e: nat)
    requires k <= e < |s| && IsQuote(s[e])
    requires forall i | k <= i < e :: !IsQuote(s[i])
    ensures QuoteFreeEnd(s, k) == e
    decreases e - k
  {
    if k < e {
      QuoteFreeStop(s, k + 1, e);
    }
  }

  /** The run reaches the end of a string whose tail holds no quote. */
  lemma {:induction false} QuoteFreeTail(s: string, k: nat)
    requires k <= |s| && forall i | k <= i < |s| :: !IsQuote(s[i])
    ensures QuoteFreeEnd(s, k) == |s|
    decreases |s| - k
  {
    if k < |s| {
      QuoteFreeTail(s, k + 1);
    }
  }

  /**
   * No `charset=` starts inside a part without `=`: either its `=` would fall inside the part,
   * or the space after the part would fall inside it.
   */
  lemma {:induction false} NoCharsetInside(mime: string, name: string, i: nat)
    requires '=' !in mime && i < |mime|
    ensures (mime + " charset=" + name)[i + 1..i + 9] != "charset="
  {
    var s := mime + " charset=" + name;
    var w := s[i + 1..i + 9];
    if i + 8 < |mime| {
      assert w[7] == mime[i + 8];
    } else {
      var p := |mime| - (i + 1);
      assert w[p] == s[|mime|] == ' ';
    }
  }
}
