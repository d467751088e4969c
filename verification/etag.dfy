/**
 * ETag revalidation (lib/etag.ts): the conditional request headers are withheld from the
 * handlers downstream, and a 200 response whose ETag matches the request's If-None-Match is
 * turned into 304 Not Modified, in the sense of sections 3.2 and 4.1 of RFC 7232 with the
 * weak comparison of section 2.3.2.
 */
module ETag {
  import opened Wrappers
  import opened Text

  const OK: int := 200
  const NotModified: int := 304

  /** `s.replace(/"/g, "")` for one character: every occurrence of `c` removed. */
  function RemoveAll(s: string, c: char): (r: string)
    ensures c !in r
    ensures |r| == |s| - Count(s, c)
    ensures forall x | x != c :: x in r <==> x in s
  {
    if s == [] then []
    else if s[0] == c then RemoveAll(s[1..], c)
    else
      var rest := RemoveAll(s[1..], c);
      assert forall x | x != c :: x in s <==> x == s[0] || x in s[1..];
      [s[0]] + rest
  }

  /** Removing a character that does not occur changes nothing. */
  lemma {:induction false} RemoveAllAbsent(s: string, c: char)
    requires c !in s
    ensures RemoveAll(s, c) == s
  {
    if s != [] {
      RemoveAllAbsent(s[1..], c);
    }
  }

  /** Removal works piece by piece. */
  lemma {:induction false} RemoveAllConcat(a: string, b: string, c: char)
    ensures RemoveAll(a + b, c) == RemoveAll(a, c) + RemoveAll(b, c)
  {
    if a != [] {
      assert (a + b)[1..] == a[1..] + b;
      RemoveAllConcat(a[1..], b, c);
    } else {
      assert a + b == b;
    }
  }

  /**
   * `normalize`: `String(str).replace(/^W\/|"/g, "")`. The anchored alternative can only match
   * at the start, so one leading `W/` goes, and every double quote goes.
   */
  function Normalize(s: string): (r: string)
    ensures '"' !in r
    ensures StartsWith(s, "W/") ==> |r| == |s| - 2 - Count(s[2..], '"')
    ensures !StartsWith(s, "W/") ==> |r| == |s| - Count(s, '"')
  {
    RemoveAll(if StartsWith(s, "W/") then s[2..] else s, '"')
  }

  /** The five conditional request headers; downstream handlers see none of them. */
  const Conditional: set<string> :=
    {"if-match", "if-modified-since", "if-range", "if-none-match", "if-unmodified-since"}

  /** A 200 response whose ETag equals the stored If-None-Match once both are normalised. */
  predicate Revalidates(status: int, etag: Option<string>, ifNoneMatch: Option<string>) {
    status == OK && Truthy(etag) && Normalize(etag.value) == Normalize(Stringify(ifNoneMatch))
  }

  /** The request and response of one exchange, as the handler sees them. */
  class Exchange {
    /** `req.headers` */
    var requestHeaders: map<string, string>
    /** `res["if-none-match"]`, the header kept aside for the response phase */
    var ifNoneMatch: Option<string>
    /** `res.statusCode` */
    var status: int
    /** `res.getHeader(name)` */
    var responseHeaders: map<string, string>

    constructor (headers: map<string, string>)
      ensures requestHeaders == headers && ifNoneMatch.None?
      ensures status == OK && responseHeaders == map[]
    {
      requestHeaders := headers;
      ifNoneMatch := None;
      status := OK;
      responseHeaders := map[];
    }

    /** The response's ETag header, if any. */
    function ETagHeader(): Option<string>
      reads this
    {
      if "etag" in responseHeaders then Some(responseHeaders["etag"]) else None
    }

    /**
     * The request phase: keep If-None-Match aside, delete the conditional headers, and take
     * part in the response only when If-None-Match was present and not empty.
     */
    method ForRequest() returns (active: bool)
      modifies this
      ensures ifNoneMatch == if "if-none-match" in old(requestHeaders) then Some(old(requestHeaders)["if-none-match"]) else None
      ensures forall k | k in Conditional :: k !in requestHeaders
      ensures forall k | k !in Conditional :: k in requestHeaders <==> k in old(requestHeaders)
      ensures forall k | k in requestHeaders :: requestHeaders[k] == old(requestHeaders)[k]
      ensures active <==> Truthy(ifNoneMatch)
      ensures status == old(status) && responseHeaders == old(responseHeaders)
    {
      ifNoneMatch := if "if-none-match" in requestHeaders then Some(requestHeaders["if-none-match"]) else None;
      requestHeaders := requestHeaders - Conditional;
      active := Truthy(ifNoneMatch);
    }

    /** The response phase: only the status may change, and only to 304. */
    method GetResponse()
      modifies this
      ensures status == if Revalidates(old(status), ETagHeader(), ifNoneMatch) then NotModified else old(status)
      ensures requestHeaders == old(requestHeaders) && ifNoneMatch == old(ifNoneMatch)
      ensures responseHeaders == old(responseHeaders)
    {
      if status != OK {
        return;
      }
      var etag := ETagHeader();
      if !Truthy(etag) {
        return;
      }
      if Normalize(etag.value) != Normalize(Stringify(ifNoneMatch)) {
        return;
      }
      status := NotModified;
    }
  }

  /** A quoted tag normalises to its opaque part. */
  lemma {:induction false} NormalizeQuoted(x: string)
    requires '"' !in x
    ensures Normalize("\"" + x + "\"") == x
  {
    var q := "\"" + x + "\"";
    assert !StartsWith(q, "W/") by {
      assert q[0] == '"';
    }
    RemoveAllConcat("\"" + x, "\"", '"');
    RemoveAllConcat("\"", x, '"');
    RemoveAllAbsent(x, '"');
  }

  /** A weak tag `W/"x"` normalises to its opaque part as well. */
  lemma {:induction false} NormalizeWeak(x: string)
    requires '"' !in x
    ensures Normalize("W/\"" + x + "\"") == x
  {
    var w := "W/\"" + x + "\"";
    assert w[..2] == "W/";
    assert w[2..] == "\"" + x + "\"";
    NormalizeQuoted(x);
    assert !StartsWith("\"" + x + "\"", "W/") by {
      assert ("\"" + x + "\"")[0] == '"';
    }
  }

  /** `W/"x"` and `"x"` compare equal, so a weak ETag revalidates against a strong If-None-Match. */
  lemma {:induction false} WeakMatchesStrong(x: string)
    requires '"' !in x && x != ""
    ensures Revalidates(OK, Some("W/\"" + x + "\""), Some("\"" + x + "\""))
    ensures Revalidates(OK, Some("\"" + x + "\""), Some("W/\"" + x + "\""))
  {
    NormalizeWeak(x);
    NormalizeQuoted(x);
  }

  /** Tags with different opaque parts never revalidate. */
  lemma {:induction false} DifferentTagsKeepStatus(x: string, y: string, status: int)
    requires '"' !in x && '"' !in y && x != y
    ensures !Revalidates(status, Some("W/\"" + x + "\""), Some("\"" + y + "\""))
    ensures !Revalidates(status, Some("\"" + x + "\""), Some("\"" + y + "\""))
  {
    NormalizeWeak(x);
    NormalizeQuoted(x);
    NormalizeQuoted(y);
  }
}
