/**
 * Basic authentication as the composer sets it up (lib/weboverlay.ts:81-102): a table of
 * accepted credentials built from the `basic` option, and a check of the Authorization
 * header against it, in the scheme of section 2 of RFC 7617.
 */
module BasicAuth {
  import opened Wrappers
  import opened Text
  import opened Encoding

  /** The `basic` option: one entry or a list of them. */
  datatype BasicOption = Single(entry: string) | List(entries: seq<string>)

  /** `if (basic)`: an empty string leaves authentication off; a list, even an empty one, turns it on. */
  predicate Enabled(b: BasicOption) {
    !(b.Single? && b.entry == "")
  }

  /** `"string" === typeof basic ? [basic] : basic` */
  function Entries(b: BasicOption): seq<string> {
    if b.Single? then [b.entry] else b.entries
  }

  /** `Buffer.from(str).toString("base64")`: a `user:password` pair as a client sends it. */
  function EncodeCredentials(s: string): string {
    Base64Encode(Utf8(s))
  }

  /** `str && /:/.test(str)`: a raw `user:password` entry. */
  predicate IsPair(s: string) {
    s != "" && ':' in s
  }

  /** `str && !/:/.test(str)`: an entry given already encoded. */
  predicate IsEncoded(s: string) {
    s != "" && ':' !in s
  }

  /** The keys one `forEach` pass stores: `key(s)` for each entry `s` that `keep` selects. */
  function Keys(list: seq<string>, keep: string -> bool, key: string -> string): set<string> {
    if list == [] then {}
    else
      var s := list[|list| - 1];
      Keys(list[..|list| - 1], keep, key) + (if keep(s) then {key(s)} else {})
  }

  /** The own keys of the `users` object after both passes. */
  function UserTable(list: seq<string>): set<string> {
    Keys(list, IsPair, EncodeCredentials) + Keys(list, IsEncoded, s => s)
  }

  /** Fills the table as lib/weboverlay.ts:82-92 does: first the encoded pairs, then the pre-encoded entries. */
  method BuildUsers(list: seq<string>) returns (users: set<string>)
    ensures users == UserTable(list)
  {
    users := {};
    for i := 0 to |list|
      invariant users == Keys(list[..i], IsPair, EncodeCredentials)
    {
      assert list[..i + 1][..i] == list[..i];
      var s := list[i];
      if IsPair(s) {
        users := users + {EncodeCredentials(s)};
      }
    }
    assert list[..|list|] == list;
    var encoded := {};
    for i := 0 to |list|
      invariant encoded == Keys(list[..i], IsEncoded, s => s)
    {
      assert list[..i + 1][..i] == list[..i];
      var s := list[i];
      if IsEncoded(s) {
        encoded := encoded + {s};
      }
    }
    assert list[..|list|] == list;
    users := users + encoded;
  }

  /** `s` is a raw `user:password` entry whose key is `k`. */
  predicate IsPairFor(s: string, k: string) {
    IsPair(s) && k == EncodeCredentials(s)
  }

  /** A key is stored exactly for an encoded pair of the list or a pre-encoded entry of it. */
  lemma {:induction false} UserTableMembers(list: seq<string>, k: string)
    ensures k in UserTable(list) <==>
            (exists i | 0 <= i < |list| :: IsPairFor(list[i], k))
            || (exists i | 0 <= i < |list| :: list[i] == k && IsEncoded(k))
  {
    KeysMembers(list, IsPair, EncodeCredentials, k);
    KeysMembers(list, IsEncoded, s => s, k);
  }

  /** A pass stores exactly the keys of the entries it selects. */
  lemma {:induction false} KeysMembers(list: seq<string>, keep: string -> bool, key: string -> string, k: string)
    ensures k in Keys(list, keep, key) <==> exists i | 0 <= i < |list| :: keep(list[i]) && key(list[i]) == k
  {
    if list != [] {
      var n := |list| - 1;
      var init := list[..n];
      KeysMembers(init, keep, key, k);
      if exists i | 0 <= i < n :: keep(init[i]) && key(init[i]) == k {
        var i :| 0 <= i < n && keep(init[i]) && key(init[i]) == k;
        assert init[i] == list[i];
      }
      if exists i | 0 <= i < |list| :: keep(list[i]) && key(list[i]) == k {
        var i :| 0 <= i < |list| && keep(list[i]) && key(list[i]) == k;
        if i < n {
          assert init[i] == list[i];
        }
      }
    }
  }

  /**
   * The credentials `user:password` are accepted exactly when the list holds them, either as
   * the raw pair or already Base64-encoded: the encoding is one-to-one.
   */
  lemma {:induction false} PairAccepted(list: seq<string>, c: string)
    requires ':' in c
    ensures EncodeCredentials(c) in UserTable(list) <==> c in list || EncodeCredentials(c) in list
  {
    var k := EncodeCredentials(c);
    UserTableMembers(list, k);
    Base64HasNoColon(Utf8(c));
    EncodedNonEmpty(c);
    if exists i | 0 <= i < |list| :: IsPairFor(list[i], k) {
      var i :| 0 <= i < |list| && IsPairFor(list[i], k);
      var s := list[i];
      Base64Injective(Utf8(s), Utf8(c));
      Utf8Injective(s, c);
    }
  }

  lemma {:induction false} EncodedNonEmpty(c: string)
    requires c != []
    ensures EncodeCredentials(c) != []
  {
    assert Utf8(c) != [];
  }

  const Realm: string := "Basic realm=\"username and password\""

  /** What the handler does with a request. */
  datatype Reply = Next | Unauthorized(status: int, challenge: string)

  /**
   * `String(req.headers.authorization).replace(/^basic\s+/i, "")`: a missing header is the
   * string "undefined"; a leading `basic` in any ASCII case and the whitespace after it go.
   */
  function Credentials(header: Option<string>): string {
    var h := Stringify(header);
    if |h| > 5 && StartsWithIgnoringCase(h, "basic") && IsSpace(h[5]) then TrimStart(h[5..]) else h
  }

  /**
   * The property names every plain object inherits from `Object.prototype`; `users[name]` is
   * truthy for each of them.
   */
  const InheritedNames: set<string> := {
    "constructor", "hasOwnProperty", "isPrototypeOf", "propertyIsEnumerable", "toLocaleString",
    "toString", "valueOf", "__proto__", "__defineGetter__", "__defineSetter__",
    "__lookupGetter__", "__lookupSetter__"
  }

  /** The verdict for a header's credentials, as written: `users[sent]` on a plain object. */
  predicate AdmitsAsWritten(users: set<string>, sent: string) {
    sent in users || sent in InheritedNames
  }

  /** The verdict for a header's credentials, as intended: only stored keys. */
  predicate Admits(users: set<string>, sent: string) {
    sent in users
  }

  /**
   * The handler: the Authorization header is removed whatever the outcome, and a request
   * without stored credentials gets 401 with a Basic challenge.
   */
  function Check(users: set<string>, headers: map<string, string>): (r: (map<string, string>, Reply))
    ensures "authorization" !in r.0
    ensures forall k | k != "authorization" :: k in r.0 <==> k in headers
    ensures forall k | k in r.0 :: r.0[k] == headers[k]
    ensures r.1 == Next <==> Credentials(if "authorization" in headers then Some(headers["authorization"]) else None) in users
    ensures r.1 != Next ==> r.1 == Unauthorized(401, Realm)
  {
    var sent := Credentials(if "authorization" in headers then Some(headers["authorization"]) else None);
    var rest := headers - {"authorization"};
    if Admits(users, sent) then (rest, Next) else (rest, Unauthorized(401, Realm))
  }

  /** The same handler with the plain-object lookup of lib/weboverlay.ts:82 and 99. */
  function CheckAsWritten(users: set<string>, headers: map<string, string>): (r: (map<string, string>, Reply))
    ensures r.1 == Next <==>
            AdmitsAsWritten(users, Credentials(if "authorization" in headers then Some(headers["authorization"]) else None))
  {
    var sent := Credentials(if "authorization" in headers then Some(headers["authorization"]) else None);
    var rest := headers - {"authorization"};
    if AdmitsAsWritten(users, sent) then (rest, Next) else (rest, Unauthorized(401, Realm))
  }

  /** A client sending `Basic <base64 of user:password>` for listed credentials gets through. */
  lemma {:induction false} ClientCredentialsPass(list: seq<string>, c: string, headers: map<string, string>)
    requires ':' in c && c in list
    requires "authorization" in headers && headers["authorization"] == "Basic " + EncodeCredentials(c)
    ensures Check(UserTable(list), headers).1 == Next
  {
    var k := EncodeCredentials(c);
    PairAccepted(list, c);
    EncodedNonEmpty(c);
    Base64NoSpace(Utf8(c));
    BasicSchemeStripped(k);
    TrimStartKeeps(k);
  }

  /** Base64 text starts with no whitespace. */
  lemma {:induction false} Base64NoSpace(b: seq<Byte>)
    ensures var s := Base64Encode(b); s == [] || !IsSpace(s[0])
  {
    if b != [] {
      DigitValue(b[0] / 4);
    }
  }

  /**
   * Finding: with the table as written, the header `Basic constructor` is let through by every
   * table built from a list that does not itself hold "constructor", since every Base64 key
   * has a length divisible by four and "constructor" has eleven characters.
   */
  lemma {:induction false} InheritedNameAdmitted(list: seq<string>)
    requires "constructor" !in list
    ensures var headers := map["authorization" := "Basic " + "constructor"];
            && CheckAsWritten(UserTable(list), headers).1 == Next
            && Check(UserTable(list), headers).1 != Next
  {
    var headers := map["authorization" := "Basic " + "constructor"];
    assert "authorization" in headers && headers["authorization"] == "Basic " + "constructor";
    ConstructorCredentials();
    ConstructorNotStored(list);
    assert "constructor" in InheritedNames;
  }

  /** `Basic constructor` carries the credentials "constructor". */
  lemma {:induction false} ConstructorCredentials()
    ensures Credentials(Some("Basic " + "constructor")) == "constructor"
  {
    BasicSchemeStripped("constructor");
    TrimStartKeeps("constructor");
  }

  /** `Basic ` in front of the credentials is removed together with the following whitespace. */
  lemma {:induction false} BasicSchemeStripped(k: string)
    ensures Credentials(Some("Basic " + k)) == TrimStart(k)
  {
    var h := "Basic " + k;
    assert h[..5] == "Basic";
    assert EqualIgnoringCase(h[..5], "basic");
    assert h[5..] == [' '] + k;
    TrimStartSkipsSpace(' ', k);
  }

  /** No Base64 key is "constructor", so only the entry "constructor" itself would store it. */
  lemma {:induction false} ConstructorNotStored(list: seq<string>)
    requires "constructor" !in list
    ensures "constructor" !in UserTable(list)
  {
    UserTableMembers(list, "constructor");
    forall i | 0 <= i < |list| ensures !IsPairFor(list[i], "constructor") {
      if IsPairFor(list[i], "constructor") {
        PairKeyLength(list[i], "constructor");
      }
    }
  }

  /** Every key of a raw pair has a length divisible by four. */
  lemma {:induction false} PairKeyLength(s: string, k: string)
    requires IsPairFor(s, k)
    ensures |k| % 4 == 0
  {
    Base64Quads(Utf8(s));
  }
}
