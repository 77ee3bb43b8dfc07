/** The session cookie of `lib/auth.js`: reading the token out of a request's
    `Cookie` header, the two `Set-Cookie` header values (section 4.1.1 of
    RFC 6265) and the control flow of `requireAuth`. Signing and verifying
    tokens belong to a foreign library, so the verifier is a parameter. */
module Auth {
  import opened Wrappers
  import opened Seqs
  import opened Strings

  const CookieName: string := "mpfit_token"

  /** Seven days, in seconds. */
  const MaxAge: nat := 7 * 24 * 3600

  // ------------------------------------------------------------ headers

  /** What every cookie segment carrying the token starts with. */
  const Prefix: string := CookieName + "="

  /** The attributes both headers put after the `;` that ends the
      name-value pair. */
  function Attributes(maxAge: string): string
  {
    " HttpOnly; Path=/; Max-Age=" + maxAge + "; SameSite=Strict"
  }

  /** The `Set-Cookie` value of `setTokenCookie` for a signed token: an
      HTTP-only, same-site cookie for the whole site that lives seven days. */
  function SetCookieHeader(token: string): (h: string)
    ensures StartsWith(h, CookieName + "=" + token + ";")
    ensures h[|CookieName| + |token| + 2..] == Attributes("604800")
  {
    MaxAgeText();
    Prefix + token + ";" + Attributes(NatToString(MaxAge))
  }

  /** The `Set-Cookie` value of `clearTokenCookie`: an empty value that
      expires at once. */
  function ClearCookieHeader(): (h: string)
    ensures StartsWith(h, CookieName + "=;")
    ensures h[|CookieName| + 2..] == Attributes("0")
  {
    Prefix + ";" + Attributes("0")
  }

  /** The lifetime is seven days, written out as `604800`. */
  lemma MaxAgeText()
    ensures MaxAge == 604800
    ensures NatToString(MaxAge) == "604800"
  {
    assert NatToString(MaxAge) == "604800" by {
      assert NatToString(6) == "6";
      assert NatToString(60) == "60";
      assert NatToString(604) == "604";
      assert NatToString(6048) == "6048";
      assert NatToString(60480) == "60480";
    }
  }

  // ------------------------------------------------------------ parsing

  function TrimAll(parts: seq<string>): (r: seq<string>)
    ensures |r| == |parts| && forall k :: 0 <= k < |r| ==> r[k] == Trim(parts[k])
  {
    seq(|parts|, k requires 0 <= k < |parts| => Trim(parts[k]))
  }

  /** `cookie.split(';').map(s => s.trim())`, a missing header read as `''`. */
  function Segments(cookie: Option<string>): seq<string>
  {
    TrimAll(Split(cookie.GetOr(""), ';'))
  }

  /** `s.startsWith(COOKIE_NAME + '=')`. */
  predicate IsTokenSegment(s: string)
  {
    StartsWith(s, Prefix)
  }

  /** `v` is the text at the start of `rest` up to its first `=`. */
  predicate FirstField(v: string, rest: string)
  {
    StartsWith(rest, v) && '=' !in v && (|v| == |rest| || rest[|v|] == '=')
  }

  lemma PrefixFacts()
    ensures |Prefix| == 12 && Prefix == CookieName + ['=']
    ensures '=' !in CookieName && ';' !in Prefix && !IsSpace(Prefix[0]) && !IsSpace(Prefix[11])
  {
  }

  /** `seg.split('=')[1]` for a segment that starts with the prefix: the
      text after the prefix up to the next `=`. */
  function TokenOf(seg: string): (v: string)
    requires IsTokenSegment(seg)
    ensures FirstField(v, seg[|Prefix|..])
  {
    PrefixFacts();
    var rest := seg[|Prefix|..];
    assert seg == CookieName + ['='] + rest;
    SplitPrefix(CookieName, rest, '=');
    SplitFirst(rest, '=');
    Split(seg, '=')[1]
  }

  /** `getTokenFromReq`: no token when no trimmed segment starts with
      `mpfit_token=`; otherwise, of the first segment that does (see
      `IndexWhere`), the text after the name up to the next `=`. */
  function GetTokenFromReq(cookie: Option<string>): (r: Option<string>)
    ensures var segs := Segments(cookie);
      r.None? <==> forall k :: 0 <= k < |segs| ==> !IsTokenSegment(segs[k])
    ensures var segs := Segments(cookie); var i := IndexWhere(segs, IsTokenSegment);
      r.Some? ==> i.Some? && FirstField(r.value, segs[i.value][|Prefix|..])
  {
    var segs := Segments(cookie);
    match IndexWhere(segs, IsTokenSegment)
    case None => None
    case Some(k) => Some(TokenOf(segs[k]))
  }

  /** A header whose first segment is already trimmed and carries the token. */
  lemma FirstSegmentToken(pair: string, attrs: string)
    requires ';' !in pair && Trim(pair) == pair && IsTokenSegment(pair)
    ensures GetTokenFromReq(Some(pair + ";" + attrs)) == Some(TokenOf(pair))
  {
    SegmentsHead(pair, attrs);
    TokenAtHead(Some(pair + ";" + attrs));
  }

  lemma SegmentsHead(pair: string, attrs: string)
    requires ';' !in pair
    ensures Segments(Some(pair + ";" + attrs)) != []
    ensures Segments(Some(pair + ";" + attrs))[0] == Trim(pair)
  {
    var h := pair + ";" + attrs;
    assert h == pair + [';'] + attrs;
    SplitPrefix(pair, attrs, ';');
  }

  lemma TokenAtHead(cookie: Option<string>)
    requires Segments(cookie) != [] && IsTokenSegment(Segments(cookie)[0])
    ensures GetTokenFromReq(cookie) == Some(TokenOf(Segments(cookie)[0]))
  {
    IndexWhereHead(Segments(cookie), IsTokenSegment);
  }

  /** `pair` has no whitespace at either end when it starts with the prefix
      and does not end in whitespace. */
  lemma TrimmedPair(token: string)
    requires token == [] || !IsSpace(token[|token| - 1])
    ensures Trim(Prefix + token) == Prefix + token
  {
    PrefixFacts();
    var pair := Prefix + token;
    assert pair[0] == Prefix[0];
    assert TrimStart(pair) == pair;
    assert pair[|pair| - 1] == if token == [] then Prefix[11] else token[|token| - 1];
  }

  lemma FirstFieldWhole(v: string, rest: string)
    requires '=' !in rest && FirstField(v, rest)
    ensures v == rest
  {
  }

  lemma PairFacts(token: string)
    requires ';' !in token
    ensures IsTokenSegment(Prefix + token) && (Prefix + token)[|Prefix|..] == token
    ensures ';' !in Prefix + token
  {
    PrefixFacts();
    assert (Prefix + token)[..|Prefix|] == Prefix;
  }

  /** The token of a header whose name-value pair is `mpfit_token=<token>`,
      whatever attributes follow the `;`. */
  lemma PairRoundTrip(token: string, attrs: string)
    requires '=' !in token && ';' !in token
    requires token == [] || !IsSpace(token[|token| - 1])
    ensures GetTokenFromReq(Some(Prefix + token + ";" + attrs)) == Some(token)
  {
    PairFacts(token);
    TrimmedPair(token);
    FirstSegmentToken(Prefix + token, attrs);
    FirstFieldWhole(TokenOf(Prefix + token), token);
  }

  /** A token without `=`, `;` or trailing whitespace comes back out of the
      header that stored it, when that header is sent back as a cookie. */
  lemma TokenRoundTrip(token: string)
    requires '=' !in token && ';' !in token
    requires token == [] || !IsSpace(token[|token| - 1])
    ensures GetTokenFromReq(Some(SetCookieHeader(token))) == Some(token)
  {
    PairRoundTrip(token, Attributes(NatToString(MaxAge)));
  }

  /** The cleared cookie yields the empty token, which `requireAuth` treats
      as no token. */
  lemma ClearedCookieHasEmptyToken()
    ensures GetTokenFromReq(Some(ClearCookieHeader())) == Some("")
  {
    PairRoundTrip("", Attributes("0"));
    assert Prefix + "" == Prefix;
  }

  /** Whitespace around the segments of a header never changes the token:
      two headers whose segments trim to the same text give the same result. */
  lemma WhitespaceInvariant(a: seq<string>, b: seq<string>)
    requires |a| == |b| >= 1
    requires forall k :: 0 <= k < |a| ==> ';' !in a[k] && ';' !in b[k] && Trim(a[k]) == Trim(b[k])
    ensures GetTokenFromReq(Some(Join(a, ";"))) == GetTokenFromReq(Some(Join(b, ";")))
  {
    SplitJoin(a, ';');
    SplitJoin(b, ';');
    assert Segments(Some(Join(a, ";"))) == Segments(Some(Join(b, ";")));
  }

  // -------------------------------------------------------- requireAuth

  /** A verified token payload; `id` is missing when the payload has none. */
  datatype Payload = Payload(id: Option<int>)

  /** `!!payload.id` for a numeric id. */
  predicate HasId(p: Payload)
  {
    p.id.Some? && p.id.value != 0
  }

  /** What `requireAuth` hands back: the payload itself, or, when the
      database offers a user lookup, the user that lookup returned. */
  datatype Principal<U> = FromToken(payload: Payload) | StoredUser(user: U)

  /** `requireAuth`: `verify` stands for `verifyToken` (no payload for a bad
      token) and `lookUp` for `db.getUserById`: `None` when the database has
      no such operation, otherwise a lookup that yields no user both when
      none is stored under the id and when the lookup throws. */
  function RequireAuth<U>(cookie: Option<string>, verify: string -> Option<Payload>,
                          lookUp: Option<int -> Option<U>>): (r: Option<Principal<U>>)
    ensures var t := GetTokenFromReq(cookie);
      r.None? <==> t.None? || t.value == [] || verify(t.value).None? || !HasId(verify(t.value).value)
                   || (lookUp.Some? && lookUp.value(verify(t.value).value.id.value).None?)
    ensures r.Some? && lookUp.Some? ==> var p := verify(GetTokenFromReq(cookie).value).value;
      r.value == StoredUser(lookUp.value(p.id.value).value)
    ensures r.Some? && lookUp.None? ==> r.value == FromToken(verify(GetTokenFromReq(cookie).value).value)
  {
    var token := GetTokenFromReq(cookie);
    if token.None? || token.value == [] then None
    else
      var payload := verify(token.value);
      if payload.None? || !HasId(payload.value) then None
      else if lookUp.Some? then
        var user := lookUp.value(payload.value.id.value);
        if user.None? then None else Some(StoredUser(user.value))
      else Some(FromToken(payload.value))
  }

  /** A request carrying only the cleared cookie is not authenticated,
      whatever the verifier says. */
  lemma ClearedCookieIsAnonymous<U>(verify: string -> Option<Payload>, lookUp: Option<int -> Option<U>>)
    ensures RequireAuth(Some(ClearCookieHeader()), verify, lookUp) == None
  {
    ClearedCookieHasEmptyToken();
  }

  /** A request without a `Cookie` header is not authenticated. */
  lemma NoHeaderIsAnonymous<U>(verify: string -> Option<Payload>, lookUp: Option<int -> Option<U>>)
    ensures GetTokenFromReq(None) == None
    ensures RequireAuth(None, verify, lookUp) == None
  {
    assert Split("", ';') == [""];
    assert Segments(None) == [""];
  }
}
