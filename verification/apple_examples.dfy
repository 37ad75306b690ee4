/**
 * Worked cases of the adapter and the callback view on concrete inputs,
 * with a stand-in JWT library and a stand-in query encoder.
 */
module AppleExamples {
  import opened Results
  import opened Text
  import opened PyValue
  import opened AppleAdapter
  import opened AppleCallback

  lemma JoinPair(a: string, b: string)
    ensures Join([a, b], ',') == a + [','] + b
  {
    assert [a, b][1..] == [b];
  }

  lemma JoinTriple(a: string, b: string, c: string)
    ensures Join([a, b, c], ',') == a + [','] + b + [','] + c
  {
    assert [a, b, c][1..] == [b, c];
    JoinPair(b, c);
  }

  lemma StripPair(a: string, b: string)
    ensures StripEach([a, b]) == [Strip(a), Strip(b)]
  {
  }

  /** Strings without whitespace are left alone. */
  lemma StripTripleNoSpace(a: string, b: string, c: string)
    requires NoSpace(a) && NoSpace(b) && NoSpace(c)
    ensures StripEach([a, b, c]) == [a, b, c]
  {
    var ss := [a, b, c];
    assert ss[0] == a && ss[1] == b && ss[2] == c;
    StripEachNoSpace(ss);
  }

  /** Two client ids separated by a comma and padded with whitespace parse
      into the two bare ids. */
  lemma AudiencePair(a: string, pad: string, b: string, pad': string)
    requires NoSpace(a) && NoSpace(b) && AllSpace(pad) && AllSpace(pad')
    requires ',' !in a && ',' !in b && ',' !in pad && ',' !in pad'
    ensures ParseAudiences(a + [','] + (pad + b + pad')) == [a, b]
  {
    JoinPair(a, pad + b + pad');
    ParseAudiencesOfJoin([a, pad + b + pad']);
    StripPair(a, pad + b + pad');
    StripNoSpace(a);
    StripPadded(pad, b, pad');
  }

  /** A two-client configuration parses into both client ids, trimmed. */
  lemma TwoAudiences()
    ensures ParseAudiences("id1, id2") == ["id1", "id2"]
  {
    TwoAudiencePieces();
    AudiencePair("id1", " ", "id2", "");
  }

  lemma TwoAudiencePieces()
    ensures "id1, id2" == "id1" + [','] + (" " + "id2" + "")
    ensures NoSpace("id1") && NoSpace("id2") && AllSpace(" ") && AllSpace("")
    ensures ',' !in "id1" && ',' !in "id2" && ',' !in " " && ',' !in ""
  {
  }

  /** Three comma-separated pieces without whitespace parse into themselves;
      in particular an empty middle piece is kept. */
  lemma AudienceTriple(a: string, b: string, c: string)
    requires NoSpace(a) && NoSpace(b) && NoSpace(c)
    requires ',' !in a && ',' !in b && ',' !in c
    ensures ParseAudiences(a + [','] + b + [','] + c) == [a, b, c]
  {
    JoinTriple(a, b, c);
    ParseAudiencesOfJoin([a, b, c]);
    StripTripleNoSpace(a, b, c);
  }

  /** Empty pieces survive. */
  lemma EmptyAudienceKept()
    ensures ParseAudiences("a,,b") == ["a", "", "b"]
  {
    EmptyAudiencePieces();
    AudienceTriple("a", "", "b");
  }

  lemma EmptyAudiencePieces()
    ensures "a,,b" == "a" + [','] + "" + [','] + "b"
    ensures NoSpace("a") && NoSpace("") && NoSpace("b")
    ensures ',' !in "a" && ',' !in "" && ',' !in "b"
  {
  }

  /** An empty client id is one empty audience. */
  lemma EmptyClientId()
    ensures ParseAudiences("") == [""]
  {
    StripNoSpace("");
  }

  /** A stand-in JWT library: the header of "T" names key "K1"; a key
      converts to itself; the decoder accepts "T" only under RS256 and only
      when "id2" is among the audiences. */
  function StandInJwt(): JwtLibrary<KeyRecord> {
    JwtLibrary(
      (t: Json) => if t == JStr("T") then Some(map["kid" := JStr("K1"), "alg" := JStr("RS256")]) else None,
      (rec: KeyRecord) => Some(rec),
      (t: Json, key: KeyRecord, algs: seq<string>, auds: seq<string>) =>
        if t == JStr("T") && algs == ["RS256"] && "id2" in auds then Some(AppleClaims()) else None)
  }

  function AppleClaims(): Claims {
    map["sub" := JStr("001"), "aud" := JStr("id2")]
  }

  function PublishedKeys(): seq<KeyRecord> {
    [map["kid" := JStr("K0")], map["kid" := JStr("K1"), "n" := JStr("modulus")]]
  }

  function EndpointResponse(expiresIn: Json): map<string, Json> {
    map["access_token" := JStr("A"), "id_token" := JStr("T"), "expires_in" := expiresIn]
  }

  /** The stand-in header names "K1", the second published record. */
  lemma StandInKey()
    ensures GetPublicKey(StandInJwt(), PublishedKeys(), JStr("T")) == Success(PublishedKeys()[1])
  {
    var keys := PublishedKeys();
    assert !HasKid(keys[0], JStr("K1")) && HasKid(keys[1], JStr("K1"));
    assert MatchingKeys(keys, JStr("K1")) == [keys[1]] by {
      assert keys[1..] == [keys[1]];
      assert keys[1..][1..] == [];
    }
  }

  /** Through the second audience the stand-in decoder accepts the token. */
  lemma StandInVerifies()
    ensures VerifyIdToken(StandInJwt(), PublishedKeys(), "id1, id2", JStr("T")) == Success(AppleClaims())
  {
    TwoAudiences();
    StandInKey();
  }

  /** A successful exchange: no refresh token gives an empty secret, a
      lifetime of 3600 gives an expiry 3600 seconds from now, and the claims
      are accepted through the second configured audience. */
  lemma SuccessfulExchange(now: int)
    ensures ParseToken(EndpointResponse(JInt(3600)), "id1, id2", PublishedKeys(), now, StandInJwt())
            == Success(SocialToken(JStr("A"), JStr(""), Some(now + 3600), AppleClaims()))
  {
    StandInVerifies();
    ResponseFields(JInt(3600));
    IntegerExpiry(EndpointResponse(JInt(3600)), now, 3600);
  }

  /** A nonzero integer lifetime is added to the current time. */
  lemma IntegerExpiry(data: map<string, Json>, now: int, seconds: int)
    requires ExpiresInKey in data && data[ExpiresInKey] == JInt(seconds) && seconds != 0
    ensures ExpiresAt(data, now) == Success(Some(now + seconds))
  {
  }

  /** A non-empty string lifetime that `int()` accepts is added to the
      current time. */
  lemma StringExpiry(data: map<string, Json>, now: int, text: string, seconds: int)
    requires ExpiresInKey in data && data[ExpiresInKey] == JStr(text)
    requires |text| > 0 && ParseInt(text) == Some(seconds)
    ensures ExpiresAt(data, now) == Success(Some(now + seconds))
  {
  }

  /** A false lifetime leaves the expiry unset. */
  lemma FalseLifetime(data: map<string, Json>, now: int)
    requires ExpiresInKey in data && !Truthy(data[ExpiresInKey])
    ensures ExpiresAt(data, now) == Success(None)
  {
  }

  lemma ResponseFields(expiresIn: Json)
    ensures "access_token" in EndpointResponse(expiresIn) && EndpointResponse(expiresIn)["access_token"] == JStr("A")
    ensures "id_token" in EndpointResponse(expiresIn) && EndpointResponse(expiresIn)["id_token"] == JStr("T")
    ensures "refresh_token" !in EndpointResponse(expiresIn)
    ensures ExpiresInKey in EndpointResponse(expiresIn) && EndpointResponse(expiresIn)[ExpiresInKey] == expiresIn
  {
  }

  /** A zero lifetime is false, so no expiry is set; the string "0" is true,
      so the expiry is now. */
  lemma ZeroLifetimes(now: int)
    ensures ParseToken(EndpointResponse(JInt(0)), "id1, id2", PublishedKeys(), now, StandInJwt())
            == Success(SocialToken(JStr("A"), JStr(""), None, AppleClaims()))
    ensures ParseToken(EndpointResponse(JStr("0")), "id1, id2", PublishedKeys(), now, StandInJwt())
            == Success(SocialToken(JStr("A"), JStr(""), Some(now), AppleClaims()))
  {
    StandInVerifies();
    ResponseFields(JInt(0));
    FalseLifetime(EndpointResponse(JInt(0)), now);
    ResponseFields(JStr("0"));
    ZeroStringIsTruthy();
    StringExpiry(EndpointResponse(JStr("0")), now, "0", 0);
  }

  /** The stand-in header's `kid` against a key set that lacks it. */
  lemma UnknownKid()
    ensures KidUnknown(StandInJwt(), [map["kid" := JStr("K0")]], JStr("T"))
  {
    var keys: seq<KeyRecord> := [map["kid" := JStr("K0")]];
    assert !HasKid(keys[0], JStr("K1"));
  }

  /** A key set without the header's `kid` is the index failure, not the
      invalid-token error. */
  lemma KeyNotFound(now: int, clientId: string)
    ensures ParseToken(EndpointResponse(JInt(3600)), clientId, [map["kid" := JStr("K0")]], now, StandInJwt())
            == Failure(NoMatchingKey)
  {
    ResponseFields(JInt(3600));
    UnknownKid();
  }

  /** A key record without any `kid` is a missing field, even when another
      record matches. */
  lemma RecordWithoutKid(now: int, clientId: string)
    ensures ParseToken(EndpointResponse(JInt(3600)), clientId, [PublishedKeys()[1], map["n" := JStr("x")]], now, StandInJwt())
            == Failure(MissingField("kid"))
  {
    ResponseFields(JInt(3600));
    var keys := [PublishedKeys()[1], map["n" := JStr("x")]];
    assert "kid" !in keys[1];
    assert SelectKey(keys, JStr("K1")) == Failure(MissingField("kid"));
  }

  /** A configuration with one client id parses into that id alone. */
  lemma SingleAudience(clientId: string)
    requires NoSpace(clientId) && ',' !in clientId
    ensures ParseAudiences(clientId) == [clientId]
  {
    assert Join([clientId], ',') == clientId;
    ParseAudiencesOfJoin([clientId]);
    StripSingle(clientId);
    StripNoSpace(clientId);
  }

  lemma StripSingle(s: string)
    ensures StripEach([s]) == [Strip(s)]
  {
  }

  lemma Id1Facts()
    ensures NoSpace("id1") && ',' !in "id1" && "id2" != "id1"
  {
  }

  /** With only "id1" configured the stand-in decoder rejects the token,
      which surfaces as the collapsed error. */
  lemma WrongAudience(now: int)
    ensures ParseToken(EndpointResponse(JInt(3600)), "id1", PublishedKeys(), now, StandInJwt()) == Failure(InvalidIdToken)
  {
    var clientId := "id1";
    Id1Facts();
    SingleAudience(clientId);
    StandInKey();
    ResponseFields(JInt(3600));
    assert "id2" !in ParseAudiences(clientId);
    assert VerifyIdToken(StandInJwt(), PublishedKeys(), clientId, JStr("T")) == Failure(InvalidIdToken);
  }

  /** A stand-in encoder that writes `key=value` pairs joined by `&`, without
      percent-encoding, and refuses a pair whose value is absent. */
  function PlainQuery(pairs: seq<(string, Option<string>)>): Option<string> {
    if |pairs| == 0 then Some("")
    else
      var (k, v) := pairs[0];
      if v.None? then None
      else
        var item := k + "=" + v.value;
        if |pairs| == 1 then Some(item)
        else
          match PlainQuery(pairs[1..])
          case None => None
          case Some(rest) => Some(item + "&" + rest)
  }

  lemma PlainQueryOfTwo(k1: string, v1: string, k2: string, v2: string)
    ensures PlainQuery([(k1, Some(v1)), (k2, Some(v2))]) == Some(k1 + "=" + v1 + "&" + k2 + "=" + v2)
  {
    var pairs := [(k1, Some(v1)), (k2, Some(v2))];
    assert pairs[1..] == [(k2, Some(v2))];
    assert PlainQuery(pairs[1..]) == Some(k2 + "=" + v2);
    assert (k1 + "=" + v1) + "&" + (k2 + "=" + v2) == k1 + "=" + v1 + "&" + k2 + "=" + v2;
  }

  lemma CallbackUrlFacts()
    ensures "https://example.com/cb" + "?" + ("code" + "=" + "abc" + "&" + "state" + "=" + "xyz")
            == "https://example.com/cb?code=abc&state=xyz"
  {
  }

  /** Apple's form POST of code "abc" and state "xyz" to `/cb` redirects to
      `/cb?code=abc&state=xyz`. */
  lemma CallbackPostBecomesRedirect(generic: Request -> int)
    ensures Dispatch(Request("POST", "https://example.com/cb", map["code" := ["abc"], "state" := ["xyz"]]), PlainQuery, generic)
            == Responds(Redirect("https://example.com/cb?code=abc&state=xyz"))
  {
    var req := Request("POST", "https://example.com/cb", map["code" := ["abc"], "state" := ["xyz"]]);
    assert FormGet(req.form, "code") == Some("abc");
    assert FormGet(req.form, "state") == Some("xyz");
    PlainQueryOfTwo("code", "abc", "state", "xyz");
    CallbackUrlFacts();
  }

  /** A POST carrying a code but no state makes the encoder refuse, so the
      view raises instead of redirecting. */
  lemma CallbackPostWithoutState(generic: Request -> int)
    ensures Dispatch(Request("POST", "https://example.com/cb", map["code" := ["abc"]]), PlainQuery, generic) == Raises
  {
    assert FormGet(map["code" := ["abc"]], "state") == None;
  }

  /** A GET with the same parameters is handed on unchanged; a PUT makes
      the view return `None`. */
  lemma CallbackOtherMethods(generic: Request -> int)
    ensures Dispatch(Request("GET", "https://example.com/cb?code=abc&state=xyz", map[]), PlainQuery, generic)
            == Responds(Delegated(generic(Request("GET", "https://example.com/cb?code=abc&state=xyz", map[]))))
    ensures Dispatch(Request("PUT", "https://example.com/cb", map[]), PlainQuery, generic) == ReturnsNone
  {
  }
}
