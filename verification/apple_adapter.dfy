/**
 * The Sign In with Apple adapter: choosing the signing key named by the
 * identity token's `kid` header (section 4.1.4 of RFC 7515), reading the
 * configured audiences, assembling the social token from the token
 * endpoint's response, and copying the verified claims into the login.
 *
 * The JWT library is a parameter: its unverified-header reader, its
 * JWK-to-key conversion and its verifying decoder are partial functions the
 * model knows nothing about beyond their signatures.
 */
module AppleAdapter {
  import opened Results
  import opened Text
  import opened PyValue

  /** The response field carrying the token lifetime in seconds, as named by
      the generic OAuth2 adapter. */
  const ExpiresInKey: string := "expires_in"

  /** The only signature algorithm the decoder may accept: RSASSA-PKCS1-v1_5
      with SHA-256 (section 3.3 of RFC 7518). */
  const AllowedAlgorithms: seq<string> := ["RS256"]

  /** A decoded JSON object: a token header, a claim set, or one published
      JSON Web Key. */
  type Claims = map<string, Json>
  type KeyRecord = map<string, Json>

  /** What `parse_token` can raise. Only `InvalidIdToken` is the adapter's
      own error; the others escape from Python operations unconverted. */
  datatype ParseError =
    | MissingField(name: string)  // KeyError from indexing a dict
    | NoMatchingKey               // IndexError from `[0]` on an empty list
    | BadExpiresIn                // ValueError or TypeError from `int()`
    | InvalidIdToken              // OAuth2Error("Invalid id_token"), from any JWT-library error

  /** The JWT library calls, each of which either returns or raises a
      library error (`None`). */
  datatype JwtLibrary<!K> = JwtLibrary(
    unverifiedHeader: Json -> Option<Claims>,
    fromJwk: KeyRecord -> Option<K>,
    decode: (Json, K, seq<string>, seq<string>) -> Option<Claims>)

  /** The token record `parse_token` builds. A fresh record has no expiry. */
  datatype SocialToken = SocialToken(
    token: Json,
    tokenSecret: Json,
    expiresAt: Option<int>,
    userData: Claims)

  /** A social login as far as this adapter touches it: its `state` dict,
      and everything else the provider builds from the claims. */
  datatype SocialLogin<A> = SocialLogin(account: A, state: map<string, Json>)

  // ---------------------------------------------------------------------
  // Signing-key selection

  predicate HasKid(rec: KeyRecord, kid: Json) {
    "kid" in rec && rec["kid"] == kid
  }

  ghost predicate AllHaveKid(keys: seq<KeyRecord>) {
    forall k :: 0 <= k < |keys| ==> "kid" in keys[k]
  }

  /** Record `i` is the earliest one in the key set whose `kid` is `kid`. */
  ghost predicate IsFirstMatch(keys: seq<KeyRecord>, kid: Json, i: int) {
    && 0 <= i < |keys|
    && HasKid(keys[i], kid)
    && forall j :: 0 <= j < i ==> !HasKid(keys[j], kid)
  }

  /** The list comprehension keeping the records whose `kid` equals `kid`,
      in key-set order. */
  function MatchingKeys(keys: seq<KeyRecord>, kid: Json): (r: seq<KeyRecord>)
    ensures forall k :: 0 <= k < |r| ==> r[k] in keys && HasKid(r[k], kid)
    ensures forall k :: 0 <= k < |keys| && HasKid(keys[k], kid) ==> keys[k] in r
    ensures |r| > 0 ==> exists i :: IsFirstMatch(keys, kid, i) && keys[i] == r[0]
  {
    if |keys| == 0 then []
    else
      var rest := MatchingKeys(keys[1..], kid);
      assert forall k :: 0 < k < |keys| ==> keys[k] == keys[1..][k - 1];
      if HasKid(keys[0], kid) then
        assert IsFirstMatch(keys, kid, 0);
        [keys[0]] + rest
      else
        assert |rest| > 0 ==> exists i :: IsFirstMatch(keys, kid, i) && keys[i] == rest[0] by {
          if |rest| > 0 {
            var i' :| IsFirstMatch(keys[1..], kid, i') && keys[1..][i'] == rest[0];
            assert IsFirstMatch(keys, kid, i' + 1);
          }
        }
        rest
  }

  /** The record `get_public_key` selects: every record's `kid` is read, so a
      record without one raises before any match is taken; then the first
      record whose `kid` is the requested one, and `[0]` on an empty list
      when there is none. */
  function SelectKey(keys: seq<KeyRecord>, kid: Json): (r: Result<KeyRecord, ParseError>)
    ensures r.Success? ==> AllHaveKid(keys)
    ensures r.Success? ==> exists i :: IsFirstMatch(keys, kid, i) && keys[i] == r.value
    ensures r == Failure(MissingField("kid")) <==> !AllHaveKid(keys)
    ensures r == Failure(NoMatchingKey) <==>
              AllHaveKid(keys) && forall k :: 0 <= k < |keys| ==> !HasKid(keys[k], kid)
    ensures r.Failure? ==> r.error == NoMatchingKey || r.error == MissingField("kid")
  {
    if exists k :: 0 <= k < |keys| && "kid" !in keys[k] then Failure(MissingField("kid"))
    else
      var matches := MatchingKeys(keys, kid);
      if |matches| == 0 then Failure(NoMatchingKey) else Success(matches[0])
  }

  /** `key` is the conversion of the first published record whose `kid` is
      the one in the token's unverified header. */
  ghost predicate IsSigningKey<K>(jwt: JwtLibrary<K>, keys: seq<KeyRecord>, idToken: Json, key: K) {
    && jwt.unverifiedHeader(idToken).Some?
    && "kid" in jwt.unverifiedHeader(idToken).value
    && AllHaveKid(keys)
    && exists i :: IsFirstMatch(keys, jwt.unverifiedHeader(idToken).value["kid"], i)
                && jwt.fromJwk(keys[i]) == Some(key)
  }

  /** The token's header names a `kid` that no published record carries. */
  ghost predicate KidUnknown<K>(jwt: JwtLibrary<K>, keys: seq<KeyRecord>, idToken: Json) {
    && jwt.unverifiedHeader(idToken).Some?
    && "kid" in jwt.unverifiedHeader(idToken).value
    && AllHaveKid(keys)
    && forall k :: 0 <= k < |keys| ==> !HasKid(keys[k], jwt.unverifiedHeader(idToken).value["kid"])
  }

  /** The header reads, but it has no `kid`, or some published record has
      none. */
  ghost predicate KidMissing<K>(jwt: JwtLibrary<K>, keys: seq<KeyRecord>, idToken: Json) {
    && jwt.unverifiedHeader(idToken).Some?
    && ("kid" !in jwt.unverifiedHeader(idToken).value || !AllHaveKid(keys))
  }

  /** The record the header names is found, but the library cannot turn it
      into a key. */
  ghost predicate ConversionFails<K>(jwt: JwtLibrary<K>, keys: seq<KeyRecord>, idToken: Json) {
    && jwt.unverifiedHeader(idToken).Some?
    && "kid" in jwt.unverifiedHeader(idToken).value
    && AllHaveKid(keys)
    && exists i :: IsFirstMatch(keys, jwt.unverifiedHeader(idToken).value["kid"], i)
                && jwt.fromJwk(keys[i]).None?
  }

  /** There is only one first match. */
  lemma FirstMatchUnique(keys: seq<KeyRecord>, kid: Json, i: int, j: int)
    requires IsFirstMatch(keys, kid, i) && IsFirstMatch(keys, kid, j)
    ensures i == j
  {
  }

  /** `get_public_key`: read the header without verifying it, select the
      record by `kid`, convert it to a public key. Every library failure on
      the way is the one `InvalidIdToken`. */
  function GetPublicKey<K(!new)>(jwt: JwtLibrary<K>, keys: seq<KeyRecord>, idToken: Json): (r: Result<K, ParseError>)
    ensures r.Success? ==> IsSigningKey(jwt, keys, idToken, r.value)
    ensures forall key :: IsSigningKey(jwt, keys, idToken, key) ==> r == Success(key)
    ensures r == Failure(InvalidIdToken) <==>
              jwt.unverifiedHeader(idToken).None? || ConversionFails(jwt, keys, idToken)
    ensures r == Failure(MissingField("kid")) <==> KidMissing(jwt, keys, idToken)
    ensures r == Failure(NoMatchingKey) <==> KidUnknown(jwt, keys, idToken)
    ensures r.Failure? ==> r.error in {InvalidIdToken, NoMatchingKey, MissingField("kid")}
  {
    match jwt.unverifiedHeader(idToken)
    case None => Failure(InvalidIdToken)
    case Some(header) =>
      if "kid" !in header then Failure(MissingField("kid"))
      else
        var selected := SelectKey(keys, header["kid"]);
        assert forall i, j :: IsFirstMatch(keys, header["kid"], i) && IsFirstMatch(keys, header["kid"], j) ==> i == j by {
          forall i, j | IsFirstMatch(keys, header["kid"], i) && IsFirstMatch(keys, header["kid"], j) ensures i == j {
            FirstMatchUnique(keys, header["kid"], i, j);
          }
        }
        match selected
        case Failure(e) => Failure(e)
        case Success(rec) =>
          match jwt.fromJwk(rec)
          case None => Failure(InvalidIdToken)
          case Some(key) => Success(key)
  }

  // ---------------------------------------------------------------------
  // Audiences

  /** `get_client_id`: the comma-separated pieces of the configured client
      id, in order, each with surrounding whitespace stripped. Empty pieces
      are kept. */
  function ParseAudiences(clientId: string): (auds: seq<string>)
    ensures |auds| == multiset(clientId)[','] + 1
    ensures forall k :: 0 <= k < |auds| ==> ',' !in auds[k]
    ensures forall k :: 0 <= k < |auds| ==> IsStripOf(Split(clientId, ',')[k], auds[k])
  {
    StripEach(Split(clientId, ','))
  }

  /** Audience parsing read against an arbitrary list of comma-free pieces:
      joining them with commas and parsing gives each piece stripped, in the
      same order, none dropped. */
  lemma {:induction false} ParseAudiencesOfJoin(pieces: seq<string>)
    requires |pieces| > 0
    requires forall k :: 0 <= k < |pieces| ==> ',' !in pieces[k]
    ensures ParseAudiences(Join(pieces, ',')) == StripEach(pieces)
  {
    SplitJoin(pieces, ',');
  }

  // ---------------------------------------------------------------------
  // Expiry

  /** `expiry` is what the token's expiry must be: absent unless the
      response carries a truthy `expires_in`, and otherwise `now` plus the
      integer that value converts to. */
  ghost predicate ExpiryAgrees(data: map<string, Json>, now: int, expiry: Option<int>) {
    && (expiry.None? <==> ExpiresInKey !in data || !Truthy(data[ExpiresInKey]))
    && (expiry.Some? ==> ExpiresInKey in data && ToInt(data[ExpiresInKey]) == Some(expiry.value - now))
  }

  /** The absolute expiry: set to `now + int(expires_in)` only when the
      response carries a truthy `expires_in`; otherwise the token keeps no
      expiry. A truthy value `int()` rejects raises. */
  function ExpiresAt(data: map<string, Json>, now: int): (r: Result<Option<int>, ParseError>)
    ensures r.Success? ==> ExpiryAgrees(data, now, r.value)
    ensures r.Failure? <==>
              ExpiresInKey in data && Truthy(data[ExpiresInKey]) && ToInt(data[ExpiresInKey]).None?
    ensures r.Failure? ==> r.error == BadExpiresIn
  {
    if ExpiresInKey in data && Truthy(data[ExpiresInKey]) then
      match ToInt(data[ExpiresInKey])
      case None => Failure(BadExpiresIn)
      case Some(seconds) => Success(Some(now + seconds))
    else Success(None)
  }

  // ---------------------------------------------------------------------
  // Token assembly

  /** `claims` is what the decoder returned for this id token, checked
      against the signing key the header names, with RS256 as the only
      algorithm and the whole parsed audience list. */
  ghost predicate Verified<K(!new)>(jwt: JwtLibrary<K>, keys: seq<KeyRecord>, clientId: string, idToken: Json, claims: Claims) {
    exists key :: IsSigningKey(jwt, keys, idToken, key)
               && jwt.decode(idToken, key, AllowedAlgorithms, ParseAudiences(clientId)) == Some(claims)
  }

  /** The decoder, run under the signing key the header names, rejects the
      id token. */
  ghost predicate DecoderRejects<K(!new)>(jwt: JwtLibrary<K>, keys: seq<KeyRecord>, clientId: string, idToken: Json) {
    exists key :: IsSigningKey(jwt, keys, idToken, key)
               && jwt.decode(idToken, key, AllowedAlgorithms, ParseAudiences(clientId)).None?
  }

  /** The verifying half of `parse_token`: find the signing key, then
      decode the id token with RS256 as the only algorithm and the whole
      parsed audience list. A decoder failure becomes `InvalidIdToken`. */
  function VerifyIdToken<K(!new)>(jwt: JwtLibrary<K>, keys: seq<KeyRecord>, clientId: string, idToken: Json)
    : (r: Result<Claims, ParseError>)
    ensures r.Success? ==> Verified(jwt, keys, clientId, idToken, r.value)
    ensures forall key :: IsSigningKey(jwt, keys, idToken, key) ==>
              r == (match jwt.decode(idToken, key, AllowedAlgorithms, ParseAudiences(clientId))
                    case None => Failure(InvalidIdToken)
                    case Some(claims) => Success(claims))
    ensures r == Failure(NoMatchingKey) <==> KidUnknown(jwt, keys, idToken)
    ensures r == Failure(MissingField("kid")) <==> KidMissing(jwt, keys, idToken)
    ensures r == Failure(InvalidIdToken) <==>
              || jwt.unverifiedHeader(idToken).None?
              || ConversionFails(jwt, keys, idToken)
              || DecoderRejects(jwt, keys, clientId, idToken)
    ensures r.Failure? ==> r.error in {InvalidIdToken, NoMatchingKey, MissingField("kid")}
  {
    match GetPublicKey(jwt, keys, idToken)
    case Failure(e) => Failure(e)
    case Success(key) =>
      match jwt.decode(idToken, key, AllowedAlgorithms, ParseAudiences(clientId))
      case None => Failure(InvalidIdToken)
      case Some(claims) => Success(claims)
  }

  /** `parse_token`: `data` is the token endpoint's decoded response,
      `clientId` the configured client id, `keys` the published key set and
      `now` the current time in seconds. */
  function ParseToken<K(!new)>(data: map<string, Json>, clientId: string, keys: seq<KeyRecord>, now: int, jwt: JwtLibrary<K>)
    : (r: Result<SocialToken, ParseError>)
    ensures r.Success? ==> "access_token" in data && r.value.token == data["access_token"]
    ensures r.Success? ==>
              r.value.tokenSecret == (if "refresh_token" in data then data["refresh_token"] else JStr(""))
    ensures r.Success? ==> "id_token" in data && Verified(jwt, keys, clientId, data["id_token"], r.value.userData)
    ensures r.Success? ==> ExpiryAgrees(data, now, r.value.expiresAt)
    ensures "access_token" !in data ==> r == Failure(MissingField("access_token"))
    ensures "access_token" in data && "id_token" !in data ==> r == Failure(MissingField("id_token"))
    ensures r == Failure(NoMatchingKey) <==>
              "access_token" in data && "id_token" in data && KidUnknown(jwt, keys, data["id_token"])
    ensures r == Failure(MissingField("kid")) <==>
              "access_token" in data && "id_token" in data && KidMissing(jwt, keys, data["id_token"])
    ensures r == Failure(InvalidIdToken) <==>
              && "access_token" in data && "id_token" in data
              && (|| jwt.unverifiedHeader(data["id_token"]).None?
                  || ConversionFails(jwt, keys, data["id_token"])
                  || DecoderRejects(jwt, keys, clientId, data["id_token"]))
    ensures "access_token" in data && "id_token" in data ==>
              forall key :: IsSigningKey(jwt, keys, data["id_token"], key) ==>
                var decoded := jwt.decode(data["id_token"], key, AllowedAlgorithms, ParseAudiences(clientId));
                decoded.Some? ==>
                  && (ExpiresAt(data, now).Success? ==> r.Success? && r.value.userData == decoded.value)
                  && (ExpiresAt(data, now).Failure? ==> r == Failure(BadExpiresIn))
    ensures r.Failure? ==>
              r.error in {MissingField("access_token"), MissingField("id_token"), MissingField("kid"),
                          NoMatchingKey, InvalidIdToken, BadExpiresIn}
  {
    if "access_token" !in data then Failure(MissingField("access_token"))
    else
      var secret := if "refresh_token" in data then data["refresh_token"] else JStr("");
      if "id_token" !in data then Failure(MissingField("id_token"))
      else
        match VerifyIdToken(jwt, keys, clientId, data["id_token"])
        case Failure(e) => Failure(e)
        case Success(claims) =>
          match ExpiresAt(data, now)
          case Failure(e) => Failure(e)
          case Success(expiry) => Success(SocialToken(data["access_token"], secret, expiry, claims))
  }

  /** Whatever the decoder rejects is reported as the one collapsed error,
      never as a token and never as a key-selection failure. */
  lemma RejectedIdTokenIsInvalid<K(!new)>(
    data: map<string, Json>, clientId: string, keys: seq<KeyRecord>, now: int, jwt: JwtLibrary<K>, key: K)
    requires "access_token" in data && "id_token" in data
    requires IsSigningKey(jwt, keys, data["id_token"], key)
    requires jwt.decode(data["id_token"], key, AllowedAlgorithms, ParseAudiences(clientId)).None?
    ensures ParseToken(data, clientId, keys, now, jwt) == Failure(InvalidIdToken)
  {
  }

  // ---------------------------------------------------------------------
  // Completing the login

  /** `complete_login`: the provider builds the login from the verified
      claims, and the claims are also kept under `state["id_token"]`. */
  function CompleteLogin<A>(token: SocialToken, fromResponse: Claims -> SocialLogin<A>): (login: SocialLogin<A>)
    ensures "id_token" in login.state && login.state["id_token"] == JObject(token.userData)
    ensures login.account == fromResponse(token.userData).account
    ensures login.state - {"id_token"} == fromResponse(token.userData).state - {"id_token"}
  {
    var built := fromResponse(token.userData);
    built.(state := built.state["id_token" := JObject(token.userData)])
  }

  /** End to end: a login completed from a parsed token carries, under
      `state["id_token"]`, exactly claims the decoder verified. */
  lemma LoginCarriesVerifiedClaims<K(!new), A>(
    data: map<string, Json>, clientId: string, keys: seq<KeyRecord>, now: int,
    jwt: JwtLibrary<K>, fromResponse: Claims -> SocialLogin<A>)
    requires ParseToken(data, clientId, keys, now, jwt).Success?
    ensures "id_token" in data
    ensures var login := CompleteLogin(ParseToken(data, clientId, keys, now, jwt).value, fromResponse);
            && "id_token" in login.state
            && login.state["id_token"].JObject?
            && Verified(jwt, keys, clientId, data["id_token"], login.state["id_token"].fields)
  {
  }
}
