# Sign In with Apple adapter and callback view, in Dafny

This project models the Apple provider of django-allauth's social-account
layer (`allauth/socialaccount/providers/apple/views.py`): the part of the
OAuth2 login that is specific to Sign In with Apple.

- **Signing-key selection** (`get_public_key`). The `kid` is read from the
  identity token's unverified header (section 4.1.4 of RFC 7515). The first
  record of the published key set with that `kid` is chosen and converted to
  a public key.
- **Audience list** (`get_client_id`). The configured client id is split on
  `,` and each piece is stripped of surrounding whitespace.
- **Token assembly** (`parse_token`). The social token gets the access
  token, the refresh token (default `""`), and the claims returned by the
  verifying decoder. The decoder runs with RS256 as the only algorithm
  (section 3.3 of RFC 7518) and the full audience list. An absolute expiry
  is set only when `expires_in` is truthy. Every JWT-library failure becomes
  the single `Invalid id_token` error.
- **Completing the login** (`complete_login`). The verified claims are
  stored under `state["id_token"]`.
- **Callback normalisation** (`AppleOAuth2CallbackView.dispatch`). A POST
  becomes a redirect that carries `code` and `state` in the query string,
  unless the query-string encoder refuses them. A GET goes to the generic
  view. For any other method `dispatch` returns `None`.

Files:

- `results.dfy` (`Results`): `Option` and `Result`.
- `text.dfy` (`Text`): Python's `str.strip()` and `str.split(sep)`. Each has
  an independent characterisation and round-trip lemmas.
- `pyvalue.dfy` (`PyValue`): decoded JSON values, Python truthiness, and
  `int()`, with `int(str(n)) == n`.
- `apple_adapter.dfy` (`AppleAdapter`): the adapter.
- `apple_callback.dfy` (`AppleCallback`): the callback view.
- `apple_examples.dfy` (`AppleExamples`): worked cases on concrete inputs.
  They use a stand-in JWT library and a stand-in query encoder.

The JWT library is a parameter (`JwtLibrary`) with three partial functions:
the unverified-header reader, the JWK-to-key conversion, and the verifying
decoder `decode(idToken, key, algorithms, audiences)`. The published key
set, the configured client id and the current time are plain inputs. The
query encoder and the generic callback view are function parameters.

Python exceptions are modelled as `ParseError` values:

- `MissingField(name)` is a `KeyError` from indexing a dict. This covers
  `data["access_token"]`, `data["id_token"]`, `header["kid"]` and `d["kid"]`.
- `NoMatchingKey` is the `IndexError` from `[0]` on an empty list.
- `BadExpiresIn` is the `ValueError` or `TypeError` from `int(expires_in)`.
- `InvalidIdToken` is `OAuth2Error("Invalid id_token")`, raised for every
  JWT-library error.

Only the last is caught and converted by the adapter. The others escape
unconverted, and the model keeps them distinct.

Behaviour worth knowing:

- A token whose `kid` is absent from the key set does not fail as an
  invalid token. It raises the `IndexError` of `[0]` (`NoMatchingKey`).
- For a callback with a method other than GET or POST, `dispatch` falls
  off its end and returns `None`.
- A POST lacking `code` or `state` hands `None` to `urlencode`. The model
  keeps the encoder a parameter that may refuse its input; when it refuses,
  the view raises instead of redirecting.
- Because the list comprehension reads `d["kid"]` for every record, a key
  set with any record lacking `kid` raises `KeyError`. This happens even
  when another record matches.

## Model

| member | source | states |
|---|---|---|
| Text.Strip | allauth/socialaccount/providers/apple/views.py:47 | the stripped audience is a contiguous slice of the piece, with only whitespace (Python's `isspace` set) cut from each end and neither end of the result whitespace |
| Text.StripUnique | allauth/socialaccount/providers/apple/views.py:47 | any slice meeting that description is the strip, so the strip is determined by it alone |
| Text.StripIdempotent | allauth/socialaccount/providers/apple/views.py:47 | stripping an already stripped audience changes nothing |
| Text.StripEachNoSpace | allauth/socialaccount/providers/apple/views.py:47 | audiences without whitespace come out of the strip unchanged |
| Text.Split | allauth/socialaccount/providers/apple/views.py:47 | `split(",")` yields one more piece than there are commas, and no piece contains a comma |
| Text.JoinSplit | allauth/socialaccount/providers/apple/views.py:47 | rejoining the pieces with commas gives back the configured string: pieces are the comma-separated fragments in order, empty ones kept |
| Text.SplitJoin | allauth/socialaccount/providers/apple/views.py:47 | splitting comma-free pieces joined by commas gives back exactly those pieces |
| AppleAdapter.ParseAudiences | allauth/socialaccount/providers/apple/views.py:45-47 | the audience list has one entry per comma plus one, none containing a comma, each the strip of the matching fragment |
| AppleAdapter.ParseAudiencesOfJoin | allauth/socialaccount/providers/apple/views.py:47 | for any comma-free pieces, parsing their comma-join gives each piece stripped, in the same order, none dropped |
| AppleAdapter.MatchingKeys | allauth/socialaccount/providers/apple/views.py:35-39 | the filtered list holds only records with the requested `kid`, holds every such record, and starts with the earliest one |
| AppleAdapter.SelectKey | allauth/socialaccount/providers/apple/views.py:35-39 | success returns the first record whose `kid` equals the header's; a record without `kid` raises KeyError; no match is the IndexError, kept apart from the invalid-token error |
| AppleAdapter.FirstMatchUnique | allauth/socialaccount/providers/apple/views.py:35-39 | the first matching record is unique |
| AppleAdapter.GetPublicKey | allauth/socialaccount/providers/apple/views.py:30-43 | the key is the conversion of the first record carrying the header's `kid`, whenever such a key exists; an unreadable header or an unconvertible record is the invalid-token error; a missing `kid` is KeyError; an unknown `kid` is the IndexError |
| AppleAdapter.ExpiresAt | allauth/socialaccount/providers/apple/views.py:65-69 | the expiry is unset exactly when `expires_in` is absent or false; otherwise it lies `int(expires_in)` seconds after now; a true value `int()` rejects raises |
| PyValue.DigitsRoundTrip | allauth/socialaccount/providers/apple/views.py:68 | reading back the decimal spelling of a natural number gives the number |
| PyValue.ParseFormatRoundTrip | allauth/socialaccount/providers/apple/views.py:68 | `int()` of the decimal spelling of any integer, with or without surrounding whitespace other than U+001C to U+001F, is that integer |
| PyValue.ParseSignedSpelling | allauth/socialaccount/providers/apple/views.py:68 | after stripping, `int()` accepts exactly an optional sign followed by one or more decimal digits, giving their signed value |
| PyValue.ParseIntSpelling | allauth/socialaccount/providers/apple/views.py:68 | `int(s)` gives `n` exactly when `s` holds none of the information separators U+001C to U+001F and the strip of `s` spells `n`: it accepts nothing else and rejects nothing of that form |
| PyValue.ParseIntRejects | allauth/socialaccount/providers/apple/views.py:68 | `int()` rejects "1.5", "", "- 5", and "5" preceded by U+001C, which `str.isspace` counts as whitespace but `int()` does not skip |
| PyValue.RejectsInnerNonDigit | allauth/socialaccount/providers/apple/views.py:68 | a string with non-space ends and a non-digit after its first character is rejected |
| PyValue.ToIntSpelling | allauth/socialaccount/providers/apple/views.py:68 | `int(v)` gives `n` exactly for a bool equal to `n`, the integer `n`, or a string without information separators whose strip spells `n`; `None`, lists and dicts raise |
| PyValue.FalsyValues | allauth/socialaccount/providers/apple/views.py:66 | the values `if expires_in:` treats as false are exactly `None`, `False`, `0`, `""` and the empty list and dict |
| PyValue.ZeroStringIsTruthy | allauth/socialaccount/providers/apple/views.py:66-68 | the string "0" passes the truthiness test yet converts to 0 |
| AppleAdapter.VerifyIdToken | allauth/socialaccount/providers/apple/views.py:54-64 | claims come only from the decoder, called with the header's signing key, RS256 alone and the whole audience list; for that key the outcome is the decoder's; the invalid-token error arises exactly from an unreadable header, an unconvertible record or a decoder rejection; a missing `kid` is KeyError and an unknown one the IndexError |
| AppleAdapter.ParseToken | allauth/socialaccount/providers/apple/views.py:49-72 | a returned token carries the access token, the refresh token or `""`, verified claims only, and the expiry rule; whenever the decoder accepts under the signing key a token with those claims is returned, unless `expires_in` is truthy and `int()` rejects it, which raises; missing `access_token` or `id_token` raise KeyError in that order; a missing `kid` is KeyError and an unknown one the IndexError, neither converted; the invalid-token error arises exactly from JWT-library failures |
| AppleAdapter.RejectedIdTokenIsInvalid | allauth/socialaccount/providers/apple/views.py:58-72 | when the decoder rejects the token under the right key, the result is the invalid-token error and no token |
| AppleAdapter.CompleteLogin | allauth/socialaccount/providers/apple/views.py:74-80 | the login is the provider's login for the token's claims, with `state["id_token"]` set to those claims and every other state entry unchanged |
| AppleAdapter.LoginCarriesVerifiedClaims | allauth/socialaccount/providers/apple/views.py:49-80 | a login completed from a parsed token holds, under `state["id_token"]`, claims the decoder verified |
| AppleCallback.FormGet | allauth/socialaccount/providers/apple/views.py:119-120 | a form value is present exactly when the key was submitted with at least one value, and is the last of those values |
| AppleCallback.Dispatch | allauth/socialaccount/providers/apple/views.py:115-124 | `None` is returned exactly for methods other than POST and GET; a POST raises exactly when the encoder refuses `code` and `state`, and otherwise redirects to the request URL, then `?`, then their encoding; GET returns the generic view's response to the same request |
| AppleCallback.PostWithoutCodeOrStateRaises | allauth/socialaccount/providers/apple/views.py:116-122 | with an encoder that refuses absent values, a POST lacking `code` or `state` raises rather than redirecting |
| AppleCallback.RedirectDependsOnlyOnCodeAndState | allauth/socialaccount/providers/apple/views.py:116-122 | two POSTs to the same URL with the same `code` and `state` redirect alike, whatever else the form holds |
| AppleCallback.RedirectCarriesCodeThenState | allauth/socialaccount/providers/apple/views.py:118-121 | the encoder receives exactly `code` then `state`, with the submitted values |
| AppleExamples.TwoAudiences | allauth/socialaccount/providers/apple/views.py:47 | `"id1, id2"` parses into `["id1", "id2"]` |
| AppleExamples.EmptyAudienceKept | allauth/socialaccount/providers/apple/views.py:47 | `"a,,b"` parses into `["a", "", "b"]`: the empty piece is kept |
| AppleExamples.EmptyClientId | allauth/socialaccount/providers/apple/views.py:47 | an empty client id is one empty audience |
| AppleExamples.SuccessfulExchange | allauth/socialaccount/providers/apple/views.py:49-70 | a response with access token, id token and `expires_in` 3600 gives an empty secret, expiry now + 3600, and claims accepted through the second audience |
| AppleExamples.ZeroLifetimes | allauth/socialaccount/providers/apple/views.py:65-69 | `expires_in` 0 leaves the expiry unset; `expires_in` "0" sets it to now |
| AppleExamples.KeyNotFound | allauth/socialaccount/providers/apple/views.py:35-39 | a key set without the header's `kid` gives the IndexError outcome |
| AppleExamples.RecordWithoutKid | allauth/socialaccount/providers/apple/views.py:35-38 | a record lacking `kid` gives KeyError even though another record matches |
| AppleExamples.WrongAudience | allauth/socialaccount/providers/apple/views.py:56-72 | a decoder rejecting the configured audience surfaces as the invalid-token error |
| AppleExamples.CallbackPostBecomesRedirect | allauth/socialaccount/providers/apple/views.py:116-122 | a POST of code "abc" and state "xyz" to `/cb` redirects to `/cb?code=abc&state=xyz` |
| AppleExamples.CallbackPostWithoutState | allauth/socialaccount/providers/apple/views.py:116-122 | a POST carrying `code` but no `state` raises under an encoder that refuses absent values |
| AppleExamples.CallbackOtherMethods | allauth/socialaccount/providers/apple/views.py:115-124 | a GET is handed on unchanged, and for a PUT `dispatch` returns `None` |

## Left out

- The HTTP fetch of the key set (`requests.get(...).json()["keys"]`, line 37). This is network I/O, so the key set is an input sequence. A failed fetch or a missing `keys` field is not modelled.
- `jwt.get_unverified_header`, `RSAAlgorithm.from_jwk` and `jwt.decode`. They are cryptography in an external library, so they are the partial functions of `JwtLibrary`. The model folds every `from_jwk` failure into a JWT-library error, which becomes the invalid-token error. In the program some conversion failures are not JWT-library errors and would escape unconverted: for example, a malformed `n` or `e` can raise `ValueError` or `TypeError`.
- The `SocialApp.objects.get` lookup (line 46). This is persistence, so the raw client id is an input. A missing app is not modelled.
- `AppleOAuth2ClientMixin`, `AppleOAuth2LoginView` and the client they build (lines 83-105). They wrap a client class that is not part of this model.
- `sociallogin_from_response`, the generic callback view's `dispatch`, `adapter_view` and `csrf_exempt` (lines 76-78, 124, 127-130). This is framework plumbing, so the first two are function parameters.
- Percent-encoding in `urlencode`, and the URL reconstruction by `build_absolute_uri(get_full_path())`. The encoder is a partial-function parameter and the absolute URL is a field of the request. Whether `urlencode` refuses a `None` value depends on the Django version (recent versions raise `TypeError`). The model leaves that to the encoder, and the worked examples use one that refuses.
- What the framework does with the `None` that `dispatch` returns for methods other than GET and POST. Django rejects a view that returns `None` with a `ValueError`, but that happens outside this view.
- `timezone.now()` and `timedelta`. The current time is an integer count of seconds passed in. `timedelta` overflow for huge lifetimes is not modelled.
- PyValue.ParseInt: Python's `int()` of a string also accepts underscores between digits and non-ASCII decimal digits. Those spellings are treated as rejected here. CPython 3.11 and later (and the 3.7.14, 3.8.14, 3.9.14 and 3.10.7 security releases) also rejects, by default, strings of more than 4300 digits. That limit can be changed at run time; the model has no length limit. The lemmas about `ParseInt` (`ParseSignedSpelling`, `ParseIntSpelling`, `ParseFormatRoundTrip`, `ToIntSpelling`) hold for this unlimited `int()`. For `expires_in` the difference lies within the `timedelta` overflow that is also left out.
- JSON floating-point numbers are not modelled. Python's `int()` would truncate them.
- AppleAdapter.SelectKey: the `kid` comparison at line 38 uses structural equality of decoded JSON values, so Python's cross-type equality between bools and integers (`True == 1`, also inside lists and dicts) is not reproduced. A header `kid` of `true` does not match a record `kid` of `1` here, though Python matches them. A `kid` is a string (section 4.1.4 of RFC 7515), for which the two equalities agree.
- AppleAdapter.MatchingKeys: the contract fixes which records the filtered list contains and which comes first, but not the order or multiplicity of the later ones. Only the first is ever used.
