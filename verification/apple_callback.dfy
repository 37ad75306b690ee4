/**
 * The Sign In with Apple callback view. Apple delivers the authorization
 * response as a form POST; the view turns it into a redirect to the same URL
 * with `code` and `state` in the query string, so that the generic OAuth2
 * callback (reached through GET) sees the usual shape.
 */
module AppleCallback {
  import opened Results

  /** An inbound callback: the HTTP method as the framework reports it, the
      absolute URL of the request's full path, and the POST form, each key
      holding the list of values submitted for it. */
  datatype Request = Request(httpMethod: string, absoluteFullUrl: string, form: map<string, seq<string>>)

  /** A response the view can produce: a redirect, or whatever the generic
      callback view returned. */
  datatype Response<R> = Redirect(location: string) | Delegated(response: R)

  /** What a call of `dispatch` amounts to: it returns a response, it
      returns `None`, or the query-string encoder raises. */
  datatype Outcome<R> = Responds(response: Response<R>) | ReturnsNone | Raises

  /** The query-string encoder, applied to the ordered (key, value) pairs;
      an absent value is passed as `None`. The encoder may refuse its input
      (`None`), as Django's `urlencode` does for a `None` value. */
  type Encoder = seq<(string, Option<string>)> -> Option<string>

  /** The form's `get(key)`: the last value submitted for `key`, absent when
      the key is missing or has no values. */
  function FormGet(form: map<string, seq<string>>, key: string): (v: Option<string>)
    ensures v.Some? <==> key in form && |form[key]| > 0
    ensures v.Some? ==> v.value in form[key]
    ensures v.Some? ==> v.value == form[key][|form[key]| - 1]
  {
    if key in form && |form[key]| > 0 then Some(form[key][|form[key]| - 1]) else None
  }

  /** The pairs the redirect carries: `code`, then `state`. */
  function CallbackPairs(form: map<string, seq<string>>): seq<(string, Option<string>)> {
    [("code", FormGet(form, "code")), ("state", FormGet(form, "state"))]
  }

  /** `dispatch`: a POST becomes a redirect to the request's own URL followed
      by `?` and the encoded `code` and `state`, unless the encoder refuses
      them; a GET goes to the generic callback view; for any other method
      the view falls off its end and returns `None`. */
  function Dispatch<R>(req: Request, urlencode: Encoder, generic: Request -> R): (r: Outcome<R>)
    ensures r.ReturnsNone? <==> req.httpMethod != "POST" && req.httpMethod != "GET"
    ensures r.Raises? <==> req.httpMethod == "POST" && urlencode(CallbackPairs(req.form)).None?
    ensures req.httpMethod == "GET" ==> r == Responds(Delegated(generic(req)))
    ensures req.httpMethod == "POST" && urlencode(CallbackPairs(req.form)).Some? ==>
              && r.Responds? && r.response.Redirect?
              && var loc, url := r.response.location, req.absoluteFullUrl;
                 && |loc| > |url|
                 && loc[..|url|] == url
                 && loc[|url|] == '?'
                 && loc[|url| + 1..] == urlencode(CallbackPairs(req.form)).value
  {
    if req.httpMethod == "POST" then
      match urlencode(CallbackPairs(req.form))
      case None => Raises
      case Some(query) =>
        var url := req.absoluteFullUrl;
        var loc := url + "?" + query;
        assert loc[..|url|] == url && loc[|url| + 1..] == query;
        Responds(Redirect(loc))
    else if req.httpMethod == "GET" then Responds(Delegated(generic(req)))
    else ReturnsNone
  }

  /** The encoder refuses every list of pairs in which some value is
      absent. */
  ghost predicate RefusesAbsentValues(urlencode: Encoder) {
    forall pairs: seq<(string, Option<string>)> ::
      (exists k :: 0 <= k < |pairs| && pairs[k].1.None?) ==> urlencode(pairs).None?
  }

  /** With an encoder that refuses absent values, a POST lacking `code` or
      `state` raises instead of redirecting. */
  lemma PostWithoutCodeOrStateRaises<R>(req: Request, urlencode: Encoder, generic: Request -> R)
    requires req.httpMethod == "POST" && RefusesAbsentValues(urlencode)
    requires FormGet(req.form, "code").None? || FormGet(req.form, "state").None?
    ensures Dispatch(req, urlencode, generic) == Raises
  {
    var pairs := CallbackPairs(req.form);
    if FormGet(req.form, "code").None? {
      assert pairs[0].1.None?;
    } else {
      assert pairs[1].1.None?;
    }
  }

  /** The redirect depends on the POST only through its URL and the last
      `code` and `state` values: other form fields are dropped. */
  lemma RedirectDependsOnlyOnCodeAndState<R>(a: Request, b: Request, urlencode: Encoder, generic: Request -> R)
    requires a.httpMethod == "POST" && b.httpMethod == "POST"
    requires a.absoluteFullUrl == b.absoluteFullUrl
    requires FormGet(a.form, "code") == FormGet(b.form, "code")
    requires FormGet(a.form, "state") == FormGet(b.form, "state")
    ensures Dispatch(a, urlencode, generic) == Dispatch(b, urlencode, generic)
  {
  }

  /** The encoder receives exactly the two keys, `code` first, with the
      submitted values. */
  lemma RedirectCarriesCodeThenState(form: map<string, seq<string>>, code: string, state: string)
    requires "code" in form && |form["code"]| > 0 && form["code"][|form["code"]| - 1] == code
    requires "state" in form && |form["state"]| > 0 && form["state"][|form["state"]| - 1] == state
    ensures CallbackPairs(form) == [("code", Some(code)), ("state", Some(state))]
  {
  }
}
