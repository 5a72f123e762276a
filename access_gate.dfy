/** The access-token middleware that runs before every request: pages are
    opened with `?token=…`, API calls carry an `X-Access-Token` header, and
    both are checked against the `ACCESS_TOKEN` setting when it is set. */
module AccessGate {
  import opened Options
  import opened Json
  import JsonRoundTrip

  /** What the middleware does with a request. */
  datatype Decision =
    | Next                    // hand the request on unchanged (`next()`)
    | PageDenied              // 401 with the HTML "access restricted" page
    | ApiDenied(body: string) // 401 with a JSON error body

  const UnauthorizedCode := "UNAUTHORIZED"
  const UnauthorizedMessage := "无效的访问令牌"

  /** `{"success":false,"error":{"code":"UNAUTHORIZED","message":…}}`. */
  function DeniedJson(): Json
  {
    JObj([Member("success", JBool(false)),
          Member("error", JObj([Member("code", JStr(UnauthorizedCode)),
                                Member("message", JStr(UnauthorizedMessage))]))])
  }

  /** `pathname.startsWith('/api/')`. */
  predicate IsApiPath(path: string)
  {
    |path| >= 5 && path[..5] == "/api/"
  }

  predicate IsPagePath(path: string)
  {
    path == "/" || path == "/index.html"
  }

  /** A configured token is one that is set and not empty (JavaScript truthiness). */
  predicate Configured(expected: Option<string>)
  {
    expected.Some? && |expected.value| > 0
  }

  /** `onRequest`: `query` is `searchParams.get('token')`, `header` is
      `headers.get('X-Access-Token')`, `expected` is `env.ACCESS_TOKEN`;
      `None` is JavaScript's `null`/`undefined`. */
  function Gate(path: string, query: Option<string>, header: Option<string>, expected: Option<string>): (d: Decision)
    ensures d.ApiDenied? ==> d.body == Stringify(DeniedJson())
  {
    if !IsApiPath(path) then
      if IsPagePath(path) && Configured(expected) && query != expected then PageDenied
      else Next
    else if Configured(expected) && header != expected then ApiDenied(Stringify(DeniedJson()))
    else Next
  }

  // ---------------------------------------------------------------- properties

  /** Without a configured token every request goes through. */
  lemma OpenWithoutToken(path: string, query: Option<string>, header: Option<string>, expected: Option<string>)
    requires expected.None? || expected == Some("")
    ensures Gate(path, query, header, expected) == Next
  {
  }

  /** Static files other than the index page always go through, whatever the
      tokens; `/api` without the trailing slash is such a path. */
  lemma StaticPathsPass(path: string, query: Option<string>, header: Option<string>, expected: Option<string>)
    requires !IsApiPath(path) && !IsPagePath(path)
    ensures Gate(path, query, header, expected) == Next
  {
  }

  lemma BareApiIsStatic()
    ensures !IsApiPath("/api") && !IsPagePath("/api")
  {
  }

  /** The index page opens exactly when the query token equals the configured
      one, and is otherwise answered with the HTML page. */
  lemma PageNeedsQueryToken(path: string, query: Option<string>, header: Option<string>, token: string)
    requires IsPagePath(path) && |token| > 0
    ensures Gate(path, query, header, Some(token)) == Next <==> query == Some(token)
    ensures Gate(path, query, header, Some(token)) != Next ==> Gate(path, query, header, Some(token)) == PageDenied
  {
    PagesAreNotApi();
  }

  lemma PagesAreNotApi()
    ensures !IsApiPath("/") && !IsApiPath("/index.html")
  {
    assert "/index.html"[..5] == "/inde";
    assert "/inde"[1] != "/api/"[1];
  }

  /** An API request passes exactly when its header equals the configured
      token; otherwise it gets the JSON 401 whose code is `UNAUTHORIZED`. */
  lemma ApiNeedsHeaderToken(path: string, query: Option<string>, header: Option<string>, token: string)
    requires IsApiPath(path) && |token| > 0
    ensures Gate(path, query, header, Some(token)) == Next <==> header == Some(token)
    ensures Gate(path, query, header, Some(token)) != Next ==>
      var d := Gate(path, query, header, Some(token));
      d.ApiDenied? && Decode(d.body).Some?
      && Property(Decode(d.body).value, "error").Some?
      && Property(Property(Decode(d.body).value, "error").value, "code") == Some(JStr(UnauthorizedCode))
  {
    DeniedBodyReadsBack(Stringify(DeniedJson()), DeniedJson());
  }

  /** The JSON 401 body reads back with its error code. */
  lemma DeniedBodyReadsBack(body: string, v: Json)
    requires v == DeniedJson() && body == Stringify(v)
    ensures Decode(body) == Some(v)
    ensures Property(v, "error").Some?
    ensures Property(Property(v, "error").value, "code") == Some(JStr(UnauthorizedCode))
  {
    DeniedWellFormed(v);
    JsonRoundTrip.DecodeStringify(v);
    DeniedCode(v);
  }

  lemma DeniedWellFormed(v: Json)
    requires v == DeniedJson()
    ensures WellFormed(v)
  {
    var inner := v.members[1].value;
    assert WellFormed(inner.members[0].value) && WellFormed(inner.members[1].value);
    assert WellFormed(inner);
    assert WellFormed(v.members[0].value);
  }

  lemma DeniedCode(v: Json)
    requires v == DeniedJson()
    ensures Property(v, "error").Some?
    ensures Property(Property(v, "error").value, "code") == Some(JStr(UnauthorizedCode))
  {
    LookupUnique(v.members, 1);
    LookupUnique(v.members[1].value.members, 0);
  }

  /** A missing header is refused once a token is configured. */
  lemma MissingHeaderRefused(path: string, query: Option<string>, token: string)
    requires IsApiPath(path) && |token| > 0
    ensures Gate(path, query, None, Some(token)).ApiDenied?
  {
  }

  /** The page route never looks at the header and the API route never looks
      at the query parameter. */
  lemma RoutesReadOneToken(path: string, q1: Option<string>, q2: Option<string>,
                           h1: Option<string>, h2: Option<string>, expected: Option<string>)
    ensures !IsApiPath(path) ==> Gate(path, q1, h1, expected) == Gate(path, q1, h2, expected)
    ensures IsApiPath(path) ==> Gate(path, q1, h1, expected) == Gate(path, q2, h1, expected)
  {
  }
}
