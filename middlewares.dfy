/**
  The authentication middleware (package `middlewares`): which request
  URIs bypass the token check, and what the middleware does with a request.
 */
module Middlewares {
  import opened Wrappers
  import Server

  /** The route fragments whose requests need no token. */
  const NoAuthNeeded: seq<string> := ["login", "signup", "ws"]

  /** `sub` occurs in `s` starting at index `i`. */
  predicate OccursAt(s: string, sub: string, i: int)
  {
    0 <= i && i + |sub| <= |s| && s[i..i + |sub|] == sub
  }

  ghost predicate IsSubstring(sub: string, s: string)
  {
    exists i :: OccursAt(s, sub, i)
  }

  lemma ShiftOccurrence(s: string, sub: string)
    requires s != []
    ensures forall i | 0 <= i :: OccursAt(s[1..], sub, i) <==> OccursAt(s, sub, i + 1)
  {
  }

  /** Go's strings.Contains: `sub` occurs somewhere in `s`. */
  function Contains(s: string, sub: string): (found: bool)
    ensures found <==> IsSubstring(sub, s)
    decreases |s|
  {
    if |sub| > |s| then
      assert forall i :: !OccursAt(s, sub, i);
      false
    else if sub <= s then
      assert OccursAt(s, sub, 0);
      true
    else
      assert !OccursAt(s, sub, 0);
      ShiftOccurrence(s, sub);
      var rest := Contains(s[1..], sub);
      assert rest ==> OccursAt(s, sub, (var i :| OccursAt(s[1..], sub, i); i) + 1);
      assert IsSubstring(sub, s) ==> rest by {
        if IsSubstring(sub, s) {
          var i :| OccursAt(s, sub, i);
          assert OccursAt(s[1..], sub, i - 1);
        }
      }
      rest
  }

  /** The loop of isAuthNeeded over a list of public route fragments:
      authentication is needed unless the URI contains one of them. */
  function AuthNeededAgainst(uri: string, routes: seq<string>): (needed: bool)
    ensures needed <==> forall k | 0 <= k < |routes| :: !IsSubstring(routes[k], uri)
    decreases |routes|
  {
    if routes == [] then true
    else if Contains(uri, routes[0]) then false
    else
      var needed := AuthNeededAgainst(uri, routes[1..]);
      assert forall k | 1 <= k < |routes| :: routes[k] == routes[1..][k - 1];
      needed
  }

  /** isAuthNeeded: false exactly when the URI contains "login", "signup"
      or "ws" anywhere. */
  function IsAuthNeeded(uri: string): (needed: bool)
    ensures !needed <==> IsSubstring("login", uri) || IsSubstring("signup", uri) || IsSubstring("ws", uri)
  {
    AuthNeededAgainst(uri, NoAuthNeeded)
  }

  /** The empty URI contains none of the fragments, so it needs a token. */
  lemma EmptyUriNeedsAuth()
    ensures IsAuthNeeded("")
  {
  }

  /** A public fragment anywhere in the URI, whatever surrounds it (a
      longer path segment, a query string), skips authentication. */
  lemma PublicFragmentAnywhereSkipsAuth(prefix: string, route: string, suffix: string)
    requires route in NoAuthNeeded
    ensures !IsAuthNeeded(prefix + route + suffix)
  {
    var uri := prefix + route + suffix;
    assert uri[|prefix|..|prefix| + |route|] == route;
    assert OccursAt(uri, route, |prefix|);
  }

  /** Two instances: "ws" inside "/news", and "login" inside the query
      string of a request for "/me". */
  lemma FragmentInsideLongerUriSkipsAuth()
    ensures !IsAuthNeeded("/news")
    ensures !IsAuthNeeded("/me?from=login")
  {
    PublicFragmentAnywhereSkipsAuth("/ne", "ws", "");
    PublicFragmentAnywhereSkipsAuth("/me?from=", "login", "");
  }

  /** unicode.IsSpace: the Latin-1 spaces and the other White_Space code
      points. */
  predicate IsSpace(c: char)
  {
    c == '\t' || c == '\n' || c == '\U{000B}' || c == '\U{000C}' || c == '\r' || c == ' '
    || c == '\U{0085}' || c == '\U{00A0}' || c == '\U{1680}'
    || ('\U{2000}' <= c <= '\U{200A}')
    || c == '\U{2028}' || c == '\U{2029}' || c == '\U{202F}' || c == '\U{205F}' || c == '\U{3000}'
  }

  /** `s` without its leading white space. */
  function TrimLeft(s: string): (r: string)
    ensures |r| <= |s| && r == s[|s| - |r|..]
    ensures forall k | 0 <= k < |s| - |r| :: IsSpace(s[k])
    ensures r == [] || !IsSpace(r[0])
  {
    if s != [] && IsSpace(s[0]) then TrimLeft(s[1..]) else s
  }

  /** `s` without its trailing white space. */
  function TrimRight(s: string): (r: string)
    ensures |r| <= |s| && r == s[..|r|]
    ensures forall k | |r| <= k < |s| :: IsSpace(s[k])
    ensures r == [] || !IsSpace(r[|r| - 1])
  {
    if s != [] && IsSpace(s[|s| - 1]) then TrimRight(s[..|s| - 1]) else s
  }

  /** strings.TrimSpace. */
  function TrimSpace(s: string): (r: string)
    ensures r == [] || (!IsSpace(r[0]) && !IsSpace(r[|r| - 1]))
    ensures exists i, j | 0 <= i <= j <= |s| ::
              r == s[i..j] && (forall k | 0 <= k < i :: IsSpace(s[k])) && (forall k | j <= k < |s| :: IsSpace(s[k]))
  {
    var l := TrimLeft(s);
    var t := TrimRight(l);
    assert t == s[|s| - |l|..|s| - |l| + |t|];
    assert forall k | |s| - |l| + |t| <= k < |s| :: s[k] == l[k - (|s| - |l|)];
    t
  }

  /** Trimming twice is trimming once. */
  lemma TrimSpaceIdempotent(s: string)
    ensures TrimSpace(TrimSpace(s)) == TrimSpace(s)
  {
  }

  /** The verdict of ParseAndVerifyToken on a token. */
  datatype TokenCheck = TokenValid | TokenInvalid(reason: string)

  /** What the middleware does with a request: hand it to the next handler
      (exactly once), or answer it itself with an error status. */
  datatype Response = CallNext | ErrorResponse(status: int, body: string)

  /** The middleware's decision, with the token it verified, if any. */
  datatype Handling = Handling(verifiedToken: Option<string>, response: Response)

  const StatusUnauthorized := 401

  /** CheckAuthMiddleware for one request. `authorization` is the value of
      the Authorization header (empty when absent) and `verify` stands for
      ParseAndVerifyToken. A failed verification is answered with 401 and
      the error text, as http.Error writes it. */
  function CheckAuth(s: Server.Broker, requestUri: string, authorization: string,
                     verify: (string, string) -> TokenCheck): (h: Handling)
    ensures h.verifiedToken.None? <==> !IsAuthNeeded(requestUri)
    ensures h.verifiedToken.Some? ==> h.verifiedToken.value == TrimSpace(authorization)
    ensures h.response.CallNext? <==>
              !IsAuthNeeded(requestUri) || verify(s.Config().JWTSecret, TrimSpace(authorization)).TokenValid?
    ensures h.response.ErrorResponse? ==> h.response.status == StatusUnauthorized
  {
    if !IsAuthNeeded(requestUri) then Handling(None, CallNext)
    else
      var token := TrimSpace(authorization);
      match verify(s.Config().JWTSecret, token)
      case TokenInvalid(reason) => Handling(Some(token), ErrorResponse(StatusUnauthorized, reason + "\n"))
      case TokenValid => Handling(Some(token), CallNext)
  }

  /** The decision depends on the header only through its trimmed value. */
  lemma SameTrimmedHeaderSameDecision(s: Server.Broker, requestUri: string, a: string, b: string,
                                      verify: (string, string) -> TokenCheck)
    requires TrimSpace(a) == TrimSpace(b)
    ensures CheckAuth(s, requestUri, a, verify) == CheckAuth(s, requestUri, b, verify)
  {
  }

  /** White space around the header value never changes the decision. */
  lemma HeaderWhitespaceIrrelevant(s: Server.Broker, requestUri: string, authorization: string,
                                   verify: (string, string) -> TokenCheck)
    ensures CheckAuth(s, requestUri, TrimSpace(authorization), verify) == CheckAuth(s, requestUri, authorization, verify)
  {
    TrimSpaceIdempotent(authorization);
    SameTrimmedHeaderSameDecision(s, requestUri, TrimSpace(authorization), authorization, verify);
  }
}
