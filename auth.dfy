/** The bearer-token middleware, decided per request from the expected
    token and the `Authorization` header. */
module Auth {
  import opened Strings

  datatype Response = Response(status: int, body: string)

  const Scheme := "Bearer "

  /** Whether a request is let through to the wrapped handler. */
  predicate Accepts(expected: string, authz: string)
  {
    expected != "" && HasPrefix(authz, Scheme) && TrimPrefix(authz, Scheme) == expected
  }

  /** The middleware on one request: an empty expected token disables the
      server (every request is 401), a header other than the scheme and the
      token is 401, anything else is what `next` answers. */
  function Serve(expected: string, authz: string, next: () -> Response): (r: Response)
    ensures r.status == 401 || r == next()
  {
    if expected == "" then Response(401, "auth disabled")
    else if !HasPrefix(authz, Scheme) || TrimPrefix(authz, Scheme) != expected then Response(401, "unauthorized")
    else next()
  }

  /** A request passes exactly when its header is the scheme followed by the
      token, and the token is set. */
  lemma {:induction false} AcceptsExactly(expected: string, authz: string)
    ensures Accepts(expected, authz) <==> expected != "" && authz == Scheme + expected
  {
    if authz == Scheme + expected {
      assert authz[..|Scheme|] == Scheme;
      assert authz[|Scheme|..] == expected;
    }
  }

  /** An accepted request gets `next`'s reply; a rejected one gets a 401 that
      never consults `next`. */
  lemma {:induction false} ServeDecides(expected: string, authz: string, next: () -> Response)
    ensures Accepts(expected, authz) ==> Serve(expected, authz, next) == next()
    ensures !Accepts(expected, authz) ==> Serve(expected, authz, next) == Serve(expected, authz, () => Response(0, ""))
    ensures !Accepts(expected, authz) ==> Serve(expected, authz, next).status == 401
  {
  }

  /** With no token configured nothing gets through. */
  lemma {:induction false} DisabledRejectsAll(authz: string, next: () -> Response)
    ensures Serve("", authz, next) == Response(401, "auth disabled")
  {
  }
}
