/** The route guard in front of the chat view: reads the stored token, decodes
    it, and either renders the nested route or redirects to the login page,
    clearing a token it rejects. */
module ProtectedRoute {
  import opened Wrappers

  /** The `exp` claim as the guard's comparison sees it: absent (`undefined`),
      JSON `null`, or a NumericDate in whole seconds. */
  datatype Exp = Missing | Null | NumericDate(seconds: int)

  /** What `jwtDecode` does with a token: throw, or return its claim set. */
  datatype Decoded = Malformed | Claims(exp: Exp)

  /** `<Navigate to=... replace />` or `<Outlet />`. */
  datatype View = Redirect(to: string) | Outlet

  /** The element returned and the `localStorage` item "jwt" afterwards. */
  datatype Outcome = Outcome(view: View, token: Option<string>)

  /** A string is falsy in JavaScript only when empty; a missing item is `null`. */
  predicate Present(token: Option<string>) {
    token.Some? && token.value != ""
  }

  /** `decoded.exp < Date.now() / 1000`, with the clock in whole milliseconds:
      `undefined < t` is false and `null` compares as 0. */
  predicate Expired(exp: Exp, nowMs: int) {
    match exp
    case Missing => false
    case Null => 0 < nowMs
    case NumericDate(seconds) => seconds * 1000 < nowMs
  }

  /** The check run before rendering the protected route. */
  function Guard(token: Option<string>, decode: string -> Decoded, nowMs: int): (r: Outcome)
    ensures r.view == Outlet || r.view == Redirect("/")
    ensures r.token == token || r.token == None
    ensures !Present(token) ==> r == Outcome(Redirect("/"), token)
    ensures Present(token) && decode(token.value).Malformed? ==> r == Outcome(Redirect("/"), None)
    ensures Present(token) && decode(token.value).Claims? ==>
      (r.view == Outlet <==> !Expired(decode(token.value).exp, nowMs))
      && (r.token == None <==> Expired(decode(token.value).exp, nowMs))
  {
    if !Present(token) then Outcome(Redirect("/"), token)
    else
      match decode(token.value)
      case Malformed => Outcome(Redirect("/"), None)
      case Claims(exp) =>
        if Expired(exp, nowMs) then Outcome(Redirect("/"), None)
        else Outcome(Outlet, token)
  }

  /** Section 4.1.4 of RFC 7519: the current time must be before `exp`. */
  predicate AcceptedByRfc7519(seconds: int, nowMs: int) {
    nowMs < seconds * 1000
  }

  /** The guard renders exactly the tokens RFC 7519 accepts, plus those whose
      `exp` is the current instant; it clears exactly the ones it refuses. */
  lemma GuardAcceptsRfcPlusBoundary(token: string, decode: string -> Decoded, nowMs: int)
    requires token != "" && decode(token).Claims? && decode(token).exp.NumericDate?
    ensures Guard(Some(token), decode, nowMs).view == Outlet <==>
      AcceptedByRfc7519(decode(token).exp.seconds, nowMs) || decode(token).exp.seconds * 1000 == nowMs
    ensures Guard(Some(token), decode, nowMs).token == None <==>
      !AcceptedByRfc7519(decode(token).exp.seconds, nowMs) && decode(token).exp.seconds * 1000 != nowMs
  {
  }

  /** At the expiry instant itself the guard still renders and keeps the token,
      although RFC 7519 has the token expired. */
  lemma GuardRendersAtExpiryInstant(token: string, decode: string -> Decoded, seconds: int)
    requires token != "" && decode(token) == Claims(NumericDate(seconds))
    ensures Guard(Some(token), decode, seconds * 1000) == Outcome(Outlet, Some(token))
    ensures !AcceptedByRfc7519(seconds, seconds * 1000)
  {
  }

  /** A decodable token without `exp` never expires for the guard. */
  lemma GuardRendersWithoutExp(token: string, decode: string -> Decoded, nowMs: int)
    requires token != "" && decode(token) == Claims(Missing)
    ensures Guard(Some(token), decode, nowMs) == Outcome(Outlet, Some(token))
  {
  }
}
