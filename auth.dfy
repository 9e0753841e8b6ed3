/**
 * The `auth` middleware: take the bearer token from the `Authorization`
 * header, verify it, and either reject the request (401 without a token,
 * 403 with a bad one) or attach the decoded claims.
 */
module Auth {
  import opened Wrappers
  import opened JsText
  import opened Records
  import opened Credentials

  /**
   * `req.headers.authorization?.split(' ')[1]`, where an absent header, an
   * absent second field and an empty second field (all falsy in JavaScript)
   * are `None`.
   */
  function BearerToken(header: Option<string>): (token: Option<string>)
    ensures token.Some? ==> token.value != [] && ' ' !in token.value
    ensures token.Some? ==> header.Some? && |Split(header.value, ' ')| >= 2 && token.value == Split(header.value, ' ')[1]
    ensures header.Some? && |Split(header.value, ' ')| >= 2 && Split(header.value, ' ')[1] != "" ==> token.Some?
  {
    match header
    case None => None
    case Some(h) =>
      var fields := Split(h, ' ');
      if |fields| >= 2 && fields[1] != "" then Some(fields[1]) else None
  }

  /** The outcome of the middleware: a response sent in its place, or the claims for the handler. */
  datatype Gate = Denied(response: Response) | Granted(user: Claims)

  const NoToken: Response := Response(401, Message("No token"))
  const InvalidToken: Response := Response(403, Message("Invalid token"))

  /** The `auth` middleware, with `jwt.verify` against the server secret. */
  function Authenticate(header: Option<string>, cred: Credentials): (g: Gate)
    ensures g == Denied(NoToken) <==> BearerToken(header).None?
    ensures g == Denied(InvalidToken) <==>
              BearerToken(header).Some? && cred.verify(BearerToken(header).value, SECRET).None?
    ensures g.Granted? <==>
              BearerToken(header).Some? && cred.verify(BearerToken(header).value, SECRET).Some?
    ensures g.Granted? ==> Some(g.user) == cred.verify(BearerToken(header).value, SECRET)
  {
    match BearerToken(header)
    case None => Denied(NoToken)
    case Some(token) =>
      match cred.verify(token, SECRET)
      case None => Denied(InvalidToken)
      case Some(claims) => Granted(claims)
  }

  /** The usual header `<scheme> <token>` yields the token. */
  lemma BearerTokenOf(scheme: string, token: string)
    requires ' ' !in scheme && ' ' !in token && token != []
    ensures BearerToken(Some(scheme + " " + token)) == Some(token)
  {
    assert Join([scheme, token], ' ') == scheme + " " + token;
    SplitJoin([scheme, token], ' ');
  }

  /** Anything after a further space is ignored. */
  lemma BearerTokenWithTrailer(scheme: string, token: string, trailer: string)
    requires ' ' !in scheme && ' ' !in token && token != []
    ensures BearerToken(Some(scheme + " " + token + " " + trailer)) == Some(token)
  {
    var fields := Split(trailer, ' ');
    var h := scheme + " " + token + " " + trailer;
    assert h == scheme + [' '] + (token + [' '] + trailer);
    SplitAfterField(scheme, token + [' '] + trailer, ' ');
    SplitAfterField(token, trailer, ' ');
  }

  /** A header with no space in it carries no token, so the request is answered 401. */
  lemma NoSpaceNoToken(h: string, cred: Credentials)
    requires ' ' !in h
    ensures BearerToken(Some(h)).None?
    ensures Authenticate(Some(h), cred) == Denied(NoToken)
  {
  }

  /** A doubled space leaves an empty second field: 401 as well. */
  lemma DoubleSpaceNoToken(scheme: string, rest: string)
    requires ' ' !in scheme
    ensures BearerToken(Some(scheme + "  " + rest)).None?
  {
    assert scheme + "  " + rest == scheme + [' '] + ([] + [' '] + rest);
    SplitAfterField(scheme, [] + [' '] + rest, ' ');
    SplitAfterField([], rest, ' ');
  }

  /** A token the server signed authenticates as exactly the claims signed into it. */
  lemma SignedTokenAuthenticates(claims: Claims, scheme: string, cred: Credentials)
    requires Sound(cred)
    requires ' ' !in scheme
    ensures Authenticate(Some(scheme + " " + cred.sign(claims, SECRET)), cred) == Granted(claims)
  {
    BearerTokenOf(scheme, cred.sign(claims, SECRET));
  }
}
