/** The access gate in front of every employee route: the request must carry an
    `Authorization` header of the form `Bearer <token>` whose token verifies; then the
    decoded payload is attached to the request as `req.user` and the next handler runs.
    Otherwise the request ends with 401. */
module AuthMiddleware {
  import opened Common
  import Text
  import opened Crypto

  const BearerPrefix := "Bearer "
  const MissingHeaderMessage := "Authorization header missing or invalid"
  const InvalidTokenMessage := "Invalid or expired token"

  /** `authHeader.split(' ')[1]`: the text after the first space of the header up to the
      next space or the end. */
  function BearerToken(header: string): (token: string)
    requires Text.StartsWith(header, BearerPrefix)
    ensures ' ' !in token && |BearerPrefix| + |token| <= |header|
    ensures token == header[|BearerPrefix|..|BearerPrefix| + |token|]
    ensures |BearerPrefix| + |token| < |header| ==> header[|BearerPrefix| + |token|] == ' '
  {
    assert header[..6] == BearerPrefix[..6] && header[6] == ' ';
    Text.SecondPiece(header, ' ', 6);
    Text.Split(header, ' ')[1]
  }

  /** The token is everything after the prefix up to the first space: whatever follows a
      space is ignored, and the client's `Bearer ${token}` is read back as `token`
      whenever the token has no space in it. */
  lemma {:induction false} BearerTokenOfHeader(token: string, tail: string)
    requires ' ' !in token && (tail == [] || tail[0] == ' ')
    ensures Text.StartsWith(BearerPrefix + token + tail, BearerPrefix)
    ensures BearerToken(BearerPrefix + token + tail) == token
  {
    var h := BearerPrefix + token + tail;
    var n := |BearerPrefix|;
    assert h[..n] == BearerPrefix;
    var t := BearerToken(h);
    assert h[n..n + |token|] == token;
    assert t == h[n..n + |t|] == token;
  }

  /** Worked cases: `Bearer a b` yields `a`, and a bare `Bearer ` yields the empty token. */
  lemma BearerTokenExamples()
    ensures Text.StartsWith("Bearer a b", BearerPrefix) && BearerToken("Bearer a b") == "a"
    ensures Text.StartsWith("Bearer ", BearerPrefix) && BearerToken("Bearer ") == ""
  {
    BearerTokenOfHeader("a", " b");
    assert BearerPrefix + "a" + " b" == "Bearer a b";
    BearerTokenOfHeader("", "");
    assert BearerPrefix + "" + "" == "Bearer ";
  }

  /** The two outcomes of the gate. */
  datatype Decision = Admit(payload: Payload) | Deny(message: string)

  /** The gate's decision for a header value at clock reading `now`: admitted exactly when
      the header starts with `Bearer ` (case-sensitive, with the space) and its token
      verifies, and then with the payload the verification decoded. */
  function Decide(header: Option<string>, c: Primitives, now: Time): (d: Decision)
    ensures d.Admit? <==>
      header.Some? && Text.StartsWith(header.value, BearerPrefix)
      && c.verify(BearerToken(header.value), Seconds(now)).Some?
    ensures d.Admit? ==> c.verify(BearerToken(header.value), Seconds(now)) == Some(d.payload)
    ensures d.Deny? ==>
      d.message == if header.Some? && Text.StartsWith(header.value, BearerPrefix)
                   then InvalidTokenMessage else MissingHeaderMessage
  {
    if header.None? || header.value == "" || !Text.StartsWith(header.value, BearerPrefix) then
      Deny(MissingHeaderMessage)
    else
      match c.verify(BearerToken(header.value), Seconds(now))
      case Some(payload) => Admit(payload)
      case None => Deny(InvalidTokenMessage)
  }

  /** An incoming request as far as the gate sees it: its `Authorization` header and the
      `user` slot the gate fills in. */
  class Request {
    const authorization: Option<string>
    var user: Option<Payload>

    constructor (authorization: Option<string>)
      ensures this.authorization == authorization && user == None
    {
      this.authorization := authorization;
      user := None;
    }
  }

  /** Either `next()` is called, or a reply is sent and the chain stops. */
  datatype Outcome = CallNext | Stop(code: nat, message: string)

  /** `auth(req, res, next)`: ends in exactly one of a 401 reply or one call of `next`,
      after setting `req.user` to the decoded payload. */
  method Authenticate(req: Request, c: Primitives, now: Time) returns (o: Outcome)
    modifies req`user
    ensures o.CallNext? <==> Decide(req.authorization, c, now).Admit?
    ensures o.CallNext? ==> req.user == Some(Decide(req.authorization, c, now).payload)
    ensures o.Stop? ==> o.code == 401 && o.message == Decide(req.authorization, c, now).message
    ensures o.Stop? ==> req.user == old(req.user)
  {
    var header := req.authorization;
    if header.None? || header.value == "" || !Text.StartsWith(header.value, BearerPrefix) {
      return Stop(401, MissingHeaderMessage);
    }
    var token := BearerToken(header.value);
    var payload := c.verify(token, Seconds(now));
    if payload.None? {
      return Stop(401, InvalidTokenMessage);
    }
    req.user := payload;
    return CallNext;
  }
}
