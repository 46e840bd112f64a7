/** `authenticate`: from the `authorization` header, through the token and its
    verification, to the stored user, ending in one error reply or one call of `next`.
    `jwt.verify` is the parameter `verify`, which yields no claims where it would throw. */
module AuthMiddleware {
  import opened Js
  import opened Data
  import AuthController
  import Validation

  const NoToken := "Access denied. No token provided."
  const BadFormat := "Access denied. Invalid token format."
  const UserNotFound := "Access denied. User not found."
  const InvalidToken := "Access denied. Invalid token."

  /** Either one reply (and `next` is not called) or one call of `next` with `req.user` set. */
  datatype Outcome = Deny(status: int, message: string) | Next(user: Claims)

  /** `authHeader.split(" ")[1]`: the text after the first space up to the next space or
      the end; missing when the header holds no space. */
  function TokenOf(header: string): (t: Option<string>)
    ensures t.None? <==> ' ' !in header
    ensures t.Some? ==>
      var i := IndexOf(header, ' ');
      var n := |t.value|;
      && ' ' !in t.value
      && i + 1 + n <= |header|
      && header[i + 1..i + 1 + n] == t.value
      && (i + 1 + n == |header| || header[i + 1 + n] == ' ')
  {
    var parts := Split(header, ' ');
    if |parts| > 1 then
      var i := IndexOf(header, ' ');
      var rest := header[i + 1..];
      var j := IndexOf(rest, ' ');
      assert parts == [header[..i]] + Split(rest, ' ');
      assert parts[1] == Split(rest, ' ')[0];
      assert j != -1 ==> rest[j] == header[i + 1 + j];
      Some(parts[1])
    else None
  }

  /** A header `scheme token` with no other space yields exactly `token`; a header
      without a space yields none. */
  lemma BearerToken(scheme: string, token: string)
    requires ' ' !in scheme && ' ' !in token
    ensures TokenOf(scheme + " " + token) == Some(token)
    ensures TokenOf(scheme) == None
  {
    SplitJoin([scheme, token], ' ');
    assert Join([scheme, token], ' ') == scheme + " " + token;
  }

  function Authenticate(header: Option<string>, users: seq<User>, verify: string -> Option<Claims>): (r: Outcome)
    ensures r == Deny(401, NoToken) <==> !Truthy(header)
    ensures r == Deny(401, BadFormat) <==> Truthy(header) && !Truthy(TokenOf(header.value))
    ensures r == Deny(403, InvalidToken) <==>
      Truthy(header) && Truthy(TokenOf(header.value)) && verify(TokenOf(header.value).value).None?
    ensures r == Deny(401, UserNotFound) <==>
      && Truthy(header) && Truthy(TokenOf(header.value))
      && verify(TokenOf(header.value).value).Some?
      && forall k :: 0 <= k < |users| ==> users[k].id != verify(TokenOf(header.value).value).value.id
    ensures r.Next? <==>
      && Truthy(header) && Truthy(TokenOf(header.value))
      && verify(TokenOf(header.value).value).Some?
      && exists k :: 0 <= k < |users| && users[k].id == verify(TokenOf(header.value).value).value.id
    ensures r.Next? ==> r.user == verify(TokenOf(header.value).value).value
  {
    if !Truthy(header) then Deny(401, NoToken)
    else
      var token := TokenOf(header.value);
      if !Truthy(token) then Deny(401, BadFormat)
      else
        match verify(token.value)
        case None => Deny(403, InvalidToken)
        case Some(decoded) =>
          if UserIndexById(users, decoded.id) == -1 then Deny(401, UserNotFound)
          else Next(decoded)
  }

  /** A token issued by a successful login, sent back as `Bearer <token>` while its user is
      still stored, lets the request through with the claims `{id, role}` it was signed
      over, provided `verify` gives back what `sign` was given. */
  lemma LoginThenAuthenticate(users: seq<User>, body: Validation.LoginBody,
                              compare: (string, string) -> bool, sign: Claims -> string,
                              verify: string -> Option<Claims>)
    requires forall c :: verify(sign(c)) == Some(c)
    requires AuthController.Login(users, body, compare, sign).status == 200
    requires var token := AuthController.Login(users, body, compare, sign).payload.value.token;
      token != "" && ' ' !in token
    ensures var session := AuthController.Login(users, body, compare, sign).payload.value;
      Authenticate(Some("Bearer " + session.token), users, verify) ==
        Next(Claims(session.user.id, session.user.role))
  {
    var session := AuthController.Login(users, body, compare, sign).payload.value;
    var k :| 0 <= k < |users| && session == AuthController.Session(sign(Claims(users[k].id, users[k].role)),
               AuthController.PublicUser(users[k].id, users[k].name, users[k].email, users[k].role));
    var claims := Claims(users[k].id, users[k].role);
    assert session.token == sign(claims) && claims == Claims(session.user.id, session.user.role);
    var header := "Bearer " + session.token;
    assert header == "Bearer" + " " + session.token;
    BearerToken("Bearer", session.token);
    assert Truthy(Some(header)) && TokenOf(header) == Some(session.token);
    assert verify(session.token) == Some(claims);
    assert UserIndexById(users, claims.id) != -1;
  }
}
