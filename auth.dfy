/** The `authenticateToken` middleware of server/server.js: take the second
    space-separated field of the Authorization header as the token, answer 401
    when there is none, 403 when verification fails, and otherwise hand the
    decoded claims to the route handler. Verifying a JSON Web Token (signature,
    24-hour expiry) is a parameter: a function from token to claims. */
module Auth {
  import opened Collections

  /** The payload the server signs: `{ userId, email }`. */
  datatype Claims = Claims(userId: nat, email: string)

  /** A rejection written by the middleware. */
  datatype Denial = Denial(status: nat, error: string)

  datatype Gate = Denied(denial: Denial) | Passed(claims: Claims)

  const MissingToken := Denial(401, "Access token required")
  const InvalidToken := Denial(403, "Invalid token")

  /** The fields of `s` between single spaces, as `s.split(' ')` returns them. */
  function Split(s: string): (fields: seq<string>)
    ensures |fields| >= 1
    ensures forall i :: 0 <= i < |fields| ==> ' ' !in fields[i]
    ensures Join(fields) == s
    ensures ' ' !in s ==> fields == [s]
  {
    if ' ' !in s then [s]
    else
      var k := FirstSpace(s);
      [s[..k]] + Split(s[k + 1..])
  }

  /** The fields put back together with single spaces: the inverse of Split. */
  function Join(fields: seq<string>): string
    requires |fields| >= 1
  {
    if |fields| == 1 then fields[0] else fields[0] + " " + Join(fields[1..])
  }

  function FirstSpace(s: string): (k: nat)
    requires ' ' in s
    ensures k < |s| && s[k] == ' ' && ' ' !in s[..k]
  {
    if s[0] == ' ' then 0 else
      assert ' ' in s[1..] by { var j :| 0 <= j < |s| && s[j] == ' '; assert s[1..][j - 1] == ' '; }
      var k := 1 + FirstSpace(s[1..]);
      assert s[..k] == [s[0]] + s[1..][..k - 1];
      k
  }

  /** Splitting the join of space-free fields gives the fields back. */
  lemma {:induction false} SplitJoin(fields: seq<string>)
    requires |fields| >= 1
    requires forall i :: 0 <= i < |fields| ==> ' ' !in fields[i]
    ensures Split(Join(fields)) == fields
  {
    if |fields| > 1 {
      var s := Join(fields);
      var f := fields[0];
      var rest := Join(fields[1..]);
      assert s == f + " " + rest;
      assert s[|f|] == ' ';
      var k := FirstSpace(s);
      assert s[..|f|] == f;
      assert s[k + 1..] == rest;
      SplitJoin(fields[1..]);
    }
  }

  /** `authHeader && authHeader.split(' ')[1]`, read as a truthy string:
      no header, no second field, or an empty second field all mean no token. */
  function ExtractToken(header: Option<string>): (token: Option<string>)
    ensures header.None? ==> token.None?
    ensures token.Some? ==> token.value != "" && ' ' !in token.value
    ensures header.Some? && ' ' !in header.value ==> token.None?
    ensures token.Some? <==>
      header.Some? && |Split(header.value)| >= 2 && Split(header.value)[1] != ""
    ensures token.Some? ==> token.value == Split(header.value)[1]
  {
    match header
    case None => None
    case Some(h) =>
      if h == "" then None
      else
        var fields := Split(h);
        if |fields| < 2 || fields[1] == "" then None else Some(fields[1])
  }

  /** The header the client sends, `Bearer <token>`, yields exactly that token;
      so does any first word followed by the token and further fields. */
  lemma BearerToken(scheme: string, token: string, rest: seq<string>)
    requires ' ' !in scheme && ' ' !in token && token != ""
    requires forall i :: 0 <= i < |rest| ==> ' ' !in rest[i]
    ensures ExtractToken(Some(Join([scheme, token] + rest))) == Some(token)
    ensures rest == [] ==> Join([scheme, token] + rest) == scheme + " " + token
  {
    var fields := [scheme, token] + rest;
    var h := Join(fields);
    assert Split(h) == fields by {
      SpaceFreeFields(scheme, token, rest);
      SplitJoin(fields);
    }
    assert h != "" by {
      assert h == scheme + " " + Join(fields[1..]);
      assert h[|scheme|] == ' ';
    }
    assert fields[1] == token;
    if rest == [] {
      assert fields[1..] == [token];
    }
  }

  /** A header whose second field is empty, such as `Bearer ` or `Bearer  x`,
      carries no token: the empty string is falsy. */
  lemma EmptySecondFieldIsNoToken(scheme: string, rest: seq<string>)
    requires ' ' !in scheme
    requires forall i :: 0 <= i < |rest| ==> ' ' !in rest[i]
    ensures ExtractToken(Some(Join([scheme, ""] + rest))).None?
  {
    var fields := [scheme, ""] + rest;
    SpaceFreeFields(scheme, "", rest);
    SplitJoin(fields);
    assert fields[1] == "";
  }

  lemma SpaceFreeFields(scheme: string, token: string, rest: seq<string>)
    requires ' ' !in scheme && ' ' !in token
    requires forall i :: 0 <= i < |rest| ==> ' ' !in rest[i]
    ensures forall i :: 0 <= i < |[scheme, token] + rest| ==> ' ' !in ([scheme, token] + rest)[i]
  {
    var fields := [scheme, token] + rest;
    forall i | 0 <= i < |fields|
      ensures ' ' !in fields[i]
    {
      if i >= 2 {
        assert fields[i] == rest[i - 2];
      }
    }
  }

  /** The middleware: 401 without a token, 403 when verification rejects it,
      otherwise the verified claims and nothing else. */
  function Authenticate(header: Option<string>, verify: string -> Option<Claims>): (g: Gate)
    ensures g == Denied(MissingToken) <==> ExtractToken(header).None?
    ensures g == Denied(InvalidToken) <==>
      ExtractToken(header).Some? && verify(ExtractToken(header).value).None?
    ensures g.Passed? ==>
      ExtractToken(header).Some? && verify(ExtractToken(header).value) == Some(g.claims)
  {
    match ExtractToken(header)
    case None => Denied(MissingToken)
    case Some(t) =>
      match verify(t)
      case None => Denied(InvalidToken)
      case Some(c) => Passed(c)
  }
}
