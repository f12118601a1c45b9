/** The two route guards of middleware/authMiddleware.js.

    `Protect` resolves the caller from an `Authorization: Bearer <token>`
    header: the token is verified, its user id looked up, and the user row
    (without password) becomes the request's principal.  `AdminGuard` lets a
    request through only when that principal has the admin role. */
module AuthMiddleware {
  import opened Js
  import opened Store

  const NoToken: string := "Not authorized, no token"
  const TokenFailed: string := "Not authorized, token failed"
  const UserNotFound: string := "User not found"
  const NotAdmin: string := "Not authorized as admin"

  /** A guard's decision: call `next()` once with this principal, or answer
      with an error. */
  datatype Gate = Pass(principal: Profile) | Deny(code: int, message: string)

  // ---------------------------------------------------------------------
  // The token: `authorization.split(' ')[1]`
  // ---------------------------------------------------------------------

  /** Splitting loses nothing: joining the pieces gives back the header. */
  lemma {:induction false} JoinSplit(s: string, sep: char)
    ensures Join(Split(s, sep), sep) == s
    decreases |s|
  {
    if s != [] {
      var rest := Split(s[1..], sep);
      JoinSplit(s[1..], sep);
      if s[0] == sep {
        assert Split(s, sep)[1..] == rest;
      } else {
        var parts := Split(s, sep);
        assert parts[0] == [s[0]] + rest[0];
        assert parts[1..] == rest[1..];
        if |rest| == 1 {
          assert Join(parts, sep) == [s[0]] + rest[0];
        } else {
          assert Join(parts, sep) == [s[0]] + rest[0] + [sep] + Join(rest[1..], sep);
        }
      }
      assert s == [s[0]] + s[1..];
    }
  }

  /** `header.split(' ')[1]`: `None` where there is no second piece. */
  function BearerToken(header: string): (t: Option<string>)
    ensures t.Some? <==> ' ' in header
    ensures t.Some? ==> ' ' !in t.value
  {
    SplitInTwo(header, ' ');
    var parts := Split(header, ' ');
    if |parts| >= 2 then Some(parts[1]) else None
  }

  /** There is a second piece exactly when the separator occurs. */
  lemma {:induction false} SplitInTwo(s: string, sep: char)
    ensures |Split(s, sep)| >= 2 <==> sep in s
    decreases |s|
  {
    if s != [] {
      SplitInTwo(s[1..], sep);
      assert s == [s[0]] + s[1..];
    }
  }

  /** The user id the header's token verifies to: an absent or empty token
      makes `jwt.verify` throw, as does a token it rejects. */
  function TokenId(env: Env, header: string): Option<int> {
    match BearerToken(header)
    case None => None
    case Some(token) => if token == "" then None else env.verify(token)
  }

  /** The second piece is the text between the first and the second space. */
  lemma BearerTokenOf(scheme: string, token: string, rest: string)
    requires ' ' !in scheme && ' ' !in token
    ensures BearerToken(scheme + [' '] + token) == Some(token)
    ensures BearerToken(scheme + [' '] + token + [' '] + rest) == Some(token)
  {
    SplitAround(scheme, token);
    SplitNoSep(token);
    var tail := token + [' '] + rest;
    assert scheme + [' '] + token + [' '] + rest == scheme + [' '] + tail;
    SplitAround(scheme, tail);
    SplitPrefix(token, rest);
    assert Split(scheme + [' '] + tail, ' ')[1] == Split(tail, ' ')[0];
  }

  /** `Split` of a piece without spaces followed by a space. */
  lemma {:induction false} SplitAround(scheme: string, tail: string)
    requires ' ' !in scheme
    ensures Split(scheme + [' '] + tail, ' ') == [scheme] + Split(tail, ' ')
    decreases |scheme|
  {
    var s := scheme + [' '] + tail;
    if scheme == [] {
      assert s == [' '] + tail;
      assert s[1..] == tail;
    } else {
      assert s[0] == scheme[0];
      assert s[1..] == scheme[1..] + [' '] + tail;
      SplitAround(scheme[1..], tail);
      assert [scheme[0]] + scheme[1..] == scheme;
    }
  }

  /** The first piece of `token + " " + rest` is `token`. */
  lemma {:induction false} SplitPrefix(token: string, rest: string)
    requires ' ' !in token
    ensures Split(token + [' '] + rest, ' ')[0] == token
  {
    SplitAround(token, rest);
  }

  // ---------------------------------------------------------------------
  // The guards
  // ---------------------------------------------------------------------

  /** `protect`.  A header that is missing, empty or does not start with
      "Bearer" has no token.  Otherwise the second space separated piece is
      verified (an absent or empty token throws in `jwt.verify`) and the id it
      carries must name a user row. */
  function Protect(s: Store, env: Env, header: Option<string>): (g: Gate)
    ensures g == Deny(401, NoToken) <==> !Truthy(header) || !StartsWith(header.value, "Bearer")
    ensures g == Deny(401, TokenFailed) <==>
      Truthy(header) && StartsWith(header.value, "Bearer") && TokenId(env, header.value).None?
    ensures g == Deny(401, UserNotFound) <==>
      && Truthy(header) && StartsWith(header.value, "Bearer")
      && TokenId(env, header.value).Some? && TokenId(env, header.value).value !in s.users
    ensures g.Pass? <==>
      && Truthy(header) && StartsWith(header.value, "Bearer")
      && BearerToken(header.value).Some? && BearerToken(header.value).value != ""
      && env.verify(BearerToken(header.value).value).Some?
      && env.verify(BearerToken(header.value).value).value in s.users
    ensures g.Pass? ==> g.principal == ProfileOf(s.users[env.verify(BearerToken(header.value).value).value])
    ensures g.Deny? ==> g.code == 401
  {
    if !Truthy(header) || !StartsWith(header.value, "Bearer") then Deny(401, NoToken)
    else
      match BearerToken(header.value)
      case None => Deny(401, TokenFailed)
      case Some(token) =>
        if token == "" then Deny(401, TokenFailed)
        else
          match env.verify(token)
          case None => Deny(401, TokenFailed)
          case Some(id) =>
            if id in s.users then Pass(ProfileOf(s.users[id])) else Deny(401, UserNotFound)
  }

  /** `admin`: passes iff a principal is attached and its role is "admin". */
  function AdminGuard(user: Option<Profile>): (g: Gate)
    ensures g.Pass? <==> user.Some? && user.value.role == AdminRole
    ensures g.Pass? ==> g.principal == user.value
    ensures g.Deny? ==> g == Deny(403, NotAdmin)
  {
    if user.Some? && IsAdmin(user.value) then Pass(user.value) else Deny(403, NotAdmin)
  }

  /** A well-formed bearer header for a user that exists yields that user,
      whatever follows the token. */
  lemma ProtectAcceptsBearer(s: Store, env: Env, token: string, rest: Option<string>, id: int)
    requires token != "" && ' ' !in token
    requires env.verify(token) == Some(id) && id in s.users
    ensures var h := if rest.Some? then "Bearer " + token + " " + rest.value else "Bearer " + token;
            Protect(s, env, Some(h)) == Pass(ProfileOf(s.users[id]))
  {
    var h := if rest.Some? then "Bearer " + token + " " + rest.value else "Bearer " + token;
    BearerTokenOf("Bearer", token, if rest.Some? then rest.value else "");
    assert "Bearer " + token == "Bearer" + [' '] + token;
    assert rest.Some? ==> h == "Bearer" + [' '] + token + [' '] + rest.value;
    assert StartsWith(h, "Bearer");
  }

  /** The prefix test is on the raw characters: a header with no space after
      the scheme word carries no token, and is refused as a failed token,
      not as a missing one. */
  lemma SchemeWithoutSpaceFails(s: Store, env: Env, rest: string)
    requires ' ' !in rest
    ensures Protect(s, env, Some("Bearer" + rest)) == Deny(401, TokenFailed)
  {
    var h := "Bearer" + rest;
    assert ' ' !in h;
    assert StartsWith(h, "Bearer");
    SplitNoSep(h);
  }

  lemma {:induction false} SplitNoSep(s: string)
    requires ' ' !in s
    ensures Split(s, ' ') == [s]
    decreases |s|
  {
    if s != [] {
      assert ' ' !in s[1..];
      SplitNoSep(s[1..]);
      assert [s[0]] + s[1..] == s;
    }
  }
}
