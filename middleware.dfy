/** The role guard (`middleware/authorize.js`). */
module Authorize {
  import opened Wrappers
  import opened Docs
  import opened Response
  import opened UserModel

  const Forbidden := "Forbidden: Insufficient permissions"

  /** `authorize(allowedRoles)` applied to a request whose authenticated user is
      `user`: None when the request goes on to the handler (`next()`), otherwise
      the 403 answer it sends instead. */
  function Authorize(user: Option<Doc<User>>, allowedRoles: seq<Role>): (r: Option<Reply<()>>)
    ensures r.None? <==> user.Some? && user.value.fields.role in allowedRoles
    ensures r.Some? ==> r.value == ErrorResponse(403, Forbidden)
  {
    if user.None? || user.value.fields.role !in allowedRoles then Some(ErrorResponse(403, Forbidden)) else None
  }

  /** Allowing more roles never turns an admitted request away. */
  lemma AuthorizeMonotone(user: Option<Doc<User>>, allowed: seq<Role>, more: seq<Role>)
    requires Authorize(user, allowed).None?
    requires forall i :: 0 <= i < |allowed| ==> allowed[i] in more
    ensures Authorize(user, more).None?
  {
    var k :| 0 <= k < |allowed| && allowed[k] == user.value.fields.role;
  }
}

/** The bearer-token guard (`middleware/authenticate.js`). The token check of the
    JSON Web Token library is the parameter `verify`: the user id the token was
    signed for, or None when the signature or the expiry rejects it. */
module Authenticate {
  import opened Wrappers
  import opened Js
  import opened Docs
  import opened Response
  import opened UserModel
  import opened Database

  const NoToken := "Unauthorized: No token provided"
  const InvalidToken := "Unauthorized: Invalid token"
  const UnknownUser := "Unauthorized: User not found"

  /** `req.headers.authorization?.split(' ')[1]`: the second space-separated field
      of the header, whatever the first one says. */
  function BearerToken(header: Option<string>): (t: Option<string>)
    ensures header.None? ==> t.None?
    ensures t.Some? ==> ' ' !in t.value
  {
    match header
    case None => None
    case Some(h) =>
      var parts := Split(h, ' ');
      if |parts| >= 2 then Some(parts[1]) else None
  }

  /** The scheme word is not checked: `scheme + ' ' + token` gives the token back
      for any scheme without a space, so `Token x` yields `x` as `Bearer x` does. */
  lemma TokenAfterAnyScheme(scheme: string, token: string)
    requires ' ' !in scheme && ' ' !in token
    ensures BearerToken(Some(scheme + " " + token)) == Some(token)
  {
    var parts := [scheme, token];
    assert Join(parts, ' ') == scheme + " " + token by {
      assert parts[1..] == [token];
    }
    SplitJoin(parts, ' ');
  }

  /** A header that is the scheme word alone carries no token. */
  lemma SchemeAloneHasNoToken(scheme: string)
    requires ' ' !in scheme
    ensures BearerToken(Some(scheme)) == None
  {
    SplitJoin([scheme], ' ');
  }

  /** The request as the middleware sees and changes it. */
  class HttpRequest {
    var authorization: Option<string>
    var user: Option<Doc<User>>
    var token: Option<string>

    constructor (authorization: Option<string>)
      ensures this.authorization == authorization && user.None? && token.None?
    {
      this.authorization := authorization;
      user := None;
      token := None;
    }
  }

  /** `authenticate(req, res, next)`. It answers None when it calls `next()`,
      having set `req.user` and `req.token`; otherwise it answers 401 and leaves
      the request as it was. The account's `isActive` flag is not consulted. */
  method Authenticate(db: Db, req: HttpRequest, verify: string -> Option<Id>) returns (r: Option<Reply<()>>)
    modifies req`user, req`token
    ensures var t := BearerToken(req.authorization);
      if !HasText(t) then r == Some(ErrorResponse(401, NoToken)) && unchanged(req)
      else if verify(t.value).None? then r == Some(ErrorResponse(401, InvalidToken)) && unchanged(req)
      else if Find(db.users, verify(t.value).value).None? then r == Some(ErrorResponse(401, UnknownUser)) && unchanged(req)
      else && r.None?
           && req.user == Some(db.users[Find(db.users, verify(t.value).value).value])
           && req.token == t
    ensures r.None? <==> Admits(db.users, req.authorization, verify).Some?
    ensures r.None? ==> req.user == Admits(db.users, req.authorization, verify)
  {
    var t := BearerToken(req.authorization);
    if !HasText(t) {
      return Some(ErrorResponse(401, NoToken));
    }
    var userId := verify(t.value);
    if userId.None? {
      return Some(ErrorResponse(401, InvalidToken));
    }
    var found := Find(db.users, userId.value);
    if found.None? {
      return Some(ErrorResponse(401, UnknownUser));
    }
    req.user := Some(db.users[found.value]);
    req.token := t;
    return None;
  }

  /** The verdict `Authenticate` reaches, as a function of the header and the store. */
  function Admits(users: seq<Doc<User>>, header: Option<string>, verify: string -> Option<Id>): (r: Option<Doc<User>>)
    ensures r.Some? ==> r.value in users
    ensures r.Some? <==> && HasText(BearerToken(header)) && verify(BearerToken(header).value).Some?
                         && !Fresh(users, verify(BearerToken(header).value).value)
  {
    var t := BearerToken(header);
    if !HasText(t) then None
    else match verify(t.value)
      case None => None
      case Some(id) =>
        match Find(users, id)
        case None => None
        case Some(i) => Some(users[i])
  }

  /** A blocked account (`isActive` false) whose token still verifies is let through. */
  lemma BlockedUserAdmitted(users: seq<Doc<User>>, i: nat, scheme: string, token: string, verify: string -> Option<Id>)
    requires i < |users| && UniqueBy(users, IdOf) && !users[i].fields.isActive
    requires ' ' !in scheme && ' ' !in token && token != ""
    requires verify(token) == Some(users[i].id)
    ensures Admits(users, Some(scheme + " " + token), verify) == Some(users[i])
  {
    TokenAfterAnyScheme(scheme, token);
    FindUnique(users, i);
  }
}
