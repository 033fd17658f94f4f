/**
 * backend/middleware/auth.ts: `requireAuth` reads the Bearer token from the
 * Authorization header, verifies it and attaches the session user;
 * `requireRole` admits only the listed roles. Each either writes an error
 * reply or calls `next` exactly once.
 */
module AuthMiddleware {
  import opened Wrappers
  import opened Types
  import opened Http
  import opened AuthService

  const BearerPrefix := "Bearer "
  const NotLoggedIn := "No autorizado. Debe iniciar sesión."
  const TokenRejected := "Token inválido o expirado."
  const RoleForbidden := "No tiene permisos para realizar esta acción."

  /** The parts of one request/response pair that the middleware reads and writes. */
  class Exchange {
    /** The Authorization header, if sent. */
    var authorization: Option<string>
    /** `req.user`, set by `requireAuth`. */
    var user: Option<SessionUser>
    /** The error reply written, if any. */
    var reply: Option<Reply<()>>
    /** How often `next()` was called. */
    var nextCalls: nat

    constructor (authorization: Option<string>)
      ensures this.authorization == authorization
      ensures user.None? && reply.None? && nextCalls == 0
    {
      this.authorization := authorization;
      user := None;
      reply := None;
      nextCalls := 0;
    }
  }

  /**
   * The token after the "Bearer " prefix, or nothing for a missing header or
   * one with another scheme.
   */
  function BearerToken(header: Option<string>): (token: Option<string>)
    ensures token.Some? <==> header.Some? && BearerPrefix <= header.value
    ensures token.Some? ==> header.value == BearerPrefix + token.value
  {
    if header.Some? && BearerPrefix <= header.value then Some(header.value[|BearerPrefix|..]) else None
  }

  /** Any header built from the prefix and a token yields that token back. */
  lemma BearerTokenRoundTrip(token: string)
    ensures BearerToken(Some(BearerPrefix + token)) == Some(token)
  {
    assert (BearerPrefix + token)[|BearerPrefix|..] == token;
  }

  /** Whether `requireAuth` admits a request carrying this header. */
  predicate Authenticates(verify: string -> Option<SessionUser>, header: Option<string>) {
    BearerToken(header).Some? && verify(BearerToken(header).value).Some?
  }

  /**
   * requireAuth: 401 for a missing or non-Bearer header, 401 for a token the
   * library rejects; otherwise `req.user` is the decoded user and `next` runs
   * once.
   */
  method RequireAuth(ex: Exchange, verify: string -> Option<SessionUser>)
    modifies ex
    ensures ex.authorization == old(ex.authorization)
    ensures BearerToken(ex.authorization).None? ==>
      ex.reply == Some(Fail(401, NotLoggedIn)) && ex.nextCalls == old(ex.nextCalls) && ex.user == old(ex.user)
    ensures BearerToken(ex.authorization).Some? && !Authenticates(verify, ex.authorization) ==>
      ex.reply == Some(Fail(401, TokenRejected)) && ex.nextCalls == old(ex.nextCalls) && ex.user == old(ex.user)
    ensures Authenticates(verify, ex.authorization) ==>
      && ex.user == verify(BearerToken(ex.authorization).value)
      && ex.reply == old(ex.reply) && ex.nextCalls == old(ex.nextCalls) + 1
  {
    var token := BearerToken(ex.authorization);
    if token.None? {
      ex.reply := Some(Fail(401, NotLoggedIn));
      return;
    }
    var verified := VerifyToken(verify, token.value);
    if verified.Err? {
      ex.reply := Some(Fail(401, TokenRejected));
      return;
    }
    ex.user := Some(verified.value);
    ex.nextCalls := ex.nextCalls + 1;
  }

  /** requireRole: 401 without a user, 403 for a role outside the list, else `next`. */
  method RequireRole(ex: Exchange, roles: seq<RoleName>)
    modifies ex
    ensures ex.authorization == old(ex.authorization) && ex.user == old(ex.user)
    ensures ex.user.None? ==> ex.reply == Some(Fail(401, NotLoggedIn)) && ex.nextCalls == old(ex.nextCalls)
    ensures ex.user.Some? && ex.user.value.rolNombre !in roles ==>
      ex.reply == Some(Fail(403, RoleForbidden)) && ex.nextCalls == old(ex.nextCalls)
    ensures ex.user.Some? && ex.user.value.rolNombre in roles ==>
      ex.reply == old(ex.reply) && ex.nextCalls == old(ex.nextCalls) + 1
  {
    if ex.user.None? {
      ex.reply := Some(Fail(401, NotLoggedIn));
      return;
    }
    if ex.user.value.rolNombre !in roles {
      ex.reply := Some(Fail(403, RoleForbidden));
      return;
    }
    ex.nextCalls := ex.nextCalls + 1;
  }
}
