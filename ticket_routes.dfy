/**
 * backend/routes/ticketRoutes.ts: the ticket endpoints in the order they are
 * registered, each with the middleware that guards it. Express tries routes
 * in registration order and the first whose verb and path match handles the
 * request; paths are taken relative to the router's mount point and split
 * into segments.
 */
module TicketRoutes {
  import opened Wrappers
  import opened Types
  import opened AuthMiddleware
  import Http

  datatype Verb = Get | Post | Patch

  /** A path segment: fixed text, or a parameter such as `:id`. */
  datatype Segment = Lit(text: string) | Param

  /** A middleware in a route's chain. */
  datatype Gate = Authenticate | RoleIn(roles: seq<RoleName>)

  datatype Handler =
    | CreateTicketHandler
    | GetTicketsHandler
    | GetTicketStatsHandler
    | GetTicketByIdHandler
    | AssignTicketHandler
    | UpdateTicketStatusHandler

  datatype Route = Route(verb: Verb, path: seq<Segment>, gates: seq<Gate>, handler: Handler)

  /** The registrations, in source order. */
  const Routes: seq<Route> := [
    Route(Post, [], [Authenticate], CreateTicketHandler),
    Route(Get, [], [Authenticate], GetTicketsHandler),
    Route(Get, [Lit("stats")], [Authenticate, RoleIn([Administrador])], GetTicketStatsHandler),
    Route(Get, [Param], [Authenticate], GetTicketByIdHandler),
    Route(Patch, [Param, Lit("assign")], [Authenticate, RoleIn([Soporte, Administrador])], AssignTicketHandler),
    Route(Patch, [Param, Lit("status")], [Authenticate, RoleIn([Soporte, Administrador])], UpdateTicketStatusHandler)
  ]

  /** An ASCII letter in lower case; every other character is kept. */
  function LowerAscii(c: char): (l: char)
    ensures 'A' <= c <= 'Z' ==> l as int == c as int + 32
    ensures !('A' <= c <= 'Z') ==> l == c
  {
    if 'A' <= c <= 'Z' then (c as int + 32) as char else c
  }

  /** A segment with its ASCII letters in lower case. */
  function Folded(part: string): (f: string)
    ensures |f| == |part|
    ensures forall i :: 0 <= i < |part| ==> f[i] == LowerAscii(part[i])
  {
    seq(|part|, i requires 0 <= i < |part| => LowerAscii(part[i]))
  }

  /**
   * A parameter matches any non-empty segment. `express.Router()` is not
   * case sensitive, so fixed text matches itself in any mix of cases.
   */
  predicate SegmentMatches(s: Segment, part: string) {
    match s
    case Lit(text) => Folded(text) == Folded(part)
    case Param => part != ""
  }

  predicate Matches(route: Route, verb: Verb, parts: seq<string>) {
    && route.verb == verb
    && |route.path| == |parts|
    && forall i :: 0 <= i < |parts| ==> SegmentMatches(route.path[i], parts[i])
  }

  /** The position of the first route that matches, if any. */
  function FirstMatch(routes: seq<Route>, verb: Verb, parts: seq<string>): (r: Option<nat>)
    ensures r.Some? ==>
      && r.value < |routes| && Matches(routes[r.value], verb, parts)
      && forall k :: 0 <= k < r.value ==> !Matches(routes[k], verb, parts)
    ensures r.None? ==> forall k :: 0 <= k < |routes| ==> !Matches(routes[k], verb, parts)
  {
    if routes == [] then None
    else if Matches(routes[0], verb, parts) then Some(0)
    else
      match FirstMatch(routes[1..], verb, parts)
      case None => None
      case Some(k) => Some(k + 1)
  }

  /** The route that handles a request, if any. */
  function Dispatch(verb: Verb, parts: seq<string>): Option<Route> {
    match FirstMatch(Routes, verb, parts)
    case None => None
    case Some(k) => Some(Routes[k])
  }

  /** Whether a caller with this role passes every role gate of the chain. */
  predicate RolePasses(gates: seq<Gate>, role: RoleName) {
    forall k :: 0 <= k < |gates| && gates[k].RoleIn? ==> role in gates[k].roles
  }

  /** Every chain authenticates first and then only checks roles. */
  predicate AuthenticatesFirst(gates: seq<Gate>) {
    gates != [] && gates[0] == Authenticate && forall k :: 1 <= k < |gates| ==> gates[k].RoleIn?
  }

  lemma EveryRouteAuthenticatesFirst()
    ensures forall r :: r in Routes ==> AuthenticatesFirst(r.gates)
  {
  }

  /**
   * `/stats` is registered before `/:id`, so "stats", in any mix of cases,
   * reaches the statistics, never the lookup by id.
   */
  lemma StatsIsNeverATicketId(part: string)
    requires Folded(part) == "stats"
    ensures Dispatch(Get, [part]) == Some(Routes[2])
    ensures Routes[2].handler == GetTicketStatsHandler
  {
    assert Folded("stats") == "stats";
    assert Matches(Routes[2], Get, [part]);
  }

  /** So `GET /Stats` is the statistics route too, behind its Administrador gate. */
  lemma CapitalisedStatsIsStatistics()
    ensures Dispatch(Get, ["Stats"]) == Some(Routes[2])
  {
    assert Folded("Stats") == "stats";
    StatsIsNeverATicketId("Stats");
  }

  /** Any other non-empty single segment is taken as a ticket id. */
  lemma OtherSegmentsAreTicketIds(part: string)
    requires part != "" && Folded(part) != "stats"
    ensures Dispatch(Get, [part]) == Some(Routes[3])
    ensures Routes[3].handler == GetTicketByIdHandler
  {
    assert Folded("stats") == "stats";
    assert Matches(Routes[3], Get, [part]);
    assert !SegmentMatches(Routes[2].path[0], part);
    assert forall k :: 0 <= k < 3 ==> !Matches(Routes[k], Get, [part]);
  }

  /** Creating, listing and reading tickets need a session and nothing else. */
  lemma OpenRoutesNeedOnlyASession(role: RoleName)
    ensures forall r :: r in Routes && r.handler in {CreateTicketHandler, GetTicketsHandler, GetTicketByIdHandler} ==>
      r.gates == [Authenticate] && RolePasses(r.gates, role)
  {
  }

  /** The statistics admit Administrador only. */
  lemma StatsNeedAdministrador(role: RoleName)
    ensures RolePasses(Routes[2].gates, role) <==> role == Administrador
  {
    assert Routes[2].gates[1].roles == [Administrador];
  }

  /** Claiming and changing status admit Soporte and Administrador, never Cliente. */
  lemma StaffRoutesNeedStaff(role: RoleName)
    ensures RolePasses(Routes[4].gates, role) <==> role != Cliente
    ensures RolePasses(Routes[5].gates, role) <==> role != Cliente
  {
    assert Routes[4].gates[1].roles == [Soporte, Administrador];
    assert Routes[5].gates[1].roles == [Soporte, Administrador];
  }

  /**
   * Runs a chain that authenticates first and then checks roles: each gate
   * either calls `next`, handing over to the following one, or writes its
   * error and stops the chain.
   */
  method RunGates(ex: Exchange, gates: seq<Gate>, verify: string -> Option<SessionUser>) returns (admitted: bool)
    requires AuthenticatesFirst(gates)
    requires ex.reply.None?
    modifies ex
    ensures admitted <==>
      Authenticates(verify, ex.authorization)
      && RolePasses(gates, verify(BearerToken(ex.authorization).value).value.rolNombre)
    ensures admitted ==>
      && ex.reply.None? && ex.user == verify(BearerToken(ex.authorization).value)
      && ex.nextCalls == old(ex.nextCalls) + |gates|
    ensures BearerToken(ex.authorization).None? ==>
      ex.reply == Some(Http.Fail(401, NotLoggedIn)) && ex.nextCalls == old(ex.nextCalls) && ex.user == old(ex.user)
    ensures BearerToken(ex.authorization).Some? && !Authenticates(verify, ex.authorization) ==>
      ex.reply == Some(Http.Fail(401, TokenRejected)) && ex.nextCalls == old(ex.nextCalls) && ex.user == old(ex.user)
    ensures Authenticates(verify, ex.authorization) && !admitted ==>
      && ex.reply == Some(Http.Fail(403, RoleForbidden))
      && ex.user == verify(BearerToken(ex.authorization).value)
      // the chain stopped at the first role gate the user fails, after one `next` per gate before it
      && exists k :: 1 <= k < |gates| && ex.user.value.rolNombre !in gates[k].roles
                     && ex.nextCalls == old(ex.nextCalls) + k
                     && forall j :: 1 <= j < k ==> ex.user.value.rolNombre in gates[j].roles
    ensures ex.authorization == old(ex.authorization)
  {
    RequireAuth(ex, verify);
    if ex.reply.Some? {
      return false;
    }
    var k := 1;
    while k < |gates|
      invariant 1 <= k <= |gates|
      invariant ex.authorization == old(ex.authorization)
      invariant Authenticates(verify, ex.authorization)
      invariant ex.user == verify(BearerToken(ex.authorization).value)
      invariant ex.reply.None? && ex.nextCalls == old(ex.nextCalls) + k
      invariant forall j :: 1 <= j < k ==> ex.user.value.rolNombre in gates[j].roles
    {
      RequireRole(ex, gates[k].roles);
      if ex.reply.Some? {
        assert ex.user.value.rolNombre !in gates[k].roles;
        return false;
      }
      k := k + 1;
    }
    admitted := true;
  }
}
