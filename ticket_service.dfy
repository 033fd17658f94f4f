/**
 * backend/services/ticketService.ts: the access policy and the ticket
 * lifecycle over the `solicitudes` table.
 */
module TicketService {
  import opened Wrappers
  import opened Types
  import opened Store

  const ClaimFailed := "No se pudo asignar el ticket. Puede que ya esté asignado."
  const InvalidStatus := "Estado inválido"
  const TicketNotFound := "Ticket no encontrado"

  /**
   * canAccessTicket: who may see and act on a ticket. An administrator sees
   * every ticket, a client exactly their own, and an agent an assigned ticket
   * exactly when it is assigned to them and an unassigned one exactly when it
   * is open.
   */
  function CanAccessTicket(ticket: Ticket, userId: int, roleName: RoleName): (ok: bool)
    ensures roleName == Administrador ==> ok
    ensures roleName == Cliente ==> (ok <==> ticket.creadaPorId == userId)
    ensures roleName == Soporte && ticket.asignadaAId.Some? ==> (ok <==> ticket.asignadaAId.value == userId)
    ensures roleName == Soporte && ticket.asignadaAId.None? ==> (ok <==> ticket.estado == Abierta)
  {
    if roleName == Administrador then true
    else if roleName == Soporte then
      ticket.asignadaAId == Some(userId) || (ticket.estado == Abierta && ticket.asignadaAId.None?)
    else ticket.creadaPorId == userId
  }

  /**
   * The WHERE clause that getTicketsByRole chooses for a role: its own
   * tickets for Cliente, assigned-or-open-unassigned for Soporte, and no
   * filter otherwise. (SQL `asignada_a_id = $1` is false on NULL.)
   */
  predicate ListedFor(roleName: RoleName, userId: int, t: Ticket) {
    if roleName == Cliente then t.creadaPorId == userId
    else if roleName == Soporte then
      t.asignadaAId == Some(userId) || (t.estado == Abierta && t.asignadaAId.None?)
    else true
  }

  /** The role-branching listing query selects exactly the tickets the access policy admits. */
  lemma ListingQueryIsAccessPolicy(roleName: RoleName, userId: int, t: Ticket)
    ensures ListedFor(roleName, userId, t) <==> CanAccessTicket(t, userId, roleName)
  {
  }

  /** createTicket: INSERT with estado 'abierta', the caller as creator and no assignee. */
  method CreateTicket(db: Database, titulo: string, descripcion: string, userId: int) returns (ticket: Ticket)
    requires db.Valid()
    modifies db
    ensures db.Valid()
    ensures ticket.id == old(db.nextTicketId) && ticket.id !in old(db.solicitudes)
    ensures ticket.titulo == titulo && ticket.descripcion == descripcion
    ensures ticket.estado == Abierta && ticket.creadaPorId == userId && ticket.asignadaAId.None?
    ensures ticket.fechaCreacion == ticket.fechaActualizacion == old(db.clock)
    ensures db.solicitudes == old(db.solicitudes)[ticket.id := ticket]
    ensures db.nextTicketId == old(db.nextTicketId) + 1 && db.clock == old(db.clock) + 1
    ensures db.UsersUnchanged() && db.ResponsesUnchanged()
  {
    var now := db.clock;
    ticket := Ticket(db.nextTicketId, titulo, descripcion, Abierta, userId, None, now, now);
    db.solicitudes := db.solicitudes[ticket.id := ticket];
    db.nextTicketId := db.nextTicketId + 1;
    db.clock := db.clock + 1;
  }

  /** getTicketById: the stored row with that id, or null. */
  function GetTicketById(db: Database, ticketId: int): (r: Option<Ticket>)
    requires db.Valid()
    reads db
    ensures r.Some? <==> ticketId in db.solicitudes
    ensures r.Some? ==> r.value == db.solicitudes[ticketId]
    ensures r.Some? ==> r.value.id == ticketId && r.value.fechaActualizacion < db.clock
  {
    if ticketId in db.solicitudes then Some(db.solicitudes[ticketId]) else None
  }

  /**
   * The condition of assignTicket's UPDATE: `asignada_a_id IS NULL OR estado = 'abierta'`.
   * It is a disjunction, so an open ticket that already has an assignee, and a
   * closed ticket without one, both match.
   */
  function Claimable(t: Ticket): (ok: bool)
    ensures t.estado == Abierta ==> ok
    ensures t.asignadaAId.None? ==> ok
    ensures t.estado != Abierta && t.asignadaAId.Some? ==> !ok
  {
    t.asignadaAId.None? || t.estado == Abierta
  }

  /** The row assignTicket's UPDATE writes when it matches. */
  function Claimed(t: Ticket, userId: int, now: nat): (c: Ticket)
    ensures c.id == t.id && c.creadaPorId == t.creadaPorId && c.fechaCreacion == t.fechaCreacion
    ensures c.titulo == t.titulo && c.descripcion == t.descripcion
    ensures c.asignadaAId == Some(userId) && c.estado == EnProgreso && c.fechaActualizacion == now
  {
    t.(asignadaAId := Some(userId), estado := EnProgreso, fechaActualizacion := now)
  }

  /** A claimed ticket is in progress and assigned, so it cannot be claimed again until it is reopened. */
  lemma ClaimedIsNotClaimable(t: Ticket, userId: int, now: nat)
    ensures !Claimable(Claimed(t, userId, now))
  {
  }

  /** After a claim, the claiming agent and no other agent may access the ticket. */
  lemma ClaimGivesAccess(t: Ticket, userId: int, now: nat)
    ensures CanAccessTicket(Claimed(t, userId, now), userId, Soporte)
    ensures forall other :: other != userId ==> !CanAccessTicket(Claimed(t, userId, now), other, Soporte)
  {
  }

  /**
   * Because the claim condition is a disjunction, an agent may claim an open
   * ticket assigned to someone else, although the access policy hides that
   * ticket from them.
   */
  lemma ClaimNeedsNoAccess(t: Ticket, userId: int, other: int)
    requires t.estado == Abierta && t.asignadaAId == Some(other) && other != userId
    ensures Claimable(t) && !CanAccessTicket(t, userId, Soporte)
  {
  }

  /**
   * assignTicket: one atomic conditional UPDATE. A missing ticket and a ticket
   * that fails the claim condition raise the same error and change nothing.
   */
  method AssignTicket(db: Database, ticketId: int, userId: int) returns (r: Result<Ticket, string>)
    requires db.Valid()
    modifies db
    ensures db.Valid()
    ensures r.Ok? <==> ticketId in old(db.solicitudes) && Claimable(old(db.solicitudes[ticketId]))
    ensures r.Ok? ==>
      && r.value == Claimed(old(db.solicitudes[ticketId]), userId, old(db.clock))
      && db.solicitudes == old(db.solicitudes)[ticketId := r.value]
      && db.clock == old(db.clock) + 1
    ensures r.Err? ==> r.error == ClaimFailed && db.solicitudes == old(db.solicitudes) && db.clock == old(db.clock)
    ensures db.nextTicketId == old(db.nextTicketId)
    ensures db.UsersUnchanged() && db.ResponsesUnchanged()
  {
    if ticketId in db.solicitudes && Claimable(db.solicitudes[ticketId]) {
      var now := db.clock;
      var t := Claimed(db.solicitudes[ticketId], userId, now);
      db.solicitudes := db.solicitudes[ticketId := t];
      db.clock := db.clock + 1;
      r := Ok(t);
    } else {
      r := Err(ClaimFailed);
    }
  }

  /**
   * updateTicketStatus: the status string is checked against the three
   * values before the store is touched; then only estado and the update
   * time of an existing row change.
   */
  method UpdateTicketStatus(db: Database, ticketId: int, status: string) returns (r: Result<Ticket, string>)
    requires db.Valid()
    modifies db
    ensures db.Valid()
    ensures ParseStatus(status).None? ==> r == Err(InvalidStatus) && db.solicitudes == old(db.solicitudes)
    ensures ParseStatus(status).Some? && ticketId !in old(db.solicitudes) ==>
      r == Err(TicketNotFound) && db.solicitudes == old(db.solicitudes)
    ensures ParseStatus(status).Some? && ticketId in old(db.solicitudes) ==>
      && r == Ok(old(db.solicitudes[ticketId]).(estado := ParseStatus(status).value, fechaActualizacion := old(db.clock)))
      && db.solicitudes == old(db.solicitudes)[ticketId := r.value]
    ensures db.nextTicketId == old(db.nextTicketId)
    ensures db.clock == old(db.clock) + (if r.Ok? then 1 else 0)
    ensures db.UsersUnchanged() && db.ResponsesUnchanged()
  {
    var parsed := ParseStatus(status);
    if parsed.None? {
      return Err(InvalidStatus);
    }
    if ticketId !in db.solicitudes {
      return Err(TicketNotFound);
    }
    var now := db.clock;
    var t := db.solicitudes[ticketId].(estado := parsed.value, fechaActualizacion := now);
    db.solicitudes := db.solicitudes[ticketId := t];
    db.clock := db.clock + 1;
    r := Ok(t);
  }

  /**
   * getTicketsByRole: exactly the stored tickets the caller may access,
   * newest first (ORDER BY fecha_creacion DESC). The scan walks ids downwards,
   * which is creation order reversed.
   */
  method GetTicketsByRole(db: Database, userId: int, roleName: RoleName) returns (tickets: seq<Ticket>)
    requires db.Valid()
    ensures forall t :: t in tickets <==>
      t.id in db.solicitudes && db.solicitudes[t.id] == t && CanAccessTicket(t, userId, roleName)
    ensures forall i, j :: 0 <= i < j < |tickets| ==> tickets[i].fechaCreacion > tickets[j].fechaCreacion
  {
    tickets := [];
    var id := db.nextTicketId;
    while id > 1
      invariant 1 <= id <= db.nextTicketId
      invariant forall t :: t in tickets ==>
        id <= t.id && t.id in db.solicitudes && db.solicitudes[t.id] == t && CanAccessTicket(t, userId, roleName)
      invariant forall k :: id <= k && k in db.solicitudes && CanAccessTicket(db.solicitudes[k], userId, roleName) ==>
        db.solicitudes[k] in tickets
      invariant forall i, j :: 0 <= i < j < |tickets| ==> tickets[i].fechaCreacion > tickets[j].fechaCreacion
    {
      id := id - 1;
      if id in db.solicitudes {
        var t := db.solicitudes[id];
        ListingQueryIsAccessPolicy(roleName, userId, t);
        if ListedFor(roleName, userId, t) {
          forall i | 0 <= i < |tickets|
            ensures tickets[i].fechaCreacion > t.fechaCreacion
          {
            assert tickets[i] in tickets;
          }
          tickets := tickets + [t];
        }
      }
    }
  }

  // ---------------------------------------------------------------------------
  // getTicketStats: tickets per status, and the top ten creators by count.

  /** A selection criterion of the two GROUP BY queries. */
  datatype Criterion = HasStatus(estado: TicketStatus) | CreatedBy(userId: int)

  predicate Meets(t: Ticket, c: Criterion) {
    match c
    case HasStatus(s) => t.estado == s
    case CreatedBy(u) => t.creadaPorId == u
  }

  /** The ids of the tickets a criterion selects. */
  function Matching(tickets: map<int, Ticket>, c: Criterion): set<int> {
    set id | id in tickets && Meets(tickets[id], c)
  }

  function MatchingBelow(tickets: map<int, Ticket>, c: Criterion, n: int): set<int> {
    set id | id in tickets && id < n && Meets(tickets[id], c)
  }

  lemma MatchingBelowStep(tickets: map<int, Ticket>, c: Criterion, n: int)
    ensures |MatchingBelow(tickets, c, n + 1)| ==
      |MatchingBelow(tickets, c, n)| + (if n in tickets && Meets(tickets[n], c) then 1 else 0)
  {
    var lo, hi := MatchingBelow(tickets, c, n), MatchingBelow(tickets, c, n + 1);
    if n in tickets && Meets(tickets[n], c) {
      assert hi == lo + {n};
    } else {
      assert hi == lo;
    }
  }

  /**
   * COUNT(*) over the tickets a criterion selects, by a scan of the table,
   * whose ids all lie below `bound`.
   */
  method CountMatching(tickets: map<int, Ticket>, bound: int, c: Criterion) returns (n: nat)
    requires forall id :: id in tickets ==> 1 <= id < bound
    ensures n == |Matching(tickets, c)|
  {
    n := 0;
    var id := 1;
    assert MatchingBelow(tickets, c, id) == {};
    while id < bound
      invariant 1 <= id && (id <= bound || id == 1)
      invariant n == |MatchingBelow(tickets, c, id)|
    {
      MatchingBelowStep(tickets, c, id);
      if id in tickets && Meets(tickets[id], c) {
        n := n + 1;
      }
      id := id + 1;
    }
    assert MatchingBelow(tickets, c, id) == Matching(tickets, c);
  }

  /** Every ticket has exactly one of the three statuses. */
  lemma {:induction false} StatusCountsPartition(tickets: map<int, Ticket>)
    ensures |Matching(tickets, HasStatus(Abierta))| + |Matching(tickets, HasStatus(EnProgreso))|
            + |Matching(tickets, HasStatus(Cerrada))| == |tickets|
  {
    var a, e, c := Matching(tickets, HasStatus(Abierta)), Matching(tickets, HasStatus(EnProgreso)),
                   Matching(tickets, HasStatus(Cerrada));
    var ae := a + e;
    forall id | id in a ensures id !in e { }
    assert a * e == {};
    assert |ae| == |a| + |e|;
    forall id | id in ae ensures id !in c { }
    assert ae * c == {};
    assert |ae + c| == |ae| + |c|;
    forall id | id in tickets.Keys ensures id in ae + c {
      match tickets[id].estado
      case Abierta => assert id in a;
      case EnProgreso => assert id in e;
      case Cerrada => assert id in c;
    }
    assert ae + c == tickets.Keys;
  }

  /** A row of `byStatus`. */
  datatype StatusCount = StatusCount(estado: TicketStatus, count: nat)

  /** A row of `byClient`, with the user id it is grouped by. */
  datatype ClientCount = ClientCount(clientId: int, clientName: string, count: nat)

  datatype Stats = Stats(byStatus: seq<StatusCount>, byClient: seq<ClientCount>)

  /** The sum of the counts of `byStatus` rows. */
  function Total(rows: seq<StatusCount>): nat {
    if rows == [] then 0 else rows[0].count + Total(rows[1..])
  }

  lemma {:induction false} TotalAppend(a: seq<StatusCount>, b: seq<StatusCount>)
    ensures Total(a + b) == Total(a) + Total(b)
  {
    if a != [] {
      assert (a + b)[1..] == a[1..] + b;
      TotalAppend(a[1..], b);
    } else {
      assert a + b == b;
    }
  }

  /** The group a status contributes: none when no ticket has it. */
  function StatusGroup(s: TicketStatus, n: nat): (rows: seq<StatusCount>)
    ensures Total(rows) == n
    ensures forall row :: row in rows ==> row.estado == s && row.count == n && n > 0
  {
    if n > 0 then [StatusCount(s, n)] else []
  }

  /** The `byClient` row of a user: their name and how many tickets they created. */
  function ClientRow(users: map<int, User>, tickets: map<int, Ticket>, u: int): ClientCount
    requires u in users
  {
    ClientCount(u, users[u].nombre, |Matching(tickets, CreatedBy(u))|)
  }

  /**
   * The `GROUP BY u.id` groups: one per user with tickets, by ascending id;
   * user ids lie below `userBound`, ticket ids below `ticketBound`.
   */
  method ClientGroups(users: map<int, User>, tickets: map<int, Ticket>, userBound: int, ticketBound: int)
    returns (groups: seq<ClientCount>)
    requires forall id :: id in users ==> 1 <= id < userBound
    requires forall id :: id in tickets ==> 1 <= id < ticketBound
    ensures forall i :: 0 <= i < |groups| ==>
      groups[i].clientId in users && groups[i] == ClientRow(users, tickets, groups[i].clientId) && groups[i].count > 0
    ensures forall i, j :: 0 <= i < j < |groups| ==> groups[i].clientId < groups[j].clientId
    ensures forall u :: u in users && |Matching(tickets, CreatedBy(u))| > 0 ==> ClientRow(users, tickets, u) in groups
  {
    groups := [];
    var u := 1;
    while u < userBound
      invariant 1 <= u && (u <= userBound || u == 1)
      invariant forall i :: 0 <= i < |groups| ==>
        groups[i].clientId in users && groups[i] == ClientRow(users, tickets, groups[i].clientId)
        && groups[i].count > 0 && groups[i].clientId < u
      invariant forall i, j :: 0 <= i < j < |groups| ==> groups[i].clientId < groups[j].clientId
      invariant forall v :: v in users && v < u && |Matching(tickets, CreatedBy(v))| > 0 ==>
        ClientRow(users, tickets, v) in groups
    {
      if u in users {
        var n := CountMatching(tickets, ticketBound, CreatedBy(u));
        if n > 0 {
          groups := groups + [ClientCount(u, users[u].nombre, n)];
        }
      }
      u := u + 1;
    }
  }

  /** The index of a largest count (the first one). */
  method IndexOfMax(rows: seq<ClientCount>) returns (m: nat)
    requires rows != []
    ensures m < |rows|
    ensures forall k :: 0 <= k < |rows| ==> rows[k].count <= rows[m].count
  {
    m := 0;
    var k := 1;
    while k < |rows|
      invariant 1 <= k <= |rows| && m < k
      invariant forall j :: 0 <= j < k ==> rows[j].count <= rows[m].count
    {
      if rows[k].count > rows[m].count {
        m := k;
      }
      k := k + 1;
    }
  }

  predicate DistinctClients(rows: seq<ClientCount>) {
    forall i, j :: 0 <= i < j < |rows| ==> rows[i].clientId != rows[j].clientId
  }

  lemma RemoveAt(s: seq<ClientCount>, m: nat)
    requires m < |s| && DistinctClients(s)
    ensures |s[..m] + s[m + 1..]| == |s| - 1
    ensures DistinctClients(s[..m] + s[m + 1..])
    ensures forall g :: g in s[..m] + s[m + 1..] <==> g in s && g != s[m]
    ensures forall g :: g in s[..m] + s[m + 1..] ==> g.clientId != s[m].clientId
  {
    var r := s[..m] + s[m + 1..];
    assert forall i :: 0 <= i < |r| ==> r[i] == if i < m then s[i] else s[i + 1];
    forall g | g in s && g != s[m]
      ensures g in r
    {
      var k :| 0 <= k < |s| && s[k] == g;
      assert r[if k < m then k else k - 1] == g;
    }
  }

  /**
   * A selection in progress: `top` holds distinct clients by descending
   * count, none of them among the `rest`, and none counting less than any
   * remaining row.
   */
  predicate Selection(top: seq<ClientCount>, rest: seq<ClientCount>) {
    && DistinctClients(top) && DistinctClients(rest)
    && (forall i, j :: 0 <= i < j < |top| ==> top[i].count >= top[j].count)
    && (forall t, r :: t in top && r in rest ==> t.clientId != r.clientId && r.count <= t.count)
  }

  /** Moving a largest remaining row to the end of `top` keeps the selection and its rows. */
  lemma SelectLargest(top: seq<ClientCount>, rest: seq<ClientCount>, m: nat)
    requires Selection(top, rest)
    requires m < |rest| && forall k :: 0 <= k < |rest| ==> rest[k].count <= rest[m].count
    ensures Selection(top + [rest[m]], rest[..m] + rest[m + 1..])
    ensures forall g :: g in top + [rest[m]] || g in rest[..m] + rest[m + 1..] <==> g in top || g in rest
  {
    var pick := rest[m];
    RemoveAt(rest, m);
    forall i | 0 <= i < |top|
      ensures top[i].clientId != pick.clientId && top[i].count >= pick.count
    {
      assert top[i] in top;
    }
    var top', rest' := top + [pick], rest[..m] + rest[m + 1..];
    forall t, r | t in top' && r in rest'
      ensures t.clientId != r.clientId && r.count <= t.count
    {
      var k :| 0 <= k < |rest| && rest[k] == r;
    }
  }

  /**
   * ORDER BY count DESC LIMIT `limit`: repeatedly takes a largest remaining
   * group. Ties between equal counts are taken in the order given.
   */
  method TopClients(groups: seq<ClientCount>, limit: nat) returns (top: seq<ClientCount>)
    requires DistinctClients(groups)
    ensures |top| == if |groups| < limit then |groups| else limit
    ensures forall t :: t in top ==> t in groups
    ensures DistinctClients(top)
    ensures forall i, j :: 0 <= i < j < |top| ==> top[i].count >= top[j].count
    ensures forall g :: g in groups && g !in top ==>
      |top| == limit && forall t :: t in top ==> g.count <= t.count
  {
    top := [];
    var rest := groups;
    while |top| < limit && rest != []
      invariant |top| + |rest| == |groups| && |top| <= limit
      invariant forall g :: g in groups <==> g in top || g in rest
      invariant Selection(top, rest)
    {
      var m := IndexOfMax(rest);
      SelectLargest(top, rest, m);
      top := top + [rest[m]];
      rest := rest[..m] + rest[m + 1..];
    }
  }

  /**
   * The `GROUP BY estado` rows: one per status some ticket has, with its
   * count, so that together they count every ticket.
   */
  method StatusGroups(tickets: map<int, Ticket>, bound: int) returns (byStatus: seq<StatusCount>)
    requires forall id :: id in tickets ==> 1 <= id < bound
    ensures Total(byStatus) == |tickets|
    ensures forall row :: row in byStatus ==>
      row.count == |Matching(tickets, HasStatus(row.estado))| && row.count > 0
    ensures forall s :: |Matching(tickets, HasStatus(s))| > 0 ==>
      StatusCount(s, |Matching(tickets, HasStatus(s))|) in byStatus
  {
    var abiertas := CountMatching(tickets, bound, HasStatus(Abierta));
    var enProgreso := CountMatching(tickets, bound, HasStatus(EnProgreso));
    var cerradas := CountMatching(tickets, bound, HasStatus(Cerrada));
    var a, e, c := StatusGroup(Abierta, abiertas), StatusGroup(EnProgreso, enProgreso), StatusGroup(Cerrada, cerradas);
    TotalAppend(a, e);
    TotalAppend(a + e, c);
    StatusCountsPartition(tickets);
    byStatus := a + e + c;
    forall s | |Matching(tickets, HasStatus(s))| > 0
      ensures StatusCount(s, |Matching(tickets, HasStatus(s))|) in byStatus
    {
      match s
      case Abierta => assert a[0] in byStatus;
      case EnProgreso => assert e[0] in byStatus;
      case Cerrada => assert c[0] in byStatus;
    }
  }

  /**
   * What the two GROUP BY queries return for these tables: the status rows
   * count every ticket and list every status that occurs with its count; at
   * most ten client rows, distinct, by descending count, each with that
   * client's count, and a creator left out is outnumbered by ten others.
   */
  ghost predicate IsStats(tickets: map<int, Ticket>, users: map<int, User>, stats: Stats) {
    && Total(stats.byStatus) == |tickets|
    && (forall row :: row in stats.byStatus ==>
          row.count == |Matching(tickets, HasStatus(row.estado))| && row.count > 0)
    && (forall s :: |Matching(tickets, HasStatus(s))| > 0 ==>
          StatusCount(s, |Matching(tickets, HasStatus(s))|) in stats.byStatus)
    && |stats.byClient| <= 10
    && DistinctClients(stats.byClient)
    && (forall i, j :: 0 <= i < j < |stats.byClient| ==> stats.byClient[i].count >= stats.byClient[j].count)
    && (forall row :: row in stats.byClient ==>
          row.clientId in users && row == ClientRow(users, tickets, row.clientId) && row.count > 0)
    && (forall u :: u in users && |Matching(tickets, CreatedBy(u))| > 0 && ClientRow(users, tickets, u) !in stats.byClient ==>
          |stats.byClient| == 10 && forall row :: row in stats.byClient ==> row.count >= ClientRow(users, tickets, u).count)
  }

  /**
   * getTicketStats without the 30-day timeline: the status groups, which
   * together count every ticket, and at most ten creators by descending count.
   */
  method GetTicketStats(db: Database) returns (stats: Stats)
    requires db.Valid()
    ensures IsStats(db.solicitudes, db.usuarios, stats)
  {
    var byStatus := StatusGroups(db.solicitudes, db.nextTicketId);
    var groups := ClientGroups(db.usuarios, db.solicitudes, db.nextUserId, db.nextTicketId);
    var byClient := TopClients(groups, 10);
    stats := Stats(byStatus, byClient);
  }
}
