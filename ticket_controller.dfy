/**
 * backend/controllers/ticketController.ts: the ticket endpoints. Each handler
 * receives the session user `requireAuth` attached and the numeric id from
 * the path, runs its checks in the source's order and returns the reply it
 * writes, together with the mails the notifier handed to the transport.
 */
module TicketController {
  import opened Wrappers
  import opened Types
  import opened Store
  import opened Http
  import TicketService
  import AuthService
  import opened EmailService

  const DetailsRequired := "Título y descripción son requeridos"
  const ViewForbidden := "No tiene permisos para ver esta solicitud"
  const StatusRequired := "El estado es requerido"
  const StatsForbidden := "No tiene permisos para acceder a las estadísticas"

  /**
   * assignTicket: the caller claims the ticket. Every claim failure, a
   * missing ticket included, is a 400 with the service's message; the
   * assignment notice goes out only after a successful claim.
   */
  method AssignTicket(db: Database, caller: SessionUser, ticketId: int) returns (reply: Reply<Ticket>, mails: seq<Mail>)
    requires db.Valid()
    modifies db
    ensures db.Valid()
    ensures reply.status == 200 <==>
      ticketId in old(db.solicitudes) && TicketService.Claimable(old(db.solicitudes[ticketId]))
    ensures reply.status != 200 ==>
      reply == Fail(400, TicketService.ClaimFailed) && mails == [] && db.solicitudes == old(db.solicitudes)
    ensures reply.status == 200 ==>
      && ticketId in db.solicitudes
      && db.solicitudes == old(db.solicitudes)[ticketId := TicketService.Claimed(old(db.solicitudes[ticketId]), caller.id, old(db.clock))]
      && reply.body == Data(db.solicitudes[ticketId])
      && (if db.solicitudes[ticketId].creadaPorId in db.usuarios
          then mails == [Mail(caller.email, TicketAssignedNotice(ticketId))]
          else mails == [])
    ensures db.nextTicketId == old(db.nextTicketId) && db.clock == old(db.clock) + (if reply.status == 200 then 1 else 0)
    ensures db.UsersUnchanged() && db.ResponsesUnchanged()
  {
    var r := TicketService.AssignTicket(db, ticketId, caller.id);
    if r.Err? {
      return Fail(400, r.error), [];
    }
    assert db.TicketsValid() && db.solicitudes[ticketId] == r.value;
    mails := SendTicketAssignedEmail(db, r.value, caller);
    if mails != [] {
      assert mails[0] in mails;
    }
    reply := Reply(200, Data(r.value));
  }

  /**
   * createTicket: 400 and no ticket unless both fields are non-empty;
   * otherwise an open, unassigned ticket of the caller and 201. The notifier
   * it calls looks staff up under lower-case role names that no role row
   * carries, so no mail goes out.
   */
  method CreateTicket(db: Database, caller: SessionUser, titulo: Option<string>, descripcion: Option<string>)
    returns (reply: Reply<Ticket>, mails: seq<Mail>)
    requires db.Valid()
    modifies db
    ensures db.Valid()
    ensures !(Present(titulo) && Present(descripcion)) ==>
      reply == Fail(400, DetailsRequired) && mails == [] && unchanged(db)
    ensures Present(titulo) && Present(descripcion) ==>
      && reply.status == 201 && reply.body.Data?
      && var ticket := reply.body.value;
      && ticket.id == old(db.nextTicketId) && ticket.id !in old(db.solicitudes)
      && db.solicitudes == old(db.solicitudes)[ticket.id := ticket]
      && ticket.fechaCreacion == ticket.fechaActualizacion == old(db.clock)
      && db.nextTicketId == old(db.nextTicketId) + 1 && db.clock == old(db.clock) + 1
      && ticket.titulo == titulo.value && ticket.descripcion == descripcion.value
      && ticket.estado == Abierta && ticket.creadaPorId == caller.id && ticket.asignadaAId.None?
      && mails == []
    ensures db.UsersUnchanged() && db.ResponsesUnchanged()
  {
    if !Present(titulo) || !Present(descripcion) {
      return Fail(400, DetailsRequired), [];
    }
    var ticket := TicketService.CreateTicket(db, titulo.value, descripcion.value, caller.id);
    var recipients;
    recipients, mails := SendTicketCreatedEmailAsWritten(db, ticket);
    reply := Reply(201, Data(ticket));
  }

  /** getTicketById: 404 for a missing ticket first, then 403 unless the caller may see it. */
  method GetTicketById(db: Database, caller: SessionUser, ticketId: int) returns (reply: Reply<Ticket>)
    requires db.Valid()
    ensures ticketId !in db.solicitudes ==> reply == Fail(404, TicketMissing)
    ensures ticketId in db.solicitudes && !TicketService.CanAccessTicket(db.solicitudes[ticketId], caller.id, caller.rolNombre) ==>
      reply == Fail(403, ViewForbidden)
    ensures reply.status == 200 <==>
      ticketId in db.solicitudes && TicketService.CanAccessTicket(db.solicitudes[ticketId], caller.id, caller.rolNombre)
    ensures reply.status == 200 ==> reply.body == Data(db.solicitudes[ticketId])
  {
    var ticket := TicketService.GetTicketById(db, ticketId);
    if ticket.None? {
      return Fail(404, TicketMissing);
    }
    if !TicketService.CanAccessTicket(ticket.value, caller.id, caller.rolNombre) {
      return Fail(403, ViewForbidden);
    }
    reply := Reply(200, Data(ticket.value));
  }

  /** getTickets: 200 with exactly the tickets the caller may see, newest first. */
  method GetTickets(db: Database, caller: SessionUser) returns (reply: Reply<seq<Ticket>>)
    requires db.Valid()
    ensures reply.status == 200 && reply.body.Data?
    ensures forall t :: t in reply.body.value <==>
      t.id in db.solicitudes && db.solicitudes[t.id] == t && TicketService.CanAccessTicket(t, caller.id, caller.rolNombre)
    ensures forall i, j :: 0 <= i < j < |reply.body.value| ==>
      reply.body.value[i].fechaCreacion > reply.body.value[j].fechaCreacion
  {
    var tickets := TicketService.GetTicketsByRole(db, caller.id, caller.rolNombre);
    reply := Reply(200, Data(tickets));
  }

  /**
   * updateTicketStatus: 400 for a missing `estado`, then 404 for a missing
   * ticket (whatever the status), then 400 for a status outside the three
   * values. The caller plays no part: whoever passes the route's role gate may
   * change any ticket. The creator, then a distinct assignee, each if found,
   * are notified with the status before and after the change.
   */
  method UpdateTicketStatus(db: Database, ticketId: int, estado: Option<string>)
    returns (reply: Reply<Ticket>, recipients: seq<SessionUser>, mails: seq<Mail>)
    requires db.Valid()
    modifies db
    ensures db.Valid()
    ensures !Present(estado) ==> reply == Fail(400, StatusRequired) && recipients == [] && mails == [] && unchanged(db)
    ensures Present(estado) && ticketId !in old(db.solicitudes) ==>
      reply == Fail(404, TicketMissing) && recipients == [] && mails == [] && unchanged(db)
    ensures Present(estado) && ticketId in old(db.solicitudes) && ParseStatus(estado.value).None? ==>
      reply == Fail(400, TicketService.InvalidStatus) && recipients == [] && mails == [] && db.solicitudes == old(db.solicitudes)
    ensures Present(estado) && ticketId in old(db.solicitudes) && ParseStatus(estado.value).Some? ==>
      && var before := old(db.solicitudes[ticketId]);
      && var after := before.(estado := ParseStatus(estado.value).value, fechaActualizacion := old(db.clock));
      && reply == Reply(200, Data(after))
      && db.solicitudes == old(db.solicitudes)[ticketId := after]
      && (forall u :: u in recipients <==>
            && (u.id == before.creadaPorId || (Truthy(before.asignadaAId) && u.id == before.asignadaAId.value))
            && AuthService.GetUserById(db, u.id) == Some(u))
      && (forall i, j :: 0 <= i < j < |recipients| ==> recipients[i].id != recipients[j].id)
      && (before.creadaPorId in db.usuarios ==> recipients != [] && recipients[0].id == before.creadaPorId)
      && mails == MailsTo(recipients, StatusChangedNotice(ticketId, before.estado, after.estado))
    ensures db.nextTicketId == old(db.nextTicketId) && db.clock == old(db.clock) + (if reply.status == 200 then 1 else 0)
    ensures db.UsersUnchanged() && db.ResponsesUnchanged()
  {
    if !Present(estado) {
      return Fail(400, StatusRequired), [], [];
    }
    var oldTicket := TicketService.GetTicketById(db, ticketId);
    if oldTicket.None? {
      return Fail(404, TicketMissing), [], [];
    }
    var r := TicketService.UpdateTicketStatus(db, ticketId, estado.value);
    if r.Err? {
      return Fail(400, r.error), [], [];
    }
    recipients, mails := SendTicketStatusChangedEmail(db, r.value, oldTicket.value.estado);
    reply := Reply(200, Data(r.value));
  }

  /** getTicketStats: 403 for every role but Administrador; otherwise the statistics. */
  method GetTicketStats(db: Database, caller: SessionUser) returns (reply: Reply<TicketService.Stats>)
    requires db.Valid()
    ensures caller.rolNombre != Administrador ==> reply == Fail(403, StatsForbidden)
    ensures caller.rolNombre == Administrador ==>
      && reply.status == 200 && reply.body.Data?
      && TicketService.IsStats(db.solicitudes, db.usuarios, reply.body.value)
  {
    if caller.rolNombre != Administrador {
      return Fail(403, StatsForbidden);
    }
    var stats := TicketService.GetTicketStats(db);
    reply := Reply(200, Data(stats));
  }
}
