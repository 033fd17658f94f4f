/**
 * backend/controllers/responseController.ts: adding a response to a ticket
 * and listing a ticket's responses, behind the same existence and access
 * checks as reading the ticket.
 */
module ResponseController {
  import opened Wrappers
  import opened Types
  import opened Store
  import opened Http
  import TicketService
  import ResponseService
  import AuthService
  import opened EmailService

  const ResponseRequired := "La respuesta es requerida"
  const ReplyForbidden := "No tiene permisos para responder a esta solicitud"
  const ListForbidden := "No tiene permisos para ver las respuestas de esta solicitud"

  /**
   * createResponse: 400 for an empty text before any lookup, then 404, then
   * 403 when the caller may not see the ticket; otherwise the caller's
   * response is appended, 201, and the ticket's creator and assignee, each
   * if found and not the caller, are notified.
   */
  method CreateResponse(db: Database, caller: SessionUser, ticketId: int, respuesta: Option<string>)
    returns (reply: Reply<Response>, recipients: seq<SessionUser>, mails: seq<Mail>)
    requires db.Valid()
    modifies db
    ensures db.Valid()
    ensures !Present(respuesta) ==> reply == Fail(400, ResponseRequired) && recipients == [] && mails == [] && unchanged(db)
    ensures Present(respuesta) && ticketId !in db.solicitudes ==>
      reply == Fail(404, TicketMissing) && recipients == [] && mails == [] && unchanged(db)
    ensures Present(respuesta) && ticketId in db.solicitudes
            && !TicketService.CanAccessTicket(db.solicitudes[ticketId], caller.id, caller.rolNombre) ==>
      reply == Fail(403, ReplyForbidden) && recipients == [] && mails == [] && unchanged(db)
    ensures reply.status == 201 <==>
      Present(respuesta) && ticketId in db.solicitudes
      && TicketService.CanAccessTicket(db.solicitudes[ticketId], caller.id, caller.rolNombre)
    ensures reply.status == 201 ==>
      && var row := Response(old(db.nextResponseId), ticketId, respuesta.value, caller.id, old(db.clock));
      && var ticket := db.solicitudes[ticketId];
      && reply == Reply(201, Data(row))
      && db.respuestas == old(db.respuestas) + [row]
      && db.nextResponseId == old(db.nextResponseId) + 1 && db.clock == old(db.clock) + 1
      && (forall u :: u in recipients <==>
            && u.id != caller.id
            && (u.id == ticket.creadaPorId || (Truthy(ticket.asignadaAId) && u.id == ticket.asignadaAId.value))
            && AuthService.GetUserById(db, u.id) == Some(u))
      && (forall i, j :: 0 <= i < j < |recipients| ==> recipients[i].id != recipients[j].id)
      && (ticket.creadaPorId != caller.id && ticket.creadaPorId in db.usuarios ==>
            recipients != [] && recipients[0].id == ticket.creadaPorId)
      && mails == MailsTo(recipients, ResponseAddedNotice(ticketId))
      && |mails| <= 2
    ensures db.UsersUnchanged() && db.TicketsUnchanged()
  {
    if !Present(respuesta) {
      return Fail(400, ResponseRequired), [], [];
    }
    var ticket := TicketService.GetTicketById(db, ticketId);
    if ticket.None? {
      return Fail(404, TicketMissing), [], [];
    }
    if !TicketService.CanAccessTicket(ticket.value, caller.id, caller.rolNombre) {
      return Fail(403, ReplyForbidden), [], [];
    }
    var r := ResponseService.CreateResponse(db, ticketId, respuesta.value, caller.id);
    // The ticket was found above, so the service's own existence check passes.
    assert r.Ok?;
    recipients, mails := SendResponseAddedEmail(db, ticketId, caller, ticket.value.creadaPorId, ticket.value.asignadaAId);
    reply := Reply(201, Data(r.value));
  }

  /** getResponsesByTicketId: 404, then 403, then that ticket's responses oldest first. */
  method GetResponsesByTicketId(db: Database, caller: SessionUser, ticketId: int) returns (reply: Reply<seq<Response>>)
    requires db.Valid()
    ensures ticketId !in db.solicitudes ==> reply == Fail(404, TicketMissing)
    ensures ticketId in db.solicitudes && !TicketService.CanAccessTicket(db.solicitudes[ticketId], caller.id, caller.rolNombre) ==>
      reply == Fail(403, ListForbidden)
    ensures reply.status == 200 <==>
      ticketId in db.solicitudes && TicketService.CanAccessTicket(db.solicitudes[ticketId], caller.id, caller.rolNombre)
    ensures reply.status == 200 ==>
      && reply.body.Data?
      && (forall x :: x in reply.body.value <==> x in db.respuestas && x.solicitudId == ticketId)
      && ResponseService.Chronological(reply.body.value)
  {
    var ticket := TicketService.GetTicketById(db, ticketId);
    if ticket.None? {
      return Fail(404, TicketMissing);
    }
    if !TicketService.CanAccessTicket(ticket.value, caller.id, caller.rolNombre) {
      return Fail(403, ListForbidden);
    }
    var responses := ResponseService.GetResponsesByTicketId(db, ticketId);
    reply := Reply(200, Data(responses));
  }
}
