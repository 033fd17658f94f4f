/**
 * backend/controllers/aiController.ts: reply suggestions for a ticket, for
 * staff only. The language-model call is foreign code and enters as the
 * `generate` parameter, which yields the suggestions or the message of the
 * error it raised.
 */
module AiController {
  import opened Wrappers
  import opened Types
  import opened Store
  import opened Http
  import TicketService

  const ClientForbidden := "No tiene permisos para acceder a las sugerencias de IA"
  const TicketForbidden := "No tiene permisos para acceder a esta solicitud"

  /**
   * getSuggestions: a Cliente is refused before the ticket is looked up; then
   * 404, then 403 for a ticket the caller may not see; only then is the
   * generator asked, from the ticket's title and description, and any error
   * it raises becomes a 500 with its message.
   */
  method GetSuggestions(db: Database, caller: SessionUser, ticketId: int,
                        generate: (string, string) -> Result<seq<string>, string>)
    returns (reply: Reply<seq<string>>)
    requires db.Valid()
    ensures caller.rolNombre == Cliente ==> reply == Fail(403, ClientForbidden)
    ensures caller.rolNombre != Cliente && ticketId !in db.solicitudes ==> reply == Fail(404, TicketMissing)
    ensures caller.rolNombre != Cliente && ticketId in db.solicitudes
            && !TicketService.CanAccessTicket(db.solicitudes[ticketId], caller.id, caller.rolNombre) ==>
      reply == Fail(403, TicketForbidden)
    ensures reply.status == 200 || reply.status == 500 <==>
      caller.rolNombre != Cliente && ticketId in db.solicitudes
      && TicketService.CanAccessTicket(db.solicitudes[ticketId], caller.id, caller.rolNombre)
    ensures reply.status == 200 || reply.status == 500 ==>
      var t := db.solicitudes[ticketId];
      match generate(t.titulo, t.descripcion)
      case Ok(suggestions) => reply == Reply(200, Data(suggestions))
      case Err(message) => reply == Fail(500, message)
  {
    if caller.rolNombre == Cliente {
      return Fail(403, ClientForbidden);
    }
    var ticket := TicketService.GetTicketById(db, ticketId);
    if ticket.None? {
      return Fail(404, TicketMissing);
    }
    if !TicketService.CanAccessTicket(ticket.value, caller.id, caller.rolNombre) {
      return Fail(403, TicketForbidden);
    }
    var suggestions := generate(ticket.value.titulo, ticket.value.descripcion);
    if suggestions.Err? {
      return Fail(500, suggestions.error);
    }
    reply := Reply(200, Data(suggestions.value));
  }
}
