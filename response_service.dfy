/**
 * backend/services/responseService.ts: append-only responses to a ticket and
 * the chronological listing of one ticket's responses.
 */
module ResponseService {
  import opened Wrappers
  import opened Types
  import opened Store


  /**
   * createResponse: checks that the ticket exists, then appends one row that
   * records the ticket id, the text and the author. Nothing is inserted for a
   * missing ticket.
   */
  method CreateResponse(db: Database, ticketId: int, respuesta: string, userId: int) returns (r: Result<Response, string>)
    requires db.Valid()
    modifies db
    ensures db.Valid()
    ensures r.Err? <==> ticketId !in db.solicitudes
    ensures r.Err? ==> r.error == TicketMissing && db.respuestas == old(db.respuestas) && db.clock == old(db.clock)
    ensures r.Ok? ==>
      && r.value == Response(old(db.nextResponseId), ticketId, respuesta, userId, old(db.clock))
      && db.respuestas == old(db.respuestas) + [r.value]
      && db.clock == old(db.clock) + 1
    ensures db.nextResponseId == old(db.nextResponseId) + (if r.Ok? then 1 else 0)
    ensures old(db.respuestas) <= db.respuestas
    ensures db.UsersUnchanged() && db.TicketsUnchanged()
  {
    if ticketId !in db.solicitudes {
      return Err(TicketMissing);
    }
    var now := db.clock;
    var row := Response(db.nextResponseId, ticketId, respuesta, userId, now);
    db.respuestas := db.respuestas + [row];
    db.nextResponseId := db.nextResponseId + 1;
    db.clock := db.clock + 1;
    r := Ok(row);
  }

  /** `WHERE r.solicitud_id = $1` over the response log, keeping its order. */
  function ResponsesOf(log: seq<Response>, ticketId: int): seq<Response> {
    if log == [] then []
    else
      var last := log[|log| - 1];
      ResponsesOf(log[..|log| - 1], ticketId) + (if last.solicitudId == ticketId then [last] else [])
  }

  /** The listing holds exactly the responses of that ticket. */
  lemma {:induction false} ResponsesOfExactly(log: seq<Response>, ticketId: int)
    ensures forall x :: x in ResponsesOf(log, ticketId) <==> x in log && x.solicitudId == ticketId
  {
    if log != [] {
      var init := log[..|log| - 1];
      ResponsesOfExactly(init, ticketId);
      assert log == init + [log[|log| - 1]];
    }
  }

  /** Strictly increasing creation times: ORDER BY fecha_creacion ASC. */
  predicate Chronological(rs: seq<Response>) {
    forall i, j :: 0 <= i < j < |rs| ==> rs[i].fechaCreacion < rs[j].fechaCreacion
  }

  /** Oldest first: a log in creation order gives a listing in creation order. */
  lemma {:induction false} ResponsesOfAscending(log: seq<Response>, ticketId: int)
    requires Chronological(log)
    ensures Chronological(ResponsesOf(log, ticketId))
  {
    if log != [] {
      var init, last := log[..|log| - 1], log[|log| - 1];
      ResponsesOfAscending(init, ticketId);
      ResponsesOfExactly(init, ticketId);
      var front := ResponsesOf(init, ticketId);
      forall x | x in front
        ensures x.fechaCreacion < last.fechaCreacion
      {
        var k :| 0 <= k < |init| && init[k] == x;
      }
      var rs := ResponsesOf(log, ticketId);
      assert log[..|log| - 1] == init;
      assert rs == front + (if last.solicitudId == ticketId then [last] else []);
      forall i, j | 0 <= i < j < |rs|
        ensures rs[i].fechaCreacion < rs[j].fechaCreacion
      {
        if j < |front| {
          assert rs[i] == front[i] && rs[j] == front[j];
        } else {
          assert rs[i] == front[i] && front[i] in front && rs[j] == last;
        }
      }
    }
  }

  /** getResponsesByTicketId: that ticket's responses, oldest first. */
  method GetResponsesByTicketId(db: Database, ticketId: int) returns (responses: seq<Response>)
    requires db.Valid()
    ensures responses == ResponsesOf(db.respuestas, ticketId)
    ensures forall x :: x in responses <==> x in db.respuestas && x.solicitudId == ticketId
    ensures Chronological(responses)
  {
    responses := [];
    var i := 0;
    while i < |db.respuestas|
      invariant 0 <= i <= |db.respuestas|
      invariant responses == ResponsesOf(db.respuestas[..i], ticketId)
    {
      assert db.respuestas[..i + 1][..i] == db.respuestas[..i];
      if db.respuestas[i].solicitudId == ticketId {
        responses := responses + [db.respuestas[i]];
      }
      i := i + 1;
    }
    assert db.respuestas[..i] == db.respuestas;
    ResponsesOfExactly(db.respuestas, ticketId);
    ResponsesOfAscending(db.respuestas, ticketId);
  }
}
