/**
 * The relational store behind every service, as in-memory tables: roles,
 * usuarios, solicitudes (tickets) and respuestas (responses). Ids come from
 * serial counters, and `clock` stands for CURRENT_TIMESTAMP: every row written
 * reads it and advances it, so later writes carry later times.
 */
module Store {
  import opened Wrappers
  import opened Types

  /** A user table keyed by id below `next`, with unique emails, each user referencing a role row. */
  ghost predicate UserTable(users: map<int, User>, roles: map<int, string>, next: int) {
    && 1 <= next
    && (forall id :: id in users ==> 1 <= id < next && users[id].id == id && users[id].rolId in roles)
    && (forall a, b :: a in users && b in users && users[a].email == users[b].email ==> a == b)
  }

  /** Adding a user under the next id, with an unused email and an existing role, keeps the table well formed. */
  lemma AddUser(users: map<int, User>, roles: map<int, string>, next: int, u: User)
    requires UserTable(users, roles, next)
    requires u.id == next && u.rolId in roles
    requires forall id :: id in users ==> users[id].email != u.email
    ensures UserTable(users[next := u], roles, next + 1)
  {
  }

  class Database {
    var roles: map<int, string>
    var usuarios: map<int, User>
    var solicitudes: map<int, Ticket>
    /** Responses in insertion order; rows are only ever appended. */
    var respuestas: seq<Response>
    var nextRoleId: int
    var nextUserId: int
    var nextTicketId: int
    var nextResponseId: int
    var clock: nat

    /** Role rows carry one of the three role names, each name at most once. */
    ghost predicate RolesValid()
      reads this
    {
      && 1 <= nextRoleId
      && (forall id :: id in roles ==> 1 <= id < nextRoleId && ParseRoleName(roles[id]).Some?)
      && (forall a, b :: a in roles && b in roles && roles[a] == roles[b] ==> a == b)
    }

    /** Users are keyed by their id, have unique emails and reference a role row. */
    ghost predicate UsersValid()
      reads this
    {
      UserTable(usuarios, roles, nextUserId)
    }

    /** Tickets are keyed by id; a later id was created later; timestamps lie in the past. */
    ghost predicate TicketsValid()
      reads this
    {
      && 1 <= nextTicketId
      && (forall id :: id in solicitudes ==>
            && 1 <= id < nextTicketId
            && solicitudes[id].id == id
            && solicitudes[id].fechaCreacion <= solicitudes[id].fechaActualizacion < clock)
      && (forall a, b :: a in solicitudes && b in solicitudes && a < b ==>
            solicitudes[a].fechaCreacion < solicitudes[b].fechaCreacion)
    }

    /** Responses reference existing tickets and appear in id and creation order. */
    ghost predicate ResponsesValid()
      reads this
    {
      && 1 <= nextResponseId
      && (forall i :: 0 <= i < |respuestas| ==>
            && 1 <= respuestas[i].id < nextResponseId
            && respuestas[i].fechaCreacion < clock
            && respuestas[i].solicitudId in solicitudes)
      && (forall i, j :: 0 <= i < j < |respuestas| ==>
            respuestas[i].id < respuestas[j].id && respuestas[i].fechaCreacion < respuestas[j].fechaCreacion)
    }

    ghost predicate Valid()
      reads this
    {
      RolesValid() && UsersValid() && TicketsValid() && ResponsesValid()
    }

    /** The role rows the seed inserts, in its order, and otherwise empty tables. */
    constructor Seeded()
      ensures Valid()
      ensures roles == map[1 := "Cliente", 2 := "Soporte", 3 := "Administrador"]
      ensures usuarios == map[] && solicitudes == map[] && respuestas == []
    {
      roles := map[1 := "Cliente", 2 := "Soporte", 3 := "Administrador"];
      usuarios := map[];
      solicitudes := map[];
      respuestas := [];
      nextRoleId := 4;
      nextUserId := 1;
      nextTicketId := 1;
      nextResponseId := 1;
      clock := 0;
    }

    /** Nothing in the user and role tables changed. */
    twostate predicate UsersUnchanged()
      reads this
    {
      roles == old(roles) && usuarios == old(usuarios)
      && nextRoleId == old(nextRoleId) && nextUserId == old(nextUserId)
    }

    /** Nothing in the ticket table changed. */
    twostate predicate TicketsUnchanged()
      reads this
    {
      solicitudes == old(solicitudes) && nextTicketId == old(nextTicketId)
    }

    /** Nothing in the response table changed. */
    twostate predicate ResponsesUnchanged()
      reads this
    {
      respuestas == old(respuestas) && nextResponseId == old(nextResponseId)
    }
  }
}
