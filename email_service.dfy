/**
 * backend/services/emailService.ts: who is mailed about what. Each `send*`
 * operation returns the recipients it selected and the mails it hands to the
 * transport, one per recipient; the transport, the subject lines and the
 * templates are not modelled. None of the operations can fail: the source
 * catches and logs every error, so no result here carries an error.
 */
module EmailService {
  import opened Wrappers
  import opened Types
  import opened Store
  import opened AuthService
  import opened Http

  /** What a mail is about. */
  datatype Notice =
    | TicketCreatedNotice(ticketId: int)
    | TicketAssignedNotice(ticketId: int)
    | StatusChangedNotice(ticketId: int, oldStatus: TicketStatus, newStatus: TicketStatus)
    | ResponseAddedNotice(ticketId: int)

  /** One mail handed to the transport. */
  datatype Mail = Mail(to: string, about: Notice)

  /** One mail per recipient, in recipient order (`recipients.map(...)`). */
  function MailsTo(recipients: seq<SessionUser>, about: Notice): (mails: seq<Mail>)
    ensures |mails| == |recipients|
    ensures forall i :: 0 <= i < |mails| ==> mails[i] == Mail(recipients[i].email, about)
  {
    if recipients == [] then []
    else MailsTo(recipients[..|recipients| - 1], about) + [Mail(recipients[|recipients| - 1].email, about)]
  }

  /** The user stored under `id` has the role row whose name is exactly `roleName`. */
  predicate HasRoleNamed(db: Database, id: int, roleName: string)
    reads db
  {
    id in db.usuarios && db.usuarios[id].rolId in db.roles && db.roles[db.usuarios[id].rolId] == roleName
  }

  /** A user who can be notified of new tickets: an administrator or a support agent. */
  predicate IsStaff(db: Database, id: int)
    reads db
  {
    HasRoleNamed(db, id, RoleText(Administrador)) || HasRoleNamed(db, id, RoleText(Soporte))
  }

  /**
   * getUsersByRole: `JOIN roles ... WHERE r.nombre = $1`, an exact string
   * comparison, as a scan in id order.
   */
  method UsersByRole(db: Database, roleName: string) returns (users: seq<SessionUser>)
    requires db.Valid()
    ensures forall i, j :: 0 <= i < j < |users| ==> users[i].id < users[j].id
    ensures forall u :: u in users <==> HasRoleNamed(db, u.id, roleName) && GetUserById(db, u.id) == Some(u)
  {
    users := [];
    var id := 1;
    while id < db.nextUserId
      invariant 1 <= id <= db.nextUserId
      invariant forall i, j :: 0 <= i < j < |users| ==> users[i].id < users[j].id
      invariant forall i :: 0 <= i < |users| ==> users[i].id < id
      invariant forall u :: u in users <==> u.id < id && HasRoleNamed(db, u.id, roleName) && GetUserById(db, u.id) == Some(u)
    {
      if id in db.usuarios && db.roles[db.usuarios[id].rolId] == roleName {
        users := users + [GetUserById(db, id).value];
      }
      id := id + 1;
    }
  }

  /** Every stored role name is capitalised, so the lower-case names match no user. */
  lemma LowerCaseRoleNamesMatchNobody(db: Database, id: int)
    requires db.Valid()
    ensures !HasRoleNamed(db, id, "administrador") && !HasRoleNamed(db, id, "soporte")
  {
    if id in db.usuarios && db.usuarios[id].rolId in db.roles {
      var name := db.roles[db.usuarios[id].rolId];
      assert RoleText(ParseRoleName(name).value) == name;
    }
  }

  /**
   * sendTicketCreatedEmail as written: it asks for the roles "administrador"
   * and "soporte" in lower case, while the role rows are spelled
   * "Administrador" and "Soporte", so nobody is ever mailed.
   */
  method SendTicketCreatedEmailAsWritten(db: Database, ticket: Ticket) returns (recipients: seq<SessionUser>, mails: seq<Mail>)
    requires db.Valid()
    ensures recipients == [] && mails == []
  {
    var admins := UsersByRole(db, "administrador");
    var soporte := UsersByRole(db, "soporte");
    forall id | true
      ensures !HasRoleNamed(db, id, "administrador") && !HasRoleNamed(db, id, "soporte")
    {
      LowerCaseRoleNamesMatchNobody(db, id);
    }
    recipients := admins + soporte;
    if |recipients| == 0 {
      return [], [];
    }
    mails := MailsTo(recipients, TicketCreatedNotice(ticket.id));
  }

  /**
   * sendTicketCreatedEmail with the role names as stored: every administrator,
   * then every support agent, each mailed once; nobody is mailed only when
   * there is no staff at all.
   */
  method SendTicketCreatedEmail(db: Database, ticket: Ticket) returns (recipients: seq<SessionUser>, mails: seq<Mail>)
    requires db.Valid()
    ensures forall u :: u in recipients <==> IsStaff(db, u.id) && GetUserById(db, u.id) == Some(u)
    ensures forall i, j :: 0 <= i < j < |recipients| ==> recipients[i].id != recipients[j].id
    ensures forall i, j :: 0 <= i < j < |recipients| && recipients[j].rolNombre == Administrador ==>
              recipients[i].rolNombre == Administrador
    ensures recipients == [] <==> forall id :: !IsStaff(db, id)
    ensures mails == MailsTo(recipients, TicketCreatedNotice(ticket.id))
  {
    var admins := UsersByRole(db, RoleText(Administrador));
    var soporte := UsersByRole(db, RoleText(Soporte));
    forall u | u in admins
      ensures u.rolNombre == Administrador
    {
      assert RoleText(u.rolNombre) == RoleText(Administrador);
    }
    forall u | u in soporte
      ensures u.rolNombre == Soporte
    {
      assert RoleText(u.rolNombre) == RoleText(Soporte);
    }
    AdminsThenSupport(admins, soporte);
    recipients := admins + soporte;
    assert recipients == [] || recipients[0] in recipients;
    if exists id :: IsStaff(db, id) {
      var id :| IsStaff(db, id);
      assert GetUserById(db, id).value in recipients;
    }
    if |recipients| == 0 {
      return [], [];
    }
    mails := MailsTo(recipients, TicketCreatedNotice(ticket.id));
  }

  /**
   * Administrators listed before support agents, each list in increasing id
   * order, give a list without repeated users and with every administrator
   * ahead of every support agent.
   */
  lemma AdminsThenSupport(admins: seq<SessionUser>, soporte: seq<SessionUser>)
    requires forall u :: u in admins ==> u.rolNombre == Administrador
    requires forall u :: u in soporte ==> u.rolNombre == Soporte
    requires forall i, j :: 0 <= i < j < |admins| ==> admins[i].id < admins[j].id
    requires forall i, j :: 0 <= i < j < |soporte| ==> soporte[i].id < soporte[j].id
    requires forall a, b :: a in admins && b in soporte ==> a.id != b.id
    ensures forall i, j :: 0 <= i < j < |admins + soporte| ==> (admins + soporte)[i].id != (admins + soporte)[j].id
    ensures forall i, j :: 0 <= i < j < |admins + soporte| && (admins + soporte)[j].rolNombre == Administrador ==>
              (admins + soporte)[i].rolNombre == Administrador
  {
    var all := admins + soporte;
    forall i, j | 0 <= i < j < |all|
      ensures all[i].id != all[j].id
    {
      if j < |admins| {
      } else if i >= |admins| {
        assert all[i] == soporte[i - |admins|] && all[j] == soporte[j - |admins|];
      } else {
        assert all[i] in admins && all[j] in soporte;
      }
    }
    forall i, j | 0 <= i < j < |all| && all[j].rolNombre == Administrador
      ensures all[i].rolNombre == Administrador
    {
      assert j < |admins|;
      assert all[i] in admins;
    }
  }

  /**
   * sendTicketAssignedEmail: a single mail to the agent who took the ticket,
   * skipped when the ticket's creator is not found.
   */
  method SendTicketAssignedEmail(db: Database, ticket: Ticket, assignedUser: SessionUser) returns (mails: seq<Mail>)
    requires db.Valid()
    ensures |mails| <= 1
    ensures mails != [] <==> ticket.creadaPorId in db.usuarios
    ensures forall m :: m in mails ==> m == Mail(assignedUser.email, TicketAssignedNotice(ticket.id))
  {
    var creator := GetUserById(db, ticket.creadaPorId);
    if creator.None? {
      return [];
    }
    mails := [Mail(assignedUser.email, TicketAssignedNotice(ticket.id))];
  }

  /** The list pushed from an optional first and an optional second recipient. */
  function Pushed(first: Option<SessionUser>, second: Option<SessionUser>): seq<SessionUser> {
    (if first.Some? then [first.value] else []) + (if second.Some? then [second.value] else [])
  }

  /** Two optional pushes give at most two recipients, the first one first, no id twice. */
  lemma PushedRecipients(first: Option<SessionUser>, second: Option<SessionUser>)
    requires first.Some? && second.Some? ==> first.value.id != second.value.id
    ensures |Pushed(first, second)| <= 2
    ensures forall u :: u in Pushed(first, second) <==> first == Some(u) || second == Some(u)
    ensures first.Some? ==> Pushed(first, second)[0] == first.value
    ensures forall i, j :: 0 <= i < j < |Pushed(first, second)| ==> Pushed(first, second)[i].id != Pushed(first, second)[j].id
  {
  }

  /** The user stored under `id` when `wanted` holds, nobody otherwise. */
  function LookupIf(db: Database, wanted: bool, id: int): Option<SessionUser>
    requires db.Valid()
    reads db
  {
    if wanted then GetUserById(db, id) else None
  }

  /**
   * Pushing the wanted creator and then the wanted assignee: exactly the
   * wanted users that are found, the creator first, no id twice.
   */
  lemma LookupsPushed(db: Database, wantCreator: bool, creatorId: int, wantAssignee: bool, assigneeId: int)
    requires db.Valid()
    requires wantCreator && wantAssignee ==> creatorId != assigneeId
    ensures |Pushed(LookupIf(db, wantCreator, creatorId), LookupIf(db, wantAssignee, assigneeId))| <= 2
    ensures forall u :: u in Pushed(LookupIf(db, wantCreator, creatorId), LookupIf(db, wantAssignee, assigneeId)) <==>
      ((wantCreator && u.id == creatorId) || (wantAssignee && u.id == assigneeId)) && GetUserById(db, u.id) == Some(u)
    ensures var rs := Pushed(LookupIf(db, wantCreator, creatorId), LookupIf(db, wantAssignee, assigneeId));
      forall i, j :: 0 <= i < j < |rs| ==> rs[i].id != rs[j].id
    ensures var rs := Pushed(LookupIf(db, wantCreator, creatorId), LookupIf(db, wantAssignee, assigneeId));
      wantCreator && creatorId in db.usuarios ==> rs != [] && rs[0].id == creatorId
  {
    PushedRecipients(LookupIf(db, wantCreator, creatorId), LookupIf(db, wantAssignee, assigneeId));
  }

  /**
   * sendTicketStatusChangedEmail: the creator when found, then the assignee
   * when there is one, it differs from the creator and it is found.
   */
  method SendTicketStatusChangedEmail(db: Database, ticket: Ticket, oldStatus: TicketStatus)
    returns (recipients: seq<SessionUser>, mails: seq<Mail>)
    requires db.Valid()
    ensures |recipients| <= 2
    ensures forall i, j :: 0 <= i < j < |recipients| ==> recipients[i].id != recipients[j].id
    ensures forall u :: u in recipients <==>
      && (u.id == ticket.creadaPorId || (Truthy(ticket.asignadaAId) && u.id == ticket.asignadaAId.value))
      && GetUserById(db, u.id) == Some(u)
    ensures ticket.creadaPorId in db.usuarios ==> recipients != [] && recipients[0].id == ticket.creadaPorId
    ensures mails == MailsTo(recipients, StatusChangedNotice(ticket.id, oldStatus, ticket.estado))
  {
    var wantAssignee := Truthy(ticket.asignadaAId) && ticket.asignadaAId.value != ticket.creadaPorId;
    var assigneeId := if ticket.asignadaAId.Some? then ticket.asignadaAId.value else 0;
    recipients := Pushed(LookupIf(db, true, ticket.creadaPorId), LookupIf(db, wantAssignee, assigneeId));
    LookupsPushed(db, true, ticket.creadaPorId, wantAssignee, assigneeId);
    if |recipients| == 0 {
      return [], [];
    }
    mails := MailsTo(recipients, StatusChangedNotice(ticket.id, oldStatus, ticket.estado));
  }

  /**
   * sendResponseAddedEmail: the creator and the assignee, each when found and
   * not the responder, the assignee only when different from the creator.
   */
  method SendResponseAddedEmail(db: Database, ticketId: int, responder: SessionUser, creatorId: int, assignedUserId: Option<int>)
    returns (recipients: seq<SessionUser>, mails: seq<Mail>)
    requires db.Valid()
    ensures |recipients| <= 2
    ensures forall u :: u in recipients ==> u.id != responder.id
    ensures forall i, j :: 0 <= i < j < |recipients| ==> recipients[i].id != recipients[j].id
    ensures forall u :: u in recipients <==>
      && u.id != responder.id
      && (u.id == creatorId || (Truthy(assignedUserId) && u.id == assignedUserId.value))
      && GetUserById(db, u.id) == Some(u)
    ensures creatorId != responder.id && creatorId in db.usuarios ==> recipients != [] && recipients[0].id == creatorId
    ensures mails == MailsTo(recipients, ResponseAddedNotice(ticketId))
  {
    var wantAssignee := Truthy(assignedUserId) && assignedUserId.value != responder.id && assignedUserId.value != creatorId;
    var assigneeId := if assignedUserId.Some? then assignedUserId.value else 0;
    recipients := Pushed(LookupIf(db, creatorId != responder.id, creatorId), LookupIf(db, wantAssignee, assigneeId));
    LookupsPushed(db, creatorId != responder.id, creatorId, wantAssignee, assigneeId);
    if |recipients| == 0 {
      return [], [];
    }
    mails := MailsTo(recipients, ResponseAddedNotice(ticketId));
  }
}
