/**
 * backend/controllers/userController.ts: the account administration
 * endpoints over the user service.
 */
module UserController {
  import opened Wrappers
  import opened Types
  import opened Store
  import opened Http
  import UserService

  const RoleIdRequired := "El rol_id es requerido"

  /** getAllUsers: 200 with every user and role name, ordered by id. */
  method GetAllUsers(db: Database) returns (reply: Reply<seq<UserService.UserWithRole>>)
    requires db.Valid()
    ensures reply.status == 200 && reply.body.Data?
    ensures forall row :: row in reply.body.value <==> row.id in db.usuarios && row == UserService.JoinedRow(db.usuarios, db.roles, row.id)
    ensures forall i, j :: 0 <= i < j < |reply.body.value| ==> reply.body.value[i].id < reply.body.value[j].id
  {
    var users := UserService.GetAllUsers(db);
    reply := Reply(200, Data(users));
  }

  /** getRoles: 200 with every role row, ordered by id. */
  method GetRoles(db: Database) returns (reply: Reply<seq<Role>>)
    requires db.Valid()
    ensures reply.status == 200 && reply.body.Data?
    ensures forall row :: row in reply.body.value <==> row.id in db.roles && row.nombre == db.roles[row.id]
    ensures forall i, j :: 0 <= i < j < |reply.body.value| ==> reply.body.value[i].id < reply.body.value[j].id
  {
    var roles := UserService.GetRoles(db);
    reply := Reply(200, Data(roles));
  }

  /**
   * updateUserRole: a missing or zero `rol_id` is a 400 before the service
   * is called; the service's errors are 400s with their message; otherwise
   * 200 with the updated user.
   */
  method UpdateUserRole(db: Database, userId: int, rolId: Option<int>) returns (reply: Reply<UserService.UserSummary>)
    requires db.Valid()
    modifies db
    ensures db.Valid()
    ensures !Truthy(rolId) ==> reply == Fail(400, RoleIdRequired) && unchanged(db)
    ensures Truthy(rolId) && rolId.value !in db.roles ==> reply == Fail(400, UserService.RoleNotFound)
    ensures Truthy(rolId) && rolId.value in db.roles && userId !in old(db.usuarios) ==>
      reply == Fail(400, UserService.UserNotFound)
    ensures reply.status == 200 <==> Truthy(rolId) && rolId.value in db.roles && userId in old(db.usuarios)
    ensures reply.status == 200 ==>
      && db.usuarios == old(db.usuarios)[userId := old(db.usuarios[userId]).(rolId := rolId.value)]
      && reply.body == Data(UserService.UserSummary(userId, old(db.usuarios[userId]).nombre, old(db.usuarios[userId]).email, rolId.value))
    ensures reply.status != 200 ==> db.usuarios == old(db.usuarios)
    ensures db.roles == old(db.roles) && db.nextRoleId == old(db.nextRoleId) && db.nextUserId == old(db.nextUserId)
    ensures db.TicketsUnchanged() && db.ResponsesUnchanged() && db.clock == old(db.clock)
  {
    if !Truthy(rolId) {
      return Fail(400, RoleIdRequired);
    }
    var r := UserService.UpdateUserRole(db, userId, rolId.value);
    if r.Err? {
      return Fail(400, r.error);
    }
    reply := Reply(200, Data(r.value));
  }
}
