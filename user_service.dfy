/**
 * backend/services/userService.ts: the administrator's view of accounts: the
 * user list joined with role names, the role list, and changing a user's role.
 */
module UserService {
  import opened Wrappers
  import opened Types
  import opened Store

  const RoleNotFound := "Rol no encontrado"
  const UserNotFound := "Usuario no encontrado"

  /** A row of `usuarios JOIN roles`: the user without the password, plus the role name. */
  datatype UserWithRole = UserWithRole(id: int, nombre: string, email: string, rolId: int, rolNombre: string)

  /** The columns `RETURNING id, nombre, email, rol_id` hands back. */
  datatype UserSummary = UserSummary(id: int, nombre: string, email: string, rolId: int)

  /** The joined row of the user stored under `id`. */
  function JoinedRow(users: map<int, User>, roles: map<int, string>, id: int): UserWithRole
    requires id in users && users[id].rolId in roles
  {
    var u := users[id];
    UserWithRole(u.id, u.nombre, u.email, u.rolId, roles[u.rolId])
  }

  /**
   * getAllUsers: one joined row per user (every user references a role, so
   * the inner join drops nobody), ordered by id, without the password.
   */
  method GetAllUsers(db: Database) returns (rows: seq<UserWithRole>)
    requires db.Valid()
    ensures forall i, j :: 0 <= i < j < |rows| ==> rows[i].id < rows[j].id
    ensures forall row :: row in rows <==> row.id in db.usuarios && row == JoinedRow(db.usuarios, db.roles, row.id)
  {
    rows := UsersInIdOrder(db.usuarios, db.roles, db.nextUserId);
  }

  /** The scan behind `ORDER BY u.id` over users keyed by id, all below `bound`. */
  method UsersInIdOrder(users: map<int, User>, roles: map<int, string>, bound: int) returns (rows: seq<UserWithRole>)
    requires forall id :: id in users ==> 1 <= id < bound && users[id].id == id && users[id].rolId in roles
    ensures forall i, j :: 0 <= i < j < |rows| ==> rows[i].id < rows[j].id
    ensures forall row :: row in rows <==> row.id in users && row == JoinedRow(users, roles, row.id)
  {
    rows := [];
    var id := 1;
    while id < bound
      invariant 1 <= id && (id <= bound || rows == [])
      invariant forall i, j :: 0 <= i < j < |rows| ==> rows[i].id < rows[j].id
      invariant forall i :: 0 <= i < |rows| ==> rows[i].id < id
      invariant forall row :: row in rows <==> row.id < id && row.id in users && row == JoinedRow(users, roles, row.id)
    {
      if id in users {
        rows := rows + [JoinedRow(users, roles, id)];
      }
      id := id + 1;
    }
  }

  /** getRoles: every role row, ordered by id. */
  method GetRoles(db: Database) returns (rows: seq<Role>)
    requires db.Valid()
    ensures forall i, j :: 0 <= i < j < |rows| ==> rows[i].id < rows[j].id
    ensures forall row :: row in rows <==> row.id in db.roles && row.nombre == db.roles[row.id]
  {
    rows := RolesInIdOrder(db.roles, db.nextRoleId);
  }

  /** The scan behind `ORDER BY id` over a table whose ids lie below `bound`. */
  method RolesInIdOrder(roles: map<int, string>, bound: int) returns (rows: seq<Role>)
    requires forall id :: id in roles ==> 1 <= id < bound
    ensures forall i, j :: 0 <= i < j < |rows| ==> rows[i].id < rows[j].id
    ensures forall row :: row in rows <==> row.id in roles && row.nombre == roles[row.id]
  {
    rows := [];
    var id := 1;
    while id < bound
      invariant 1 <= id && (id <= bound || rows == [])
      invariant forall i, j :: 0 <= i < j < |rows| ==> rows[i].id < rows[j].id
      invariant forall i :: 0 <= i < |rows| ==> rows[i].id < id
      invariant forall row :: row in rows <==> row.id < id && row.id in roles && row.nombre == roles[row.id]
    {
      if id in roles {
        rows := rows + [Role(id, roles[id])];
      }
      id := id + 1;
    }
  }

  /**
   * updateUserRole: the role must exist (checked first), then the user; only
   * the user's `rol_id` changes. Nothing prevents a user from changing their
   * own role.
   */
  method UpdateUserRole(db: Database, userId: int, newRoleId: int) returns (r: Result<UserSummary, string>)
    requires db.Valid()
    modifies db
    ensures db.Valid()
    ensures newRoleId !in db.roles ==> r == Err(RoleNotFound)
    ensures newRoleId in db.roles && userId !in old(db.usuarios) ==> r == Err(UserNotFound)
    ensures r.Ok? <==> newRoleId in db.roles && userId in old(db.usuarios)
    ensures r.Err? ==> db.usuarios == old(db.usuarios)
    ensures r.Ok? ==>
      var u := old(db.usuarios)[userId];
      && r.value == UserSummary(userId, u.nombre, u.email, newRoleId)
      && db.usuarios == old(db.usuarios)[userId := u.(rolId := newRoleId)]
    ensures db.roles == old(db.roles) && db.nextRoleId == old(db.nextRoleId) && db.nextUserId == old(db.nextUserId)
    ensures db.TicketsUnchanged() && db.ResponsesUnchanged() && db.clock == old(db.clock)
  {
    if newRoleId !in db.roles {
      return Err(RoleNotFound);
    }
    if userId !in db.usuarios {
      return Err(UserNotFound);
    }
    var u := db.usuarios[userId];
    db.usuarios := db.usuarios[userId := u.(rolId := newRoleId)];
    r := Ok(UserSummary(u.id, u.nombre, u.email, newRoleId));
  }
}
