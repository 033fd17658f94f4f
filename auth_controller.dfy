/**
 * backend/controllers/authController.ts: login, registration, the current
 * user and logout. A session reply carries the signed token and the user
 * without the role id.
 */
module AuthController {
  import opened Wrappers
  import opened Types
  import opened Store
  import opened Http
  import AuthService

  const LoginFieldsRequired := "Email y contraseña son requeridos"
  const RegisterFieldsRequired := "Nombre, email y contraseña son requeridos"
  const NotAuthenticated := "No autenticado"

  /** The user object of a reply: the session fields without `rol_id`. */
  datatype PublicUser = PublicUser(email: string, id: int, nombre: string, rolNombre: RoleName)

  /** The body of a successful login or registration. */
  datatype Session = Session(token: string, user: PublicUser)

  function Public(u: SessionUser): PublicUser {
    PublicUser(u.email, u.id, u.nombre, u.rolNombre)
  }

  /** The reply for a signed-in session user. */
  function SessionFor(sign: SessionUser -> string, u: SessionUser): Session {
    Session(AuthService.GenerateToken(sign, u), Public(u))
  }

  /**
   * login: 400 unless both fields are given; any service failure is a 401
   * with its message; otherwise 200 with a token for the stored user.
   */
  method Login(db: Database, email: Option<string>, password: Option<string>,
               compare: (string, string) -> bool, sign: SessionUser -> string)
    returns (reply: Reply<Session>)
    requires db.Valid()
    ensures !(Present(email) && Present(password)) ==> reply == Fail(400, LoginFieldsRequired)
    ensures reply.status == 200 <==>
      Present(email) && Present(password)
      && exists id :: id in db.usuarios && db.usuarios[id].email == email.value
                      && compare(password.value, db.usuarios[id].contrasena)
    ensures Present(email) && Present(password) && reply.status != 200 ==>
      reply == Fail(401, AuthService.InvalidCredentials)
    ensures reply.status == 200 ==> exists id ::
      && id in db.usuarios && db.usuarios[id].email == email.value
      && AuthService.GetUserById(db, id).Some?
      && reply == Reply(200, Data(SessionFor(sign, AuthService.GetUserById(db, id).value)))
  {
    if !Present(email) || !Present(password) {
      return Fail(400, LoginFieldsRequired);
    }
    var r := AuthService.Login(db, email.value, password.value, compare);
    if r.Err? {
      return Fail(401, r.error);
    }
    reply := Reply(200, Data(SessionFor(sign, r.value)));
  }

  /** logout: always 200; the token is discarded by the client, the server keeps no session. */
  method Logout() returns (reply: Reply<()>)
    ensures reply.status == 200 && reply.body.Data?
  {
    reply := Reply(200, Data(()));
  }

  /** me: 401 when no user is attached, otherwise that user without the role id. */
  function Me(user: Option<SessionUser>): (reply: Reply<PublicUser>)
    ensures user.None? <==> reply == Fail(401, NotAuthenticated)
    ensures user.Some? ==> reply.status == 200 && reply.body == Data(PublicUser(user.value.email, user.value.id, user.value.nombre, user.value.rolNombre))
  {
    if user.None? then Fail(401, NotAuthenticated) else Reply(200, Data(Public(user.value)))
  }

  /**
   * register: 400 unless all three fields are given; a service failure (taken
   * email, missing Cliente role) is a 400 with its message; otherwise 201 with
   * a token for the new Cliente.
   */
  method Register(db: Database, nombre: Option<string>, email: Option<string>, password: Option<string>,
                  salt: string, hash: (string, string) -> string, sign: SessionUser -> string)
    returns (reply: Reply<Session>)
    requires db.Valid()
    modifies db
    ensures db.Valid()
    ensures !(Present(nombre) && Present(email) && Present(password)) ==>
      reply == Fail(400, RegisterFieldsRequired) && unchanged(db)
    ensures Present(nombre) && Present(email) && Present(password) && AuthService.EmailRegistered(old(db.usuarios), email.value) ==>
      reply == Fail(400, AuthService.EmailTaken) && db.usuarios == old(db.usuarios)
    ensures reply.status == 201 <==>
      && Present(nombre) && Present(email) && Present(password)
      && !AuthService.EmailRegistered(old(db.usuarios), email.value)
      && exists id :: id in old(db.roles) && old(db.roles)[id] == "Cliente"
    ensures reply.status == 201 ==>
      && reply.body.Data?
      && var u := reply.body.value.user;
      && u.id == old(db.nextUserId) && u.id !in old(db.usuarios) && u.id in db.usuarios
      && db.nextUserId == old(db.nextUserId) + 1
      && u.email == email.value && u.nombre == nombre.value && u.rolNombre == Cliente
      && db.usuarios[u.id].rolId in db.roles && db.roles[db.usuarios[u.id].rolId] == "Cliente"
      && db.usuarios == old(db.usuarios)[u.id := User(u.id, nombre.value, email.value, hash(password.value, salt), db.usuarios[u.id].rolId)]
      && reply.body.value == SessionFor(sign, SessionUser(u.id, email.value, nombre.value, db.usuarios[u.id].rolId, Cliente))
    ensures reply.status != 201 ==>
      reply.status == 400 && db.usuarios == old(db.usuarios) && db.nextUserId == old(db.nextUserId)
    ensures db.roles == old(db.roles) && db.nextRoleId == old(db.nextRoleId) && db.clock == old(db.clock)
    ensures db.TicketsUnchanged() && db.ResponsesUnchanged()
  {
    if !Present(nombre) || !Present(email) || !Present(password) {
      return Fail(400, RegisterFieldsRequired);
    }
    var r := AuthService.Register(db, nombre.value, email.value, password.value, salt, hash);
    if r.Err? {
      return Fail(400, r.error);
    }
    reply := Reply(201, Data(SessionFor(sign, r.value)));
  }
}
