/**
 * backend/services/authService.ts: registration, login and user lookup over
 * the usuarios and roles tables. bcrypt and jsonwebtoken are foreign code and
 * enter as function parameters: `hash` (with the random salt as an argument),
 * `compare`, `sign` and `verify`.
 */
module AuthService {
  import opened Wrappers
  import opened Types
  import opened Store

  const InvalidToken := "Token inválido o expirado"
  const InvalidCredentials := "Credenciales incorrectas"
  const EmailTaken := "El correo electrónico ya está registrado"
  const ClienteRoleMissing := "Rol Cliente no encontrado"

  /** generateToken: the five session fields, signed by the JWT library. */
  function GenerateToken(sign: SessionUser -> string, user: SessionUser): string {
    sign(user)
  }

  /** verifyToken: whatever makes the library fail is reported as one error. */
  function VerifyToken(verify: string -> Option<SessionUser>, token: string): (r: Result<SessionUser, string>)
    ensures r.Ok? <==> verify(token).Some?
    ensures r.Ok? ==> r.value == verify(token).value
    ensures r.Err? ==> r.error == InvalidToken
  {
    match verify(token)
    case Some(user) => Ok(user)
    case None => Err(InvalidToken)
  }

  /** A token issued for a user verifies back to that user when the library round-trips. */
  lemma TokenRoundTrip(sign: SessionUser -> string, verify: string -> Option<SessionUser>, user: SessionUser)
    requires verify(sign(user)) == Some(user)
    ensures VerifyToken(verify, GenerateToken(sign, user)) == Ok(user)
  {
  }

  /** The session fields of a user row joined with its role row. */
  function SessionOf(db: Database, u: User): SessionUser
    requires db.Valid() && u.rolId in db.roles
    reads db
  {
    SessionUser(u.id, u.email, u.nombre, u.rolId, ParseRoleName(db.roles[u.rolId]).value)
  }

  /** getUserById: `JOIN roles` on the user row, or null for an unknown id. */
  function GetUserById(db: Database, id: int): (r: Option<SessionUser>)
    requires db.Valid()
    reads db
    ensures r.Some? <==> id in db.usuarios
    ensures r.Some? ==>
      && r.value.id == id && r.value.email == db.usuarios[id].email && r.value.nombre == db.usuarios[id].nombre
      && r.value.rolId == db.usuarios[id].rolId && RoleText(r.value.rolNombre) == db.roles[r.value.rolId]
  {
    if id in db.usuarios && db.usuarios[id].rolId in db.roles then Some(SessionOf(db, db.usuarios[id])) else None
  }

  /** Some user row has this email. */
  ghost predicate EmailRegistered(users: map<int, User>, email: string) {
    exists id :: id in users && users[id].email == email
  }

  /** `SELECT ... FROM usuarios WHERE email = $1`: a scan by id. */
  method FindUserByEmail(db: Database, email: string) returns (found: Option<int>)
    requires db.Valid()
    ensures found.Some? ==> found.value in db.usuarios && db.usuarios[found.value].email == email
    ensures found.None? <==> !EmailRegistered(db.usuarios, email)
  {
    var id := 1;
    while id < db.nextUserId
      invariant 1 <= id <= db.nextUserId
      invariant forall k :: k in db.usuarios && k < id ==> db.usuarios[k].email != email
    {
      if id in db.usuarios && db.usuarios[id].email == email {
        return Some(id);
      }
      id := id + 1;
    }
    found := None;
  }

  /** `SELECT id FROM roles WHERE nombre = $1`. */
  method FindRoleByName(db: Database, name: string) returns (found: Option<int>)
    requires db.Valid()
    ensures found.Some? ==> found.value in db.roles && db.roles[found.value] == name
    ensures found.None? <==> forall id :: id in db.roles ==> db.roles[id] != name
  {
    var id := 1;
    while id < db.nextRoleId
      invariant 1 <= id <= db.nextRoleId
      invariant forall k :: k in db.roles && k < id ==> db.roles[k] != name
    {
      if id in db.roles && db.roles[id] == name {
        return Some(id);
      }
      id := id + 1;
    }
    found := None;
  }

  /**
   * login: an unknown email and a wrong password raise the same error; on
   * success the stored user's id, email, name and role come back.
   */
  method Login(db: Database, email: string, password: string, compare: (string, string) -> bool)
    returns (r: Result<SessionUser, string>)
    requires db.Valid()
    ensures r.Err? ==> r.error == InvalidCredentials
    ensures r.Ok? <==> exists id :: id in db.usuarios && db.usuarios[id].email == email
                                    && compare(password, db.usuarios[id].contrasena)
    ensures r.Ok? ==> r.value.email == email && GetUserById(db, r.value.id) == Some(r.value)
  {
    var found := FindUserByEmail(db, email);
    if found.None? {
      assert forall id :: id in db.usuarios ==> db.usuarios[id].email != email;
      return Err(InvalidCredentials);
    }
    // The JOIN with roles always finds the row: every user references a role.
    var uid := found.value;
    assert uid in db.usuarios;
    assert db.UsersValid();
    assert db.usuarios[uid].rolId in db.roles;
    var user := db.usuarios[uid];
    assert user.id == found.value;
    assert forall id :: id in db.usuarios && db.usuarios[id].email == email ==> id == found.value;
    if !compare(password, user.contrasena) {
      return Err(InvalidCredentials);
    }
    r := Ok(SessionOf(db, user));
  }

  /**
   * register: rejects a taken email, needs the Cliente role row, stores the
   * hash of the password and always gives the new user the Cliente role.
   */
  method Register(db: Database, nombre: string, email: string, password: string, salt: string,
                  hash: (string, string) -> string)
    returns (r: Result<SessionUser, string>)
    requires db.Valid()
    modifies db
    ensures db.Valid()
    ensures EmailRegistered(old(db.usuarios), email) ==> r == Err(EmailTaken)
    ensures !EmailRegistered(old(db.usuarios), email) && (forall id :: id in db.roles ==> db.roles[id] != "Cliente") ==>
      r == Err(ClienteRoleMissing)
    ensures r.Ok? <==>
      !EmailRegistered(old(db.usuarios), email) && exists id :: id in db.roles && db.roles[id] == "Cliente"
    ensures r.Err? ==> db.usuarios == old(db.usuarios) && db.nextUserId == old(db.nextUserId)
    ensures r.Ok? ==>
      && r.value.id == old(db.nextUserId) && r.value.id !in old(db.usuarios)
      && r.value.email == email && r.value.nombre == nombre
      && r.value.rolNombre == Cliente && r.value.rolId in db.roles && db.roles[r.value.rolId] == "Cliente"
      && db.usuarios == old(db.usuarios)[r.value.id := User(r.value.id, nombre, email, hash(password, salt), r.value.rolId)]
      && db.nextUserId == old(db.nextUserId) + 1
    ensures db.roles == old(db.roles) && db.nextRoleId == old(db.nextRoleId)
    ensures db.TicketsUnchanged() && db.ResponsesUnchanged() && db.clock == old(db.clock)
  {
    var existing := FindUserByEmail(db, email);
    if existing.Some? {
      return Err(EmailTaken);
    }
    var clienteRoleId := FindRoleByName(db, "Cliente");
    if clienteRoleId.None? {
      return Err(ClienteRoleMissing);
    }
    var hashed := hash(password, salt);
    var id := db.nextUserId;
    var user := User(id, nombre, email, hashed, clienteRoleId.value);
    AddUser(db.usuarios, db.roles, id, user);
    db.usuarios, db.nextUserId := db.usuarios[id := user], id + 1;
    assert ParseRoleName(db.roles[clienteRoleId.value]) == Some(Cliente);
    r := Ok(SessionUser(id, email, nombre, clienteRoleId.value, Cliente));
  }
}
