/**
 * The entities of backend/types/index.ts: the closed role and status enums,
 * and the rows of the usuarios, roles, solicitudes and respuestas tables.
 * Timestamps (fecha_creacion, fecha_actualizacion) are readings of a monotone
 * counter that stands for CURRENT_TIMESTAMP.
 */
module Types {
  import opened Wrappers

  /** RoleName: exactly "Administrador", "Cliente" or "Soporte". */
  datatype RoleName = Administrador | Cliente | Soporte

  /** The text a role has in the roles table and in a session user. */
  function RoleText(r: RoleName): string {
    match r
    case Administrador => "Administrador"
    case Cliente => "Cliente"
    case Soporte => "Soporte"
  }

  /** Reads a stored role name; anything outside the closed set is rejected. */
  function ParseRoleName(s: string): (r: Option<RoleName>)
    ensures r.Some? ==> RoleText(r.value) == s
    ensures r.None? ==> forall role: RoleName :: RoleText(role) != s
  {
    if s == "Administrador" then Some(Administrador)
    else if s == "Cliente" then Some(Cliente)
    else if s == "Soporte" then Some(Soporte)
    else None
  }

  /** Every role name reads back as itself. */
  lemma RoleTextRoundTrip(r: RoleName)
    ensures ParseRoleName(RoleText(r)) == Some(r)
  {
  }

  /** TicketStatus: exactly "abierta", "en progreso" or "cerrada". */
  datatype TicketStatus = Abierta | EnProgreso | Cerrada

  function StatusText(s: TicketStatus): string {
    match s
    case Abierta => "abierta"
    case EnProgreso => "en progreso"
    case Cerrada => "cerrada"
  }

  /** `validStatuses.includes(status)`: the status a request string names, if any. */
  function ParseStatus(s: string): (r: Option<TicketStatus>)
    ensures r.Some? ==> StatusText(r.value) == s
    ensures r.None? ==> forall st: TicketStatus :: StatusText(st) != s
  {
    if s == "abierta" then Some(Abierta)
    else if s == "en progreso" then Some(EnProgreso)
    else if s == "cerrada" then Some(Cerrada)
    else None
  }

  /** Every status reads back as itself. */
  lemma StatusTextRoundTrip(s: TicketStatus)
    ensures ParseStatus(StatusText(s)) == Some(s)
  {
  }

  /** The message with which the response service and the controllers report a missing ticket. */
  const TicketMissing := "Solicitud no encontrada"

  /** A row of `solicitudes`: the assignee may be null, the creator is always present. */
  datatype Ticket = Ticket(
    id: int,
    titulo: string,
    descripcion: string,
    estado: TicketStatus,
    creadaPorId: int,
    asignadaAId: Option<int>,
    fechaCreacion: nat,
    fechaActualizacion: nat)

  /** A row of `respuestas`: it references its ticket and its author by id. */
  datatype Response = Response(
    id: int,
    solicitudId: int,
    respuesta: string,
    creadaPorId: int,
    fechaCreacion: nat)

  /** A row of `usuarios`; `contrasena` holds the password hash. */
  datatype User = User(id: int, nombre: string, email: string, contrasena: string, rolId: int)

  /** A row of `roles`. */
  datatype Role = Role(id: int, nombre: string)

  /** The authenticated user a token carries: both the role id and its name. */
  datatype SessionUser = SessionUser(id: int, email: string, nombre: string, rolId: int, rolNombre: RoleName)
}
