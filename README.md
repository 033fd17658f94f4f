# Support-ticket backend: verified model of the policy and lifecycle layer

This project models the backend of a role-based support-ticket platform
(plataforma-soporte). Clients (`Cliente`) open tickets (`solicitudes`),
support agents (`Soporte`) claim them and move them through the statuses
`abierta`, `en progreso` and `cerrada`, everybody who may see a ticket can
add responses (`respuestas`), and administrators (`Administrador`) see all
tickets, statistics and accounts. Every route authenticates with a Bearer
JWT and some routes also require a role. Staff and ticket owners are
notified by mail.

The model keeps what the backend decides and drops the plumbing around it:

- `Store.Database` holds the four SQL tables as in-memory maps and a log,
  with serial id counters and a monotone `clock` that stands for
  `CURRENT_TIMESTAMP`. `Valid()` states the database's own integrity:
  ids are keys, every user references a role, every response references a
  ticket, emails are unique, and later rows carry later times.
- The services (`TicketService`, `ResponseService`, `AuthService`,
  `UserService`, `EmailService`) are methods over the database. Each
  states its error cases, its result and the whole new state.
- The controllers (`TicketController`, `ResponseController`,
  `AiController`, `AuthController`, `UserController`) return the reply
  they write: a status code and either the payload or an error message.
  The ticket and response controllers also return the mails the notifier
  hands to the transport (for a new ticket: none, see "## Findings"). Each controller receives the session user that
  `requireAuth` attached and the path id as a number.
- `AuthMiddleware` models `requireAuth` and `requireRole` over an
  `Exchange`: the request header, `req.user`, the error written and the
  number of `next()` calls.
- `TicketRoutes` is the route table of the ticket router in registration
  order. It has first-match dispatch and runs a route's middleware chain.
  Like `express.Router()` by default, fixed path text matches in any mix
  of cases. Only ASCII letters are folded: every fixed segment is ASCII,
  and a case-insensitive JavaScript regular expression never folds a
  non-ASCII character onto an ASCII one.
- Foreign code enters as function parameters: bcrypt's `hash` (with the
  salt as an argument) and `compare`, jsonwebtoken's `sign` and `verify`,
  and the language-model suggestion generator.

Where the code and its documentation disagree, the model follows the code:

- A claim succeeds when the ticket is unassigned OR open
  (`asignada_a_id IS NULL OR estado = 'abierta'`), not only when both
  hold. An open ticket already assigned to someone else can be re-claimed,
  and a closed, unassigned one can be claimed.
- A failed claim, a missing ticket included, is a 400 with one message.
- Changing a ticket's status has no per-ticket access check. Any
  `Soporte` or `Administrador` may change any ticket.
- The statuses are `abierta`, `en progreso` and `cerrada`. The route
  documentation's other status names and its priorities are not used by
  the code.

## Model

| member | source | states |
|---|---|---|
| Types.ParseRoleName | backend/types/index.ts:16 | a stored role name is accepted exactly when it is one of the three role names, and it reads back as the same text |
| Types.RoleTextRoundTrip | backend/types/index.ts:16 | every role name reads back as itself |
| Types.ParseStatus | backend/services/ticketService.ts:147-151 | a status string is accepted exactly when it is one of `abierta`, `en progreso`, `cerrada`; anything else names no status |
| Types.StatusTextRoundTrip | backend/types/index.ts:41 | every status reads back as itself |
| TicketService.CanAccessTicket | backend/services/ticketService.ts:26-41 | an administrator may access every ticket; a client exactly their own; an agent an assigned ticket exactly when it is assigned to them, and an unassigned one exactly when it is open |
| TicketService.ListingQueryIsAccessPolicy | backend/services/ticketService.ts:26-41 | the role-branching WHERE clauses of the listing select a ticket exactly when `canAccessTicket` holds: Administrador always, Soporte when assigned to them or open and unassigned, anyone else when they created it |
| TicketService.CreateTicket | backend/services/ticketService.ts:43-58 | a fresh id; status `abierta`; creator is the caller; no assignee; creation and update time are now; only that row is added |
| TicketService.GetTicketById | backend/services/ticketService.ts:60-82 | a ticket exactly when the id is stored, and it is the row under that id |
| TicketService.Claimable | backend/services/ticketService.ts:11 | an open ticket and an unassigned ticket can each be claimed whatever the other column says; only a ticket that is both assigned and not open cannot |
| TicketService.ClaimedIsNotClaimable | backend/services/ticketService.ts:9-11 | a claimed ticket cannot be claimed again until its status goes back to `abierta` |
| TicketService.ClaimGivesAccess | backend/services/ticketService.ts:9-37 | after a claim the claiming agent, and no other agent, may access the ticket |
| TicketService.ClaimNeedsNoAccess | backend/services/ticketService.ts:11-37 | an agent may claim an open ticket assigned to someone else even though the access policy hides it from them |
| TicketService.Claimed | backend/services/ticketService.ts:9-11 | a claim sets the assignee to the caller, the status to `en progreso` and the update time, and keeps title, description, creator and creation time |
| TicketService.AssignTicket | backend/services/ticketService.ts:6-24 | succeeds exactly when the ticket exists and is unassigned or open; on success only that row changes; otherwise the single "No se pudo asignar…" error and nothing changes, also for a missing ticket |
| TicketService.UpdateTicketStatus | backend/services/ticketService.ts:143-168 | an unknown status is rejected before the table is read; a missing id gives "Ticket no encontrado"; otherwise only status and update time of that row change |
| TicketService.GetTicketsByRole | backend/services/ticketService.ts:84-141 | the result holds exactly the stored tickets the caller may access, newest first |
| TicketService.CountMatching | backend/services/ticketService.ts:172-176 | a `COUNT(*)` of one group is the number of tickets meeting its criterion |
| TicketService.StatusCountsPartition | backend/services/ticketService.ts:172-176 | the three status groups together count every ticket |
| TicketService.StatusGroups | backend/services/ticketService.ts:171-176 | one row per status some ticket has, with its count; the rows together count every ticket |
| TicketService.ClientGroups | backend/services/ticketService.ts:179-185 | one row per user who created tickets, with that user's count |
| TicketService.TopClients | backend/services/ticketService.ts:186-187 | at most `limit` rows, in descending count order, drawn from the groups, distinct; a group left out means the limit was reached by rows with counts at least as large |
| TicketService.SelectLargest | backend/services/ticketService.ts:186-187 | moving a largest remaining group to the end of the ranking keeps it descending and distinct, and loses no group |
| TicketService.GetTicketStats | backend/services/ticketService.ts:170-206 | the status rows sum to the number of tickets and list every non-empty status with its count; at most ten client rows, distinct, in descending count order, each with that client's count; a creator left out was outnumbered by ten others |
| ResponseService.CreateResponse | backend/services/responseService.ts:6-31 | a missing ticket gives "Solicitud no encontrada" and nothing is inserted; otherwise one row with the ticket id, the text and the author is appended and nothing else changes |
| ResponseService.ResponsesOfExactly | backend/services/responseService.ts:42 | the filtered log holds exactly the responses of that ticket |
| ResponseService.ResponsesOfAscending | backend/services/responseService.ts:43 | a log in creation order gives a listing in creation order |
| ResponseService.GetResponsesByTicketId | backend/services/responseService.ts:33-49 | exactly the ticket's responses, oldest first |
| AuthService.GenerateToken | backend/services/authService.ts:12-25 | the token is the JWT library's signature over the five session fields; TokenRoundTrip ties it to VerifyToken |
| AuthService.VerifyToken | backend/services/authService.ts:27-34 | the decoded user when the library accepts the token; every failure becomes the one "Token inválido o expirado" error |
| AuthService.TokenRoundTrip | backend/services/authService.ts:12-34 | a token signed for a user verifies back to that user whenever the library round-trips |
| AuthService.GetUserById | backend/services/authService.ts:36-60 | nothing for an unknown id; otherwise the stored user's id, email, name, role id and role name |
| AuthService.FindUserByEmail | backend/services/authService.ts:102-105 | a user with that email when one exists, nothing exactly when none does |
| AuthService.FindRoleByName | backend/services/authService.ts:112-115 | a role row with that name when one exists, nothing exactly when none does |
| AuthService.Login | backend/services/authService.ts:62-94 | succeeds exactly when a user with that email has a password the comparison accepts; an unknown email and a wrong password give the same "Credenciales incorrectas"; success returns the stored user with its role |
| Store.AddUser | backend/services/authService.ts:127-134 | inserting a user under the next id with an unused email and an existing role keeps ids, emails and role references consistent |
| AuthService.Register | backend/services/authService.ts:96-145 | succeeds exactly when the email is free and a Cliente role row exists; a taken email gives "El correo electrónico ya está registrado" and inserts nothing; a missing Cliente role row fails; otherwise one new user with the hash of the password and the Cliente role, whatever the input |
| UserService.GetAllUsers | backend/services/userService.ts:6-23 | every user exactly once, joined with its role name, without the password, in increasing id order |
| UserService.GetRoles | backend/services/userService.ts:25-28 | every role row exactly once, in increasing id order |
| UserService.UpdateUserRole | backend/services/userService.ts:30-56 | an unknown role gives "Rol no encontrado" before the user is looked up; an unknown user gives "Usuario no encontrado"; otherwise only that user's role id changes, with no check against changing one's own role |
| EmailService.MailsTo | backend/services/emailService.ts:83-114 | exactly one mail per recipient, in recipient order |
| EmailService.UsersByRole | backend/services/emailService.ts:37-49 | exactly the users whose role row has that exact name, each once |
| EmailService.LowerCaseRoleNamesMatchNobody | backend/services/emailService.ts:74-75 | no user has a role named "administrador" or "soporte" |
| EmailService.SendTicketCreatedEmailAsWritten | backend/services/emailService.ts:71-122 | as written, a new ticket mails nobody |
| EmailService.SendTicketCreatedEmail | backend/services/emailService.ts:71-122 | corrected notifier, not called by the ticket controller: every administrator, then every support agent, each once; nobody only when there is no staff; one mail each |
| EmailService.SendTicketAssignedEmail | backend/services/emailService.ts:127-169 | at most one mail, to the assigned agent, sent exactly when the ticket's creator is found |
| EmailService.LookupsPushed | backend/services/emailService.ts:248-267 | pushing the wanted creator and then the wanted assignee yields exactly the wanted users that exist, the creator first, at most two, no id twice |
| EmailService.SendTicketStatusChangedEmail | backend/services/emailService.ts:175-233 | at most two recipients, no duplicates: the creator if found, first, and the assignee if set, different from the creator and found; the mail names the old and the new status |
| EmailService.SendResponseAddedEmail | backend/services/emailService.ts:239-317 | at most two recipients, no duplicates, never the responder: the creator and the assignee, each if found, the assignee only if different from the creator |
| AuthMiddleware.BearerToken | backend/middleware/auth.ts:14-20 | a token exactly when the header is present and starts with "Bearer ", and the header is that prefix followed by the token |
| AuthMiddleware.BearerTokenRoundTrip | backend/middleware/auth.ts:19 | the token after the prefix is the one that was put there |
| AuthMiddleware.RequireAuth | backend/middleware/auth.ts:6-30 | 401 "No autorizado…" for a missing or non-Bearer header and 401 "Token inválido o expirado." for a rejected token, without calling `next`; otherwise `req.user` is the decoded user and `next` runs once |
| AuthMiddleware.RequireRole | backend/middleware/auth.ts:32-51 | 401 without a user, 403 exactly when the role is not listed, otherwise `next` once |
| TicketRoutes.FirstMatch | backend/routes/ticketRoutes.ts:55-330 | the first registered route whose verb and path match, and no earlier one matches |
| TicketRoutes.EveryRouteAuthenticatesFirst | backend/routes/ticketRoutes.ts:55-330 | on every route authentication runs first and only role gates follow |
| TicketRoutes.StatsIsNeverATicketId | backend/routes/ticketRoutes.ts:164-208 | `/stats`, in any mix of cases, reaches the statistics handler, never the lookup by id |
| TicketRoutes.CapitalisedStatsIsStatistics | backend/routes/ticketRoutes.ts:6 | `/Stats` is the statistics route too, because the router is not case sensitive |
| TicketRoutes.OtherSegmentsAreTicketIds | backend/routes/ticketRoutes.ts:208 | any other non-empty single segment, that is one that is not "stats" in some mix of cases, reaches the lookup by id |
| TicketRoutes.OpenRoutesNeedOnlyASession | backend/routes/ticketRoutes.ts:55-208 | create, list and get-by-id need authentication only |
| TicketRoutes.StatsNeedAdministrador | backend/routes/ticketRoutes.ts:164 | the statistics route admits Administrador only |
| TicketRoutes.StaffRoutesNeedStaff | backend/routes/ticketRoutes.ts:255-330 | the assign and status routes admit Soporte and Administrador, never Cliente |
| TicketRoutes.RunGates | backend/routes/ticketRoutes.ts:164 | a chain admits exactly a valid token whose user passes every role gate; a missing bearer token and a rejected token are 401s with their own messages that leave the attached user and the `next` count unchanged; a failed role gate is a 403 with the verified user attached, after one `next` per gate before the first one the user fails; an admitted request called `next` once per gate |
| TicketController.AssignTicket | backend/controllers/ticketController.ts:9-31 | 200 with the claimed ticket exactly when the claim succeeds; any failure is a 400 with the service's message, no mail and no change; the assignment mail only after a successful claim |
| TicketController.CreateTicket | backend/controllers/ticketController.ts:33-62 | 400 and no ticket unless title and description are non-empty; otherwise 201 with an open, unassigned ticket of the caller, and, through the notifier as written, no mail at all |
| TicketController.GetTicketById | backend/controllers/ticketController.ts:64-89 | 404 before 403; 200 with the ticket exactly when it exists and the caller may access it |
| TicketController.GetTickets | backend/controllers/ticketController.ts:91-102 | 200 with exactly the tickets the caller may access, newest first |
| TicketController.UpdateTicketStatus | backend/controllers/ticketController.ts:104-140 | 400 for a missing status, then 404 for a missing ticket whatever the status, then 400 for an unknown status; no caller enters the decision; on success exactly the creator, then a distinct assignee, each if found, get one mail carrying the status before and after the change |
| TicketController.GetTicketStats | backend/controllers/ticketController.ts:142-158 | 403 for every role but Administrador; otherwise 200 with the statistics of the service: every non-empty status with its count, summing to the ticket total, and the top ten creators with their counts |
| ResponseController.CreateResponse | backend/controllers/responseController.ts:8-62 | 400 for an empty text before any lookup, then 404, then 403, each with no change; 201 exactly when all pass, with the caller's response appended; then exactly the ticket's creator and assignee, each if found and not the caller, get one mail each, the creator first |
| ResponseController.GetResponsesByTicketId | backend/controllers/responseController.ts:64-91 | 404, then 403, then 200 with exactly that ticket's responses, oldest first |
| AiController.GetSuggestions | backend/controllers/aiController.ts:7-53 | a Cliente gets 403 before any lookup; then 404, then 403 for a ticket the caller may not access; only then the generator runs, from title and description, and its error becomes a 500 with its message |
| AuthController.Login | backend/controllers/authController.ts:6-39 | 400 unless email and password are given; 401 "Credenciales incorrectas" for any service failure; 200 exactly when the credentials match, with a token for the stored user and that user without the role id |
| AuthController.Logout | backend/controllers/authController.ts:41-44 | always 200; no state to change |
| AuthController.Me | backend/controllers/authController.ts:46-63 | 401 exactly when no user is attached; otherwise 200 with the user without the role id |
| AuthController.Register | backend/controllers/authController.ts:65-98 | 400 unless all three fields are given; a taken email is a 400; 201 exactly when the fields are given, the email is free and a Cliente role row exists before the call; then exactly one user is added under the next serial id, with the hash of the password and the Cliente row's id, and the reply carries a token for that user; every failure leaves the users and the user serial unchanged; the roles, the role serial and the clock never change |
| UserController.GetAllUsers | backend/controllers/userController.ts:6-13 | 200 with every user and role name in increasing id order |
| UserController.GetRoles | backend/controllers/userController.ts:15-22 | 200 with every role in increasing id order |
| UserController.UpdateUserRole | backend/controllers/userController.ts:24-47 | 400 for a missing or zero `rol_id` before the service runs; the service's errors as 400s; 200 exactly when role and user exist, with only that user's role id changed and the reply carrying the updated user with its stored name and email; the serials and the clock never change |

## Left out

- PostgreSQL, the connection pool, the session configuration, the server
  setup and the seed script. The tables are in-memory maps. The seeded role
  rows are the constructor `Store.Database.Seeded`.
- Concurrency. Each service call is one atomic step. The "Ticket no
  encontrado" branch of status update and the "Solicitud no encontrada"
  branch of response creation can only be reached when a ticket disappears
  between the controller's lookup and the service call, so the controllers
  never take them.
- bcrypt and jsonwebtoken are function parameters. Token expiry, the
  secret and the `iat`/`exp` claims are not modelled.
- SMTP: the transport, subjects, HTML and text templates, dates formatted
  with `toLocaleString`, and console logging. The mails are returned
  instead of sent. A failed send is caught and logged in the source, so no
  `send*` operation can fail.
- `aiService`: the language-model call and the parsing of its output are
  the `generate` parameter.
- The response and AI routers only attach `requireAuth`. The user and
  auth routers are not part of this model, so the gating of `/api/users`
  is not modelled.
- Trailing slashes: Express's non-strict routing ignores one at the end of
  a path; the model takes a path as its segments without it.
- The documentation comments in the ticket router and its status and
  priority enums.
- The frontend.
- `parseInt` of path ids, including `NaN`. Controllers receive a numeric
  id.
- The display columns of the LEFT JOINs (`creada_por_nombre`,
  `asignada_a_email`, ...). Controller results carry the stored rows.
- Success messages such as "Solicitud creada exitosamente" that accompany
  a payload.
- The 500 replies of the `catch` blocks. In this model nothing throws
  except the service errors that the controllers map explicitly.
- A synchronous exception thrown by a later handler inside `requireAuth`'s
  `try` would also be answered with 401. Handlers here are asynchronous,
  so this is not modelled.
- TicketService.GetTicketStats: the 30-day timeline is left out. The
  counter clock has no calendar dates. The order of the status rows (a
  `GROUP BY` without `ORDER BY`) is fixed to `abierta`, `en progreso`,
  `cerrada`. Ties in the client ranking are broken by the lowest user id.
  The model states that the counts descend, not which tied row comes first.
- EmailService.UsersByRole: the query has no `ORDER BY`. The model returns
  users in id order.
- Timestamps are distinct readings of a counter. Two rows written in the
  same transaction could share a `CURRENT_TIMESTAMP` in PostgreSQL; the
  model does not cover that case.

## Findings

| source | as written | input that shows it | evidently intended | confidence | as-written member | corrected member |
|---|---|---|---|---|---|---|
| backend/services/emailService.ts:74-75 | `getUsersByRole("administrador")` and `getUsersByRole("soporte")` compare role names exactly, in lower case, while the role rows are "Administrador" and "Soporte" (inserted at backend/db/seed.ts:16-21 and looked up at backend/db/seed.ts:25-27; backend/types/index.ts:16) | the seeded database plus any administrator or support agent: a new ticket mails nobody | every administrator and support agent is notified of a new ticket, as the function's own comment says; `TicketController.CreateTicket` calls the function as written and so returns no mail | not executed; assumes PostgreSQL's default case-sensitive comparison of text | EmailService.SendTicketCreatedEmailAsWritten | EmailService.SendTicketCreatedEmail |
