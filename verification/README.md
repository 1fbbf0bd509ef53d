# Election registry and client forms, modelled in Dafny

This project models the decision logic of a small election system. The
system has a Fastify server over a MySQL registry and an Angular client.
The model covers these parts:

- **Server: admin routes** (`AdminRoutes`, `PadronBatch`, over the registry
  `Registry`). Each handler is a pure function from the database to a
  reply status, a message and the database afterwards. The model gives:
  - the order of its checks;
  - which rows and columns it touches;
  - which integrity facts it keeps (`Registry.WellFormed`: unique circuit
    ids, unique cédulas, and roll, police and employee rows that refer to
    existing rows).

  The batch roll update is a loop whose visiting order is left open, and
  its result is proved not to depend on that order.
- **Server: authorization** (`Guards`, `UsuariosRoutes`). The hooks
  `verifyJWT`, `verifyAdmin`, `verifySelf`, `verifySelfOrAdmin` and
  `verifyParamsInBody` are predicates over the token, the params and the
  body. Each route chains its hooks, and the first rejection is the reply.
  The citizen routes are modelled over these hooks, together with the
  `verificar` lookup.
- **Client pages**:
  - the registration form's credential, cédula and password rules
    (`FormularioUsuario`);
  - the admin citizen form (`CiudadanosForm`);
  - the autocomplete filters and the deduplicating merge shared by the
    admin forms (`Autocomplete`);
  - the employee and police forms with their add and edit modes
    (`EmpleadosForm`, `PoliciasForm`);
  - the authorities dialog (`AutoridadesModal`);
  - the candidate labels (`ListaDetalles`);
  - the observed-vote rule (`ConfirmarCircuito`);
  - the results page (`Resultados`).

JavaScript semantics are written out where they matter (`Js`):
- strict equality, in which `NaN` equals nothing;
- truthiness, and `||` on values;
- `Number(...)` and unary `+` on strings.

The role strings are kept as strings. The server's admin hook compares
against lower-case `"admin"`. The login type and the results page use
`"ADMIN"`. `Resultados.RolesIncompatibles`,
`UsuariosRoutes.DeclaredRolesNeverAdmin` and
`AdminRoutes.UpperCaseAdminRefused` prove the consequences of that
mismatch.

Database queries become map and sequence lookups. Service replies, dialog
results and session reads become parameters.

## Model

| member | source | states |
|---|---|---|
| Guards.IsAdmin | back/src/plugins/jwt.ts:27-31 | the admin hook passes exactly when the token's `rol` is the string "admin"; the comparison is strict and case-sensitive |
| Guards.IsSelf | back/src/plugins/jwt.ts:38-46 | the self hook passes exactly when the token's `cc` is strictly equal to the param `cc` (a `NaN` never is) |
| Guards.IsSelfOrAdmin | back/src/plugins/jwt.ts:53-61 | the self-or-admin hook, as written (reject when not admin AND not self), passes exactly when the admin hook or the self hook would pass |
| Guards.ParamsInBodySignals | back/src/plugins/jwt.ts:68-82 | no signal for absent or empty params; a signal for non-empty params without a body; otherwise a signal exactly when some param key is missing from the body or holds a value that is not strictly equal |
| Guards.VerifyParamsInBody | back/src/plugins/jwt.ts:66-84 | the hook's early returns and its loop over the param keys signal a bad request exactly when `ParamsInBodySignals` says so |
| Guards.Check | back/src/plugins/jwt.ts:17-84 | the token hook passes exactly with a verified token; given a token, the admin and self-or-admin hooks pass exactly when their predicate holds; the params hook passes exactly when it signals nothing |
| Guards.RunGuards | back/src/routes/usuarios/_id_usuario/index.ts:88-89 | hooks run in order: the request passes exactly when every hook passes; otherwise the reply is the status of the first rejecting hook |
| AdminRoutes.AdminRoute | back/src/routes/admin/index.ts:76 | every admin route answers 401 and leaves the database unchanged without a token or for a non-admin role; for an admin it is the handler's outcome |
| AdminRoutes.UpperCaseAdminRefused | back/src/types/usuarioLogin.ts:5-9 | a token whose `rol` is "ADMIN", the spelling the login type declares, is refused by every admin route with the database unchanged |
| AdminRoutes.SetAll | back/src/routes/admin/index.ts:79-87 | a bulk update sets the closed flag of every circuit, reports every row as affected, changes no other column or table and keeps the database well formed |
| AdminRoutes.AbrirTodos | back/src/routes/admin/index.ts:77-94 | opening sets every circuit's closed flag to false, reports all rows, and changes nothing else |
| AdminRoutes.CerrarTodos | back/src/routes/admin/index.ts:110-127 | closing sets every circuit's closed flag to true, reports all rows, and changes nothing else |
| AdminRoutes.BulkIdempotent | back/src/routes/admin/index.ts:79-81 | opening twice is opening once; closing twice is closing once |
| AdminRoutes.BulkLastWins | back/src/routes/admin/index.ts:79-114 | opening after closing equals opening, and closing after opening equals closing, whatever the previous flags |
| AdminRoutes.ThreeRowsIff | back/src/routes/admin/index.ts:170-177 | the `IN (?, ?, ?)` query returns three rows exactly when the three credentials name three different existing citizens |
| AdminRoutes.SameIdsKeepWellFormed | back/src/routes/admin/index.ts:180-185 | changing circuit columns other than `id` keeps the database well formed |
| AdminRoutes.ModificarAutoridades | back/src/routes/admin/index.ts:150-190 | 404 exactly for a missing circuit; then 400 exactly unless the three credentials are three distinct citizens, so one person cannot hold two roles; otherwise only that circuit's three officer columns change; the database stays well formed |
| AdminRoutes.NullIfEmpty | back/src/routes/admin/index.ts:263 | an absent or empty second surname is stored as NULL; any other value is stored as given |
| AdminRoutes.CrearCiudadano | back/src/routes/admin/index.ts:223-274 | a taken credencial is refused before a taken cédula; success happens exactly when both are free and adds exactly one row holding the body's fields, with every other row unchanged; cédulas stay unique |
| AdminRoutes.AddCitizenKeepsWellFormed | back/src/routes/admin/index.ts:256-268 | inserting a citizen under a new credential with a new cédula adds one key and keeps the database well formed |
| AdminRoutes.NewCedulaKeepsUnique | back/src/routes/admin/index.ts:245-252 | a citizen whose cédula no existing citizen has keeps cédulas unique |
| AdminRoutes.MoreCitizensKeepRefs | back/src/routes/admin/index.ts:256-268 | roll, police and employee rows that referred to existing citizens still do after citizens are only added |
| AdminRoutes.NuevaEntrada | back/src/routes/admin/index.ts:374-377 | a new roll row is not enabled, has not voted, and sits in the given circuit |
| AdminRoutes.AgregarPadron | back/src/routes/admin/index.ts:336-384 | 400 for a missing citizen, then a missing circuit, then an existing roll entry, in that order; otherwise 201 and exactly one new row, not enabled and not voted; the database stays well formed |
| AdminRoutes.AddRollRowKeepsWellFormed | back/src/routes/admin/index.ts:373-377 | a roll row for an existing citizen and circuit keeps the database well formed |
| AdminRoutes.AgregarPolicia | back/src/routes/admin/index.ts:523-583 | 400 for a missing citizen, comisaría or establecimiento, or an existing police entry, in that order; success happens exactly when all checks pass and adds exactly that row |
| AdminRoutes.AddPoliceKeepsWellFormed | back/src/routes/admin/index.ts:570-576 | a police row whose citizen, comisaría and establecimiento exist keeps the database well formed |
| AdminRoutes.EliminarPolicia | back/src/routes/admin/index.ts:606-624 | 404 exactly when no row is removed; otherwise that row, and only it, is gone |
| AdminRoutes.EditarPolicia | back/src/routes/admin/index.ts:651-697 | 404 for a non-police credential, then 400 for a missing comisaría or establecimiento; otherwise only that officer's two reference columns change |
| AdminRoutes.AgregarEmpleado | back/src/routes/admin/index.ts:764-813 | 400 for a missing citizen, a missing organismo, or an existing employee, in that order; success happens exactly when all pass and adds exactly that row |
| AdminRoutes.EliminarEmpleado | back/src/routes/admin/index.ts:836-853 | 404 exactly when no row is removed; otherwise that row, and only it, is gone |
| AdminRoutes.EditarEmpleado | back/src/routes/admin/index.ts:880-913 | 404 for a non-employee, then 400 for a missing organismo; otherwise only that employee's organismo changes |
| PadronBatch.Serie | back/src/routes/admin/index.ts:422 | the series is the credential's first three characters, or all of them when it is shorter |
| PadronBatch.SplitCredencial | back/src/routes/admin/index.ts:422-423 | a three-character series followed by a printed number splits back into that series and that number |
| PadronBatch.CircuitoPara | back/src/routes/admin/index.ts:426-429 | the circuit found is one whose series and number ranges both contain the credential (the model takes the first in table order, see "Left out"); none exactly when no circuit covers it |
| PadronBatch.Asignaciones | back/src/routes/admin/index.ts:410-443 | the rows the update must add are keyed by exactly the citizens in the citizen table without a roll row (the `LEFT JOIN ... IS NULL` query) that some circuit covers, each with a covering circuit |
| PadronBatch.ActualizarPadron | back/src/routes/admin/index.ts:407-452 | only the roll changes; added plus skipped equals the number of citizens absent at the start; the new roll is the old one plus exactly the prescribed rows, each not enabled and not voted; the database stays well formed |
| PadronBatch.Recorrer | back/src/routes/admin/index.ts:418-443 | visiting the absent citizens in any order inserts exactly the covered ones with their circuit and counts added and skipped |
| PadronBatch.AsignacionesKeepWellFormed | back/src/routes/admin/index.ts:437-441 | the rows the update adds refer to existing citizens and circuits |
| PadronBatch.AsignacionPrimerCircuito | back/src/routes/admin/index.ts:426-441 | an added citizen sits in the circuit the lookup picks, which covers its series and number; a skipped one is covered by no circuit |
| UsuariosRoutes.Admision | back/src/routes/usuarios/index.ts:33-55 | routes without hooks admit everything; without a token every guarded route answers 401; admin-only routes admit exactly admins; the by-`cc` routes admit admins or the named citizen, and the update route also requires a matching body |
| UsuariosRoutes.HooksStartWithJwt | back/src/routes/usuarios/_id_usuario/index.ts:34-88 | every guarded route lists the token hook first, so a request without a token stops there with 401 |
| UsuariosRoutes.FirstRejectionWins | back/src/routes/usuarios/_id_usuario/index.ts:88-89 | when the first hook rejects, its status is the route's reply |
| UsuariosRoutes.ListarTodosRoute | back/src/routes/usuarios/index.ts:33-36 | the listing calls the service exactly for an admin token; otherwise 401 |
| UsuariosRoutes.RegistrarRoute | back/src/routes/usuarios/index.ts:55-64 | only admins get through; different passwords give 400 and create nothing; the service creates once, with 201, exactly when an admin sends matching passwords |
| UsuariosRoutes.CircuitoDe | back/src/routes/usuarios/index.ts:97-101 | the circuit the joins pair with a roll row is the first with its id whose establishment, locality and department rows exist; none exactly when no such circuit exists |
| UsuariosRoutes.Apellido | back/src/routes/usuarios/index.ts:93 | the joined surname is NULL exactly when the second surname is NULL, else both surnames with one space |
| UsuariosRoutes.VerificarRoute | back/src/routes/usuarios/index.ts:68-110 | 404 exactly unless a citizen has both the credencial and the cédula, is on the roll, and the inner joins reach its circuit and the circuit's department; otherwise 200 with that citizen's names, both surnames joined by a space, circuit number and department, where a NULL second surname reaches the client as an empty `apellido` because the 200 schema declares a plain string; nothing is written |
| UsuariosRoutes.VerificarTrasAgregarPadron | back/src/routes/usuarios/index.ts:88-110 | after the admin adds a citizen to the roll, `verificar` with that citizen's cédula answers 200 exactly when the chosen circuit's department chain exists, and then with the citizen's names and that circuit's number and department |
| UsuariosRoutes.ObtenerRoute | back/src/routes/usuarios/_id_usuario/index.ts:34-37 | reading by `cc` reaches the service exactly for an admin or the citizen the token names |
| UsuariosRoutes.BorrarRoute | back/src/routes/usuarios/_id_usuario/index.ts:57-61 | deleting reaches the service exactly for an admin and then replies 204 with no body |
| UsuariosRoutes.NonAdminCannotDelete | back/src/routes/usuarios/_id_usuario/index.ts:57 | a non-admin cannot delete any record, their own included |
| UsuariosRoutes.ActualizarRoute | back/src/routes/usuarios/_id_usuario/index.ts:88-92 | the update reaches the service exactly for an admin or the named citizen whose body carries the same `cc`; the service gets the body, not the path value |
| UsuariosRoutes.BodyMatchesPath | back/src/plugins/jwt.ts:78-82 | with the single param `cc`, the params-in-body hook is silent exactly when the body holds the same string under `cc` |
| UsuariosRoutes.DeclaredRolesNeverAdmin | back/src/types/usuarioLogin.ts:5-9 | no role the login type declares passes the admin hook, so the admin-only listing answers 401 for every one of them |
| FormularioUsuario.Credencial | front/src/app/pages/registro-usuario/components/formulario-usuario/formulario-usuario.component.ts:29 | the credential is serie then numero, each character upper-cased, with no lower-case letter left |
| FormularioUsuario.Cedula | front/src/app/pages/registro-usuario/components/formulario-usuario/formulario-usuario.component.ts:30 | the cédula is the digits of the input, each once and in input order: every character comes from the input, every digit of the input is kept, and the i-th character is the input's i-th digit |
| FormularioUsuario.CedulaIdempotent | front/src/app/pages/registro-usuario/components/formulario-usuario/formulario-usuario.component.ts:30 | stripping non-digits twice is stripping once |
| FormularioUsuario.CedulaConcat | front/src/app/pages/registro-usuario/components/formulario-usuario/formulario-usuario.component.ts:30 | stripping distributes over concatenation, so digits keep their order |
| FormularioUsuario.VerificarDatos | front/src/app/pages/registro-usuario/components/formulario-usuario/formulario-usuario.component.ts:28-44 | no field changes unless the credential has 8 characters and the cédula 6 to 8 digits; a found record copies the four display fields and sets valid; not found sets the message and clears valid |
| FormularioUsuario.ValidOnlyAfterLookup | front/src/app/pages/registro-usuario/components/formulario-usuario/formulario-usuario.component.ts:32-39 | the data becomes valid only through a lookup that ran and found a record |
| FormularioUsuario.CheckPassword | front/src/app/pages/registro-usuario/components/formulario-usuario/formulario-usuario.component.ts:68 | a password is accepted exactly when it has 8 to 12 ASCII letters or digits, with an upper-case letter and a digit |
| FormularioUsuario.RegistrarUsuario | front/src/app/pages/registro-usuario/components/formulario-usuario/formulario-usuario.component.ts:67-80 | only the message changes; the rule is checked first, then the confirmation; the success message is shown exactly when both pass |
| CiudadanosForm.NormalizarCredencial | front/src/app/pages/admin/ciudadanos.component.ts:81-88 | the first three characters are upper-cased, the rest unchanged, the length kept, and the empty credential left empty |
| CiudadanosForm.NormalizarIdempotent | front/src/app/pages/admin/ciudadanos.component.ts:84-86 | normalising twice is normalising once |
| CiudadanosForm.NormalizarUpper | front/src/app/pages/admin/ciudadanos.component.ts:84-86 | a credential without lower-case letters is left as it is |
| CiudadanosForm.AgregarCiudadano | front/src/app/pages/admin/ciudadanos.component.ts:63-79 | success clears all seven fields and shows the reply's message when truthy, else the success default; failure keeps every field and shows the failure default |
| Feedback.Mensaje | front/src/app/pages/admin/empleados.component.ts:219-234 | after a reply the message is its `mensaje` when truthy, otherwise the success default; after a thrown error it is always the failure default, since the fetch service's errors carry no `mensaje` |
| Feedback.Confirmado | front/src/app/pages/admin/empleados.component.ts:215-216 | a dialog confirms exactly when it closes with the boolean `true` |
| Autocomplete.FilterText | front/src/app/pages/admin/empleados.component.ts:165 | only typed text filters, and it filters with each character lower-cased; a picked object or an unset control filters with the empty text |
| Autocomplete.Fusion | front/src/app/pages/admin/empleados.component.ts:167 | the merge is the citizens in full, then exactly those extra people whose credential no citizen has, each once and in their order in the extra list |
| Autocomplete.FusionSinDuplicados | front/src/app/pages/admin/empleados.component.ts:166-167 | when each list has distinct credentials, the merge shows no person twice |
| Autocomplete.FiltrarPersonas | front/src/app/pages/admin/empleados.component.ts:163-174 | a falsy value lists citizens then all extras, duplicates included; otherwise exactly the people of the merge matching the lower-cased text on credential or any name, each once and in merge order |
| Autocomplete.FiltrarPersonasSinDuplicados | front/src/app/pages/admin/empleados.component.ts:163-174 | with distinct credentials in each list, a non-falsy filter never lists one person twice |
| Autocomplete.SeleccionMuestraTodo | front/src/app/pages/admin/empleados.component.ts:165 | a picked person filters with the empty text, so the whole merge is offered |
| Autocomplete.PersonasIgnoraMayusculas | front/src/app/pages/admin/empleados.component.ts:165-172 | the person filter gives the same list for a text and its upper-cased form |
| Autocomplete.FiltrarRef | front/src/app/pages/admin/empleados.component.ts:175-182 | a falsy value lists all entries; otherwise exactly those whose lower-cased text or decimal id includes the filter, each once and in list order |
| Autocomplete.RefPorId | front/src/app/pages/admin/empleados.component.ts:180 | typing an entry's id finds that entry |
| Autocomplete.RefIgnoraMayusculas | front/src/app/pages/admin/empleados.component.ts:177-179 | the reference filter gives the same list for a text and its upper-cased form |
| Autocomplete.BuscarPorTexto | front/src/app/pages/admin/empleados.component.ts:198-199 | the control gets the first entry with that exact text, or `null` when none has it |
| Autocomplete.CredencialDe | front/src/app/pages/admin/empleados.component.ts:209 | only a picked person yields a credential; typed text yields `undefined` |
| Autocomplete.IdDe | front/src/app/pages/admin/empleados.component.ts:210 | only a picked entry yields an id; typed text yields `undefined` |
| EmpleadosForm.FiltrarCiudadanos | front/src/app/pages/admin/empleados.component.ts:163-174 | falsy: citizens then employees; otherwise exactly the matching people of the merge (the citizens, then the employees whose credential no citizen has), each once and in merge order; so an employee sharing a citizen's credential is never listed in its own right, and with distinct credentials per list nobody is listed twice |
| EmpleadosForm.FiltrarOrganismos | front/src/app/pages/admin/empleados.component.ts:175-182 | falsy: every organismo; otherwise exactly the organismos whose name or id includes the lower-cased text, each once and in list order |
| EmpleadosForm.BuscarEmpleado | front/src/app/pages/admin/empleados.component.ts:194 | the first employee with the credential, or none exactly when no employee has it |
| EmpleadosForm.Blur | front/src/app/pages/admin/empleados.component.ts:184-205 | edit mode exactly when a picked person is an employee, with that employee current and the organismo control set to the entry of its name or `null`; otherwise add mode with the organismo control reset |
| EmpleadosForm.BlurCoherenteIdempotente | front/src/app/pages/admin/empleados.component.ts:184-205 | a blur leaves edit mode and the current employee in agreement with the picked person, and a second blur changes nothing |
| EmpleadosForm.Reiniciar | front/src/app/pages/admin/empleados.component.ts:257-262 | both controls cleared, edit mode off, no current employee, the message kept |
| EmpleadosForm.Terminar | front/src/app/pages/admin/empleados.component.ts:218-225 | success sets the reply's message or the default and resets the form; failure only sets the failure default |
| EmpleadosForm.Enviar | front/src/app/pages/admin/empleados.component.ts:207-237 | nothing unless both controls are truthy; in edit mode the edit call only when the dialog returns `true`; otherwise the add call without a dialog; the message and reset follow the reply |
| EmpleadosForm.EliminarActual | front/src/app/pages/admin/empleados.component.ts:239-255 | nothing without a current employee or without the dialog returning `true`; otherwise the delete call for that employee |
| EmpleadosForm.PasosCoherentes | front/src/app/pages/admin/empleados.component.ts:207-262 | submitting and deleting keep the edit state in agreement with the picked person |
| EmpleadosForm.EnviarSegunActual | front/src/app/pages/admin/empleados.component.ts:211-228 | an edit goes to the current employee's credential, and an add is made only with no current employee |
| EmpleadosForm.AgregarSoloSinEmpleo | front/src/app/pages/admin/empleados.component.ts:194-228 | after a blur, the add call is made only for a person who is no employee |
| PoliciasForm.FiltrarCiudadanos | front/src/app/pages/admin/policias.component.ts:184-194 | falsy: citizens then officers; otherwise exactly the matching people of the merge (the citizens, then the officers whose credential no citizen has), each once and in merge order; so an officer sharing a citizen's credential is never listed in its own right, and with distinct credentials per list nobody is listed twice |
| PoliciasForm.FiltrarComisarias | front/src/app/pages/admin/policias.component.ts:195-202 | falsy: every comisaría; otherwise exactly the comisarías whose name or id includes the lower-cased text, each once and in list order |
| PoliciasForm.FiltrarEstablecimientos | front/src/app/pages/admin/policias.component.ts:203-210 | falsy: every establecimiento; otherwise exactly the establecimientos whose address or id includes the lower-cased text, each once and in list order |
| PoliciasForm.BuscarPolicia | front/src/app/pages/admin/policias.component.ts:220 | the first officer with the credential, or none exactly when no officer has it |
| PoliciasForm.Blur | front/src/app/pages/admin/policias.component.ts:212-236 | edit mode exactly when a picked person is an officer, with both reference controls set to the entries matching the officer's comisaría name and establecimiento address, or `null`; otherwise add mode with both reset |
| PoliciasForm.BlurCoherenteIdempotente | front/src/app/pages/admin/policias.component.ts:212-236 | a blur leaves edit mode and the current officer in agreement with the picked person, and a second blur changes nothing |
| PoliciasForm.Reiniciar | front/src/app/pages/admin/policias.component.ts:289-295 | all three controls cleared, edit mode off, no current officer, the message kept |
| PoliciasForm.Terminar | front/src/app/pages/admin/policias.component.ts:250-257 | success sets the reply's message or the default and resets the form; failure only sets the failure default |
| PoliciasForm.Enviar | front/src/app/pages/admin/policias.component.ts:238-269 | nothing unless all three controls are truthy; in edit mode the edit call only when the dialog returns `true`; otherwise the add call |
| PoliciasForm.EliminarActual | front/src/app/pages/admin/policias.component.ts:271-287 | nothing without a current officer or without the dialog returning `true`; otherwise the delete call for that officer |
| PoliciasForm.PasosCoherentes | front/src/app/pages/admin/policias.component.ts:238-295 | submitting and deleting keep the edit state in agreement with the picked person |
| PoliciasForm.EnviarSegunActual | front/src/app/pages/admin/policias.component.ts:242-263 | an edit goes to the current officer's credential, and an add is made only with no current officer |
| PoliciasForm.EnviarCompleto | front/src/app/pages/admin/policias.component.ts:239-242 | a call is only made with three truthy controls, and it carries an id exactly for a picked reference entry |
| AutoridadesModal.MostrarCircuito | front/src/app/pages/admin/autoridades-modal.component.ts:264-266 | empty exactly for `null`; otherwise "Circuito <numero> - <departamento>" |
| AutoridadesModal.MostrarEmpleado | front/src/app/pages/admin/autoridades-modal.component.ts:268-270 | empty exactly for `null`; otherwise "<nombres> <apellidos> (<credencial>)" |
| AutoridadesModal.CredencialAlFinal | front/src/app/pages/admin/autoridades-modal.component.ts:268-270 | the shown employee ends with the credential between parentheses |
| AutoridadesModal.FiltrarCircuitos | front/src/app/pages/admin/autoridades-modal.component.ts:272-279 | a falsy value lists every circuit; otherwise exactly those whose number or department includes the lower-cased text, each once and in list order |
| AutoridadesModal.CircuitoElegidoMuestraTodo | front/src/app/pages/admin/autoridades-modal.component.ts:274 | a picked circuit filters with the empty text, so every circuit is offered |
| AutoridadesModal.CircuitosIgnoraMayusculas | front/src/app/pages/admin/autoridades-modal.component.ts:274-278 | the circuit filter gives the same list for a text and its upper-cased form |
| AutoridadesModal.FiltrarEmpleados | front/src/app/pages/admin/autoridades-modal.component.ts:281-289 | a falsy value lists every employee; otherwise exactly those whose names, surnames or credential include the lower-cased text, each once and in list order |
| AutoridadesModal.EmpleadosIgnoraMayusculas | front/src/app/pages/admin/autoridades-modal.component.ts:283-288 | the employee filter gives the same list for a text and its upper-cased form |
| AutoridadesModal.BuscarEmpleado | front/src/app/pages/admin/autoridades-modal.component.ts:333-336 | `null` stays `null`; otherwise the first loaded employee with an equal credential, and `null` exactly when none has it |
| AutoridadesModal.CargarAutoridades | front/src/app/pages/admin/autoridades-modal.component.ts:318-331 | a truthy answer sets each role control to the matching loaded employee or `null`; a `null` answer changes nothing |
| AutoridadesModal.CredencialRol | front/src/app/pages/admin/autoridades-modal.component.ts:341-345 | a role yields a credential exactly when its control holds a picked employee |
| AutoridadesModal.GuardarCambios | front/src/app/pages/admin/autoridades-modal.component.ts:338-345 | nothing exactly without a chosen circuit; otherwise the circuit's id and each role's credential or `undefined` |
| AutoridadesModal.CargarYGuardar | front/src/app/pages/admin/autoridades-modal.component.ts:318-345 | loading authorities and saving untouched sends back each authority's credential when the loaded employees include it, and `undefined` otherwise |
| AutoridadesModal.RecargaRol | front/src/app/pages/admin/autoridades-modal.component.ts:323-345 | one role's load-then-save round trip keeps the credential exactly when a loaded employee has it |
| ListaDetalles.Etiqueta | front/src/app/pages/votar/lista-detalles/lista-detalles.component.ts:83-91 | the numbers 1 to 4 get "Titular", "Primer suplente", "Segundo suplente", "Tercer suplente"; any other number, `NaN` and fractions included, gets the empty label |
| ListaDetalles.EtiquetaIdentificaPosicion | front/src/app/pages/votar/lista-detalles/lista-detalles.component.ts:84-90 | a label is non-empty exactly for the integral numbers 1 to 4, and no two numbers share a label |
| ListaDetalles.EtiquetaDeTexto | front/src/app/pages/votar/lista-detalles/lista-detalles.component.ts:46 | a position the server sends as a printed integer, converted with `+`, is labelled exactly when it is 1 to 4, and the label reads back as that position |
| ListaDetalles.PosicionDeEtiqueta | front/src/app/pages/votar/lista-detalles/lista-detalles.component.ts:84-90 | reading a label back gives its position, and every label read back comes from its position |
| ConfirmarCircuito.Apellido | front/src/app/pages/confirmar-circuito/confirmar-circuito.component.ts:29 | a truthy `apellido` is kept; otherwise the first surname, a space and the second surname or nothing |
| ConfirmarCircuito.CargarDatos | front/src/app/pages/confirmar-circuito/confirmar-circuito.component.ts:24-32 | no user leaves the page unchanged; otherwise the name falls back from `nombre` to `nombres`, the surname as above, and the assigned circuit is `+circuito`; the entry is kept |
| ConfirmarCircuito.ApellidoCompuesto | front/src/app/pages/confirmar-circuito/confirmar-circuito.component.ts:29 | two surnames are joined by one space; without a second surname a trailing space remains |
| ConfirmarCircuito.Confirmar | front/src/app/pages/confirmar-circuito/confirmar-circuito.component.ts:34-57 | observed exactly unless the entry is strictly equal to the assigned number; "true"/"false" is stored; the alert warns or confirms; both lead to `/votar` |
| ConfirmarCircuito.GuardadoLeeObservado | front/src/app/pages/confirmar-circuito/confirmar-circuito.component.ts:35-36 | the stored string is "true" exactly when the vote is observed |
| ConfirmarCircuito.Admite | front/src/app/guards/circuito-confirmado.guard.spec.ts:14-21 | the ballot's guard admits exactly when the `observado` key is present |
| ConfirmarCircuito.ConfirmarAbreBoleta | front/src/app/pages/confirmar-circuito/confirmar-circuito.component.ts:36 | confirming always lets the voter through the ballot's guard, observed or not |
| ConfirmarCircuito.SinCircuitoSiempreObservado | front/src/app/pages/confirmar-circuito/confirmar-circuito.component.ts:30-35 | a session circuit that is not a number makes every vote observed |
| ConfirmarCircuito.CircuitoCorrectoNoObservado | front/src/app/pages/confirmar-circuito/confirmar-circuito.component.ts:30-35 | a session circuit printed as integer `n` and an entry of `n` are not observed |
| ConfirmarCircuito.SinUsuarioNoObservado | front/src/app/pages/confirmar-circuito/confirmar-circuito.component.ts:17-35 | with no session user the initial zeros agree, so confirming untouched is not observed |
| Resultados.Despachar | front/src/app/pages/resultados/resultados.component.ts:110-121 | no user is unauthenticated; the funcionario view exactly for `rol` "FUNCIONARIO", the admin view exactly for "ADMIN", else no permission |
| Resultados.RolesIncompatibles | front/src/app/pages/resultados/resultados.component.ts:115-117 | a token the server's admin hook accepts is refused by this page, and the page's admin is refused by the server |
| Resultados.CargarGenerales | front/src/app/pages/resultados/resultados.component.ts:169-186 | both selections and the filter are cleared; an answer shows the national view; a failure keeps the view and shows its error |
| Resultados.CargarCircuito | front/src/app/pages/resultados/resultados.component.ts:188-207 | nothing without a selected circuit (`null` or 0); otherwise the department and filter are cleared and the circuit view is loaded |
| Resultados.CargarDepartamento | front/src/app/pages/resultados/resultados.component.ts:209-228 | nothing without a selected department; otherwise the circuit and filter are cleared and the department view is loaded |
| Resultados.CargasCoherentes | front/src/app/pages/resultados/resultados.component.ts:169-228 | every answered load leaves a view that agrees with the selection, with at most one of circuit and department selected |
| Resultados.CargasIdempotentes | front/src/app/pages/resultados/resultados.component.ts:169-228 | loading the same view twice with the same answer is loading it once |
| Resultados.CircuitosFiltrados | front/src/app/pages/resultados/resultados.component.ts:283-288 | an empty filter lists every circuit; otherwise exactly the circuits whose "numero - departamento" includes the filter, ignoring case, in order |
| Resultados.EtiquetaEncuentraCircuito | front/src/app/pages/resultados/resultados.component.ts:286 | typing a circuit's label, in any case, finds that circuit |
| Resultados.FiltroIgnoraMayusculas | front/src/app/pages/resultados/resultados.component.ts:286 | the filter gives the same list for a text and its upper-cased form |
| Resultados.ColorPorcentaje | front/src/app/pages/resultados/resultados.component.ts:239-243 | primary exactly from 50, accent exactly from 25 below 50, warn for anything else, `NaN` included |
| Resultados.ColorMonotono | front/src/app/pages/resultados/resultados.component.ts:239-243 | a larger percentage never gets a weaker colour |
| Resultados.FormatearPorcentaje | front/src/app/pages/resultados/resultados.component.ts:231-237 | the literal "0.00%" exactly for `null`, `undefined` or a value that converts to `NaN`; otherwise the converted number |
| Resultados.FormatearTextoEntero | front/src/app/pages/resultados/resultados.component.ts:232-236 | a percentage that arrives as a printed integer is shown as that integer |
| Resultados.ObtenerEstadisticas | front/src/app/pages/resultados/resultados.component.ts:245-252 | a funcionario sees the circuit's figures, an admin the loaded results', anyone else none |
| Resultados.Participacion | front/src/app/pages/resultados/resultados.component.ts:274-281 | "0.0%" exactly without figures or with no one enabled; otherwise the percentage of enabled voters who voted |
| Resultados.ParticipacionAcotada | front/src/app/pages/resultados/resultados.component.ts:279 | with no more voters than enabled voters, participation lies between 0 and 100 |
| Js.StrictEqualsIsEquality | back/src/plugins/jwt.ts:29 | strict equality is value equality except that `NaN` equals nothing |
| Js.StringToNumber | front/src/app/pages/confirmar-circuito/confirmar-circuito.component.ts:30 | unary `+` on a string: blank after trimming gives 0, trimmed digits give their decimal value, and a trimmed text with a character other than a digit, a sign or a point gives `NaN` |
| Js.NumberOfIntToString | front/src/app/pages/confirmar-circuito/confirmar-circuito.component.ts:30 | converting a printed integer back to a number gives that integer |
| Text.ParseIntOfNatToString | back/src/routes/admin/index.ts:423 | `parseInt` of a printed natural number gives that number |
| Seqs.Find | front/src/app/pages/admin/autoridades-modal.component.ts:335 | `find` returns the first element satisfying the test, or nothing exactly when none does |
| Seqs.Filter | front/src/app/pages/admin/empleados.component.ts:168 | `filter` returns the input's elements at exactly the positions whose element passes the test, in increasing position order, so nothing is reordered, dropped or repeated |
| Seqs.KeptAreKept | front/src/app/pages/admin/empleados.component.ts:168 | every position `filter` keeps holds an element that passes the test |
| Seqs.KeptIncreasing | front/src/app/pages/admin/empleados.component.ts:168 | the kept positions are strictly increasing, so the result keeps input order and repeats nothing |
| Seqs.KeptComplete | front/src/app/pages/admin/empleados.component.ts:168 | every position whose element passes the test is kept |
| Seqs.FilterConcat | front/src/app/pages/admin/empleados.component.ts:168 | filtering a concatenation is concatenating the filtered parts |

## Left out

- SQL execution, the mysql client and query text: tables are maps and a
  sequence of circuits, and queries are lookups. The batch update has no
  transaction and is modelled as sequential.
- The `BETWEEN` comparison on the credential series uses the database's
  collation. It is the ordering parameter `le`. Equality on keys is exact
  equality, so no case-insensitive collation is modelled.
- `PadronBatch.CircuitoPara`: a credential whose number part does not
  parse is modelled as matching no circuit. What the driver sends for
  `NaN` is not visible. The circuit query ends in `LIMIT 1` without
  `ORDER BY`, so when several circuits cover a credential the database may
  return any of them. The model takes the first in table order.
  `PadronBatch.AsignacionPrimerCircuito` and the rows the batch adds
  depend on that choice. Only "some covering circuit" is the source's
  promise.
- Internal server errors (the `catch` blocks answering 500) are not
  modelled, because they come from database failures.
- The GET listings of the admin routes are not modelled, because they are
  read-only queries with no logic. These are circuit states, citizens
  without roll or employment, police, employees, comisarías, organismos
  and establecimientos. `Registry.SinPadron` models only the join that the
  batch update uses, and `PadronBatch.Asignaciones` states it.
- Request schema validation by the framework is not modelled. Handlers
  are given already-typed bodies.
- Fastify reply semantics are not modelled. `verifyParamsInBody` calls
  `badRequest` without returning. `Guards.VerifyParamsInBody` reports
  whether a bad request was signalled, and routes treat a signal as
  ending the request with 400.
- The user service is not part of this model. Handlers record the call
  they make (`UsuariosRoutes.Effect`) and its result is opaque. The
  service module shown exports `findById`, `deleteById` and `updateById`,
  while the routes call `findByCC`, `deleteByCC` and `updateByCC`. The
  model records the calls as the routes write them.
- Login and token signing (bcrypt and JWT) are foreign calls. A verified
  token is an input, and its `rol` and `cc` may be missing.
- The elecciones routes are left out, because they are read-only queries.
  The client services are left out, because they only forward requests
  to the server through the fetch service. Session storage, `fetch`, SweetAlert
  pop-ups and router navigation are also left out. Their results are
  parameters, and navigation is recorded as the target route.
- `EmpleadosForm.Enviar`, `PoliciasForm.Enviar`,
  `PoliciasForm.EliminarActual` and `EmpleadosForm.EliminarActual`: the
  list reloads after a call are left to the caller. A reload that fails
  would also set the error message before the reset, and that is not
  modelled.
- Dialog and alert texts are not modelled. Only their results are inputs.
- `Resultados.FormatearPorcentaje` and `Resultados.Participacion`: the
  text `toFixed` prints is not modelled. The result is the number that
  would be printed, with `None` for the literal fallback.
- `Js.StringToNumber`: numeric forms other than signed decimals are
  treated as `NaN`. These are `Infinity`, exponents, and hex, octal and
  binary prefixes.
- `Js.StringToNumber` and `Text.ParseInt`: only ASCII white space is
  trimmed. JavaScript also trims the other Unicode white space, such as
  U+00A0, U+FEFF and U+2028, where the model reads `NaN` or no digits.
  Values are exact reals and integers, not IEEE-754 doubles, so the
  rounding of numbers above 2^53 is not modelled. This matters for
  `+usuario.circuito`, `Number(porcentaje)` and the batch's `parseInt`.
- `FormularioUsuario.VerificarDatos`, `CiudadanosForm.NormalizarCredencial`
  and `PadronBatch.Serie`: JavaScript's `length` and `substring` count
  UTF-16 code units, while a Dafny string counts characters. The two
  agree only on text without characters outside the Basic Multilingual
  Plane, such as emoji. On such text the length gate and the split at
  three differ from the source.
- Case mapping is ASCII only. `toLowerCase` and `toUpperCase` on other
  letters are not modelled.
- The results page's title text (`getTituloVista`) and the results
  display are not modelled, because they are presentation only.
- Loading a candidate list's details (`cargarDetallesLista`) is a service
  call and is not modelled.
- Angular templates, RxJS pipelines, async ordering and change detection
  are not modelled. Each handler runs to completion on its inputs.
