/** The citizen routes of back/src/routes/usuarios/index.ts and
    back/src/routes/usuarios/_id_usuario/index.ts: which hooks each route
    lists, what a request that passes them does, and the `verificar`
    lookup. The user service the handlers call is outside the model: a
    handler's call to it is recorded as the response's `effect`, and its
    result travels as `ServiceResult`. */
module UsuariosRoutes {
  import opened Wrappers
  import opened Js
  import Http
  import Guards
  import Registry
  import AdminRoutes

  datatype Route = ListarTodos | Registrar | Verificar | ObtenerPorCc | BorrarPorCc | ActualizarPorCc

  /** The `onRequest` hooks of each route. */
  function OnRequest(r: Route): seq<Guards.Guard> {
    match r
    case ListarTodos => [Guards.JwtGuard, Guards.AdminGuard]
    case Registrar => [Guards.JwtGuard, Guards.AdminGuard]
    case Verificar => []
    case ObtenerPorCc => [Guards.JwtGuard, Guards.SelfOrAdminGuard]
    case BorrarPorCc => [Guards.JwtGuard, Guards.AdminGuard]
    case ActualizarPorCc => [Guards.JwtGuard, Guards.SelfOrAdminGuard]
  }

  /** The `preHandler` hooks, which run after all of `onRequest`. */
  function PreHandler(r: Route): seq<Guards.Guard> {
    if r == ActualizarPorCc then [Guards.ParamsInBodyGuard] else []
  }

  /** Whether a request gets past the hooks of route `r`: `None` when it
      reaches the handler, else the status it is rejected with. Without a
      valid token every guarded route answers 401. */
  function Admision(r: Route, req: Guards.Request): (rej: Option<int>)
    ensures r == Verificar ==> rej.None?
    ensures r != Verificar && req.user.None? ==> rej == Some(Http.UNAUTHORIZED)
    ensures r in {ListarTodos, Registrar, BorrarPorCc} ==>
              (rej.None? <==> req.user.Some? && Guards.IsAdmin(req.user.value))
    ensures r == ObtenerPorCc ==>
              (rej.None? <==> req.user.Some? && (Guards.IsAdmin(req.user.value)
                                                || Guards.IsSelf(req.user.value, Guards.ParamsOf(req))))
    ensures r == ActualizarPorCc ==>
              (rej.None? <==> req.user.Some? && (Guards.IsAdmin(req.user.value)
                                                || Guards.IsSelf(req.user.value, Guards.ParamsOf(req)))
                              && !Guards.ParamsInBodySignals(req.params, req.body))
    ensures r != Verificar && req.user.Some? && Guards.Check(OnRequest(r)[1], req).Some? ==>
              rej == Some(Http.UNAUTHORIZED)
  {
    HooksStartWithJwt(r, req);
    Guards.RunGuards(OnRequest(r) + PreHandler(r), req)
  }

  /** Every guarded route starts with the token hook, so a request without a
      valid token stops there. */
  lemma HooksStartWithJwt(r: Route, req: Guards.Request)
    ensures r != Verificar ==> (OnRequest(r) + PreHandler(r))[0] == Guards.JwtGuard
    ensures r != Verificar && req.user.None? ==>
              Guards.RunGuards(OnRequest(r) + PreHandler(r), req) == Some(Http.UNAUTHORIZED)
    ensures r != Verificar && req.user.Some? && Guards.Check(OnRequest(r)[1], req).Some? ==>
              Guards.RunGuards(OnRequest(r) + PreHandler(r), req) == Some(Http.UNAUTHORIZED)
  {
    var gs := OnRequest(r) + PreHandler(r);
    if r != Verificar && req.user.None? {
      FirstRejectionWins(gs, req);
    }
    if r != Verificar && req.user.Some? && Guards.Check(OnRequest(r)[1], req).Some? {
      assert gs[1] == OnRequest(r)[1];
      assert Guards.Check(gs[0], req).None?;
      assert Guards.RunGuards(gs, req) == Guards.RunGuards(gs[1..], req);
      FirstRejectionWins(gs[1..], req);
    }
  }

  /** When the first hook rejects, its status is the route's. */
  lemma FirstRejectionWins(gs: seq<Guards.Guard>, req: Guards.Request)
    requires |gs| > 0 && Guards.Check(gs[0], req).Some?
    ensures Guards.RunGuards(gs, req) == Guards.Check(gs[0], req)
  {
  }

  /** The body of POST /: the new citizen and the password twice. */
  datatype NuevoUsuario = NuevoUsuario(
    cc: string, nombre: string, apellido: string, ci: string,
    fechaNac: string, direccion: string, contrasena: string, contrasena2: string)

  /** The call a handler makes to the user service. */
  datatype Effect =
    | NoEffect
    | BuscarTodos
    | Crear(nuevo: NuevoUsuario)
    | BuscarPorCc(cc: string)
    | BorrarCc(cc: string)
    | ActualizarCon(registro: Guards.Fields)

  /** The row `verificar` replies with, as the client receives it: every
      field is a string, as the route's 200 response schema declares. */
  datatype Fila = Fila(nombre: string, apellido: string, circuito: string, departamento: string)

  datatype Reply = NoBody | Message(text: string) | ServiceResult | Row(fila: Fila)

  datatype Response = Response(status: int, reply: Reply, effect: Effect)

  function Rejected(status: int): Response {
    Response(status, NoBody, NoEffect)
  }

  /** The request the hooks of a `/:cc` route see. */
  function CcRequest(user: Option<Guards.Claims>, cc: string, body: Option<Guards.Fields>): (req: Guards.Request)
    ensures Guards.ParamsOf(req) == map["cc" := Str(cc)]
  {
    Guards.Request(user, Some(map["cc" := Str(cc)]), body)
  }

  /** GET /: admins only; the handler asks the service for every citizen. */
  function ListarTodosRoute(user: Option<Guards.Claims>): (resp: Response)
    ensures resp.effect != NoEffect <==> user.Some? && Guards.IsAdmin(user.value)
    ensures resp.effect != NoEffect ==> resp == Response(Http.OK, ServiceResult, BuscarTodos)
    ensures resp.effect == NoEffect ==> resp.status == Http.UNAUTHORIZED
  {
    match Admision(ListarTodos, Guards.Request(user, None, None))
    case Some(status) => Rejected(status)
    case None => Response(Http.OK, ServiceResult, BuscarTodos)
  }

  /** POST /: admins only; different passwords are refused with 400 and
      nothing is created; otherwise the service creates the citizen once and
      the reply is 201 with what it returns. */
  function RegistrarRoute(user: Option<Guards.Claims>, nuevo: NuevoUsuario): (resp: Response)
    ensures !(user.Some? && Guards.IsAdmin(user.value)) ==>
              resp.status == Http.UNAUTHORIZED && resp.effect == NoEffect
    ensures user.Some? && Guards.IsAdmin(user.value) && nuevo.contrasena != nuevo.contrasena2 ==>
              resp == Response(Http.BAD_REQUEST, Message("Las contraseñas no coinciden."), NoEffect)
    ensures resp.effect != NoEffect <==>
              user.Some? && Guards.IsAdmin(user.value) && nuevo.contrasena == nuevo.contrasena2
    ensures resp.effect != NoEffect ==> resp == Response(Http.CREATED, ServiceResult, Crear(nuevo))
  {
    match Admision(Registrar, Guards.Request(user, None, None))
    case Some(status) => Rejected(status)
    case None =>
      if nuevo.contrasena != nuevo.contrasena2 then
        Response(Http.BAD_REQUEST, Message("Las contraseñas no coinciden."), NoEffect)
      else
        Response(Http.CREATED, ServiceResult, Crear(nuevo))
  }

  /** The circuit row the joins pair with a roll entry: the first with that
      id whose establishment, locality and department rows exist. */
  function CircuitoDe(cs: seq<Registry.Circuito>, id: int): (r: Option<Registry.Circuito>)
    ensures r.None? <==> forall i :: 0 <= i < |cs| ==> !(cs[i].id == id && cs[i].departamento.Some?)
    ensures r.Some? ==> exists i :: 0 <= i < |cs| && cs[i] == r.value && cs[i].id == id
                                    && cs[i].departamento.Some?
  {
    if cs == [] then None
    else if cs[0].id == id && cs[0].departamento.Some? then Some(cs[0])
    else CircuitoDe(cs[1..], id)
  }

  /** `CONCAT(apellido1, ' ', apellido2)`. */
  function Apellido(c: Registry.Ciudadano): (a: Option<string>)
    ensures c.apellido2.None? <==> a.None?
    ensures c.apellido2.Some? ==> a == Some(c.apellido1 + " " + c.apellido2.value)
  {
    match c.apellido2
    case None => None
    case Some(a2) => Some(c.apellido1 + " " + a2)
  }

  /** How a field the response schema declares as a plain string is
      written: the serializer writes a NULL column as the empty string. */
  function CampoTexto(a: Option<string>): (t: string)
    ensures a.None? ==> t == ""
    ensures a.Some? ==> t == a.value
  {
    match a
    case None => ""
    case Some(x) => x
  }

  /** POST /verificar (no hooks): 404 unless a citizen has both this
      credencial and this cédula, is on the roll, and the inner joins find
      its circuit and that circuit's department; otherwise 200 with that
      citizen's names, circuit number and department. A NULL second surname
      makes the `CONCAT` NULL, which reaches the client as an empty
      `apellido`. The database is only read. */
  function VerificarRoute(db: Registry.Db, credencial: string, cedula: string): (resp: Response)
    ensures resp.effect == NoEffect
    ensures resp.status == Http.NOT_FOUND <==>
              !(&& credencial in db.ciudadanos && db.ciudadanos[credencial].cedula == cedula
                && credencial in db.padron
                && exists i :: 0 <= i < |db.circuitos| && db.circuitos[i].id == db.padron[credencial].idCircuito
                                 && db.circuitos[i].departamento.Some?)
    ensures resp.status == Http.NOT_FOUND ==> resp.reply == Message("Ciudadano no encontrado")
    ensures resp.status != Http.NOT_FOUND ==>
              && resp.status == Http.OK && resp.reply.Row?
              && var c := db.ciudadanos[credencial];
                 && resp.reply.fila.nombre == c.nombres
                 && (c.apellido2.None? ==> resp.reply.fila.apellido == "")
                 && (c.apellido2.Some? ==> resp.reply.fila.apellido == c.apellido1 + " " + c.apellido2.value)
                 && exists i :: 0 <= i < |db.circuitos|
                      && db.circuitos[i].id == db.padron[credencial].idCircuito
                      && db.circuitos[i].departamento == Some(resp.reply.fila.departamento)
                      && resp.reply.fila.circuito == db.circuitos[i].numero
  {
    if credencial !in db.ciudadanos || db.ciudadanos[credencial].cedula != cedula
       || credencial !in db.padron then
      Response(Http.NOT_FOUND, Message("Ciudadano no encontrado"), NoEffect)
    else
      var c := db.ciudadanos[credencial];
      match CircuitoDe(db.circuitos, db.padron[credencial].idCircuito)
      case None => Response(Http.NOT_FOUND, Message("Ciudadano no encontrado"), NoEffect)
      case Some(k) =>
        Response(Http.OK, Row(Fila(c.nombres, CampoTexto(Apellido(c)), k.numero, k.departamento.value)), NoEffect)
  }

  /** A citizen the admin has just put on the roll (POST /padron/agregar)
      is found by `verificar` with their own cédula exactly when the chosen
      circuit's department chain is complete, and the reply then carries
      their names and that circuit's number and department. */
  lemma VerificarTrasAgregarPadron(db: Registry.Db, cc: string, idCircuito: int)
    requires Registry.CircuitIdsUnique(db.circuitos)
    requires AdminRoutes.AgregarPadron(db, cc, idCircuito).status == Http.CREATED
    ensures var resp := VerificarRoute(AdminRoutes.AgregarPadron(db, cc, idCircuito).db, cc, db.ciudadanos[cc].cedula);
            && (resp.status == Http.OK <==>
                  exists i :: 0 <= i < |db.circuitos| && db.circuitos[i].id == idCircuito
                              && db.circuitos[i].departamento.Some?)
            && (resp.status == Http.OK ==>
                  && resp.reply.fila.nombre == db.ciudadanos[cc].nombres
                  && forall i :: 0 <= i < |db.circuitos| && db.circuitos[i].id == idCircuito ==>
                       && resp.reply.fila.circuito == db.circuitos[i].numero
                       && db.circuitos[i].departamento == Some(resp.reply.fila.departamento))
  {
    var db' := AdminRoutes.AgregarPadron(db, cc, idCircuito).db;
    assert db'.circuitos == db.circuitos && db'.ciudadanos == db.ciudadanos;
    assert db'.padron[cc].idCircuito == idCircuito;
    var resp := VerificarRoute(db', cc, db.ciudadanos[cc].cedula);
    if resp.status == Http.OK {
      forall i | 0 <= i < |db.circuitos| && db.circuitos[i].id == idCircuito
        ensures resp.reply.fila.circuito == db.circuitos[i].numero
        ensures db.circuitos[i].departamento == Some(resp.reply.fila.departamento)
      {
        var j :| 0 <= j < |db.circuitos| && db.circuitos[j].id == idCircuito
                 && db.circuitos[j].departamento == Some(resp.reply.fila.departamento)
                 && resp.reply.fila.circuito == db.circuitos[j].numero;
        assert i == j;
      }
    }
  }

  /** GET /:cc: allowed to an admin or to the citizen the token names. */
  function ObtenerRoute(user: Option<Guards.Claims>, cc: string): (resp: Response)
    ensures resp.effect != NoEffect <==>
              user.Some? && (Guards.IsAdmin(user.value) || user.value.cc == Str(cc))
    ensures resp.effect != NoEffect ==> resp == Response(Http.OK, ServiceResult, BuscarPorCc(cc))
    ensures user.None? ==> resp.status == Http.UNAUTHORIZED
  {
    match Admision(ObtenerPorCc, CcRequest(user, cc, None))
    case Some(status) => Rejected(status)
    case None => Response(Http.OK, ServiceResult, BuscarPorCc(cc))
  }

  /** DELETE /:cc: admins only; a delete replies 204 with no body. */
  function BorrarRoute(user: Option<Guards.Claims>, cc: string): (resp: Response)
    ensures resp.effect != NoEffect <==> user.Some? && Guards.IsAdmin(user.value)
    ensures resp.effect != NoEffect ==> resp == Response(Http.NO_CONTENT, NoBody, BorrarCc(cc))
    ensures resp.effect == NoEffect ==> resp.status == Http.UNAUTHORIZED
  {
    match Admision(BorrarPorCc, CcRequest(user, cc, None))
    case Some(status) => Rejected(status)
    case None => Response(Http.NO_CONTENT, NoBody, BorrarCc(cc))
  }

  /** A citizen who is not an admin cannot delete any record, their own
      included: the route does not list the self check. */
  lemma NonAdminCannotDelete(user: Guards.Claims, cc: string)
    requires !Guards.IsAdmin(user)
    ensures BorrarRoute(Some(user), cc) == Rejected(Http.UNAUTHORIZED)
  {
    var req := CcRequest(Some(user), cc, None);
    assert Guards.Check(Guards.AdminGuard, req) == Some(Http.UNAUTHORIZED);
    assert (OnRequest(BorrarPorCc) + PreHandler(BorrarPorCc))[1] == Guards.AdminGuard;
  }

  /** PUT /:cc: the self-or-admin check first, then the body must carry the
      same `cc`; the service is handed the body record, not the path value. */
  function ActualizarRoute(user: Option<Guards.Claims>, cc: string, body: Option<Guards.Fields>): (resp: Response)
    ensures resp.effect != NoEffect <==>
              && user.Some? && (Guards.IsAdmin(user.value) || user.value.cc == Str(cc))
              && body.Some? && "cc" in body.value && body.value["cc"] == Str(cc)
    ensures resp.effect != NoEffect ==>
              resp == Response(Http.OK, ServiceResult, ActualizarCon(body.value))
    ensures user.Some? && !Guards.IsAdmin(user.value) && user.value.cc != Str(cc) ==>
              resp == Rejected(Http.UNAUTHORIZED)
  {
    var req := CcRequest(user, cc, body);
    BodyMatchesPath(cc, body);
    match Admision(ActualizarPorCc, req)
    case Some(status) => Rejected(status)
    case None => Response(Http.OK, ServiceResult, ActualizarCon(body.value))
  }

  /** With the single param `cc`, the params-in-body hook is silent exactly
      when the body holds the same string under `cc`. */
  lemma BodyMatchesPath(cc: string, body: Option<Guards.Fields>)
    ensures !Guards.ParamsInBodySignals(Some(map["cc" := Str(cc)]), body) <==>
              body.Some? && "cc" in body.value && body.value["cc"] == Str(cc)
  {
    var p := map["cc" := Str(cc)];
    assert "cc" in p;
    if body.Some? {
      if Guards.Mismatch(p, body.value) {
        var k :| k in p && (k !in body.value || !StrictEquals(body.value[k], p[k]));
        assert k == "cc";
      }
    }
  }

  /** No value the login schema allows for `rol` passes the admin hook,
      which expects lower-case "admin": with such tokens every admin-only
      route answers 401. */
  lemma DeclaredRolesNeverAdmin(rol: string, cc: JsValue)
    requires rol in {"ADMIN", "VOTANTE", "FUNCIONARIO"}
    ensures !Guards.IsAdmin(Guards.Claims(Str(rol), cc))
    ensures ListarTodosRoute(Some(Guards.Claims(Str(rol), cc))) == Rejected(Http.UNAUTHORIZED)
  {
    assert Guards.ADMIN_ROLE != "ADMIN" by { assert Guards.ADMIN_ROLE[0] != "ADMIN"[0]; }
    var req := Guards.Request(Some(Guards.Claims(Str(rol), cc)), None, None);
    assert (OnRequest(ListarTodos) + PreHandler(ListarTodos))[1] == Guards.AdminGuard;
  }
}
