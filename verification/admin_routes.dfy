/** The admin handlers of back/src/routes/admin/index.ts that change the
    database: opening and closing every circuit, replacing a circuit's
    officers, creating a citizen, adding one citizen to the roll, and adding,
    deleting and editing police officers and employees. Each handler is a
    function from the database to a reply and the database after it. Every
    route is guarded by a valid token and the admin role (`AdminRoute`). */
module AdminRoutes {
  import opened Wrappers
  import opened Registry
  import Http
  import Guards
  import Js

  /** A handler's reply status and message, and the database afterwards. */
  datatype Outcome = Outcome(status: int, mensaje: string, db: Db)

  /** The hooks every admin route lists in `onRequest`. */
  const ADMIN_HOOKS: seq<Guards.Guard> := [Guards.JwtGuard, Guards.AdminGuard]

  /** An admin route: the hooks run first and a rejection leaves the database
      untouched; otherwise the handler's outcome is the route's. */
  function AdminRoute(user: Option<Guards.Claims>, db: Db, handler: Db -> Outcome): (o: Outcome)
    ensures user.None? ==> o.status == Http.UNAUTHORIZED && o.db == db
    ensures user.Some? && !Guards.IsAdmin(user.value) ==> o.status == Http.UNAUTHORIZED && o.db == db
    ensures user.Some? && Guards.IsAdmin(user.value) ==> o == handler(db)
  {
    match Guards.RunGuards(ADMIN_HOOKS, Guards.Request(user, None, None))
    case Some(status) => Outcome(status, "", db)
    case None => handler(db)
  }

  /** The role the login-type schema declares for administrators is refused
      by every admin route: the hook compares against lower-case "admin". */
  lemma UpperCaseAdminRefused(cc: Js.JsValue, db: Db, handler: Db -> Outcome)
    ensures AdminRoute(Some(Guards.Claims(Js.Str("ADMIN"), cc)), db, handler)
            == Outcome(Http.UNAUTHORIZED, "", db)
  {
    var req := Guards.Request(Some(Guards.Claims(Js.Str("ADMIN"), cc)), None, None);
    assert Guards.Check(Guards.AdminGuard, req) == Some(Http.UNAUTHORIZED);
    assert ADMIN_HOOKS[1] == Guards.AdminGuard;
  }

  // ==================================================================== circuits

  /** Two circuit tables with the same ids at the same positions. */
  predicate SameIds(a: seq<Circuito>, b: seq<Circuito>) {
    |a| == |b| && forall i :: 0 <= i < |a| ==> a[i].id == b[i].id
  }

  /** Changing columns other than `id` keeps the database well formed. */
  lemma SameIdsKeepWellFormed(db: Db, cs: seq<Circuito>)
    requires WellFormed(db)
    requires SameIds(db.circuitos, cs)
    ensures WellFormed(db.(circuitos := cs))
  {
    var db' := db.(circuitos := cs);
    forall id | HasCircuito(db, id)
      ensures HasCircuito(db', id)
    {
      var i :| 0 <= i < |db.circuitos| && db.circuitos[i].id == id;
      assert db'.circuitos[i].id == id;
    }
  }

  function SetCerrado(cs: seq<Circuito>, cerrado: bool): (r: seq<Circuito>)
    ensures |r| == |cs|
    ensures forall i :: 0 <= i < |cs| ==> r[i] == cs[i].(cerrado := cerrado)
  {
    seq(|cs|, i requires 0 <= i < |cs| => cs[i].(cerrado := cerrado))
  }

  /** The reply of a bulk open or close: the outcome and the number of rows
      the update reports as affected. */
  datatype BulkOutcome = BulkOutcome(outcome: Outcome, afectados: nat)

  /** `UPDATE CIRCUITO SET circuito_cerrado = ?` on every row. */
  function SetAll(db: Db, cerrado: bool, mensaje: string): (r: BulkOutcome)
    ensures r.outcome.status == Http.OK && r.afectados == |db.circuitos|
    ensures r.outcome.db == db.(circuitos := r.outcome.db.circuitos)
    ensures |r.outcome.db.circuitos| == |db.circuitos|
    ensures forall i :: 0 <= i < |db.circuitos| ==>
              && r.outcome.db.circuitos[i].cerrado == cerrado
              && r.outcome.db.circuitos[i].(cerrado := db.circuitos[i].cerrado) == db.circuitos[i]
    ensures WellFormed(db) ==> WellFormed(r.outcome.db)
  {
    var cs := SetCerrado(db.circuitos, cerrado);
    if WellFormed(db) then
      SameIdsKeepWellFormed(db, cs);
      BulkOutcome(Outcome(Http.OK, mensaje, db.(circuitos := cs)), |cs|)
    else
      BulkOutcome(Outcome(Http.OK, mensaje, db.(circuitos := cs)), |cs|)
  }

  /** POST /circuitos/abrir-todos: every circuit's closed flag becomes 0;
      no other column and no other table changes. */
  function AbrirTodos(db: Db): (r: BulkOutcome)
    ensures r.outcome.status == Http.OK && r.afectados == |db.circuitos|
    ensures r.outcome.db == db.(circuitos := r.outcome.db.circuitos)
    ensures |r.outcome.db.circuitos| == |db.circuitos|
    ensures forall i :: 0 <= i < |db.circuitos| ==>
              && !r.outcome.db.circuitos[i].cerrado
              && r.outcome.db.circuitos[i].(cerrado := db.circuitos[i].cerrado) == db.circuitos[i]
    ensures WellFormed(db) ==> WellFormed(r.outcome.db)
  {
    SetAll(db, false, "Todos los circuitos han sido abiertos")
  }

  /** POST /circuitos/cerrar-todos: every circuit's closed flag becomes 1;
      no other column and no other table changes. */
  function CerrarTodos(db: Db): (r: BulkOutcome)
    ensures r.outcome.status == Http.OK && r.afectados == |db.circuitos|
    ensures r.outcome.db == db.(circuitos := r.outcome.db.circuitos)
    ensures |r.outcome.db.circuitos| == |db.circuitos|
    ensures forall i :: 0 <= i < |db.circuitos| ==>
              && r.outcome.db.circuitos[i].cerrado
              && r.outcome.db.circuitos[i].(cerrado := db.circuitos[i].cerrado) == db.circuitos[i]
    ensures WellFormed(db) ==> WellFormed(r.outcome.db)
  {
    SetAll(db, true, "Todos los circuitos han sido cerrados")
  }

  /** Opening (closing) twice leaves the database as opening (closing) once. */
  lemma BulkIdempotent(db: Db)
    ensures AbrirTodos(AbrirTodos(db).outcome.db).outcome.db == AbrirTodos(db).outcome.db
    ensures CerrarTodos(CerrarTodos(db).outcome.db).outcome.db == CerrarTodos(db).outcome.db
  {
  }

  /** The last bulk toggle wins: whatever came before, opening after closing
      is opening, and closing after opening is closing. */
  lemma BulkLastWins(db: Db)
    ensures AbrirTodos(CerrarTodos(db).outcome.db).outcome.db == AbrirTodos(db).outcome.db
    ensures CerrarTodos(AbrirTodos(db).outcome.db).outcome.db == CerrarTodos(db).outcome.db
  {
  }

  /** `SELECT credencial FROM CIUDADANO WHERE credencial IN (?, ?, ?)`: the set
      of distinct citizen rows the three credentials match. */
  function CitizenRows(db: Db, p: string, s: string, v: string): set<string> {
    {p, s, v} * db.ciudadanos.Keys
  }

  /** Three rows come back exactly when the three credentials name three
      different existing citizens. */
  lemma ThreeRowsIff(db: Db, p: string, s: string, v: string)
    ensures |CitizenRows(db, p, s, v)| == 3 <==>
              p in db.ciudadanos && s in db.ciudadanos && v in db.ciudadanos
              && p != s && s != v && p != v
  {
    var rows := CitizenRows(db, p, s, v);
    if p in db.ciudadanos && s in db.ciudadanos && v in db.ciudadanos && p != s && s != v && p != v {
      assert rows == {p, s, v};
    } else {
      SmallSet(rows, p, s, v);
    }
  }

  /** A subset of `{p, s, v}` that misses one of them or where two coincide
      has at most two elements. */
  lemma SmallSet(rows: set<string>, p: string, s: string, v: string)
    requires rows <= {p, s, v}
    requires !(p in rows && s in rows && v in rows && p != s && s != v && p != v)
    ensures |rows| <= 2
  {
    if p == s || s == v || p == v {
      var two := if p == s then {p, v} else if s == v then {p, s} else {p, s};
      assert {p, s, v} == two;
      assert |two| <= 2;
      SubsetCard(rows, two);
    } else if p !in rows {
      SubsetCard(rows, {s, v});
    } else if s !in rows {
      SubsetCard(rows, {p, v});
    } else {
      SubsetCard(rows, {p, s});
    }
  }

  lemma SubsetCard<T>(a: set<T>, b: set<T>)
    requires a <= b
    ensures |a| <= |b|
  {
    assert b == a + (b - a);
  }

  function SetAutoridades(cs: seq<Circuito>, id: int, p: string, s: string, v: string): (r: seq<Circuito>)
    ensures |r| == |cs|
    ensures forall i :: 0 <= i < |cs| ==>
              r[i] == if cs[i].id == id
                      then cs[i].(ccPresidente := Some(p), ccSecretario := Some(s), ccVocal := Some(v))
                      else cs[i]
  {
    seq(|cs|, i requires 0 <= i < |cs| =>
      if cs[i].id == id
      then cs[i].(ccPresidente := Some(p), ccSecretario := Some(s), ccVocal := Some(v))
      else cs[i])
  }

  /** PUT /circuitos/:idCircuito/autoridades. A missing circuit is 404; unless
      the three credentials name three distinct citizens (so one person
      cannot hold two of the roles) the reply is 400; otherwise only that
      circuit's three officer columns change. */
  function ModificarAutoridades(db: Db, idCircuito: int, p: string, s: string, v: string): (o: Outcome)
    ensures o.status == Http.NOT_FOUND <==> !HasCircuito(db, idCircuito)
    ensures o.status == Http.BAD_REQUEST <==>
              HasCircuito(db, idCircuito)
              && !(p in db.ciudadanos && s in db.ciudadanos && v in db.ciudadanos
                   && p != s && s != v && p != v)
    ensures o.status in {Http.OK, Http.BAD_REQUEST, Http.NOT_FOUND}
    ensures o.status != Http.OK ==> o.db == db
    ensures o.status == Http.OK ==>
              && o.db == db.(circuitos := o.db.circuitos)
              && |o.db.circuitos| == |db.circuitos|
              && forall i :: 0 <= i < |db.circuitos| ==>
                   if db.circuitos[i].id == idCircuito then
                     && o.db.circuitos[i].ccPresidente == Some(p)
                     && o.db.circuitos[i].ccSecretario == Some(s)
                     && o.db.circuitos[i].ccVocal == Some(v)
                     && o.db.circuitos[i].(ccPresidente := db.circuitos[i].ccPresidente,
                                           ccSecretario := db.circuitos[i].ccSecretario,
                                           ccVocal := db.circuitos[i].ccVocal) == db.circuitos[i]
                   else o.db.circuitos[i] == db.circuitos[i]
    ensures WellFormed(db) ==> WellFormed(o.db)
  {
    ThreeRowsIff(db, p, s, v);
    if !HasCircuito(db, idCircuito) then
      Outcome(Http.NOT_FOUND, "Circuito no encontrado", db)
    else if |CitizenRows(db, p, s, v)| != 3 then
      Outcome(Http.BAD_REQUEST, "Uno o más ciudadanos no encontrados", db)
    else
      var cs := SetAutoridades(db.circuitos, idCircuito, p, s, v);
      if WellFormed(db) then
        SameIdsKeepWellFormed(db, cs);
        Outcome(Http.OK, "Autoridades del circuito actualizadas correctamente", db.(circuitos := cs))
      else
        Outcome(Http.OK, "Autoridades del circuito actualizadas correctamente", db.(circuitos := cs))
  }

  // ==================================================================== citizens

  /** The body of POST /ciudadanos; `apellido2` is optional. */
  datatype NuevoCiudadano = NuevoCiudadano(
    credencial: string,
    nombres: string,
    apellido1: string,
    apellido2: Option<string>,
    cedula: string,
    fechaNac: string,
    direccion: string)

  /** `apellido2 || null`: an absent or empty second surname is stored as NULL. */
  function NullIfEmpty(a: Option<string>): (r: Option<string>)
    ensures r.None? <==> a.None? || a.value == ""
    ensures r.Some? ==> r == a
  {
    if a.Some? && a.value != "" then a else None
  }

  /** POST /ciudadanos. A taken credencial is refused before a taken cédula is
      looked at; otherwise exactly one row is inserted, holding the body's
      fields with an absent or empty `apellido2` stored as NULL. */
  function CrearCiudadano(db: Db, n: NuevoCiudadano): (o: Outcome)
    ensures n.credencial in db.ciudadanos ==>
              o == Outcome(Http.BAD_REQUEST, "Ya existe un ciudadano con esa credencial", db)
    ensures n.credencial !in db.ciudadanos && CedulaTomada(db, n.cedula) ==>
              o == Outcome(Http.BAD_REQUEST, "Ya existe un ciudadano con esa cédula", db)
    ensures o.status == Http.CREATED <==>
              n.credencial !in db.ciudadanos && !CedulaTomada(db, n.cedula)
    ensures o.status == Http.CREATED ==>
              && o.db == db.(ciudadanos := o.db.ciudadanos)
              && o.db.ciudadanos.Keys == db.ciudadanos.Keys + {n.credencial}
              && |o.db.ciudadanos| == |db.ciudadanos| + 1
              && (forall cc :: cc in db.ciudadanos ==> o.db.ciudadanos[cc] == db.ciudadanos[cc])
              && var row := o.db.ciudadanos[n.credencial];
                 && row.nombres == n.nombres && row.apellido1 == n.apellido1
                 && row.cedula == n.cedula && row.fechaNac == n.fechaNac
                 && row.direccion == n.direccion
                 && (row.apellido2.None? <==> n.apellido2.None? || n.apellido2 == Some(""))
                 && (row.apellido2.Some? ==> row.apellido2 == n.apellido2)
    ensures WellFormed(db) ==> WellFormed(o.db)
  {
    if n.credencial in db.ciudadanos then
      Outcome(Http.BAD_REQUEST, "Ya existe un ciudadano con esa credencial", db)
    else if CedulaTomada(db, n.cedula) then
      Outcome(Http.BAD_REQUEST, "Ya existe un ciudadano con esa cédula", db)
    else
      var row := Ciudadano(n.nombres, n.apellido1, NullIfEmpty(n.apellido2),
                           n.cedula, n.fechaNac, n.direccion);
      AddCitizenKeepsWellFormed(db, n.credencial, row);
      Outcome(Http.CREATED, "Ciudadano creado correctamente",
              db.(ciudadanos := db.ciudadanos[n.credencial := row]))
  }

  /** Inserting a citizen under a new credential with a new cédula adds one
      key, keeps every other row and keeps the database well formed. */
  lemma AddCitizenKeepsWellFormed(db: Db, cc: string, row: Ciudadano)
    requires cc !in db.ciudadanos && !CedulaTomada(db, row.cedula)
    ensures var db' := db.(ciudadanos := db.ciudadanos[cc := row]);
            && db'.ciudadanos.Keys == db.ciudadanos.Keys + {cc}
            && |db'.ciudadanos| == |db.ciudadanos| + 1
            && (WellFormed(db) ==> WellFormed(db'))
  {
    var m := db.ciudadanos[cc := row];
    assert m.Keys == db.ciudadanos.Keys + {cc};
    if WellFormed(db) {
      NewCedulaKeepsUnique(db.ciudadanos, cc, row);
      MoreCitizensKeepRefs(db, m);
    }
  }

  lemma NewCedulaKeepsUnique(cs: map<string, Ciudadano>, cc: string, row: Ciudadano)
    requires CedulasUnique(cs) && cc !in cs
    requires forall k :: k in cs ==> cs[k].cedula != row.cedula
    ensures CedulasUnique(cs[cc := row])
  {
    var m := cs[cc := row];
    forall a, b | a in m && b in m && a != b
      ensures m[a].cedula != m[b].cedula
    {
      if a == cc {
        assert m[b] == cs[b];
      } else if b == cc {
        assert m[a] == cs[a];
      } else {
        assert m[a] == cs[a] && m[b] == cs[b];
      }
    }
  }

  /** Rows that referred to existing citizens still do when citizens are
      only added. */
  lemma MoreCitizensKeepRefs(db: Db, m: map<string, Ciudadano>)
    requires db.ciudadanos.Keys <= m.Keys
    ensures RollRefs(db.padron, db.ciudadanos, db.circuitos) ==> RollRefs(db.padron, m, db.circuitos)
    ensures PoliceRefs(db.policias, db.ciudadanos, db.comisarias, db.establecimientos) ==>
              PoliceRefs(db.policias, m, db.comisarias, db.establecimientos)
    ensures EmployeeRefs(db.empleados, db.ciudadanos, db.organismos) ==>
              EmployeeRefs(db.empleados, m, db.organismos)
  {
  }

  // ==================================================================== roll

  /** The row both roll insertions write: not enabled, not voted. */
  function NuevaEntrada(idCircuito: int): (e: EntradaPadron)
    ensures e.idCircuito == idCircuito && !e.habilitado && !e.voto
  {
    EntradaPadron(idCircuito, false, false)
  }

  /** POST /padron/agregar. Checks, in order: the citizen exists, the circuit
      exists, the citizen is not on the roll yet (each failure is 400 with
      its own message). Otherwise exactly one roll row is added, not enabled
      and not voted, and nothing else changes. */
  function AgregarPadron(db: Db, cc: string, idCircuito: int): (o: Outcome)
    ensures cc !in db.ciudadanos ==>
              o == Outcome(Http.BAD_REQUEST, "Ciudadano no encontrado", db)
    ensures cc in db.ciudadanos && !HasCircuito(db, idCircuito) ==>
              o == Outcome(Http.BAD_REQUEST, "Circuito no encontrado", db)
    ensures cc in db.ciudadanos && HasCircuito(db, idCircuito) && cc in db.padron ==>
              o == Outcome(Http.BAD_REQUEST, "El ciudadano ya está en el padrón", db)
    ensures o.status == Http.CREATED <==>
              cc in db.ciudadanos && HasCircuito(db, idCircuito) && cc !in db.padron
    ensures o.status == Http.CREATED ==>
              && o.db == db.(padron := o.db.padron)
              && o.db.padron.Keys == db.padron.Keys + {cc}
              && |o.db.padron| == |db.padron| + 1
              && o.db.padron[cc] == EntradaPadron(idCircuito, false, false)
              && forall k :: k in db.padron ==> o.db.padron[k] == db.padron[k]
    ensures WellFormed(db) ==> WellFormed(o.db)
  {
    if cc !in db.ciudadanos then
      Outcome(Http.BAD_REQUEST, "Ciudadano no encontrado", db)
    else if !HasCircuito(db, idCircuito) then
      Outcome(Http.BAD_REQUEST, "Circuito no encontrado", db)
    else if cc in db.padron then
      Outcome(Http.BAD_REQUEST, "El ciudadano ya está en el padrón", db)
    else
      var db' := db.(padron := db.padron[cc := NuevaEntrada(idCircuito)]);
      AddRollRowKeepsWellFormed(db, cc, idCircuito);
      Outcome(Http.CREATED, "Ciudadano agregado al padrón correctamente", db')
  }

  /** Adding a roll row for an existing citizen and circuit keeps the
      database well formed. */
  lemma AddRollRowKeepsWellFormed(db: Db, cc: string, idCircuito: int)
    requires cc in db.ciudadanos && HasCircuito(db, idCircuito)
    ensures WellFormed(db) ==> WellFormed(db.(padron := db.padron[cc := NuevaEntrada(idCircuito)]))
  {
    var db' := db.(padron := db.padron[cc := NuevaEntrada(idCircuito)]);
    assert db'.circuitos == db.circuitos;
    forall id | HasCircuito(db, id)
      ensures HasCircuito(db', id)
    {
      var i :| 0 <= i < |db.circuitos| && db.circuitos[i].id == id;
      assert db'.circuitos[i].id == id;
    }
  }

  // ==================================================================== police

  /** POST /policias. Checks, in order: the citizen, the comisaría and the
      establecimiento exist, and the citizen is not a police officer yet
      (each failure is 400). Otherwise exactly one police row is added. */
  function AgregarPolicia(db: Db, cc: string, idComisaria: int, idEstablecimiento: int): (o: Outcome)
    ensures cc !in db.ciudadanos ==>
              o == Outcome(Http.BAD_REQUEST, "Ciudadano no encontrado", db)
    ensures cc in db.ciudadanos && idComisaria !in db.comisarias ==>
              o == Outcome(Http.BAD_REQUEST, "Comisaría no encontrada", db)
    ensures cc in db.ciudadanos && idComisaria in db.comisarias
            && idEstablecimiento !in db.establecimientos ==>
              o == Outcome(Http.BAD_REQUEST, "Establecimiento no encontrado", db)
    ensures cc in db.ciudadanos && idComisaria in db.comisarias
            && idEstablecimiento in db.establecimientos && cc in db.policias ==>
              o == Outcome(Http.BAD_REQUEST, "El ciudadano ya está asignado como policía", db)
    ensures o.status == Http.CREATED <==>
              cc in db.ciudadanos && idComisaria in db.comisarias
              && idEstablecimiento in db.establecimientos && cc !in db.policias
    ensures o.status == Http.CREATED ==>
              && o.db == db.(policias := o.db.policias)
              && o.db.policias.Keys == db.policias.Keys + {cc}
              && o.db.policias[cc] == Policia(idComisaria, idEstablecimiento)
              && forall k :: k in db.policias ==> o.db.policias[k] == db.policias[k]
    ensures WellFormed(db) ==> WellFormed(o.db)
  {
    if cc !in db.ciudadanos then
      Outcome(Http.BAD_REQUEST, "Ciudadano no encontrado", db)
    else if idComisaria !in db.comisarias then
      Outcome(Http.BAD_REQUEST, "Comisaría no encontrada", db)
    else if idEstablecimiento !in db.establecimientos then
      Outcome(Http.BAD_REQUEST, "Establecimiento no encontrado", db)
    else if cc in db.policias then
      Outcome(Http.BAD_REQUEST, "El ciudadano ya está asignado como policía", db)
    else
      AddPoliceKeepsWellFormed(db, cc, Policia(idComisaria, idEstablecimiento));
      Outcome(Http.CREATED, "Policía agregado correctamente",
              db.(policias := db.policias[cc := Policia(idComisaria, idEstablecimiento)]))
  }

  /** Adding a police row whose citizen, comisaría and establecimiento exist
      keeps the database well formed. */
  lemma AddPoliceKeepsWellFormed(db: Db, cc: string, row: Policia)
    requires cc in db.ciudadanos && row.idComisaria in db.comisarias
    requires row.idEstablecimiento in db.establecimientos
    ensures WellFormed(db) ==> WellFormed(db.(policias := db.policias[cc := row]))
  {
    var m := db.policias[cc := row];
    if WellFormed(db) {
      forall k | k in m
        ensures k in db.ciudadanos && m[k].idComisaria in db.comisarias
                && m[k].idEstablecimiento in db.establecimientos
      {
        if k != cc {
          assert m[k] == db.policias[k];
        }
      }
    }
  }

  /** DELETE /policias/:credencial: 404 when no row is removed; otherwise
      that row, and only it, is gone. */
  function EliminarPolicia(db: Db, cc: string): (o: Outcome)
    ensures o.status == Http.NOT_FOUND <==> cc !in db.policias
    ensures o.status == Http.NOT_FOUND ==> o.db == db
    ensures o.status != Http.NOT_FOUND ==>
              && o.status == Http.OK
              && o.db == db.(policias := o.db.policias)
              && o.db.policias.Keys == db.policias.Keys - {cc}
              && |o.db.policias| == |db.policias| - 1
              && forall k :: k in o.db.policias ==> o.db.policias[k] == db.policias[k]
    ensures WellFormed(db) ==> WellFormed(o.db)
  {
    if cc !in db.policias then
      Outcome(Http.NOT_FOUND, "Policía no encontrado", db)
    else
      Outcome(Http.OK, "Policía eliminado correctamente",
              db.(policias := db.policias - {cc}))
  }

  /** PUT /policias/:credencial: 404 for a credential that is not a police
      officer, then 400 for a missing comisaría or establecimiento; otherwise
      only that officer's two reference columns change. */
  function EditarPolicia(db: Db, cc: string, idComisaria: int, idEstablecimiento: int): (o: Outcome)
    ensures cc !in db.policias ==>
              o == Outcome(Http.NOT_FOUND, "Policía no encontrado", db)
    ensures cc in db.policias && idComisaria !in db.comisarias ==>
              o == Outcome(Http.BAD_REQUEST, "Comisaría no encontrada", db)
    ensures cc in db.policias && idComisaria in db.comisarias
            && idEstablecimiento !in db.establecimientos ==>
              o == Outcome(Http.BAD_REQUEST, "Establecimiento no encontrado", db)
    ensures o.status == Http.OK <==>
              cc in db.policias && idComisaria in db.comisarias
              && idEstablecimiento in db.establecimientos
    ensures o.status == Http.OK ==>
              && o.db == db.(policias := o.db.policias)
              && o.db.policias.Keys == db.policias.Keys
              && o.db.policias[cc] == Policia(idComisaria, idEstablecimiento)
              && forall k :: k in db.policias && k != cc ==> o.db.policias[k] == db.policias[k]
    ensures WellFormed(db) ==> WellFormed(o.db)
  {
    if cc !in db.policias then
      Outcome(Http.NOT_FOUND, "Policía no encontrado", db)
    else if idComisaria !in db.comisarias then
      Outcome(Http.BAD_REQUEST, "Comisaría no encontrada", db)
    else if idEstablecimiento !in db.establecimientos then
      Outcome(Http.BAD_REQUEST, "Establecimiento no encontrado", db)
    else
      Outcome(Http.OK, "Policía actualizado correctamente",
              db.(policias := db.policias[cc := Policia(idComisaria, idEstablecimiento)]))
  }

  // ==================================================================== employees

  /** POST /empleados. Checks, in order: the citizen exists, the organismo
      exists, the citizen is not an employee yet (each failure is 400).
      Otherwise exactly one employee row is added. */
  function AgregarEmpleado(db: Db, cc: string, idOrganismo: int): (o: Outcome)
    ensures cc !in db.ciudadanos ==>
              o == Outcome(Http.BAD_REQUEST, "Ciudadano no encontrado", db)
    ensures cc in db.ciudadanos && idOrganismo !in db.organismos ==>
              o == Outcome(Http.BAD_REQUEST, "Organismo no encontrado", db)
    ensures cc in db.ciudadanos && idOrganismo in db.organismos && cc in db.empleados ==>
              o == Outcome(Http.BAD_REQUEST, "El ciudadano ya está asignado como empleado", db)
    ensures o.status == Http.CREATED <==>
              cc in db.ciudadanos && idOrganismo in db.organismos && cc !in db.empleados
    ensures o.status == Http.CREATED ==>
              && o.db == db.(empleados := o.db.empleados)
              && o.db.empleados.Keys == db.empleados.Keys + {cc}
              && o.db.empleados[cc] == idOrganismo
              && forall k :: k in db.empleados ==> o.db.empleados[k] == db.empleados[k]
    ensures WellFormed(db) ==> WellFormed(o.db)
  {
    if cc !in db.ciudadanos then
      Outcome(Http.BAD_REQUEST, "Ciudadano no encontrado", db)
    else if idOrganismo !in db.organismos then
      Outcome(Http.BAD_REQUEST, "Organismo no encontrado", db)
    else if cc in db.empleados then
      Outcome(Http.BAD_REQUEST, "El ciudadano ya está asignado como empleado", db)
    else
      Outcome(Http.CREATED, "Empleado agregado correctamente",
              db.(empleados := db.empleados[cc := idOrganismo]))
  }

  /** DELETE /empleados/:credencial: 404 when no row is removed; otherwise
      that row, and only it, is gone. */
  function EliminarEmpleado(db: Db, cc: string): (o: Outcome)
    ensures o.status == Http.NOT_FOUND <==> cc !in db.empleados
    ensures o.status == Http.NOT_FOUND ==> o.db == db
    ensures o.status != Http.NOT_FOUND ==>
              && o.status == Http.OK
              && o.db == db.(empleados := o.db.empleados)
              && o.db.empleados.Keys == db.empleados.Keys - {cc}
              && |o.db.empleados| == |db.empleados| - 1
              && forall k :: k in o.db.empleados ==> o.db.empleados[k] == db.empleados[k]
    ensures WellFormed(db) ==> WellFormed(o.db)
  {
    if cc !in db.empleados then
      Outcome(Http.NOT_FOUND, "Empleado no encontrado", db)
    else
      Outcome(Http.OK, "Empleado eliminado correctamente",
              db.(empleados := db.empleados - {cc}))
  }

  /** PUT /empleados/:credencial: 404 for a credential that is not an
      employee, then 400 for a missing organismo; otherwise only that
      employee's organismo changes. */
  function EditarEmpleado(db: Db, cc: string, idOrganismo: int): (o: Outcome)
    ensures cc !in db.empleados ==>
              o == Outcome(Http.NOT_FOUND, "Empleado no encontrado", db)
    ensures cc in db.empleados && idOrganismo !in db.organismos ==>
              o == Outcome(Http.BAD_REQUEST, "Organismo no encontrado", db)
    ensures o.status == Http.OK <==> cc in db.empleados && idOrganismo in db.organismos
    ensures o.status == Http.OK ==>
              && o.db == db.(empleados := o.db.empleados)
              && o.db.empleados.Keys == db.empleados.Keys
              && o.db.empleados[cc] == idOrganismo
              && forall k :: k in db.empleados && k != cc ==> o.db.empleados[k] == db.empleados[k]
    ensures WellFormed(db) ==> WellFormed(o.db)
  {
    if cc !in db.empleados then
      Outcome(Http.NOT_FOUND, "Empleado no encontrado", db)
    else if idOrganismo !in db.organismos then
      Outcome(Http.BAD_REQUEST, "Organismo no encontrado", db)
    else
      Outcome(Http.OK, "Empleado actualizado correctamente",
              db.(empleados := db.empleados[cc := idOrganismo]))
  }
}
