/** The page where a voter confirms the circuit they are voting in
    (front/src/app/pages/confirmar-circuito/confirmar-circuito.component.ts):
    the voter's names and assigned circuit as loaded from the session, the
    rule that marks a vote as observed, the flag left in local storage, and
    the guard that lets the voter through to the ballot once the flag
    exists (front/src/app/guards/circuito-confirmado.guard.spec.ts). The
    session lookup, the alert and the router are inputs and outputs. */
module ConfirmarCircuito {
  import opened Wrappers
  import Js
  import Text

  /** A field of the session's user record: absent, `null`, or a string. */
  datatype Campo = Indefinido | Nulo | Texto(s: string)

  /** Only a non-empty string is truthy. */
  predicate Truthy(c: Campo) {
    c.Texto? && c.s != ""
  }

  /** `a || b`. */
  function Or(a: Campo, b: Campo): (r: Campo)
    ensures Truthy(a) ==> r == a
    ensures !Truthy(a) ==> r == b
  {
    if Truthy(a) then a else b
  }

  /** How a field prints inside a string concatenation. */
  function Cadena(c: Campo): (s: string)
    ensures c.Texto? ==> s == c.s
    ensures c.Indefinido? ==> s == "undefined"
    ensures c.Nulo? ==> s == "null"
  {
    match c
    case Indefinido => "undefined"
    case Nulo => "null"
    case Texto(s) => s
  }

  /** The session's user record, as far as this page reads it. */
  datatype Usuario = Usuario(
    nombre: Campo,
    nombres: Campo,
    apellido: Campo,
    apellido1: Campo,
    apellido2: Campo,
    circuito: Js.JsValue)

  /** The page's state: the names shown, the assigned circuit, and what the
      voter entered. */
  datatype Pantalla = Pantalla(nombre: Campo, apellido: Campo, asignado: Js.JsNumber, ingresado: Js.JsValue)

  /** The state the page starts in. */
  const INICIAL: Pantalla := Pantalla(Texto(""), Texto(""), Js.Num(0.0), Js.Numeric(Js.Num(0.0)))

  /** `usuario.apellido || usuario.apellido1 + ' ' + (usuario.apellido2 || '')`. */
  function Apellido(u: Usuario): (a: Campo)
    ensures Truthy(u.apellido) ==> a == u.apellido
    ensures !Truthy(u.apellido) ==>
              a == Texto(Cadena(u.apellido1) + " " + (if Truthy(u.apellido2) then u.apellido2.s else ""))
  {
    Or(u.apellido, Texto(Cadena(u.apellido1) + " " + (if Truthy(u.apellido2) then u.apellido2.s else "")))
  }

  /** `cargarDatosUsuario` once the session has answered: no user leaves the
      page as it was; otherwise the name falls back from `nombre` to
      `nombres`, the surname from `apellido` to the two surnames joined by a
      space, and the assigned circuit is `+usuario.circuito`. What the voter
      entered is kept. */
  function CargarDatos(p: Pantalla, u: Option<Usuario>): (q: Pantalla)
    ensures u.None? ==> q == p
    ensures q.ingresado == p.ingresado
    ensures u.Some? ==> q.nombre == Or(u.value.nombre, u.value.nombres)
    ensures u.Some? ==> q.apellido == Apellido(u.value)
    ensures u.Some? ==> q.asignado == Js.ToNumber(u.value.circuito)
  {
    if u.None? then p
    else p.(nombre := Or(u.value.nombre, u.value.nombres),
            apellido := Apellido(u.value),
            asignado := Js.ToNumber(u.value.circuito))
  }

  /** A record with only the two surnames shows them joined by one space;
      without a second surname the trailing space remains. */
  lemma ApellidoCompuesto(u: Usuario, a1: string, a2: string)
    requires !Truthy(u.apellido) && u.apellido1 == Texto(a1)
    ensures u.apellido2 == Texto(a2) ==> Apellido(u) == Texto(a1 + " " + a2)
    ensures !Truthy(u.apellido2) ==> Apellido(u) == Texto(a1 + " ")
  {
  }

  datatype Icono = Advertencia | Confirmado

  /** What confirming does: whether the vote is observed, the string left
      under the `observado` key, the alert's icon, and the route shown after
      the alert. */
  datatype Confirmacion = Confirmacion(observado: bool, guardado: string, icono: Icono, destino: string)

  /** `confirmarCircuito`: the vote is observed unless the entry is
      strictly equal to the assigned number, which a `NaN` never is. The
      flag is stored as `"true"` or `"false"`, the alert warns or confirms,
      and both alerts lead to the ballot. */
  function Confirmar(p: Pantalla): (c: Confirmacion)
    ensures c.observado <==> !(p.asignado.Num? && p.ingresado == Js.Numeric(p.asignado))
    ensures c.guardado == (if c.observado then "true" else "false")
    ensures c.icono == (if c.observado then Advertencia else Confirmado)
    ensures c.destino == "/votar"
  {
    Js.StrictEqualsIsEquality(p.ingresado, Js.Numeric(p.asignado));
    var observado := !Js.StrictEquals(p.ingresado, Js.Numeric(p.asignado));
    Confirmacion(observado, if observado then "true" else "false",
                 if observado then Advertencia else Confirmado, "/votar")
  }

  /** The stored string carries the decision: it is `"true"` exactly when
      the vote is observed. */
  lemma GuardadoLeeObservado(p: Pantalla)
    ensures (Confirmar(p).guardado == "true") <==> Confirmar(p).observado
  {
  }

  /** The ballot's guard: it admits exactly when the `observado` key is
      present, whatever it holds. */
  function Admite(guardado: Option<string>): (ok: bool)
    ensures ok <==> guardado.Some?
  {
    guardado != None
  }

  /** Confirming always opens the ballot, observed or not. */
  lemma ConfirmarAbreBoleta(p: Pantalla)
    ensures Admite(Some(Confirmar(p).guardado))
  {
  }

  /** A session whose circuit is missing or not a number makes every vote
      observed, whatever the voter enters. */
  lemma SinCircuitoSiempreObservado(p: Pantalla, u: Usuario)
    requires Js.ToNumber(u.circuito).NaN?
    ensures Confirmar(CargarDatos(p, Some(u))).observado
  {
  }

  /** A session whose circuit is the printed integer `n` and a voter who
      enters `n` are not observed. */
  lemma CircuitoCorrectoNoObservado(p: Pantalla, u: Usuario, n: int)
    requires u.circuito == Js.Str(Text.IntToString(n))
    requires p.ingresado == Js.Numeric(Js.Num(n as real))
    ensures !Confirmar(CargarDatos(p, Some(u))).observado
  {
    CircuitoImpreso(u, n);
    var q := CargarDatos(p, Some(u));
    assert q.ingresado == Js.Numeric(q.asignado);
  }

  /** `+usuario.circuito` of a printed integer is that integer. */
  lemma CircuitoImpreso(u: Usuario, n: int)
    requires u.circuito == Js.Str(Text.IntToString(n))
    ensures Js.ToNumber(u.circuito) == Js.Num(n as real)
  {
    Js.NumberOfIntToString(n);
  }

  /** With no user in the session the page keeps its initial zeros, so
      confirming without typing anything is not observed. */
  lemma SinUsuarioNoObservado()
    ensures !Confirmar(CargarDatos(INICIAL, None)).observado
  {
  }
}
