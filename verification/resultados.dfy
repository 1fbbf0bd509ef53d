/** The results page (front/src/app/pages/resultados/resultados.component.ts):
    which view a role gets, the admin's three result views and the
    selections each clears, the circuit filter, the participation figure and
    the colour and formatting of percentages. The service answers are
    inputs; the text that `toFixed` produces is not modelled, so a
    formatted figure is the number it would print. */
module Resultados {
  import opened Wrappers
  import Js
  import Text
  import Seqs
  import Guards

  /** What the page does once it knows the session. */
  datatype Inicio = NoAutenticado | CargarFuncionario | CargarAdmin | SinPermisos

  /** `ngOnInit`'s dispatch on the session's `rol`, compared strictly with
      the upper-case names. */
  function Despachar(usuario: Option<Guards.Claims>): (a: Inicio)
    ensures usuario.None? <==> a == NoAutenticado
    ensures usuario.Some? ==> (a == CargarFuncionario <==> usuario.value.rol == Js.Str("FUNCIONARIO"))
    ensures usuario.Some? ==> (a == CargarAdmin <==> usuario.value.rol == Js.Str("ADMIN"))
  {
    if usuario.None? then NoAutenticado
    else if Js.StrictEquals(usuario.value.rol, Js.Str("FUNCIONARIO")) then CargarFuncionario
    else if Js.StrictEquals(usuario.value.rol, Js.Str("ADMIN")) then CargarAdmin
    else SinPermisos
  }

  /** The server's admin check and this page disagree on the spelling of
      the role: a session the server treats as admin is refused here, and
      the session this page treats as admin is refused by every admin-only
      route of the server. */
  lemma RolesIncompatibles(c: Guards.Claims)
    ensures Guards.IsAdmin(c) ==> Despachar(Some(c)) == SinPermisos
    ensures Despachar(Some(c)) == CargarAdmin ==> !Guards.IsAdmin(c)
  {
  }

  /** The admin's three views. */
  datatype Vista = Circuito | Departamento | Generales

  /** A service answer: the data, or a thrown error. */
  datatype Respuesta<T> = Ok(valor: T) | Falla

  /** The admin state: the selected circuit and department ids (`null` is
      `None`), the circuit filter, the view shown, the error line and the
      results shown. */
  datatype Estado<T> = Estado(
    circuito: Option<int>,
    departamento: Option<int>,
    filtro: string,
    vista: Vista,
    error: string,
    resultados: Option<T>)

  /** `!id` on a selected id: `null` and `0` are falsy. */
  predicate SinSeleccion(id: Option<int>) {
    id.None? || id.value == 0
  }

  /** The end of a load: an answer shows its data in view `v` with no
      error; a failure keeps the view and the data and shows `msg`. */
  function Terminar<T>(s: Estado<T>, r: Respuesta<T>, v: Vista, msg: string): (t: Estado<T>)
    ensures r.Ok? ==> t == s.(vista := v, error := "", resultados := Some(r.valor))
    ensures r.Falla? ==> t == s.(error := msg)
  {
    if r.Ok? then s.(vista := v, error := "", resultados := Some(r.valor))
    else s.(error := msg)
  }

  /** `cargarResultadosGenerales`: clears both selections and the filter
      before asking for the national results. */
  function CargarGenerales<T>(s: Estado<T>, r: Respuesta<T>): (t: Estado<T>)
    ensures t.circuito.None? && t.departamento.None? && t.filtro == ""
    ensures r.Ok? ==> t.vista == Generales && t.error == "" && t.resultados == Some(r.valor)
    ensures r.Falla? ==> t.vista == s.vista && t.resultados == s.resultados
                         && t.error == "Error al cargar los resultados generales"
  {
    Terminar(s.(circuito := None, departamento := None, filtro := ""), r, Generales,
             "Error al cargar los resultados generales")
  }

  /** `cargarResultadosCircuito`: nothing without a selected circuit;
      otherwise clears the department and the filter, keeps the circuit,
      and asks for that circuit's results. */
  function CargarCircuito<T>(s: Estado<T>, r: Respuesta<T>): (t: Estado<T>)
    ensures SinSeleccion(s.circuito) ==> t == s
    ensures !SinSeleccion(s.circuito) ==> t.circuito == s.circuito && t.departamento.None? && t.filtro == ""
    ensures !SinSeleccion(s.circuito) && r.Ok? ==> t.vista == Circuito && t.error == "" && t.resultados == Some(r.valor)
    ensures !SinSeleccion(s.circuito) && r.Falla? ==>
              t.vista == s.vista && t.resultados == s.resultados
              && t.error == "Error al cargar los resultados del circuito"
  {
    if SinSeleccion(s.circuito) then s
    else Terminar(s.(departamento := None, filtro := ""), r, Circuito,
                  "Error al cargar los resultados del circuito")
  }

  /** `cargarResultadosDepartamento`: nothing without a selected
      department; otherwise clears the circuit and the filter, keeps the
      department, and asks for that department's results. */
  function CargarDepartamento<T>(s: Estado<T>, r: Respuesta<T>): (t: Estado<T>)
    ensures SinSeleccion(s.departamento) ==> t == s
    ensures !SinSeleccion(s.departamento) ==> t.departamento == s.departamento && t.circuito.None? && t.filtro == ""
    ensures !SinSeleccion(s.departamento) && r.Ok? ==>
              t.vista == Departamento && t.error == "" && t.resultados == Some(r.valor)
    ensures !SinSeleccion(s.departamento) && r.Falla? ==>
              t.vista == s.vista && t.resultados == s.resultados
              && t.error == "Error al cargar los resultados del departamento"
  {
    if SinSeleccion(s.departamento) then s
    else Terminar(s.(circuito := None, filtro := ""), r, Departamento,
                  "Error al cargar los resultados del departamento")
  }

  /** The view agrees with the selection: the circuit view has a circuit
      and no department, the department view a department and no circuit,
      and the national view neither. */
  predicate VistaCoherente<T>(s: Estado<T>) {
    match s.vista
    case Circuito => !SinSeleccion(s.circuito) && s.departamento.None?
    case Departamento => !SinSeleccion(s.departamento) && s.circuito.None?
    case Generales => s.circuito.None? && s.departamento.None?
  }

  /** Every load that the service answers leaves a view that agrees with
      the selection, and at most one of circuit and department selected. */
  lemma CargasCoherentes<T>(s: Estado<T>, v: T)
    ensures VistaCoherente(CargarGenerales(s, Ok(v)))
    ensures !SinSeleccion(s.circuito) ==> VistaCoherente(CargarCircuito(s, Ok(v)))
    ensures !SinSeleccion(s.departamento) ==> VistaCoherente(CargarDepartamento(s, Ok(v)))
    ensures var t := CargarCircuito(s, Ok(v)); t != s ==> t.circuito.None? || t.departamento.None?
    ensures var t := CargarDepartamento(s, Ok(v)); t != s ==> t.circuito.None? || t.departamento.None?
  {
  }

  /** Loading the same view twice with the same answer is loading it
      once. */
  lemma CargasIdempotentes<T>(s: Estado<T>, r: Respuesta<T>)
    ensures CargarGenerales(CargarGenerales(s, r), r) == CargarGenerales(s, r)
    ensures CargarCircuito(CargarCircuito(s, r), r) == CargarCircuito(s, r)
    ensures CargarDepartamento(CargarDepartamento(s, r), r) == CargarDepartamento(s, r)
  {
  }

  /** A circuit in the admin's list; `numero` is as it prints. */
  datatype CircuitoAdmin = CircuitoAdmin(id: int, numero: string, departamento: string)

  /** The text the filter searches: `numero + ' - ' + departamento`. */
  function Etiqueta(c: CircuitoAdmin): string {
    c.numero + " - " + c.departamento
  }

  predicate CoincideCircuito(c: CircuitoAdmin, f: string) {
    Text.Includes(Text.Lower(Etiqueta(c)), Text.Lower(f))
  }

  /** `circuitosFiltrados`: an empty filter lists every circuit; otherwise,
      in order, the circuits whose label includes the filter, ignoring
      case on both sides. */
  function CircuitosFiltrados(cs: seq<CircuitoAdmin>, filtro: string): (r: seq<CircuitoAdmin>)
    ensures filtro == "" ==> r == cs
    ensures |r| <= |cs|
    ensures forall i :: 0 <= i < |r| ==> r[i] in cs && CoincideCircuito(r[i], filtro)
    ensures forall i :: 0 <= i < |cs| && CoincideCircuito(cs[i], filtro) ==> cs[i] in r
    ensures filtro != "" ==> Seqs.Picks(r, cs, Seqs.Kept(cs, (c: CircuitoAdmin) => CoincideCircuito(c, filtro)))
  {
    if filtro == "" then
      VacioCoincide(cs);
      cs
    else Seqs.Filter(cs, (c: CircuitoAdmin) => CoincideCircuito(c, filtro))
  }

  /** The empty filter matches every circuit. */
  lemma VacioCoincide(cs: seq<CircuitoAdmin>)
    ensures forall i :: 0 <= i < |cs| ==> CoincideCircuito(cs[i], "")
  {
    forall i | 0 <= i < |cs|
      ensures CoincideCircuito(cs[i], "")
    {
      Text.IncludesEmpty(Text.Lower(Etiqueta(cs[i])));
    }
  }

  /** Typing a circuit's label, in any case, finds that circuit. */
  lemma EtiquetaEncuentraCircuito(cs: seq<CircuitoAdmin>, k: nat)
    requires k < |cs|
    ensures cs[k] in CircuitosFiltrados(cs, Text.Upper(Etiqueta(cs[k])))
    ensures cs[k] in CircuitosFiltrados(cs, Etiqueta(cs[k]))
  {
    var e := Etiqueta(cs[k]);
    Text.LowerOfUpper(e);
    Text.IncludesSelf(Text.Lower(e));
    assert CoincideCircuito(cs[k], e);
    assert CoincideCircuito(cs[k], Text.Upper(e));
  }

  /** The circuit filter ignores the case of the filter. */
  lemma FiltroIgnoraMayusculas(cs: seq<CircuitoAdmin>, filtro: string)
    ensures CircuitosFiltrados(cs, Text.Upper(filtro)) == CircuitosFiltrados(cs, filtro)
  {
    Text.LowerOfUpper(filtro);
    if filtro != "" {
      Seqs.FilterAgreeing(cs, c => CoincideCircuito(c, Text.Upper(filtro)), c => CoincideCircuito(c, filtro));
    }
  }

  /** The colour of a percentage bar. */
  datatype Color = Primary | Accent | Warn

  /** `getColorPorcentaje`: 50 and above is primary, 25 and above accent,
      anything else (`NaN` included) warn. */
  function ColorPorcentaje(p: Js.JsNumber): (c: Color)
    ensures c == Primary <==> p.Num? && p.value >= 50.0
    ensures c == Accent <==> p.Num? && 25.0 <= p.value < 50.0
    ensures c == Warn <==> p.NaN? || p.value < 25.0
  {
    if p.Num? && p.value >= 50.0 then Primary
    else if p.Num? && p.value >= 25.0 then Accent
    else Warn
  }

  function Rango(c: Color): nat {
    match c
    case Warn => 0
    case Accent => 1
    case Primary => 2
  }

  /** A larger percentage never gets a weaker colour. */
  lemma ColorMonotono(p: real, q: real)
    requires p <= q
    ensures Rango(ColorPorcentaje(Js.Num(p))) <= Rango(ColorPorcentaje(Js.Num(q)))
  {
  }

  /** `formatearPorcentaje`: `null`, `undefined` and anything `Number`
      turns into `NaN` print the literal `0.00%` (here `None`); any other
      value prints its number with two decimals and `%` (here `Some` of
      that number). */
  function FormatearPorcentaje(v: Js.JsValue): (r: Option<real>)
    ensures r.None? <==> v == Js.Null || v == Js.Undefined || Js.ToNumber(v).NaN?
    ensures r.Some? ==> r.value == Js.ToNumber(v).value
  {
    var n := Js.ToNumber(v);
    if n.NaN? || v == Js.Null || v == Js.Undefined then None else Some(n.value)
  }

  /** A percentage that arrives as the printed integer `i` is shown as
      `i`. */
  lemma FormatearTextoEntero(i: int)
    ensures FormatearPorcentaje(Js.Str(Text.IntToString(i))) == Some(i as real)
  {
    Js.NumberOfIntToString(i);
  }

  /** The turnout counts of a view. */
  datatype Estadisticas = Estadisticas(habilitados: real, votaron: real, observados: real)

  /** `getEstadisticas`: an official sees the circuit's figures, an admin
      the figures of the results loaded, anyone else none. */
  function ObtenerEstadisticas(rol: Js.JsValue, deCircuito: Option<Estadisticas>, deAdmin: Option<Estadisticas>): (e: Option<Estadisticas>)
    ensures rol == Js.Str("FUNCIONARIO") ==> e == deCircuito
    ensures rol == Js.Str("ADMIN") ==> e == deAdmin
    ensures rol != Js.Str("FUNCIONARIO") && rol != Js.Str("ADMIN") ==> e.None?
  {
    if Js.StrictEquals(rol, Js.Str("FUNCIONARIO")) then deCircuito
    else if Js.StrictEquals(rol, Js.Str("ADMIN")) then deAdmin
    else None
  }

  /** `getPorcentajeParticipacion`: no figures, or no one enabled to vote,
      prints the literal `0.0%` (here `None`); otherwise the share of
      enabled voters who voted, in percent. */
  function Participacion(stats: Option<Estadisticas>): (r: Option<real>)
    ensures r.None? <==> stats.None? || stats.value.habilitados <= 0.0
    ensures r.Some? ==> r.value * stats.value.habilitados == stats.value.votaron * 100.0
  {
    if stats.None? || stats.value.habilitados <= 0.0 then None
    else Some(stats.value.votaron / stats.value.habilitados * 100.0)
  }

  /** With no more voters than enabled voters, participation lies between
      0 and 100. */
  lemma ParticipacionAcotada(s: Estadisticas)
    requires 0.0 < s.habilitados && 0.0 <= s.votaron <= s.habilitados
    ensures var r := Participacion(Some(s)); r.Some? && 0.0 <= r.value <= 100.0
  {
    var r := Participacion(Some(s)).value;
    assert r * s.habilitados == s.votaron * 100.0;
    assert r * s.habilitados <= s.habilitados * 100.0;
  }
}
