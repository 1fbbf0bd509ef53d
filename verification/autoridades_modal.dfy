/** The dialog in which an admin assigns a circuit's three authorities
    (front/src/app/pages/admin/autoridades-modal.component.ts): the
    circuit and employee autocompletes, how loaded authorities are matched
    against the loaded employees, and the payload a save sends. The service
    calls are inputs. */
module AutoridadesModal {
  import opened Wrappers
  import Text
  import Seqs
  import opened Autocomplete

  datatype Circuito = Circuito(id: int, numero: string, departamento: string)

  datatype Empleado = Empleado(credencial: string, nombres: string, apellidos: string)

  /** A circuit's authorities as the service returns them, each possibly
      `null`. */
  datatype Autoridades = Autoridades(presidente: Option<Empleado>, secretario: Option<Empleado>, vocal: Option<Empleado>)

  /** The dialog's state: the loaded lists, the chosen circuit and the
      three role controls. */
  datatype Modal = Modal(
    circuitos: seq<Circuito>,
    empleados: seq<Empleado>,
    seleccionado: Option<Circuito>,
    presidente: Control<Empleado>,
    secretario: Control<Empleado>,
    vocal: Control<Empleado>)

  /** What a save sends: the circuit id and each role's credential, or
      `undefined` (here `None`) when the role's control holds no
      employee. */
  datatype Envio = Envio(idCircuito: int, presidente: Option<string>, secretario: Option<string>, vocal: Option<string>)

  /** `displayCircuito`. */
  function MostrarCircuito(c: Option<Circuito>): (s: string)
    ensures s == "" <==> c.None?
    ensures c.Some? ==> s == "Circuito " + c.value.numero + " - " + c.value.departamento
  {
    if c.None? then "" else "Circuito " + c.value.numero + " - " + c.value.departamento
  }

  /** `displayEmpleado`. */
  function MostrarEmpleado(e: Option<Empleado>): (s: string)
    ensures s == "" <==> e.None?
    ensures e.Some? ==> s == e.value.nombres + " " + e.value.apellidos + " (" + e.value.credencial + ")"
  {
    if e.None? then "" else e.value.nombres + " " + e.value.apellidos + " (" + e.value.credencial + ")"
  }

  /** The shown employee ends with the credential in parentheses, so two
      employees displayed alike with credentials of equal length have the
      same credential. */
  lemma CredencialAlFinal(e: Empleado)
    ensures var s := MostrarEmpleado(Some(e));
            |s| >= |e.credencial| + 2 && s[|s| - |e.credencial| - 1 .. |s| - 1] == e.credencial && s[|s| - 1] == ')'
  {
    var s := MostrarEmpleado(Some(e));
    assert s == (e.nombres + " " + e.apellidos + " (") + e.credencial + ")";
  }

  /** The circuit filter's test. */
  predicate CoincideCircuito(c: Circuito, f: string) {
    Text.Includes(Text.Lower(c.numero), f) || Text.Includes(Text.Lower(c.departamento), f)
  }

  /** `_filterCircuitos`: a falsy value lists every circuit; otherwise, in
      order, those whose number or department includes the lower-cased
      text (the empty text for a picked circuit). */
  function FiltrarCircuitos(v: Control<Circuito>, cs: seq<Circuito>): (r: seq<Circuito>)
    ensures Falsy(v) ==> r == cs
    ensures |r| <= |cs|
    ensures !Falsy(v) ==> forall i :: 0 <= i < |r| ==> r[i] in cs && CoincideCircuito(r[i], FilterText(v))
    ensures !Falsy(v) ==> forall i :: 0 <= i < |cs| && CoincideCircuito(cs[i], FilterText(v)) ==> cs[i] in r
    ensures !Falsy(v) ==> Seqs.Picks(r, cs, Seqs.Kept(cs, (c: Circuito) => CoincideCircuito(c, FilterText(v))))
  {
    if Falsy(v) then cs
    else Seqs.Filter(cs, (c: Circuito) => CoincideCircuito(c, FilterText(v)))
  }

  /** A picked circuit filters with the empty text: every circuit is
      offered. */
  lemma CircuitoElegidoMuestraTodo(c: Circuito, cs: seq<Circuito>)
    ensures FiltrarCircuitos(Selected(c), cs) == cs
  {
    forall i | 0 <= i < |cs|
      ensures CoincideCircuito(cs[i], "")
    {
      Text.IncludesEmpty(Text.Lower(cs[i].numero));
    }
    Seqs.FilterKeepsAll(cs, c => CoincideCircuito(c, ""));
  }

  /** The circuit filter ignores the case of what was typed. */
  lemma CircuitosIgnoraMayusculas(s: string, cs: seq<Circuito>)
    ensures FiltrarCircuitos(Typed(Text.Upper(s)), cs) == FiltrarCircuitos(Typed(s), cs)
  {
    Text.LowerOfUpper(s);
    if s != "" {
      var f := Text.Lower(s);
      Seqs.FilterAgreeing(cs, c => CoincideCircuito(c, FilterText(Control<Circuito>.Typed(Text.Upper(s)))),
                          c => CoincideCircuito(c, f));
    }
  }

  /** The employee filter's test. */
  predicate CoincideEmpleado(e: Empleado, f: string) {
    || Text.Includes(Text.Lower(e.nombres), f)
    || Text.Includes(Text.Lower(e.apellidos), f)
    || Text.Includes(Text.Lower(e.credencial), f)
  }

  /** `_filterEmpleados`, shared by the three role controls. */
  function FiltrarEmpleados(v: Control<Empleado>, es: seq<Empleado>): (r: seq<Empleado>)
    ensures Falsy(v) ==> r == es
    ensures |r| <= |es|
    ensures !Falsy(v) ==> forall i :: 0 <= i < |r| ==> r[i] in es && CoincideEmpleado(r[i], FilterText(v))
    ensures !Falsy(v) ==> forall i :: 0 <= i < |es| && CoincideEmpleado(es[i], FilterText(v)) ==> es[i] in r
    ensures !Falsy(v) ==> Seqs.Picks(r, es, Seqs.Kept(es, (e: Empleado) => CoincideEmpleado(e, FilterText(v))))
  {
    if Falsy(v) then es
    else Seqs.Filter(es, (e: Empleado) => CoincideEmpleado(e, FilterText(v)))
  }

  /** The employee filter ignores the case of what was typed. */
  lemma EmpleadosIgnoraMayusculas(s: string, es: seq<Empleado>)
    ensures FiltrarEmpleados(Typed(Text.Upper(s)), es) == FiltrarEmpleados(Typed(s), es)
  {
    Text.LowerOfUpper(s);
    if s != "" {
      var f := Text.Lower(s);
      Seqs.FilterAgreeing(es, e => CoincideEmpleado(e, FilterText(Control<Empleado>.Typed(Text.Upper(s)))),
                          e => CoincideEmpleado(e, f));
    }
  }

  /** `_findEmpleado`: `null` stays `null`; otherwise the first loaded
      employee with the same credential, or `null` when none has it. The
      result is the loaded record, not the one the service sent. */
  function BuscarEmpleado(autoridad: Option<Empleado>, es: seq<Empleado>): (r: Option<Empleado>)
    ensures autoridad.None? ==> r.None?
    ensures autoridad.Some? ==>
              (r.None? <==> forall i :: 0 <= i < |es| ==> es[i].credencial != autoridad.value.credencial)
    ensures r.Some? ==> exists i :: 0 <= i < |es| && es[i] == r.value
                                    && r.value.credencial == autoridad.value.credencial
                                    && forall j :: 0 <= j < i ==> es[j].credencial != autoridad.value.credencial
  {
    if autoridad.None? then None
    else Seqs.Find(es, (e: Empleado) => e.credencial == autoridad.value.credencial)
  }

  /** An optional employee as a control value (`setValue(x)` with `x` an
      employee or `null`). */
  function AControl(e: Option<Empleado>): (c: Control<Empleado>)
    ensures c.Empty? <==> e.None?
    ensures e.Some? ==> c == Selected(e.value)
  {
    if e.None? then Empty else Selected(e.value)
  }

  /** `cargarAutoridadesCircuito` once the service has answered: a truthy
      answer sets each role control to the matching loaded employee or
      `null`; a `null` answer leaves the controls as they were. */
  function CargarAutoridades(m: Modal, aut: Option<Autoridades>): (n: Modal)
    ensures aut.None? ==> n == m
    ensures n.circuitos == m.circuitos && n.empleados == m.empleados && n.seleccionado == m.seleccionado
    ensures aut.Some? ==>
              && n.presidente == AControl(BuscarEmpleado(aut.value.presidente, m.empleados))
              && n.secretario == AControl(BuscarEmpleado(aut.value.secretario, m.empleados))
              && n.vocal == AControl(BuscarEmpleado(aut.value.vocal, m.empleados))
  {
    if aut.None? then m
    else m.(presidente := AControl(BuscarEmpleado(aut.value.presidente, m.empleados)),
            secretario := AControl(BuscarEmpleado(aut.value.secretario, m.empleados)),
            vocal := AControl(BuscarEmpleado(aut.value.vocal, m.empleados)))
  }

  /** `control.value ? control.value.credencial : undefined`: only a picked
      employee yields a credential; typed text is truthy but has no
      `credencial`. */
  function CredencialRol(c: Control<Empleado>): (cc: Option<string>)
    ensures cc.Some? <==> c.Selected?
    ensures c.Selected? ==> cc == Some(c.item.credencial)
  {
    if c.Selected? then Some(c.item.credencial) else None
  }

  /** `guardarCambios` up to the call: nothing without a chosen circuit;
      otherwise the chosen circuit's id and the three role credentials. */
  function GuardarCambios(m: Modal): (e: Option<Envio>)
    ensures e.None? <==> m.seleccionado.None?
    ensures e.Some? ==> e.value.idCircuito == m.seleccionado.value.id
    ensures e.Some? ==> e.value.presidente == CredencialRol(m.presidente)
                        && e.value.secretario == CredencialRol(m.secretario)
                        && e.value.vocal == CredencialRol(m.vocal)
  {
    if m.seleccionado.None? then None
    else Some(Envio(m.seleccionado.value.id, CredencialRol(m.presidente),
                    CredencialRol(m.secretario), CredencialRol(m.vocal)))
  }

  /** The credential a role gets when it is loaded from `a` and saved
      untouched. */
  function Recarga(a: Option<Empleado>, es: seq<Empleado>): Option<string> {
    if a.Some? && exists i :: 0 <= i < |es| && es[i].credencial == a.value.credencial
    then Some(a.value.credencial) else None
  }

  /** Loading a circuit's authorities and saving without touching the
      controls sends back each authority's credential when the loaded
      employees include it, and `undefined` for a role that was `null` or
      whose holder is not among them. */
  lemma CargarYGuardar(m: Modal, aut: Autoridades)
    requires m.seleccionado.Some?
    ensures GuardarCambios(CargarAutoridades(m, Some(aut)))
            == Some(Envio(m.seleccionado.value.id,
                          Recarga(aut.presidente, m.empleados),
                          Recarga(aut.secretario, m.empleados),
                          Recarga(aut.vocal, m.empleados)))
  {
    RecargaRol(aut.presidente, m.empleados);
    RecargaRol(aut.secretario, m.empleados);
    RecargaRol(aut.vocal, m.empleados);
  }

  lemma RecargaRol(a: Option<Empleado>, es: seq<Empleado>)
    ensures CredencialRol(AControl(BuscarEmpleado(a, es))) == Recarga(a, es)
  {
    if a.Some? {
      var r := BuscarEmpleado(a, es);
      if r.Some? {
        assert r.value.credencial == a.value.credencial;
      }
    }
  }
}
