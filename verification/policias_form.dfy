/** The admin page that assigns citizens as police officers to a comisaría
    and an establecimiento (front/src/app/pages/admin/policias.component.ts):
    the three autocomplete lists, the blur that switches between adding and
    editing, the submit and delete flows with their confirmation dialogs,
    and the form reset. The dialogs' results and the service replies are
    inputs; reloading the lists after a call is left to the caller. */
module PoliciasForm {
  import opened Wrappers
  import Js
  import opened Autocomplete
  import Feedback
  import Seqs

  /** A police row as listed: the person, the comisaría's `nombre` and the
      establecimiento's `direccion`. */
  datatype Policia = Policia(persona: Persona, comisaria: string, establecimiento: string)

  /** The loaded lists; `Ref.texto` is a comisaría's `nombre` and an
      establecimiento's `direccion`. */
  datatype Listas = Listas(
    ciudadanos: seq<Persona>,
    policias: seq<Policia>,
    comisarias: seq<Ref>,
    establecimientos: seq<Ref>)

  /** The component's state. */
  datatype Form = Form(
    credencial: Control<Persona>,
    comisaria: Control<Ref>,
    establecimiento: Control<Ref>,
    esEdicion: bool,
    actual: Option<Policia>,
    mensaje: string)

  /** The service call a step makes, with its payload (`None` for a field
      read off a control holding typed text, which is `undefined`). */
  datatype Llamada =
    | Agregar(credencial: Option<string>, idComisaria: Option<int>, idEstablecimiento: Option<int>)
    | Editar(credencial: Option<string>, idComisaria: Option<int>, idEstablecimiento: Option<int>)
    | Eliminar(cc: string)

  /** A step's outcome: the new state and the call made, if any. */
  datatype Paso = Paso(form: Form, llamada: Option<Llamada>)

  function PersonaDe(p: Policia): Persona {
    p.persona
  }

  /** The officers seen as people, in order. */
  function Personas(ps: seq<Policia>): (r: seq<Persona>)
    ensures |r| == |ps| && forall i :: 0 <= i < |ps| ==> r[i] == ps[i].persona
  {
    seq(|ps|, i requires 0 <= i < |ps| => PersonaDe(ps[i]))
  }

  /** `_filterCiudadanos` over this page's lists. */
  function FiltrarCiudadanos(v: Control<Persona>, l: Listas): (r: seq<Persona>)
    ensures Falsy(v) ==> r == l.ciudadanos + Personas(l.policias)
    ensures !Falsy(v) ==> forall i :: 0 <= i < |r| ==>
              (r[i] in l.ciudadanos || r[i] in Personas(l.policias)) && Coincide(r[i], FilterText(v))
    ensures !Falsy(v) ==> forall i :: 0 <= i < |l.ciudadanos| && Coincide(l.ciudadanos[i], FilterText(v)) ==>
              l.ciudadanos[i] in r
    ensures !Falsy(v) ==> forall i ::
              (0 <= i < |l.policias| && Coincide(l.policias[i].persona, FilterText(v)) &&
               SinCredencial(l.ciudadanos, l.policias[i].persona.credencial)) ==> l.policias[i].persona in r
    ensures !Falsy(v) && CredencialesUnicas(l.ciudadanos) && CredencialesUnicas(Personas(l.policias)) ==>
              CredencialesUnicas(r)
    ensures !Falsy(v) ==> forall i :: 0 <= i < |r| ==> r[i] in Fusion(l.ciudadanos, Personas(l.policias))
    ensures !Falsy(v) ==> forall i :: 0 <= i < |r| && r[i] !in l.ciudadanos ==>
              SinCredencial(l.ciudadanos, r[i].credencial)
    ensures !Falsy(v) ==>
              Seqs.Picks(r, Fusion(l.ciudadanos, Personas(l.policias)),
                         Seqs.Kept(Fusion(l.ciudadanos, Personas(l.policias)), (p: Persona) => Coincide(p, FilterText(v))))
  {
    var ps := Personas(l.policias);
    if CredencialesUnicas(l.ciudadanos) && CredencialesUnicas(ps) then
      FiltrarPersonasSinDuplicados(v, l.ciudadanos, ps);
      FiltrarPersonas(v, l.ciudadanos, ps)
    else FiltrarPersonas(v, l.ciudadanos, ps)
  }

  /** `_filterComisarias`: by `nombre` or id. */
  function FiltrarComisarias(v: Control<Ref>, l: Listas): (r: seq<Ref>)
    ensures Falsy(v) ==> r == l.comisarias
    ensures forall i :: 0 <= i < |r| ==> r[i] in l.comisarias
    ensures !Falsy(v) ==> forall i :: 0 <= i < |r| ==> CoincideRef(r[i], FilterText(v))
    ensures !Falsy(v) ==> forall i :: 0 <= i < |l.comisarias| && CoincideRef(l.comisarias[i], FilterText(v)) ==> l.comisarias[i] in r
    ensures !Falsy(v) ==> Seqs.Picks(r, l.comisarias, Seqs.Kept(l.comisarias, (e: Ref) => CoincideRef(e, FilterText(v))))
  {
    FiltrarRef(v, l.comisarias)
  }

  /** `_filterEstablecimientos`: by `direccion` or id. */
  function FiltrarEstablecimientos(v: Control<Ref>, l: Listas): (r: seq<Ref>)
    ensures Falsy(v) ==> r == l.establecimientos
    ensures forall i :: 0 <= i < |r| ==> r[i] in l.establecimientos
    ensures !Falsy(v) ==> forall i :: 0 <= i < |r| ==> CoincideRef(r[i], FilterText(v))
    ensures !Falsy(v) ==> forall i :: 0 <= i < |l.establecimientos| && CoincideRef(l.establecimientos[i], FilterText(v)) ==> l.establecimientos[i] in r
    ensures !Falsy(v) ==> Seqs.Picks(r, l.establecimientos, Seqs.Kept(l.establecimientos, (e: Ref) => CoincideRef(e, FilterText(v))))
  {
    FiltrarRef(v, l.establecimientos)
  }

  /** The first officer of `ps` with credential `cc`. */
  function BuscarPolicia(ps: seq<Policia>, cc: string): (r: Option<Policia>)
    ensures r.None? <==> forall i :: 0 <= i < |ps| ==> ps[i].persona.credencial != cc
    ensures r.Some? ==> exists i :: 0 <= i < |ps| && ps[i] == r.value && r.value.persona.credencial == cc
                                    && forall j :: 0 <= j < i ==> ps[j].persona.credencial != cc
  {
    Seqs.Find(ps, (p: Policia) => p.persona.credencial == cc)
  }

  /** Adding mode: no officer selected, both reference controls empty. */
  function ModoAlta(f: Form): (g: Form)
    ensures !g.esEdicion && g.actual.None? && g.comisaria.Empty? && g.establecimiento.Empty?
    ensures g.credencial == f.credencial && g.mensaje == f.mensaje
  {
    f.(esEdicion := false, actual := None, comisaria := Empty, establecimiento := Empty)
  }

  /** `onCredencialBlur`. A picked person who is an officer switches to
      editing that officer, with each reference control set to the entry
      of the officer's comisaría name or establecimiento address, or to
      `null` when the list lacks it; anything else switches to adding with
      both reference controls reset. */
  function Blur(f: Form, l: Listas): (g: Form)
    ensures g.credencial == f.credencial && g.mensaje == f.mensaje
    ensures g.esEdicion <==> (f.credencial.Selected? &&
              exists i :: 0 <= i < |l.policias| && l.policias[i].persona.credencial == f.credencial.item.credencial)
    ensures g.esEdicion <==> g.actual.Some?
    ensures !g.esEdicion ==> g.comisaria.Empty? && g.establecimiento.Empty?
    ensures g.actual.Some? ==> g.actual.value in l.policias
                               && g.actual.value.persona.credencial == f.credencial.item.credencial
                               && g.comisaria == BuscarPorTexto(l.comisarias, g.actual.value.comisaria)
                               && g.establecimiento == BuscarPorTexto(l.establecimientos, g.actual.value.establecimiento)
  {
    if !f.credencial.Selected? then ModoAlta(f)
    else match BuscarPolicia(l.policias, f.credencial.item.credencial)
      case None => ModoAlta(f)
      case Some(pol) =>
        f.(esEdicion := true, actual := Some(pol),
           comisaria := BuscarPorTexto(l.comisarias, pol.comisaria),
           establecimiento := BuscarPorTexto(l.establecimientos, pol.establecimiento))
  }

  /** Editing exactly when an officer is current, and that officer is the
      picked person. */
  predicate Coherente(f: Form) {
    && (f.esEdicion <==> f.actual.Some?)
    && (f.actual.Some? ==> f.credencial.Selected? && f.actual.value.persona.credencial == f.credencial.item.credencial)
  }

  /** A blur leaves the form coherent, and blurring again changes
      nothing. */
  lemma BlurCoherenteIdempotente(f: Form, l: Listas)
    ensures Coherente(Blur(f, l))
    ensures Blur(Blur(f, l), l) == Blur(f, l)
  {
  }

  /** `resetForm`: the three controls cleared and the edit state dropped;
      the message stays. */
  function Reiniciar(f: Form): (g: Form)
    ensures g.credencial.Empty? && g.comisaria.Empty? && g.establecimiento.Empty?
    ensures !g.esEdicion && g.actual.None? && g.mensaje == f.mensaje
  {
    Form(Empty, Empty, Empty, false, None, f.mensaje)
  }

  /** The end of a call: success sets the reply's message, or `exito`, and
      resets the form; failure only sets `fallo`. */
  function Terminar(f: Form, res: Feedback.Resultado, exito: string, fallo: string): (g: Form)
    ensures res.Exito? ==> g == Reiniciar(f).(mensaje := g.mensaje)
    ensures res.Fallo? ==> g == f.(mensaje := g.mensaje)
    ensures g.mensaje == Feedback.Mensaje(res, exito, fallo)
  {
    var m := Feedback.Mensaje(res, exito, fallo);
    if res.Exito? then Reiniciar(f).(mensaje := m) else f.(mensaje := m)
  }

  /** All three controls are truthy. */
  predicate Completo(f: Form) {
    !Falsy(f.credencial) && !Falsy(f.comisaria) && !Falsy(f.establecimiento)
  }

  /** `onSubmit`. Nothing happens unless all three controls are truthy. In
      edit mode the dialog must close with `true`, and then the edit call
      is made; otherwise the add call is made, without a dialog. */
  function Enviar(f: Form, dialogo: Js.JsValue, res: Feedback.Resultado): (p: Paso)
    ensures !Completo(f) ==> p == Paso(f, None)
    ensures f.esEdicion && !Feedback.Confirmado(dialogo) ==> p == Paso(f, None)
    ensures p.llamada.None? ==> p.form == f
    ensures Completo(f) && !f.esEdicion ==>
              p == Paso(Terminar(f, res, "Policía agregado correctamente", "Error al agregar policía"),
                        Some(Agregar(CredencialDe(f.credencial), IdDe(f.comisaria), IdDe(f.establecimiento))))
    ensures Completo(f) && f.esEdicion && Feedback.Confirmado(dialogo) ==>
              p == Paso(Terminar(f, res, "Policía actualizado", "Error al actualizar policía"),
                        Some(Editar(CredencialDe(f.credencial), IdDe(f.comisaria), IdDe(f.establecimiento))))
  {
    if !Completo(f) then Paso(f, None)
    else
      var cc := CredencialDe(f.credencial);
      var com := IdDe(f.comisaria);
      var est := IdDe(f.establecimiento);
      if f.esEdicion then
        if !Feedback.Confirmado(dialogo) then Paso(f, None)
        else Paso(Terminar(f, res, "Policía actualizado", "Error al actualizar policía"), Some(Editar(cc, com, est)))
      else Paso(Terminar(f, res, "Policía agregado correctamente", "Error al agregar policía"), Some(Agregar(cc, com, est)))
  }

  /** `eliminarPolicia`: nothing without a current officer or without the
      dialog closing with `true`; otherwise the delete call for the current
      officer's credential. */
  function EliminarActual(f: Form, dialogo: Js.JsValue, res: Feedback.Resultado): (p: Paso)
    ensures f.actual.None? || !Feedback.Confirmado(dialogo) ==> p == Paso(f, None)
    ensures f.actual.Some? && Feedback.Confirmado(dialogo) ==>
              p == Paso(Terminar(f, res, "Policía eliminado", "Error al eliminar policía"),
                        Some(Eliminar(f.actual.value.persona.credencial)))
  {
    if f.actual.None? || !Feedback.Confirmado(dialogo) then Paso(f, None)
    else Paso(Terminar(f, res, "Policía eliminado", "Error al eliminar policía"),
              Some(Eliminar(f.actual.value.persona.credencial)))
  }

  /** Submitting and deleting keep a coherent form coherent. */
  lemma PasosCoherentes(f: Form, dialogo: Js.JsValue, res: Feedback.Resultado)
    requires Coherente(f)
    ensures Coherente(Enviar(f, dialogo, res).form)
    ensures Coherente(EliminarActual(f, dialogo, res).form)
  {
  }

  /** On a coherent form an edit goes to the current officer, and an add is
      made only when no officer is current. */
  lemma EnviarSegunActual(f: Form, dialogo: Js.JsValue, res: Feedback.Resultado)
    requires Coherente(f)
    ensures match Enviar(f, dialogo, res).llamada
            case Some(Editar(cc, _, _)) => f.actual.Some? && cc == Some(f.actual.value.persona.credencial)
            case Some(Agregar(_, _, _)) => f.actual.None?
            case _ => true
  {
  }

  /** Whatever the dialog answered, a form without three truthy controls
      sends nothing, and a submission sends ids only for picked entries. */
  lemma EnviarCompleto(f: Form, dialogo: Js.JsValue, res: Feedback.Resultado)
    ensures var p := Enviar(f, dialogo, res);
            p.llamada.Some? && !p.llamada.value.Eliminar? ==>
              && Completo(f)
              && (p.llamada.value.idComisaria.Some? <==> f.comisaria.Selected?)
              && (p.llamada.value.idEstablecimiento.Some? <==> f.establecimiento.Selected?)
  {
  }
}
