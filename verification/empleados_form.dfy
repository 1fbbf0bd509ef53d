/** The admin page that assigns citizens to organismos as employees
    (front/src/app/pages/admin/empleados.component.ts): the two
    autocomplete lists, the blur that switches between adding and editing,
    the submit and delete flows with their confirmation dialogs, and the
    form reset. The dialogs' results and the service replies are inputs;
    reloading the lists after a call is left to the caller. */
module EmpleadosForm {
  import opened Wrappers
  import Js
  import opened Autocomplete
  import Feedback
  import Seqs

  /** An employee row as listed: the person and the name of the
      organismo. */
  datatype Empleado = Empleado(persona: Persona, organismo: string)

  /** The loaded lists: citizens without a job, current employees,
      organismos (`Ref.texto` is the organismo's `nombre`). */
  datatype Listas = Listas(ciudadanos: seq<Persona>, empleados: seq<Empleado>, organismos: seq<Ref>)

  /** The component's state. */
  datatype Form = Form(
    credencial: Control<Persona>,
    organismo: Control<Ref>,
    esEdicion: bool,
    actual: Option<Empleado>,
    mensaje: string)

  /** The service call a step makes, with the payload it sends; an id or a
      credential read off a control that holds typed text is `undefined`,
      here `None`. */
  datatype Llamada =
    | Agregar(credencial: Option<string>, idOrganismo: Option<int>)
    | Editar(credencial: Option<string>, idOrganismo: Option<int>)
    | Eliminar(cc: string)

  /** A step's outcome: the new state and the call made, if any. */
  datatype Paso = Paso(form: Form, llamada: Option<Llamada>)

  function PersonaDe(e: Empleado): Persona {
    e.persona
  }

  /** The employees seen as people, in order. */
  function Personas(es: seq<Empleado>): (ps: seq<Persona>)
    ensures |ps| == |es| && forall i :: 0 <= i < |es| ==> ps[i] == es[i].persona
  {
    seq(|es|, i requires 0 <= i < |es| => PersonaDe(es[i]))
  }

  /** `_filterCiudadanos` over this page's lists. */
  function FiltrarCiudadanos(v: Control<Persona>, l: Listas): (r: seq<Persona>)
    ensures Falsy(v) ==> r == l.ciudadanos + Personas(l.empleados)
    ensures !Falsy(v) ==> forall i :: 0 <= i < |r| ==>
              (r[i] in l.ciudadanos || r[i] in Personas(l.empleados)) && Coincide(r[i], FilterText(v))
    ensures !Falsy(v) ==> forall i :: 0 <= i < |l.ciudadanos| && Coincide(l.ciudadanos[i], FilterText(v)) ==>
              l.ciudadanos[i] in r
    ensures !Falsy(v) ==> forall i ::
              (0 <= i < |l.empleados| && Coincide(l.empleados[i].persona, FilterText(v)) &&
               SinCredencial(l.ciudadanos, l.empleados[i].persona.credencial)) ==> l.empleados[i].persona in r
    ensures !Falsy(v) && CredencialesUnicas(l.ciudadanos) && CredencialesUnicas(Personas(l.empleados)) ==>
              CredencialesUnicas(r)
    ensures !Falsy(v) ==> forall i :: 0 <= i < |r| ==> r[i] in Fusion(l.ciudadanos, Personas(l.empleados))
    ensures !Falsy(v) ==> forall i :: 0 <= i < |r| && r[i] !in l.ciudadanos ==>
              SinCredencial(l.ciudadanos, r[i].credencial)
    ensures !Falsy(v) ==>
              Seqs.Picks(r, Fusion(l.ciudadanos, Personas(l.empleados)),
                         Seqs.Kept(Fusion(l.ciudadanos, Personas(l.empleados)), (p: Persona) => Coincide(p, FilterText(v))))
  {
    var ps := Personas(l.empleados);
    if CredencialesUnicas(l.ciudadanos) && CredencialesUnicas(ps) then
      FiltrarPersonasSinDuplicados(v, l.ciudadanos, ps);
      FiltrarPersonas(v, l.ciudadanos, ps)
    else FiltrarPersonas(v, l.ciudadanos, ps)
  }

  /** `_filterOrganismos`. */
  function FiltrarOrganismos(v: Control<Ref>, l: Listas): (r: seq<Ref>)
    ensures Falsy(v) ==> r == l.organismos
    ensures forall i :: 0 <= i < |r| ==> r[i] in l.organismos
    ensures !Falsy(v) ==> forall i :: 0 <= i < |r| ==> CoincideRef(r[i], FilterText(v))
    ensures !Falsy(v) ==> forall i :: 0 <= i < |l.organismos| && CoincideRef(l.organismos[i], FilterText(v)) ==> l.organismos[i] in r
    ensures !Falsy(v) ==> Seqs.Picks(r, l.organismos, Seqs.Kept(l.organismos, (e: Ref) => CoincideRef(e, FilterText(v))))
  {
    FiltrarRef(v, l.organismos)
  }

  /** The first employee of `es` with credential `cc`. */
  function BuscarEmpleado(es: seq<Empleado>, cc: string): (r: Option<Empleado>)
    ensures r.None? <==> forall i :: 0 <= i < |es| ==> es[i].persona.credencial != cc
    ensures r.Some? ==> exists i :: 0 <= i < |es| && es[i] == r.value && r.value.persona.credencial == cc
                                    && forall j :: 0 <= j < i ==> es[j].persona.credencial != cc
  {
    Seqs.Find(es, (e: Empleado) => e.persona.credencial == cc)
  }

  /** Adding mode: no employee selected and an empty organismo control. */
  function ModoAlta(f: Form): (g: Form)
    ensures !g.esEdicion && g.actual.None? && g.organismo.Empty?
    ensures g.credencial == f.credencial && g.mensaje == f.mensaje
  {
    f.(esEdicion := false, actual := None, organismo := Empty)
  }

  /** `onCredencialBlur`. A picked person who is an employee switches to
      editing that employee, with the organismo control set to the
      organismo of that name or to `null`; anything else switches to
      adding with the organismo control reset. */
  function Blur(f: Form, l: Listas): (g: Form)
    ensures g.credencial == f.credencial && g.mensaje == f.mensaje
    ensures g.esEdicion <==> (f.credencial.Selected? &&
              exists i :: 0 <= i < |l.empleados| && l.empleados[i].persona.credencial == f.credencial.item.credencial)
    ensures g.esEdicion <==> g.actual.Some?
    ensures !g.esEdicion ==> g.organismo.Empty?
    ensures g.actual.Some? ==> g.actual.value in l.empleados
                               && g.actual.value.persona.credencial == f.credencial.item.credencial
                               && g.organismo == BuscarPorTexto(l.organismos, g.actual.value.organismo)
  {
    if !f.credencial.Selected? then ModoAlta(f)
    else match BuscarEmpleado(l.empleados, f.credencial.item.credencial)
      case None => ModoAlta(f)
      case Some(emp) =>
        f.(esEdicion := true, actual := Some(emp), organismo := BuscarPorTexto(l.organismos, emp.organismo))
  }

  /** The edit state agrees with the credential control: editing exactly
      when an employee is current, and that employee is the picked person. */
  predicate Coherente(f: Form) {
    && (f.esEdicion <==> f.actual.Some?)
    && (f.actual.Some? ==> f.credencial.Selected? && f.actual.value.persona.credencial == f.credencial.item.credencial)
  }

  /** A blur leaves the form coherent, and blurring again changes
      nothing. */
  lemma BlurCoherenteIdempotente(f: Form, l: Listas)
    ensures Coherente(Blur(f, l))
    ensures Blur(Blur(f, l), l) == Blur(f, l)
  {
  }

  /** `resetForm`: both controls cleared and the edit state dropped; the
      message stays. */
  function Reiniciar(f: Form): (g: Form)
    ensures g.credencial.Empty? && g.organismo.Empty? && !g.esEdicion && g.actual.None?
    ensures g.mensaje == f.mensaje
  {
    Form(Empty, Empty, false, None, f.mensaje)
  }

  /** The end of a call: success sets the reply's message, or `exito`, and
      resets the form; failure only sets `fallo`. */
  function Terminar(f: Form, res: Feedback.Resultado, exito: string, fallo: string): (g: Form)
    ensures res.Exito? ==> g == Reiniciar(f).(mensaje := g.mensaje)
    ensures res.Fallo? ==> g == f.(mensaje := g.mensaje)
    ensures g.mensaje == Feedback.Mensaje(res, exito, fallo)
  {
    var m := Feedback.Mensaje(res, exito, fallo);
    if res.Exito? then Reiniciar(f).(mensaje := m) else f.(mensaje := m)
  }

  /** `onSubmit`. Nothing happens unless both controls are truthy. In edit
      mode the dialog must close with `true`, and then the edit call is
      made; otherwise the add call is made, without a dialog. The payload
      is the picked credential and organismo id. */
  function Enviar(f: Form, dialogo: Js.JsValue, res: Feedback.Resultado): (p: Paso)
    ensures Falsy(f.credencial) || Falsy(f.organismo) ==> p == Paso(f, None)
    ensures f.esEdicion && !Feedback.Confirmado(dialogo) ==> p == Paso(f, None)
    ensures p.llamada.None? ==> p.form == f
    ensures p.llamada.Some? ==> !Falsy(f.credencial) && !Falsy(f.organismo)
    ensures !Falsy(f.credencial) && !Falsy(f.organismo) && !f.esEdicion ==>
              p == Paso(Terminar(f, res, "Empleado agregado correctamente", "Error al agregar empleado"),
                        Some(Agregar(CredencialDe(f.credencial), IdDe(f.organismo))))
    ensures !Falsy(f.credencial) && !Falsy(f.organismo) && f.esEdicion && Feedback.Confirmado(dialogo) ==>
              p == Paso(Terminar(f, res, "Empleado actualizado", "Error al actualizar empleado"),
                        Some(Editar(CredencialDe(f.credencial), IdDe(f.organismo))))
  {
    if Falsy(f.credencial) || Falsy(f.organismo) then Paso(f, None)
    else
      var cc := CredencialDe(f.credencial);
      var id := IdDe(f.organismo);
      if f.esEdicion then
        if !Feedback.Confirmado(dialogo) then Paso(f, None)
        else Paso(Terminar(f, res, "Empleado actualizado", "Error al actualizar empleado"), Some(Editar(cc, id)))
      else Paso(Terminar(f, res, "Empleado agregado correctamente", "Error al agregar empleado"), Some(Agregar(cc, id)))
  }

  /** `eliminarEmpleado`: nothing without a current employee or without the
      dialog closing with `true`; otherwise the delete call for the current
      employee's credential. */
  function EliminarActual(f: Form, dialogo: Js.JsValue, res: Feedback.Resultado): (p: Paso)
    ensures f.actual.None? || !Feedback.Confirmado(dialogo) ==> p == Paso(f, None)
    ensures f.actual.Some? && Feedback.Confirmado(dialogo) ==>
              p == Paso(Terminar(f, res, "Empleado eliminado", "Error al eliminar empleado"),
                        Some(Eliminar(f.actual.value.persona.credencial)))
  {
    if f.actual.None? || !Feedback.Confirmado(dialogo) then Paso(f, None)
    else Paso(Terminar(f, res, "Empleado eliminado", "Error al eliminar empleado"),
              Some(Eliminar(f.actual.value.persona.credencial)))
  }

  /** Submitting and deleting keep a coherent form coherent. */
  lemma PasosCoherentes(f: Form, dialogo: Js.JsValue, res: Feedback.Resultado)
    requires Coherente(f)
    ensures Coherente(Enviar(f, dialogo, res).form)
    ensures Coherente(EliminarActual(f, dialogo, res).form)
  {
  }

  /** On a coherent form an edit goes to the current employee, and an add
      is made only when no employee is current: a person who already works
      somewhere is never sent to the add endpoint from the blur's state. */
  lemma EnviarSegunActual(f: Form, dialogo: Js.JsValue, res: Feedback.Resultado)
    requires Coherente(f)
    ensures match Enviar(f, dialogo, res).llamada
            case Some(Editar(cc, _)) => f.actual.Some? && cc == Some(f.actual.value.persona.credencial)
            case Some(Agregar(_, _)) => f.actual.None?
            case _ => true
  {
  }

  /** After a blur, a submission adds exactly when the picked person is not
      an employee. */
  lemma AgregarSoloSinEmpleo(f: Form, l: Listas, dialogo: Js.JsValue, res: Feedback.Resultado)
    requires f.credencial.Selected?
    ensures var p := Enviar(Blur(f, l), dialogo, res);
            p.llamada.Some? && p.llamada.value.Agregar? ==>
              forall i :: 0 <= i < |l.empleados| ==> l.empleados[i].persona.credencial != f.credencial.item.credencial
  {
  }
}
