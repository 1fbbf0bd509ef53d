/** The admin form that creates a citizen
    (front/src/app/pages/admin/ciudadanos.component.ts): the credential
    typed is normalised on every keystroke, and the outcome of the create
    call either clears the form or keeps it with an error message. */
module CiudadanosForm {
  import opened Wrappers
  import Text
  import Feedback

  /** `onCredencialInput`: a non-empty credential gets its first three
      characters upper-cased; the rest, and an empty one, stay as typed. */
  function NormalizarCredencial(c: string): (r: string)
    ensures |r| == |c|
    ensures forall i :: 0 <= i < |c| && i < 3 ==> r[i] == Text.UpperChar(c[i])
    ensures forall i :: 3 <= i < |c| ==> r[i] == c[i]
  {
    if |c| > 0 then
      var k := if |c| < 3 then |c| else 3;
      Text.Upper(c[..k]) + c[k..]
    else c
  }

  /** Normalising an already normalised credential changes nothing, so
      repeated input events are harmless. */
  lemma NormalizarIdempotent(c: string)
    ensures NormalizarCredencial(NormalizarCredencial(c)) == NormalizarCredencial(c)
  {
    var r := NormalizarCredencial(c);
    var rr := NormalizarCredencial(r);
    forall i | 0 <= i < |c|
      ensures rr[i] == r[i]
    {
      if i < 3 {
        assert rr[i] == Text.UpperChar(Text.UpperChar(c[i]));
      }
    }
  }

  /** A credential typed in upper case already is left as it is. */
  lemma NormalizarUpper(c: string)
    requires forall i :: 0 <= i < |c| ==> !Text.IsLower(c[i])
    ensures NormalizarCredencial(c) == c
  {
  }

  /** The form's fields. */
  datatype Form = Form(
    credencial: string,
    nombres: string,
    apellido1: string,
    apellido2: string,
    cedula: string,
    fechaNac: string,
    direccion: string,
    mensaje: string)

  const MSG_DEFECTO: string := "Ciudadano agregado correctamente"
  const MSG_ERROR: string := "Error al agregar ciudadano"

  /** The form with every field cleared. */
  predicate Vacio(f: Form) {
    f.credencial == "" && f.nombres == "" && f.apellido1 == "" && f.apellido2 == ""
    && f.cedula == "" && f.fechaNac == "" && f.direccion == ""
  }

  /** `agregarCiudadano` once the call has ended. Success clears all seven
      fields and shows the reply's message or a default one; an error keeps
      every field and only sets the default error message. */
  function AgregarCiudadano(f: Form, res: Feedback.Resultado): (g: Form)
    ensures res.Exito? ==> Vacio(g)
    ensures res.Exito? && res.mensaje.Some? && res.mensaje.value != "" ==> g.mensaje == res.mensaje.value
    ensures res.Exito? && (res.mensaje.None? || res.mensaje.value == "") ==> g.mensaje == MSG_DEFECTO
    ensures res.Fallo? ==> g == f.(mensaje := MSG_ERROR)
  {
    var m := Feedback.Mensaje(res, MSG_DEFECTO, MSG_ERROR);
    if res.Exito? then Form("", "", "", "", "", "", "", m)
    else f.(mensaje := m)
  }
}
