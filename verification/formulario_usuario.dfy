/** The registration form of the client
    (front/src/app/pages/registro-usuario/components/formulario-usuario/
    formulario-usuario.component.ts): building the credential and the cédula
    from what the user typed, the gate in front of the lookup, what a lookup
    result does to the form, and the password rules checked on submit. The
    HTTP lookup itself is a parameter. */
module FormularioUsuario {
  import opened Wrappers
  import Text
  import Seqs

  /** The component's fields that these operations read or write. */
  datatype Form = Form(
    serie: string,
    numero: string,
    ci: string,
    password: string,
    confirmar: string,
    nombre: string,
    apellido: string,
    departamento: string,
    circuito: string,
    datosValidos: bool,
    mensaje: string)

  /** The fields of a successful `verificar` reply. */
  datatype Datos = Datos(nombre: string, apellido: string, departamento: string, circuito: string)

  /** `(serie + numero).toUpperCase()`. */
  function Credencial(serie: string, numero: string): (c: string)
    ensures |c| == |serie| + |numero|
    ensures forall i :: 0 <= i < |c| ==> !Text.IsLower(c[i])
    ensures forall i :: 0 <= i < |serie| ==> c[i] == Text.UpperChar(serie[i])
    ensures forall i :: 0 <= i < |numero| ==> c[|serie| + i] == Text.UpperChar(numero[i])
  {
    Text.Upper(serie + numero)
  }

  /** `ci.replace(/\D/g, '')`: the digits of `ci`, in order. */
  function Cedula(ci: string): (d: string)
    ensures Text.AllDigits(d) && |d| <= |ci|
    ensures forall i :: 0 <= i < |ci| && Text.IsDigit(ci[i]) ==> ci[i] in d
    ensures forall i :: 0 <= i < |d| ==> d[i] in ci
    ensures Seqs.Picks(d, ci, Seqs.Kept(ci, Text.IsDigit))
  {
    Seqs.Filter(ci, Text.IsDigit)
  }

  /** A cédula already made of digits passes through unchanged, so cleaning
      it twice is cleaning it once. */
  lemma CedulaIdempotent(ci: string)
    ensures Cedula(ci) == Cedula(Cedula(ci))
  {
    var d := Cedula(ci);
    Seqs.FilterKeepsAll(d, Text.IsDigit);
  }

  /** Cleaning the cédula distributes over concatenation: the digits of a
      pasted-together input are the digits of each part, in order. */
  lemma CedulaConcat(a: string, b: string)
    ensures Cedula(a + b) == Cedula(a) + Cedula(b)
  {
    Seqs.FilterConcat(a, b, Text.IsDigit);
  }

  /** `credencial.length === 8 && /^\d{6,8}$/.test(cedula)`. */
  predicate PuedeBuscar(credencial: string, cedula: string) {
    |credencial| == 8 && 6 <= |cedula| <= 8 && Text.AllDigits(cedula)
  }

  /** `verificarDatos`. The lookup runs only past the gate, with the
      normalised credential and cédula; otherwise no field changes. A found
      record fills the four display fields and marks the data valid; no
      record sets the not-found message and marks the data invalid.
      `buscar` stands for `buscarDatos`, whose network failures and non-OK
      replies both come back as `None`. */
  function VerificarDatos(f: Form, buscar: (string, string) -> Option<Datos>): (g: Form)
    ensures !PuedeBuscar(Credencial(f.serie, f.numero), Cedula(f.ci)) ==> g == f
    ensures PuedeBuscar(Credencial(f.serie, f.numero), Cedula(f.ci)) ==>
              match buscar(Credencial(f.serie, f.numero), Cedula(f.ci))
              case Some(d) =>
                g == f.(nombre := d.nombre, apellido := d.apellido,
                        departamento := d.departamento, circuito := d.circuito,
                        datosValidos := true)
              case None =>
                g == f.(mensaje := "No se encontró coincidencia con esa credencial.",
                        datosValidos := false)
    ensures g.serie == f.serie && g.numero == f.numero && g.ci == f.ci
    ensures g.password == f.password && g.confirmar == f.confirmar
  {
    var credencial := Credencial(f.serie, f.numero);
    var cedula := Cedula(f.ci);
    if !PuedeBuscar(credencial, cedula) then f
    else match buscar(credencial, cedula)
      case Some(d) =>
        f.(nombre := d.nombre, apellido := d.apellido,
           departamento := d.departamento, circuito := d.circuito,
           datosValidos := true)
      case None =>
        f.(mensaje := "No se encontró coincidencia con esa credencial.", datosValidos := false)
  }

  /** The data are marked valid only by a lookup that found a record, which
      the gate lets through only for an eight-character credential without
      lower-case letters and a cédula of six to eight digits. */
  lemma ValidOnlyAfterLookup(f: Form, buscar: (string, string) -> Option<Datos>)
    requires !f.datosValidos
    ensures VerificarDatos(f, buscar).datosValidos ==>
              && |Credencial(f.serie, f.numero)| == 8
              && 6 <= |Cedula(f.ci)| <= 8
              && buscar(Credencial(f.serie, f.numero), Cedula(f.ci)).Some?
  {
  }

  predicate IsAlnum(c: char) {
    Text.IsUpper(c) || Text.IsLower(c) || Text.IsDigit(c)
  }

  /** `/^(?=.*[A-Z])(?=.*\d)[A-Za-z\d]{8,12}$/`: 8 to 12 ASCII letters or
      digits, at least one upper-case letter and at least one digit. */
  predicate PasswordValida(p: string) {
    && 8 <= |p| <= 12
    && (forall i :: 0 <= i < |p| ==> IsAlnum(p[i]))
    && (exists i :: 0 <= i < |p| && Text.IsUpper(p[i]))
    && (exists i :: 0 <= i < |p| && Text.IsDigit(p[i]))
  }

  /** The password test in one left-to-right pass, as the regular
      expression engine runs it. */
  method CheckPassword(p: string) returns (ok: bool)
    ensures ok <==> PasswordValida(p)
  {
    if |p| < 8 || |p| > 12 {
      return false;
    }
    var upper, digit := false, false;
    var i := 0;
    while i < |p|
      invariant 0 <= i <= |p|
      invariant forall j :: 0 <= j < i ==> IsAlnum(p[j])
      invariant upper <==> exists j :: 0 <= j < i && Text.IsUpper(p[j])
      invariant digit <==> exists j :: 0 <= j < i && Text.IsDigit(p[j])
    {
      if !IsAlnum(p[i]) {
        return false;
      }
      upper := upper || Text.IsUpper(p[i]);
      digit := digit || Text.IsDigit(p[i]);
      i := i + 1;
    }
    ok := upper && digit;
  }

  const MSG_REGLA: string := "La contraseña debe tener entre 8 y 12 caracteres, incluir una mayúscula y un número."
  const MSG_NO_COINCIDEN: string := "Las contraseñas no coinciden."
  const MSG_REGISTRADO: string := "Usuario registrado correctamente (simulado)."

  /** `registrarUsuario`: the password rule first, then the confirmation;
      each failure sets its own message and stops. Passing both sets the
      success message. Only the message changes. */
  method RegistrarUsuario(f: Form) returns (g: Form)
    ensures g == f.(mensaje := g.mensaje)
    ensures !PasswordValida(f.password) ==> g.mensaje == MSG_REGLA
    ensures PasswordValida(f.password) && f.password != f.confirmar ==> g.mensaje == MSG_NO_COINCIDEN
    ensures g.mensaje == MSG_REGISTRADO <==> PasswordValida(f.password) && f.password == f.confirmar
  {
    var valida := CheckPassword(f.password);
    if !valida {
      return f.(mensaje := MSG_REGLA);
    }
    if f.password != f.confirmar {
      return f.(mensaje := MSG_NO_COINCIDEN);
    }
    return f.(mensaje := MSG_REGISTRADO);
  }
}
