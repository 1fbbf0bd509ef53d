/** How the admin forms of the client report the end of a service call:
    `res.mensaje || exito` on a reply, `error?.mensaje || fallo` on a thrown
    error. Every admin call goes through the client's fetch service
    (front/src/app/services/fetch.service.ts), which throws a plain `Error`
    on a non-OK status and passes on what `fetch` or `json()` throw; none of
    these has a `mensaje`, so a failure always shows the form's default. */
module Feedback {
  import opened Wrappers
  import Js

  /** The end of a call: a reply, with the `mensaje` its body may or may not
      hold, or a thrown error. */
  datatype Resultado = Exito(mensaje: Option<string>) | Fallo

  /** The message a form shows: the reply's `mensaje` when present and
      non-empty, otherwise the form's default for success; after a failure,
      always the form's default for failure. */
  function Mensaje(res: Resultado, exito: string, fallo: string): (m: string)
    ensures res.Exito? && res.mensaje.Some? && res.mensaje.value != "" ==> m == res.mensaje.value
    ensures res.Exito? && (res.mensaje.None? || res.mensaje.value == "") ==> m == exito
    ensures res.Fallo? ==> m == fallo
  {
    match res
    case Exito(mensaje) => Js.OrString(mensaje, exito)
    case Fallo => Js.OrString(None, fallo)
  }

  /** `result !== true` on what a confirmation dialog closed with: only the
      boolean `true` confirms; `false`, `undefined` (closed without
      choosing) or any other value does not. */
  function Confirmado(resultado: Js.JsValue): (c: bool)
    ensures c <==> resultado == Js.Bool(true)
  {
    Js.StrictEqualsIsEquality(resultado, Js.Bool(true));
    Js.StrictEquals(resultado, Js.Bool(true))
  }
}
