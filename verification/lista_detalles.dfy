/** The label each candidate of a party list gets in the list's detail
    dialog (front/src/app/pages/votar/lista-detalles/
    lista-detalles.component.ts): the candidate's position on the list, from
    the holder to the third substitute. The position arrives as text and is
    converted with the unary `+`, so the label function sees any JavaScript
    number, `NaN` and fractions included. */
module ListaDetalles {
  import opened Js
  import Text

  /** `getEtiquetaCandidato`: the numbers 1 to 4 have a name; any other
      number, `NaN` and fractions included, has none. */
  function Etiqueta(valor: JsNumber): (e: string)
    ensures valor == Num(1.0) ==> e == "Titular"
    ensures valor == Num(2.0) ==> e == "Primer suplente"
    ensures valor == Num(3.0) ==> e == "Segundo suplente"
    ensures valor == Num(4.0) ==> e == "Tercer suplente"
    ensures valor !in {Num(1.0), Num(2.0), Num(3.0), Num(4.0)} ==> e == ""
  {
    if valor == Num(1.0) then "Titular"
    else if valor == Num(2.0) then "Primer suplente"
    else if valor == Num(3.0) then "Segundo suplente"
    else if valor == Num(4.0) then "Tercer suplente"
    else ""
  }

  /** A number is labelled exactly when it is one of the four positions, and
      no two numbers share a label: the label identifies the position. */
  lemma EtiquetaIdentificaPosicion(a: JsNumber, b: JsNumber)
    ensures Etiqueta(a) != "" <==> a.Num? && a.value.Floor as real == a.value && 1.0 <= a.value <= 4.0
    ensures Etiqueta(a) != "" && Etiqueta(a) == Etiqueta(b) ==> a == b
  {
  }

  /** The position a label names, the inverse of `Etiqueta` on labelled
      positions. */
  function Posicion(e: string): (v: int)
    ensures e == "" ==> v == 0
  {
    if e == "Titular" then 1
    else if e == "Primer suplente" then 2
    else if e == "Segundo suplente" then 3
    else if e == "Tercer suplente" then 4
    else 0
  }

  /** Reading a label back gives the position it was made from, and every
      label read back is made from its position. */
  lemma PosicionDeEtiqueta(v: int, e: string)
    ensures 1 <= v <= 4 ==> Posicion(Etiqueta(Num(v as real))) == v
    ensures Posicion(e) != 0 ==> Etiqueta(Num(Posicion(e) as real)) == e
  {
  }

  /** The template passes `+integrante.candidato`, the position as the
      server's text: a position printed as an integer is labelled exactly
      when it is 1 to 4, with the label of that position. */
  lemma EtiquetaDeTexto(i: int)
    ensures Etiqueta(StringToNumber(Text.IntToString(i))) != "" <==> 1 <= i <= 4
    ensures 1 <= i <= 4 ==> Posicion(Etiqueta(StringToNumber(Text.IntToString(i)))) == i
  {
    NumberOfIntToString(i);
    EtiquetaIdentificaPosicion(Num(i as real), Num(i as real));
    PosicionDeEtiqueta(i, "");
  }
}
