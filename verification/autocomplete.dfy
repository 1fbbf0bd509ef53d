/** The autocomplete fields the admin forms of the client share
    (front/src/app/pages/admin/empleados.component.ts and
    policias.component.ts): what a form control holds, the deduplicating
    merge of two lists of people, the case-insensitive filters over people
    and over reference entries (organismos, comisarías, establecimientos),
    and the lookup of a reference entry by name. */
module Autocomplete {
  import opened Wrappers
  import Text
  import Seqs

  /** A form control's value: unset (`null`, also after `reset()`), text the
      user typed, or an option picked from the list. */
  datatype Control<T> = Empty | Typed(s: string) | Selected(item: T)

  /** `!value`: unset and the empty string are falsy; a picked option is an
      object and is truthy. */
  predicate Falsy<T>(v: Control<T>) {
    v.Empty? || (v.Typed? && v.s == "")
  }

  /** `typeof value === 'string' ? value.toLowerCase() : ''`. */
  function FilterText<T>(v: Control<T>): (f: string)
    ensures !v.Typed? ==> f == ""
    ensures v.Typed? ==> |f| == |v.s| && forall i :: 0 <= i < |f| ==> f[i] == Text.LowerChar(v.s[i])
  {
    if v.Typed? then Text.Lower(v.s) else ""
  }

  /** A person as the lists of the forms carry them: citizens, employees and
      police officers all have these fields; the names may be null. */
  datatype Persona = Persona(
    credencial: string,
    nombres: Option<string>,
    apellido1: Option<string>,
    apellido2: Option<string>)

  /** `(c.campo?.toLowerCase().includes(f) || '')` is truthy. */
  predicate Contiene(campo: Option<string>, f: string) {
    campo.Some? && Text.Includes(Text.Lower(campo.value), f)
  }

  /** The person filter's test on one person. */
  predicate Coincide(p: Persona, f: string) {
    || Text.Includes(Text.Lower(p.credencial), f)
    || Contiene(p.nombres, f)
    || Contiene(p.apellido1, f)
    || Contiene(p.apellido2, f)
  }

  /** No person of `cs` has credential `cc`. */
  predicate SinCredencial(cs: seq<Persona>, cc: string) {
    forall i :: 0 <= i < |cs| ==> cs[i].credencial != cc
  }

  function Credencial(p: Persona): string {
    p.credencial
  }

  /** Every person of `s` has a different credential. */
  predicate CredencialesUnicas(s: seq<Persona>) {
    Seqs.UniqueKeys(s, Credencial)
  }

  /** `[...cs, ...extra.filter(e => !cs.some(c => c.credencial ===
      e.credencial))]`: `cs` in full, then the people of `extra` whose
      credential `cs` lacks. */
  function Fusion(cs: seq<Persona>, extra: seq<Persona>): (r: seq<Persona>)
    ensures |cs| <= |r| <= |cs| + |extra| && r[..|cs|] == cs
    ensures forall i :: |cs| <= i < |r| ==> r[i] in extra && SinCredencial(cs, r[i].credencial)
    ensures forall i :: 0 <= i < |extra| && SinCredencial(cs, extra[i].credencial) ==> extra[i] in r
    ensures Seqs.Picks(r[|cs|..], extra, Seqs.Kept(extra, (e: Persona) => SinCredencial(cs, e.credencial)))
  {
    cs + Seqs.Filter(extra, (e: Persona) => SinCredencial(cs, e.credencial))
  }

  /** When each list has distinct credentials, so does their merge: the
      merge never shows one person twice. */
  lemma FusionSinDuplicados(cs: seq<Persona>, extra: seq<Persona>)
    requires CredencialesUnicas(cs) && CredencialesUnicas(extra)
    ensures CredencialesUnicas(Fusion(cs, extra))
  {
    var keep := (e: Persona) => SinCredencial(cs, e.credencial);
    var tail := Seqs.Filter(extra, keep);
    Seqs.FilterUniqueKeys(extra, keep, Credencial);
    var r := Fusion(cs, extra);
    assert r == cs + tail;
    forall i, j | 0 <= i < j < |r|
      ensures Credencial(r[i]) != Credencial(r[j])
    {
      if j >= |cs| {
        assert r[j] == tail[j - |cs|];
        if i < |cs| {
          assert SinCredencial(cs, tail[j - |cs|].credencial);
          assert r[i] == cs[i];
        } else {
          assert r[i] == tail[i - |cs|];
        }
      }
    }
  }

  /** `_filterCiudadanos`: a falsy value lists `cs` and then all of
      `extra`, duplicates included; otherwise the merge is filtered with
      the lower-cased text (the empty text for a picked option). */
  function FiltrarPersonas(v: Control<Persona>, cs: seq<Persona>, extra: seq<Persona>): (r: seq<Persona>)
    ensures Falsy(v) ==> r == cs + extra
    ensures !Falsy(v) ==> |r| <= |Fusion(cs, extra)|
    ensures !Falsy(v) ==> forall i :: 0 <= i < |r| ==>
              r[i] in Fusion(cs, extra) && Coincide(r[i], FilterText(v))
    ensures !Falsy(v) ==> forall i :: 0 <= i < |Fusion(cs, extra)| && Coincide(Fusion(cs, extra)[i], FilterText(v)) ==>
              Fusion(cs, extra)[i] in r
    ensures !Falsy(v) ==> Seqs.Picks(r, Fusion(cs, extra), Seqs.Kept(Fusion(cs, extra), (p: Persona) => Coincide(p, FilterText(v))))
  {
    if Falsy(v) then cs + extra
    else Seqs.Filter(Fusion(cs, extra), (p: Persona) => Coincide(p, FilterText(v)))
  }

  /** With distinct credentials in each list, the filtered merge never shows
      one person twice. */
  lemma FiltrarPersonasSinDuplicados(v: Control<Persona>, cs: seq<Persona>, extra: seq<Persona>)
    requires CredencialesUnicas(cs) && CredencialesUnicas(extra)
    ensures !Falsy(v) ==> CredencialesUnicas(FiltrarPersonas(v, cs, extra))
  {
    if !Falsy(v) {
      FusionSinDuplicados(cs, extra);
      Seqs.FilterUniqueKeys(Fusion(cs, extra), (p: Persona) => Coincide(p, FilterText(v)), Credencial);
    }
  }

  /** A picked person filters with the empty text, which every credential
      includes: the whole merge is offered. */
  lemma SeleccionMuestraTodo(p: Persona, cs: seq<Persona>, extra: seq<Persona>)
    ensures FiltrarPersonas(Selected(p), cs, extra) == Fusion(cs, extra)
  {
    var all := Fusion(cs, extra);
    forall i | 0 <= i < |all|
      ensures Coincide(all[i], "")
    {
      Text.IncludesEmpty(Text.Lower(all[i].credencial));
    }
    Seqs.FilterKeepsAll(all, q => Coincide(q, ""));
  }

  /** The person filter ignores the case of what was typed. */
  lemma PersonasIgnoraMayusculas(s: string, cs: seq<Persona>, extra: seq<Persona>)
    ensures FiltrarPersonas(Typed(Text.Upper(s)), cs, extra) == FiltrarPersonas(Typed(s), cs, extra)
  {
    Text.LowerOfUpper(s);
    if s != "" {
      var f := Text.Lower(s);
      Seqs.FilterAgreeing(Fusion(cs, extra), p => Coincide(p, FilterText(Control<Persona>.Typed(Text.Upper(s)))),
                          p => Coincide(p, f));
    }
  }

  /** A reference entry as the lists carry them: an id and the text shown
      (`nombre` for organismos and comisarías, `direccion` for
      establecimientos). */
  datatype Ref = Ref(id: int, texto: string)

  /** `x.texto.toLowerCase().includes(f) || x.id.toString().includes(f)`. */
  predicate CoincideRef(x: Ref, f: string) {
    Text.Includes(Text.Lower(x.texto), f) || Text.Includes(Text.IntToString(x.id), f)
  }

  /** `_filterOrganismos`, `_filterComisarias`, `_filterEstablecimientos`: a
      falsy value lists everything; otherwise the entries whose text or
      decimal id includes the lower-cased text, in order. */
  function FiltrarRef(v: Control<Ref>, xs: seq<Ref>): (r: seq<Ref>)
    ensures Falsy(v) ==> r == xs
    ensures |r| <= |xs|
    ensures !Falsy(v) ==> forall i :: 0 <= i < |r| ==> r[i] in xs && CoincideRef(r[i], FilterText(v))
    ensures !Falsy(v) ==> forall i :: 0 <= i < |xs| && CoincideRef(xs[i], FilterText(v)) ==> xs[i] in r
    ensures !Falsy(v) ==> Seqs.Picks(r, xs, Seqs.Kept(xs, (x: Ref) => CoincideRef(x, FilterText(v))))
  {
    if Falsy(v) then xs
    else Seqs.Filter(xs, (x: Ref) => CoincideRef(x, FilterText(v)))
  }

  /** Typing an entry's id finds that entry. */
  lemma RefPorId(xs: seq<Ref>, k: nat)
    requires k < |xs|
    ensures xs[k] in FiltrarRef(Typed(Text.IntToString(xs[k].id)), xs)
  {
    var s := Text.IntToString(xs[k].id);
    Text.LowerOfIntToString(xs[k].id);
    Text.IncludesSelf(s);
    assert CoincideRef(xs[k], FilterText(Control<Ref>.Typed(s)));
  }

  /** The reference filter ignores the case of what was typed. */
  lemma RefIgnoraMayusculas(s: string, xs: seq<Ref>)
    ensures FiltrarRef(Typed(Text.Upper(s)), xs) == FiltrarRef(Typed(s), xs)
  {
    Text.LowerOfUpper(s);
    if s != "" {
      var f := Text.Lower(s);
      Seqs.FilterAgreeing(xs, x => CoincideRef(x, FilterText(Control<Ref>.Typed(Text.Upper(s)))), x => CoincideRef(x, f));
    }
  }

  /** `xs.find(x => x.texto === texto)`, set into a control as the entry
      or `null`. */
  function BuscarPorTexto(xs: seq<Ref>, texto: string): (c: Control<Ref>)
    ensures !c.Typed?
    ensures c.Empty? <==> forall i :: 0 <= i < |xs| ==> xs[i].texto != texto
    ensures c.Selected? ==> exists i :: 0 <= i < |xs| && xs[i] == c.item && xs[i].texto == texto
                                        && forall j :: 0 <= j < i ==> xs[j].texto != texto
  {
    match Seqs.Find(xs, (x: Ref) => x.texto == texto)
    case None => Empty
    case Some(x) => Selected(x)
  }

  /** `value.credencial` on a control: defined only for a picked person. */
  function CredencialDe(v: Control<Persona>): (cc: Option<string>)
    ensures cc.Some? <==> v.Selected?
    ensures v.Selected? ==> cc == Some(v.item.credencial)
  {
    if v.Selected? then Some(v.item.credencial) else None
  }

  /** `value.id` on a control: defined only for a picked entry. */
  function IdDe(v: Control<Ref>): (id: Option<int>)
    ensures id.Some? <==> v.Selected?
    ensures v.Selected? ==> id == Some(v.item.id)
  {
    if v.Selected? then Some(v.item.id) else None
  }
}
