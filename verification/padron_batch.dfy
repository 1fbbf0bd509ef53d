/** POST /padron/actualizar (back/src/routes/admin/index.ts): every citizen not
    yet on the roll is assigned to a circuit whose series range and number
    range both contain the citizen's credential, and is inserted not enabled
    and not voted; citizens no circuit covers are counted and skipped. The
    circuit query ends in `LIMIT 1` without `ORDER BY`, so when several
    circuits cover a credential the database may return any of them; the
    model takes the first in table order.

    The series comparison is made by the database under its collation; the
    model takes that ordering as the parameter `le`. The rows of the
    citizen query come back in an order SQL leaves unspecified, so the loop
    visits them in an arbitrary order and the result is shown not to depend
    on it. */
module PadronBatch {
  import opened Wrappers
  import opened Registry
  import Text
  import Seqs
  import AdminRoutes

  /** Where `credencial.substring(0, 3)` ends. */
  function SplitAt(cc: string): (k: nat)
    ensures k <= |cc|
  {
    if |cc| < 3 then |cc| else 3
  }

  /** The series: the first three characters (fewer for a shorter string). */
  function Serie(cc: string): (s: string)
    ensures |s| <= 3 && |s| <= |cc| && s == cc[..|s|]
    ensures |cc| >= 3 ==> |s| == 3
  {
    cc[..SplitAt(cc)]
  }

  /** The number: `parseInt(credencial.substring(3), 10)`, `None` for `NaN`. */
  function Numero(cc: string): Option<int> {
    Text.ParseInt(cc[SplitAt(cc)..])
  }

  /** A series of three characters followed by a printed number splits back
      into that series and that number. */
  lemma SplitCredencial(serie: string, n: nat)
    requires |serie| == 3
    ensures Serie(serie + Text.NatToString(n)) == serie
    ensures Numero(serie + Text.NatToString(n)) == Some(n)
  {
    var cc := serie + Text.NatToString(n);
    assert cc[3..] == Text.NatToString(n);
    Text.ParseIntOfNatToString(n);
  }

  /** `? BETWEEN serie_desde AND serie_hasta AND ? BETWEEN numero_desde AND
      numero_hasta` for one circuit. A `NaN` number is between no bounds. */
  predicate Cubre(c: Circuito, cc: string, le: (string, string) -> bool) {
    && le(c.serieDesde, Serie(cc)) && le(Serie(cc), c.serieHasta)
    && Numero(cc).Some?
    && c.numeroDesde <= Numero(cc).value <= c.numeroHasta
  }

  /** The id `SELECT id FROM CIRCUITO WHERE ... LIMIT 1` returns: that of the
      first covering circuit in table order, or `None` when none covers. */
  function CircuitoPara(cs: seq<Circuito>, cc: string, le: (string, string) -> bool): (r: Option<int>)
    ensures r.None? <==> forall i :: 0 <= i < |cs| ==> !Cubre(cs[i], cc, le)
    ensures r.Some? ==> exists i :: 0 <= i < |cs| && cs[i].id == r.value && Cubre(cs[i], cc, le)
                                    && forall j :: 0 <= j < i ==> !Cubre(cs[j], cc, le)
  {
    match Seqs.Find(cs, c => Cubre(c, cc, le))
    case None => None
    case Some(c) => Some(c.id)
  }

  /** The circuit each credential is assigned to, as one function. */
  function Asignador(db: Db, le: (string, string) -> bool): string -> Option<int> {
    cc => CircuitoPara(db.circuitos, cc, le)
  }

  /** The members of `sin` that `f` assigns somewhere. */
  function Elegibles<K>(sin: set<K>, f: K -> Option<int>): (r: set<K>)
    ensures r <= sin
  {
    set cc | cc in sin && f(cc).Some?
  }

  /** One new roll row, not enabled and not voted, per member of `sin` that
      `f` assigns, in the circuit `f` assigns it to. */
  function Filas<K>(sin: set<K>, f: K -> Option<int>): (m: map<K, EntradaPadron>)
    ensures m.Keys == Elegibles(sin, f)
  {
    map cc | cc in Elegibles(sin, f) :: AdminRoutes.NuevaEntrada(f(cc).value)
  }

  /** The citizens absent from the roll that some circuit covers. */
  function Asignables(db: Db, le: (string, string) -> bool): (r: set<string>)
    ensures r <= SinPadron(db)
  {
    Elegibles(SinPadron(db), Asignador(db, le))
  }

  /** The roll rows the update must add: one per assignable citizen, in its
      circuit, not enabled and not voted. */
  function Asignaciones(db: Db, le: (string, string) -> bool): (m: map<string, EntradaPadron>)
    ensures m.Keys == Asignables(db, le)
    ensures forall cc :: cc in m <==>
              && cc in db.ciudadanos && cc !in db.padron
              && exists i :: 0 <= i < |db.circuitos| && Cubre(db.circuitos[i], cc, le)
    ensures forall cc :: cc in m ==>
              exists i :: 0 <= i < |db.circuitos| && Cubre(db.circuitos[i], cc, le)
                          && m[cc] == EntradaPadron(db.circuitos[i].id, false, false)
  {
    Filas(SinPadron(db), Asignador(db, le))
  }

  /** The summary message of the reply. */
  function Resumen(agregados: nat, sinCircuito: nat): string {
    "Se agregaron " + Text.NatToString(agregados) + " ciudadanos al padrón. "
    + Text.NatToString(sinCircuito) + " no tenían circuito y no fueron agregados."
  }

  /** The loop of the handler. Only the roll changes; every citizen absent at
      the start is counted exactly once, as added or as without circuit;
      the roll afterwards is the old roll plus exactly the rows
      `Asignaciones` prescribes, whatever order the citizens were visited
      in; and the database stays well formed. */
  method ActualizarPadron(db: Db, le: (string, string) -> bool)
    returns (db': Db, agregados: nat, sinCircuito: nat, mensaje: string)
    ensures db' == db.(padron := db'.padron)
    ensures agregados + sinCircuito == |SinPadron(db)|
    ensures agregados == |Asignables(db, le)|
    ensures db'.padron == db.padron + Asignaciones(db, le)
    ensures forall cc :: cc in db.padron ==> cc in db'.padron && db'.padron[cc] == db.padron[cc]
    ensures forall cc :: cc in db'.padron && cc !in db.padron ==>
              !db'.padron[cc].habilitado && !db'.padron[cc].voto
    ensures mensaje == Resumen(agregados, sinCircuito)
    ensures WellFormed(db) ==> WellFormed(db')
  {
    var padron;
    padron, agregados, sinCircuito := Recorrer(db.padron, SinPadron(db), Asignador(db, le));
    assert padron == db.padron + Asignaciones(db, le);
    CountSplit(Asignables(db, le), SinPadron(db));
    db' := db.(padron := padron);
    mensaje := Resumen(agregados, sinCircuito);
    if WellFormed(db) {
      AsignacionesKeepWellFormed(db, le);
    }
  }

  /** The loop over the citizens absent from the roll, visited in an order
      the model leaves open: each is either inserted with the circuit `f`
      gives it or counted as without circuit. */
  method Recorrer<K>(padron0: map<K, EntradaPadron>, sin: set<K>, f: K -> Option<int>)
    returns (padron: map<K, EntradaPadron>, agregados: nat, sinCircuito: nat)
    requires sin !! padron0.Keys
    ensures padron == padron0 + Filas(sin, f)
    ensures agregados == |Elegibles(sin, f)|
    ensures sinCircuito == |sin - Elegibles(sin, f)|
  {
    padron := padron0;
    var pending := sin;
    agregados := 0;
    sinCircuito := 0;
    while pending != {}
      invariant Progreso(padron0, sin, f, pending, padron, agregados, sinCircuito)
      decreases pending
    {
      var cc :| cc in pending;
      StepProgreso(padron0, sin, f, pending, padron, agregados, sinCircuito, cc);
      if f(cc).None? {
        sinCircuito := sinCircuito + 1;
      } else {
        padron := padron[cc := AdminRoutes.NuevaEntrada(f(cc).value)];
        agregados := agregados + 1;
      }
      pending := pending - {cc};
    }
    DoneProgreso(padron0, sin, f, padron, agregados, sinCircuito);
  }

  /** The loop invariant: the visited citizens are `sin - pending`; those
      `f` assigns have their rows and are counted as added, the others are
      counted as without circuit, and the old rows are untouched. */
  ghost predicate Progreso<K>(padron0: map<K, EntradaPadron>, sin: set<K>, f: K -> Option<int>,
                           pending: set<K>, padron: map<K, EntradaPadron>,
                           agregados: nat, sinCircuito: nat)
  {
    var asig := Elegibles(sin, f);
    && pending <= sin
    && padron.Keys == padron0.Keys + (asig - pending)
    && (forall k :: k in padron0 ==> padron[k] == padron0[k])
    && (forall k :: k in asig - pending ==> padron[k] == AdminRoutes.NuevaEntrada(f(k).value))
    && agregados == |asig - pending|
    && sinCircuito == |(sin - asig) - pending|
  }

  /** Visiting one pending citizen keeps the loop invariant. */
  lemma StepProgreso<K>(padron0: map<K, EntradaPadron>, sin: set<K>, f: K -> Option<int>,
                        pending: set<K>, padron: map<K, EntradaPadron>,
                        agregados: nat, sinCircuito: nat, cc: K)
    requires sin !! padron0.Keys
    requires Progreso(padron0, sin, f, pending, padron, agregados, sinCircuito)
    requires cc in pending
    ensures f(cc).None? ==>
              Progreso(padron0, sin, f, pending - {cc}, padron, agregados, sinCircuito + 1)
    ensures f(cc).Some? ==>
              Progreso(padron0, sin, f, pending - {cc},
                       padron[cc := AdminRoutes.NuevaEntrada(f(cc).value)], agregados + 1, sinCircuito)
  {
    var asig := Elegibles(sin, f);
    if f(cc).Some? {
      StepAdded(asig, sin, pending, cc);
      StepAddedRows(padron0, asig, f, pending, padron, cc);
    } else {
      StepSkipped(asig, sin, pending, cc);
    }
  }

  /** The rows after adding the visited citizen `cc`. */
  lemma StepAddedRows<K>(padron0: map<K, EntradaPadron>, asig: set<K>, f: K -> Option<int>,
                         pending: set<K>, padron: map<K, EntradaPadron>, cc: K)
    requires forall k :: k in asig ==> f(k).Some?
    requires cc in asig && cc in pending && cc !in padron0
    requires padron.Keys == padron0.Keys + (asig - pending)
    requires forall k :: k in padron0 ==> padron[k] == padron0[k]
    requires forall k :: k in asig - pending ==> padron[k] == AdminRoutes.NuevaEntrada(f(k).value)
    ensures var p' := padron[cc := AdminRoutes.NuevaEntrada(f(cc).value)];
            && p'.Keys == padron0.Keys + (asig - (pending - {cc}))
            && (forall k :: k in padron0 ==> p'[k] == padron0[k])
            && (forall k :: k in asig - (pending - {cc}) ==> p'[k] == AdminRoutes.NuevaEntrada(f(k).value))
  {
    assert asig - (pending - {cc}) == (asig - pending) + {cc};
  }

  /** Set bookkeeping when the visited citizen `cc` is assigned. */
  lemma StepAdded<K>(asig: set<K>, sin: set<K>, pending: set<K>, cc: K)
    requires asig <= sin && pending <= sin && cc in pending && cc in asig
    ensures asig - (pending - {cc}) == (asig - pending) + {cc}
    ensures |asig - (pending - {cc})| == |asig - pending| + 1
    ensures (sin - asig) - (pending - {cc}) == (sin - asig) - pending
  {
  }

  /** Set bookkeeping when the visited citizen `cc` is not assigned. */
  lemma StepSkipped<K>(asig: set<K>, sin: set<K>, pending: set<K>, cc: K)
    requires asig <= sin && pending <= sin && cc in pending && cc !in asig
    ensures asig - (pending - {cc}) == asig - pending
    ensures (sin - asig) - (pending - {cc}) == ((sin - asig) - pending) + {cc}
    ensures |(sin - asig) - (pending - {cc})| == |(sin - asig) - pending| + 1
  {
  }

  /** When nothing is pending the invariant is the method's postcondition. */
  lemma DoneProgreso<K>(padron0: map<K, EntradaPadron>, sin: set<K>, f: K -> Option<int>,
                     padron: map<K, EntradaPadron>, agregados: nat, sinCircuito: nat)
    requires sin !! padron0.Keys
    requires Progreso(padron0, sin, f, {}, padron, agregados, sinCircuito)
    ensures padron == padron0 + Filas(sin, f)
    ensures agregados == |Elegibles(sin, f)|
    ensures sinCircuito == |sin - Elegibles(sin, f)|
  {
    var asig := Elegibles(sin, f);
    NothingPending(asig);
    NothingPending(sin - asig);
    RowsAreFilas(padron0, sin, f, padron);
  }

  /** A roll holding the old rows and, for each member of `sin` that `f`
      assigns, its prescribed row, is the old roll plus `Filas`. */
  lemma RowsAreFilas<K>(padron0: map<K, EntradaPadron>, sin: set<K>, f: K -> Option<int>,
                     padron: map<K, EntradaPadron>)
    requires sin !! padron0.Keys
    requires padron.Keys == padron0.Keys + Elegibles(sin, f)
    requires forall k :: k in padron0 ==> padron[k] == padron0[k]
    requires forall k :: k in Elegibles(sin, f) ==> padron[k] == AdminRoutes.NuevaEntrada(f(k).value)
    ensures padron == padron0 + Filas(sin, f)
  {
    var m := Filas(sin, f);
    forall k | k in padron
      ensures padron[k] == (padron0 + m)[k]
    {
      if k in padron0 {
        assert k !in m;
      }
    }
  }

  lemma NothingPending<K>(a: set<K>)
    ensures a - {} == a && |a - {}| == |a|
  {
  }

  /** A subset and the rest of its superset add up to the superset. */
  lemma CountSplit(a: set<string>, b: set<string>)
    requires a <= b
    ensures |a| + |b - a| == |b|
  {
    assert b == a + (b - a);
  }

  /** Replacing the roll by one whose rows refer to existing citizens and
      circuits keeps the database well formed. */
  lemma RollKeepsWellFormed(db: Db, padron: map<string, EntradaPadron>)
    requires WellFormed(db)
    requires forall cc :: cc in padron ==> cc in db.ciudadanos && HasCircuito(db, padron[cc].idCircuito)
    ensures WellFormed(db.(padron := padron))
  {
    var db' := db.(padron := padron);
    forall id | HasCircuito(db, id)
      ensures HasCircuito(db', id)
    {
      var i :| 0 <= i < |db.circuitos| && db.circuitos[i].id == id;
      assert db'.circuitos[i].id == id;
    }
  }

  /** The circuit a citizen is assigned to exists. */
  lemma AsignadoExiste(db: Db, le: (string, string) -> bool, cc: string)
    requires cc in Asignables(db, le)
    ensures HasCircuito(db, CircuitoPara(db.circuitos, cc, le).value)
  {
    var id := CircuitoPara(db.circuitos, cc, le);
    var i :| 0 <= i < |db.circuitos| && db.circuitos[i].id == id.value && Cubre(db.circuitos[i], cc, le)
             && forall j :: 0 <= j < i ==> !Cubre(db.circuitos[j], cc, le);
  }

  /** The rows the update adds refer to existing citizens and circuits. */
  lemma AsignacionesKeepWellFormed(db: Db, le: (string, string) -> bool)
    requires WellFormed(db)
    ensures WellFormed(db.(padron := db.padron + Asignaciones(db, le)))
  {
    var m := Asignaciones(db, le);
    var padron := db.padron + m;
    forall cc | cc in padron
      ensures cc in db.ciudadanos && HasCircuito(db, padron[cc].idCircuito)
    {
      if cc in m {
        AsignadoExiste(db, le, cc);
      }
    }
    RollKeepsWellFormed(db, padron);
  }

  /** A citizen the update adds sits in the first circuit covering its
      series and number; a citizen it skips is covered by no circuit. */
  lemma AsignacionPrimerCircuito(db: Db, le: (string, string) -> bool, cc: string)
    requires cc in SinPadron(db)
    ensures cc in Asignaciones(db, le) ==>
              exists i :: 0 <= i < |db.circuitos|
                          && Asignaciones(db, le)[cc] == EntradaPadron(db.circuitos[i].id, false, false)
                          && Cubre(db.circuitos[i], cc, le)
                          && forall j :: 0 <= j < i ==> !Cubre(db.circuitos[j], cc, le)
    ensures cc !in Asignaciones(db, le) ==>
              forall i :: 0 <= i < |db.circuitos| ==> !Cubre(db.circuitos[i], cc, le)
  {
  }
}
