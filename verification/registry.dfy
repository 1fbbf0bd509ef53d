/** The election database as the admin and user routes see it: each table a
    finite map keyed by its primary key, except CIRCUITO, whose row order
    matters to `LIMIT 1` lookups and is kept as a sequence. */
module Registry {
  import opened Wrappers

  /** A CIUDADANO row; the credencial is the key of the table. */
  datatype Ciudadano = Ciudadano(
    nombres: string,
    apellido1: string,
    apellido2: Option<string>,   // NULL when absent
    cedula: string,
    fechaNac: string,
    direccion: string)

  /** A PADRON row (the voter roll); the credencial is the key. The flags are
      the 0/1 columns `habilitado` and `voto`. */
  datatype EntradaPadron = EntradaPadron(idCircuito: int, habilitado: bool, voto: bool)

  /** A CIRCUITO row, with the name of the department its establishment lies
      in: the row reached through ESTABLECIMIENTO, LOCALIDAD and
      DEPARTAMENTO, or `None` when that chain of rows is broken. The series
      and number ranges decide which credentials the circuit serves. */
  datatype Circuito = Circuito(
    id: int,
    numero: string,
    departamento: Option<string>,
    serieDesde: string,
    serieHasta: string,
    numeroDesde: int,
    numeroHasta: int,
    cerrado: bool,
    ccPresidente: Option<string>,
    ccSecretario: Option<string>,
    ccVocal: Option<string>)

  /** A POLICIA row; the credencial is the key. */
  datatype Policia = Policia(idComisaria: int, idEstablecimiento: int)

  datatype Db = Db(
    ciudadanos: map<string, Ciudadano>,
    padron: map<string, EntradaPadron>,
    circuitos: seq<Circuito>,
    policias: map<string, Policia>,
    empleados: map<string, int>,          // credencial -> id_organismo
    comisarias: map<int, string>,         // id -> nombre
    establecimientos: map<int, string>,   // id -> direccion
    organismos: map<int, string>)         // id -> nombre

  /** `SELECT id FROM CIRCUITO WHERE id = ?` finds a row. */
  predicate HasCircuito(db: Db, id: int) {
    exists i :: 0 <= i < |db.circuitos| && db.circuitos[i].id == id
  }

  /** Some citizen already has this cédula. */
  predicate CedulaTomada(db: Db, cedula: string) {
    exists cc :: cc in db.ciudadanos && db.ciudadanos[cc].cedula == cedula
  }

  predicate CircuitIdsUnique(cs: seq<Circuito>) {
    forall i, j :: 0 <= i < j < |cs| ==> cs[i].id != cs[j].id
  }

  predicate CedulasUnique(ciudadanos: map<string, Ciudadano>) {
    forall a, b :: a in ciudadanos && b in ciudadanos && a != b ==>
      ciudadanos[a].cedula != ciudadanos[b].cedula
  }

  /** Every roll row names an existing citizen and an existing circuit. */
  predicate RollRefs(padron: map<string, EntradaPadron>, ciudadanos: map<string, Ciudadano>, circuitos: seq<Circuito>) {
    forall cc :: cc in padron ==>
      cc in ciudadanos && exists i :: 0 <= i < |circuitos| && circuitos[i].id == padron[cc].idCircuito
  }

  /** Every police row names an existing citizen, comisaría and
      establecimiento. */
  predicate PoliceRefs(policias: map<string, Policia>, ciudadanos: map<string, Ciudadano>,
                       comisarias: map<int, string>, establecimientos: map<int, string>) {
    forall cc :: cc in policias ==>
      && cc in ciudadanos
      && policias[cc].idComisaria in comisarias
      && policias[cc].idEstablecimiento in establecimientos
  }

  /** Every employee row names an existing citizen and organismo. */
  predicate EmployeeRefs(empleados: map<string, int>, ciudadanos: map<string, Ciudadano>, organismos: map<int, string>) {
    forall cc :: cc in empleados ==> cc in ciudadanos && empleados[cc] in organismos
  }

  /** The integrity the admin routes keep: keys are unique, cédulas are unique,
      and every roll, police and employee row refers to rows that exist. */
  predicate WellFormed(db: Db) {
    && CircuitIdsUnique(db.circuitos)
    && CedulasUnique(db.ciudadanos)
    && RollRefs(db.padron, db.ciudadanos, db.circuitos)
    && PoliceRefs(db.policias, db.ciudadanos, db.comisarias, db.establecimientos)
    && EmployeeRefs(db.empleados, db.ciudadanos, db.organismos)
  }

  /** `SELECT c.credencial FROM CIUDADANO c LEFT JOIN PADRON p ... WHERE
      p.credencial IS NULL`: the citizens not yet on the roll. The left
      join pairs each citizen with its roll row, or with NULLs when it has
      none, and the filter keeps exactly the unpaired citizens. */
  function SinPadron(db: Db): (r: set<string>)
    ensures forall cc :: cc in r <==> cc in db.ciudadanos && cc !in db.padron
  {
    db.ciudadanos.Keys - db.padron.Keys
  }
}
