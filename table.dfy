/**
 The sampling table the dashboard works on: one record per wellboat sample,
 already parsed (the CSV reader and the date parser are not modelled). A date
 is an optional integer whose order is the calendar order (yyyymmdd is used in
 the fixture); `None` stands for an empty date cell, which pandas reads as NaT.
 */
module Table {

  datatype Option<T> = None | Some(value: T)

  /**
   One row of the table: the date and the four selector columns the dashboard
   reads, and the FOLIO, kept to tell rows apart.
   */
  datatype Record = Record(
    folio: string,
    fecha: Option<int>,
    wellboat: string,
    armador: string,
    resultado: string,
    tipoMuestreo: string
  )

  /** The four categorical columns that have a selector in the sidebar. */
  datatype Column = Wellboat | Armador | Resultado | TipoMuestreo

  /** The sentinel option that means "no constraint on this column". */
  const TODOS: string := "Todos"

  const POSITIVO: string := "Positivo"
  const NEGATIVO: string := "Negativo"

  function Field(r: Record, col: Column): string
  {
    match col
    case Wellboat => r.wellboat
    case Armador => r.armador
    case Resultado => r.resultado
    case TipoMuestreo => r.tipoMuestreo
  }

  /** The distinct values of a column, as a set (what `unique()` collects). */
  function ValueSet(s: seq<Record>, col: Column): (vs: set<string>)
    ensures forall v :: v in vs <==> exists i :: 0 <= i < |s| && Field(s[i], col) == v
  {
    if s == [] then {}
    else
      var rest := ValueSet(s[1..], col);
      {Field(s[0], col)} + rest
  }

  /** A table never has more distinct values in a column than rows. */
  lemma {:induction false} ValueSetBound(s: seq<Record>, col: Column)
    ensures |ValueSet(s, col)| <= |s|
    ensures |ValueSet(s, col)| == 0 <==> s == []
  {
    if s != [] {
      ValueSetBound(s[1..], col);
      assert Field(s[0], col) in ValueSet(s, col);
    }
  }
}
