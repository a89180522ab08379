/** The artesana record the whole site passes around, and the two-criterion
    disciplina/region filter that the hook and both constellation maps apply. */
module Artesanas {
  import opened Wrappers

  /** The declared region union; `Insular` is declared but never produced by
      the API normalisation. */
  datatype Region = Norte | Centro | Sur | Insular

  /** The string a region compares equal to in a filter. */
  function RegionName(r: Region): string {
    match r
    case Norte => "Norte"
    case Centro => "Centro"
    case Sur => "Sur"
    case Insular => "Insular"
  }

  /** Position in the constellation, as percentages of the image. */
  datatype Posicion = Posicion(x: real, y: real)

  /** The declared disciplina union. The API normalisation casts whatever
      string the API sends without checking it, so a record's disciplina is
      kept as a string and this predicate names the declared values. */
  predicate IsDeclaredDisciplina(d: string) {
    d in ["Cerámica", "Textil", "Madera", "Cestería", "Orfebrería", "Tejido"]
  }

  datatype Artesana = Artesana(
    id: string,
    nombre: string,
    disciplina: string,
    region: Region,
    biografia: string,
    imagenUrl: Option<string>,
    imagenesTrabajo: Option<seq<string>>,
    posicion: Posicion)

  /** A filter selection: `null`, `undefined` and the empty string all mean
      "no restriction" because the source tests them for truthiness. */
  datatype Filters = Filters(disciplina: Option<string>, region: Option<string>)

  predicate IsActive(sel: Option<string>) {
    sel.Some? && sel.value != ""
  }

  /** The predicate passed to `filter`: rejected when an active disciplina
      differs, then when an active region differs. */
  predicate Matches(a: Artesana, f: Filters) {
    (!IsActive(f.disciplina) || a.disciplina == f.disciplina.value) &&
    (!IsActive(f.region) || RegionName(a.region) == f.region.value)
  }
}
