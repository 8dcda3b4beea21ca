/** The shapes every component agrees on (packages/core-model/src/infra_twin/core_model/models.py).
    Identifiers are naturals, instants and durations are integers (seconds), confidences are reals. */
module Model {

  datatype Option<+T> = None | Some(value: T)

  /** A CI type is the value of the source's string enumeration, as in "rds" or "internet". */
  type CiType = string

  datatype EdgeType =
    | CONTAINS | RUNS_ON | CONNECTS_TO | DEPENDS_ON | ROUTES_TO
    | HAS_ACCESS_TO | OWNS | EXPOSES | MEMBER_OF | RESOLVES_TO

  datatype EdgeSource = Declared | Inferred

  const INTERNET: CiType := "internet"
  const RDS: CiType := "rds"
}
