/** Clauses and scripts (`crates/luaml/src/clause.rs`). */
module Clauses {
  import opened Wrappers
  import opened Patterns

  type Annotations = seq<(string, string)>

  datatype Clause = Clause(
    policy: Fields,
    guard: Option<string>,
    luaSource: string,
    annotations: Annotations,
    fieldAnnotations: map<string, Annotations>)

  datatype Script = Script(sourcePath: string, extension: Option<string>, clauses: seq<Clause>)
}
