/** The handles the abstract values are built from. Operations, analysis entities, symbols,
    source locations and syntax nodes are defined outside this model and appear here as
    opaque types with equality. An abstract location is modelled just far enough to tell its
    two sentinels and the entity-default locations of an unknown instance apart. */
module Entities {

  /** An IR operation (`IOperation`). */
  type Operation(==, !new)

  /** A symbolic storage location (`AnalysisEntity`). */
  type AnalysisEntity(==, !new)

  /** A symbol of the compilation (`ISymbol`). */
  type Symbol(==, !new)

  /** A position in the source text (`Location`). */
  type SourceLocation(==, !new)

  /** A node of the syntax tree (`SyntaxNode`). */
  type SyntaxNode(==, !new)

  /** An allocation site or an entity-rooted storage cell (`AbstractLocation`). */
  datatype AbstractLocation =
    | Null
    | NoLocation
    | Allocation(creation: Operation)
    | EntityDefault(entity: AnalysisEntity, entityHasUnknownInstanceLocation: bool)
  {
    /** `IsNull`: the location of the null value. */
    predicate IsNull() { this.Null? }

    /** `IsNoLocation`: points to nothing that can be analysed. */
    predicate IsNoLocation() { this.NoLocation? }

    /** `IsAnalysisEntityDefaultLocation && AnalysisEntityOpt.HasUnknownInstanceLocation`. */
    predicate IsDefaultWithUnknownInstance() { this.EntityDefault? && entityHasUnknownInstanceLocation }
  }
}
