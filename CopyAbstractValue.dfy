/** Copy abstract values (CopyAbstractValue.cs): a set of analysis entities known to hold the
    same value, with a kind. The entity set is empty exactly when the kind is not `Known`;
    removing entities builds a new value and leaves the original as it was. */
module CopyAnalysis {
  import opened HashUtilities
  import opened Entities

  datatype CopyAbstractValueKind = NotApplicable | Invalid | Unknown | Known

  datatype CopyAbstractValue = CopyAbstractValue(analysisEntities: set<AnalysisEntity>, kind: CopyAbstractValueKind)
  {
    /** The invariant the private constructor asserts. */
    predicate Valid()
    {
      (analysisEntities == {}) == (kind != CopyAbstractValueKind.Known)
    }

    static const NotApplicable: CopyAbstractValue := FromKind(CopyAbstractValueKind.NotApplicable)
    static const Invalid: CopyAbstractValue := FromKind(CopyAbstractValueKind.Invalid)
    static const Unknown: CopyAbstractValue := FromKind(CopyAbstractValueKind.Unknown)
  }

  /** The private constructor over an entity set and a kind. */
  function NewCopyValue(analysisEntities: set<AnalysisEntity>, kind: CopyAbstractValueKind): (v: CopyAbstractValue)
    requires (analysisEntities == {}) == (kind != CopyAbstractValueKind.Known)
    ensures v.Valid()
    ensures v.analysisEntities == analysisEntities && v.kind == kind
  {
    CopyAbstractValue(analysisEntities, kind)
  }

  /** The private constructor for the kinds other than `Known`. */
  function FromKind(kind: CopyAbstractValueKind): (v: CopyAbstractValue)
    requires kind != CopyAbstractValueKind.Known
    ensures v.Valid()
    ensures v.analysisEntities == {} && v.kind == kind
  {
    NewCopyValue({}, kind)
  }

  /** The public constructor over one entity. */
  function FromEntity(analysisEntity: AnalysisEntity): (v: CopyAbstractValue)
    ensures v.Valid()
    ensures v.kind == CopyAbstractValueKind.Known && v.analysisEntities == {analysisEntity}
  {
    NewCopyValue({analysisEntity}, CopyAbstractValueKind.Known)
  }

  /** The public constructor over a non-empty entity set. */
  function FromEntities(analysisEntities: set<AnalysisEntity>): (v: CopyAbstractValue)
    requires analysisEntities != {}
    ensures v.Valid()
    ensures v.kind == CopyAbstractValueKind.Known && v.analysisEntities == analysisEntities
  {
    NewCopyValue(analysisEntities, CopyAbstractValueKind.Known)
  }

  /** The three singletons are well formed, with no entities and their named kinds; every
      well-formed value without entities is one of them. */
  lemma Singletons(v: CopyAbstractValue)
    ensures CopyAbstractValue.NotApplicable.Valid() && CopyAbstractValue.NotApplicable.analysisEntities == {}
    ensures CopyAbstractValue.NotApplicable.kind == CopyAbstractValueKind.NotApplicable
    ensures CopyAbstractValue.Invalid.Valid() && CopyAbstractValue.Invalid.analysisEntities == {}
    ensures CopyAbstractValue.Invalid.kind == CopyAbstractValueKind.Invalid
    ensures CopyAbstractValue.Unknown.Valid() && CopyAbstractValue.Unknown.analysisEntities == {}
    ensures CopyAbstractValue.Unknown.kind == CopyAbstractValueKind.Unknown
    ensures v.Valid() && v.analysisEntities == {} ==>
      v == CopyAbstractValue.NotApplicable || v == CopyAbstractValue.Invalid || v == CopyAbstractValue.Unknown
  {
  }

  /** `WithEntityRemoved`: the same class without one of its members. */
  function WithEntityRemoved(v: CopyAbstractValue, entityToRemove: AnalysisEntity): (r: CopyAbstractValue)
    requires entityToRemove in v.analysisEntities
    requires |v.analysisEntities| > 1
    requires v.kind == CopyAbstractValueKind.Known
    ensures r.Valid() && r.kind == CopyAbstractValueKind.Known
    ensures entityToRemove !in r.analysisEntities
    ensures forall e :: e in r.analysisEntities <==> e in v.analysisEntities && e != entityToRemove
    ensures |r.analysisEntities| == |v.analysisEntities| - 1
  {
    assert |v.analysisEntities - {entityToRemove}| == |v.analysisEntities| - 1;
    FromEntities(v.analysisEntities - {entityToRemove})
  }

  /** The entities named in a sequence of entities to remove. */
  function Elements(entities: seq<AnalysisEntity>): set<AnalysisEntity>
  {
    set e | e in entities
  }

  /** `WithEntitiesRemoved`: the same class without several of its members. The method's own
      assertions do not exclude removing every member; the constructor it calls does. */
  function WithEntitiesRemoved(v: CopyAbstractValue, entitiesToRemove: seq<AnalysisEntity>): (r: CopyAbstractValue)
    requires forall e :: e in entitiesToRemove ==> e in v.analysisEntities
    requires |v.analysisEntities| > 1
    requires v.kind == CopyAbstractValueKind.Known
    requires v.analysisEntities - Elements(entitiesToRemove) != {}
    ensures r.Valid() && r.kind == CopyAbstractValueKind.Known
    ensures forall e :: e in r.analysisEntities <==> e in v.analysisEntities && e !in entitiesToRemove
  {
    FromEntities(v.analysisEntities - Elements(entitiesToRemove))
  }

  /** Removing one entity is removing the one-element sequence of it. */
  lemma RemoveOneIsRemoveMany(v: CopyAbstractValue, e: AnalysisEntity)
    requires e in v.analysisEntities && |v.analysisEntities| > 1 && v.kind == CopyAbstractValueKind.Known
    ensures v.analysisEntities - Elements([e]) != {}
    ensures WithEntityRemoved(v, e) == WithEntitiesRemoved(v, [e])
  {
    assert Elements([e]) == {e};
    assert |v.analysisEntities - {e}| == |v.analysisEntities| - 1;
  }

  /** Two removals in a row are one removal of both sequences. */
  lemma RemovalsCompose(v: CopyAbstractValue, first: seq<AnalysisEntity>, second: seq<AnalysisEntity>)
    requires forall e :: e in first ==> e in v.analysisEntities
    requires |v.analysisEntities| > 1 && v.kind == CopyAbstractValueKind.Known
    requires v.analysisEntities - Elements(first) != {}
    requires var w := WithEntitiesRemoved(v, first);
      && (forall e :: e in second ==> e in w.analysisEntities)
      && |w.analysisEntities| > 1
      && w.analysisEntities - Elements(second) != {}
    ensures forall e :: e in first + second ==> e in v.analysisEntities
    ensures v.analysisEntities - Elements(first + second) != {}
    ensures WithEntitiesRemoved(WithEntitiesRemoved(v, first), second) == WithEntitiesRemoved(v, first + second)
  {
    assert Elements(first + second) == Elements(first) + Elements(second);
    var w := WithEntitiesRemoved(v, first);
    assert w.analysisEntities == v.analysisEntities - Elements(first);
    assert w.analysisEntities - Elements(second) == v.analysisEntities - Elements(first + second);
  }

  /** Removing `y` from the class `{x, y, z}` leaves `{x, z}`. */
  lemma RemoveFromThree(x: AnalysisEntity, y: AnalysisEntity, z: AnalysisEntity)
    requires x != y && y != z && x != z
    ensures |{x, y, z}| == 3
    ensures WithEntityRemoved(FromEntities({x, y, z}), y).analysisEntities == {x, z}
  {
  }

  /** `ComputeHashCodeParts`: the set hash of the entities, then the kind's hash. */
  method ComputeHashCodeParts(v: CopyAbstractValue, entityHash: AnalysisEntity -> int32, kindHash: CopyAbstractValueKind -> int32)
    returns (parts: seq<int32>)
    requires |v.analysisEntities| <= MaxInt32
    ensures parts == [SetHash(v.analysisEntities, entityHash, 0), kindHash(v.kind)]
  {
    var entitiesHash := CombineSet(v.analysisEntities, entityHash);
    parts := [entitiesHash, kindHash(v.kind)];
  }
}
