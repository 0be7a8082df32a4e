/** Values of the dataflow framework: abstract indices into a location (AbstractIndex.cs) and
    the description of an argument passed to interprocedural analysis (ArgumentInfo.cs). */
module DataFlow {
  import opened Wrappers
  import opened HashUtilities
  import opened Entities
  import opened PointsToAnalysis

  /** An abstract index: a constant, an analysis entity, or an operation. The three variants
      are the three subclasses of the abstract class. */
  datatype AbstractIndex =
    | ConstantValueIndex(index: int32)
    | AnalysisEntityBasedIndex(analysisEntity: AnalysisEntity)
    | OperationBasedIndex(operation: Operation)

  /** `Create(int)`. */
  function CreateFromIndex(index: int32): (r: AbstractIndex)
    ensures r.ConstantValueIndex? && r.index == index
  {
    ConstantValueIndex(index)
  }

  /** `Create(AnalysisEntity)`. */
  function CreateFromEntity(analysisEntity: AnalysisEntity): (r: AbstractIndex)
    ensures r.AnalysisEntityBasedIndex? && r.analysisEntity == analysisEntity
  {
    AnalysisEntityBasedIndex(analysisEntity)
  }

  /** `Create(IOperation)`. */
  function CreateFromOperation(operation: Operation): (r: AbstractIndex)
    ensures r.OperationBasedIndex? && r.operation == operation
  {
    OperationBasedIndex(operation)
  }

  /** Every index is produced by exactly one factory, from its own payload. */
  lemma EveryIndexHasOneFactory(i: AbstractIndex)
    ensures i.ConstantValueIndex? ==> i == CreateFromIndex(i.index)
    ensures i.AnalysisEntityBasedIndex? ==> i == CreateFromEntity(i.analysisEntity)
    ensures i.OperationBasedIndex? ==> i == CreateFromOperation(i.operation)
    ensures forall n: int32, e: AnalysisEntity :: CreateFromIndex(n) != CreateFromEntity(e)
    ensures forall n: int32, o: Operation :: CreateFromIndex(n) != CreateFromOperation(o)
    ensures forall e: AnalysisEntity, o: Operation :: CreateFromEntity(e) != CreateFromOperation(o)
  {
  }

  /** Each factory is injective: equal indices come from equal arguments. */
  lemma FactoriesInjective(n1: int32, n2: int32, e1: AnalysisEntity, e2: AnalysisEntity, o1: Operation, o2: Operation)
    ensures CreateFromIndex(n1) == CreateFromIndex(n2) <==> n1 == n2
    ensures CreateFromEntity(e1) == CreateFromEntity(e2) <==> e1 == e2
    ensures CreateFromOperation(o1) == CreateFromOperation(o2) <==> o1 == o2
  {
  }

  /** An argument to an interprocedural call: its operation, the entity it names (absent for
      allocations), the locations it points to and its abstract value. */
  datatype ArgumentInfo<V> = ArgumentInfo(operation: Operation, analysisEntityOpt: Option<AnalysisEntity>,
                                          instanceLocation: PointsToAbstractValue, value: V)

  /** The constructor, which stores its four arguments unchanged. */
  function NewArgumentInfo<V>(operation: Operation, analysisEntityOpt: Option<AnalysisEntity>,
                              instanceLocation: PointsToAbstractValue, value: V): (r: ArgumentInfo<V>)
    ensures r.operation == operation && r.analysisEntityOpt == analysisEntityOpt
    ensures r.instanceLocation == instanceLocation && r.value == value
  {
    ArgumentInfo(operation, analysisEntityOpt, instanceLocation, value)
  }

  /** `ComputeHashCodeParts`: operation, entity (0 when absent), instance location, value. */
  function HashCodeParts<V>(a: ArgumentInfo<V>, operationHash: Operation -> int32, entityHash: AnalysisEntity -> int32,
                            pointsToHash: PointsToAbstractValue -> int32, valueHash: V -> int32): (parts: seq<int32>)
    ensures |parts| == 4
    ensures parts[0] == operationHash(a.operation)
    ensures parts[1] == (if a.analysisEntityOpt.Some? then entityHash(a.analysisEntityOpt.value) else 0)
    ensures parts[2] == pointsToHash(a.instanceLocation) && parts[3] == valueHash(a.value)
  {
    [operationHash(a.operation), GetHashCodeOrDefault(a.analysisEntityOpt, entityHash),
     pointsToHash(a.instanceLocation), valueHash(a.value)]
  }

  /** An absent entity gives the same hash parts as an entity whose own hash is 0, whatever
      else the argument holds: the hash parts do not tell the two apart. */
  lemma AbsentEntityHashesAsZero<V>(a: ArgumentInfo<V>, e: AnalysisEntity, operationHash: Operation -> int32, entityHash: AnalysisEntity -> int32,
                                    pointsToHash: PointsToAbstractValue -> int32, valueHash: V -> int32)
    requires entityHash(e) == 0
    ensures HashCodeParts(a.(analysisEntityOpt := None), operationHash, entityHash, pointsToHash, valueHash)
         == HashCodeParts(a.(analysisEntityOpt := Some(e)), operationHash, entityHash, pointsToHash, valueHash)
    ensures HashCodeParts(a.(analysisEntityOpt := None), operationHash, entityHash, pointsToHash, valueHash)[1] == 0
  {
  }

  /** Two arguments have equal hash parts exactly when their operations, their entities (0 for
      an absent one), their instance locations and their values hash alike, part by part. */
  lemma HashCodePartsEqual<V>(a: ArgumentInfo<V>, b: ArgumentInfo<V>, operationHash: Operation -> int32, entityHash: AnalysisEntity -> int32,
                              pointsToHash: PointsToAbstractValue -> int32, valueHash: V -> int32)
    ensures (HashCodeParts(a, operationHash, entityHash, pointsToHash, valueHash)
             == HashCodeParts(b, operationHash, entityHash, pointsToHash, valueHash)) <==>
      && operationHash(a.operation) == operationHash(b.operation)
      && GetHashCodeOrDefault(a.analysisEntityOpt, entityHash) == GetHashCodeOrDefault(b.analysisEntityOpt, entityHash)
      && pointsToHash(a.instanceLocation) == pointsToHash(b.instanceLocation)
      && valueHash(a.value) == valueHash(b.value)
  {
    var pa := HashCodeParts(a, operationHash, entityHash, pointsToHash, valueHash);
    var pb := HashCodeParts(b, operationHash, entityHash, pointsToHash, valueHash);
    if pa == pb {
      assert pa[0] == pb[0] && pa[1] == pb[1] && pa[2] == pb[2] && pa[3] == pb[3];
    }
  }
}
