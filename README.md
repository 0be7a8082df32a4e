# Abstract values of the Roslyn analyzers' dataflow framework

This project models the abstract-value layer of the dataflow-analysis framework in the Roslyn
analyzers, together with the hashing helpers those values use. The layer has these values:

- **Points-to values.** A set of abstract locations, or a set of operations captured as
  l-values, with a kind and a null state. There are seven singletons, four factories and three
  null-state transformers.
- **Copy values.** An equivalence class of analysis entities with a kind, and two operations
  that remove entities from it.
- **Tainted-data values.** Exactly three values: unknown, not tainted and tainted.
- **Symbol accesses.** Records of where a symbol was accessed, built by two constructors that
  reject nulls.
- **Abstract indices.** A constant, an entity or an operation.
- **Argument infos.** The description of one argument passed to interprocedural analysis.

`HashUtilities` combines 32-bit hash codes:

- a single step with wrap-around;
- a fold over a sequence or an array;
- a fold over a stack;
- a sort-then-fold over sets and dictionaries, which makes the result independent of
  enumeration order.

How the source is modelled:

- **Values.** Every value is an immutable Dafny `datatype`. A C# `null` is `Option.None`. A
  constructor that throws `ArgumentNullException` is a function returning
  `Result<_, string>`; the error carries the parameter name.
- **Assertions.** Each `Debug.Assert` in a constructor or operation becomes a precondition.
  Each value has a datatype invariant `Valid()`, and every factory and transformer is proved to
  preserve it. For copy values and for points-to values of the two known kinds, `Valid()` is
  what the constructors assert. For the five degenerate points-to kinds, `Valid()` also pairs
  each kind with one null state. The private constructor for those kinds asserts only the
  kind, but its only callers are the five singletons (lines 16-20 of
  `PointsToAbstractValue.cs`), and each passes a fixed null state.
- **Hash codes.** The `GetHashCode()` of a component (a symbol, an operation, a location or an
  enum) is a function parameter of type `T -> int32`. `int32` is a newtype; C#'s `unchecked`
  arithmetic is written out as reduction modulo 2^32.
- **Hash parts.** Each `ComputeHashCodeParts` is the ordered sequence of the parts it adds to
  its builder. The base classes' final combining step is not part of this model.
- **Set and dictionary combines.** These methods enumerate the collection in an arbitrary order
  (`:|`) into a local sequence. They sort it and fold it with the sequence combine. Each is
  proved to return the same value for every enumeration order of its collection.

Files:

- `Wrappers.dfy`: `Option`, `Result`.
- `HashUtilities.dfy`: module `HashUtilities`.
- `Entities.dfy`: the opaque framework types and `AbstractLocation`.
- `PointsToAbstractValue.dfy`: module `PointsToAnalysis`.
- `CopyAbstractValue.dfy`: module `CopyAnalysis`.
- `TaintedDataAnalysis.dfy`: the tainted-data value and symbol access.
- `DataFlow.dfy`: abstract index and argument info.

## Model

| member | source | states |
|---|---|---|
| HashUtilities.Wrap | src/Utilities/HashUtilities.cs:17 | the `unchecked` result is congruent to the exact value modulo 2^32, and equals it when it is in the 32-bit range |
| HashUtilities.GetHashCodeOrDefault | src/Utilities/HashUtilities.cs:13 | a null object hashes to 0, any other object to its own hash |
| HashUtilities.Combine | src/Utilities/HashUtilities.cs:15-18 | the result is `currentKey * 0xA5555529 + newKey` taken modulo 2^32 |
| HashUtilities.CombineInjectiveInNewKey | src/Utilities/HashUtilities.cs:15-18 | for a fixed current key, distinct new keys give distinct combined keys |
| HashUtilities.CombineInjectiveInCurrentKey | src/Utilities/HashUtilities.cs:15-18 | for a fixed new key, distinct current keys give distinct combined keys (the multiplier is odd, so it is invertible modulo 2^32) |
| HashUtilities.CombineAllAppend | src/Utilities/HashUtilities.cs:25-31 | folding a concatenation is folding the second part from the result of the first |
| HashUtilities.CombineAllInjectiveInSeed | src/Utilities/HashUtilities.cs:25-31 | folding the same hashes from two different seeds gives two different results |
| HashUtilities.HashAll | src/Utilities/HashUtilities.cs:26-29 | there is one element hash per element, in order: entry `i` is the hash of element `i` |
| HashUtilities.HashAllAppend | src/Utilities/HashUtilities.cs:26-29 | the hashes of a concatenation are the concatenation of the hashes |
| HashUtilities.HashAllIdentity | src/Utilities/HashUtilities.cs:62 | hashing an `int` by its own value leaves a sequence of hashes as it is, which is how the builder is folded |
| HashUtilities.HashAllPermutation | src/Utilities/HashUtilities.cs:56-59 | two enumerations of the same elements have the same multiset of element hashes |
| HashUtilities.CombineSequence | src/Utilities/HashUtilities.cs:23-32 | the loop's result is `Combine(length, currentKey)` followed by `Combine(elementHash, acc)` for each element, from left to right |
| HashUtilities.CombineArrayWithKey | src/Utilities/HashUtilities.cs:21 | the array combine is the sequence combine with the array's length; an empty array gives `Combine(0, currentKey)` |
| HashUtilities.CombineArray | src/Utilities/HashUtilities.cs:20 | the same, with seed 0 |
| HashUtilities.CombineStackWithKey | src/Utilities/HashUtilities.cs:35-47 | the loop folds the elements from the seed, and `Combine(count, acc)` comes last, where the counter is the stack's size |
| HashUtilities.CombineStack | src/Utilities/HashUtilities.cs:34 | the same, with seed 0 |
| HashUtilities.EmptyStackAndSequenceAgree | src/Utilities/HashUtilities.cs:23-47 | on an empty collection, the stack combine and the sequence combine both give `Combine(0, seed)` |
| HashUtilities.SingletonStackAndSequence | src/Utilities/HashUtilities.cs:23-47 | on one element, the stack combine puts the count in last and the sequence combine puts it in first |
| HashUtilities.InsertSorted | src/Utilities/HashUtilities.cs:61 | inserting into an ascending sequence gives an ascending sequence, with the same elements plus the new one |
| HashUtilities.SortAscending | src/Utilities/HashUtilities.cs:61 | the builder's sort gives an ascending permutation of its contents |
| HashUtilities.SortedPermutationsEqual | src/Utilities/HashUtilities.cs:61 | two ascending sequences with the same elements are equal, so the sorted builder does not depend on insertion order |
| HashUtilities.EnumerationExists | src/Utilities/HashUtilities.cs:56 | every finite set has an enumeration |
| HashUtilities.OrderIndependent | src/Utilities/HashUtilities.cs:56-62 | sorting and then folding gives the same result for any two orderings of the same elements |
| HashUtilities.SetHash | src/Utilities/HashUtilities.cs:50-70 | the set hash is well defined: it equals the sorted fold of every enumeration of the set |
| HashUtilities.EmptySetHash | src/Utilities/HashUtilities.cs:49-62 | the hash of an empty set is `Combine(0, currentKey)` |
| HashUtilities.CollectHashes | src/Utilities/HashUtilities.cs:53-59 | the builder holds the element hashes of one enumeration of the set, in enumeration order |
| HashUtilities.CombineSetWithKey | src/Utilities/HashUtilities.cs:50-70 | the set combine equals the sorted fold of every enumeration of the set, so it is independent of enumeration order |
| HashUtilities.CombineSet | src/Utilities/HashUtilities.cs:49 | the same, with seed 0; an empty set gives `Combine(0, 0)` |
| HashUtilities.NullValueEntryHash | src/Utilities/HashUtilities.cs:81 | an entry whose value is null contributes `Combine(keyHash, 0)`, and that equals the key's own hash |
| HashUtilities.DictionaryHash | src/Utilities/HashUtilities.cs:73-93 | the dictionary hash is the sorted fold of the entry hashes over every enumeration of the entries |
| HashUtilities.CombineDictionaryWithKey | src/Utilities/HashUtilities.cs:73-93 | the dictionary combine equals that enumeration-independent hash |
| HashUtilities.CombineDictionary | src/Utilities/HashUtilities.cs:72 | the same, with seed 0 |
| PointsToAnalysis.NewKnownLocations | src/Utilities/FlowAnalysis/Analysis/PointsToAnalysis/PointsToAbstractValue.cs:24-36 | given the asserted conditions, the result has kind `KnownLocations`, those locations, no captures and that null state; it satisfies the invariant |
| PointsToAnalysis.NewKnownLValueCaptures | src/Utilities/FlowAnalysis/Analysis/PointsToAnalysis/PointsToAbstractValue.cs:38-46 | a non-empty capture set gives kind `KnownLValueCaptures`, no locations and `NotNull` |
| PointsToAnalysis.NewDegenerate | src/Utilities/FlowAnalysis/Analysis/PointsToAnalysis/PointsToAbstractValue.cs:48-57 | a kind other than the two known kinds gives empty sets; the value is well formed exactly when the null state is the one that kind's singleton uses |
| PointsToAnalysis.Singletons | src/Utilities/FlowAnalysis/Analysis/PointsToAnalysis/PointsToAbstractValue.cs:16-22 | the seven singletons are well formed and carry their documented null states; `NoLocation` and `NullLocation` hold just their sentinel; a well-formed degenerate value is its kind's singleton |
| PointsToAnalysis.CreateFromLocation | src/Utilities/FlowAnalysis/Analysis/PointsToAnalysis/PointsToAbstractValue.cs:59-65 | a location that is not a sentinel gives `{location}`, `MaybeNull` exactly when `mayBeNull` holds and `NotNull` otherwise |
| PointsToAnalysis.CreateFromLValueCapture | src/Utilities/FlowAnalysis/Analysis/PointsToAnalysis/PointsToAbstractValue.cs:67-71 | one captured operation gives a well-formed capture value holding just that operation |
| PointsToAnalysis.CreateFromLocations | src/Utilities/FlowAnalysis/Analysis/PointsToAnalysis/PointsToAbstractValue.cs:73-91 | `{Null}` gives the `NullLocation` singleton and `{NoLocation}` gives the `NoLocation` singleton, whatever null state is passed; any other set keeps its locations and the given null state |
| PointsToAnalysis.CreateFromLValueCaptures | src/Utilities/FlowAnalysis/Analysis/PointsToAnalysis/PointsToAbstractValue.cs:93-97 | a non-empty capture set gives a well-formed capture value over that set |
| PointsToAnalysis.MakeNonNull | src/Utilities/FlowAnalysis/Analysis/PointsToAnalysis/PointsToAbstractValue.cs:99-124 | a `NotNull` value is returned unchanged; otherwise the result is `NotNull` over the locations minus the null location, or `UnknownNotNull` when none are left; the result is well formed |
| PointsToAnalysis.MakeNull | src/Utilities/FlowAnalysis/Analysis/PointsToAnalysis/PointsToAbstractValue.cs:126-141 | a `Null` value is returned unchanged; otherwise the locations are kept with `Null`, or `UnknownNull` is returned when there are none; the result is well formed |
| PointsToAnalysis.MayBeNullLocationsAreNonNull | src/Utilities/FlowAnalysis/Analysis/PointsToAnalysis/PointsToAbstractValue.cs:158 | the assertion before the last step of `MakeMayBeNull` always holds for a well-formed receiver |
| PointsToAnalysis.MakeMayBeNull | src/Utilities/FlowAnalysis/Analysis/PointsToAnalysis/PointsToAbstractValue.cs:143-160 | given a receiver that is not `Null`: a `MaybeNull` value is returned unchanged; otherwise the locations, none of them null, are kept with `MaybeNull`, or `Unknown` is returned when there are none; the result is well formed |
| PointsToAnalysis.MakeIdempotent | src/Utilities/FlowAnalysis/Analysis/PointsToAnalysis/PointsToAbstractValue.cs:99-160 | applying any of the three transformers twice gives the same result as applying it once |
| PointsToAnalysis.MakeNonNullUndoes | src/Utilities/FlowAnalysis/Analysis/PointsToAnalysis/PointsToAbstractValue.cs:99-160 | on a not-null value, `MakeNull` or `MakeMayBeNull` followed by `MakeNonNull` gives back the original value |
| PointsToAnalysis.CreateThenMakeNull | src/Utilities/FlowAnalysis/Analysis/PointsToAnalysis/PointsToAbstractValue.cs:126-141 | a created single-location value that is made null keeps its location and is `Null` |
| PointsToAnalysis.NullLocationMadeNonNull | src/Utilities/FlowAnalysis/Analysis/PointsToAnalysis/PointsToAbstractValue.cs:113-117 | making `NullLocation` non-null filters every location away, so the result is `UnknownNotNull` |
| PointsToAnalysis.ComputeHashCodeParts | src/Utilities/FlowAnalysis/Analysis/PointsToAnalysis/PointsToAbstractValue.cs:167-173 | the hash parts are, in order, the set hash of the locations, the set hash of the captures, the kind hash and the null-state hash |
| CopyAnalysis.NewCopyValue | src/Utilities/FlowAnalysis/Analysis/CopyAnalysis/CopyAbstractValue.cs:20-26 | given that the set is empty exactly when the kind is not `Known`, it builds a well-formed value with that set and kind |
| CopyAnalysis.FromKind | src/Utilities/FlowAnalysis/Analysis/CopyAnalysis/CopyAbstractValue.cs:28-32 | a kind other than `Known` gives a well-formed value with no entities |
| CopyAnalysis.FromEntity | src/Utilities/FlowAnalysis/Analysis/CopyAnalysis/CopyAbstractValue.cs:34-37 | one entity gives `Known` over `{entity}` |
| CopyAnalysis.FromEntities | src/Utilities/FlowAnalysis/Analysis/CopyAnalysis/CopyAbstractValue.cs:39-43 | a non-empty set gives `Known` over that set |
| CopyAnalysis.Singletons | src/Utilities/FlowAnalysis/Analysis/CopyAnalysis/CopyAbstractValue.cs:16-18 | `NotApplicable`, `Invalid` and `Unknown` are well formed, with no entities and their named kinds; every well-formed value without entities is one of them |
| CopyAnalysis.WithEntityRemoved | src/Utilities/FlowAnalysis/Analysis/CopyAnalysis/CopyAbstractValue.cs:45-52 | given a member, more than one entity and `Known`, the result is `Known` over the set minus that member, one entity smaller |
| CopyAnalysis.WithEntitiesRemoved | src/Utilities/FlowAnalysis/Analysis/CopyAnalysis/CopyAbstractValue.cs:54-61 | given members only, more than one entity, `Known`, and a non-empty remainder (the constructor's assertion), the result is `Known` over the set difference |
| CopyAnalysis.RemoveOneIsRemoveMany | src/Utilities/FlowAnalysis/Analysis/CopyAnalysis/CopyAbstractValue.cs:45-61 | removing one entity is the same as removing the one-element sequence of it |
| CopyAnalysis.RemovalsCompose | src/Utilities/FlowAnalysis/Analysis/CopyAnalysis/CopyAbstractValue.cs:54-61 | two removals in a row equal one removal of both sequences |
| CopyAnalysis.RemoveFromThree | src/Utilities/FlowAnalysis/Analysis/CopyAnalysis/CopyAbstractValue.cs:45-52 | removing `y` from `{x, y, z}` leaves `{x, z}` |
| CopyAnalysis.ComputeHashCodeParts | src/Utilities/FlowAnalysis/Analysis/CopyAnalysis/CopyAbstractValue.cs:66-70 | the hash parts are the set hash of the entities, then the kind hash |
| TaintedDataAnalysis.Singletons | src/Utilities/FlowAnalysis/Analysis/TaintedDataAnalysis/TaintedDataAbstractValue.cs:13-17 | the three singletons carry their named kinds and are pairwise distinct; every value is one of them |
| TaintedDataAnalysis.ComputeHashCode | src/Utilities/FlowAnalysis/Analysis/TaintedDataAnalysis/TaintedDataAbstractValue.cs:27-30 | the hash is the kind's hash |
| TaintedDataAnalysis.HashDeterminedByKind | src/Utilities/FlowAnalysis/Analysis/TaintedDataAnalysis/TaintedDataAbstractValue.cs:25-30 | values of one kind are one value and hash alike; with an injective kind hash, equal hashes mean equal values |
| TaintedDataAnalysis.NewSymbolAccessFromSyntaxNode | src/Utilities/FlowAnalysis/Analysis/TaintedDataAnalysis/SymbolAccess.cs:16-26 | it succeeds exactly when the symbol, node and accessing method are all non-null; otherwise it reports the first null one in that order; the location comes from the node |
| TaintedDataAnalysis.NewSymbolAccessFromLocation | src/Utilities/FlowAnalysis/Analysis/TaintedDataAnalysis/SymbolAccess.cs:28-33 | it succeeds exactly when the symbol, location and accessing method are all non-null, and then stores them unchanged; otherwise it reports the first null one in that order |
| TaintedDataAnalysis.LocationConstructorRoundTrip | src/Utilities/FlowAnalysis/Analysis/TaintedDataAnalysis/SymbolAccess.cs:28-48 | every access is rebuilt from its own three properties |
| TaintedDataAnalysis.SyntaxNodeConstructorUsesNodeLocation | src/Utilities/FlowAnalysis/Analysis/TaintedDataAnalysis/SymbolAccess.cs:16-33 | given a node, the syntax-node constructor equals the location constructor applied to the node's location; a missing node is reported as `syntaxNode`, not as `location` |
| TaintedDataAnalysis.HashCodeParts | src/Utilities/FlowAnalysis/Analysis/TaintedDataAnalysis/SymbolAccess.cs:50-55 | there are three parts: location, symbol, accessing method |
| TaintedDataAnalysis.HashCodePartsEqual | src/Utilities/FlowAnalysis/Analysis/TaintedDataAnalysis/SymbolAccess.cs:50-55 | two accesses have equal hash parts exactly when their locations, accessed symbols and accessing methods hash alike |
| TaintedDataAnalysis.HashCodePartsKeepRoles | src/Utilities/FlowAnalysis/Analysis/TaintedDataAnalysis/SymbolAccess.cs:53-54 | exchanging the accessed symbol and the accessing method exchanges the last two parts |
| DataFlow.CreateFromIndex | src/Utilities/FlowAnalysis/Framework/DataFlow/AbstractIndex.cs:11 | the result is the constant-value variant carrying the index |
| DataFlow.CreateFromEntity | src/Utilities/FlowAnalysis/Framework/DataFlow/AbstractIndex.cs:12 | the result is the entity-based variant carrying the entity |
| DataFlow.CreateFromOperation | src/Utilities/FlowAnalysis/Framework/DataFlow/AbstractIndex.cs:13 | the result is the operation-based variant carrying the operation |
| DataFlow.EveryIndexHasOneFactory | src/Utilities/FlowAnalysis/Framework/DataFlow/AbstractIndex.cs:9-14 | every index comes from the factory of its variant, applied to its payload, and no two factories produce the same index |
| DataFlow.FactoriesInjective | src/Utilities/FlowAnalysis/Framework/DataFlow/AbstractIndex.cs:11-13 | each factory gives equal indices exactly for equal arguments |
| DataFlow.NewArgumentInfo | src/Utilities/FlowAnalysis/Framework/DataFlow/ArgumentInfo.cs:14-24 | the constructor stores the operation, the optional entity, the instance location and the value unchanged |
| DataFlow.HashCodeParts | src/Utilities/FlowAnalysis/Framework/DataFlow/ArgumentInfo.cs:32-38 | there are four parts: operation, entity (0 when absent), instance location, value |
| DataFlow.AbsentEntityHashesAsZero | src/Utilities/FlowAnalysis/Framework/DataFlow/ArgumentInfo.cs:35 | an absent entity contributes part 0, so it has the same hash parts as an entity whose own hash is 0 |
| DataFlow.HashCodePartsEqual | src/Utilities/FlowAnalysis/Framework/DataFlow/ArgumentInfo.cs:32-38 | two arguments have equal hash parts exactly when their operations, entities (0 when absent), instance locations and values hash alike |

## Left out

- The merge operators, the fixed-point engine, the interprocedural coordinator and the result
  cache are not part of this model.
- The `CacheBasedEquatable` base classes are not part of this model: their final combination of
  the hash parts, and their lazy caching of it. Equality is the structural equality of Dafny
  datatypes.
- The concrete `GetHashCode` of symbols, locations, operations, syntax nodes, analysis entities
  and enums is left out. Each is an uninterpreted function parameter.
- The internals of `AbstractLocation` and `AnalysisEntity` are left out. `AbstractLocation`
  keeps only what the predicates `IsNull`, `IsNoLocation` and
  `IsAnalysisEntityDefaultLocation && HasUnknownInstanceLocation` need.
- The `GetHashCode` of an abstract index is left out, because its subclasses are defined outside
  the modelled files.
- `ArrayBuilder` pooling (`GetInstance`/`Free`) is left out; the builder is a local sequence.
  `ArrayBuilder.Sort` is an in-place sort of unseen code, so the model uses a functional
  ascending insertion sort on that sequence. Any correct sort gives the same sequence
  (`HashUtilities.SortedPermutationsEqual`).
- HashUtilities.CombineArrayWithKey, CombineStackWithKey, CombineSetWithKey and
  CombineDictionaryWithKey require the collection to hold at most `int.MaxValue` elements.
  That is the range of a .NET `Length` or `Count`, and the model does not describe larger
  collections.
- PointsToAnalysis.MakeNonNull: line 120 reuses the original set object when no location was
  filtered. The model does not capture that reference identity, because immutable sets are
  values here.
- PointsToAnalysis.CreateFromLocation also requires that the location not be an entity default
  with an unknown instance location. The factory asserts nothing about this, but the private
  constructor it calls does (line 30).
- CopyAnalysis.WithEntitiesRemoved requires that some entity be left. The method's own
  assertions allow removing every entity; the set constructor's assertion (line 42) forbids it.
- The singleton fields of `CopyAbstractValue` (lines 16-18) and of `PointsToAbstractValue`
  (lines 16-22) are `public static` but not `readonly`, so code could reassign them. The model
  treats them as constants.
- Null elements are left out. `element.GetHashCode()` (`HashUtilities.cs` lines 28, 42 and 58)
  throws `NullReferenceException` on a null element, and an immutable array, stack or hash set
  can hold one. The element hash is a total function `T -> int32`, so the model covers
  collections without null elements only.
- The unknown-instance flag is stored on each entity-default location
  (`EntityDefault(entity, entityHasUnknownInstanceLocation)`). In the source it is a property
  of the entity (`AnalysisEntityOpt.HasUnknownInstanceLocation`, line 30). So the model admits
  two default locations of one entity that disagree on the flag, which the source cannot
  build. Only the known-locations constructor's assertion reads the flag, and it reads it per
  location in both.
- Concurrency is left out: the values are immutable, and nothing in the modelled files shares
  mutable state.
- DataFlow.NewArgumentInfo takes a non-null operation, instance location and value. The
  constructor does not check them, but `ComputeHashCodeParts` calls `GetHashCode` on all three
  (lines 34, 36 and 37), so a null one would throw there.
- `SyntaxNode.GetLocation` is a function parameter of the syntax-node constructor of
  `SymbolAccess`.
