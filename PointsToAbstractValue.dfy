/** Points-to abstract values (PointsToAbstractValue.cs): the set of abstract locations an
    entity or operation may point to, or the set of operations captured as l-values, together
    with a kind and a null state. Values are immutable; the three private constructors become
    functions whose preconditions are the constructors' debug assertions, and every factory and
    transformer is proved to produce a value satisfying the invariant `Valid`. */
module PointsToAnalysis {
  import opened HashUtilities
  import opened Entities

  datatype PointsToAbstractValueKind =
    | Undefined
    | Invalid
    | Unknown
    | UnknownNull
    | UnknownNotNull
    | KnownLocations
    | KnownLValueCaptures

  /** The null state of a value (`NullAbstractValue`). */
  datatype NullAbstractValue = Undefined | Invalid | Null | NotNull | MaybeNull

  predicate IsDegenerate(kind: PointsToAbstractValueKind)
  {
    kind != PointsToAbstractValueKind.KnownLocations && kind != PointsToAbstractValueKind.KnownLValueCaptures
  }

  /** The null state that the five degenerate singletons pair with their kind. */
  function DegenerateNullState(kind: PointsToAbstractValueKind): NullAbstractValue
    requires IsDegenerate(kind)
  {
    match kind
    case Undefined => NullAbstractValue.Undefined
    case Invalid => NullAbstractValue.Invalid
    case Unknown => NullAbstractValue.MaybeNull
    case UnknownNull => NullAbstractValue.Null
    case UnknownNotNull => NullAbstractValue.NotNull
  }

  /** What the known-locations constructor asserts of its arguments. */
  predicate KnownLocationsAllowed(locations: set<AbstractLocation>, nullState: NullAbstractValue)
  {
    && locations != {}
    && (nullState == NullAbstractValue.NotNull ==> forall l :: l in locations ==> !l.IsNull())
    && nullState != NullAbstractValue.Undefined
    && nullState != NullAbstractValue.Invalid
    && forall l :: l in locations ==> !l.IsDefaultWithUnknownInstance()
  }

  datatype PointsToAbstractValue = PointsToAbstractValue(
    locations: set<AbstractLocation>,
    lValueCapturedOperations: set<Operation>,
    kind: PointsToAbstractValueKind,
    nullState: NullAbstractValue)
  {
    /** The invariant of every value the constructors can build. */
    predicate Valid()
    {
      match kind
      case KnownLocations =>
        KnownLocationsAllowed(locations, nullState) && lValueCapturedOperations == {}
      case KnownLValueCaptures =>
        lValueCapturedOperations != {} && locations == {} && nullState == NullAbstractValue.NotNull
      case _ =>
        locations == {} && lValueCapturedOperations == {} && nullState == DegenerateNullState(kind)
    }

    static const Undefined: PointsToAbstractValue :=
      NewDegenerate(PointsToAbstractValueKind.Undefined, NullAbstractValue.Undefined)
    static const Invalid: PointsToAbstractValue :=
      NewDegenerate(PointsToAbstractValueKind.Invalid, NullAbstractValue.Invalid)
    static const Unknown: PointsToAbstractValue :=
      NewDegenerate(PointsToAbstractValueKind.Unknown, NullAbstractValue.MaybeNull)
    static const UnknownNull: PointsToAbstractValue :=
      NewDegenerate(PointsToAbstractValueKind.UnknownNull, NullAbstractValue.Null)
    static const UnknownNotNull: PointsToAbstractValue :=
      NewDegenerate(PointsToAbstractValueKind.UnknownNotNull, NullAbstractValue.NotNull)
    static const NoLocation: PointsToAbstractValue :=
      NewKnownLocations({AbstractLocation.NoLocation}, NullAbstractValue.NotNull)
    static const NullLocation: PointsToAbstractValue :=
      NewKnownLocations({AbstractLocation.Null}, NullAbstractValue.Null)
  }

  /** The private constructor over a location set. */
  function NewKnownLocations(locations: set<AbstractLocation>, nullState: NullAbstractValue): (v: PointsToAbstractValue)
    requires KnownLocationsAllowed(locations, nullState)
    ensures v.Valid()
    ensures v.kind == PointsToAbstractValueKind.KnownLocations
    ensures v.locations == locations && v.lValueCapturedOperations == {} && v.nullState == nullState
  {
    PointsToAbstractValue(locations, {}, PointsToAbstractValueKind.KnownLocations, nullState)
  }

  /** The private constructor over a set of l-value captured operations. */
  function NewKnownLValueCaptures(lValueCapturedOperations: set<Operation>): (v: PointsToAbstractValue)
    requires lValueCapturedOperations != {}
    ensures v.Valid()
    ensures v.kind == PointsToAbstractValueKind.KnownLValueCaptures
    ensures v.lValueCapturedOperations == lValueCapturedOperations && v.locations == {}
    ensures v.nullState == NullAbstractValue.NotNull
  {
    PointsToAbstractValue({}, lValueCapturedOperations, PointsToAbstractValueKind.KnownLValueCaptures, NullAbstractValue.NotNull)
  }

  /** The private constructor for the degenerate kinds. It accepts any null state; the value
      is well formed exactly when the null state is the one its singleton uses. */
  function NewDegenerate(kind: PointsToAbstractValueKind, nullState: NullAbstractValue): (v: PointsToAbstractValue)
    requires IsDegenerate(kind)
    ensures v.kind == kind && v.nullState == nullState
    ensures v.locations == {} && v.lValueCapturedOperations == {}
    ensures v.Valid() <==> nullState == DegenerateNullState(kind)
  {
    PointsToAbstractValue({}, {}, kind, nullState)
  }

  /** The seven singletons are well formed and carry the documented sets and null states;
      every well-formed value of a degenerate kind is that kind's singleton. */
  lemma Singletons(v: PointsToAbstractValue)
    ensures PointsToAbstractValue.Undefined.Valid() && PointsToAbstractValue.Undefined.nullState == NullAbstractValue.Undefined
    ensures PointsToAbstractValue.Invalid.Valid() && PointsToAbstractValue.Invalid.nullState == NullAbstractValue.Invalid
    ensures PointsToAbstractValue.Unknown.Valid() && PointsToAbstractValue.Unknown.nullState == NullAbstractValue.MaybeNull
    ensures PointsToAbstractValue.UnknownNull.Valid() && PointsToAbstractValue.UnknownNull.nullState == NullAbstractValue.Null
    ensures PointsToAbstractValue.UnknownNotNull.Valid() && PointsToAbstractValue.UnknownNotNull.nullState == NullAbstractValue.NotNull
    ensures PointsToAbstractValue.NoLocation.Valid() && PointsToAbstractValue.NoLocation.locations == {AbstractLocation.NoLocation}
    ensures PointsToAbstractValue.NoLocation.nullState == NullAbstractValue.NotNull
    ensures PointsToAbstractValue.NullLocation.Valid() && PointsToAbstractValue.NullLocation.locations == {AbstractLocation.Null}
    ensures PointsToAbstractValue.NullLocation.nullState == NullAbstractValue.Null
    ensures v.Valid() && IsDegenerate(v.kind) ==> v == NewDegenerate(v.kind, DegenerateNullState(v.kind))
  {
  }

  /** `Create(AbstractLocation, bool)`: a single non-sentinel location. */
  function CreateFromLocation(location: AbstractLocation, mayBeNull: bool): (v: PointsToAbstractValue)
    requires !location.IsNull() && !location.IsNoLocation()
    requires !location.IsDefaultWithUnknownInstance()
    ensures v.Valid()
    ensures v.kind == PointsToAbstractValueKind.KnownLocations && v.locations == {location}
    ensures v.nullState == NullAbstractValue.MaybeNull <==> mayBeNull
    ensures v.nullState == NullAbstractValue.NotNull <==> !mayBeNull
  {
    NewKnownLocations({location}, if mayBeNull then NullAbstractValue.MaybeNull else NullAbstractValue.NotNull)
  }

  /** `Create(IOperation)`: a single l-value captured operation. */
  function CreateFromLValueCapture(lValueCapturedOperation: Operation): (v: PointsToAbstractValue)
    ensures v.Valid()
    ensures v.kind == PointsToAbstractValueKind.KnownLValueCaptures
    ensures v.lValueCapturedOperations == {lValueCapturedOperation} && v.locations == {}
  {
    NewKnownLValueCaptures({lValueCapturedOperation})
  }

  predicate IsSentinelSingleton(locations: set<AbstractLocation>)
  {
    locations == {AbstractLocation.Null} || locations == {AbstractLocation.NoLocation}
  }

  /** `Create(ImmutableHashSet<AbstractLocation>, NullAbstractValue)`: a one-element set holding
      a sentinel yields that sentinel's singleton, whatever null state is passed. */
  function CreateFromLocations(locations: set<AbstractLocation>, nullState: NullAbstractValue): (v: PointsToAbstractValue)
    requires locations != {}
    requires IsSentinelSingleton(locations) || KnownLocationsAllowed(locations, nullState)
    ensures v.Valid()
    ensures v.kind == PointsToAbstractValueKind.KnownLocations && v.locations == locations
    ensures locations == {AbstractLocation.Null} ==> v == PointsToAbstractValue.NullLocation
    ensures locations == {AbstractLocation.NoLocation} ==> v == PointsToAbstractValue.NoLocation
    ensures !IsSentinelSingleton(locations) ==> v.nullState == nullState
  {
    if locations == {AbstractLocation.Null} then PointsToAbstractValue.NullLocation
    else if locations == {AbstractLocation.NoLocation} then PointsToAbstractValue.NoLocation
    else NewKnownLocations(locations, nullState)
  }

  /** `Create(ImmutableHashSet<IOperation>)`: a non-empty set of l-value captured operations. */
  function CreateFromLValueCaptures(lValueCapturedOperations: set<Operation>): (v: PointsToAbstractValue)
    requires lValueCapturedOperations != {}
    ensures v.Valid()
    ensures v.kind == PointsToAbstractValueKind.KnownLValueCaptures
    ensures v.lValueCapturedOperations == lValueCapturedOperations && v.locations == {}
    ensures v.nullState == NullAbstractValue.NotNull
  {
    NewKnownLValueCaptures(lValueCapturedOperations)
  }

  /** The locations other than the null location (the filter in `MakeNonNull`). */
  function NonNullLocations(locations: set<AbstractLocation>): set<AbstractLocation>
  {
    set l | l in locations && !l.IsNull()
  }

  /** `MakeNonNull`: drop the null location and mark the value not null. */
  function MakeNonNull(v: PointsToAbstractValue): (r: PointsToAbstractValue)
    requires v.Valid() && v.kind != PointsToAbstractValueKind.KnownLValueCaptures
    ensures r.Valid() && r.kind != PointsToAbstractValueKind.KnownLValueCaptures
    ensures r.nullState == NullAbstractValue.NotNull
    ensures v.nullState == NullAbstractValue.NotNull ==> r == v
    ensures v.nullState != NullAbstractValue.NotNull ==> r.locations == NonNullLocations(v.locations)
    ensures v.nullState != NullAbstractValue.NotNull && NonNullLocations(v.locations) == {} ==> r == PointsToAbstractValue.UnknownNotNull
    ensures v.nullState != NullAbstractValue.NotNull && NonNullLocations(v.locations) != {} ==> r.kind == PointsToAbstractValueKind.KnownLocations
  {
    if v.nullState == NullAbstractValue.NotNull then v
    else if v.locations == {} then PointsToAbstractValue.UnknownNotNull
    else
      var locations := NonNullLocations(v.locations);
      if locations == {} then PointsToAbstractValue.UnknownNotNull
      else NewKnownLocations(locations, NullAbstractValue.NotNull)
  }

  /** `MakeNull`: keep the locations and mark the value null. */
  function MakeNull(v: PointsToAbstractValue): (r: PointsToAbstractValue)
    requires v.Valid() && v.kind != PointsToAbstractValueKind.KnownLValueCaptures
    ensures r.Valid() && r.kind != PointsToAbstractValueKind.KnownLValueCaptures
    ensures r.nullState == NullAbstractValue.Null
    ensures v.nullState == NullAbstractValue.Null ==> r == v
    ensures v.nullState != NullAbstractValue.Null && v.locations == {} ==> r == PointsToAbstractValue.UnknownNull
    ensures v.nullState != NullAbstractValue.Null && v.locations != {} ==> r.kind == PointsToAbstractValueKind.KnownLocations
    ensures r.locations == v.locations
  {
    if v.nullState == NullAbstractValue.Null then v
    else if v.locations == {} then PointsToAbstractValue.UnknownNull
    else NewKnownLocations(v.locations, NullAbstractValue.Null)
  }

  /** The assertion before the last step of `MakeMayBeNull`: a value that is neither null nor
      maybe-null and has locations holds no null location. */
  lemma MayBeNullLocationsAreNonNull(v: PointsToAbstractValue)
    requires v.Valid() && v.kind != PointsToAbstractValueKind.KnownLValueCaptures
    requires v.nullState != NullAbstractValue.Null && v.nullState != NullAbstractValue.MaybeNull
    requires v.locations != {}
    ensures v.nullState == NullAbstractValue.NotNull
    ensures forall l :: l in v.locations ==> !l.IsNull()
  {
  }

  /** `MakeMayBeNull`: keep the locations and mark the value maybe-null. */
  function MakeMayBeNull(v: PointsToAbstractValue): (r: PointsToAbstractValue)
    requires v.Valid() && v.kind != PointsToAbstractValueKind.KnownLValueCaptures
    requires v.nullState != NullAbstractValue.Null
    ensures r.Valid() && r.kind != PointsToAbstractValueKind.KnownLValueCaptures
    ensures r.nullState == NullAbstractValue.MaybeNull
    ensures v.nullState == NullAbstractValue.MaybeNull ==> r == v
    ensures v.nullState != NullAbstractValue.MaybeNull && v.locations == {} ==> r == PointsToAbstractValue.Unknown
    ensures v.nullState != NullAbstractValue.MaybeNull && v.locations != {} ==> r.kind == PointsToAbstractValueKind.KnownLocations
    ensures r.locations == v.locations
    ensures v.nullState != NullAbstractValue.MaybeNull ==> forall l :: l in r.locations ==> !l.IsNull()
  {
    if v.nullState == NullAbstractValue.MaybeNull then v
    else if v.locations == {} then PointsToAbstractValue.Unknown
    else
      MayBeNullLocationsAreNonNull(v);
      NewKnownLocations(v.locations, NullAbstractValue.MaybeNull)
  }

  /** Each transformer is idempotent. */
  lemma MakeIdempotent(v: PointsToAbstractValue)
    requires v.Valid() && v.kind != PointsToAbstractValueKind.KnownLValueCaptures
    ensures MakeNonNull(MakeNonNull(v)) == MakeNonNull(v)
    ensures MakeNull(MakeNull(v)) == MakeNull(v)
    ensures v.nullState != NullAbstractValue.Null ==> MakeMayBeNull(MakeMayBeNull(v)) == MakeMayBeNull(v)
  {
  }

  /** On a not-null value, making it null or maybe-null and then not null again gives back
      the original value. */
  lemma MakeNonNullUndoes(v: PointsToAbstractValue)
    requires v.Valid() && v.kind != PointsToAbstractValueKind.KnownLValueCaptures
    requires v.nullState == NullAbstractValue.NotNull
    ensures MakeNonNull(MakeNull(v)) == v
    ensures MakeNonNull(MakeMayBeNull(v)) == v
  {
    assert NonNullLocations(v.locations) == v.locations;
  }

  /** A single allocated location that is then made null keeps its location and is null. */
  lemma CreateThenMakeNull(location: AbstractLocation)
    requires !location.IsNull() && !location.IsNoLocation() && !location.IsDefaultWithUnknownInstance()
    ensures var r := MakeNull(CreateFromLocation(location, false));
      r.nullState == NullAbstractValue.Null && r.locations == {location} &&
      r.kind == PointsToAbstractValueKind.KnownLocations
  {
  }

  /** Making the null-location singleton not null leaves no location: the result is
      `UnknownNotNull`. */
  lemma NullLocationMadeNonNull()
    ensures MakeNonNull(PointsToAbstractValue.NullLocation) == PointsToAbstractValue.UnknownNotNull
  {
    assert NonNullLocations({AbstractLocation.Null}) == {};
  }

  /** `ComputeHashCodeParts`: the set hash of the locations, the set hash of the captured
      operations, the kind's hash and the null state's hash, in that order. */
  method ComputeHashCodeParts(
    v: PointsToAbstractValue,
    locationHash: AbstractLocation -> int32,
    operationHash: Operation -> int32,
    kindHash: PointsToAbstractValueKind -> int32,
    nullStateHash: NullAbstractValue -> int32)
    returns (parts: seq<int32>)
    requires |v.locations| <= MaxInt32 && |v.lValueCapturedOperations| <= MaxInt32
    ensures parts == [
      SetHash(v.locations, locationHash, 0),
      SetHash(v.lValueCapturedOperations, operationHash, 0),
      kindHash(v.kind),
      nullStateHash(v.nullState)]
  {
    var locationsHash := CombineSet(v.locations, locationHash);
    var capturesHash := CombineSet(v.lValueCapturedOperations, operationHash);
    parts := [locationsHash, capturesHash, kindHash(v.kind), nullStateHash(v.nullState)];
  }
}
