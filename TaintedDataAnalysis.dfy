/** Tainted-data analysis values: the three-state tainted-data abstract value
    (TaintedDataAbstractValue.cs) and the record of an access to a symbol (SymbolAccess.cs),
    which tracks where tainted data came from or where it went. */
module TaintedDataAnalysis {
  import opened Wrappers
  import opened HashUtilities
  import opened Entities

  datatype TaintedDataAbstractValueKind = Unknown | NotTainted | Tainted

  /** The constructor is private: the only values are the three singletons below. */
  datatype TaintedDataAbstractValue = TaintedDataAbstractValue(kind: TaintedDataAbstractValueKind)
  {
    static const Unknown: TaintedDataAbstractValue := TaintedDataAbstractValue(TaintedDataAbstractValueKind.Unknown)
    static const NotTainted: TaintedDataAbstractValue := TaintedDataAbstractValue(TaintedDataAbstractValueKind.NotTainted)
    static const Tainted: TaintedDataAbstractValue := TaintedDataAbstractValue(TaintedDataAbstractValueKind.Tainted)
  }

  /** Each singleton carries the kind it is named after, the three are pairwise distinct, and
      every value is one of them. */
  lemma Singletons(v: TaintedDataAbstractValue)
    ensures TaintedDataAbstractValue.Unknown.kind == TaintedDataAbstractValueKind.Unknown
    ensures TaintedDataAbstractValue.NotTainted.kind == TaintedDataAbstractValueKind.NotTainted
    ensures TaintedDataAbstractValue.Tainted.kind == TaintedDataAbstractValueKind.Tainted
    ensures TaintedDataAbstractValue.Unknown != TaintedDataAbstractValue.NotTainted
    ensures TaintedDataAbstractValue.NotTainted != TaintedDataAbstractValue.Tainted
    ensures TaintedDataAbstractValue.Unknown != TaintedDataAbstractValue.Tainted
    ensures v == TaintedDataAbstractValue.Unknown || v == TaintedDataAbstractValue.NotTainted || v == TaintedDataAbstractValue.Tainted
  {
  }

  /** `ComputeHashCode`: the hash of the value is the hash of its kind. */
  function ComputeHashCode(v: TaintedDataAbstractValue, kindHash: TaintedDataAbstractValueKind -> int32): (r: int32)
    ensures r == kindHash(v.kind)
  {
    kindHash(v.kind)
  }

  /** Values of the same kind are the same value and hash alike; with an injective kind hash,
      equal hashes mean equal values. */
  lemma HashDeterminedByKind(v: TaintedDataAbstractValue, w: TaintedDataAbstractValue, kindHash: TaintedDataAbstractValueKind -> int32)
    ensures v.kind == w.kind ==> v == w && ComputeHashCode(v, kindHash) == ComputeHashCode(w, kindHash)
    ensures (forall k1, k2 :: kindHash(k1) == kindHash(k2) ==> k1 == k2) ==>
      (ComputeHashCode(v, kindHash) == ComputeHashCode(w, kindHash) <==> v == w)
  {
  }

  /** An access to `symbol` at `location`, performed by code in `accessingMethod`.
      A value of this type exists only with all three parts present. */
  datatype SymbolAccess = SymbolAccess(symbol: Symbol, location: SourceLocation, accessingMethod: Symbol)

  /** The constructor taking a syntax node: it rejects a null symbol, syntax node or accessing
      method, in that order, and takes the location from the syntax node. */
  function NewSymbolAccessFromSyntaxNode(symbol: Option<Symbol>, syntaxNode: Option<SyntaxNode>, accessingMethod: Option<Symbol>,
                                         getLocation: SyntaxNode -> SourceLocation): (r: Result<SymbolAccess, string>)
    ensures r.Ok? <==> symbol.Some? && syntaxNode.Some? && accessingMethod.Some?
    ensures symbol.None? ==> r == Err("symbol")
    ensures symbol.Some? && syntaxNode.None? ==> r == Err("syntaxNode")
    ensures symbol.Some? && syntaxNode.Some? && accessingMethod.None? ==> r == Err("accessingMethod")
    ensures r.Ok? ==> r.value.symbol == symbol.value && r.value.location == getLocation(syntaxNode.value)
                      && r.value.accessingMethod == accessingMethod.value
  {
    match symbol
    case None => Err("symbol")
    case Some(s) =>
      match syntaxNode
      case None => Err("syntaxNode")
      case Some(node) =>
        var location := getLocation(node);
        match accessingMethod
        case None => Err("accessingMethod")
        case Some(m) => Ok(SymbolAccess(s, location, m))
  }

  /** The constructor taking a location: it rejects a null symbol, location or accessing
      method, in that order, and stores the three unchanged. */
  function NewSymbolAccessFromLocation(symbol: Option<Symbol>, location: Option<SourceLocation>, accessingMethod: Option<Symbol>): (r: Result<SymbolAccess, string>)
    ensures r.Ok? <==> symbol.Some? && location.Some? && accessingMethod.Some?
    ensures symbol.None? ==> r == Err("symbol")
    ensures symbol.Some? && location.None? ==> r == Err("location")
    ensures symbol.Some? && location.Some? && accessingMethod.None? ==> r == Err("accessingMethod")
    ensures r.Ok? ==> r.value.symbol == symbol.value && r.value.location == location.value
                      && r.value.accessingMethod == accessingMethod.value
  {
    match symbol
    case None => Err("symbol")
    case Some(s) =>
      match location
      case None => Err("location")
      case Some(l) =>
        match accessingMethod
        case None => Err("accessingMethod")
        case Some(m) => Ok(SymbolAccess(s, l, m))
  }

  /** Every access is rebuilt from its own parts by the location constructor. */
  lemma LocationConstructorRoundTrip(a: SymbolAccess)
    ensures NewSymbolAccessFromLocation(Some(a.symbol), Some(a.location), Some(a.accessingMethod)) == Ok(a)
  {
  }

  /** The syntax-node constructor is the location constructor applied to the node's location;
      only the name reported for a missing node differs. */
  lemma SyntaxNodeConstructorUsesNodeLocation(symbol: Option<Symbol>, syntaxNode: Option<SyntaxNode>, accessingMethod: Option<Symbol>,
                                              getLocation: SyntaxNode -> SourceLocation)
    ensures syntaxNode.Some? ==>
      NewSymbolAccessFromSyntaxNode(symbol, syntaxNode, accessingMethod, getLocation)
        == NewSymbolAccessFromLocation(symbol, Some(getLocation(syntaxNode.value)), accessingMethod)
    ensures syntaxNode.None? && symbol.Some? ==>
      NewSymbolAccessFromSyntaxNode(symbol, syntaxNode, accessingMethod, getLocation) == Err("syntaxNode")
      && NewSymbolAccessFromLocation(symbol, None, accessingMethod) == Err("location")
  {
  }

  /** `ComputeHashCodeParts`: location, then symbol, then accessing method. */
  function HashCodeParts(a: SymbolAccess, locationHash: SourceLocation -> int32, symbolHash: Symbol -> int32): (parts: seq<int32>)
    ensures |parts| == 3
    ensures parts[0] == locationHash(a.location)
    ensures parts[1] == symbolHash(a.symbol) && parts[2] == symbolHash(a.accessingMethod)
  {
    [locationHash(a.location), symbolHash(a.symbol), symbolHash(a.accessingMethod)]
  }

  /** Two accesses have equal hash parts exactly when their locations, their accessed symbols
      and their accessing methods hash alike, part by part. */
  lemma HashCodePartsEqual(a: SymbolAccess, b: SymbolAccess, locationHash: SourceLocation -> int32, symbolHash: Symbol -> int32)
    ensures (HashCodeParts(a, locationHash, symbolHash) == HashCodeParts(b, locationHash, symbolHash)) <==>
      && locationHash(a.location) == locationHash(b.location)
      && symbolHash(a.symbol) == symbolHash(b.symbol)
      && symbolHash(a.accessingMethod) == symbolHash(b.accessingMethod)
  {
    var pa, pb := HashCodeParts(a, locationHash, symbolHash), HashCodeParts(b, locationHash, symbolHash);
    if pa == pb {
      assert pa[0] == pb[0] && pa[1] == pb[1] && pa[2] == pb[2];
    }
  }

  /** Exchanging the accessed symbol and the accessing method exchanges the last two parts:
      the part order keeps the two roles apart. */
  lemma HashCodePartsKeepRoles(a: SymbolAccess, locationHash: SourceLocation -> int32, symbolHash: Symbol -> int32)
    ensures var swapped := SymbolAccess(a.accessingMethod, a.location, a.symbol);
      var p := HashCodeParts(a, locationHash, symbolHash);
      HashCodeParts(swapped, locationHash, symbolHash) == [p[0], p[2], p[1]]
  {
  }
}
