/** Hash-combining helpers (HashUtilities.cs): one wrap-around combining step, folds of it
    over sequences and stacks, and sort-then-fold combines for sets and dictionaries whose
    result does not depend on the order in which the collection is enumerated. */
module HashUtilities {
  import opened Wrappers

  const TwoTo32: int := 0x1_0000_0000
  const MaxInt32: int := 0x7FFF_FFFF

  /** A .NET `int`: a signed 32-bit integer. */
  newtype int32 = x: int | -0x8000_0000 <= x < 0x8000_0000

  /** The signed 32-bit value with the same low 32 bits as `x` (unchecked arithmetic). */
  function Wrap(x: int): (r: int32)
    ensures (r as int - x) % TwoTo32 == 0
    ensures -0x8000_0000 <= x < 0x8000_0000 ==> r as int == x
  {
    var m := x % TwoTo32;
    if m < 0x8000_0000 then m as int32 else (m - TwoTo32) as int32
  }

  /** Two int32 values that agree modulo 2^32 are equal. */
  lemma Int32Congruent(a: int32, b: int32)
    requires (a as int - b as int) % TwoTo32 == 0
    ensures a == b
  {
    var d := a as int - b as int;
    assert d == (d / TwoTo32) * TwoTo32;
  }

  /** `GetHashCodeOrDefault`: 0 for a null reference, the object's own hash otherwise. */
  function GetHashCodeOrDefault<T>(objectOpt: Option<T>, hash: T -> int32): (r: int32)
    ensures objectOpt.None? ==> r == 0
    ensures objectOpt.Some? ==> r == hash(objectOpt.value)
  {
    match objectOpt
    case None => 0
    case Some(o) => hash(o)
  }

  /** `Combine(newKey, currentKey)`: `currentKey * 0xA5555529 + newKey` in unchecked 32-bit
      arithmetic. The body multiplies by `(int)0xA5555529`, which is -1521134295; the
      contract states the result against the unsigned constant as written in the source. */
  function Combine(newKey: int32, currentKey: int32): (r: int32)
    ensures (r as int - (currentKey as int * 0xA5555529 + newKey as int)) % TwoTo32 == 0
  {
    var x := currentKey as int * -1521134295 + newKey as int;
    var r := Wrap(x);
    CongruenceShift(r as int, x, currentKey as int);
    r
  }

  /** Congruence modulo 2^32 is kept when a multiple of 2^32 is added. */
  lemma CongruenceShift(r: int, x: int, k: int)
    requires (r - x) % TwoTo32 == 0
    ensures (r - (x + k * TwoTo32)) % TwoTo32 == 0
  {
    var q := (r - x) / TwoTo32;
    assert r - x == q * TwoTo32;
    assert r - (x + k * TwoTo32) == (q - k) * TwoTo32;
  }

  /** A combining step never merges two different new keys. */
  lemma CombineInjectiveInNewKey(n1: int32, n2: int32, currentKey: int32)
    requires Combine(n1, currentKey) == Combine(n2, currentKey)
    ensures n1 == n2
  {
    var c := currentKey as int * 0xA5555529;
    var r := Combine(n1, currentKey) as int;
    var a := (r - (c + n1 as int)) / TwoTo32;
    var b := (r - (c + n2 as int)) / TwoTo32;
    assert r - (c + n1 as int) == a * TwoTo32;
    assert r - (c + n2 as int) == b * TwoTo32;
    assert (n1 as int - n2 as int) == (b - a) * TwoTo32;
  }

  lemma MultipleOfTwoTo32(x: int)
    requires x % TwoTo32 == 0
    ensures x == (x / TwoTo32) * TwoTo32
  {
  }

  /** Multiplying by 0xA5555529 is invertible modulo 2^32: 207886105 is its inverse. */
  lemma OddMultiplierCancels(d: int, q: int)
    requires -TwoTo32 < d < TwoTo32
    requires d * 0xA5555529 == q * TwoTo32
    ensures d == 0
  {
    assert 0xA5555529 * 207886105 == 1 + 134259774 * TwoTo32;
    assert d * 0xA5555529 * 207886105 == d + d * 134259774 * TwoTo32;
    assert d == (q * 207886105 - d * 134259774) * TwoTo32;
  }

  /** A combining step never merges two different accumulated keys. */
  lemma CombineInjectiveInCurrentKey(newKey: int32, c1: int32, c2: int32)
    requires Combine(newKey, c1) == Combine(newKey, c2)
    ensures c1 == c2
  {
    var r := Combine(newKey, c1) as int;
    var x1 := r - (c1 as int * 0xA5555529 + newKey as int);
    var x2 := r - (c2 as int * 0xA5555529 + newKey as int);
    MultipleOfTwoTo32(x1);
    MultipleOfTwoTo32(x2);
    OddMultiplierCancels(c1 as int - c2 as int, x2 / TwoTo32 - x1 / TwoTo32);
  }

  /** Folds `hashCode = Combine(h, hashCode)` over `hashes`, left to right, from `seed`. */
  function CombineAll(hashes: seq<int32>, seed: int32): int32
  {
    if |hashes| == 0 then seed
    else Combine(hashes[|hashes| - 1], CombineAll(hashes[..|hashes| - 1], seed))
  }

  /** Folding a concatenation folds the second part from the hash of the first. */
  lemma {:induction false} CombineAllAppend(a: seq<int32>, b: seq<int32>, seed: int32)
    ensures CombineAll(a + b, seed) == CombineAll(b, CombineAll(a, seed))
  {
    if |b| == 0 {
      assert a + b == a;
    } else {
      var b' := b[..|b| - 1];
      assert (a + b)[..|a + b| - 1] == a + b';
      CombineAllAppend(a, b', seed);
    }
  }

  /** For a fixed sequence of element hashes, different seeds give different results. */
  lemma {:induction false} CombineAllInjectiveInSeed(hashes: seq<int32>, s1: int32, s2: int32)
    requires CombineAll(hashes, s1) == CombineAll(hashes, s2)
    ensures s1 == s2
  {
    if |hashes| > 0 {
      var init := hashes[..|hashes| - 1];
      CombineInjectiveInCurrentKey(hashes[|hashes| - 1], CombineAll(init, s1), CombineAll(init, s2));
      CombineAllInjectiveInSeed(init, s1, s2);
    }
  }

  /** The hash of every element, in order (`element.GetHashCode()` is the parameter `hash`). */
  function HashAll<T>(xs: seq<T>, hash: T -> int32): (r: seq<int32>)
    ensures |r| == |xs|
    ensures forall i :: 0 <= i < |r| ==> r[i] == hash(xs[i])
  {
    if |xs| == 0 then [] else [hash(xs[0])] + HashAll(xs[1..], hash)
  }

  lemma {:induction false} HashAllAppend<T>(a: seq<T>, b: seq<T>, hash: T -> int32)
    ensures HashAll(a + b, hash) == HashAll(a, hash) + HashAll(b, hash)
  {
    if |a| == 0 {
      assert a + b == b;
    } else {
      assert (a + b)[1..] == a[1..] + b;
      HashAllAppend(a[1..], b, hash);
    }
  }

  /** Hashing an int32 is the identity (`int.GetHashCode()` returns the value itself). */
  lemma {:induction false} HashAllIdentity(xs: seq<int32>)
    ensures HashAll(xs, x => x) == xs
  {
    if |xs| > 0 {
      HashAllIdentity(xs[1..]);
    }
  }

  /** A sequence is its prefix before `j`, its element `j` and its suffix after `j`. */
  lemma SplitAround<T>(b: seq<T>, j: nat)
    requires j < |b|
    ensures b == b[..j] + ([b[j]] + b[j + 1..])
  {
  }

  /** Removing element `j` removes one occurrence of it from the multiset. */
  lemma MultisetRemoveAt<T>(b: seq<T>, j: nat)
    requires j < |b|
    ensures multiset(b[..j] + b[j + 1..]) == multiset(b) - multiset{b[j]}
  {
    SplitAround(b, j);
  }

  /** Two permutations of each other, with the first non-empty: some position of the second
      holds the first's head, and the rest of both are again permutations of each other. */
  lemma MatchHead<T>(a: seq<T>, b: seq<T>) returns (j: nat)
    requires multiset(a) == multiset(b) && |a| > 0
    ensures j < |b| && b[j] == a[0]
    ensures multiset(a[1..]) == multiset(b[..j] + b[j + 1..])
  {
    assert a[0] in multiset(b);
    j :| 0 <= j < |b| && b[j] == a[0];
    assert a == [a[0]] + a[1..];
    MultisetRemoveAt(b, j);
  }

  /** The hashes of a sequence with a first element. */
  lemma HashAllCons<T>(x: T, xs: seq<T>, hash: T -> int32)
    ensures HashAll([x] + xs, hash) == [hash(x)] + HashAll(xs, hash)
  {
    assert ([x] + xs)[1..] == xs;
  }

  /** The hashes of `b` split around its element `j`. */
  lemma HashAllSplitAt<T>(b: seq<T>, j: nat, hash: T -> int32)
    requires j < |b|
    ensures HashAll(b, hash) == HashAll(b[..j], hash) + ([hash(b[j])] + HashAll(b[j + 1..], hash))
  {
    SplitAround(b, j);
    HashAllAppend(b[..j], [b[j]] + b[j + 1..], hash);
    HashAllCons(b[j], b[j + 1..], hash);
  }

  /** Moving one element of `p + ([x] + q)` to the front keeps the multiset. */
  lemma MultisetMoveToFront(p: seq<int32>, x: int32, q: seq<int32>)
    ensures multiset(p + ([x] + q)) == multiset{x} + multiset(p + q)
  {
  }

  /** The hashes of `b` are those of `b` without its element `j`, plus that element's hash. */
  lemma HashAllRemoveAt<T>(b: seq<T>, j: nat, hash: T -> int32)
    requires j < |b|
    ensures multiset(HashAll(b, hash)) == multiset{hash(b[j])} + multiset(HashAll(b[..j] + b[j + 1..], hash))
  {
    HashAllSplitAt(b, j, hash);
    HashAllAppend(b[..j], b[j + 1..], hash);
    MultisetMoveToFront(HashAll(b[..j], hash), hash(b[j]), HashAll(b[j + 1..], hash));
  }

  /** Permuting the elements permutes their hashes. */
  lemma {:induction false} HashAllPermutation<T>(a: seq<T>, b: seq<T>, hash: T -> int32)
    requires multiset(a) == multiset(b)
    ensures multiset(HashAll(a, hash)) == multiset(HashAll(b, hash))
  {
    if |a| == 0 {
      assert |b| == |multiset(b)| == 0;
    } else {
      var j := MatchHead(a, b);
      HashAllPermutation(a[1..], b[..j] + b[j + 1..], hash);
      HashAllRemoveAt(b, j, hash);
    }
  }

  /** One more element of the enumeration is one more combining step. */
  lemma HashAllStepsForward<T>(xs: seq<T>, i: nat, hash: T -> int32)
    requires i < |xs|
    ensures forall seed :: CombineAll(HashAll(xs[..i + 1], hash), seed) == Combine(hash(xs[i]), CombineAll(HashAll(xs[..i], hash), seed))
  {
    assert xs[..i + 1] == xs[..i] + [xs[i]];
    HashAllAppend(xs[..i], [xs[i]], hash);
    var h := HashAll(xs[..i + 1], hash);
    assert h[..|h| - 1] == HashAll(xs[..i], hash);
  }

  /** `Combine(sequence, length, currentKey)`: start from `Combine(length, currentKey)` and fold
      every element's hash in enumeration order. `length` is a separate argument and need not
      be the number of elements. */
  method CombineSequence<T>(sequence: seq<T>, hash: T -> int32, length: int32, currentKey: int32)
    returns (hashCode: int32)
    ensures hashCode == CombineAll(HashAll(sequence, hash), Combine(length, currentKey))
  {
    hashCode := Combine(length, currentKey);
    for i := 0 to |sequence|
      invariant hashCode == CombineAll(HashAll(sequence[..i], hash), Combine(length, currentKey))
    {
      HashAllStepsForward(sequence, i, hash);
      hashCode := Combine(hash(sequence[i]), hashCode);
    }
    assert sequence[..|sequence|] == sequence;
  }

  /** `Combine(ImmutableArray, currentKey)`: the sequence combine with the array's length. */
  method CombineArrayWithKey<T>(elements: seq<T>, hash: T -> int32, currentKey: int32) returns (r: int32)
    requires |elements| <= MaxInt32
    ensures r == CombineAll(HashAll(elements, hash), Combine(|elements| as int32, currentKey))
    ensures |elements| == 0 ==> r == Combine(0, currentKey)
  {
    r := CombineSequence(elements, hash, |elements| as int32, currentKey);
  }

  /** `Combine(ImmutableArray)`: the array combine from seed 0. */
  method CombineArray<T>(elements: seq<T>, hash: T -> int32) returns (r: int32)
    requires |elements| <= MaxInt32
    ensures r == CombineAll(HashAll(elements, hash), Combine(|elements| as int32, 0))
  {
    r := CombineArrayWithKey(elements, hash, 0);
  }

  /** `Combine(ImmutableStack, currentKey)`: fold the element hashes from the seed itself,
      top of the stack (`stack[0]`) first, and combine the element count in LAST. */
  method CombineStackWithKey<T>(stack: seq<T>, hash: T -> int32, currentKey: int32) returns (r: int32)
    requires |stack| <= MaxInt32
    ensures r == Combine(|stack| as int32, CombineAll(HashAll(stack, hash), currentKey))
  {
    var hashCode := currentKey;
    var stackSize: int32 := 0;
    for i := 0 to |stack|
      invariant stackSize as int == i
      invariant hashCode == CombineAll(HashAll(stack[..i], hash), currentKey)
    {
      HashAllStepsForward(stack, i, hash);
      hashCode := Combine(hash(stack[i]), hashCode);
      stackSize := stackSize + 1;
    }
    assert stack[..|stack|] == stack;
    r := Combine(stackSize, hashCode);
  }

  /** `Combine(ImmutableStack)`: the stack combine from seed 0. */
  method CombineStack<T>(stack: seq<T>, hash: T -> int32) returns (r: int32)
    requires |stack| <= MaxInt32
    ensures r == Combine(|stack| as int32, CombineAll(HashAll(stack, hash), 0))
  {
    r := CombineStackWithKey(stack, hash, 0);
  }

  /** The stack combine and the sequence combine agree on an empty collection: both are
      `Combine(0, seed)`. */
  lemma EmptyStackAndSequenceAgree(seed: int32)
    ensures Combine(0, CombineAll([], seed)) == CombineAll([], Combine(0, seed)) == Combine(0, seed)
  {
  }

  /** With one element the two folds put the length on opposite sides of the element hash. */
  lemma {:induction false} SingletonStackAndSequence(h: int32, seed: int32)
    ensures CombineAll([h], Combine(1, seed)) == Combine(h, Combine(1, seed))
    ensures Combine(1, CombineAll([h], seed)) == Combine(1, Combine(h, seed))
  {
    assert [h][..0] == [];
  }

  predicate SortedAscending(s: seq<int32>)
  {
    forall i, j :: 0 <= i < j < |s| ==> s[i] <= s[j]
  }

  /** Inserts `x` into a sorted sequence. */
  function InsertSorted(x: int32, s: seq<int32>): (r: seq<int32>)
    requires SortedAscending(s)
    ensures |r| == |s| + 1
    ensures r[0] == x || (|s| > 0 && r[0] == s[0])
    ensures SortedAscending(r)
    ensures multiset(r) == multiset(s) + multiset{x}
  {
    if |s| == 0 then [x]
    else if x <= s[0] then [x] + s
    else
      var rest := InsertSorted(x, s[1..]);
      assert s == [s[0]] + s[1..];
      assert s[0] <= rest[0];
      [s[0]] + rest
  }

  /** `ArrayBuilder<int>.Sort()`: the ascending rearrangement of the builder's contents. */
  function SortAscending(s: seq<int32>): (r: seq<int32>)
    ensures |r| == |s|
    ensures SortedAscending(r)
    ensures multiset(r) == multiset(s)
  {
    if |s| == 0 then []
    else
      assert s == [s[0]] + s[1..];
      InsertSorted(s[0], SortAscending(s[1..]))
  }

  /** There is only one ascending arrangement of a multiset of hashes. */
  lemma {:induction false} SortedPermutationsEqual(a: seq<int32>, b: seq<int32>)
    requires SortedAscending(a) && SortedAscending(b)
    requires multiset(a) == multiset(b)
    ensures a == b
  {
    if |a| == 0 {
      assert |b| == |multiset(b)| == 0;
    } else {
      assert |b| == |multiset(b)| == |a|;
      assert a[0] in multiset(b);
      assert b[0] in multiset(a);
      assert a == [a[0]] + a[1..];
      assert b == [b[0]] + b[1..];
      assert a[0] == b[0];
      assert multiset(a) == multiset{a[0]} + multiset(a[1..]);
      assert multiset(b) == multiset{b[0]} + multiset(b[1..]);
      assert multiset(a[1..]) == multiset(a) - multiset{a[0]};
      assert multiset(b[1..]) == multiset(b) - multiset{b[0]};
      SortedPermutationsEqual(a[1..], b[1..]);
    }
  }

  /** `e` lists every element of `s` exactly once: one possible enumeration order of `s`. */
  predicate Enumerates<T>(e: seq<T>, s: set<T>)
  {
    multiset(e) == multiset(s)
  }

  lemma {:induction false} EnumerationExists<T>(s: set<T>)
    ensures exists e :: Enumerates(e, s)
  {
    if s == {} {
      assert Enumerates([], s);
    } else {
      var x :| x in s;
      EnumerationExists(s - {x});
      var e :| Enumerates(e, s - {x});
      assert forall y :: multiset(s)[y] == (multiset(s - {x}) + multiset{x})[y];
      assert multiset(s) == multiset(s - {x}) + multiset{x};
      assert multiset(e + [x]) == multiset(e) + multiset{x};
      assert Enumerates(e + [x], s);
    }
  }

  /** What `Combine(ImmutableHashSet, currentKey)` computes when the set is enumerated in
      the order `e`: the element hashes, sorted ascending, folded onto
      `Combine(count, currentKey)`. */
  function CombineInOrder<T>(e: seq<T>, hash: T -> int32, currentKey: int32): int32
    requires |e| <= MaxInt32
  {
    CombineAll(SortAscending(HashAll(e, hash)), Combine(|e| as int32, currentKey))
  }

  /** Two enumeration orders of the same elements give the same combined hash. */
  lemma OrderIndependent<T>(e1: seq<T>, e2: seq<T>, hash: T -> int32, currentKey: int32)
    requires |e1| <= MaxInt32
    requires multiset(e1) == multiset(e2)
    ensures |e2| == |e1|
    ensures CombineInOrder(e1, hash, currentKey) == CombineInOrder(e2, hash, currentKey)
  {
    assert |e1| == |multiset(e1)| == |multiset(e2)| == |e2|;
    HashAllPermutation(e1, e2, hash);
    SortedPermutationsEqual(SortAscending(HashAll(e1, hash)), SortAscending(HashAll(e2, hash)));
  }

  /** The combined hash of a set: the same for every enumeration order of the set. */
  ghost function SetHash<T(!new)>(s: set<T>, hash: T -> int32, currentKey: int32): (r: int32)
    requires |s| <= MaxInt32
    ensures forall e :: Enumerates(e, s) ==> |e| <= MaxInt32 && r == CombineInOrder(e, hash, currentKey)
  {
    EnumerationExists(s);
    var e :| Enumerates(e, s);
    assert |e| == |multiset(e)| == |s|;
    assert forall e' :: Enumerates(e', s) ==> |e'| <= MaxInt32 && CombineInOrder(e, hash, currentKey) == CombineInOrder(e', hash, currentKey) by {
      forall e' | Enumerates(e', s)
        ensures |e'| <= MaxInt32 && CombineInOrder(e, hash, currentKey) == CombineInOrder(e', hash, currentKey)
      {
        OrderIndependent(e, e', hash, currentKey);
      }
    }
    CombineInOrder(e, hash, currentKey)
  }

  /** The combine of an empty set is `Combine(0, currentKey)`. */
  lemma EmptySetHash<T(!new)>(hash: T -> int32, currentKey: int32)
    ensures SetHash({}, hash, currentKey) == Combine(0, currentKey)
  {
    var e: seq<T> := [];
    assert Enumerates(e, {});
    assert SortAscending(HashAll(e, hash)) == [];
  }

  /** Moving one element from the remaining part of a set to the part already enumerated adds
      just that element to the enumerated part. */
  lemma MoveToDone<T>(s: set<T>, remaining: set<T>, element: T)
    requires remaining <= s && element in remaining
    ensures multiset(s - (remaining - {element})) == multiset(s - remaining) + multiset{element}
  {
    assert s - (remaining - {element}) == (s - remaining) + {element};
    assert element !in s - remaining;
  }

  /** Fills the builder with the element hashes in enumeration order: any order, because
      the element is chosen arbitrarily at each step. Returns the order taken as well. */
  method CollectHashes<T>(s: set<T>, hash: T -> int32) returns (builder: seq<int32>, ghost order: seq<T>)
    ensures Enumerates(order, s)
    ensures builder == HashAll(order, hash)
  {
    builder := [];
    order := [];
    var remaining := s;
    while remaining != {}
      invariant remaining <= s
      invariant multiset(order) == multiset(s - remaining)
      invariant builder == HashAll(order, hash)
      decreases |remaining|
    {
      var element :| element in remaining;
      MoveToDone(s, remaining, element);
      HashAllAppend(order, [element], hash);
      HashAllCons(element, [], hash);
      builder := builder + [hash(element)];
      order := order + [element];
      remaining := remaining - {element};
    }
    assert s - remaining == s;
  }

  /** `Combine(ImmutableHashSet, currentKey)`: collect the element hashes, sort them, then
      sequence-combine them with the count. */
  method CombineSetWithKey<T(!new)>(s: set<T>, hash: T -> int32, currentKey: int32) returns (result: int32)
    requires |s| <= MaxInt32
    ensures result == SetHash(s, hash, currentKey)
    ensures forall e :: Enumerates(e, s) ==> result == CombineInOrder(e, hash, currentKey)
  {
    var builder;
    ghost var order;
    builder, order := CollectHashes(s, hash);
    assert |order| == |multiset(order)| == |s|;
    builder := SortAscending(builder);
    result := CombineSequence(builder, x => x, |builder| as int32, currentKey);
    HashAllIdentity(builder);
    assert result == CombineInOrder(order, hash, currentKey);
  }

  /** `Combine(ImmutableHashSet)`: the set combine from seed 0. */
  method CombineSet<T(!new)>(s: set<T>, hash: T -> int32) returns (result: int32)
    requires |s| <= MaxInt32
    ensures result == SetHash(s, hash, 0)
    ensures s == {} ==> result == Combine(0, 0)
  {
    result := CombineSetWithKey(s, hash, 0);
    if s == {} {
      EmptySetHash(hash, 0);
    }
  }

  /** The hash of one dictionary entry: `Combine(key hash, value hash or 0)`. */
  function EntryHash<K, V>(keyHash: K -> int32, valueHash: V -> int32): ((K, Option<V>)) -> int32
  {
    (kv: (K, Option<V>)) => Combine(keyHash(kv.0), GetHashCodeOrDefault(kv.1, valueHash))
  }

  /** An entry whose value is null hashes to the key's own hash. */
  lemma NullValueEntryHash<K, V>(key: K, keyHash: K -> int32, valueHash: V -> int32)
    ensures EntryHash(keyHash, valueHash)((key, None)) == keyHash(key)
  {
    Int32Congruent(EntryHash(keyHash, valueHash)((key, None)), keyHash(key));
  }

  /** The combined hash of a dictionary with possibly-null values: the set combine of its
      entries under `EntryHash`. */
  ghost function DictionaryHash<K(!new), V(!new)>(m: map<K, Option<V>>, keyHash: K -> int32, valueHash: V -> int32, currentKey: int32): (r: int32)
    requires |m| <= MaxInt32
    ensures forall e :: Enumerates(e, m.Items) ==> |e| <= MaxInt32 && r == CombineInOrder(e, EntryHash(keyHash, valueHash), currentKey)
  {
    assert |m.Items| == |m|;
    SetHash(m.Items, EntryHash(keyHash, valueHash), currentKey)
  }

  /** `Combine(ImmutableDictionary, currentKey)`: hash each entry, sort, sequence-combine with
      the count. */
  method CombineDictionaryWithKey<K(!new), V(==,!new)>(m: map<K, Option<V>>, keyHash: K -> int32, valueHash: V -> int32, currentKey: int32)
    returns (result: int32)
    requires |m| <= MaxInt32
    ensures result == DictionaryHash(m, keyHash, valueHash, currentKey)
  {
    assert |m.Items| == |m|;
    var builder;
    ghost var order;
    builder, order := CollectHashes(m.Items, EntryHash(keyHash, valueHash));
    assert |order| == |multiset(order)| == |m.Items|;
    builder := SortAscending(builder);
    result := CombineSequence(builder, x => x, |builder| as int32, currentKey);
    HashAllIdentity(builder);
    assert result == CombineInOrder(order, EntryHash(keyHash, valueHash), currentKey);
  }

  /** `Combine(ImmutableDictionary)`: the dictionary combine from seed 0. */
  method CombineDictionary<K(!new), V(==,!new)>(m: map<K, Option<V>>, keyHash: K -> int32, valueHash: V -> int32)
    returns (result: int32)
    requires |m| <= MaxInt32
    ensures result == DictionaryHash(m, keyHash, valueHash, 0)
  {
    result := CombineDictionaryWithKey(m, keyHash, valueHash, 0);
  }
}
