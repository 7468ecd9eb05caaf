/** Numbers, options and sequences that several modules need. */
module Basics {

  /** One byte of stream data. */
  newtype byte = x: int | 0 <= x < 256

  const TWO_63: int := 0x8000_0000_0000_0000
  const TWO_64: int := 0x1_0000_0000_0000_0000

  /** The value of an int64 or a uint64 after overflow. */
  function Int64(x: int): int { (x + TWO_63) % TWO_64 - TWO_63 }

  function Uint64(x: int): nat { x % TWO_64 }

  lemma NoWrap(x: int)
    requires 0 <= x < TWO_64
    ensures Uint64(x) == x
  {
  }

  function Uint8(x: nat): nat { x % 256 }

  /** Path identifiers are bytes. */
  type PathID = k: nat | k < 256

  datatype Option<+T> = None | Some(value: T)

  function Min(a: nat, b: nat): nat { if a < b then a else b }

  function Max(a: nat, b: nat): nat { if a < b then b else a }

  lemma Sign(r: real, y: real)
    requires y > 0.0
    ensures r * y >= 0.0 <==> r >= 0.0
    ensures r * y > 0.0 <==> r > 0.0
  {
  }

  /** `data` is what the stream `src` holds from `offset` on. */
  predicate SliceAt(src: seq<byte>, offset: nat, data: seq<byte>) {
    offset + |data| <= |src| && data == src[offset..offset + |data|]
  }

  /** Concatenation is associative. */
  lemma Assoc<T>(a: seq<T>, b: seq<T>, c: seq<T>)
    ensures a + (b + c) == (a + b) + c
  {
  }

  // ----- sequences without repetitions -----

  predicate Distinct<T(==)>(s: seq<T>) { forall x <- s :: multiset(s)[x] == 1 }

  lemma DistinctTail<T>(s: seq<T>)
    requires Distinct(s) && s != []
    ensures Distinct(s[1..]) && s[0] !in s[1..]
  {
    var rest := s[1..];
    assert s == [s[0]] + rest;
    assert multiset(s) == multiset{s[0]} + multiset(rest);
    assert multiset(s)[s[0]] == 1;
    forall x | x in rest
      ensures multiset(rest)[x] == 1
    {
      assert multiset(s)[x] == 1;
    }
  }

  lemma DistinctCons<T>(x: T, rest: seq<T>)
    requires Distinct(rest) && x !in rest
    ensures Distinct([x] + rest)
  {
    assert multiset(rest)[x] == 0;
  }

  lemma DistinctAppend<T>(s: seq<T>, x: T)
    requires Distinct(s) && x !in s
    ensures Distinct(s + [x])
  {
    assert multiset(s)[x] == 0;
  }

  // ----- rising numbers -----

  /** Strictly ascending numbers above `low`. */
  predicate Rising(low: int, s: seq<int>)
    decreases |s|
  {
    s == [] || (low < s[0] && Rising(s[0], s[1..]))
  }

  lemma RisingWeaken(high: int, low: int, s: seq<int>)
    requires Rising(high, s) && low <= high
    ensures Rising(low, s)
  {
  }

  lemma {:induction false} RisingPush(low: int, s: seq<int>, n: int)
    requires Rising(low, s) && low < n && (s != [] ==> s[|s| - 1] < n)
    ensures Rising(low, s + [n])
    decreases |s|
  {
    if s == [] {
      assert (s + [n])[1..] == [];
    } else {
      assert (s + [n])[1..] == s[1..] + [n];
      RisingAbove(low, s, |s| - 1);
      RisingPush(s[0], s[1..], n);
    }
  }

  lemma {:induction false} RisingAbove(low: int, s: seq<int>, j: nat)
    requires Rising(low, s) && j < |s|
    ensures low < s[0] <= s[j]
    decreases j
  {
    if j > 0 {
      RisingAbove(s[0], s[1..], j - 1);
    }
  }

  lemma {:induction false} RisingPair(low: int, s: seq<int>, i: nat, j: nat)
    requires Rising(low, s) && i < j < |s|
    ensures s[i] < s[j]
    decreases j
  {
    if i == 0 {
      RisingAbove(s[0], s[1..], j - 1);
    } else {
      RisingPair(s[0], s[1..], i - 1, j - 1);
    }
  }
}
