/** The window function of CUBIC in fixed-point arithmetic, as section 4.1 of RFC 8312 gives it in real numbers. */
module Cubic {
  import opened Basics

  const CUBE_SCALE: nat := 0x100_0000_0000
  const WINDOW_SCALE: nat := 410
  const CUBE_FACTOR: nat := 2681735677

  function Cube(x: nat): nat { x * x * x }

  predicate IsRoot(k: nat, x: nat) { Cube(k) <= x < Cube(k + 1) }

  // ----- arithmetic -----

  lemma CubeMono(a: nat, b: nat)
    requires a <= b
    ensures Cube(a) <= Cube(b)
  {
    assert a * a <= b * b;
    assert a * a * a <= b * b * a <= b * b * b;
  }

  lemma CubeStrict(a: nat, b: nat)
    requires a < b
    ensures Cube(a) < Cube(b)
  {
    CubeMono(a + 1, b);
    assert (a + 1) * (a + 1) == a * a + 2 * a + 1;
    assert Cube(a + 1) == (a * a + 2 * a + 1) * a + (a * a + 2 * a + 1);
    assert (a * a + 2 * a + 1) * a >= a * a * a;
  }

  /** The integer cube root. */
  function CubeRoot(x: nat): (k: nat)
    ensures IsRoot(k, x)
  {
    if x == 0 then 0 else
      var k := CubeRoot(x - 1);
      CubeStrict(k, k + 1);
      CubeStrict(k + 1, k + 2);
      if Cube(k + 1) <= x then k + 1 else k
  }

  // ----- the cubic target -----

  /** 410 * offset^3 / 2^40, in packets. */
  function Delta(offset: nat): nat { WINDOW_SCALE * Cube(offset) / CUBE_SCALE }

  /** The same in the program's arithmetic: a signed 64-bit product, shifted, taken as unsigned. */
  function MachineDelta(offset: nat): nat { Uint64(Int64(WINDOW_SCALE * Cube(offset)) / CUBE_SCALE) }

  function Abs(x: int): nat { if x < 0 then -x else x }

  function Target(origin: nat, k: nat, elapsed: int): nat {
    var delta := MachineDelta(Abs(k - elapsed));
    if elapsed > k then Uint64(origin + delta) else Uint64(origin - delta)
  }

  /** The target without any limit on numbers. */
  function IdealTarget(origin: nat, k: nat, elapsed: int): int {
    var delta := Delta(Abs(k - elapsed));
    if elapsed > k then origin + delta else origin - delta
  }

  /** The largest offset whose product still fits into a signed 64-bit integer: about 275 seconds. */
  const MAX_OFFSET: nat := 282294

  lemma OffsetFits(offset: nat)
    ensures WINDOW_SCALE * Cube(offset) < TWO_63 <==> offset <= MAX_OFFSET
  {
    if offset <= MAX_OFFSET {
      CubeMono(offset, MAX_OFFSET);
    } else {
      CubeMono(MAX_OFFSET + 1, offset);
    }
  }

  lemma MachineExact(offset: nat)
    requires offset <= MAX_OFFSET
    ensures MachineDelta(offset) == Delta(offset) < 0x80_0000
  {
    OffsetFits(offset);
    MachineSmall(WINDOW_SCALE * Cube(offset));
  }

  lemma MachineSmall(x: nat)
    requires x < TWO_63
    ensures Uint64(Int64(x) / CUBE_SCALE) == x / CUBE_SCALE < 0x80_0000
  {
  }

  lemma DeltaMono(a: nat, b: nat)
    requires a <= b
    ensures Delta(a) <= Delta(b)
  {
    CubeMono(a, b);
    DivMono(WINDOW_SCALE * Cube(a), WINDOW_SCALE * Cube(b));
  }

  lemma DivMono(x: nat, y: nat)
    requires x <= y
    ensures x / CUBE_SCALE <= y / CUBE_SCALE
  {
  }

  /** K is the time from the start of the epoch to the origin: the curve starts at the window of the epoch's start. */
  lemma RootBounds(k: nat, d: nat)
    requires IsRoot(k, CUBE_FACTOR * d)
    ensures Delta(k) <= d
  {
    assert WINDOW_SCALE * Cube(k) <= WINDOW_SCALE * (CUBE_FACTOR * d);
    assert WINDOW_SCALE * CUBE_FACTOR <= CUBE_SCALE;
    assert WINDOW_SCALE * (CUBE_FACTOR * d) == (WINDOW_SCALE * CUBE_FACTOR) * d <= CUBE_SCALE * d;
    DivMono(WINDOW_SCALE * Cube(k), CUBE_SCALE * d);
  }

  /** The shape of an epoch: where it started, where its origin lies and how far away it is. */
  predicate Curved(start: nat, origin: nat, k: nat) {
    if origin == start then k == 0 else start < origin && IsRoot(k, CUBE_FACTOR * (origin - start))
  }

  /** An epoch whose origin is so near that the product fits from its start on. */
  predicate EpochOk(start: nat, origin: nat, k: nat) { Curved(start, origin, k) && k <= MAX_OFFSET }

  /** The largest distance to the origin for which that is so. */
  const MAX_DROP: nat := 8388679

  lemma DropExact(k: nat, d: nat)
    requires IsRoot(k, CUBE_FACTOR * d)
    ensures k <= MAX_OFFSET <==> d <= MAX_DROP
  {
    assert Cube(MAX_OFFSET + 1) == 22496220388822375;
    if k <= MAX_OFFSET {
      CubeMono(k + 1, MAX_OFFSET + 1);
    } else {
      CubeMono(MAX_OFFSET + 1, k);
    }
  }

  /** Within reach: time does not run backwards, and the product fits. */
  predicate InReach(k: nat, elapsed: int) {
    0 <= elapsed && elapsed - k <= MAX_OFFSET
  }

  /** The ideal curve starts at the window of the epoch's start, and stays below the origin until it gets there. */
  lemma IdealBounds(start: nat, origin: nat, k: nat, elapsed: int)
    requires Curved(start, origin, k) && 0 <= elapsed
    ensures start <= IdealTarget(origin, k, elapsed)
    ensures elapsed <= k ==> IdealTarget(origin, k, elapsed) <= origin
  {
    if origin != start {
      RootBounds(k, origin - start);
    }
    if elapsed <= k {
      DeltaMono(k - elapsed, k);
    }
  }

  /** The program computes the ideal target, without underflow on the way up to the origin. */
  lemma TargetIdeal(start: nat, origin: nat, k: nat, elapsed: int)
    requires EpochOk(start, origin, k) && InReach(k, elapsed) && origin < TWO_63
    ensures Target(origin, k, elapsed) == IdealTarget(origin, k, elapsed)
    ensures start <= IdealTarget(origin, k, elapsed)
  {
    IdealBounds(start, origin, k, elapsed);
    MachineExact(Abs(k - elapsed));
    NoWrap(IdealTarget(origin, k, elapsed));
  }

  /** The target never decreases while time goes on. */
  lemma TargetMono(start: nat, origin: nat, k: nat, t1: int, t2: int)
    requires EpochOk(start, origin, k) && 0 <= t1 <= t2 && InReach(k, t2) && origin < TWO_63
    ensures start <= Target(origin, k, t1) <= Target(origin, k, t2)
  {
    TargetIdeal(start, origin, k, t1);
    TargetIdeal(start, origin, k, t2);
    if t2 <= k {
      DeltaMono(Abs(k - t2), Abs(k - t1));
    } else if t1 > k {
      DeltaMono(Abs(k - t1), Abs(k - t2));
    }
  }

  /**
   * On either side of the origin, and for 24 days around it, the program's target is the ideal one if and only if
   * the product fits.
   */
  lemma OverflowExact(start: nat, origin: nat, k: nat, elapsed: int)
    requires Curved(start, origin, k) && 0 <= elapsed && Abs(k - elapsed) < 0x8000_0000 && origin < TWO_63
    ensures Target(origin, k, elapsed) == IdealTarget(origin, k, elapsed) <==> Abs(k - elapsed) <= MAX_OFFSET
  {
    var offset := Abs(k - elapsed);
    OffsetFits(offset);
    IdealBounds(start, origin, k, elapsed);
    CubeMono(offset, 0x8000_0000);
    WrapExact(WINDOW_SCALE * Cube(offset));
    var x := WINDOW_SCALE * Cube(offset) / CUBE_SCALE;
    if elapsed > k {
      WrapAdds(origin, x, Wraps(WINDOW_SCALE * Cube(offset)));
    } else {
      WrapTakes(origin, x, Wraps(WINDOW_SCALE * Cube(offset)));
    }
  }

  /** How often the product wraps around. */
  function Wraps(x: nat): nat { (x + TWO_63) / TWO_64 }

  lemma WrapExact(x: nat)
    requires x <= WINDOW_SCALE * Cube(0x8000_0000)
    ensures Int64(x) / CUBE_SCALE == x / CUBE_SCALE - Wraps(x) * 0x100_0000
    ensures Wraps(x) <= 0x40_0000_0000 && (Wraps(x) == 0 <==> x < TWO_63)
  {
    assert Int64(x) == x - Wraps(x) * TWO_64;
    assert TWO_64 == CUBE_SCALE * 0x100_0000;
    ShiftWrap(x, Wraps(x));
  }

  lemma ShiftWrap(x: nat, q: nat)
    ensures (x - q * (CUBE_SCALE * 0x100_0000)) / CUBE_SCALE == x / CUBE_SCALE - q * 0x100_0000
  {
    assert x - q * (CUBE_SCALE * 0x100_0000) == x - (q * 0x100_0000) * CUBE_SCALE;
  }

  /** Adding a shifted product that has wrapped around is right exactly when it has not. */
  lemma WrapAdds(origin: nat, x: nat, q: nat)
    requires origin < TWO_63 && x < TWO_63 && q <= 0x40_0000_0000
    ensures Uint64(origin + Uint64(x - q * 0x100_0000)) == origin + x <==> q == 0
  {
    SumWraps(origin, x - q * 0x100_0000);
  }

  /** And so is taking one off. */
  lemma WrapTakes(origin: nat, x: nat, q: nat)
    requires x <= origin < TWO_63 && q <= 0x40_0000_0000
    ensures Uint64(origin - Uint64(x - q * 0x100_0000)) == origin - x <==> q == 0
  {
    DifferenceWraps(origin, x - q * 0x100_0000);
  }

  lemma SumWraps(a: int, b: int)
    ensures Uint64(a + Uint64(b)) == Uint64(a + b)
  {
  }

  lemma DifferenceWraps(a: int, b: int)
    ensures Uint64(a - Uint64(b)) == Uint64(a - b)
  {
  }

  /** After 276 seconds past the origin, a window of 1000 packets turns into one of nearly 2^64. */
  lemma OverflowHappens()
    ensures Target(1000, 0, 282295) > 0xFFFF_FFFF_0000_0000
  {
    assert Cube(282295) == 22496220388822375;
  }

  /** An epoch that starts one packet too far below its origin: at once, the target is twice the origin. */
  lemma DropHappens()
    ensures Curved(1000, 1000 + MAX_DROP + 1, 282295)
    ensures IdealTarget(1000 + MAX_DROP + 1, 282295, 0) == 1001
    ensures Target(1000 + MAX_DROP + 1, 282295, 0) == 16778217
  {
    assert Cube(282295) == 22496220388822375;
    assert Cube(282296) == 22496459461070336;
  }
}
