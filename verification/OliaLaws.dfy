/** What OLIA's numbers mean: the increment of an ACK, the direction of a step, the cut of a loss. */
module OliaLaws {
  import opened Basics
  import opened OliaWindow
  import opened OliaSenderClass

  // ----- the direction of a step -----

  /** Nothing wraps around when the increment is added to the counter. */
  predicate Counts(count: int, increment: int) { -TWO_63 <= count + increment < TWO_63 }

  lemma NoWrap64(x: int)
    requires -TWO_63 <= x < TWO_63
    ensures Int64(x) == x
  {
  }

  /** The window rises exactly when the count is full, and falls exactly when it is as far below zero. */
  lemma StepDirection(count: int, cwnd: nat, increment: int)
    requires cwnd >= 1 && Counts(count, increment)
    ensures var (c, w) := OliaStep(count, cwnd, increment);
            && (w == cwnd + 1 <==> count + increment >= 1023)
            && (w == cwnd - 1 <==> count + increment <= -1023 && cwnd > 1)
            && (w == cwnd + 1 || w == cwnd || w == cwnd - 1)
            && c == (if -1023 < count + increment < 1023 then count + increment else 0)
  {
    NoWrap64(count + increment);
  }

  /** A larger increment never leads to a smaller window. */
  lemma StepMono(count: int, cwnd: nat, small: int, large: int)
    requires cwnd >= 1 && small <= large && Counts(count, small) && Counts(count, large)
    ensures OliaStep(count, cwnd, small).1 <= OliaStep(count, cwnd, large).1
  {
    StepDirection(count, cwnd, small);
    StepDirection(count, cwnd, large);
  }

  // ----- the increment -----

  /** q is n / d, rounded towards zero. */
  predicate Truncates(n: int, d: nat, q: int) {
    if n >= 0 then 0 <= q && q * d <= n < q * d + d else q <= 0 && q * d - d < n <= q * d
  }

  lemma DivTruncates(n: nat, d: nat)
    requires d > 0
    ensures Truncates(n, d, n / d) && 0 <= n / d <= n
  {
    var q := n / d;
    assert n == q * d + n % d;
    Larger(q, d);
  }

  lemma Larger(q: int, d: int)
    requires q >= 0 && d > 0
    ensures 0 <= q <= q * d
  {
  }

  lemma NegatedTruncates(n: int, d: nat, q: int)
    requires n > 0 && d > 0 && Truncates(n, d, q)
    ensures Truncates(-n, d, -q)
  {
    assert (-q) * d == -(q * d);
  }

  /** The quotient of numbers that fit, as the program takes it. */
  lemma PlainQuotient(n: nat, d: nat) returns (q: int)
    requires d > 0 && n < TWO_63
    ensures q == Int64(Uint64(n) / d) && Truncates(n, d, q)
  {
    NoWrap(n);
    DivTruncates(n, d);
    NoWrap64(n / d);
    q := n / d;
  }

  /** What is divided: 1024 times the sum of the path's own part x and its share of the rate. */
  function Dividend(num: int, rate: nat, x: nat): int { (x + num * rate) * SCALE }

  predicate Fits64(n: int) { -TWO_63 < n < TWO_63 }

  lemma OfTruncates(num: int, rate: nat, d: nat, x: nat)
    requires -1 <= num <= 1 && 0 < d && Fits64(Dividend(num, rate, x))
    ensures Truncates(Dividend(num, rate, x), d, IncrementOf(num, rate, d, x))
  {
    if num == -1 {
      Gives(rate, d, x);
    } else {
      assert num == 0 || num == 1;
      Takes(num, rate, d, x);
    }
  }

  lemma Gives(rate: nat, d: nat, x: nat)
    requires 0 < d && Fits64((x - rate) * SCALE)
    ensures Truncates((x - rate) * SCALE, d, IncrementOf(-1, rate, d, x))
  {
    if x < rate {
      var n := (rate - x) * SCALE;
      var q := PlainQuotient(n, d);
      NegatedTruncates(n, d, q);
    } else {
      var q := PlainQuotient((x - rate) * SCALE, d);
    }
  }

  lemma Takes(num: nat, rate: nat, d: nat, x: nat)
    requires num <= 1 && 0 < d && Fits64((x + num * rate) * SCALE)
    ensures Truncates((x + num * rate) * SCALE, d, IncrementOf(num, rate, d, x))
  {
    var sum := if num == 0 then x else x + rate;
    assert sum == x + num * rate;
    NoWrap(num);
    NoWrap(sum);
    var q := PlainQuotient(sum * SCALE, d);
  }

  /** Nothing wraps around on the way to the increment. */
  predicate IncrementFits(num: int, den: nat, cwnd: nat, rate: nat, scaled: nat) {
    && -1 <= num <= 1 && 0 < den * cwnd * rate < TWO_64 && den * scaled * scaled < TWO_64
    && Fits64(Dividend(num, rate, den * scaled * scaled))
  }

  /**
   * Where nothing wraps around, the increment is 1024 * (den * scaled^2 + num * rate) / (den * cwnd * rate), rounded
   * towards zero, and it is negative only for a path that gives something away and has the smaller part itself.
   */
  lemma IncrementExact(num: int, den: nat, cwnd: nat, rate: nat, scaled: nat)
    requires IncrementFits(num, den, cwnd, rate, scaled)
    ensures Truncates((den * scaled * scaled + num * rate) * 1024, den * cwnd * rate,
                      Increment(num, den, cwnd, rate, scaled))
    ensures Increment(num, den, cwnd, rate, scaled) < 0 ==> num == -1 && den * scaled * scaled < rate
  {
    var d, x, q := Parts(num, den, cwnd, rate, scaled);
    SignOfDividend(num, rate, x);
  }

  lemma Parts(num: int, den: nat, cwnd: nat, rate: nat, scaled: nat) returns (d: nat, x: nat, q: int)
    requires IncrementFits(num, den, cwnd, rate, scaled)
    ensures d == den * cwnd * rate > 0 && x == den * scaled * scaled && q == Increment(num, den, cwnd, rate, scaled)
    ensures Truncates((x + num * rate) * 1024, d, q)
  {
    Squares(den, scaled);
    d, x := den * cwnd * rate, den * scaled * scaled;
    NoWrap(d);
    NoWrap(x);
    OfTruncates(num, rate, d, x);
    q := IncrementOf(num, rate, d, x);
  }

  lemma Squares(den: nat, scaled: nat)
    ensures den * scaled * scaled >= 0
  {
  }

  lemma SignOfDividend(num: int, rate: nat, x: nat)
    requires -1 <= num <= 1
    ensures Dividend(num, rate, x) < 0 ==> num == -1 && x < rate
  {
    assert num == -1 || num == 0 || num == 1;
  }

  // ----- more epsilon, more window -----

  lemma Multiplied(u: int, v: int, d: int)
    requires u <= v && d >= 0
    ensures u * d <= v * d
  {
  }

  lemma MultipliedStrictly(u: int, v: int, d: int)
    requires u < v && d > 0
    ensures u * d < v * d
  {
  }

  /** Rounding towards zero keeps the order of two quotients. */
  lemma TruncatesMono(n1: int, d1: nat, q1: int, n2: int, d2: nat, q2: int)
    requires d1 > 0 && d2 > 0 && Truncates(n1, d1, q1) && Truncates(n2, d2, q2) && n1 * d2 <= n2 * d1
    ensures q1 <= q2
  {
    if q1 > q2 {
      if n1 >= 0 && n2 >= 0 {
        Crossed(q1, q2 + 1, n1, n2, d1, d2);
      } else if n1 < 0 && n2 < 0 {
        Crossed(-q2, -q1 + 1, -n2, -n1, d2, d1);
      } else if n1 >= 0 {
        Multiplied(0, n1, d2);
        MultipliedStrictly(n2, 0, d1);
      }
    }
  }

  /** n1 / d1 is at least q1, and n2 / d2 less than p: so it is impossible that q1 is p or more. */
  lemma Crossed(q1: int, p: int, n1: int, n2: int, d1: int, d2: int)
    requires d1 > 0 && d2 > 0 && q1 >= p && q1 * d1 <= n1 && n2 < p * d2
    ensures n1 * d2 > n2 * d1
  {
    Multiplied(q1 * d1, n1, d2);
    MultipliedStrictly(n2, p * d2, d1);
    Multiplied(p, q1, d1 * d2);
    assert q1 * d1 * d2 == q1 * (d1 * d2) && p * d2 * d1 == p * (d1 * d2);
  }

  /** The quotients of the three kinds of paths in order, for a path with square s, window c and rate r. */
  lemma CrossProducts(s: nat, c: nat, r: nat, a: nat)
    ensures s * 1024 * (a * c * r) <= (a * s + r) * 1024 * (c * r)
    ensures (a * s - r) * 1024 * (c * r) <= s * 1024 * (a * c * r)
  {
    var k := 1024 * (c * r);
    assert s * 1024 * (a * c * r) == a * s * k;
    assert (a * s + r) * 1024 * (c * r) == a * s * k + r * k;
    assert (a * s - r) * 1024 * (c * r) == a * s * k - r * k;
    Multiplied(0, r, k);
  }

  lemma OneKind(num: int, den: nat, cwnd: nat, rate: nat, scaled: nat, s: nat) returns (q: int)
    requires IncrementFits(num, den, cwnd, rate, scaled) && s == scaled * scaled
    ensures q == Increment(num, den, cwnd, rate, scaled)
    ensures den * cwnd * rate > 0 && Truncates((den * s + num * rate) * 1024, den * cwnd * rate, q)
  {
    var d, x;
    d, x, q := Parts(num, den, cwnd, rate, scaled);
    Grouped(den, scaled, s, x);
  }

  lemma Grouped(den: nat, scaled: nat, s: nat, x: nat)
    requires s == scaled * scaled && x == den * scaled * scaled
    ensures x == den * s
  {
  }

  /**
   * The same path never grows less when it is one of the best others than when it is neither, and never less then than
   * when it has the largest window, whatever the sizes of the two sets.
   */
  lemma EpsilonOrders(cwnd: nat, rate: nat, scaled: nat, best: nat, largest: nat)
    requires IncrementFits(1, best, cwnd, rate, scaled) && IncrementFits(0, 1, cwnd, rate, scaled)
    requires IncrementFits(-1, largest, cwnd, rate, scaled)
    ensures Increment(-1, largest, cwnd, rate, scaled) <= Increment(0, 1, cwnd, rate, scaled)
    ensures Increment(0, 1, cwnd, rate, scaled) <= Increment(1, best, cwnd, rate, scaled)
  {
    var s := scaled * scaled;
    var up := OneKind(1, best, cwnd, rate, scaled, s);
    var even := OneKind(0, 1, cwnd, rate, scaled, s);
    var down := OneKind(-1, largest, cwnd, rate, scaled, s);
    CrossProducts(s, cwnd, rate, best);
    CrossProducts(s, cwnd, rate, largest);
    Unit(cwnd, rate);
    TruncatesMono(s * 1024, cwnd * rate, even, (best * s + rate) * 1024, best * cwnd * rate, up);
    TruncatesMono((largest * s - rate) * 1024, largest * cwnd * rate, down, s * 1024, cwnd * rate, even);
  }

  lemma Unit(c: nat, r: nat)
    ensures 1 * c * r == c * r
  {
  }

  /** And so for the window after the step. */
  lemma StepOrders(count: int, cwnd: nat, rate: nat, best: nat, largest: nat)
    requires cwnd >= 1
    requires IncrementFits(1, best, cwnd, rate, cwnd * SCALE)
    requires Counts(count, Increment(1, best, cwnd, rate, cwnd * SCALE))
    requires IncrementFits(0, 1, cwnd, rate, cwnd * SCALE) && Counts(count, Increment(0, 1, cwnd, rate, cwnd * SCALE))
    requires IncrementFits(-1, largest, cwnd, rate, cwnd * SCALE)
    requires Counts(count, Increment(-1, largest, cwnd, rate, cwnd * SCALE))
    ensures var scaled := cwnd * SCALE;
            OliaStep(count, cwnd, Increment(-1, largest, cwnd, rate, scaled)).1 <=
            OliaStep(count, cwnd, Increment(0, 1, cwnd, rate, scaled)).1 <=
            OliaStep(count, cwnd, Increment(1, best, cwnd, rate, scaled)).1
  {
    var scaled := cwnd * SCALE;
    EpsilonOrders(cwnd, rate, scaled, best, largest);
    StepMono(count, cwnd, Increment(-1, largest, cwnd, rate, scaled), Increment(0, 1, cwnd, rate, scaled));
    StepMono(count, cwnd, Increment(0, 1, cwnd, rate, scaled), Increment(1, best, cwnd, rate, scaled));
  }

  /** A path that is not one of the largest never shrinks: its increments are not negative. */
  lemma OnlyLargestShrink(count: int, num: int, den: nat, cwnd: nat, rate: nat)
    requires cwnd >= 1 && num >= 0 && IncrementFits(num, den, cwnd, rate, cwnd * SCALE) && count > -1023
    requires Counts(count, Increment(num, den, cwnd, rate, cwnd * SCALE))
    ensures OliaStep(count, cwnd, Increment(num, den, cwnd, rate, cwnd * SCALE)).1 >= cwnd
  {
    IncrementExact(num, den, cwnd, rate, cwnd * SCALE);
    StepDirection(count, cwnd, Increment(num, den, cwnd, rate, cwnd * SCALE));
  }

  // ----- the cut of a loss -----

  /** What a loss leaves of the window of n connections: the share of n - 0.3 times the backoff, and at most all. */
  lemma BetaKept(n: nat, backoff: real)
    requires n >= 1 && BACKOFF_MIN <= backoff <= BACKOFF_MAX
    ensures var beta := EffectiveBeta(n, backoff); var kept := (n as real - 0.3) * backoff;
            beta * n as real == if kept <= n as real then kept else n as real
  {
    var m := n as real;
    var share, p := BetaIs(n, backoff);
    assert p * m == (share * m) * backoff;
    Compared(p, m);
  }

  lemma Product(a: real, b: real) returns (p: real)
    ensures p == a * b
    ensures a > 0.0 && b > 0.0 ==> p > 0.0
  {
    p := a * b;
  }

  lemma Compared(p: real, m: real)
    requires m > 0.0
    ensures p * m <= m <==> p <= 1.0
  {
    if p <= 1.0 {
      assert (1.0 - p) * m >= 0.0;
    } else {
      assert (p - 1.0) * m > 0.0;
    }
  }

  lemma SharesGrow(m1: real, s1: real, m2: real, s2: real)
    requires 0.0 < m1 <= m2 && s1 * m1 == m1 - 0.3 && s2 * m2 == m2 - 0.3
    ensures s1 <= s2
  {
    Times2(s1, s2, m1, m2);
    Sign((s2 - s1) * m1, m2);
    Sign(s2 - s1, m1);
  }

  lemma Times2(s1: real, s2: real, m1: real, m2: real)
    requires 0.0 < m1 <= m2 && s1 * m1 == m1 - 0.3 && s2 * m2 == m2 - 0.3
    ensures (s2 - s1) * m1 * m2 >= 0.0
  {
    assert (s2 - s1) * m1 * m2 == (s2 * m2) * m1 - (s1 * m1) * m2;
    assert (m2 - 0.3) * m1 - (m1 - 0.3) * m2 == 0.3 * (m2 - m1);
  }

  lemma ProductGrows(a: real, b: real, c: real, d: real)
    requires 0.0 <= a <= b && 0.0 <= c <= d
    ensures a * c <= b * d
  {
    assert (b - a) * c >= 0.0;
    assert b * (d - c) >= 0.0;
  }

  /** A loss never leaves less with more connections or with a larger backoff. */
  lemma BetaGrows(n1: nat, backoff1: real, n2: nat, backoff2: real)
    requires 1 <= n1 <= n2 && BACKOFF_MIN <= backoff1 <= backoff2 <= BACKOFF_MAX
    ensures EffectiveBeta(n1, backoff1) <= EffectiveBeta(n2, backoff2)
  {
    var s1, p1 := BetaIs(n1, backoff1);
    var s2, p2 := BetaIs(n2, backoff2);
    SharesGrow(n1 as real, s1, n2 as real, s2);
    ProductGrows(s1, s2, backoff1, backoff2);
  }

  lemma BetaIs(n: nat, backoff: real) returns (share: real, p: real)
    requires n >= 1 && backoff > 0.0
    ensures share * n as real == n as real - 0.3 && share > 0.0 && p == share * backoff
    ensures EffectiveBeta(n, backoff) == if p > 1.0 then 1.0 else p
  {
    var m := n as real;
    share := (m - 1.0 + RENO_BETA) / m;
    assert share * m == m - 0.3;
    Sign(share, m);
    p := Product(share, backoff);
  }

  /** A cut leaves the whole packets of that share, and never less than the minimum. */
  lemma CutExact(w: nat, n: nat, backoff: real, lo: nat)
    requires n >= 1
    ensures var r := CutTo(w, n, backoff, lo); var kept := w as real * EffectiveBeta(n, backoff);
            && r >= lo && (r > lo ==> r as real <= kept) && kept < r as real + 1.0
  {
  }

  /** A window limits what is sent when it is nearly full: up to three packets, or half of it during slow start. */
  lemma LimitedExact(o: OliaSender, bytesInFlight: nat)
    ensures o.IsCwndLimited(bytesInFlight) <==>
            || bytesInFlight + 3 * MSS >= o.cwnd * MSS
            || (o.cwnd < o.ssthresh && 2 * bytesInFlight > o.cwnd * MSS)
  {
  }

  // ----- large reductions -----

  function TotalLost(lost: seq<nat>): nat { if lost == [] then 0 else TotalLost(lost[..|lost| - 1]) + lost[|lost| - 1] }

  /** How often a run of losses fills one more packet. */
  function Fillings(before: nat, lost: seq<nat>): nat {
    if lost == [] then 0
    else
      var n := |lost| - 1;
      Fillings(before, lost[..n]) + if FillsPacket(before + TotalLost(lost[..n]), lost[n]) then 1 else 0
  }

  /** Losses of at most one packet each take off exactly one packet of the window for every whole packet lost. */
  lemma {:induction false} OneForEachPacket(before: nat, lost: seq<nat>)
    requires forall x <- lost :: x <= MSS
    ensures Fillings(before, lost) == (before + TotalLost(lost)) / MSS - before / MSS
  {
    if lost != [] {
      var n := |lost| - 1;
      assert lost[n] in lost;
      assert forall x <- lost[..n] :: x in lost;
      OneForEachPacket(before, lost[..n]);
    }
  }
}
