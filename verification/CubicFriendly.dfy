/** What the two factors of the CUBIC sender are for: to behave like a number of Reno connections. */
module CubicFriendly {
  import opened CubicWindow

  // ----- the factors in closed form -----

  /** A loss takes three tenths off one connection's share of the window. */
  lemma BetaExact(n: nat, w: real)
    requires n > 0
    ensures Beta(n) * n as real == n as real - 0.3
    ensures (w - w * Beta(n)) * n as real == 0.3 * w
  {
    var b, m := Beta(n), n as real;
    assert b * m == m - 0.3;
    Distribute(w, b, m);
  }

  lemma Distribute(w: real, b: real, m: real)
    ensures (w - w * b) * m == w * m - w * (b * m)
    ensures w * (m - 0.3) == w * m - 0.3 * w
  {
  }

  lemma AlphaIs(n: nat)
    requires n > 0
    ensures Alpha(n) * (1.0 + Beta(n)) == 3.0 * n as real * n as real * (1.0 - Beta(n))
  {
  }

  // ----- the sawtooth -----

  /** The window goes from b * w to w by `alpha` a round; so many rounds lie between two losses. */
  function Rounds(b: real, alpha: real, w: real): real
    requires 0.0 < b < 1.0 && alpha > 0.0 && w > 0.0
  {
    Positive(1.0 - b, w);
    Ratio((1.0 - b) * w, alpha)
  }

  function Mean(b: real, w: real): real { (1.0 + b) * w / 2.0 }

  /** The packets sent between two losses: a window for every round, on average the mean window. */
  function Packets(b: real, alpha: real, w: real): real
    requires 0.0 < b < 1.0 && alpha > 0.0 && w > 0.0
  {
    Rounds(b, alpha, w) * Mean(b, w)
  }

  lemma Positive(a: real, b: real)
    requires a > 0.0 && b > 0.0
    ensures a * b > 0.0
  {
  }

  lemma PacketsAre(b: real, alpha: real, w: real)
    requires 0.0 < b < 1.0 && alpha > 0.0 && w > 0.0
    ensures Packets(b, alpha, w) * (2.0 * alpha) == (1.0 - b) * (1.0 + b) * (w * w)
  {
    Positive(1.0 - b, w);
    var r := Rounds(b, alpha, w);
    assert r * alpha == (1.0 - b) * w;
    Regroup(r, 1.0 + b, w, alpha, 1.0 - b);
  }

  lemma Regroup(r: real, y: real, w: real, alpha: real, x: real)
    requires r * alpha == x * w
    ensures r * (y * w / 2.0) * (2.0 * alpha) == x * y * (w * w)
  {
    assert r * (y * w / 2.0) * (2.0 * alpha) == (r * alpha) * (y * w);
    assert (x * w) * (y * w) == x * y * (w * w);
  }

  /** One Reno connection sends two thirds of the square of its mean window between two losses. */
  lemma RenoPackets(w: real)
    requires w > 0.0
    ensures Packets(0.5, 1.0, w) == 2.0 / 3.0 * (Mean(0.5, w) * Mean(0.5, w))
  {
    PacketsAre(0.5, 1.0, w);
    assert Mean(0.5, w) == 0.75 * w;
    assert (0.75 * w) * (0.75 * w) == 0.5625 * (w * w);
  }

  lemma Cancel(c: real, u: real, v: real)
    requires c > 0.0
    ensures c * u == c * v <==> u == v
  {
    if c * u == c * v {
      assert c * (u - v) == 0.0;
    }
  }

  /** Two sawtooths: p packets of the one and q of the other are the same number if and only if alpha is right. */
  lemma Balance(p: real, q: real, x: real, y: real, s: real, n: real, alpha: real)
    requires x > 0.0 && y > 0.0 && s > 0.0 && n > 0.0 && alpha > 0.0
    requires p * (2.0 * alpha) == x * y * s && q * (6.0 * n) == y * y * s
    ensures p == q <==> alpha * y == 3.0 * n * x
  {
    Positive(y, s);
    Positive(alpha, n);
    var c := y * s;
    assert p * (6.0 * (alpha * n)) == c * (3.0 * n * x) by { ScaleLeft(p, alpha, n, x, y, s); }
    assert q * (6.0 * (alpha * n)) == c * (alpha * y) by { ScaleRight(q, alpha, n, y, s); }
    Cancel(6.0 * (alpha * n), p, q);
    Cancel(c, 3.0 * n * x, alpha * y);
    assert 6.0 * (alpha * n) * p == p * (6.0 * (alpha * n)) && 6.0 * (alpha * n) * q == q * (6.0 * (alpha * n));
  }

  lemma ScaleLeft(p: real, alpha: real, n: real, x: real, y: real, s: real)
    requires p * (2.0 * alpha) == x * y * s
    ensures p * (6.0 * (alpha * n)) == y * s * (3.0 * n * x)
  {
    assert p * (6.0 * (alpha * n)) == p * (2.0 * alpha) * (3.0 * n);
    assert x * y * s * (3.0 * n) == y * s * (3.0 * n * x);
  }

  lemma ScaleRight(q: real, alpha: real, n: real, y: real, s: real)
    requires q * (6.0 * n) == y * y * s
    ensures q * (6.0 * (alpha * n)) == y * s * (alpha * y)
  {
    assert q * (6.0 * (alpha * n)) == q * (6.0 * n) * alpha;
    assert y * y * s * alpha == y * s * (alpha * y);
  }

  /**
   * Between two losses, the sender sends as much as one of n Reno connections that share its mean window sends between
   * two of its losses, whatever the window, if and only if the factor is Alpha. (Of n connections with one loss each,
   * one loses for every n-th part of what they send together.)
   */
  lemma FriendlyExact(n: nat, alpha: real, w: real, reno: real)
    requires n > 0 && alpha > 0.0 && w > 0.0 && reno > 0.0
    requires Mean(0.5, reno) * n as real == Mean(Beta(n), w)
    ensures Packets(Beta(n), alpha, w) == Packets(0.5, 1.0, reno) <==> alpha == Alpha(n)
  {
    var b, m := Beta(n), n as real;
    AlphaUnique(n, alpha, m * m);
    Same(b, m, alpha, w, reno);
  }

  lemma Same(b: real, m: real, alpha: real, w: real, reno: real)
    requires 0.0 < b < 1.0 && m > 0.0 && alpha > 0.0 && w > 0.0 && reno > 0.0
    requires Mean(0.5, reno) * m == Mean(b, w)
    ensures Packets(b, alpha, w) == Packets(0.5, 1.0, reno) <==> alpha * (1.0 + b) == 3.0 * (m * m) * (1.0 - b)
  {
    var p, q, y, s, n := Packets(b, alpha, w), Packets(0.5, 1.0, reno), 1.0 + b, w * w, m * m;
    assert p * (2.0 * alpha) == (1.0 - b) * y * s by { PacketsAre(b, alpha, w); }
    assert q * (6.0 * n) == y * y * s by {
      RenoPackets(reno);
      Shares(m, Mean(0.5, reno), y, w, q);
    }
    assert s > 0.0 && n > 0.0 by {
      Positive(w, w);
      Positive(m, m);
    }
    Balance(p, q, 1.0 - b, y, s, n, alpha);
  }

  lemma AlphaUnique(n: nat, alpha: real, square: real)
    requires n > 0 && square == n as real * n as real
    ensures alpha * (1.0 + Beta(n)) == 3.0 * square * (1.0 - Beta(n)) <==> alpha == Alpha(n)
  {
    AlphaIs(n);
    Rescale(n as real, 1.0 - Beta(n), square);
    Cancel(1.0 + Beta(n), alpha, Alpha(n));
    Commute(1.0 + Beta(n), alpha);
    Commute(1.0 + Beta(n), Alpha(n));
  }

  lemma Commute(a: real, b: real)
    ensures a * b == b * a
  {
  }

  lemma Rescale(m: real, x: real, square: real)
    requires square == m * m
    ensures 3.0 * m * m * x == 3.0 * square * x
  {
    assert 3.0 * m * m == 3.0 * (m * m);
  }

  /** The mean window k of each of m connections, in terms of the whole. */
  lemma Shares(m: real, k: real, y: real, w: real, q: real)
    requires k * m == y * w / 2.0 && q == 2.0 / 3.0 * (k * k)
    ensures q * (6.0 * (m * m)) == y * y * (w * w)
  {
    assert q * (6.0 * (m * m)) == 4.0 * ((k * m) * (k * m));
    assert (k * m) * (k * m) == (y * w / 2.0) * (y * w / 2.0) == y * y * (w * w) / 4.0;
  }

  // ----- what one more packet costs -----

  /** The factor in terms of the number of connections alone. */
  lemma AlphaClosed(n: nat)
    requires n > 0
    ensures Alpha(n) * (2.0 * n as real - 0.3) == 0.9 * (n as real * n as real)
  {
    var a, b, m := Alpha(n), Beta(n), n as real;
    AlphaIs(n);
    BetaExact(n, 1.0);
    Clear(a, b, m);
  }

  lemma Clear(a: real, b: real, m: real)
    requires m > 0.0 && b * m == m - 0.3 && a * (1.0 + b) == 3.0 * m * m * (1.0 - b)
    ensures a * (2.0 * m - 0.3) == 0.9 * (m * m)
  {
    assert a * (1.0 + b) * m == a * (m + b * m);
    assert 3.0 * m * m * (1.0 - b) * m == 3.0 * (m * m) * (m - b * m);
  }

  /** One or two connections never get more than a packet for a window of acknowledgements. */
  lemma AlphaSmall(n: nat)
    requires 1 <= n <= 2
    ensures Alpha(n) < 1.0
  {
    AlphaClosed(n);
    var a := Alpha(n);
    assert n == 1 ==> a * 1.7 == 0.9;
    assert n == 2 ==> a * 3.7 == 3.6;
  }

  /** So many acknowledgements make the estimate grow by one that a window of them makes it grow by alpha. */
  lemma RequiredExact(estimate: nat, alpha: real)
    requires alpha > 0.0
    ensures var k := Required(estimate, alpha); k as real * alpha <= estimate as real < k as real * alpha + alpha
  {
    var x := Ratio(estimate as real, alpha);
    var k := Required(estimate, alpha) as real;
    assert k <= x < k + 1.0 && x * alpha == estimate as real;
    Sandwich(k, x, alpha, estimate as real);
  }

  lemma Scaled(r: real, a: real) returns (p: real)
    requires r >= 0.0 && a > 0.0
    ensures p == r * a && p >= 0.0 && (r > 0.0 ==> p > 0.0)
  {
    p := r * a;
  }

  lemma Sandwich(k: real, x: real, a: real, product: real)
    requires k <= x < k + 1.0 && a > 0.0 && x * a == product
    ensures k * a <= product < k * a + a
  {
    var below := Scaled(x - k, a);
    var above := Scaled(k + 1.0 - x, a);
    assert below == product - k * a && above == k * a + a - product;
  }

  lemma WindowEach(estimate: nat, alpha: real)
    requires 0.0 < alpha < 1.0
    ensures Required(estimate, alpha) >= estimate
  {
    RequiredExact(estimate, alpha);
    var k := Required(estimate, alpha) as real;
    assert k * alpha <= k;
  }

  lemma {:induction false} CostAtLeast(from: nat, to: nat, alpha: real)
    requires 0.0 < alpha < 1.0 && from <= to
    ensures Cost(from, to, alpha) >= (to - from) * from
    decreases if from <= to then to - from else 0
  {
    if from < to {
      CostAtLeast(from + 1, to, alpha);
      WindowEach(from, alpha);
      More(to - from - 1, from);
    }
  }

  lemma More(n: nat, from: nat)
    ensures n * (from + 1) + from >= (n + 1) * from
  {
  }

  /** With one or two connections, every packet the estimate grows by has cost at least a window of acknowledgements. */
  lemma GrowsSlowly(connections: nat, acked: nat, from: nat, rest: nat, estimate: nat)
    requires 1 <= connections <= 2 && Settles(acked, from, Alpha(connections), rest, estimate)
    ensures (estimate - from) * from <= acked
  {
    AlphaSmall(connections);
    CostAtLeast(from, estimate, Alpha(connections));
  }

  /** A loss leaves the whole packets of what the one connection's cut leaves. */
  lemma ReducedExact(s: Curve, window: nat)
    requires s.connections > 0
    ensures var r := Reduced(s, window); var n := s.connections as real;
            r as real * n <= window as real * (n - 0.3) < r as real * n + n
  {
    var w, b, n := window as real, Beta(s.connections), s.connections as real;
    var r := Reduced(s, window) as real;
    BetaExact(s.connections, w);
    assert (w * b) * n == w * (n - 0.3) by {
      assert w * (b * n) == (w * b) * n;
    }
    assert r <= w * b < r + 1.0;
    Sandwich(r, w * b, n, w * (n - 0.3));
  }

  /** The window that is given is the larger of the curve and the estimate. */
  lemma WindowIsFaster(s: Curve)
    ensures s.lastTarget <= Window(s) && s.estimate <= Window(s)
    ensures Window(s) == s.lastTarget || Window(s) == s.estimate
  {
  }
}
