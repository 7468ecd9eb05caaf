/**
 * The state of one CUBIC sender: its epochs, its application-limited periods and the Reno estimate that runs beside
 * it.
 */
module CubicWindow {
  import opened Basics
  import opened Cubic

  // ----- the Reno estimate -----

  /** Real division, with what is needed of it. */
  function Ratio(x: real, y: real): (r: real)
    requires x >= 0.0 && y > 0.0
    ensures r >= 0.0 && r * y == x
    ensures x > 0.0 ==> r > 0.0
    ensures x < y ==> r < 1.0
    ensures x >= y ==> r >= 1.0
  {
    var r := x / y;
    assert r * y == x;
    Sign(r, y);
    Sign(r - 1.0, y);
    assert (r - 1.0) * y == x - y;
    r
  }

  function Beta(connections: nat): (b: real)
    requires connections > 0
    ensures 0.0 < b < 1.0
  {
    Ratio(connections as real - 1.0 + 0.7, connections as real)
  }

  function Alpha(connections: nat): (a: real)
    requires connections > 0
    ensures a > 0.0
  {
    var b := Beta(connections);
    var n := connections as real;
    assert n * n > 0.0;
    Ratio(3.0 * n * n * (1.0 - b), 1.0 + b)
  }

  /** How many acknowledged packets it takes to let the estimate grow from `estimate` to the next. */
  function Required(estimate: nat, alpha: real): nat
    requires alpha > 0.0
  {
    Ratio(estimate as real, alpha).Floor
  }

  /** How many it takes to get from one estimate to another. */
  function Cost(from: nat, to: nat, alpha: real): nat
    requires alpha > 0.0 && from <= to
    decreases if from <= to then to - from else 0
  {
    if from == to then 0 else Required(from, alpha) + Cost(from + 1, to, alpha)
  }

  /** `estimate` is as far as `acked` packets go, and `rest` of them are left over. */
  predicate Settles(acked: nat, from: nat, alpha: real, rest: nat, estimate: nat)
    requires alpha > 0.0
  {
    && from <= estimate
    && acked == Cost(from, estimate, alpha) + rest
    && rest < Required(estimate, alpha)
  }

  lemma {:induction false} CostSplits(from: nat, mid: nat, to: nat, alpha: real)
    requires alpha > 0.0 && from <= mid <= to
    ensures Cost(from, to, alpha) == Cost(from, mid, alpha) + Cost(mid, to, alpha)
    decreases if from <= mid then mid - from else 0
  {
    if from < mid {
      CostSplits(from + 1, mid, to, alpha);
    }
  }

  /** The estimate is exactly the largest one that the acknowledged packets pay for. */
  lemma SettlesExact(acked: nat, from: nat, alpha: real, rest: nat, estimate: nat, other: nat)
    requires alpha > 0.0 && Settles(acked, from, alpha, rest, estimate) && from <= other
    ensures Cost(from, other, alpha) <= acked <==> other <= estimate
  {
    if other <= estimate {
      CostSplits(from, other, estimate, alpha);
    } else {
      CostSplits(from, estimate, other, alpha);
    }
  }

  lemma SettlesOnce(acked: nat, from: nat, alpha: real, r1: nat, e1: nat, r2: nat, e2: nat)
    requires alpha > 0.0 && Settles(acked, from, alpha, r1, e1) && Settles(acked, from, alpha, r2, e2)
    ensures r1 == r2 && e1 == e2
  {
    SettlesExact(acked, from, alpha, r1, e1, e2);
    SettlesExact(acked, from, alpha, r2, e2, e1);
  }

  lemma RequiredGrows(estimate: nat, alpha: real)
    requires alpha > 0.0 && estimate as real >= alpha
    ensures Required(estimate, alpha) >= 1
  {
    assert Ratio(estimate as real, alpha) >= 1.0;
  }

  /** How far the estimate is from costing at least one packet a step. */
  function Free(estimate: nat, alpha: real): nat
    requires alpha > 0.0
  {
    if estimate <= alpha.Floor then alpha.Floor + 1 - estimate else 0
  }

  function Reno(acked: nat, estimate: nat, alpha: real): (r: (nat, nat))
    requires alpha > 0.0
    ensures Settles(acked, estimate, alpha, r.0, r.1)
    decreases acked, Free(estimate, alpha)
  {
    var required := Required(estimate, alpha);
    if acked < required then (acked, estimate) else
      assert required == 0 ==> estimate as real < alpha by {
        if estimate as real >= alpha {
          RequiredGrows(estimate, alpha);
        }
      }
      Reno(acked - required, estimate + 1, alpha)
  }

  // ----- epochs -----

  /** Times are in nanoseconds; None is the zero time. */
  datatype Curve = Curve(
    connections: nat,
    epoch: Option<int>,
    limited: Option<int>,
    updated: Option<int>,
    lastWindow: nat,
    lastMax: nat,
    acked: nat,
    estimate: nat,
    origin: nat,
    k: nat,
    lastTarget: nat)

  const INTERVAL: int := 30_000_000

  /** Go's division: it rounds towards zero. */
  function Quotient(a: int, b: nat): int
    requires b > 0
  {
    if a >= 0 then a / b else -(-a / b)
  }

  /** A duration in 1024ths of a second. */
  function Ticks(duration: int): int { Quotient(Int64(Quotient(duration, 1000) * 1024), 1_000_000) }

  /** The window the sender gets: the faster of the two. */
  function Window(s: Curve): nat { Max(s.lastTarget, s.estimate) }

  /** Nothing is computed anew within 30 ms while the window stays the same. */
  predicate Recent(s: Curve, window: nat, now: int) {
    s.lastWindow == window && s.updated.Some? && now - s.updated.value <= INTERVAL
  }

  /** The first acknowledgement after a loss starts an epoch. */
  function Begun(s: Curve, window: nat, now: int): Curve {
    s.(epoch := Some(now), acked := 1, estimate := window,
       origin := if s.lastMax <= window then window else s.lastMax,
       k := if s.lastMax <= window then 0 else CubeRoot(Uint64(CUBE_FACTOR * (s.lastMax - window))))
  }

  /** A later one moves the epoch through the application-limited period. */
  function Shifted(s: Curve, now: int): Curve
    requires s.epoch.Some?
  {
    if s.limited.None? then s
    else s.(epoch := Some(s.epoch.value + (now - s.limited.value)), limited := None)
  }

  function Placed(s: Curve, window: nat, now: int): (t: Curve)
    ensures t.epoch.Some? && t.connections == s.connections
  {
    var t := s.(acked := s.acked + 1, lastWindow := window, updated := Some(now));
    if s.epoch.None? then Begun(t, window, now) else Shifted(t, now)
  }

  /** The position on the curve that an acknowledgement finds. */
  function Position(s: Curve, window: nat, now: int, delay: int): int {
    Ticks(now + delay - Placed(s, window, now).epoch.value)
  }

  function Grown(s: Curve, position: int): Curve
    requires s.connections > 0
  {
    var r := Reno(s.acked, s.estimate, Alpha(s.connections));
    s.(acked := r.0, estimate := r.1, lastTarget := Target(s.origin, s.k, position))
  }

  function AfterAck(s: Curve, window: nat, now: int, delay: int): Curve
    requires s.connections > 0
  {
    if Recent(s, window, now) then s.(acked := s.acked + 1)
    else Grown(Placed(s, window, now), Position(s, window, now, delay))
  }

  function AfterLoss(s: Curve, window: nat): Curve {
    s.(epoch := None, lastMax := if window < s.lastMax then (0.85 * window as real).Floor else window)
  }

  function Reduced(s: Curve, window: nat): nat
    requires s.connections > 0
  {
    (window as real * Beta(s.connections)).Floor
  }

  function Limit(s: Curve, now: int): Curve {
    if s.limited.None? then s.(limited := Some(now)) else s
  }

  function Cleared(connections: nat): Curve { Curve(connections, None, None, None, 0, 0, 0, 0, 0, 0, 0) }
}
