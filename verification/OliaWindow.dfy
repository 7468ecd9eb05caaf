/** The congestion window of one OLIA path, with the utility controller's gain and backoff. */
module OliaWindow {
  import opened Basics

  const MSS: nat := 1460
  const MAX_BURST_BYTES: nat := 4380
  const SCALE: int := 1024
  const RENO_BETA: real := 0.7
  const GAIN_MIN: real := 0.8
  const GAIN_MAX: real := 1.2
  const BACKOFF_MIN: real := 0.9
  const BACKOFF_MAX: real := 1.1

  function Clamp(lo: real, hi: real, x: real): real {
    if x < lo then lo else if x > hi then hi else x
  }

  function Distance(a: real, b: real): real { if a < b then b - a else a - b }

  /** No other number between the bounds is nearer to x than y is. */
  ghost predicate NearestIn(lo: real, hi: real, x: real, y: real) {
    lo <= y <= hi && forall z: real :: lo <= z <= hi ==> Distance(y, x) <= Distance(z, x)
  }

  function ClampNat(lo: nat, hi: nat, x: int): nat
    requires lo <= hi
  {
    if x < lo then lo else if x > hi then hi else x
  }

  /** math.Round of a number that is not negative. */
  function Round(x: real): int { (x + 0.5).Floor }

  // ----- OLIA's step on an ACK -----

  /** The signed amount added to the fractional counter, in 64-bit arithmetic. */
  function Increment(num: int, den: nat, cwnd: nat, rate: nat, scaled: nat): int {
    IncrementOf(num, rate, Uint64(den * cwnd * rate), Uint64(den * scaled * scaled))
  }

  /** The same, once the product for the divisor and the product for the dividend are known. */
  function IncrementOf(num: int, rate: nat, divisor: nat, x: nat): int {
    var d := if divisor == 0 then 1 else divisor;
    if num == -1 then
      if x < rate then -Int64(Uint64((rate - x) * SCALE) / d)
      else Int64(Uint64((x - rate) * SCALE) / d)
    else Int64(Uint64(Uint64(Uint64(num) * rate + x) * SCALE) / d)
  }

  /** The counter and the window after an increment: a full count moves the window by one packet. */
  function OliaStep(count: int, cwnd: nat, increment: int): (int, nat) {
    var c := Int64(count + increment);
    if c >= SCALE - 1 then (0, cwnd + 1)
    else if c <= 1 - SCALE then (0, if cwnd > 1 then cwnd - 1 else 1)
    else (c, cwnd)
  }

  /** The window after scaling OLIA's change by the gain. */
  function Scaled(cwnd: nat, target: nat, gain: real, lo: nat, hi: nat): nat
    requires lo <= hi
  {
    ClampNat(lo, hi, Round(cwnd as real + (target as real - cwnd as real) * gain))
  }

  /** Any gain within the bounds leaves a step of at most one packet as it is. */
  lemma GainNeutral(cwnd: nat, target: nat, gain: real, lo: nat, hi: nat)
    requires lo <= hi && GAIN_MIN <= gain <= GAIN_MAX && -1 <= target - cwnd <= 1
    ensures Scaled(cwnd, target, gain, lo, hi) == ClampNat(lo, hi, target)
  {
    var delta := target as real - cwnd as real;
    if target == cwnd {
      assert delta * gain == 0.0;
    } else if target == cwnd + 1 {
      assert delta == 1.0;
      RoundNear(target, cwnd as real + gain);
    } else {
      assert delta == -1.0;
      RoundNear(target, cwnd as real - gain);
    }
  }

  lemma RoundNear(n: int, x: real)
    requires n as real - 0.5 <= x < n as real + 0.5
    ensures Round(x) == n
  {
  }

  lemma OliaStepSmall(count: int, cwnd: nat, increment: int)
    requires cwnd >= 1
    ensures var (c, w) := OliaStep(count, cwnd, increment);
      1 - SCALE < c < SCALE - 1 && -1 <= w - cwnd <= 1 && w >= 1
  {
  }

  // ----- slow start -----

  /** Fractional growth: `gain` is added to the accumulator, and whole packets move on to the window. */
  function Grow(cwnd: nat, accum: real, gain: real, max: nat): (nat, real)
    requires cwnd <= max && accum >= 0.0 && gain >= 0.0
  {
    var n := Min((accum + gain).Floor, max - cwnd);
    (cwnd + n, accum + gain - n as real)
  }

  function TotalGain(gains: seq<real>): real {
    if gains == [] then 0.0 else TotalGain(gains[..|gains| - 1]) + gains[|gains| - 1]
  }

  predicate AllPositive(gains: seq<real>) {
    forall i :: 0 <= i < |gains| ==> gains[i] >= 0.0
  }

  /** The window after a run of ACKs: each takes effect while the window is below the threshold and the maximum. */
  function GrowAll(cwnd: nat, accum: real, gains: seq<real>, ssthresh: nat, max: nat): (r: (nat, real))
    requires cwnd <= max && accum >= 0.0 && AllPositive(gains)
    ensures r.0 <= max && r.1 >= 0.0
    decreases |gains|
  {
    if gains == [] then (cwnd, accum) else
      var (w, a) := GrowAll(cwnd, accum, gains[..|gains| - 1], ssthresh, max);
      if w < ssthresh && w < max then Grow(w, a, gains[|gains| - 1], max) else (w, a)
  }

  /** The gains that took effect. */
  function Effective(cwnd: nat, accum: real, gains: seq<real>, ssthresh: nat, max: nat): real
    requires cwnd <= max && accum >= 0.0 && AllPositive(gains)
    decreases |gains|
  {
    if gains == [] then 0.0 else
      var before := gains[..|gains| - 1];
      var (w, _) := GrowAll(cwnd, accum, before, ssthresh, max);
      Effective(cwnd, accum, before, ssthresh, max) + if w < ssthresh && w < max then gains[|gains| - 1] else 0.0
  }

  /**
   * Over any run of ACKs, window and accumulator together grow by exactly the gains that took effect, whatever is
   * rounded on the way, and no whole packet stays in the accumulator below the maximum.
   */
  lemma {:induction false} GrowthExact(cwnd: nat, accum: real, gains: seq<real>, ssthresh: nat, max: nat)
    requires cwnd <= max && accum >= 0.0 && AllPositive(gains)
    ensures var (w, a) := GrowAll(cwnd, accum, gains, ssthresh, max);
      && w as real + a == cwnd as real + accum + Effective(cwnd, accum, gains, ssthresh, max)
      && w >= cwnd && (w == max || a < 1.0 || (w, a) == (cwnd, accum))
    decreases |gains|
  {
    if gains != [] {
      GrowthExact(cwnd, accum, gains[..|gains| - 1], ssthresh, max);
    }
  }

  /** The window never shrinks on the way. */
  lemma {:induction false} GrowsOnly(cwnd: nat, accum: real, gains: seq<real>, ssthresh: nat, max: nat, k: nat)
    requires cwnd <= max && accum >= 0.0 && AllPositive(gains) && k <= |gains|
    ensures GrowAll(cwnd, accum, gains[..k], ssthresh, max).0 <= GrowAll(cwnd, accum, gains, ssthresh, max).0
    decreases |gains|
  {
    if k == |gains| {
      assert gains[..k] == gains;
    } else {
      GrowsOnly(cwnd, accum, gains[..|gains| - 1], ssthresh, max, k);
      assert gains[..|gains| - 1][..k] == gains[..k];
    }
  }

  /** While slow start lasts, every gain takes effect. */
  lemma {:induction false} AllEffective(cwnd: nat, accum: real, gains: seq<real>, ssthresh: nat, max: nat)
    requires cwnd <= max && accum >= 0.0 && AllPositive(gains) && gains != []
    requires var (w, _) := GrowAll(cwnd, accum, gains[..|gains| - 1], ssthresh, max); w < ssthresh && w < max
    ensures Effective(cwnd, accum, gains, ssthresh, max) == TotalGain(gains)
    decreases |gains|
  {
    var before := gains[..|gains| - 1];
    if before != [] {
      GrowsOnly(cwnd, accum, before, ssthresh, max, |before| - 1);
      AllEffective(cwnd, accum, before, ssthresh, max);
    }
  }

  // ----- one cut per flight -----

  datatype CutEvent = Sent(sent: nat) | Lost(lost: nat) | Reset

  /** The largest number sent, and the largest that had been sent when the window was last cut. */
  datatype Cutback = Cutback(largestSent: nat, atCut: nat)

  function Note(c: Cutback, e: CutEvent): Cutback {
    match e
    case Sent(n) => c.(largestSent := n)
    case Lost(n) => if n <= c.atCut then c else c.(atCut := c.largestSent)
    case Reset => c.(atCut := 0)
  }

  function NoteAll(events: seq<CutEvent>): Cutback {
    if events == [] then Cutback(0, 0) else Note(NoteAll(events[..|events| - 1]), events[|events| - 1])
  }

  /** The loss at i is one that cuts the window. */
  predicate Cuts(events: seq<CutEvent>, i: nat) {
    i < |events| && events[i].Lost? && events[i].lost > NoteAll(events[..i]).atCut
  }

  /** Packets are numbered upwards, and only packets that were sent are lost. */
  predicate Orderly(events: seq<CutEvent>) {
    && (forall i, j :: 0 <= i < j < |events| && events[i].Sent? && events[j].Sent? ==> events[i].sent < events[j].sent)
    && (forall j :: 0 <= j < |events| && events[j].Lost? ==> WasSent(events, j, events[j].lost))
  }

  predicate WasSent(events: seq<CutEvent>, j: nat, n: nat)
    requires j <= |events|
  {
    exists i :: 0 <= i < j && events[i] == Sent(n)
  }

  lemma {:induction false} SentBelow(events: seq<CutEvent>, i: nat, k: nat)
    requires Orderly(events) && k < i <= |events| && events[k].Sent?
    ensures events[k].sent <= NoteAll(events[..i]).largestSent
    decreases i
  {
    assert events[..i][..i - 1] == events[..i - 1];
    if k < i - 1 {
      SentBelow(events, i - 1, k);
      if events[i - 1].Sent? {
        assert events[k].sent < events[i - 1].sent;
      }
    }
  }

  /** Without a reset, the mark set at a cut never falls below what had been sent by then. */
  lemma {:induction false} MarkStays(events: seq<CutEvent>, i: nat, j: nat)
    requires Orderly(events) && i < j <= |events| && Cuts(events, i)
    requires forall k :: i < k < j ==> !events[k].Reset?
    ensures NoteAll(events[..j]).atCut >= NoteAll(events[..i]).largestSent
    ensures NoteAll(events[..j]).largestSent >= NoteAll(events[..i]).largestSent
    decreases j
  {
    assert events[..j][..j - 1] == events[..j - 1];
    if j > i + 1 {
      MarkStays(events, i, j - 1);
      if events[j - 1].Sent? {
        SentHighest(events, j - 1);
      }
    }
  }

  /** What is sent next is above everything sent before. */
  lemma {:induction false} SentHighest(events: seq<CutEvent>, j: nat)
    requires Orderly(events) && j < |events| && events[j].Sent?
    ensures NoteAll(events[..j]).largestSent <= events[j].sent
  {
    HighestIsSent(events, j);
    if NoteAll(events[..j]).largestSent > 0 {
      var k :| 0 <= k < j && events[k] == Sent(NoteAll(events[..j]).largestSent);
    }
  }

  lemma {:induction false} HighestIsSent(events: seq<CutEvent>, j: nat)
    requires j <= |events|
    ensures NoteAll(events[..j]).largestSent == 0 || WasSent(events, j, NoteAll(events[..j]).largestSent)
    decreases j
  {
    if j > 0 {
      assert events[..j][..j - 1] == events[..j - 1];
      HighestIsSent(events, j - 1);
      if NoteAll(events[..j - 1]).largestSent > 0 && !events[j - 1].Sent? {
        var k :| 0 <= k < j - 1 && events[k] == Sent(NoteAll(events[..j - 1]).largestSent);
      } else if events[j - 1].Sent? {
        assert events[j - 1] == Sent(NoteAll(events[..j]).largestSent);
      }
    }
  }

  /** Between two cuts without a reset, the packet whose loss makes the second cut was sent after the first. */
  lemma OneCutPerFlight(events: seq<CutEvent>, i: nat, j: nat)
    requires Orderly(events) && i < j && Cuts(events, i) && Cuts(events, j)
    requires forall k :: i < k < j ==> !events[k].Reset?
    ensures exists k :: i < k < j && events[k] == Sent(events[j].lost)
  {
    MarkStays(events, i, j);
    assert WasSent(events, j, events[j].lost);
    var k :| 0 <= k < j && events[k] == Sent(events[j].lost);
    if k < i {
      SentBelow(events, i, k);
    }
  }
}
