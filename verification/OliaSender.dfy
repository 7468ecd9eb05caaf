/** OLIA's sender for one path: every event keeps the window within its bounds. */
module OliaSenderClass {
  import opened Basics
  import opened OliaEpsilon
  import opened OliaWindow

  class OliaSender {
    const minCwnd: nat
    const initialCwnd: nat
    const initialMax: nat
    const numConnections: nat
    var cwnd: nat
    var ssthresh: nat
    var maxCwnd: nat
    var largestSent: nat
    var largestAcked: nat
    var largestSentAtLastCutback: nat
    var lastCutbackExitedSlowstart: bool
    var slowStartLargeReduction: bool
    var slowstartPacketsLost: nat
    var slowstartBytesLost: nat
    var gain: real
    var backoff: real
    var accum: real
    var epsilon: Epsilon
    var sndCwndCnt: int
    var loss1: nat
    var loss2: nat
    var loss3: nat

    /** The window, the counter and the controls are within bounds, and the byte counts at losses ascend. */
    ghost predicate Valid()
      reads this
    {
      && 1 <= minCwnd <= cwnd <= maxCwnd && maxCwnd == initialMax && minCwnd <= initialCwnd <= initialMax
      && numConnections >= 1
      && 1 - SCALE < sndCwndCnt < SCALE - 1
      && GAIN_MIN <= gain <= GAIN_MAX && BACKOFF_MIN <= backoff <= BACKOFF_MAX && accum >= 0.0
      && loss1 <= loss2 <= loss3
    }

    /** The counters of bytes acknowledged at the last losses. */
    ghost function Losses(): Counters
      reads this
    {
      Counters(loss1, loss2, loss3)
    }

    ghost function Cut(): Cutback
      reads this
    {
      Cutback(largestSent, largestSentAtLastCutback)
    }

    constructor (minCwnd: nat, initialCwnd: nat, initialMax: nat, numConnections: nat)
      requires 1 <= minCwnd <= initialCwnd <= initialMax && numConnections >= 1
      ensures Valid() && cwnd == initialCwnd && Cut() == Cutback(0, 0)
    {
      this.minCwnd, this.initialCwnd, this.initialMax := minCwnd, initialCwnd, initialMax;
      this.numConnections := numConnections;
      cwnd, ssthresh, maxCwnd := initialCwnd, initialMax, initialMax;
      largestSent, largestAcked, largestSentAtLastCutback := 0, 0, 0;
      lastCutbackExitedSlowstart, slowStartLargeReduction := false, false;
      slowstartPacketsLost, slowstartBytesLost := 0, 0;
      gain, backoff, accum := 1.0, 1.0, 0.0;
      epsilon, sndCwndCnt := Epsilon(0, 1), 0;
      loss1, loss2, loss3 := 0, 0, 0;
    }

    predicate InSlowStart()
      reads this
    {
      cwnd * MSS < ssthresh * MSS
    }

    predicate InRecovery()
      reads this
    {
      largestAcked <= largestSentAtLastCutback && largestAcked != 0
    }

    predicate IsCwndLimited(bytesInFlight: nat)
      reads this
    {
      bytesInFlight >= cwnd * MSS
      || (InSlowStart() && bytesInFlight > cwnd * MSS / 2)
      || cwnd * MSS - bytesInFlight <= MAX_BURST_BYTES
    }

    /** None stands for a value that is not a finite number. */
    method SetUtilityControl(newGain: Option<real>, newBackoff: Option<real>)
      requires Valid()
      modifies this`gain, this`backoff
      ensures Valid()
      ensures if newGain.None? then gain == 1.0 else NearestIn(GAIN_MIN, GAIN_MAX, newGain.value, gain)
      ensures if newBackoff.None? then backoff == 1.0
          else NearestIn(BACKOFF_MIN, BACKOFF_MAX, newBackoff.value, backoff)
    {
      gain := if newGain.None? then 1.0 else Clamp(GAIN_MIN, GAIN_MAX, newGain.value);
      backoff := if newBackoff.None? then 1.0 else Clamp(BACKOFF_MIN, BACKOFF_MAX, newBackoff.value);
    }

    method OnPacketSent(number: nat, retransmittable: bool)
      requires Valid()
      modifies this`largestSent
      ensures Valid() && Cut() == if retransmittable then Note(old(Cut()), Sent(number)) else old(Cut())
    {
      if retransmittable {
        largestSent := number;
      }
    }

    /** Slow start: the accumulator takes the gain and gives whole packets to the window. */
    method GrowSlowStart()
      requires Valid()
      modifies this`cwnd, this`accum
      ensures Valid() && (cwnd, accum) == Grow(old(cwnd), old(accum), gain, maxCwnd)
    {
      accum := accum + gain;
      ghost var total := accum;
      while accum >= 1.0 && cwnd < maxCwnd
        invariant old(cwnd) <= cwnd <= maxCwnd && accum >= 0.0
        invariant accum == total - (cwnd - old(cwnd)) as real
        decreases maxCwnd - cwnd
      {
        cwnd := cwnd + 1;
        accum := accum - 1.0;
      }
      FloorIs(total, cwnd - old(cwnd), accum);
    }

    /** Congestion avoidance: the same clamped step as OLIA without a gain. */
    method GrowAvoidance(share: Epsilon, rate: nat)
      requires Valid() && cwnd < maxCwnd
      modifies this`cwnd, this`sndCwndCnt, this`epsilon
      ensures Valid() && epsilon == share
      ensures var (c, w) := OliaStep(old(sndCwndCnt), old(cwnd),
          Increment(share.num, share.den, old(cwnd), rate, old(cwnd) * SCALE));
        sndCwndCnt == c && cwnd == ClampNat(minCwnd, maxCwnd, w)
    {
      epsilon := share;
      var step := OliaStep(sndCwndCnt, cwnd, Increment(share.num, share.den, cwnd, rate, cwnd * SCALE));
      OliaStepSmall(sndCwndCnt, cwnd, Increment(share.num, share.den, cwnd, rate, cwnd * SCALE));
      var target := Min(maxCwnd, step.1);
      GainNeutral(cwnd, target, gain, minCwnd, maxCwnd);
      sndCwndCnt := step.0;
      cwnd := Scaled(cwnd, target, gain, minCwnd, maxCwnd);
    }

    /** `share` and `rate` are what getEpsilon and getRate find over all paths. */
    method OnPacketAcked(number: nat, bytes: nat, bytesInFlight: nat, share: Epsilon, rate: nat)
      requires Valid()
      modifies this`largestAcked, this`loss3, this`cwnd, this`accum, this`sndCwndCnt, this`epsilon
      ensures Valid() && Cut() == old(Cut()) && largestAcked == Max(number, old(largestAcked))
      ensures Losses() == if InRecovery() then old(Losses()) else Counted(old(Losses()), BytesAcked(bytes))
      ensures if InRecovery() || !old(IsCwndLimited(bytesInFlight)) || old(cwnd) >= maxCwnd
              then cwnd == old(cwnd) && accum == old(accum) && sndCwndCnt == old(sndCwndCnt)
              else if old(InSlowStart()) then (cwnd, accum) == Grow(old(cwnd), old(accum), gain, maxCwnd)
              else
                var (c, w) := OliaStep(old(sndCwndCnt), old(cwnd),
                    Increment(share.num, share.den, old(cwnd), rate, old(cwnd) * SCALE));
                cwnd == ClampNat(minCwnd, maxCwnd, w) && sndCwndCnt == c && epsilon == share
    {
      largestAcked := Max(number, largestAcked);
      if InRecovery() {
        return;
      }
      loss3 := loss3 + bytes;
      if !IsCwndLimited(bytesInFlight) || cwnd >= maxCwnd {
        return;
      }
      if InSlowStart() {
        GrowSlowStart();
      } else {
        GrowAvoidance(share, rate);
      }
    }

    /**
     * A loss of a packet sent since the last cut cuts the window; other losses leave it alone unless large reductions
     * are on.
     */
    method OnPacketLost(number: nat, lostBytes: nat)
      requires Valid()
      modifies this
      ensures Valid() && Cut() == Note(old(Cut()), Lost(number)) && cwnd <= old(cwnd)
      ensures slowStartLargeReduction == old(slowStartLargeReduction)
      ensures number <= old(largestSentAtLastCutback) ==>
                cwnd == old(if ShrinksAgain(lostBytes) then Max(cwnd - 1, minCwnd) else cwnd) &&
                ssthresh == if old(lastCutbackExitedSlowstart && slowStartLargeReduction) then cwnd else old(ssthresh)
      ensures number > old(largestSentAtLastCutback) ==>
                ssthresh == cwnd == old(CutSize()) && lastCutbackExitedSlowstart == old(InSlowStart())
      ensures Losses() ==
              if number > old(largestSentAtLastCutback) then Counted(old(Losses()), LossSeen) else old(Losses())
    {
      if number <= largestSentAtLastCutback {
        CountLoss(lostBytes);
      } else {
        CutWindow();
      }
    }

    /** A further loss of the same flight takes one more packet off, for every MSS lost after slow start. */
    predicate ShrinksAgain(lostBytes: nat)
      reads this
    {
      && lastCutbackExitedSlowstart && slowStartLargeReduction
      && (slowstartPacketsLost == 0 || FillsPacket(slowstartBytesLost, lostBytes))
    }

    method CountLoss(lostBytes: nat)
      requires Valid()
      modifies this`slowstartPacketsLost, this`slowstartBytesLost, this`cwnd, this`ssthresh
      ensures Valid() && cwnd == old(if ShrinksAgain(lostBytes) then Max(cwnd - 1, minCwnd) else cwnd)
      ensures ssthresh == if lastCutbackExitedSlowstart && slowStartLargeReduction then cwnd else old(ssthresh)
      ensures slowstartPacketsLost == old(slowstartPacketsLost) + (if lastCutbackExitedSlowstart then 1 else 0)
      ensures slowstartBytesLost == old(slowstartBytesLost) + (if lastCutbackExitedSlowstart then lostBytes else 0)
    {
      if lastCutbackExitedSlowstart {
        slowstartPacketsLost := slowstartPacketsLost + 1;
        slowstartBytesLost := slowstartBytesLost + lostBytes;
        if slowStartLargeReduction {
          if slowstartPacketsLost == 1 || slowstartBytesLost / MSS > (slowstartBytesLost - lostBytes) / MSS {
            cwnd := Max(cwnd - 1, minCwnd);
          }
          ssthresh := cwnd;
        }
      }
    }

    /** What a cut makes of the window. */
    ghost function CutSize(): int
      requires numConnections >= 1 && cwnd >= 1
      reads this
    {
      if slowStartLargeReduction && InSlowStart() then Max(cwnd - 1, minCwnd)
      else CutTo(cwnd, numConnections, backoff, minCwnd)
    }

    method CutWindow()
      requires Valid()
      modifies this`cwnd, this`ssthresh, this`lastCutbackExitedSlowstart, this`slowstartPacketsLost, this`loss1,
          this`loss2, this`largestSentAtLastCutback
      ensures Valid() && ssthresh == cwnd == old(CutSize()) <= old(cwnd) && largestSentAtLastCutback == largestSent
      ensures lastCutbackExitedSlowstart == old(InSlowStart()) && Losses() == Counted(old(Losses()), LossSeen)
      ensures slowstartPacketsLost == old(slowstartPacketsLost) + (if old(InSlowStart()) then 1 else 0)
    {
      lastCutbackExitedSlowstart := InSlowStart();
      if InSlowStart() {
        slowstartPacketsLost := slowstartPacketsLost + 1;
      }
      loss1, loss2 := loss2, loss3;
      ReduceWindow();
      ssthresh := cwnd;
      largestSentAtLastCutback := largestSent;
    }

    method ReduceWindow()
      requires Valid()
      modifies this`cwnd
      ensures Valid() && cwnd == old(CutSize()) <= old(cwnd)
    {
      var reduced: nat;
      if slowStartLargeReduction && InSlowStart() {
        reduced := cwnd - 1;
      } else {
        reduced := Shrunk(cwnd, EffectiveBeta(numConnections, backoff));
      }
      cwnd := if reduced < minCwnd then minCwnd else reduced;
    }

    method OnRetransmissionTimeout(packetsRetransmitted: bool)
      requires Valid()
      modifies this
      ensures Valid() && Cut() == Note(old(Cut()), Reset)
      ensures packetsRetransmitted ==> cwnd == minCwnd && ssthresh == old(cwnd) / 2
      ensures !packetsRetransmitted ==> cwnd == old(cwnd) && ssthresh == old(ssthresh)
      ensures packetsRetransmitted ==> loss1 == loss2 == loss3 == 0 && sndCwndCnt == 0 && epsilon == Epsilon(0, 1)
      ensures !packetsRetransmitted ==> loss3 == old(loss3) && sndCwndCnt == old(sndCwndCnt) && epsilon == old(epsilon)
    {
      largestSentAtLastCutback := 0;
      if !packetsRetransmitted {
        return;
      }
      ResetOlia();
      ssthresh := cwnd / 2;
      cwnd := minCwnd;
    }

    method ResetOlia()
      requires Valid()
      modifies this`loss1, this`loss2, this`loss3, this`epsilon, this`sndCwndCnt
      ensures Valid() && loss1 == loss2 == loss3 == 0 && sndCwndCnt == 0 && epsilon == Epsilon(0, 1)
    {
      loss1, loss2, loss3 := 0, 0, 0;
      epsilon, sndCwndCnt := Epsilon(0, 1), 0;
    }

    method OnConnectionMigration()
      requires Valid()
      modifies this
      ensures Valid() && Cut() == Cutback(0, 0) && cwnd == initialCwnd && ssthresh == initialMax && accum == 0.0
      ensures largestAcked == 0 && !lastCutbackExitedSlowstart
      ensures loss1 == loss2 == loss3 == 0 && sndCwndCnt == 0 && epsilon == Epsilon(0, 1)
    {
      largestSent, largestAcked, largestSentAtLastCutback := 0, 0, 0;
      lastCutbackExitedSlowstart := false;
      ResetOlia();
      accum := 0.0;
      cwnd, ssthresh, maxCwnd := initialCwnd, initialMax, initialMax;
    }
  }

  /** With these bytes, the bytes lost so far fill one more packet. */
  predicate FillsPacket(before: nat, lost: nat) { (before + lost) / MSS > before / MSS }

  /** The share of the window that a cut leaves. */
  function EffectiveBeta(numConnections: nat, backoff: real): (beta: real)
    requires numConnections >= 1
    ensures 0.0 < beta <= 1.0
  {
    var n := numConnections as real;
    var beta := (n - 1.0 + RENO_BETA) / n * backoff;
    if beta > 1.0 then 1.0 else if beta <= 0.0 then 0.000000001 else beta
  }

  function CutTo(w: nat, numConnections: nat, backoff: real, lo: nat): int
    requires numConnections >= 1
  {
    var reduced := Shrunk(w, EffectiveBeta(numConnections, backoff));
    if reduced < lo then lo else reduced
  }

  function Shrunk(w: nat, beta: real): (r: nat)
    requires 0.0 < beta <= 1.0
    ensures r <= w
  {
    CutBelow(w, beta);
    (w as real * beta).Floor
  }

  lemma CutBelow(w: nat, beta: real)
    requires 0.0 < beta <= 1.0
    ensures 0 <= (w as real * beta).Floor <= w
  {
    assert 0.0 <= w as real * beta <= w as real;
  }

  lemma FloorIs(total: real, n: nat, rest: real)
    requires rest == total - n as real && rest >= 0.0
    ensures n <= total.Floor
    ensures rest < 1.0 ==> total.Floor == n
  {
  }
}
