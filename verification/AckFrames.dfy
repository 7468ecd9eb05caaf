/** ACK frames: the highest range comes first; a frame without missing packets has no ranges at all. */
module AckFrames {

  datatype AckRange = AckRange(first: nat, last: nat)

  datatype AckFrame = AckFrame(largestAcked: nat, lowestAcked: nat, ranges: seq<AckRange>)

  predicate InSome(ranges: seq<AckRange>, p: nat)
    decreases |ranges|
  {
    ranges != [] && (ranges[0].first <= p <= ranges[0].last || InSome(ranges[1..], p))
  }

  /** AcksPacket: whether a frame acknowledges packet number p. */
  predicate Acks(f: AckFrame, p: nat) {
    && f.lowestAcked <= p <= f.largestAcked
    && (f.ranges != [] ==> InSome(f.ranges, p))
  }

  /** Descending ranges at least one number apart, the first of them ending below `high`. */
  predicate Descends(high: nat, ranges: seq<AckRange>)
    decreases |ranges|
  {
    ranges == [] ||
      (&& ranges[0].first <= ranges[0].last < high
       && Descends(if ranges[0].first == 0 then 0 else ranges[0].first - 1, ranges[1..]))
  }

  /** The consistency that a frame is checked for when it is parsed. */
  predicate Consistent(f: AckFrame) {
    && f.lowestAcked <= f.largestAcked
    && (f.ranges != [] ==>
          && Descends(f.largestAcked + 1, f.ranges)
          && f.ranges[0].last == f.largestAcked
          && f.ranges[|f.ranges| - 1].first == f.lowestAcked)
  }

  lemma {:induction false} InSomeBelow(high: nat, ranges: seq<AckRange>, p: nat)
    requires Descends(high, ranges) && InSome(ranges, p)
    ensures p <= ranges[0].last
    decreases |ranges|
  {
    if !(ranges[0].first <= p <= ranges[0].last) {
      InSomeBelow(if ranges[0].first == 0 then 0 else ranges[0].first - 1, ranges[1..], p);
    }
  }

  /**
   * A number above the next lower range is covered exactly if the range at i, which reaches it, begins early enough.
   */
  lemma {:induction false} Located(high: nat, ranges: seq<AckRange>, i: nat, p: nat)
    requires Descends(high, ranges) && i < |ranges| && p <= ranges[i].last
    requires i + 1 < |ranges| ==> p > ranges[i + 1].last
    ensures InSome(ranges, p) <==> ranges[i].first <= p
    decreases i
  {
    var rest := if ranges[0].first == 0 then 0 else ranges[0].first - 1;
    if i == 0 {
      if InSome(ranges[1..], p) {
        InSomeBelow(rest, ranges[1..], p);
      }
    } else {
      Located(rest, ranges[1..], i - 1, p);
      RangeBelow(rest, ranges[1..], i - 1);
    }
  }

  lemma {:induction false} RangeBelow(high: nat, ranges: seq<AckRange>, i: nat)
    requires Descends(high, ranges) && i < |ranges|
    ensures ranges[i].first <= ranges[i].last < high
    decreases i
  {
    if i > 0 {
      RangeBelow(if ranges[0].first == 0 then 0 else ranges[0].first - 1, ranges[1..], i - 1);
    }
  }
}
