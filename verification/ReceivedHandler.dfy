/** What a receiver keeps about the packets of one path, and the ACK frames it makes of it. */
module ReceivedHandler {
  import opened Basics
  import opened AckFrames
  import opened ReceivedHistory

  /** The largest number seen, the limit below which nothing is acknowledged, and the numbers recorded. */
  datatype Receiver = Receiver(largest: nat, lowerLimit: nat, recorded: set<nat>)

  function Receive(r: Receiver, p: nat): Receiver {
    var r := r.(largest := Max(r.largest, p));
    if p <= r.lowerLimit then r else r.(recorded := r.recorded + {p})
  }

  function Limit(r: Receiver, p: nat): Receiver {
    r.(lowerLimit := p, recorded := Beyond(r.recorded, p))
  }

  /** Nothing has been received, or the largest number is recorded and above the limit. */
  predicate Sound(r: Receiver) {
    if r.largest == 0 then r.recorded == {} && r.lowerLimit == 0
    else r.largest in r.recorded && r.lowerLimit < r.largest && forall x :: x in r.recorded ==> x <= r.largest
  }

  lemma ReceiveSound(r: Receiver, p: nat)
    requires Sound(r) && p >= 1
    ensures Sound(Receive(r, p)) && Receive(r, p).largest == Max(r.largest, p)
  {
  }

  /** A lower limit is harmless if and only if it stays below the largest number received. */
  lemma LimitSound(r: Receiver, p: nat)
    requires Sound(r) && r.largest > 0
    ensures Sound(Limit(r, p)) <==> p < r.largest
  {
  }

  /** The frame acknowledges exactly the recorded numbers. */
  ghost predicate FrameOf(r: Receiver, f: AckFrame) {
    f.largestAcked == r.largest && Consistent(f) && forall p: nat :: Acks(f, p) <==> p in r.recorded
  }

  lemma {:induction false} TopOf(low: nat, ranges: seq<Range>, largest: nat)
    requires Apart(low, ranges) && largest in Members(ranges)
    requires forall x :: x in Members(ranges) ==> x <= largest
    ensures ranges != [] && ranges[|ranges| - 1].end == largest
  {
    LastIn(low, ranges);
    MembersUpTo(low, ranges, largest);
  }

  /** The frame built from a range list whose top is the largest number. */
  lemma FrameBuilt(r: Receiver, ranges: seq<Range>)
    requires Apart(0, ranges) && Members(ranges) == r.recorded && Sound(r) && r.largest > 0
    ensures var acks := Descending(ranges);
      && |acks| == |ranges| > 0
      && FrameOf(r, AckFrame(r.largest, acks[|acks| - 1].first, if |acks| > 1 then acks else []))
  {
    TopOf(0, ranges, r.largest);
    DescendingDescends(0, ranges);
    var acks := Descending(ranges);
    var f := AckFrame(r.largest, acks[|acks| - 1].first, if |acks| > 1 then acks else []);
    LowestFirst(r.largest + 1, acks);
    forall p: nat ensures Acks(f, p) <==> p in r.recorded {
      DescendingMembers(ranges, p);
      if p in r.recorded {
        ApartFrom(0, ranges[0].start, ranges);
        MembersFrom(ranges[0].start, ranges, p);
      }
      if |acks| == 1 {
        OnlyRange(acks, p);
      }
    }
  }

  lemma OnlyRange(acks: seq<AckRange>, p: nat)
    requires |acks| == 1
    ensures InSome(acks, p) <==> acks[0].first <= p <= acks[0].last
  {
    assert acks[1..] == [];
  }

  const MAX_PACKETS_BEFORE_ACK := 20
  const RETRANSMITTABLE_BEFORE_ACK := 2
  const ACK_SEND_DELAY := 25

  datatype ReceiveError = NoError | InvalidPacketNumber | TooManyRanges

  class ReceivedPacketHandler {
    const history: ReceivedPacketHistory
    const legacyVersion: bool
    var largestObserved: nat
    var lowerLimit: nat
    var packetsSinceLastAck: nat
    var retransmittableSinceLastAck: nat
    var ackQueued: bool
    var ackAlarm: Option<int>
    var lastAck: Option<AckFrame>

    ghost function State(): Receiver
      reads this, history
    {
      Receiver(largestObserved, lowerLimit, Members(history.ranges))
    }

    /**
     * An ACK is due or scheduled whenever a packet that asks for one has not been acknowledged; only then, something
     * is recorded.
     */
    ghost predicate Valid()
      reads this, history
    {
      && history.Valid()
      && (retransmittableSinceLastAck > 0 ==> ackQueued || ackAlarm.Some?)
      && (ackQueued || ackAlarm.Some? ==> largestObserved > 0)
    }

    constructor (maxRanges: nat, legacyVersion: bool)
      ensures Valid() && State() == Receiver(0, 0, {}) && fresh(history)
    {
      history := new ReceivedPacketHistory(maxRanges);
      this.legacyVersion := legacyVersion;
      largestObserved, lowerLimit, packetsSinceLastAck, retransmittableSinceLastAck := 0, 0, 0, 0;
      ackQueued, ackAlarm, lastAck := false, None, None;
    }

    method ReceivedPacket(p: nat, shouldInstigateAck: bool, now: int) returns (err: ReceiveError)
      requires Valid()
      modifies this, history
      ensures Valid()
      ensures err == InvalidPacketNumber <==> p == 0
      ensures err == InvalidPacketNumber ==> State() == old(State())
      ensures err == NoError ==> State() == Receive(old(State()), p)
      ensures err == TooManyRanges <==> p > 0 && p > old(lowerLimit) && |old(history.ranges)| >= history.maxRanges
      ensures err == TooManyRanges ==> State() == old(State()).(largest := Max(old(largestObserved), p))
      ensures p <= old(lowerLimit) ==> unchanged(this`ackQueued, this`ackAlarm)
      ensures err == NoError && shouldInstigateAck && p > lowerLimit ==> ackQueued || ackAlarm.Some?
    {
      if p == 0 {
        return InvalidPacketNumber;
      }
      if p > largestObserved {
        largestObserved := p;
      }
      if p <= lowerLimit {
        return NoError;
      }
      var ok := history.ReceivedPacket(p);
      if !ok {
        return TooManyRanges;
      }
      MaybeQueueAck(p, shouldInstigateAck, now);
      return NoError;
    }

    method SetLowerLimit(p: nat)
      requires Valid()
      modifies this, history
      ensures Valid() && State() == Limit(old(State()), p)
    {
      lowerLimit := p;
      history.DeleteUpTo(p);
    }

    /** An ACK must not wait: it is the first, long overdue, fills a reported hole or reports a new one. */
    ghost predicate Urgent(p: nat)
      reads this, history
    {
      || lastAck.None?
      || (legacyVersion && packetsSinceLastAck >= MAX_PACKETS_BEFORE_ACK)
      || p < lastAck.value.largestAcked
      || (history.ranges != [] && history.ranges[|history.ranges| - 1].start > lastAck.value.largestAcked)
    }

    method MaybeQueueAck(p: nat, shouldInstigateAck: bool, now: int)
      requires Valid() && largestObserved > 0
      modifies this`packetsSinceLastAck, this`retransmittableSinceLastAck, this`ackQueued, this`ackAlarm
      ensures Valid()
      ensures packetsSinceLastAck == old(packetsSinceLastAck) + 1
      ensures retransmittableSinceLastAck == old(retransmittableSinceLastAck) + (if shouldInstigateAck then 1 else 0)
      ensures ackQueued <==> old(ackQueued) || Urgent(p) ||
                             (shouldInstigateAck && retransmittableSinceLastAck >= RETRANSMITTABLE_BEFORE_ACK)
      ensures ackAlarm == if ackQueued then None
                          else if shouldInstigateAck && old(ackAlarm).None? then Some(now + ACK_SEND_DELAY)
                          else old(ackAlarm)
    {
      packetsSinceLastAck := packetsSinceLastAck + 1;
      if shouldInstigateAck {
        retransmittableSinceLastAck := retransmittableSinceLastAck + 1;
      }
      QueueIfUrgent(p);
      if !ackQueued && shouldInstigateAck {
        if retransmittableSinceLastAck >= RETRANSMITTABLE_BEFORE_ACK {
          ackQueued := true;
        } else if ackAlarm.None? {
          ackAlarm := Some(now + ACK_SEND_DELAY);
        }
      }
      if ackQueued {
        ackAlarm := None;
      }
    }

    method QueueIfUrgent(p: nat)
      modifies this`ackQueued
      ensures ackQueued <==> old(ackQueued) || Urgent(p)
    {
      if lastAck.None? {
        ackQueued := true;
      }
      if legacyVersion && packetsSinceLastAck >= MAX_PACKETS_BEFORE_ACK {
        ackQueued := true;
      }
      if lastAck.Some? && p < lastAck.value.largestAcked {
        ackQueued := true;
      }
      var highest := if |history.ranges| > 0 then history.ranges[|history.ranges| - 1].start else 0;
      if lastAck.Some? && highest > lastAck.value.largestAcked {
        ackQueued := true;
      }
    }

    /** The frame that is due, if one is. */
    method GetAckFrame(now: int) returns (ack: Option<AckFrame>)
      requires Valid() && Sound(State())
      modifies this`lastAck, this`ackAlarm, this`ackQueued, this`packetsSinceLastAck, this`retransmittableSinceLastAck
      ensures Valid()
      ensures ack.Some? <==> old(ackQueued || (ackAlarm.Some? && ackAlarm.value <= now))
      ensures ack.Some? ==> FrameOf(State(), ack.value) && lastAck == ack && !ackQueued && ackAlarm.None?
      ensures ack.Some? ==> packetsSinceLastAck == 0 && retransmittableSinceLastAck == 0
      ensures ack.None? ==> unchanged(this)
    {
      if !ackQueued && (ackAlarm.None? || ackAlarm.value > now) {
        return None;
      }
      var ackRanges := history.GetAckRanges();
      FrameBuilt(State(), history.ranges);
      ack := Some(AckFrame(largestObserved, ackRanges[|ackRanges| - 1].first, if |ackRanges| > 1 then ackRanges
          else []));
      lastAck := ack;
      ackAlarm, ackQueued := None, false;
      packetsSinceLastAck, retransmittableSinceLastAck := 0, 0;
    }
  }
}
