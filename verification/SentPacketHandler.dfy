/** The sender's packet handler as the program has it, with its walks over the packet list. */
module SentPackets {
  import opened Basics
  import opened AckFrames
  import opened PacketLists
  import opened SentHandler

  class SentPacketHandler {
    const stopWaiting: SW.StopWaitingManager
    var lastSentPacketNumber: nat
    var skippedPackets: seq<nat>
    var largestAcked: nat
    var largestReceivedPacketWithAck: nat
    var packetHistory: seq<Packet>
    var retransmissionQueue: seq<Packet>
    var bytesInFlight: int
    var tlpCount: nat
    var rtoCount: nat
    var lossTime: Option<int>
    ghost var tracked: seq<Packet>
    ghost var acked: seq<Packet>
    ghost var dequeued: seq<Packet>
    ghost var left: seq<nat>
    ghost var collected: nat

    ghost function State(): Sent
      reads this, stopWaiting
    {
      Sent(lastSentPacketNumber, skippedPackets, largestAcked, largestReceivedPacketWithAck, packetHistory,
           retransmissionQueue, bytesInFlight, tlpCount, rtoCount, lossTime, stopWaiting.State(),
           tracked, acked, dequeued, left, collected)
    }

    constructor ()
      ensures State() == SentHandler.START && Inv(State()) && fresh(stopWaiting)
    {
      stopWaiting := new SW.StopWaitingManager();
      lastSentPacketNumber, skippedPackets, largestAcked, largestReceivedPacketWithAck := 0, [], 0, 0;
      packetHistory, retransmissionQueue, bytesInFlight := [], [], 0;
      tlpCount, rtoCount, lossTime := 0, 0, None;
      tracked, acked, dequeued, left, collected := [], [], [], [], 0;
    }

    /** Notes the numbers left out before n, keeping only the latest ones. */
    method NoteSkipped(n: nat)
      requires n > lastSentPacketNumber && |skippedPackets| <= MAX_TRACKED_SKIPPED_PACKETS
      modifies this`skippedPackets
      ensures skippedPackets == LastOf(old(skippedPackets) + Between(lastSentPacketNumber + 1, n),
          MAX_TRACKED_SKIPPED_PACKETS)
    {
      var p := lastSentPacketNumber + 1;
      assert skippedPackets + Between(p, p) == skippedPackets;
      while p < n
        invariant lastSentPacketNumber + 1 <= p <= n
        invariant skippedPackets == LastOf(old(skippedPackets) + Between(lastSentPacketNumber + 1, p),
            MAX_TRACKED_SKIPPED_PACKETS)
      {
        BetweenPush(lastSentPacketNumber + 1, p);
        LastOfPush(old(skippedPackets) + Between(lastSentPacketNumber + 1, p), p, MAX_TRACKED_SKIPPED_PACKETS);
        assert old(skippedPackets) + Between(lastSentPacketNumber + 1, p + 1) ==
            old(skippedPackets) + Between(lastSentPacketNumber + 1, p) + [p];
        skippedPackets := skippedPackets + [p];
        if |skippedPackets| > MAX_TRACKED_SKIPPED_PACKETS {
          skippedPackets := skippedPackets[1..];
        }
        p := p + 1;
      }
    }

    method MoveOn(n: nat)
      requires n > lastSentPacketNumber && |skippedPackets| <= MAX_TRACKED_SKIPPED_PACKETS
      modifies this`skippedPackets, this`lastSentPacketNumber, this`left
      ensures State() == Noted(old(State()), n)
    {
      NoteSkipped(n);
      left := left + Between(lastSentPacketNumber + 1, n);
      lastSentPacketNumber := n;
    }

    method SentPacket(p: Packet, track: bool) returns (err: SentError)
      requires Inv(State())
      modifies this
      ensures State() == SendPacket(old(State()), p, track).0 && err == SendPacket(old(State()), p, track).1
      ensures Inv(State())
    {
      SendKeeps(State(), p, track);
      err := Record(p, track);
    }

    method Record(p: Packet, track: bool) returns (err: SentError)
      requires |skippedPackets| <= MAX_TRACKED_SKIPPED_PACKETS
      modifies this
      ensures State() == SendPacket(old(State()), p, track).0 && err == SendPacket(old(State()), p, track).1
    {
      if p.number <= lastSentPacketNumber {
        return NotIncreasing;
      }
      if |retransmissionQueue| + |packetHistory| + 1 > MAX_TRACKED_SENT_PACKETS {
        return TooManyTracked;
      }
      MoveOn(p.number);
      if track {
        bytesInFlight := bytesInFlight + p.length;
        packetHistory := packetHistory + [p];
        tracked := tracked + [p];
      }
      return Ok;
    }

    /** The range that reaches packet number n, moving up from the lowest; the index counts from the lowest. */
    method AdvanceRange(f: AckFrame, from: nat, n: nat) returns (i: nat)
      requires Consistent(f) && f.ranges != [] && from < |f.ranges| && n <= f.largestAcked
      requires from > 0 ==> n > f.ranges[|f.ranges| - from].last
      ensures i < |f.ranges| && n <= f.ranges[|f.ranges| - 1 - i].last
      ensures i > 0 ==> n > f.ranges[|f.ranges| - i].last
    {
      i := from;
      while n > f.ranges[|f.ranges| - 1 - i].last && i < |f.ranges| - 1
        invariant i < |f.ranges|
        invariant i > 0 ==> n > f.ranges[|f.ranges| - i].last
        decreases |f.ranges| - i
      {
        i := i + 1;
      }
    }

    /** The walk over history and ranges in step finds exactly the packets that the frame acknowledges. */
    method DetermineNewlyAckedPackets(f: AckFrame) returns (found: seq<Packet>, bug: bool)
      requires Consistent(f) && Ascending(0, packetHistory)
      ensures found == Filter(packetHistory, AckedBy(f)) && !bug
    {
      found, bug := [], false;
      var ackRangeIndex: nat := 0;
      var k := 0;
      while k < |packetHistory|
        invariant 0 <= k <= |packetHistory| && !bug
        invariant found == Filter(packetHistory[..k], AckedBy(f))
        invariant f.ranges != [] ==> ackRangeIndex < |f.ranges|
        invariant f.ranges != [] && ackRangeIndex > 0 && k < |packetHistory| ==>
          packetHistory[k].number > f.ranges[|f.ranges| - ackRangeIndex].last
      {
        var packet := packetHistory[k];
        SpanOnly(f, packet);
        FilterPush(packetHistory[..k], packet, AckedBy(f));
        assert packetHistory[..k] + [packet] == packetHistory[..k + 1];
        if k + 1 < |packetHistory| { AscendingPair(0, packetHistory, k, k + 1); }
        if packet.number > f.largestAcked {
          LaterKept(0, packetHistory, k, f.largestAcked, AckedBy(f));
          return;
        }
        if packet.number >= f.lowestAcked {
          if |f.ranges| > 0 {
            ackRangeIndex := AdvanceRange(f, ackRangeIndex, packet.number);
            var ackRange := f.ranges[|f.ranges| - 1 - ackRangeIndex];
            Located(f.largestAcked + 1, f.ranges, |f.ranges| - 1 - ackRangeIndex, packet.number);
            if packet.number >= ackRange.first {
              if packet.number > ackRange.last {
                bug := true;
              }
              found := found + [packet];
            }
          } else {
            found := found + [packet];
          }
        }
        k := k + 1;
      }
      assert packetHistory[..k] == packetHistory;
    }

    method OnPacketAcked(p: Packet)
      modifies this`bytesInFlight, this`tlpCount, this`rtoCount, this`packetHistory, this`acked
      ensures bytesInFlight == old(bytesInFlight) - p.length && tlpCount == 0 && rtoCount == 0
      ensures packetHistory == Remove(old(packetHistory), p.number) && acked == old(acked) + [p]
    {
      bytesInFlight := bytesInFlight - p.length;
      rtoCount, tlpCount := 0, 0;
      packetHistory := Remove(packetHistory, p.number);
      acked := acked + [p];
    }

    /** onPacketAcked, for every packet found. */
    method RemoveAcked(found: seq<Packet>, ghost f: AckFrame)
      requires Ascending(0, packetHistory) && found == Filter(packetHistory, AckedBy(f))
      modifies this`bytesInFlight, this`tlpCount, this`rtoCount, this`packetHistory, this`acked
      ensures State() == Confirm(old(State()), f)
    {
      RemoveEach(found, AckedBy(f));
    }

    method RemoveEach(found: seq<Packet>, ghost drop: Packet -> bool)
      requires Ascending(0, packetHistory) && found == Filter(packetHistory, drop)
      modifies this`bytesInFlight, this`tlpCount, this`rtoCount, this`packetHistory, this`acked
      ensures packetHistory == Filter(old(packetHistory), Not(drop))
      ensures bytesInFlight == old(bytesInFlight) - Total(found) && acked == old(acked) + found
      ensures tlpCount == (if found == [] then old(tlpCount) else 0)
      ensures rtoCount == (if found == [] then old(rtoCount) else 0)
    {
      ghost var h := packetHistory;
      DropNone(h, drop);
      assert acked + found[..0] == acked;
      var k := 0;
      while k < |found|
        invariant 0 <= k <= |found|
        invariant packetHistory == DropFirst(h, drop, k)
        invariant bytesInFlight == old(bytesInFlight) - Total(found[..k])
        invariant acked == old(acked) + found[..k]
        invariant tlpCount == if k == 0 then old(tlpCount) else 0
        invariant rtoCount == if k == 0 then old(rtoCount) else 0
      {
        TotalPush(found, k);
        DropNext(0, h, drop, k);
        OnPacketAcked(found[k]);
        k := k + 1;
      }
      assert found[..k] == found;
      DropAll(h, drop);
    }

    /** queuePacketForRetransmission. */
    method QueueForRetransmission(p: Packet)
      requires SW.Ok(stopWaiting.State())
      modifies this`bytesInFlight, this`packetHistory, this`retransmissionQueue, stopWaiting
      ensures SW.Ok(stopWaiting.State())
      ensures bytesInFlight == old(bytesInFlight) - p.length && retransmissionQueue == old(retransmissionQueue) + [p]
      ensures packetHistory == Remove(old(packetHistory), p.number)
      ensures stopWaiting.State() == SW.Pass(old(stopWaiting.State()), p.number)
    {
      bytesInFlight := bytesInFlight - p.length;
      retransmissionQueue := retransmissionQueue + [p];
      packetHistory := Remove(packetHistory, p.number);
      stopWaiting.QueuedRetransmissionForPacketNumber(p.number);
    }

    /** All packets that were picked, one after the other. */
    method QueuePicked(picked: seq<Packet>, ghost pick: Packet -> bool)
      requires SW.Ok(stopWaiting.State()) && Ascending(0, packetHistory) && picked == Filter(packetHistory, pick)
      modifies this`bytesInFlight, this`packetHistory, this`retransmissionQueue, stopWaiting
      ensures State() == Requeue(old(State()), Filter(old(packetHistory), pick), Filter(old(packetHistory), Not(pick)))
      ensures SW.Ok(stopWaiting.State())
    {
      QueueEach(picked, pick);
    }

    method QueueEach(picked: seq<Packet>, ghost pick: Packet -> bool)
      requires SW.Ok(stopWaiting.State()) && Ascending(0, packetHistory) && picked == Filter(packetHistory, pick)
      modifies this`bytesInFlight, this`packetHistory, this`retransmissionQueue, stopWaiting
      ensures packetHistory == Filter(old(packetHistory), Not(pick))
      ensures bytesInFlight == old(bytesInFlight) - Total(picked)
      ensures retransmissionQueue == old(retransmissionQueue) + picked
      ensures stopWaiting.State() == PassAll(old(stopWaiting.State()), picked) && SW.Ok(stopWaiting.State())
    {
      ghost var h, w := packetHistory, stopWaiting.State();
      DropNone(h, pick);
      assert retransmissionQueue + picked[..0] == retransmissionQueue;
      var k := 0;
      while k < |picked|
        invariant 0 <= k <= |picked| && SW.Ok(stopWaiting.State())
        invariant packetHistory == DropFirst(h, pick, k)
        invariant bytesInFlight == old(bytesInFlight) - Total(picked[..k])
        invariant retransmissionQueue == old(retransmissionQueue) + picked[..k]
        invariant stopWaiting.State() == PassAll(w, picked[..k])
      {
        TotalPush(picked, k);
        PassAllPush(w, picked, k);
        DropNext(0, h, pick, k);
        QueueForRetransmission(picked[k]);
        k := k + 1;
      }
      assert picked[..k] == picked;
      DropAll(h, pick);
    }

    /** detectLostPackets at time `now`, for packets outstanding longer than `delay`. */
    method DetectLostPackets(now: int, delay: int)
      requires SW.Ok(stopWaiting.State()) && Ascending(0, packetHistory)
      modifies this`bytesInFlight, this`packetHistory, this`retransmissionQueue, this`lossTime, stopWaiting
      ensures State() == DetectLost(old(State()), now, delay) && SW.Ok(stopWaiting.State())
    {
      lossTime := None;
      var lost: seq<Packet> := [];
      var k := 0;
      ghost var pick := IsLost(largestAcked, now, delay);
      assert packetHistory[0..] == packetHistory;
      while k < |packetHistory|
        modifies this`lossTime
        invariant 0 <= k <= |packetHistory|
        invariant lost == Filter(packetHistory[..k], pick)
        invariant if lossTime.None? then NextLoss(packetHistory, largestAcked, now, delay) ==
            NextLoss(packetHistory[k..], largestAcked, now, delay)
                  else lossTime == NextLoss(packetHistory, largestAcked, now, delay)
      {
        var packet := packetHistory[k];
        assert packetHistory[k..][0] == packet && packetHistory[k..][1..] == packetHistory[k + 1..];
        if packet.number > largestAcked {
          LaterKept(0, packetHistory, k, largestAcked, pick);
          break;
        }
        FilterPush(packetHistory[..k], packet, pick);
        assert packetHistory[..k] + [packet] == packetHistory[..k + 1];
        if now - packet.sendTime > delay {
          lost := lost + [packet];
        } else if lossTime.None? {
          lossTime := Some(now + (delay - (now - packet.sendTime)));
        }
        k := k + 1;
      }
      if k == |packetHistory| {
        assert packetHistory[..k] == packetHistory && packetHistory[k..] == [];
      }
      QueuePicked(lost, pick);
    }

    method SkippedPacketsAcked(f: AckFrame) returns (b: bool)
      ensures b == AcksSkipped(f, skippedPackets)
    {
      for k := 0 to |skippedPackets|
        invariant forall i :: 0 <= i < k ==> !Acks(f, skippedPackets[i])
      {
        if Acks(f, skippedPackets[k]) {
          return true;
        }
      }
      return false;
    }

    /** Forgets the skipped numbers below the first outstanding packet, or up to the largest acknowledged one. */
    method GarbageCollectSkippedPackets()
      requires Rising(0, skippedPackets)
      modifies this`skippedPackets, this`collected
      ensures State() == CollectGarbage(old(State()))
    {
      var lioa := if |packetHistory| > 0 && packetHistory[0].number > 0 then packetHistory[0].number - 1
          else largestAcked;
      var deleteIndex := 0;
      for i := 0 to |skippedPackets|
        modifies {}
        invariant 0 <= deleteIndex <= i
        invariant deleteIndex > 0 ==> skippedPackets[deleteIndex - 1] <= lioa
        invariant forall j :: deleteIndex <= j < i ==> skippedPackets[j] > lioa
      {
        if skippedPackets[i] <= lioa {
          if i > deleteIndex { RisingPair(0, skippedPackets, deleteIndex, i); }
          deleteIndex := i + 1;
        }
      }
      DropUpToIs(0, skippedPackets, lioa, deleteIndex);
      skippedPackets := skippedPackets[deleteIndex..];
      collected := Max(collected, lioa);
    }

    method ReceivedAck(f: AckFrame, carrier: nat, now: int, delay: int) returns (err: SentError)
      requires Inv(State()) && Consistent(f)
      modifies this, stopWaiting
      ensures State() == ReceiveAck(old(State()), f, carrier, now, delay).0
      ensures err == ReceiveAck(old(State()), f, carrier, now, delay).1
      ensures Inv(State())
    {
      ReceiveAckKeeps(State(), f, carrier, now, delay);
      if f.largestAcked > lastSentPacketNumber {
        return AckForUnsent;
      }
      if carrier <= largestReceivedPacketWithAck {
        return DuplicateAck;
      }
      err := Accept(f, carrier, now, delay);
    }

    method Accept(f: AckFrame, carrier: nat, now: int, delay: int) returns (err: SentError)
      requires Inv(State()) && Consistent(f) && f.largestAcked <= lastSentPacketNumber &&
          carrier > largestReceivedPacketWithAck
      modifies this, stopWaiting
      ensures State() == ReceiveAck(old(State()), f, carrier, now, delay).0
      ensures err == ReceiveAck(old(State()), f, carrier, now, delay).1
    {
      NoteKeeps(State(), carrier, f.largestAcked);
      largestReceivedPacketWithAck := carrier;
      var lioa := if |packetHistory| > 0 && packetHistory[0].number > 0 then packetHistory[0].number - 1
          else largestAcked;
      if f.largestAcked <= lioa {
        return Ok;
      }
      largestAcked := f.largestAcked;
      var skippedAcked := SkippedPacketsAcked(f);
      if skippedAcked {
        return AckForSkipped;
      }
      err := ProcessAck(f, now, delay);
    }

    method ProcessAck(f: AckFrame, now: int, delay: int) returns (err: SentError)
      requires Inv(State()) && Consistent(f)
      modifies this, stopWaiting
      ensures State() == Process(old(State()), f, now, delay) && err == Ok
    {
      ghost var s := State();
      ConfirmKeeps(s, f);
      DetectLostKeeps(Confirm(s, f), now, delay);
      var found, bug := DetermineNewlyAckedPackets(f);
      RemoveAcked(found, f);
      DetectLostPackets(now, delay);
      GarbageCollectSkippedPackets();
      stopWaiting.ReceivedAck(f.largestAcked);
      err := if bug then WrongPacketBug else Ok;
    }

    method DequeuePacketForRetransmission() returns (p: Option<Packet>)
      requires Inv(State())
      modifies this
      ensures State() == Dequeue(old(State())).0 && p == Dequeue(old(State())).1
      ensures Inv(State())
    {
      DequeueKeeps(State());
      if |retransmissionQueue| == 0 {
        return None;
      }
      p := Some(retransmissionQueue[0]);
      retransmissionQueue := retransmissionQueue[1..];
      dequeued := dequeued + [p.value];
    }

    method SetInflightAsLost()
      requires Inv(State())
      modifies this, stopWaiting
      ensures State() == LoseInflight(old(State()))
      ensures Inv(State())
    {
      LoseInflightKeeps(State());
      var lost := UpToLargest();
      QueuePicked(lost, BelowLargest(largestAcked));
    }

    method UpToLargest() returns (lost: seq<Packet>)
      requires Ascending(0, packetHistory)
      ensures lost == Filter(packetHistory, BelowLargest(largestAcked))
    {
      lost := [];
      var k := 0;
      while k < |packetHistory|
        invariant 0 <= k <= |packetHistory| && lost == Filter(packetHistory[..k], BelowLargest(largestAcked))
      {
        if packetHistory[k].number > largestAcked {
          LaterKept(0, packetHistory, k, largestAcked, BelowLargest(largestAcked));
          return;
        }
        FilterPush(packetHistory[..k], packetHistory[k], BelowLargest(largestAcked));
        assert packetHistory[..k] + [packetHistory[k]] == packetHistory[..k + 1];
        lost := lost + [packetHistory[k]];
        k := k + 1;
      }
      assert packetHistory[..k] == packetHistory;
    }

    /** The n oldest packets are queued, one after the other. */
    method QueueOldest(n: nat)
      requires SW.Ok(stopWaiting.State()) && n <= |packetHistory|
      modifies this`bytesInFlight, this`packetHistory, this`retransmissionQueue, stopWaiting
      ensures State() == Requeue(old(State()), old(packetHistory)[..n], old(packetHistory)[n..])
      ensures SW.Ok(stopWaiting.State())
    {
      ghost var h, w := packetHistory, stopWaiting.State();
      assert retransmissionQueue + h[..0] == retransmissionQueue && h[0..] == h;
      var k := 0;
      while k < n
        invariant 0 <= k <= n && SW.Ok(stopWaiting.State())
        invariant packetHistory == h[k..]
        invariant bytesInFlight == old(bytesInFlight) - Total(h[..k])
        invariant retransmissionQueue == old(retransmissionQueue) + h[..k]
        invariant stopWaiting.State() == PassAll(w, h[..k])
      {
        TotalPush(h, k);
        PassAllPush(w, h, k);
        assert h[k..][1..] == h[k + 1..];
        QueueForRetransmission(packetHistory[0]);
        k := k + 1;
      }
    }

    method HasOutstandingRetransmittablePacket() returns (b: bool)
      ensures b == HasRetransmittable(packetHistory)
    {
      for k := 0 to |packetHistory|
        invariant forall i :: 0 <= i < k ==> !packetHistory[i].retransmittable
      {
        if packetHistory[k].retransmittable {
          return true;
        }
      }
      return false;
    }

    /** The tail loss probe takes the newest packet. */
    method RetransmitTLP()
      requires SW.Ok(stopWaiting.State()) && packetHistory != [] && Ascending(0, packetHistory)
      modifies this`bytesInFlight, this`packetHistory, this`retransmissionQueue, this`tlpCount, stopWaiting
      ensures State() == Probe(old(State()))
    {
      var last := packetHistory[|packetHistory| - 1];
      RemoveLast(0, packetHistory);
      QueueForRetransmission(last);
      tlpCount := tlpCount + 1;
    }

    method OnAlarm(now: int, delay: int, potentiallyFailed: bool)
      requires Inv(State())
      modifies this, stopWaiting
      ensures State() == Alarm(old(State()), now, delay, potentiallyFailed)
      ensures Inv(State())
    {
      AlarmKeeps(State(), now, delay, potentiallyFailed);
      var outstanding := HasOutstandingRetransmittablePacket();
      if !outstanding {
        return;
      }
      Fire(now, delay, potentiallyFailed);
    }

    method Fire(now: int, delay: int, potentiallyFailed: bool)
      requires SW.Ok(stopWaiting.State()) && Ascending(0, packetHistory) && HasRetransmittable(packetHistory)
      modifies this, stopWaiting
      ensures State() == Alarm(old(State()), now, delay, potentiallyFailed)
    {
      if lossTime.Some? {
        DetectLostPackets(now, delay);
      } else if tlpCount < MAX_TAIL_LOSS_PROBES {
        RetransmitTLP();
      } else {
        QueueOldest(if potentiallyFailed then |packetHistory| else Min(2, |packetHistory|));
        rtoCount := rtoCount + 1;
      }
    }
  }

  /** Outside the frame's span nothing is acknowledged; inside, a frame without ranges acknowledges everything. */
  lemma SpanOnly(f: AckFrame, p: Packet)
    ensures p.number < f.lowestAcked || p.number > f.largestAcked ==> !AckedBy(f)(p)
    ensures f.ranges == [] ==> (AckedBy(f)(p) <==> f.lowestAcked <= p.number <= f.largestAcked)
  {
  }

  lemma {:induction false} BetweenPush(from: nat, to: nat)
    requires from <= to
    ensures Between(from, to + 1) == Between(from, to) + [to]
    decreases if from < to then to - from else 0
  {
    if from < to {
      BetweenPush(from + 1, to);
    }
  }

  lemma LastOfPush(s: seq<nat>, p: nat, n: nat)
    requires n > 0
    ensures LastOf(s + [p], n) == LastOf(LastOf(s, n) + [p], n)
    ensures |LastOf(s, n)| <= n
    ensures LastOf(LastOf(s, n) + [p], n) == if |LastOf(s, n)| == n then (LastOf(s, n) + [p])[1..]
        else LastOf(s, n) + [p]
  {
  }

  lemma TotalPush(list: seq<Packet>, k: nat)
    requires k < |list|
    ensures Total(list[..k + 1]) == Total(list[..k]) + list[k].length
    ensures list[..k + 1] == list[..k] + [list[k]]
  {
    TotalConcat(list[..k], [list[k]]);
    assert list[..k + 1] == list[..k] + [list[k]];
    assert Total([list[k]]) == list[k].length;
  }

  lemma {:induction false} PassAllConcat(w: SW.Waiting, a: seq<Packet>, p: Packet)
    ensures PassAll(w, a + [p]) == SW.Pass(PassAll(w, a), p.number)
    decreases |a|
  {
    if a == [] {
      assert (a + [p])[1..] == [];
    } else {
      assert (a + [p])[1..] == a[1..] + [p];
      PassAllConcat(SW.Pass(w, a[0].number), a[1..], p);
    }
  }

  lemma PassAllPush(w: SW.Waiting, list: seq<Packet>, k: nat)
    requires k < |list|
    ensures PassAll(w, list[..k + 1]) == SW.Pass(PassAll(w, list[..k]), list[k].number)
  {
    assert list[..k + 1] == list[..k] + [list[k]];
    PassAllConcat(w, list[..k], list[k]);
  }

  /** Nothing is picked from the first packet above the largest acknowledged number on. */
  lemma LaterKept(low: nat, list: seq<Packet>, k: nat, largest: nat, pick: Packet -> bool)
    requires Ascending(low, list) && k < |list| && list[k].number > largest
    requires forall p: Packet :: pick(p) ==> p.number <= largest
    ensures Filter(list, pick) == Filter(list[..k], pick)
  {
    forall p | p in list[k..] ensures !pick(p) {
      var j :| k <= j < |list| && list[j] == p;
      if j > k { AscendingPair(low, list, k, j); }
    }
    FilterNone(list[k..], pick);
    FilterConcat(list[..k], list[k..], pick);
    assert list[..k] + list[k..] == list;
  }

  lemma {:induction false} RemoveLast(low: nat, list: seq<Packet>)
    requires Ascending(low, list) && list != []
    ensures Remove(list, list[|list| - 1].number) == list[..|list| - 1]
    decreases |list|
  {
    if |list| > 1 {
      var rest, last := list[1..], list[|list| - 1];
      RemoveLast(list[0].number, rest);
      AscendingPair(low, list, 0, |list| - 1);
      assert list == [list[0]] + rest;
      assert [list[0]] + rest[..|rest| - 1] == list[..|list| - 1];
    }
  }

  lemma {:induction false} DropUpToIs(low: nat, s: seq<nat>, limit: nat, k: nat)
    requires Rising(low, s) && k <= |s| && (k > 0 ==> s[k - 1] <= limit) && (k < |s| ==> s[k] > limit)
    ensures DropUpTo(s, limit) == s[k..]
    decreases k
  {
    if k > 0 {
      if k > 1 { RisingPair(low, s, 0, k - 1); }
      DropUpToIs(s[0], s[1..], limit, k - 1);
      assert s[1..][k - 1..] == s[k..];
    }
  }
}
