/**
 What each event does to a sent packet: which packets stay outstanding, which count as acknowledged and which are queued
 to be sent again, told packet by packet.
 */
module SentEffects {
  import opened Basics
  import opened AckFrames
  import opened PacketLists
  import opened SentHandler
  import SW = StopWaiting

  predicate Overdue(p: Packet, largestAcked: nat, now: int, delay: int) {
    p.number <= largestAcked && now - p.sendTime > delay
  }

  lemma {:induction false} FilterCount(list: seq<Packet>, keep: Packet -> bool, p: Packet)
    ensures multiset(Filter(list, keep))[p] == if keep(p) then multiset(list)[p] else 0
    decreases |list|
  {
    if list != [] {
      FilterCount(list[1..], keep, p);
      FilterHead(list, keep);
      MultisetCons(list[0], Filter(list[1..], keep));
      MultisetCons(list[0], list[1..]);
      assert list == [list[0]] + list[1..];
    }
  }

  /** How often a packet was added to a list that only grows at its end. */
  ghost predicate Gains(before: seq<Packet>, after: seq<Packet>, p: Packet, n: nat) {
    before <= after && multiset(after)[p] == multiset(before)[p] + n
  }

  lemma GainsFiltered(before: seq<Packet>, list: seq<Packet>, keep: Packet -> bool, p: Packet)
    ensures Gains(before, before + Filter(list, keep), p, if keep(p) then multiset(list)[p] else 0)
  {
    FilterCount(list, keep, p);
  }

  // ----- acknowledgements -----

  /** A frame that gets as far as the check: not beyond what was sent, and newer than what is settled. */
  predicate GetsChecked(s: Sent, f: AckFrame, carrier: nat) {
    f.largestAcked <= s.lastSent && carrier > s.largestWithAck && f.largestAcked > LargestInOrderAcked(s)
  }

  ghost predicate AcksNeverSent(f: AckFrame, skipped: seq<nat>) { exists n: nat :: n in skipped && Acks(f, n) }

  lemma SameSkipped(f: AckFrame, skipped: seq<nat>)
    ensures AcksSkipped(f, skipped) <==> AcksNeverSent(f, skipped)
  {
    if AcksSkipped(f, skipped) {
      var i :| 0 <= i < |skipped| && Acks(f, skipped[i]);
      assert skipped[i] in skipped;
    }
  }

  /** What is settled: everything below the lowest outstanding number, or up to the largest acknowledged one. */
  lemma SettledExactly(s: Sent)
    requires Inv(s)
    ensures forall p <- s.history :: p.number > LargestInOrderAcked(s)
    ensures if s.history == [] then LargestInOrderAcked(s) == s.largestAcked
            else exists p :: p in s.history && p.number == LargestInOrderAcked(s) + 1
  {
    if s.history != [] {
      assert s.history[0] in s.history;
      forall p | p in s.history
        ensures p.number > LargestInOrderAcked(s)
      {
        var i :| 0 <= i < |s.history| && s.history[i] == p;
        if i > 0 {
          AscendingPair(0, s.history, 0, i);
        }
      }
    }
  }

  /** When each outcome occurs, and that no packet moves unless the frame gets past the check. */
  lemma AckOutcomes(s: Sent, f: AckFrame, carrier: nat, now: int, delay: int)
    ensures var (t, err) := ReceiveAck(s, f, carrier, now, delay);
            && (err == AckForUnsent <==> f.largestAcked > s.lastSent)
            && (err == DuplicateAck <==> f.largestAcked <= s.lastSent && carrier <= s.largestWithAck)
            && (err == AckForSkipped <==> GetsChecked(s, f, carrier) && AcksNeverSent(f, s.skipped))
            && (err == Ok || err == AckForUnsent || err == DuplicateAck || err == AckForSkipped)
            && (err == AckForUnsent || err == DuplicateAck ==> t == s)
            && (!GetsChecked(s, f, carrier) || err == AckForSkipped ==>
                  && t.history == s.history && t.queue == s.queue && t.acked == s.acked
                  && t.bytesInFlight == s.bytesInFlight && t.waiting == s.waiting && t.lossTime == s.lossTime)
            && t.largestAcked == (if GetsChecked(s, f, carrier) then f.largestAcked else s.largestAcked)
            && t.largestWithAck == (if err == AckForUnsent then s.largestWithAck else Max(carrier, s.largestWithAck))
  {
    SameSkipped(f, s.skipped);
  }

  /** The state in which an accepted frame is processed. */
  lemma AcceptedIs(s: Sent, f: AckFrame, carrier: nat, now: int, delay: int) returns (u: Sent)
    requires GetsChecked(s, f, carrier) && !AcksNeverSent(f, s.skipped)
    ensures u == s.(largestWithAck := carrier, largestAcked := f.largestAcked)
    ensures ReceiveAck(s, f, carrier, now, delay) == (Process(u, f, now, delay), Ok)
  {
    SameSkipped(f, s.skipped);
    u := s.(largestWithAck := carrier, largestAcked := f.largestAcked);
  }

  /** Which lists a packet is in when a frame has been processed. */
  lemma ProcessEffect(u: Sent, f: AckFrame, now: int, delay: int, p: Packet)
    ensures var t := Process(u, f, now, delay); var n := multiset(u.history)[p];
            var lost := !Acks(f, p.number) && Overdue(p, u.largestAcked, now, delay);
            && multiset(t.history)[p] == (if Acks(f, p.number) || lost then 0 else n)
            && Gains(u.acked, t.acked, p, if Acks(f, p.number) then n else 0)
            && Gains(u.queue, t.queue, p, if lost then n else 0)
  {
    var lost := IsLost(u.largestAcked, now, delay);
    var c := Confirm(u, f);
    FilterCount(u.history, Not(AckedBy(f)), p);
    FilterCount(c.history, Not(lost), p);
    GainsFiltered(u.acked, u.history, AckedBy(f), p);
    GainsFiltered(u.queue, c.history, lost, p);
  }

  /**
   * Every accepted ACK is processed. A packet stays outstanding exactly when it is neither acknowledged nor overdue,
   * counts as acknowledged from then on exactly when it was outstanding and is acknowledged, and is queued to be sent
   * again exactly when it was outstanding, is overdue and not acknowledged.
   */
  lemma AckEffect(s: Sent, f: AckFrame, carrier: nat, now: int, delay: int, p: Packet)
    requires GetsChecked(s, f, carrier) && !AcksNeverSent(f, s.skipped)
    ensures var (t, err) := ReceiveAck(s, f, carrier, now, delay); var n := multiset(s.history)[p];
            var lost := !Acks(f, p.number) && Overdue(p, f.largestAcked, now, delay);
            && err == Ok
            && multiset(t.history)[p] == (if Acks(f, p.number) || lost then 0 else n)
            && Gains(s.acked, t.acked, p, if Acks(f, p.number) then n else 0)
            && Gains(s.queue, t.queue, p, if lost then n else 0)
  {
    var u := AcceptedIs(s, f, carrier, now, delay);
    ProcessEffect(u, f, now, delay, p);
  }

  /** The probe and timeout counters start over exactly when something outstanding was acknowledged. */
  lemma AckCounters(s: Sent, f: AckFrame, carrier: nat, now: int, delay: int)
    requires GetsChecked(s, f, carrier) && !AcksNeverSent(f, s.skipped)
    ensures var t := ReceiveAck(s, f, carrier, now, delay).0;
            var some := exists p :: p in s.history && Acks(f, p.number);
            && t.tlpCount == (if some then 0 else s.tlpCount) && t.rtoCount == (if some then 0 else s.rtoCount)
            && t.waiting.next > f.largestAcked
  {
    var u := AcceptedIs(s, f, carrier, now, delay);
    var acked := Filter(s.history, AckedBy(f));
    if acked == [] {
      forall p | p in s.history
        ensures !Acks(f, p.number)
      {
        FilterMembers(s.history, AckedBy(f), p);
      }
    } else {
      FilterMembers(s.history, AckedBy(f), acked[0]);
      assert acked[0] in s.history;
    }
  }

  // ----- the time of the next loss -----

  /** A packet that may still become lost by time: at or below the largest acknowledged number, not overdue yet. */
  predicate Waits(p: Packet, largestAcked: nat, now: int, delay: int) {
    p.number <= largestAcked && now - p.sendTime <= delay
  }

  predicate NoneWaits(list: seq<Packet>, largestAcked: nat, now: int, delay: int) {
    forall p <- list :: !Waits(p, largestAcked, now, delay)
  }

  /** No time is recorded exactly if there is no such packet. */
  lemma {:induction false} NoLossExact(low: nat, list: seq<Packet>, largestAcked: nat, now: int, delay: int)
    requires Ascending(low, list)
    ensures NextLoss(list, largestAcked, now, delay).None? <==> NoneWaits(list, largestAcked, now, delay)
    decreases |list|
  {
    if list != [] {
      var rest := list[1..];
      NoLossExact(list[0].number, rest, largestAcked, now, delay);
      assert list == [list[0]] + rest;
      if list[0].number > largestAcked {
        forall p | p in list
          ensures !Waits(p, largestAcked, now, delay)
        {
          if p in rest {
            AscendingMember(list[0].number, rest, p);
          }
        }
      } else {
        assert list[0] in list;
      }
    }
  }

  /** Otherwise it is the time at which the first of them will be overdue. */
  lemma {:induction false} NextLossExact(low: nat, list: seq<Packet>, largestAcked: nat, now: int, delay: int, i: nat)
    requires Ascending(low, list) && i < |list| && Waits(list[i], largestAcked, now, delay)
    requires NoneWaits(list[..i], largestAcked, now, delay)
    ensures NextLoss(list, largestAcked, now, delay) == Some(list[i].sendTime + delay)
    decreases |list|
  {
    if i > 0 {
      AscendingPair(low, list, 0, i);
      assert list[..i][0] in list[..i];
      assert list[1..][..i - 1] == list[..i][1..];
      NextLossExact(list[0].number, list[1..], largestAcked, now, delay, i - 1);
    }
  }

  predicate InSendOrder(list: seq<Packet>) {
    forall i, j :: 0 <= i < j < |list| ==> list[i].sendTime <= list[j].sendTime
  }

  /** With packets in the order they were sent, it is the earliest time at which any packet will be overdue. */
  lemma NextLossEarliest(low: nat, list: seq<Packet>, largestAcked: nat, now: int, delay: int, i: nat, j: nat)
    requires Ascending(low, list) && InSendOrder(list) && i < |list| && Waits(list[i], largestAcked, now, delay)
    requires NoneWaits(list[..i], largestAcked, now, delay)
    requires j < |list| && Waits(list[j], largestAcked, now, delay)
    ensures var next := NextLoss(list, largestAcked, now, delay); next.Some? && next.value <= list[j].sendTime + delay
  {
    NextLossExact(low, list, largestAcked, now, delay, i);
    assert i <= j;
  }

  /** What an accepted frame leaves as the time of the next loss is that of the packets still outstanding. */
  lemma {:induction false} AckLossTime(s: Sent, f: AckFrame, carrier: nat, now: int, delay: int)
    requires Inv(s) && GetsChecked(s, f, carrier) && !AcksNeverSent(f, s.skipped)
    ensures var t := ReceiveAck(s, f, carrier, now, delay).0;
            t.lossTime == NextLoss(t.history, f.largestAcked, now, delay)
  {
    var u := AcceptedIs(s, f, carrier, now, delay);
    ConfirmHistory(s, f);
    SameLoss(0, Confirm(u, f).history, f.largestAcked, now, delay);
  }

  /** Packets that are overdue do not matter for it. */
  lemma {:induction false} SameLoss(low: nat, list: seq<Packet>, largestAcked: nat, now: int, delay: int)
    requires Ascending(low, list)
    ensures NextLoss(Filter(list, Not(IsLost(largestAcked, now, delay))), largestAcked, now, delay) ==
            NextLoss(list, largestAcked, now, delay)
    decreases |list|
  {
    var keep := Not(IsLost(largestAcked, now, delay));
    if list != [] {
      FilterHead(list, keep);
      if !keep(list[0]) {
        SameLoss(list[0].number, list[1..], largestAcked, now, delay);
      } else {
        assert Filter(list, keep)[0] == list[0];
      }
    }
  }

  // ----- the alarm -----

  /** How many packets of the list have a lower number. */
  function Lower(list: seq<Packet>, n: nat): nat
    decreases |list|
  {
    if list == [] then 0 else (if list[0].number < n then 1 else 0) + Lower(list[1..], n)
  }

  predicate Highest(list: seq<Packet>, p: Packet) { p in list && forall q <- list :: q.number <= p.number }

  lemma {:induction false} LowerIs(low: nat, list: seq<Packet>, i: nat)
    requires Ascending(low, list) && i < |list|
    ensures Lower(list, list[i].number) == i
    decreases |list|
  {
    if i == 0 {
      NoneLower(list[0].number, list[1..], list[0].number);
    } else {
      AscendingPair(low, list, 0, i);
      LowerIs(list[0].number, list[1..], i - 1);
    }
  }

  lemma {:induction false} NoneLower(low: nat, list: seq<Packet>, n: nat)
    requires Ascending(low, list) && n <= low
    ensures Lower(list, n) == 0
    decreases |list|
  {
    if list != [] {
      NoneLower(list[0].number, list[1..], n);
    }
  }

  /** Taking the k lowest-numbered packets off leaves those with at least k below them. */
  lemma TakeLowest(low: nat, list: seq<Packet>, k: nat, p: Packet)
    requires Ascending(low, list) && k <= |list|
    ensures p in list[k..] <==> p in list && Lower(list, p.number) >= k
  {
    if p in list {
      var i :| 0 <= i < |list| && list[i] == p;
      LowerIs(low, list, i);
      assert i >= k ==> list[k..][i - k] == p;
    }
    if p in list[k..] {
      var i :| 0 <= i < |list[k..]| && list[k..][i] == p;
      assert list[k + i] == p;
      LowerIs(low, list, k + i);
    }
  }

  lemma TakeHighest(low: nat, list: seq<Packet>, p: Packet)
    requires Ascending(low, list) && list != []
    ensures p in list[..|list| - 1] <==> p in list && !Highest(list, p)
  {
    var n := |list| - 1;
    var last := list[n];
    assert Highest(list, last) by {
      forall q | q in list
        ensures q.number <= last.number
      {
        var i :| 0 <= i < |list| && list[i] == q;
        if i < n {
          AscendingPair(low, list, i, n);
        }
      }
    }
    if p in list[..n] {
      var i :| 0 <= i < n && list[i] == p;
      AscendingPair(low, list, i, n);
      assert last in list;
    } else if p in list {
      var i :| 0 <= i < |list| && list[i] == p;
    }
  }

  /**
   Packets that leave the list of those outstanding queue up to be sent again, nothing else happens to them, and the
   peer need not wait for them.
   */
  ghost predicate OnlyQueued(s: Sent, t: Sent) {
    && (forall p <- s.history :: p in t.history || p.number < t.waiting.next)
    && s.queue <= t.queue && t.acked == s.acked && t.dequeued == s.dequeued && t.tracked == s.tracked
    && multiset(t.history) + multiset(t.queue) == multiset(s.history) + multiset(s.queue)
    && t.lastSent == s.lastSent && t.largestAcked == s.largestAcked
  }

  lemma RequeueOnly(s: Sent, moved: seq<Packet>, rest: seq<Packet>)
    requires multiset(s.history) == multiset(moved) + multiset(rest)
    ensures OnlyQueued(s, Requeue(s, moved, rest))
  {
    forall p | p in s.history
      ensures p in rest || p.number < PassAll(s.waiting, moved).next
    {
      assert p in multiset(s.history);
      assert p in multiset(moved) || p in multiset(rest);
      if p in moved {
        PassedAll(s.waiting, moved, p);
      }
    }
  }

  lemma {:induction false} PassedAll(w: SW.Waiting, list: seq<Packet>, p: Packet)
    ensures PassAll(w, list).next >= w.next && (p in list ==> PassAll(w, list).next > p.number)
    decreases |list|
  {
    if list != [] {
      PassedAll(SW.Pass(w, list[0].number), list[1..], p);
    }
  }

  lemma DetectLostEffect(s: Sent, now: int, delay: int, p: Packet)
    ensures var t := DetectLost(s, now, delay);
            && OnlyQueued(s, t) && t.tlpCount == s.tlpCount && t.rtoCount == s.rtoCount
            && (p in t.history <==> p in s.history && !Overdue(p, s.largestAcked, now, delay))
  {
    var lost := IsLost(s.largestAcked, now, delay);
    FilterMultiset(s.history, lost);
    FilterMembers(s.history, Not(lost), p);
    RequeueOnly(s, Filter(s.history, lost), Filter(s.history, Not(lost)));
  }

  lemma ProbeEffect(s: Sent, p: Packet)
    requires Ascending(0, s.history) && s.history != []
    ensures var t := Probe(s);
            && OnlyQueued(s, t) && t.tlpCount == s.tlpCount + 1 && t.rtoCount == s.rtoCount
            && (p in t.history <==> p in s.history && !Highest(s.history, p)) && |t.history| < |s.history|
  {
    var n := |s.history| - 1;
    var last := s.history[n];
    assert s.history == s.history[..n] + [last];
    ProbeIs(s, last);
    RequeueOnly(s, [last], s.history[..n]);
    TakeHighest(0, s.history, p);
  }

  lemma TimeoutEffect(s: Sent, n: nat, p: Packet)
    requires Ascending(0, s.history) && n <= |s.history|
    ensures var t := Timeout(s, n);
            && OnlyQueued(s, t) && t.tlpCount == s.tlpCount && t.rtoCount == s.rtoCount + 1
            && (p in t.history <==> p in s.history && Lower(s.history, p.number) >= n)
            && |t.history| == |s.history| - n
  {
    assert s.history == s.history[..n] + s.history[n..];
    RequeueOnly(s, s.history[..n], s.history[n..]);
    TakeLowest(0, s.history, n, p);
  }

  lemma HasOne(list: seq<Packet>)
    requires HasRetransmittable(list)
    ensures list != []
  {
  }

  /** A packet stays outstanding when the alarm goes off. */
  ghost predicate Stays(s: Sent, now: int, delay: int, potentiallyFailed: bool, p: Packet) {
    if s.lossTime.Some? then !Overdue(p, s.largestAcked, now, delay)
    else if s.tlpCount < 2 then !Highest(s.history, p)
    else !potentiallyFailed && Lower(s.history, p.number) >= 2
  }

  /**
   * What the alarm does, if something retransmittable is outstanding. With a time of loss on record, exactly the
   * overdue packets leave to be sent again; otherwise the packet with the highest number, for the first two times;
   * after that the two with the lowest numbers, or all if the path may have failed.
   */
  lemma AlarmEffect(s: Sent, now: int, delay: int, potentiallyFailed: bool, p: Packet)
    requires Inv(s) && HasRetransmittable(s.history)
    ensures var t := Alarm(s, now, delay, potentiallyFailed);
            && OnlyQueued(s, t)
            && (p in t.history <==> p in s.history && Stays(s, now, delay, potentiallyFailed, p))
            && t.tlpCount == s.tlpCount + (if s.lossTime.None? && s.tlpCount < 2 then 1 else 0)
            && t.rtoCount == s.rtoCount + (if s.lossTime.None? && s.tlpCount >= 2 then 1 else 0)
            && (s.lossTime.None? ==> |t.history| < |s.history|)
  {
    HasOne(s.history);
    if s.lossTime.Some? {
      DetectLostEffect(s, now, delay, p);
    } else if s.tlpCount < MAX_TAIL_LOSS_PROBES {
      ProbeEffect(s, p);
    } else {
      TimeoutAll(s, potentiallyFailed, p);
    }
  }

  lemma TimeoutAll(s: Sent, potentiallyFailed: bool, p: Packet)
    requires Ascending(0, s.history) && s.history != []
    ensures var t := Timeout(s, if potentiallyFailed then |s.history| else Min(2, |s.history|));
            && OnlyQueued(s, t) && t.tlpCount == s.tlpCount && t.rtoCount == s.rtoCount + 1
            && (p in t.history <==> p in s.history && !potentiallyFailed && Lower(s.history, p.number) >= 2)
            && |t.history| < |s.history|
  {
    TimeoutEffect(s, if potentiallyFailed then |s.history| else Min(2, |s.history|), p);
    if p in s.history {
      var i :| 0 <= i < |s.history| && s.history[i] == p;
      LowerIs(0, s.history, i);
    }
  }

  /** The time of the next loss is again that of the packets still outstanding, or stays absent. */
  lemma AlarmLossTime(s: Sent, now: int, delay: int, potentiallyFailed: bool)
    requires Inv(s) && HasRetransmittable(s.history)
    ensures var t := Alarm(s, now, delay, potentiallyFailed);
            t.lossTime == if s.lossTime.Some? then NextLoss(t.history, s.largestAcked, now, delay) else None
  {
    HasOne(s.history);
    SameLoss(0, s.history, s.largestAcked, now, delay);
  }

  /** Without anything retransmittable outstanding, the alarm does nothing. */
  lemma AlarmIdle(s: Sent, now: int, delay: int, potentiallyFailed: bool)
    requires forall p <- s.history :: !p.retransmittable
    ensures Alarm(s, now, delay, potentiallyFailed) == s
  {
  }

  // ----- closing a path, dequeuing and sending -----

  /** Giving up a path queues exactly the packets up to the largest acknowledged number. */
  lemma LoseEffect(s: Sent, p: Packet)
    ensures var t := LoseInflight(s);
            && OnlyQueued(s, t) && (p in t.history <==> p in s.history && p.number > s.largestAcked)
  {
    var lost := BelowLargest(s.largestAcked);
    FilterMultiset(s.history, lost);
    FilterMembers(s.history, Not(lost), p);
    RequeueOnly(s, Filter(s.history, lost), Filter(s.history, Not(lost)));
  }

  /** What has been queued longest is taken, and only that changes. */
  lemma DequeueEffect(s: Sent)
    ensures var (t, p) := Dequeue(s);
            && (p.None? <==> s.queue == [])
            && (p.Some? ==> s.queue == [p.value] + t.queue && t.dequeued == s.dequeued + [p.value])
            && t.history == s.history && t.acked == s.acked && t.bytesInFlight == s.bytesInFlight
  {
    if s.queue != [] {
      assert s.queue == [s.queue[0]] + s.queue[1..];
    }
  }

  /** When a packet is refused, and that one that is not refused is outstanding afterwards exactly if it is tracked. */
  lemma SendEffect(s: Sent, p: Packet, track: bool, q: Packet)
    requires Inv(s)
    ensures var (t, err) := SendPacket(s, p, track);
            && (err == NotIncreasing <==> p.number <= s.lastSent)
            && (err == TooManyTracked <==> p.number > s.lastSent && |s.queue| + |s.history| >= MAX_TRACKED_SENT_PACKETS)
            && (err == Ok || err == NotIncreasing || err == TooManyTracked) && (err != Ok ==> t == s)
            && (err == Ok ==>
                  && t.lastSent == p.number && t.queue == s.queue && t.acked == s.acked
                  && multiset(t.history)[q] == multiset(s.history)[q] + (if track && q == p then 1 else 0)
                  && (track ==> multiset(s.history)[p] == 0 && Highest(t.history, p)))
  {
    if SendPacket(s, p, track).1 == Ok && track {
      forall x | x in s.history
        ensures x.number < p.number
      {
        InHistory(s, x);
      }
    }
  }
}
