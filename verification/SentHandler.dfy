/**
 What a sender keeps about the packets of one path: those outstanding, those queued to be sent again,
 the numbers it left out, and the bytes in flight. The functions say what each event does to this;
 `SentPacketHandler` carries the program's loops.
 */
module SentHandler {
  import opened Basics
  import opened AckFrames
  import opened PacketLists
  import SW = StopWaiting

  const MAX_TRACKED_SENT_PACKETS: nat := 750_000
  const MAX_TRACKED_SKIPPED_PACKETS: nat := 10
  const MAX_TAIL_LOSS_PROBES: nat := 2

  /**
   The last five fields are logs: every packet tracked so far, those acknowledged and those dequeued, every number left
   out so far, and how far the numbers left out have been forgotten because of what was acknowledged.
   */
  datatype Sent = Sent(
    lastSent: nat,
    skipped: seq<nat>,
    largestAcked: nat,
    largestWithAck: nat,
    history: seq<Packet>,
    queue: seq<Packet>,
    bytesInFlight: int,
    tlpCount: nat,
    rtoCount: nat,
    lossTime: Option<int>,
    waiting: SW.Waiting,
    tracked: seq<Packet>,
    acked: seq<Packet>,
    dequeued: seq<Packet>,
    left: seq<nat>,
    collected: nat)

  const START := Sent(0, [], 0, 0, [], [], 0, 0, 0, None, SW.START, [], [], [], [], 0)

  datatype SentError =
    Ok | NotIncreasing | TooManyTracked | AckForUnsent | DuplicateAck | AckForSkipped | WrongPacketBug

  function LargestInOrderAcked(s: Sent): nat {
    if s.history != [] && s.history[0].number > 0 then s.history[0].number - 1 else s.largestAcked
  }

  // ----- sending -----

  /** The numbers from `from` up to but not including `to`. */
  function Between(from: nat, to: nat): (r: seq<nat>)
    ensures forall x :: x in r <==> from <= x < to
    decreases if from < to then to - from else 0
  {
    if from < to then [from] + Between(from + 1, to) else []
  }

  function LastOf(s: seq<nat>, n: nat): seq<nat> {
    if |s| > n then s[|s| - n..] else s
  }

  /** Moving on to number n, with the numbers in between noted as skipped. */
  function Noted(s: Sent, n: nat): Sent
    requires n > s.lastSent
  {
    var between := Between(s.lastSent + 1, n);
    s.(lastSent := n, skipped := LastOf(s.skipped + between, MAX_TRACKED_SKIPPED_PACKETS), left := s.left + between)
  }

  function Tracked(s: Sent, p: Packet): Sent {
    s.(history := s.history + [p], bytesInFlight := s.bytesInFlight + p.length, tracked := s.tracked + [p])
  }

  /** A packet is sent; it is kept in the history when it has to be `track`ed. */
  function SendPacket(s: Sent, p: Packet, track: bool): (Sent, SentError) {
    if p.number <= s.lastSent then (s, NotIncreasing)
    else if |s.queue| + |s.history| + 1 > MAX_TRACKED_SENT_PACKETS then (s, TooManyTracked)
    else
      var t := Noted(s, p.number);
      (if track then Tracked(t, p) else t, Ok)
  }

  // ----- moving packets to the retransmission queue -----

  /** Passing the numbers of all packets of a list. */
  function PassAll(w: SW.Waiting, list: seq<Packet>): SW.Waiting
    decreases |list|
  {
    if list == [] then w else PassAll(SW.Pass(w, list[0].number), list[1..])
  }

  /** The packets `moved` leave the history, of which `rest` remains, and queue up to be sent again. */
  function Requeue(s: Sent, moved: seq<Packet>, rest: seq<Packet>): Sent {
    s.(history := rest, queue := s.queue + moved, bytesInFlight := s.bytesInFlight - Total(moved),
        waiting := PassAll(s.waiting, moved))
  }

  function IsLost(largestAcked: nat, now: int, delay: int): Packet -> bool {
    (p: Packet) => p.number <= largestAcked && now - p.sendTime > delay
  }

  /** When the first packet that is not lost yet, but below the largest acknowledged one, will be. */
  function NextLoss(list: seq<Packet>, largestAcked: nat, now: int, delay: int): Option<int>
    decreases |list|
  {
    if list == [] || list[0].number > largestAcked then None
    else if now - list[0].sendTime > delay then NextLoss(list[1..], largestAcked, now, delay)
    else Some(now + (delay - (now - list[0].sendTime)))
  }

  function DetectLost(s: Sent, now: int, delay: int): Sent {
    var lost := IsLost(s.largestAcked, now, delay);
    Requeue(s.(lossTime := NextLoss(s.history, s.largestAcked, now, delay)), Filter(s.history, lost),
        Filter(s.history, Not(lost)))
  }

  /** SetInflightAsLost: everything up to the largest acknowledged number. */
  function BelowLargest(largestAcked: nat): Packet -> bool {
    (p: Packet) => p.number <= largestAcked
  }

  function LoseInflight(s: Sent): Sent {
    var lost := BelowLargest(s.largestAcked);
    Requeue(s, Filter(s.history, lost), Filter(s.history, Not(lost)))
  }

  predicate HasRetransmittable(list: seq<Packet>) {
    exists i :: 0 <= i < |list| && list[i].retransmittable
  }

  /** A tail loss probe: the newest packet is sent again. */
  function Probe(s: Sent): Sent
    requires s.history != []
  {
    var n := |s.history| - 1;
    s.(history := s.history[..n], queue := s.queue + [s.history[n]],
       bytesInFlight := s.bytesInFlight - s.history[n].length,
       waiting := SW.Pass(s.waiting, s.history[n].number), tlpCount := s.tlpCount + 1)
  }

  /** A retransmission timeout: the n oldest packets are sent again. */
  function Timeout(s: Sent, n: nat): Sent
    requires n <= |s.history|
  {
    Requeue(s, s.history[..n], s.history[n..]).(rtoCount := s.rtoCount + 1)
  }

  /** The alarm: time based loss, a tail loss probe, or a retransmission timeout of all or of the two oldest packets. */
  function Alarm(s: Sent, now: int, delay: int, potentiallyFailed: bool): Sent {
    if !HasRetransmittable(s.history) then s
    else if s.lossTime.Some? then DetectLost(s, now, delay)
    else if s.tlpCount < MAX_TAIL_LOSS_PROBES then Probe(s)
    else Timeout(s, if potentiallyFailed then |s.history| else Min(2, |s.history|))
  }

  function Dequeue(s: Sent): (Sent, Option<Packet>) {
    if s.queue == [] then (s, None)
    else (s.(queue := s.queue[1..], dequeued := s.dequeued + [s.queue[0]]), Some(s.queue[0]))
  }

  // ----- acknowledgements -----

  function AckedBy(f: AckFrame): Packet -> bool {
    (p: Packet) => Acks(f, p.number)
  }

  predicate AcksSkipped(f: AckFrame, skipped: seq<nat>) {
    exists i :: 0 <= i < |skipped| && Acks(f, skipped[i])
  }

  function Confirm(s: Sent, f: AckFrame): Sent {
    var acked := Filter(s.history, AckedBy(f));
    s.(history := Filter(s.history, Not(AckedBy(f))),
       bytesInFlight := s.bytesInFlight - Total(acked),
       acked := s.acked + acked,
       tlpCount := if acked == [] then s.tlpCount else 0,
       rtoCount := if acked == [] then s.rtoCount else 0)
  }

  function DropUpTo(s: seq<nat>, limit: nat): seq<nat>
    decreases |s|
  {
    if s == [] || limit < s[0] then s else DropUpTo(s[1..], limit)
  }

  function CollectGarbage(s: Sent): Sent {
    var limit := LargestInOrderAcked(s);
    s.(skipped := DropUpTo(s.skipped, limit), collected := Max(s.collected, limit))
  }

  /** Acknowledged packets leave, lost ones queue up, and what is settled is forgotten. */
  function Process(s: Sent, f: AckFrame, now: int, delay: int): Sent {
    Settle(CollectGarbage(DetectLost(Confirm(s, f), now, delay)), f.largestAcked)
  }

  function Settle(s: Sent, n: nat): Sent {
    s.(waiting := SW.Pass(s.waiting, n))
  }

  /** An ACK frame that came in packet number `carrier`. */
  function ReceiveAck(s: Sent, f: AckFrame, carrier: nat, now: int, delay: int): (Sent, SentError) {
    if f.largestAcked > s.lastSent then (s, AckForUnsent)
    else if carrier <= s.largestWithAck then (s, DuplicateAck)
    else
      var s := s.(largestWithAck := carrier);
      if f.largestAcked <= LargestInOrderAcked(s) then (s, Ok)
      else
        var s := s.(largestAcked := f.largestAcked);
        if AcksSkipped(f, s.skipped) then (s, AckForSkipped) else (Process(s, f, now, delay), Ok)
  }

  // ----- what every event keeps -----

  ghost predicate UpTo(list: seq<Packet>, n: nat) {
    forall p :: p in list ==> p.number <= n
  }

  /** Each tracked packet is in exactly one place: outstanding, acknowledged, queued or dequeued. */
  ghost predicate SharedOut(s: Sent) {
    && Ascending(0, s.tracked)
    && multiset(s.tracked) == multiset(s.history) + multiset(s.acked) + multiset(s.queue) + multiset(s.dequeued)
  }

  ghost predicate SkippedOk(s: Sent) {
    && Rising(0, s.skipped) && |s.skipped| <= MAX_TRACKED_SKIPPED_PACKETS
    && (forall i :: 0 <= i < |s.skipped| ==> s.skipped[i] <= s.lastSent)
    && (forall p, i :: p in s.tracked && 0 <= i < |s.skipped| ==> p.number != s.skipped[i])
  }

  ghost predicate Inv(s: Sent) {
    && Ascending(0, s.history) && UpTo(s.tracked, s.lastSent)
    && s.bytesInFlight == Total(s.history)
    && SharedOut(s) && SkippedOk(s)
    && SW.Ok(s.waiting) && s.waiting.next <= s.lastSent + 1 && s.largestAcked <= s.lastSent
  }

  lemma InHistory(s: Sent, p: Packet)
    requires SharedOut(s)
    ensures p in s.history || p in s.acked || p in s.queue || p in s.dequeued <==> p in s.tracked
  {
    assert p in s.tracked <==> p in multiset(s.tracked);
    assert p in s.history <==> p in multiset(s.history);
    assert p in s.acked <==> p in multiset(s.acked);
    assert p in s.queue <==> p in multiset(s.queue);
    assert p in s.dequeued <==> p in multiset(s.dequeued);
  }

  lemma {:induction false} AscendingOnce(low: nat, list: seq<Packet>, p: Packet)
    requires Ascending(low, list) && p in list
    ensures multiset(list)[p] == 1
    decreases |list|
  {
    assert list == [list[0]] + list[1..];
    if p == list[0] {
      if p in list[1..] {
        AscendingMember(p.number, list[1..], p);
      }
    } else {
      assert p in list[1..];
      AscendingOnce(list[0].number, list[1..], p);
    }
  }

  /** Conservation: exactly one of the four places holds a tracked packet, and holds it once. */
  lemma ExactlyOnePlace(s: Sent, p: Packet)
    requires SharedOut(s) && p in s.tracked
    ensures multiset(s.history)[p] + multiset(s.acked)[p] + multiset(s.queue)[p] + multiset(s.dequeued)[p] == 1
  {
    AscendingOnce(0, s.tracked, p);
  }

  lemma {:induction false} PassAllOk(w: SW.Waiting, list: seq<Packet>, n: nat)
    requires SW.Ok(w) && w.next <= n + 1 && UpTo(list, n)
    ensures SW.Ok(PassAll(w, list)) && PassAll(w, list).next <= n + 1
    decreases |list|
  {
    if list != [] {
      assert list[0] in list;
      PassAllOk(SW.Pass(w, list[0].number), list[1..], n);
    }
  }

  lemma RequeueKeeps(s: Sent, moved: seq<Packet>, rest: seq<Packet>)
    requires Inv(s) && Ascending(0, rest)
    requires multiset(s.history) == multiset(moved) + multiset(rest) && Total(s.history) == Total(moved) + Total(rest)
    ensures Inv(Requeue(s, moved, rest))
  {
    forall p | p in moved ensures p.number <= s.lastSent {
      assert p in multiset(moved);
      assert p in multiset(s.history);
      InHistory(s, p);
    }
    PassAllOk(s.waiting, moved, s.lastSent);
  }

  lemma FilterRequeueKeeps(s: Sent, lost: Packet -> bool)
    requires Inv(s)
    ensures Inv(Requeue(s, Filter(s.history, lost), Filter(s.history, Not(lost))))
  {
    FilterTotal(s.history, lost);
    FilterMultiset(s.history, lost);
    AscendingFilter(0, s.history, Not(lost));
    RequeueKeeps(s, Filter(s.history, lost), Filter(s.history, Not(lost)));
  }

  lemma SliceRequeueKeeps(s: Sent, a: seq<Packet>, b: seq<Packet>)
    requires Inv(s) && s.history == a + b
    ensures Inv(Requeue(s, a, b)) && Inv(Requeue(s, b, a))
  {
    TotalConcat(a, b);
    AscendingConcat(0, a, b);
    RequeueKeeps(s, a, b);
    RequeueKeeps(s, b, a);
  }

  lemma DetectLostKeeps(s: Sent, now: int, delay: int)
    requires Inv(s)
    ensures Inv(DetectLost(s, now, delay))
  {
    FilterRequeueKeeps(s.(lossTime := NextLoss(s.history, s.largestAcked, now, delay)),
        IsLost(s.largestAcked, now, delay));
  }

  lemma LoseInflightKeeps(s: Sent)
    requires Inv(s)
    ensures Inv(LoseInflight(s))
  {
    FilterRequeueKeeps(s, BelowLargest(s.largestAcked));
  }

  lemma OnePacket(w: SW.Waiting, p: Packet)
    ensures Total([p]) == p.length && PassAll(w, [p]) == SW.Pass(w, p.number)
  {
    var rest: seq<Packet> := [p][1..];
    assert rest == [];
    assert PassAll(SW.Pass(w, p.number), rest) == SW.Pass(w, p.number);
  }

  lemma ProbeIs(s: Sent, p: Packet)
    requires s.history != [] && p == s.history[|s.history| - 1]
    ensures Probe(s) == Requeue(s, [p], s.history[..|s.history| - 1]).(tlpCount := s.tlpCount + 1)
  {
    OnePacket(s.waiting, p);
  }

  lemma ProbeKeeps(s: Sent)
    requires Inv(s) && s.history != []
    ensures Inv(Probe(s))
  {
    var n := |s.history| - 1;
    var p := s.history[n];
    assert s.history == s.history[..n] + [p];
    SliceRequeueKeeps(s, s.history[..n], [p]);
    ProbeIs(s, p);
  }

  lemma TimeoutKeeps(s: Sent, n: nat)
    requires Inv(s) && n <= |s.history|
    ensures Inv(Timeout(s, n))
  {
    assert s.history == s.history[..n] + s.history[n..];
    SliceRequeueKeeps(s, s.history[..n], s.history[n..]);
  }

  lemma AlarmKeeps(s: Sent, now: int, delay: int, failed: bool)
    requires Inv(s)
    ensures Inv(Alarm(s, now, delay, failed))
  {
    if HasRetransmittable(s.history) {
      if s.lossTime.Some? {
        DetectLostKeeps(s, now, delay);
      } else if s.tlpCount < MAX_TAIL_LOSS_PROBES {
        ProbeKeeps(s);
      } else {
        TimeoutKeeps(s, if failed then |s.history| else Min(2, |s.history|));
      }
    }
  }

  lemma DequeueKeeps(s: Sent)
    requires Inv(s)
    ensures Inv(Dequeue(s).0)
  {
    if s.queue != [] {
      assert s.queue == [s.queue[0]] + s.queue[1..];
    }
  }

  lemma ConfirmShared(s: Sent, f: AckFrame)
    requires SharedOut(s)
    ensures SharedOut(Confirm(s, f))
  {
    FilterMultiset(s.history, AckedBy(f));
  }

  lemma ConfirmHistory(s: Sent, f: AckFrame)
    requires Ascending(0, s.history) && s.bytesInFlight == Total(s.history)
    ensures Ascending(0, Confirm(s, f).history) && Confirm(s, f).bytesInFlight == Total(Confirm(s, f).history)
  {
    FilterTotal(s.history, AckedBy(f));
    AscendingFilter(0, s.history, Not(AckedBy(f)));
  }

  lemma ConfirmRest(s: Sent, f: AckFrame)
    requires UpTo(s.tracked, s.lastSent) && SkippedOk(s)
    ensures UpTo(Confirm(s, f).tracked, s.lastSent) && SkippedOk(Confirm(s, f))
  {
  }

  lemma ConfirmKeeps(s: Sent, f: AckFrame)
    requires Inv(s)
    ensures Inv(Confirm(s, f))
  {
    ConfirmShared(s, f);
    ConfirmHistory(s, f);
    ConfirmRest(s, f);
  }

  lemma {:induction false} DropUpToKeeps(low: nat, s: seq<nat>, limit: nat)
    requires Rising(low, s)
    ensures Rising(low, DropUpTo(s, limit)) && |DropUpTo(s, limit)| <= |s|
    ensures forall i :: 0 <= i < |DropUpTo(s, limit)| ==> DropUpTo(s, limit)[i] in s
    decreases |s|
  {
    if s != [] && s[0] <= limit {
      DropUpToKeeps(s[0], s[1..], limit);
      RisingWeaken(s[0], low, DropUpTo(s[1..], limit));
    }
  }

  lemma GarbageKeeps(s: Sent)
    requires Inv(s)
    ensures Inv(CollectGarbage(s))
  {
    DropUpToKeeps(0, s.skipped, LargestInOrderAcked(s));
    var t := CollectGarbage(s);
    forall i | 0 <= i < |t.skipped|
      ensures t.skipped[i] <= s.lastSent && forall p :: p in s.tracked ==> p.number != t.skipped[i]
    {
      assert t.skipped[i] in s.skipped;
    }
  }

  lemma SettleKeeps(s: Sent, n: nat)
    requires Inv(s) && n <= s.lastSent
    ensures Inv(Settle(s, n))
  {
  }

  lemma ProcessKeeps(s: Sent, f: AckFrame, now: int, delay: int)
    requires Inv(s) && f.largestAcked <= s.lastSent
    ensures Inv(Process(s, f, now, delay))
  {
    ConfirmKeeps(s, f);
    DetectLostKeeps(Confirm(s, f), now, delay);
    GarbageKeeps(DetectLost(Confirm(s, f), now, delay));
    SettleKeeps(CollectGarbage(DetectLost(Confirm(s, f), now, delay)), f.largestAcked);
  }

  lemma NoteKeeps(s: Sent, carrier: nat, largest: nat)
    requires Inv(s) && largest <= s.lastSent
    ensures Inv(s.(largestWithAck := carrier)) && Inv(s.(largestWithAck := carrier, largestAcked := largest))
  {
  }

  lemma ReceiveAckKeeps(s: Sent, f: AckFrame, carrier: nat, now: int, delay: int)
    requires Inv(s)
    ensures Inv(ReceiveAck(s, f, carrier, now, delay).0)
  {
    if f.largestAcked <= s.lastSent && carrier > s.largestWithAck {
      NoteKeeps(s, carrier, f.largestAcked);
      var s1 := s.(largestWithAck := carrier, largestAcked := f.largestAcked);
      var done := Process(s1, f, now, delay);
      assert Inv(done) by { ProcessKeeps(s1, f, now, delay); }
      ReceiveAckIs(s, f, carrier, now, delay, done);
    }
  }

  /** What a frame that is neither beyond what was sent nor old leads to. */
  lemma ReceiveAckIs(s: Sent, f: AckFrame, carrier: nat, now: int, delay: int, done: Sent)
    requires f.largestAcked <= s.lastSent && carrier > s.largestWithAck
    requires done == Process(s.(largestWithAck := carrier, largestAcked := f.largestAcked), f, now, delay)
    ensures var t := ReceiveAck(s, f, carrier, now, delay).0;
            t == s.(largestWithAck := carrier) ||
            t == s.(largestWithAck := carrier, largestAcked := f.largestAcked) || t == done
  {
  }

  /** The numbers skipped between two sends. */
  lemma {:induction false} RisingBetween(low: nat, s: seq<nat>, from: nat, to: nat)
    requires Rising(low, s) && low < from && (s != [] ==> s[|s| - 1] < from)
    ensures Rising(low, s + Between(from, to))
    decreases if from < to then to - from else 0
  {
    if from < to {
      RisingPush(low, s, from);
      RisingBetween(low, s + [from], from + 1, to);
      Assoc(s, [from], Between(from + 1, to));
    } else {
      assert s + [] == s;
    }
  }

  lemma {:induction false} RisingDrop(low: nat, s: seq<nat>, k: nat)
    requires Rising(low, s) && k <= |s|
    ensures Rising(low, s[k..])
    decreases k
  {
    if k > 0 {
      RisingDrop(s[0], s[1..], k - 1);
      RisingWeaken(s[0], low, s[1..][k - 1..]);
      assert s[1..][k - 1..] == s[k..];
    }
  }

  lemma SkipKeeps(s: Sent, n: nat)
    requires Inv(s) && n > s.lastSent
    ensures var skipped := LastOf(s.skipped + Between(s.lastSent + 1, n), MAX_TRACKED_SKIPPED_PACKETS);
      && Rising(0, skipped)
      && (forall i :: 0 <= i < |skipped| ==> skipped[i] < n)
      && (forall p, i :: p in s.tracked && 0 <= i < |skipped| ==> p.number != skipped[i])
  {
    var all := s.skipped + Between(s.lastSent + 1, n);
    RisingBetween(0, s.skipped, s.lastSent + 1, n);
    if |all| > MAX_TRACKED_SKIPPED_PACKETS {
      RisingDrop(0, all, |all| - MAX_TRACKED_SKIPPED_PACKETS);
    }
    var skipped := LastOf(all, MAX_TRACKED_SKIPPED_PACKETS);
    forall i | 0 <= i < |skipped| ensures skipped[i] < n && forall p :: p in s.tracked ==> p.number != skipped[i] {
      assert skipped[i] in all;
      SkippedBefore(s, n, skipped[i]);
    }
  }

  lemma SkippedBefore(s: Sent, n: nat, x: nat)
    requires Inv(s) && n > s.lastSent && x in s.skipped + Between(s.lastSent + 1, n)
    ensures x < n && forall p :: p in s.tracked ==> p.number != x
  {
    assert x in s.skipped || s.lastSent < x < n;
  }

  lemma NotedKeeps(s: Sent, n: nat)
    requires Inv(s) && n > s.lastSent
    ensures Inv(Noted(s, n)) && forall i :: 0 <= i < |Noted(s, n).skipped| ==> Noted(s, n).skipped[i] < n
  {
    SkipKeeps(s, n);
  }

  /** A packet above all that are tracked goes to the end of the history and counts as in flight. */
  lemma TrackHistory(s: Sent, p: Packet)
    requires Ascending(0, s.history) && s.bytesInFlight == Total(s.history)
    requires p.number > 0 && forall q :: q in s.history ==> q.number < p.number
    ensures Ascending(0, Tracked(s, p).history) && Tracked(s, p).bytesInFlight == Total(Tracked(s, p).history)
  {
    AscendingPush(0, s.history, p);
    TotalConcat(s.history, [p]);
    assert Total([p]) == p.length;
  }

  lemma TrackShared(s: Sent, p: Packet)
    requires SharedOut(s) && p.number > 0 && forall q :: q in s.tracked ==> q.number < p.number
    ensures SharedOut(Tracked(s, p))
  {
    AscendingPush(0, s.tracked, p);
  }

  lemma TrackSkipped(s: Sent, p: Packet)
    requires SkippedOk(s) && forall i :: 0 <= i < |s.skipped| ==> s.skipped[i] < p.number
    ensures SkippedOk(Tracked(s, p))
  {
  }

  lemma TrackKeeps(s: Sent, p: Packet)
    requires Inv(s) && 0 < p.number == s.lastSent && forall q :: q in s.tracked ==> q.number < p.number
    requires forall i :: 0 <= i < |s.skipped| ==> s.skipped[i] < p.number
    ensures Inv(Tracked(s, p))
  {
    assert SharedOut(Tracked(s, p)) by { TrackShared(s, p); }
    assert SkippedOk(Tracked(s, p)) by { TrackSkipped(s, p); }
    forall q | q in s.history
      ensures q.number < p.number
    {
      InHistory(s, q);
    }
    TrackHistory(s, p);
  }

  lemma SendKeeps(s: Sent, p: Packet, track: bool)
    requires Inv(s)
    ensures Inv(SendPacket(s, p, track).0)
  {
    if SendPacket(s, p, track).1 == Ok {
      NotedKeeps(s, p.number);
      if track {
        TrackKeeps(Noted(s, p.number), p);
      }
    }
  }

}
