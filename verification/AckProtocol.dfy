/**
 Sender, network and receiver of one path together. The network may lose, delay, reorder and repeat
 packets and ACK frames; the receiver is honest. Every packet handed to the network has been recorded
 by the sender first, and a STOP_WAITING frame waits for the next packet that has room for it.
 */
module AckProtocol {
  import opened Basics
  import opened AckFrames
  import opened PacketLists
  import opened ReceivedHandler
  import SH = SentHandler
  import SE = SentEffects
  import SW = StopWaiting

  /** A packet in the network, with the STOP_WAITING frame it may carry. */
  datatype Flying = Flying(number: nat, leastUnacked: Option<nat>)

  datatype Joint = Joint(
    sender: SH.Sent,
    queuedFrame: Option<nat>,
    network: set<Flying>,
    receiver: Receiver,
    everRecorded: set<nat>,
    acks: set<AckFrame>)

  const START := Joint(SH.START, None, {}, Receiver(0, 0, {}), {}, {})

  datatype Event =
    | QueueStopWaiting(force: bool)
    | SendOne(packet: Packet, track: bool, attach: bool)
    | DeliverPacket(flying: Flying)
    | EmitAck(built: AckFrame)
    | DeliverAck(frame: AckFrame, carrier: nat, now: int, delay: int)
    | AlarmFires(time: int, wait: int, potentiallyFailed: bool)
    | PathCloses
    | Retransmit

  ghost predicate Enabled(j: Joint, e: Event) {
    match e
    case DeliverPacket(flying) => flying in j.network
    case EmitAck(f) => j.receiver.largest > 0 && FrameOf(j.receiver, f)
    case DeliverAck(f, _, _, _) => f in j.acks
    case _ => true
  }

  /** The receiver records the packet before it looks at the frames inside. */
  function Arrive(r: Receiver, p: Flying): Receiver {
    var r := Receive(r, p.number);
    if p.leastUnacked.Some? && p.leastUnacked.value > 0 then Limit(r, p.leastUnacked.value - 1) else r
  }

  function Next(j: Joint, e: Event): Joint {
    match e
    case QueueStopWaiting(force) =>
      var (w, frame) := SW.Announce(j.sender.waiting, force);
      j.(sender := j.sender.(waiting := w), queuedFrame := if frame.Some? then frame else j.queuedFrame)
    case SendOne(p, track, attach) =>
      var (s, err) := SH.SendPacket(j.sender, p, track);
      if err != SH.Ok then j.(sender := s)
      else j.(sender := s, network := j.network + {Flying(p.number, if attach then j.queuedFrame else None)},
              queuedFrame := if attach then None else j.queuedFrame)
    case DeliverPacket(p) =>
      j.(receiver := Arrive(j.receiver, p), everRecorded := j.everRecorded + Receive(j.receiver, p.number).recorded)
    case EmitAck(f) => j.(acks := j.acks + {f})
    case DeliverAck(f, carrier, now, delay) => j.(sender := SH.ReceiveAck(j.sender, f, carrier, now, delay).0)
    case AlarmFires(now, delay, failed) => j.(sender := SH.Alarm(j.sender, now, delay, failed))
    case PathCloses => j.(sender := SH.LoseInflight(j.sender))
    case Retransmit => j.(sender := SH.Dequeue(j.sender).0)
  }

  ghost predicate Possible(events: seq<Event>)
    decreases |events|, 0
  {
    events == [] || (Possible(events[..|events| - 1]) && Enabled(Reached(events[..|events| - 1]), events[|events| - 1]))
  }

  ghost function Reached(events: seq<Event>): Joint
    requires Possible(events)
    decreases |events|, 1
  {
    if events == [] then START else Next(Reached(events[..|events| - 1]), events[|events| - 1])
  }

  // ----- what holds in every reachable state -----

  predicate Carried(j: Joint, n: nat) {
    exists p :: p in j.network && p.number == n
  }

  /** Packets in the network were sent, are not among the skipped numbers, and announce at most their own number. */
  ghost predicate NetworkOk(j: Joint) {
    && (forall p :: p in j.network ==> 1 <= p.number <= j.sender.lastSent)
    && (forall p, i :: p in j.network && 0 <= i < |j.sender.skipped| ==> p.number != j.sender.skipped[i])
    && (forall p :: p in j.network && p.leastUnacked.Some? ==> 1 <= p.leastUnacked.value <= p.number)
    && (j.queuedFrame.Some? ==> 1 <= j.queuedFrame.value <= j.sender.lastSent + 1)
  }

  ghost predicate ReceiverOk(j: Joint) {
    && Sound(j.receiver) && j.receiver.recorded <= j.everRecorded
    && (forall n :: n in j.everRecorded ==> Carried(j, n))
  }

  ghost predicate AcksOk(j: Joint) {
    forall f :: f in j.acks ==> Honest(j.everRecorded, f)
  }

  ghost predicate Honest(recorded: set<nat>, f: AckFrame) {
    Consistent(f) && f.largestAcked in recorded && forall p: nat :: Acks(f, p) ==> p in recorded
  }

  ghost predicate AckedOk(j: Joint) {
    forall p :: p in j.sender.acked ==> p.number in j.everRecorded
  }

  ghost predicate Inv(j: Joint) {
    SH.Inv(j.sender) && NetworkOk(j) && ReceiverOk(j) && AcksOk(j) && AckedOk(j)
  }

  /** The sender changes without sending anything, and acknowledges only what was recorded. */
  lemma SenderChanges(j: Joint, s: SH.Sent)
    requires Inv(j) && SH.Inv(s) && s.lastSent == j.sender.lastSent
    requires forall i :: 0 <= i < |s.skipped| ==> s.skipped[i] in j.sender.skipped
    requires forall p :: p in s.acked ==> p.number in j.everRecorded
    ensures Inv(j.(sender := s))
  {
    var t := j.(sender := s);
    assert NetworkOk(t) by {
      forall p, i | p in t.network && 0 <= i < |s.skipped| ensures p.number != s.skipped[i] {
        var k :| 0 <= k < |j.sender.skipped| && j.sender.skipped[k] == s.skipped[i];
      }
    }
    forall n | n in t.everRecorded ensures Carried(t, n) {
      assert Carried(j, n);
    }
  }

  /** Every number that was ever recorded had been sent and is not a skipped one. */
  lemma RecordedWasSent(j: Joint, n: nat)
    requires NetworkOk(j) && ReceiverOk(j) && n in j.everRecorded
    ensures 1 <= n <= j.sender.lastSent && n !in j.sender.skipped
  {
    assert Carried(j, n);
    var p :| p in j.network && p.number == n;
  }

  /** Neither of the errors for an ACK that cannot be true is ever reported. */
  lemma HonestAckAccepted(j: Joint, f: AckFrame, carrier: nat, now: int, delay: int)
    requires NetworkOk(j) && ReceiverOk(j) && Honest(j.everRecorded, f)
    ensures SH.ReceiveAck(j.sender, f, carrier, now, delay).1 == SH.Ok ||
        SH.ReceiveAck(j.sender, f, carrier, now, delay).1 == SH.DuplicateAck
  {
    RecordedWasSent(j, f.largestAcked);
    forall i | 0 <= i < |j.sender.skipped| ensures !Acks(f, j.sender.skipped[i]) {
      if j.sender.skipped[i] in j.everRecorded {
        RecordedWasSent(j, j.sender.skipped[i]);
      }
    }
  }

  /** What processing an ACK adds to the acknowledged packets, and what it leaves of the skipped numbers. */
  lemma ProcessFacts(s: SH.Sent, f: AckFrame, now: int, delay: int)
    requires Rising(0, s.skipped)
    ensures SH.Process(s, f, now, delay).acked == s.acked + Filter(s.history, SH.AckedBy(f))
    ensures SH.Process(s, f, now, delay).lastSent == s.lastSent
    ensures forall i :: 0 <= i < |SH.Process(s, f, now, delay).skipped| ==>
        SH.Process(s, f, now, delay).skipped[i] in s.skipped
  {
    var t := SH.DetectLost(SH.Confirm(s, f), now, delay);
    SH.DropUpToKeeps(0, s.skipped, SH.LargestInOrderAcked(t));
  }

  lemma ReceiveAckFacts(s: SH.Sent, f: AckFrame, carrier: nat, now: int, delay: int)
    requires Rising(0, s.skipped)
    ensures var t := SH.ReceiveAck(s, f, carrier, now, delay).0;
      && t.lastSent == s.lastSent
      && (forall i :: 0 <= i < |t.skipped| ==> t.skipped[i] in s.skipped)
      && (t.acked == s.acked || t.acked == s.acked + Filter(s.history, SH.AckedBy(f)))
  {
    ProcessFacts(s.(largestWithAck := carrier, largestAcked := f.largestAcked), f, now, delay);
  }

  /** An ACK only ever moves packets to the acknowledged ones that it acknowledges. */
  lemma AckedByFrame(s: SH.Sent, t: SH.Sent, f: AckFrame, p: Packet)
    requires t.acked == s.acked || t.acked == s.acked + Filter(s.history, SH.AckedBy(f))
    requires p in t.acked
    ensures p in s.acked || Acks(f, p.number)
  {
    FilterMembers(s.history, SH.AckedBy(f), p);
  }

  lemma AfterAck(s: SH.Sent, f: AckFrame, carrier: nat, now: int, delay: int) returns (t: SH.Sent)
    requires SH.Inv(s)
    ensures t == SH.ReceiveAck(s, f, carrier, now, delay).0 && SH.Inv(t) && t.lastSent == s.lastSent
    ensures forall i :: 0 <= i < |t.skipped| ==> t.skipped[i] in s.skipped
    ensures t.acked == s.acked || t.acked == s.acked + Filter(s.history, SH.AckedBy(f))
  {
    SH.ReceiveAckKeeps(s, f, carrier, now, delay);
    ReceiveAckFacts(s, f, carrier, now, delay);
    t := SH.ReceiveAck(s, f, carrier, now, delay).0;
  }

  lemma NextIsAck(j: Joint, f: AckFrame, carrier: nat, now: int, delay: int, t: SH.Sent)
    requires t == SH.ReceiveAck(j.sender, f, carrier, now, delay).0
    ensures Next(j, DeliverAck(f, carrier, now, delay)) == j.(sender := t)
  {
  }

  lemma DeliverAckKeeps(j: Joint, f: AckFrame, carrier: nat, now: int, delay: int) returns (k: Joint)
    requires Inv(j) && f in j.acks
    ensures k == Next(j, DeliverAck(f, carrier, now, delay)) && Inv(k)
  {
    var t := AfterAck(j.sender, f, carrier, now, delay);
    NextIsAck(j, f, carrier, now, delay, t);
    assert Honest(j.everRecorded, f);
    forall p | p in t.acked ensures p.number in j.everRecorded {
      AckedByFrame(j.sender, t, f, p);
    }
    SenderChanges(j, t);
    k := j.(sender := t);
  }

  lemma AlarmFacts(s: SH.Sent, now: int, delay: int, failed: bool) returns (t: SH.Sent)
    requires SH.Inv(s)
    ensures t == SH.Alarm(s, now, delay, failed) && SH.Inv(t)
    ensures t.lastSent == s.lastSent && t.skipped == s.skipped && t.acked == s.acked
  {
    SH.AlarmKeeps(s, now, delay, failed);
    t := SH.Alarm(s, now, delay, failed);
  }

  /** An event that does nothing but change the sender, and keeps what the others know of it. */
  lemma SenderReplaced(j: Joint, e: Event, t: SH.Sent)
    requires Inv(j) && SH.Inv(t) && Next(j, e) == j.(sender := t)
    requires t.lastSent == j.sender.lastSent && t.skipped == j.sender.skipped && t.acked == j.sender.acked
    ensures Inv(Next(j, e))
  {
    SenderChanges(j, t);
  }

  lemma LoseFacts(s: SH.Sent) returns (t: SH.Sent)
    requires SH.Inv(s)
    ensures t == SH.LoseInflight(s) && SH.Inv(t)
    ensures t.lastSent == s.lastSent && t.skipped == s.skipped && t.acked == s.acked
  {
    SH.LoseInflightKeeps(s);
    t := SH.LoseInflight(s);
  }

  lemma DequeueFacts(s: SH.Sent) returns (t: SH.Sent)
    requires SH.Inv(s)
    ensures t == SH.Dequeue(s).0 && SH.Inv(t)
    ensures t.lastSent == s.lastSent && t.skipped == s.skipped && t.acked == s.acked
  {
    SH.DequeueKeeps(s);
    t := SH.Dequeue(s).0;
  }

  lemma SenderOnlyKeeps(j: Joint, e: Event)
    requires Inv(j) && (e.AlarmFires? || e.PathCloses? || e.Retransmit?)
    ensures Inv(Next(j, e))
  {
    var t := SenderAfter(j, e);
    SenderReplaced(j, e, t);
  }

  lemma SenderAfter(j: Joint, e: Event) returns (t: SH.Sent)
    requires SH.Inv(j.sender) && (e.AlarmFires? || e.PathCloses? || e.Retransmit?)
    ensures Next(j, e) == j.(sender := t) && SH.Inv(t)
    ensures t.lastSent == j.sender.lastSent && t.skipped == j.sender.skipped && t.acked == j.sender.acked
  {
    match e {
      case AlarmFires(now, delay, failed) => t := AlarmAfter(j, now, delay, failed);
      case PathCloses => t := CloseAfter(j);
      case Retransmit => t := RetransmitAfter(j);
    }
  }

  lemma AlarmAfter(j: Joint, now: int, delay: int, failed: bool) returns (t: SH.Sent)
    requires SH.Inv(j.sender)
    ensures Next(j, AlarmFires(now, delay, failed)) == j.(sender := t) && SH.Inv(t)
    ensures t.lastSent == j.sender.lastSent && t.skipped == j.sender.skipped && t.acked == j.sender.acked
  {
    t := AlarmFacts(j.sender, now, delay, failed);
    NextIs(j, AlarmFires(now, delay, failed), t);
  }

  lemma CloseAfter(j: Joint) returns (t: SH.Sent)
    requires SH.Inv(j.sender)
    ensures Next(j, PathCloses) == j.(sender := t) && SH.Inv(t)
    ensures t.lastSent == j.sender.lastSent && t.skipped == j.sender.skipped && t.acked == j.sender.acked
  {
    t := LoseFacts(j.sender);
    NextIs(j, PathCloses, t);
  }

  lemma RetransmitAfter(j: Joint) returns (t: SH.Sent)
    requires SH.Inv(j.sender)
    ensures Next(j, Retransmit) == j.(sender := t) && SH.Inv(t)
    ensures t.lastSent == j.sender.lastSent && t.skipped == j.sender.skipped && t.acked == j.sender.acked
  {
    t := DequeueFacts(j.sender);
    NextIs(j, Retransmit, t);
  }

  lemma NextIs(j: Joint, e: Event, t: SH.Sent)
    requires e.PathCloses? ==> t == SH.LoseInflight(j.sender)
    requires e.Retransmit? ==> t == SH.Dequeue(j.sender).0
    requires e.AlarmFires? ==> t == SH.Alarm(j.sender, e.time, e.wait, e.potentiallyFailed)
    requires e.PathCloses? || e.Retransmit? || e.AlarmFires?
    ensures Next(j, e) == j.(sender := t)
  {
  }

  lemma QueueKeeps(j: Joint, force: bool)
    requires Inv(j)
    ensures Inv(Next(j, QueueStopWaiting(force)))
  {
    SW.AnnounceOk(j.sender.waiting, force);
    var s := j.sender.(waiting := SW.Announce(j.sender.waiting, force).0);
    SenderChanges(j, s);
    var t := j.(sender := s);
    forall n | n in t.everRecorded ensures Carried(Next(j, QueueStopWaiting(force)), n) {
      assert Carried(t, n);
    }
  }

  lemma SendFacts(s: SH.Sent, p: Packet, track: bool) returns (t: SH.Sent)
    requires SH.Inv(s)
    ensures t == SH.SendPacket(s, p, track).0 && t.acked == s.acked
    ensures SH.SendPacket(s, p, track).1 == SH.Ok ==> s.lastSent < p.number == t.lastSent
    ensures SH.SendPacket(s, p, track).1 == SH.Ok ==>
      forall i :: 0 <= i < |t.skipped| ==> t.skipped[i] in s.skipped || s.lastSent < t.skipped[i] < p.number
    ensures SH.SendPacket(s, p, track).1 != SH.Ok ==> t == s
  {
    t := SH.SendPacket(s, p, track).0;
    if SH.SendPacket(s, p, track).1 == SH.Ok {
      var all := s.skipped + SH.Between(s.lastSent + 1, p.number);
      forall i | 0 <= i < |t.skipped| ensures t.skipped[i] in s.skipped || s.lastSent < t.skipped[i] < p.number {
        assert t.skipped[i] in all;
      }
    }
  }

  lemma SendNetwork(j: Joint, p: Packet, track: bool, attach: bool)
    requires SH.Inv(j.sender) && NetworkOk(j)
    ensures NetworkOk(Next(j, SendOne(p, track, attach)))
  {
    var t := SendFacts(j.sender, p, track);
    var k := Next(j, SendOne(p, track, attach));
    if SH.SendPacket(j.sender, p, track).1 == SH.Ok {
      forall q, i | q in k.network && 0 <= i < |t.skipped| ensures q.number != t.skipped[i] {
        if q in j.network && t.skipped[i] in j.sender.skipped {
          var m :| 0 <= m < |j.sender.skipped| && j.sender.skipped[m] == t.skipped[i];
        } else if t.skipped[i] in j.sender.skipped {
          var m :| 0 <= m < |j.sender.skipped| && j.sender.skipped[m] == t.skipped[i];
          assert j.sender.skipped[m] <= j.sender.lastSent;
        }
      }
    }
  }

  lemma SendKeeps(j: Joint, p: Packet, track: bool, attach: bool)
    requires Inv(j)
    ensures Inv(Next(j, SendOne(p, track, attach)))
  {
    SH.SendKeeps(j.sender, p, track);
    SendNetwork(j, p, track, attach);
    var t := SendFacts(j.sender, p, track);
    var k := Next(j, SendOne(p, track, attach));
    forall n | n in j.everRecorded ensures Carried(k, n) {
      assert Carried(j, n);
      var q :| q in j.network && q.number == n;
      assert q in k.network;
    }
  }

  /** A packet leaves the receiver with its largest number recorded, whatever it asks it to forget. */
  lemma ArriveSound(r: Receiver, p: Flying)
    requires Sound(r) && p.number >= 1 && (p.leastUnacked.Some? ==> 1 <= p.leastUnacked.value <= p.number)
    ensures Sound(Arrive(r, p)) && Arrive(r, p).recorded <= Receive(r, p.number).recorded <= r.recorded + {p.number}
  {
    ReceiveSound(r, p.number);
    if p.leastUnacked.Some? {
      LimitSound(Receive(r, p.number), p.leastUnacked.value - 1);
    }
  }

  lemma DeliverPacketKeeps(j: Joint, p: Flying)
    requires Inv(j) && p in j.network
    ensures Inv(Next(j, DeliverPacket(p)))
  {
    ArriveSound(j.receiver, p);
    var k := Next(j, DeliverPacket(p));
    forall n | n in k.everRecorded ensures Carried(k, n) {
      if n in j.everRecorded {
        assert Carried(j, n);
      } else {
        assert n == p.number;
      }
    }
    forall f | f in k.acks ensures Honest(k.everRecorded, f) {
      assert Honest(j.everRecorded, f);
    }
  }

  lemma EmitKeeps(j: Joint, f: AckFrame)
    requires Inv(j) && Enabled(j, EmitAck(f))
    ensures Inv(Next(j, EmitAck(f)))
  {
    var k := Next(j, EmitAck(f));
    assert Honest(j.everRecorded, f);
    forall n | n in k.everRecorded ensures Carried(k, n) {
      assert Carried(j, n);
    }
  }

  lemma StepKeeps(j: Joint, e: Event) returns (k: Joint)
    requires Inv(j) && Enabled(j, e)
    ensures k == Next(j, e) && Inv(k)
  {
    k := Next(j, e);
    match e
    case QueueStopWaiting(force) => QueueKeeps(j, force);
    case SendOne(p, track, attach) => SendKeeps(j, p, track, attach);
    case DeliverPacket(p) => DeliverPacketKeeps(j, p);
    case EmitAck(f) => EmitKeeps(j, f);
    case DeliverAck(f, carrier, now, delay) => k := DeliverAckKeeps(j, f, carrier, now, delay);
    case AlarmFires(_, _, _) => SenderOnlyKeeps(j, e);
    case PathCloses => SenderOnlyKeeps(j, e);
    case Retransmit => SenderOnlyKeeps(j, e);
  }

  lemma {:induction false} ReachedInv(events: seq<Event>)
    requires Possible(events)
    ensures Inv(Reached(events))
    decreases |events|
  {
    if events != [] {
      ReachedInv(events[..|events| - 1]);
      var _ := StepKeeps(Reached(events[..|events| - 1]), events[|events| - 1]);
    }
  }

  // ----- the results -----

  /** In every run, each packet the sender holds as acknowledged was recorded by the receiver. */
  lemma AcknowledgedWasRecorded(events: seq<Event>, p: Packet)
    requires Possible(events) && p in Reached(events).sender.acked
    ensures p.number in Reached(events).everRecorded
  {
    ReachedInv(events);
  }

  /** In every run, an ACK frame from the network meets no error other than being out of date. */
  lemma NoFalseAlarm(events: seq<Event>, f: AckFrame, carrier: nat, now: int, delay: int)
    requires Possible(events) && f in Reached(events).acks
    ensures Consistent(f)
    ensures SH.ReceiveAck(Reached(events).sender, f, carrier, now, delay).1 in {SH.Ok, SH.DuplicateAck}
  {
    ReachedInv(events);
    var j := Reached(events);
    assert Honest(j.everRecorded, f);
    HonestAckAccepted(j, f, carrier, now, delay);
  }

  lemma HonestNeverSent(j: Joint, f: AckFrame)
    requires NetworkOk(j) && ReceiverOk(j) && Honest(j.everRecorded, f)
    ensures !SE.AcksNeverSent(f, j.sender.skipped)
  {
    forall n: nat | n in j.sender.skipped
      ensures !Acks(f, n)
    {
      if n in j.everRecorded {
        RecordedWasSent(j, n);
      }
    }
  }

  /**
   * In every run, an ACK frame from the network that is not out of date moves exactly the packets it acknowledges to
   * the acknowledged ones, and exactly the overdue ones among the others to those to be sent again.
   */
  lemma DeliveredAck(events: seq<Event>, f: AckFrame, carrier: nat, now: int, delay: int, p: Packet)
    requires Possible(events) && f in Reached(events).acks && SE.GetsChecked(Reached(events).sender, f, carrier)
    ensures var s := Reached(events).sender; var n := multiset(s.history)[p];
            var t := Next(Reached(events), DeliverAck(f, carrier, now, delay)).sender;
            var lost := !Acks(f, p.number) && SE.Overdue(p, f.largestAcked, now, delay);
            && multiset(t.history)[p] == (if Acks(f, p.number) || lost then 0 else n)
            && SE.Gains(s.acked, t.acked, p, if Acks(f, p.number) then n else 0)
            && SE.Gains(s.queue, t.queue, p, if lost then n else 0)
  {
    ReachedInv(events);
    var j := Reached(events);
    assert Honest(j.everRecorded, f);
    HonestNeverSent(j, f);
    SE.AckEffect(j.sender, f, carrier, now, delay, p);
    NextIsAck(j, f, carrier, now, delay, SH.ReceiveAck(j.sender, f, carrier, now, delay).0);
  }

  /** In every run, the alarm lets exactly the packets go that it is for. */
  lemma FiredAlarm(events: seq<Event>, now: int, delay: int, failed: bool, p: Packet)
    requires Possible(events) && SH.HasRetransmittable(Reached(events).sender.history)
    ensures var s := Reached(events).sender; var t := Next(Reached(events), AlarmFires(now, delay, failed)).sender;
            && SE.OnlyQueued(s, t)
            && (p in t.history <==> p in s.history && SE.Stays(s, now, delay, failed, p))
            && (s.lossTime.None? ==> |t.history| < |s.history|)
  {
    ReachedInv(events);
    var s := Reached(events).sender;
    SE.AlarmEffect(s, now, delay, failed, p);
    NextIs(Reached(events), AlarmFires(now, delay, failed), SH.Alarm(s, now, delay, failed));
  }

  /** Processing an ACK leaves exactly the packets that it neither acknowledges nor gives up as lost. */
  lemma RemovesExactly(s: SH.Sent, f: AckFrame, now: int, delay: int, p: Packet)
    ensures p in SH.Process(s, f, now, delay).history <==>
      p in s.history && !Acks(f, p.number) && !(p.number <= s.largestAcked && now - p.sendTime > delay)
    ensures p in Filter(s.history, SH.AckedBy(f)) <==> p in s.history && Acks(f, p.number)
  {
    var lost := SH.IsLost(s.largestAcked, now, delay);
    var t := SH.Confirm(s, f);
    FilterMembers(s.history, SH.AckedBy(f), p);
    FilterMembers(s.history, Not(SH.AckedBy(f)), p);
    FilterMembers(t.history, Not(lost), p);
  }

  /**
   * In every run, STOP_WAITING frames leave the largest received number recorded, so an ACK frame can always be
   * built.
   */
  lemma NeverEmptied(events: seq<Event>)
    requires Possible(events)
    ensures var j := Reached(events);
      && (j.receiver.largest > 0 ==> j.receiver.largest in j.receiver.recorded)
      && (forall p :: p in j.network && p.leastUnacked.Some? ==> 1 <= p.leastUnacked.value <= p.number)
  {
    ReachedInv(events);
  }

  /**
   * In every run, the bytes in flight are those of the outstanding packets, and each tracked packet is in exactly one
   * place.
   */
  lemma InFlightExact(events: seq<Event>, p: Packet)
    requires Possible(events)
    ensures var s := Reached(events).sender;
      && s.bytesInFlight == Total(s.history)
      && (p in s.tracked ==>
            multiset(s.history)[p] + multiset(s.acked)[p] + multiset(s.queue)[p] + multiset(s.dequeued)[p] == 1)
      && (p in s.history ==> p.number !in s.skipped && p.number <= s.lastSent)
  {
    ReachedInv(events);
    var s := Reached(events).sender;
    SH.InHistory(s, p);
    if p in s.tracked {
      SH.ExactlyOnePlace(s, p);
    }
  }
}
