/**
 What the numbers left out are for: an ACK for a packet that was never sent gives the peer away. The sender keeps only
 the latest of these numbers and forgets those below what is outstanding, so it catches such an ACK only sometimes.
 */
module SkippedNumbers {
  import opened Basics
  import opened AckFrames
  import opened PacketLists
  import opened ReceivedHandler
  import opened AckProtocol
  import SH = SentHandler
  import opened SentEffects

  /** The sender still knows that it left n out: n is one of the latest, and nothing above n made it forget. */
  predicate Remembers(s: SH.Sent, n: nat) {
    n in SH.LastOf(s.left, SH.MAX_TRACKED_SKIPPED_PACKETS) && n > s.collected
  }

  predicate AllUpTo(s: seq<nat>, n: nat) { forall x <- s :: x <= n }

  /** The numbers kept are those remembered. */
  predicate KeepsLatest(s: SH.Sent) {
    && Rising(0, s.left) && AllUpTo(s.left, s.lastSent) && s.collected <= s.lastSent
    && s.skipped == SH.DropUpTo(SH.LastOf(s.left, SH.MAX_TRACKED_SKIPPED_PACKETS), s.collected)
  }

  // ----- dropping from the front and keeping the end -----

  /** The place of the first number above c. */
  function Mark(s: seq<nat>, c: nat): (k: nat)
    ensures k <= |s|
    decreases |s|
  {
    if s == [] || c < s[0] then 0 else 1 + Mark(s[1..], c)
  }

  lemma {:induction false} DropIsSlice(s: seq<nat>, c: nat)
    ensures SH.DropUpTo(s, c) == s[Mark(s, c)..]
    decreases |s|
  {
    if s != [] && s[0] <= c {
      DropIsSlice(s[1..], c);
      assert s[1..][Mark(s[1..], c)..] == s[Mark(s, c)..];
    }
  }

  lemma {:induction false} MarkSplits(low: nat, s: seq<nat>, c: nat, i: nat)
    requires Rising(low, s) && i < |s|
    ensures s[i] <= c <==> i < Mark(s, c)
    decreases |s|
  {
    if c < s[0] {
      if i > 0 {
        RisingPair(low, s, 0, i);
      }
    } else if i > 0 {
      MarkSplits(s[0], s[1..], c, i - 1);
    }
  }

  /** Of the latest numbers, those above c remain. */
  lemma DropMembers(s: seq<nat>, c: nat, n: nat)
    requires Rising(0, s)
    ensures n in SH.DropUpTo(s, c) <==> n in s && n > c
  {
    DropIsSlice(s, c);
    var k := Mark(s, c);
    if n in s {
      var i :| 0 <= i < |s| && s[i] == n;
      MarkSplits(0, s, c, i);
      assert i >= k ==> s[k..][i - k] == n;
    }
    if n in s[k..] {
      var i :| 0 <= i < |s[k..]| && s[k..][i] == n;
      MarkSplits(0, s, c, k + i);
      assert s[k + i] == n;
    }
  }

  lemma {:induction false} MarkDrops(low: nat, s: seq<nat>, c: nat, k: nat)
    requires Rising(low, s) && k <= |s|
    ensures Mark(s[k..], c) == if k <= Mark(s, c) then Mark(s, c) - k else 0
    decreases k
  {
    if k > 0 {
      assert s[1..][k - 1..] == s[k..];
      MarkDrops(s[0], s[1..], c, k - 1);
      if c < s[0] && k < |s| {
        RisingPair(low, s, 0, k);
      }
    }
  }

  /** Keeping the last m and dropping up to c makes a slice that begins at the later of two places. */
  lemma KeptIsSlice(s: seq<nat>, m: nat, c: nat) returns (k: nat)
    requires Rising(0, s)
    ensures k == Max(Mark(s, c), if |s| > m then |s| - m else 0) <= |s|
    ensures SH.DropUpTo(SH.LastOf(s, m), c) == s[k..]
  {
    var d := if |s| > m then |s| - m else 0;
    k := Max(Mark(s, c), d);
    assert SH.LastOf(s, m) == s[d..];
    MarkDrops(0, s, c, d);
    DropIsSlice(s[d..], c);
    Twice(s, d, k - d);
  }

  lemma Twice(s: seq<nat>, a: nat, b: nat)
    requires a + b <= |s|
    ensures s[a..][b..] == s[a + b..]
  {
  }

  lemma {:induction false} MarkMore(s: seq<nat>, more: seq<nat>, c: nat)
    requires more != [] ==> c < more[0]
    ensures Mark(s + more, c) == Mark(s, c)
    decreases |s|
  {
    if s == [] {
      assert s + more == more;
    } else if s[0] <= c {
      assert (s + more)[1..] == s[1..] + more;
      MarkMore(s[1..], more, c);
    }
  }

  lemma SliceMore(s: seq<nat>, more: seq<nat>, k: nat)
    requires k <= |s|
    ensures s[k..] + more == (s + more)[k..]
  {
  }

  lemma LastSlice(s: seq<nat>, k: nat, m: nat)
    requires k <= |s|
    ensures SH.LastOf(s[k..], m) == s[Max(k, if |s| > m then |s| - m else 0)..]
  {
    if |s| - k > m {
      Twice(s, k, |s| - k - m);
    }
  }

  /** Noting more numbers and keeping the last m does the same before and after forgetting. */
  lemma NoteMore(s: seq<nat>, more: seq<nat>, m: nat, c: nat)
    requires Rising(0, s) && Rising(0, s + more) && (more != [] ==> c < more[0])
    ensures SH.LastOf(SH.DropUpTo(SH.LastOf(s, m), c) + more, m) == SH.DropUpTo(SH.LastOf(s + more, m), c)
  {
    var a, k := NoteSlice(s, more, m, c);
    var all := KeptIsSlice(s + more, m, c);
    MarkMore(s, more, c);
    assert Max(k, if |a| > m then |a| - m else 0) == all;
  }

  lemma NoteSlice(s: seq<nat>, more: seq<nat>, m: nat, c: nat) returns (a: seq<nat>, k: nat)
    requires Rising(0, s)
    ensures a == s + more && k == Max(Mark(s, c), if |s| > m then |s| - m else 0) <= |s|
    ensures SH.LastOf(SH.DropUpTo(SH.LastOf(s, m), c) + more, m) == a[Max(k, if |a| > m then |a| - m else 0)..]
  {
    k := KeptIsSlice(s, m, c);
    a := s + more;
    SliceMore(s, more, k);
    LastSlice(a, k, m);
  }

  /** Forgetting twice is forgetting up to the higher number. */
  lemma {:induction false} DropTwice(s: seq<nat>, c: nat, d: nat)
    ensures SH.DropUpTo(SH.DropUpTo(s, c), d) == SH.DropUpTo(s, Max(c, d))
    decreases |s|
  {
    if s != [] && s[0] <= c {
      DropTwice(s[1..], c, d);
    }
  }

  // ----- what every event does to them -----

  lemma NotedKeeps(s: SH.Sent, n: nat)
    requires KeepsLatest(s) && n > s.lastSent
    ensures KeepsLatest(SH.Noted(s, n))
  {
    var more := SH.Between(s.lastSent + 1, n);
    assert s.left != [] ==> s.left[|s.left| - 1] in s.left;
    SH.RisingBetween(0, s.left, s.lastSent + 1, n);
    NoteMore(s.left, more, SH.MAX_TRACKED_SKIPPED_PACKETS, s.collected);
  }

  lemma CollectKeeps(s: SH.Sent)
    requires KeepsLatest(s) && SH.LargestInOrderAcked(s) <= s.lastSent
    ensures KeepsLatest(SH.CollectGarbage(s))
  {
    DropTwice(SH.LastOf(s.left, SH.MAX_TRACKED_SKIPPED_PACKETS), s.collected, SH.LargestInOrderAcked(s));
  }

  /** Two states of a sender that agree on all that concerns the numbers left out. */
  predicate SameLeft(s: SH.Sent, t: SH.Sent) {
    t.lastSent == s.lastSent && t.left == s.left && t.collected == s.collected && t.skipped == s.skipped
  }

  lemma InOrderSent(s: SH.Sent)
    requires SH.Inv(s)
    ensures SH.LargestInOrderAcked(s) <= s.lastSent
  {
    if s.history != [] {
      SH.InHistory(s, s.history[0]);
    }
  }

  lemma ProcessKeeps(s: SH.Sent, f: AckFrame, now: int, delay: int)
    requires SH.Inv(s) && KeepsLatest(s) && f.largestAcked <= s.lastSent
    ensures KeepsLatest(SH.Process(s, f, now, delay))
  {
    var t := SH.DetectLost(SH.Confirm(s, f), now, delay);
    assert SH.Inv(t) by {
      SH.ConfirmKeeps(s, f);
      SH.DetectLostKeeps(SH.Confirm(s, f), now, delay);
    }
    InOrderSent(t);
    assert SameLeft(s, t);
    CollectKeeps(t);
  }

  lemma AckKeeps(s: SH.Sent, f: AckFrame, carrier: nat, now: int, delay: int)
    requires SH.Inv(s) && KeepsLatest(s)
    ensures KeepsLatest(SH.ReceiveAck(s, f, carrier, now, delay).0)
  {
    if f.largestAcked <= s.lastSent && carrier > s.largestWithAck {
      SH.NoteKeeps(s, carrier, f.largestAcked);
      var t := s.(largestWithAck := carrier, largestAcked := f.largestAcked);
      var done := SH.Process(t, f, now, delay);
      ProcessKeeps(t, f, now, delay);
      SH.ReceiveAckIs(s, f, carrier, now, delay, done);
    }
  }

  // ----- in every run -----

  /** The number n lies in what was sent, but no packet ever had it. */
  ghost predicate NeverSent(j: Joint, n: nat) { 1 <= n <= j.sender.lastSent && !Carried(j, n) }

  ghost predicate Accounted(j: Joint) {
    KeepsLatest(j.sender) && forall n: nat :: n in j.sender.left <==> NeverSent(j, n)
  }

  /** The network and the numbers left out stay as they are. */
  lemma SameAccounted(j: Joint, k: Joint)
    requires Accounted(j) && KeepsLatest(k.sender)
    requires k.network == j.network && k.sender.left == j.sender.left && k.sender.lastSent == j.sender.lastSent
    ensures Accounted(k)
  {
    forall n: nat
      ensures NeverSent(k, n) <==> NeverSent(j, n)
    {
    }
  }

  lemma SendLeaves(j: Joint, p: Packet, track: bool, attach: bool, n: nat)
    requires NetworkOk(j) && Accounted(j) && SH.SendPacket(j.sender, p, track).1 == SH.Ok
    ensures var k := Next(j, SendOne(p, track, attach)); n in k.sender.left <==> NeverSent(k, n)
  {
    var k := Next(j, SendOne(p, track, attach));
    var more := SH.Between(j.sender.lastSent + 1, p.number);
    assert k.sender.left == j.sender.left + more;
    assert n in k.sender.left <==> n in j.sender.left || j.sender.lastSent < n < p.number;
    var added := Flying(p.number, if attach then j.queuedFrame else None);
    assert k.network == j.network + {added};
    if Carried(j, n) {
      var q :| q in j.network && q.number == n;
      assert q in k.network;
    }
    if n == p.number {
      assert added in k.network;
    }
    assert n in j.sender.left <==> NeverSent(j, n);
  }

  lemma SendAccounted(j: Joint, p: Packet, track: bool, attach: bool)
    requires NetworkOk(j) && Accounted(j)
    ensures Accounted(Next(j, SendOne(p, track, attach)))
  {
    if SH.SendPacket(j.sender, p, track).1 == SH.Ok {
      NotedKeeps(j.sender, p.number);
      forall n: nat
        ensures n in Next(j, SendOne(p, track, attach)).sender.left <==>
                NeverSent(Next(j, SendOne(p, track, attach)), n)
      {
        SendLeaves(j, p, track, attach, n);
      }
    } else {
      SameAccounted(j, Next(j, SendOne(p, track, attach)));
    }
  }

  lemma AckAccounted(j: Joint, f: AckFrame, carrier: nat, now: int, delay: int)
    requires SH.Inv(j.sender) && Accounted(j)
    ensures Accounted(Next(j, DeliverAck(f, carrier, now, delay)))
  {
    AckKeeps(j.sender, f, carrier, now, delay);
    AckSameLeft(j.sender, f, carrier, now, delay);
    SameAccounted(j, Next(j, DeliverAck(f, carrier, now, delay)));
  }

  lemma AckSameLeft(s: SH.Sent, f: AckFrame, carrier: nat, now: int, delay: int)
    ensures var t := SH.ReceiveAck(s, f, carrier, now, delay).0; t.left == s.left && t.lastSent == s.lastSent
  {
  }

  lemma StepAccounted(j: Joint, e: Event)
    requires Inv(j) && Accounted(j)
    ensures Accounted(Next(j, e))
  {
    match e
    case SendOne(p, track, attach) => SendAccounted(j, p, track, attach);
    case DeliverAck(f, carrier, now, delay) => AckAccounted(j, f, carrier, now, delay);
    case _ =>
      OtherSame(j, e);
      SameAccounted(j, Next(j, e));
  }

  lemma OtherSame(j: Joint, e: Event)
    requires !e.SendOne? && !e.DeliverAck?
    ensures Next(j, e).network == j.network && SameLeft(j.sender, Next(j, e).sender)
  {
  }

  /** In every run, the numbers left out are exactly those that no packet had, and the sender keeps the latest. */
  lemma {:induction false} ReachedAccounted(events: seq<Event>)
    requires Possible(events)
    ensures Accounted(Reached(events))
    decreases |events|
  {
    if events != [] {
      var before := events[..|events| - 1];
      ReachedAccounted(before);
      ReachedInv(before);
      StepAccounted(Reached(before), events[|events| - 1]);
    }
  }

  /**
   * In every run, a frame that gets as far as the check is rejected if and only if it acknowledges a number that was
   * never sent and that the sender still remembers.
   */
  lemma CaughtExactly(events: seq<Event>, f: AckFrame, carrier: nat, now: int, delay: int)
    requires Possible(events) && GetsChecked(Reached(events).sender, f, carrier)
    ensures var j := Reached(events);
            SH.ReceiveAck(j.sender, f, carrier, now, delay).1 == SH.AckForSkipped <==>
            exists n: nat :: Acks(f, n) && NeverSent(j, n) && Remembers(j.sender, n)
  {
    var j := Reached(events);
    ReachedAccounted(events);
    forall n: nat
      ensures n in j.sender.skipped <==> NeverSent(j, n) && Remembers(j.sender, n)
    {
      SkippedExactly(j, n);
    }
    CheckedIs(j.sender, f, carrier, now, delay);
  }

  lemma SkippedExactly(j: Joint, n: nat)
    requires Accounted(j)
    ensures n in j.sender.skipped <==> NeverSent(j, n) && Remembers(j.sender, n)
  {
    var left := j.sender.left;
    var latest := SH.LastOf(left, SH.MAX_TRACKED_SKIPPED_PACKETS);
    if |left| > SH.MAX_TRACKED_SKIPPED_PACKETS {
      SH.RisingDrop(0, left, |left| - SH.MAX_TRACKED_SKIPPED_PACKETS);
    }
    DropMembers(latest, j.sender.collected, n);
    assert n in latest ==> n in left;
  }

  lemma CheckedIs(s: SH.Sent, f: AckFrame, carrier: nat, now: int, delay: int)
    requires GetsChecked(s, f, carrier)
    ensures SH.ReceiveAck(s, f, carrier, now, delay).1 == SH.AckForSkipped <==>
            exists n: nat :: Acks(f, n) && n in s.skipped
  {
    if SH.AcksSkipped(f, s.skipped) {
      var i :| 0 <= i < |s.skipped| && Acks(f, s.skipped[i]);
      assert s.skipped[i] in s.skipped;
    }
  }

  // ----- an ACK that is not caught -----

  const FIRST := Packet(1, 100, 0, true)
  const THIRD := Packet(3, 100, 0, true)

  /** Packets 1 and 3 are sent, the first arrives, and its ACK is processed. */
  function UnnoticedRun(): seq<Event> {
    [SendOne(FIRST, true, false), SendOne(THIRD, true, false), DeliverPacket(Flying(1, None)),
     EmitAck(AckFrame(1, 1, [])), DeliverAck(AckFrame(1, 1, []), 1, 0, 1000)]
  }

  lemma ReachedMore(events: seq<Event>, e: Event, more: seq<Event>)
    requires Possible(events) && Enabled(Reached(events), e) && more == events + [e]
    ensures Possible(more) && Reached(more) == Next(Reached(events), e)
  {
    assert more[..|more| - 1] == events;
  }

  lemma TwoSent() returns (s: SH.Sent)
    ensures Possible(UnnoticedRun()[..2])
    ensures Reached(UnnoticedRun()[..2]) ==
            Joint(s, None, {Flying(1, None), Flying(3, None)}, Receiver(0, 0, {}), {}, {})
    ensures s.lastSent == 3 && s.skipped == [2] && s.left == [2] && s.history == [FIRST, THIRD] && s.collected == 0
    ensures s.largestWithAck == 0
  {
    var none: seq<Event> := [];
    assert Possible(none) && Reached(none) == START;
    ReachedMore(none, SendOne(FIRST, true, false), UnnoticedRun()[..1]);
    ReachedMore(UnnoticedRun()[..1], SendOne(THIRD, true, false), UnnoticedRun()[..2]);
    s := Reached(UnnoticedRun()[..2]).sender;
  }

  lemma AckDelivered() returns (j: Joint, s: SH.Sent)
    ensures Possible(UnnoticedRun()) && j == Reached(UnnoticedRun())
    ensures s.lastSent == 3 && s.skipped == [2] && s.left == [2] && s.history == [FIRST, THIRD] && s.collected == 0
    ensures s.largestWithAck == 0
    ensures j.sender == SH.ReceiveAck(s, AckFrame(1, 1, []), 1, 0, 1000).0
    ensures j.network == {Flying(1, None), Flying(3, None)}
  {
    s := TwoSent();
    var run := UnnoticedRun();
    ReachedMore(run[..2], DeliverPacket(Flying(1, None)), run[..3]);
    assert Reached(run[..3]).receiver == Receiver(1, 0, {1});
    ReachedMore(run[..3], EmitAck(AckFrame(1, 1, [])), run[..4]);
    ReachedMore(run[..4], DeliverAck(AckFrame(1, 1, []), 1, 0, 1000), run);
    j := Reached(run);
  }

  /** The ACK for packet 1 leaves packet 3 outstanding, and with it the number 2 is forgotten. */
  lemma SecondForgotten(s: SH.Sent) returns (t: SH.Sent)
    requires s.lastSent == 3 && s.skipped == [2] && s.left == [2] && s.history == [FIRST, THIRD] && s.collected == 0
    requires s.largestWithAck == 0
    ensures t == SH.ReceiveAck(s, AckFrame(1, 1, []), 1, 0, 1000).0
    ensures t.lastSent == 3 && t.skipped == [] && t.left == [2] && t.history == [THIRD] && t.largestWithAck == 1
  {
    var f := AckFrame(1, 1, []);
    var s1 := s.(largestWithAck := 1, largestAcked := 1);
    TwoFilter(SH.AckedBy(f));
    TwoFilter(Not(SH.AckedBy(f)));
    var s2 := SH.Confirm(s1, f);
    assert s2.history == [THIRD];
    OneFilter(SH.IsLost(1, 0, 1000));
    OneFilter(Not(SH.IsLost(1, 0, 1000)));
    var s3 := SH.DetectLost(s2, 0, 1000);
    assert s3.history == [THIRD] && SH.LargestInOrderAcked(s3) == 2;
    assert SH.DropUpTo([2], 2) == SH.DropUpTo([], 2) == [] by { assert [2][1..] == []; }
    t := SH.Process(s1, f, 0, 1000);
  }

  lemma TwoFilter(keep: Packet -> bool)
    ensures Filter([FIRST, THIRD], keep) ==
            (if keep(FIRST) then [FIRST] else []) + (if keep(THIRD) then [THIRD] else [])
  {
    FilterPush([FIRST], THIRD, keep);
    FilterPush([], FIRST, keep);
    assert [] + [FIRST] == [FIRST] && [FIRST] + [THIRD] == [FIRST, THIRD];
  }

  lemma OneFilter(keep: Packet -> bool)
    ensures Filter([THIRD], keep) == if keep(THIRD) then [THIRD] else []
  {
    FilterPush([], THIRD, keep);
    assert [] + [THIRD] == [THIRD];
  }

  /**
   * After that run, a frame that acknowledges number 2 gets as far as the check and is accepted, although no packet
   * had that number; it would be rejected if the number had not been forgotten.
   */
  lemma UnnoticedReached(now: int, delay: int)
    ensures Possible(UnnoticedRun())
    ensures var j := Reached(UnnoticedRun()); var f := AckFrame(3, 1, []);
            && Consistent(f) && GetsChecked(j.sender, f, 2) && NeverSent(j, 2) && Acks(f, 2)
            && SH.ReceiveAck(j.sender, f, 2, now, delay).1 == SH.Ok
            && SH.ReceiveAck(j.sender.(skipped := j.sender.left), f, 2, now, delay).1 == SH.AckForSkipped
  {
    var j, s := AckDelivered();
    var t := SecondForgotten(s);
    assert Acks(AckFrame(3, 1, []), t.left[0]);
  }
}
