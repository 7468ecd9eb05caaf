/** Which packet number a sender tells its peer to stop waiting below. */
module StopWaiting {
  import opened Basics

  datatype Waiting = Waiting(largestSent: nat, next: nat, last: Option<nat>)

  const START := Waiting(0, 0, None)

  /** Moves the least unacknowledged number past p. */
  function Pass(w: Waiting, p: nat): Waiting {
    if p >= w.next then w.(next := p + 1) else w
  }

  /** What has been announced is the last frame, and a later announcement is never lower. */
  predicate Ok(w: Waiting) {
    && w.largestSent <= w.next
    && (if w.last.None? then w.largestSent == 0 else w.last.value == w.largestSent && w.largestSent >= 1)
  }

  class StopWaitingManager {
    var largestLeastUnackedSent: nat
    var nextLeastUnacked: nat
    var lastStopWaitingFrame: Option<nat>

    ghost function State(): Waiting
      reads this
    {
      Waiting(largestLeastUnackedSent, nextLeastUnacked, lastStopWaitingFrame)
    }

    constructor ()
      ensures State() == START && Ok(State())
    {
      largestLeastUnackedSent, nextLeastUnacked, lastStopWaitingFrame := 0, 0, None;
    }

    /**
     The frame to send, if any. A frame never announces 0, so subtracting one from it is safe, and never
     more than what is settled. `lostFirst` tells whether the branch for a lost first packet was taken.
     */
    method GetStopWaitingFrame(force: bool) returns (frame: Option<nat>, lostFirst: bool)
      requires Ok(State())
      modifies this
      ensures (State(), frame) == Announce(old(State()), force)
      ensures Ok(State()) && !lostFirst
      ensures frame.Some? ==> 1 <= frame.value <= nextLeastUnacked && frame.value == largestLeastUnackedSent
      ensures frame.Some? <==>
              old(nextLeastUnacked > largestLeastUnackedSent) || (force && old(lastStopWaitingFrame.Some?))
      ensures nextLeastUnacked <= largestLeastUnackedSent
      ensures largestLeastUnackedSent >= old(largestLeastUnackedSent) && nextLeastUnacked == old(nextLeastUnacked)
    {
      lostFirst := false;
      if nextLeastUnacked <= largestLeastUnackedSent {
        if force {
          var last := lastStopWaitingFrame;
          if last.None? && largestLeastUnackedSent > 0 {
            lostFirst, last := true, Some(nextLeastUnacked);
          }
          lastStopWaitingFrame := last;
          return last, lostFirst;
        }
        return None, lostFirst;
      }
      largestLeastUnackedSent := nextLeastUnacked;
      lastStopWaitingFrame := Some(nextLeastUnacked);
      return lastStopWaitingFrame, lostFirst;
    }

    method ReceivedAck(largestAcked: nat)
      requires Ok(State())
      modifies this
      ensures State() == Pass(old(State()), largestAcked) && Ok(State())
      ensures nextLeastUnacked == Max(old(nextLeastUnacked), largestAcked + 1)
    {
      if largestAcked >= nextLeastUnacked {
        nextLeastUnacked := largestAcked + 1;
      }
    }

    method QueuedRetransmissionForPacketNumber(p: nat)
      requires Ok(State())
      modifies this
      ensures State() == Pass(old(State()), p) && Ok(State())
      ensures nextLeastUnacked == Max(old(nextLeastUnacked), p + 1)
    {
      if p >= nextLeastUnacked {
        nextLeastUnacked := p + 1;
      }
    }
  }

  /** An announcement is new when there is something new to say, and repeats the last one when forced. */
  function Announce(w: Waiting, force: bool): (r: (Waiting, Option<nat>)) {
    if w.largestSent < w.next then (w.(largestSent := w.next, last := Some(w.next)), Some(w.next))
    else (w, if force then w.last else None)
  }

  lemma AnnounceOk(w: Waiting, force: bool)
    requires Ok(w)
    ensures var (v, frame) := Announce(w, force);
      Ok(v) && v.next == w.next && w.largestSent <= v.largestSent
      && (frame.Some? ==> 1 <= frame.value <= w.next && frame.value == v.largestSent)
  {
  }

  /** A sender passes numbers as they are settled, and asks for a frame now and then. */
  datatype Event = Settled(number: nat) | Asked(force: bool)

  /** The manager, the frames it gave and the numbers that were settled. */
  datatype Log = Log(w: Waiting, frames: seq<nat>, settled: seq<nat>)

  function Step(r: Log, e: Event): Log {
    match e
    case Settled(n) => r.(w := Pass(r.w, n), settled := r.settled + [n])
    case Asked(force) =>
      var (w, frame) := Announce(r.w, force);
      r.(w := w, frames := if frame.Some? then r.frames + [frame.value] else r.frames)
  }

  function After(events: seq<Event>): Log {
    if events == [] then Log(START, [], []) else Step(After(events[..|events| - 1]), events[|events| - 1])
  }

  /** The number to announce is one above the largest number settled, and the last frame is the largest. */
  predicate Told(r: Log) {
    && Ok(r.w)
    && (forall n <- r.settled :: n < r.w.next)
    && (if r.settled == [] then r.w.next == 0 else exists n :: n in r.settled && r.w.next == n + 1)
    && (forall f <- r.frames :: 1 <= f <= r.w.largestSent)
    && r.w.last == if r.frames == [] then None else Some(r.frames[|r.frames| - 1])
  }

  lemma StepTold(r: Log, e: Event)
    requires Told(r)
    ensures Told(Step(r, e))
  {
    if e.Settled? {
      var k := Step(r, e);
      assert k.settled[|r.settled|] == e.number;
      if r.w.next != k.w.next {
        assert e.number in k.settled;
      } else {
        var n :| n in r.settled && r.w.next == n + 1;
        assert n in k.settled;
      }
    }
  }

  lemma {:induction false} RunTold(events: seq<Event>)
    ensures Told(After(events))
    decreases |events|
  {
    if events != [] {
      RunTold(events[..|events| - 1]);
      StepTold(After(events[..|events| - 1]), events[|events| - 1]);
    }
  }

  /**
   * In every run, an unforced request gives a frame if and only if a number was settled that no frame has announced
   * yet, and the frame announces everything up to the largest number settled.
   */
  lemma AnnouncesExactly(events: seq<Event>)
    ensures var r := After(events); var frame := Announce(r.w, false).1;
            && (frame.Some? <==> exists n <- r.settled :: forall f <- r.frames :: n >= f)
            && (frame.Some? ==> frame.value - 1 in r.settled && forall n <- r.settled :: n < frame.value)
  {
    RunTold(events);
    var r := After(events);
    if r.w.largestSent < r.w.next {
      var n :| n in r.settled && r.w.next == n + 1;
      assert forall f <- r.frames :: n >= f;
    } else if r.frames != [] {
      assert r.frames[|r.frames| - 1] in r.frames;
    }
  }
}
