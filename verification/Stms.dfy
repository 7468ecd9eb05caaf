/**
 How a stream hands out its bytes to a fast path and to slower paths (STMS).

 Everything below offset `f` has been sent, and so has the stretch from `ss` up to `sn`
 that slower paths took ahead of the fast one. What is still to send is the hole [f, ss)
 and the tail from `sn` to the end of what was written. This module describes a send as
 the choice of one stretch of offsets; `StmsStream` shows that the program, which keeps
 the two parts spliced together in one buffer, makes these choices.
 */
module Stms {
  import opened Basics

  datatype Sender = Sender(written: seq<byte>, f: nat, ss: nat, sn: nat)

  /** The fastest path of at least three; the fastest path when there are fewer; otherwise the gap of a slower path. */
  const FASTEST := -1
  const ALONE := -2

  predicate Ordered(s: Sender) {
    s.f <= s.ss <= s.sn <= |s.written| && (s.f < s.ss ==> s.ss < s.sn)
  }

  function Pending(s: Sender): seq<byte>
    requires Ordered(s)
  {
    s.written[s.f..s.ss] + s.written[s.sn..]
  }

  predicate Sent(s: Sender, x: nat) {
    x < s.f || s.ss <= x < s.sn
  }

  /** A send that the rules allow: some room in the packet, and no lone fast path while a hole is open. */
  predicate Allowed(s: Sender, maxBytes: nat, gap: int) {
    maxBytes >= 1 && (gap == ALONE ==> s.f == s.ss)
  }

  /** The stretch [lo, hi) of offsets that a send takes, if it takes anything. */
  function Stretch(s: Sender, maxBytes: nat, gap: int): Option<(nat, nat)>
    requires Ordered(s) && Allowed(s, maxBytes, gap)
  {
    var end := |s.written|;
    if Pending(s) == [] || gap < ALONE then None
    else if gap < 0 then
      if s.f < s.ss then Some((s.f, Min(s.f + maxBytes, s.ss)))
      else Some((s.sn, Min(s.sn + maxBytes, end)))
    else if gap >= |Pending(s)| then None
    else if s.ss < s.sn then
      if s.sn == end then None else Some((s.sn, Min(s.sn + maxBytes, end)))
    else Some((s.sn + gap, Min(s.sn + gap + maxBytes, end)))
  }

  /** The offsets as the program moves them for a lone fast path, hole or not. */
  function MoveAll(s: Sender, n: nat): Sender {
    s.(f := s.f + n, ss := s.ss + n, sn := s.sn + n)
  }

  /** The offsets after a send. */
  function Advance(s: Sender, maxBytes: nat, gap: int): Sender
    requires Ordered(s) && Allowed(s, maxBytes, gap)
  {
    match Stretch(s, maxBytes, gap)
    case None => s
    case Some((lo, hi)) =>
      if gap == FASTEST && s.f < s.ss then
        if s.f + maxBytes > s.ss || |Pending(s)| <= maxBytes then s.(f := s.sn, ss := s.sn)
        else s.(f := hi)
      else if gap == FASTEST then s.(f := hi, ss := hi, sn := hi)
      else if gap < 0 then MoveAll(s, hi - lo)
      else if s.ss < s.sn then s.(sn := hi)
      else s.(ss := lo, sn := hi)
  }

  /** The offset a frame is given, chosen from the state before its data is taken. */
  function FrameOffset(s: Sender, gap: int): nat
  {
    if gap < 0 then
      if s.f == s.ss && s.ss < s.sn then s.sn else s.f
    else
      if s.ss < s.sn then s.sn else s.f + gap
  }

  /**
   Exactly once: what a send takes was written, begins at the frame's offset and was not sent before;
   afterwards it has been sent, and nothing else has changed.
   */
  lemma SendTiles(s: Sender, maxBytes: nat, gap: int)
    requires Ordered(s) && Allowed(s, maxBytes, gap)
    ensures Ordered(Advance(s, maxBytes, gap)) && Advance(s, maxBytes, gap).written == s.written
    ensures Stretch(s, maxBytes, gap).None? ==> Advance(s, maxBytes, gap) == s
    ensures Stretch(s, maxBytes, gap).Some? ==>
              var (lo, hi) := Stretch(s, maxBytes, gap).value;
              && lo == FrameOffset(s, gap) && lo < hi <= |s.written| && hi - lo <= maxBytes
              && (forall x: nat :: lo <= x < hi ==> !Sent(s, x))
              && (forall x: nat :: Sent(Advance(s, maxBytes, gap), x) <==> Sent(s, x) || lo <= x < hi)
  {
  }

  // ----- where in the pending bytes a stretch lies -----

  /** Up to maxBytes bytes from position `at` on, and what remains. */
  function Middle(live: seq<byte>, at: nat, maxBytes: nat): seq<byte>
    requires at <= |live|
  {
    live[at..at + Min(maxBytes, |live| - at)]
  }

  function Around(live: seq<byte>, at: nat, maxBytes: nat): seq<byte>
    requires at <= |live|
  {
    live[..at] + live[at + Min(maxBytes, |live| - at)..]
  }

  /** Bytes at the front of the hole. */
  lemma HoleFront(s: Sender, n: nat)
    requires Ordered(s) && n <= s.ss - s.f
    ensures Pending(s)[..n] == s.written[s.f..s.f + n]
    ensures Pending(s)[n..] == s.written[s.f + n..s.ss] + s.written[s.sn..]
  {
  }

  /** Bytes at the front of the tail. */
  lemma TailFront(s: Sender, t: Sender, at: nat, n: nat, maxBytes: nat)
    requires Ordered(s) && at == s.ss - s.f && n == Min(maxBytes, |Pending(s)| - at)
    requires t == s.(sn := s.sn + n) && Ordered(t)
    ensures SliceAt(s.written, s.sn, Middle(Pending(s), at, maxBytes))
    ensures Pending(t) == Around(Pending(s), at, maxBytes)
  {
    TailParts(s.written[s.f..s.ss], s.written, s.sn, n);
  }

  /** The front of the tail, behind what is left of the hole. */
  lemma TailParts(hole: seq<byte>, w: seq<byte>, from: nat, n: nat)
    requires from + n <= |w|
    ensures var live := hole + w[from..];
            && SliceAt(w, from, live[|hole|..|hole| + n])
            && hole + w[from + n..] == live[..|hole|] + live[|hole| + n..]
  {
    var live := hole + w[from..];
    assert live[|hole|..|hole| + n] == w[from..from + n];
    assert live[|hole| + n..] == w[from + n..];
    assert live[..|hole|] == hole;
  }

  /** Without a hole, what is pending is the tail. */
  lemma PendingTail(s: Sender)
    requires Ordered(s) && s.f == s.ss
    ensures Pending(s) == s.written[s.sn..]
  {
  }

  /** Bytes behind a new hole of `at` bytes. */
  lemma NewHole(w: seq<byte>, from: nat, at: nat, n: nat, maxBytes: nat, live: seq<byte>, t: Sender)
    requires from <= |w| && live == w[from..] && at <= |live| && n == Min(maxBytes, |live| - at)
    requires t == Sender(w, from, from + at, from + at + n) && Ordered(t)
    ensures SliceAt(w, from + at, Middle(live, at, maxBytes))
    ensures Pending(t) == Around(live, at, maxBytes)
  {
    HoleParts(w, from, at, n);
  }

  /** What a new hole cuts the tail into. */
  lemma HoleParts(w: seq<byte>, from: nat, at: nat, n: nat)
    requires from + at + n <= |w|
    ensures var live := w[from..];
            && SliceAt(w, from + at, live[at..at + n])
            && w[from..from + at] + w[from + at + n..] == live[..at] + live[at + n..]
  {
    var live := w[from..];
    assert live[at..at + n] == w[from + at..from + at + n];
    assert live[..at] == w[from..from + at];
    assert live[at + n..] == w[from + at + n..];
  }

  /** How many bytes a send takes. */
  function Length(s: Sender, maxBytes: nat, gap: int): nat
    requires Ordered(s) && Allowed(s, maxBytes, gap)
  {
    match Stretch(s, maxBytes, gap)
    case None => 0
    case Some((lo, hi)) => if lo <= hi then hi - lo else 0
  }

  /** Fast paths take from the front of what is pending. */
  lemma FrontTaken(s: Sender, maxBytes: nat, gap: int)
    requires Ordered(s) && Allowed(s, maxBytes, gap) && ALONE <= gap < 0 && Pending(s) != []
    ensures var n := Length(s, maxBytes, gap);
      && Stretch(s, maxBytes, gap).Some? && 1 <= n <= |Pending(s)|
      && SliceAt(s.written, Stretch(s, maxBytes, gap).value.0, Pending(s)[..n])
      && Ordered(Advance(s, maxBytes, gap)) && Pending(Advance(s, maxBytes, gap)) == Pending(s)[n..]
  {
    if s.f < s.ss {
      FrontOfHole(s, maxBytes);
    } else {
      FrontOfTail(s, maxBytes, gap);
    }
  }

  lemma FrontOfHole(s: Sender, maxBytes: nat)
    requires Ordered(s) && maxBytes >= 1 && s.f < s.ss
    ensures var n := Length(s, maxBytes, FASTEST);
      && Stretch(s, maxBytes, FASTEST) == Some((s.f, s.f + n)) && 1 <= n <= |Pending(s)|
      && SliceAt(s.written, s.f, Pending(s)[..n])
      && Ordered(Advance(s, maxBytes, FASTEST)) && Pending(Advance(s, maxBytes, FASTEST)) == Pending(s)[n..]
  {
    HoleFront(s, Length(s, maxBytes, FASTEST));
  }

  lemma FrontOfTail(s: Sender, maxBytes: nat, gap: int)
    requires Ordered(s) && maxBytes >= 1 && ALONE <= gap < 0 && s.f == s.ss && Pending(s) != []
    ensures var n := Length(s, maxBytes, gap);
      && Stretch(s, maxBytes, gap) == Some((s.sn, s.sn + n)) && 1 <= n <= |Pending(s)|
      && SliceAt(s.written, s.sn, Pending(s)[..n])
      && Ordered(Advance(s, maxBytes, gap)) && Pending(Advance(s, maxBytes, gap)) == Pending(s)[n..]
  {
    PendingTail(s);
    PendingTail(Advance(s, maxBytes, gap));
    TailSplits(s.written, s.sn, Length(s, maxBytes, gap));
  }

  lemma TailSplits(w: seq<byte>, from: nat, n: nat)
    requires from + n <= |w|
    ensures w[from..][..n] == w[from..from + n] && w[from..][n..] == w[from + n..]
  {
  }

  /** The offsets after a slower path's send, which leaves a hole of `gap` bytes when none was open. */
  lemma SlowerMoves(s: Sender, maxBytes: nat, gap: nat) returns (at: nat, n: nat)
    requires Ordered(s) && maxBytes >= 1 && gap < |Pending(s)|
    ensures at == if s.ss < s.sn then s.ss - s.f else gap
    ensures at <= |Pending(s)| && n == Length(s, maxBytes, gap) == Min(maxBytes, |Pending(s)| - at)
    ensures Stretch(s, maxBytes, gap).Some? <==> n > 0
    ensures n > 0 ==>
      var lo := if s.ss < s.sn then s.sn else s.f + at;
      Stretch(s, maxBytes, gap).value == (lo, lo + n)
    ensures Advance(s, maxBytes, gap) == Sender(s.written, s.f, s.f + at, (if s.ss < s.sn then s.sn else s.f + at) + n)
    ensures Ordered(Advance(s, maxBytes, gap))
  {
    n := Length(s, maxBytes, gap);
    at := if s.ss < s.sn then s.ss - s.f else gap;
  }

  /** Slower paths take from behind the hole. */
  lemma SlowerTaken(s: Sender, maxBytes: nat, gap: nat) returns (at: nat, t: Sender)
    requires Ordered(s) && maxBytes >= 1 && gap < |Pending(s)|
    ensures at == if s.ss < s.sn then s.ss - s.f else gap
    ensures at <= |Pending(s)| && Length(s, maxBytes, gap) == |Middle(Pending(s), at, maxBytes)|
    ensures Stretch(s, maxBytes, gap).Some? <==> Middle(Pending(s), at, maxBytes) != []
    ensures Stretch(s, maxBytes, gap).Some? ==>
      SliceAt(s.written, Stretch(s, maxBytes, gap).value.0, Middle(Pending(s), at, maxBytes))
    ensures t == Advance(s, maxBytes, gap) && Ordered(t) && Pending(t) == Around(Pending(s), at, maxBytes)
    ensures t.f == s.f && t.ss == s.f + at
    ensures t.sn == (if s.ss < s.sn then s.sn else s.f + at) + Length(s, maxBytes, gap)
  {
    var n;
    at, n := SlowerMoves(s, maxBytes, gap);
    t := Sender(s.written, s.f, s.f + at, (if s.ss < s.sn then s.sn else s.f + at) + n);
    if s.ss < s.sn {
      TailFront(s, t, at, n, maxBytes);
    } else {
      PendingTail(s);
      NewHole(s.written, s.f, at, n, maxBytes, Pending(s), t);
    }
  }

  /** Nothing is pending exactly when every written byte has been sent. */
  lemma NothingPending(s: Sender)
    requires Ordered(s)
    ensures Pending(s) == [] <==> forall x: nat :: x < |s.written| ==> Sent(s, x)
  {
    if Pending(s) != [] {
      var x := if s.f < s.ss then s.f else s.sn;
      assert x < |s.written| && !Sent(s, x);
    }
  }

  function Fastest(s: Sender, maxBytes: nat, n: nat): Sender
    requires Ordered(s) && maxBytes >= 1
    decreases n
  {
    if n == 0 then s else
      SendTiles(s, maxBytes, FASTEST);
      Fastest(Advance(s, maxBytes, FASTEST), maxBytes, n - 1)
  }

  /** Progress: the fastest path alone empties the stream, whatever hole was left to it. */
  lemma {:induction false} FastestDrains(s: Sender, maxBytes: nat, n: nat)
    requires Ordered(s) && maxBytes >= 1 && n >= |Pending(s)|
    ensures Ordered(Fastest(s, maxBytes, n)) && Pending(Fastest(s, maxBytes, n)) == []
    decreases n
  {
    if n > 0 {
      SendTiles(s, maxBytes, FASTEST);
      FastestDrains(Advance(s, maxBytes, FASTEST), maxBytes, n - 1);
    }
  }

  // ----- the two places where the program relies on its callers -----

  /** A lone fast path keeps the account of sent offsets if and only if no hole is open. */
  lemma AloneExact(s: Sender, n: nat)
    requires Ordered(s) && 1 <= n <= |Pending(s)|
    ensures var lo := FrameOffset(s, ALONE);
      (forall x: nat :: Sent(MoveAll(s, n), x) <==> Sent(s, x) || lo <= x < lo + n) <==> s.f == s.ss
  {
    if s.f < s.ss {
      var x: nat := s.sn + n - 1;
      assert Sent(MoveAll(s, n), x);
      assert !(Sent(s, x) || FrameOffset(s, ALONE) <= x < FrameOffset(s, ALONE) + n);
    }
  }

  /** A hole of two bytes and a tail: the lone fast path labels the tail's byte 4 as byte 2. */
  lemma AloneFails()
    ensures var s := Sender([10, 11, 12, 13, 14, 15], 0, 2, 4);
      && Ordered(s) && !SliceAt(s.written, FrameOffset(s, ALONE), Pending(s)[..3])
  {
    var s := Sender([10, 11, 12, 13, 14, 15], 0, 2, 4);
    assert Pending(s) == [10, 11, 14, 15];
    assert Pending(s)[..3][2] == 14 && s.written[0..3][2] == 12;
  }

  /** A write puts its bytes in the place of the buffer, which is right if and only if nothing was pending. */
  lemma WriteExact(s: Sender, p: seq<byte>)
    requires Ordered(s)
    ensures Ordered(s.(written := s.written + p))
    ensures Pending(s.(written := s.written + p)) == Pending(s) + p
    ensures Pending(s.(written := s.written + p)) == p <==> Pending(s) == []
  {
    var t := s.(written := s.written + p);
    assert t.written[s.f..s.ss] == s.written[s.f..s.ss];
    assert t.written[s.sn..] == s.written[s.sn..] + p;
    assert Pending(t) == Pending(s) + p;
    assert |Pending(t)| == |Pending(s)| + |p|;
  }

  /**
   When the stream is closed, the framer marks a frame as the last one as soon as the buffer is empty.
   The frame that empties it ends where the stream ends if and only if no hole was open.
   */
  lemma FinExact(s: Sender, maxBytes: nat, gap: int)
    requires Ordered(s) && Allowed(s, maxBytes, gap) && Stretch(s, maxBytes, gap).Some?
    requires Ordered(Advance(s, maxBytes, gap)) && Pending(Advance(s, maxBytes, gap)) == []
    ensures Stretch(s, maxBytes, gap).value.1 == |s.written| <==> s.f == s.ss
  {
  }

  /**
   * A last frame without data carries the right offset if and only if a fast path sends it or no new hole is reckoned
   * with.
   */
  lemma EmptyFinExact(s: Sender, gap: int)
    requires Ordered(s) && Pending(s) == []
    ensures FrameOffset(s, gap) == |s.written| <==> gap <= 0 || s.ss < s.sn
  {
  }
}
