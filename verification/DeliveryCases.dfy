/** Runs that reach the states in which the program is wrong, and the framer's splits as acts of a run. */
module DeliveryCases {
  import opened Basics
  import opened Stms
  import opened Delivery
  import Framer

  lemma ReachedMore(acts: seq<Act>, a: Act)
    requires Possible(acts) && Enabled(Reached(acts), a)
    ensures Possible(acts + [a]) && Reached(acts + [a]) == Next(Reached(acts), a)
  {
    LastAct(acts, a);
    ReachedLast(acts + [a], acts, a);
  }

  lemma LastAct(acts: seq<Act>, a: Act)
    ensures (acts + [a])[..|acts + [a]| - 1] == acts && (acts + [a])[|acts + [a]| - 1] == a
  {
  }

  lemma ReachedLast(more: seq<Act>, acts: seq<Act>, a: Act)
    requires |more| > 0 && more[..|more| - 1] == acts && more[|more| - 1] == a
    requires Possible(acts) && Enabled(Reached(acts), a)
    ensures Possible(more) && Reached(more) == Next(Reached(acts), a)
  {
  }

  lemma WriteFirst(p: seq<byte>)
    ensures Possible([Write(p)]) && Reached([Write(p)]).sender == Sender(p, 0, 0, 0)
  {
    assert Reached([]) == START;
    ReachedMore([], Write(p));
    assert [] + [Write(p)] == [Write(p)];
    assert [] + p == p;
  }

  lemma WriteThenSend(p: seq<byte>, maxBytes: nat, gap: int) returns (s: Sender)
    requires maxBytes >= 1
    ensures Possible([Write(p), Send(maxBytes, gap)]) && s == Reached([Write(p), Send(maxBytes, gap)]).sender
    ensures s == Advance(Sender(p, 0, 0, 0), maxBytes, gap)
  {
    WriteFirst(p);
    ReachedMore([Write(p)], Send(maxBytes, gap));
    assert [Write(p)] + [Send(maxBytes, gap)] == [Write(p), Send(maxBytes, gap)];
    s := Reached([Write(p), Send(maxBytes, gap)]).sender;
  }

  /** A slower path that leaves a hole of two bytes leads to a state in which gap -2 labels bytes wrongly. */
  lemma AloneFailureReached()
    ensures var acts := [Write([10, 11, 12, 13, 14, 15]), Send(2, 2)];
            && Possible(acts) && Ordered(Reached(acts).sender)
            && var s := Reached(acts).sender;
               |Pending(s)| >= 3 && !SliceAt(s.written, FrameOffset(s, ALONE), Pending(s)[..3])
  {
    var p: seq<byte> := [10, 11, 12, 13, 14, 15];
    var s := WriteThenSend(p, 2, 2);
    assert s == Sender(p, 0, 2, 4);
    AloneFails();
  }

  /** A second write while the first is pending, as after a deadline: the buffer loses the first byte. */
  lemma WriteFailureReached()
    ensures var s := Reached([Write([1])]).sender;
            Possible([Write([1])]) && Ordered(s) && Pending(s) == [1] &&
            Pending(s.(written := s.written + [2])) == [1, 2] != [2]
  {
    WriteFirst([1]);
    WriteExact(Reached([Write([1])]).sender, [2]);
  }

  /** The hole is sent last: the frame that empties the buffer ends at byte 1 of 3. */
  lemma FinFailureReached()
    ensures var acts := [Write([1, 2, 3]), Send(2, 1)];
            && Possible(acts) && Ordered(Reached(acts).sender)
            && var s := Reached(acts).sender;
               && Allowed(s, 1, FASTEST) && Ordered(Advance(s, 1, FASTEST)) && Pending(Advance(s, 1, FASTEST)) == []
               && Stretch(s, 1, FASTEST) == Some((0, 1)) && |s.written| == 3
  {
    var p: seq<byte> := [1, 2, 3];
    var s := WriteThenSend(p, 2, 1);
    assert s == Sender(p, 0, 1, 3);
    HoleEmpties(s);
  }

  lemma HoleEmpties(s: Sender)
    requires s == Sender([1, 2, 3], 0, 1, 3)
    ensures Stretch(s, 1, FASTEST) == Some((0, 1))
    ensures Ordered(Advance(s, 1, FASTEST)) && Pending(Advance(s, 1, FASTEST)) == []
  {
    assert Pending(s) == [1];
    assert Advance(s, 1, FASTEST) == s.(f := 3, ss := 3);
  }

  /** Everything is sent, and a slower path with a gap of one closes the stream at byte 2 of 1. */
  lemma EmptyFinFailureReached()
    ensures var acts := [Write([1]), Send(1, FASTEST)];
            && Possible(acts) && Ordered(Reached(acts).sender)
            && var s := Reached(acts).sender;
               Pending(s) == [] && |s.written| == 1 && FrameOffset(s, 1) == 2
  {
    var p: seq<byte> := [1];
    var s := WriteThenSend(p, 1, FASTEST);
    OneSent(p);
  }

  lemma OneSent(p: seq<byte>)
    requires |p| == 1
    ensures Advance(Sender(p, 0, 0, 0), 1, FASTEST) == Sender(p, 1, 1, 1)
    ensures Pending(Sender(p, 1, 1, 1)) == [] && FrameOffset(Sender(p, 1, 1, 1), 1) == 2
  {
  }

  function PieceOf(f: Framer.StreamFrame): Piece { Piece(f.offset, f.data) }

  /** The frame that the framer splits off and what remains of it are the two pieces of a split in a run. */
  lemma FramerSplits(n: Net, f: Framer.StreamFrame, k: nat)
    requires Inv(n) && PieceOf(f) in n.wire && 1 <= k < |f.data|
    ensures Enabled(n, Split(PieceOf(f), k))
    ensures Next(n, Split(PieceOf(f), k)) ==
            n.(wire := n.wire + {PieceOf(Framer.SplitOff(f, k)), PieceOf(Framer.Remainder(f, k))})
    ensures SliceAt(n.sender.written, f.offset, Framer.SplitOff(f, k).data)
    ensures SliceAt(n.sender.written, f.offset + k, Framer.Remainder(f, k).data)
  {
    SplitKeepsInv(n, PieceOf(f), k);
    assert PieceOf(Framer.SplitOff(f, k)) in Next(n, Split(PieceOf(f), k)).wire;
    assert PieceOf(Framer.Remainder(f, k)) in Next(n, Split(PieceOf(f), k)).wire;
  }
}
