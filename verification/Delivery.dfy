/**
 From one end of a stream to the other: the application writes, fast and slower paths send stretches of
 what was written, the network drops, reorders and repeats frames at will and frames are split for
 retransmission, and the receiver pops what its sorter has put together.
 */
module Delivery {
  import opened Basics
  import opened Stms
  import opened Reassembly

  datatype Piece = Piece(offset: nat, data: seq<byte>)

  /**
   The sender, the frames in the order they were first sent, everything that may be in the network
   (frames sent and pieces of them), and the receiver's history, which determines its state.
   */
  datatype Net = Net(sender: Sender, sent: seq<Piece>, wire: set<Piece>, history: seq<Event>)

  datatype Act =
    | Write(p: seq<byte>)
    | Send(maxBytes: nat, gap: int)
    | Split(piece: Piece, n: nat)
    | Deliver(arrival: Piece)
    | Read

  const START := Net(Sender([], 0, 0, 0), [], {}, [])

  /** The frame that a send produces. */
  function Emitted(s: Sender, maxBytes: nat, gap: int): (r: seq<Piece>)
    requires Ordered(s) && Allowed(s, maxBytes, gap)
  {
    match Stretch(s, maxBytes, gap)
    case None => []
    case Some((lo, hi)) => if lo <= hi <= |s.written| then [Piece(FrameOffset(s, gap), s.written[lo..hi])] else []
  }

  predicate Enabled(n: Net, a: Act) {
    match a
    case Write(p) => Ordered(n.sender) && Pending(n.sender) == []
    case Send(maxBytes, gap) => Ordered(n.sender) && Allowed(n.sender, maxBytes, gap)
    case Split(piece, k) => piece in n.wire && 1 <= k < |piece.data|
    case Deliver(piece) => piece in n.wire
    case Read => true
  }

  function Next(n: Net, a: Act): Net
    requires Enabled(n, a)
  {
    match a
    case Write(p) => n.(sender := n.sender.(written := n.sender.written + p))
    case Send(maxBytes, gap) =>
      var out := Emitted(n.sender, maxBytes, gap);
      n.(sender := Advance(n.sender, maxBytes, gap), sent := n.sent + out, wire := n.wire + (set p | p in out))
    case Split(piece, k) =>
      n.(wire := n.wire + {Piece(piece.offset, piece.data[..k]), Piece(piece.offset + k, piece.data[k..])})
    case Deliver(piece) => n.(history := n.history + [Frame(piece.offset, piece.data, false)])
    case Read => n.(history := n.history + [Take])
  }

  /** The acts can be done in order, each when it is possible. */
  predicate Possible(acts: seq<Act>)
    decreases |acts|, 0
  {
    acts == [] || (Possible(acts[..|acts| - 1]) && Enabled(Reached(acts[..|acts| - 1]), acts[|acts| - 1]))
  }

  function Reached(acts: seq<Act>): Net
    requires Possible(acts)
    decreases |acts|, 1
  {
    if acts == [] then START else Next(Reached(acts[..|acts| - 1]), acts[|acts| - 1])
  }

  predicate Covers(p: Piece, x: nat) {
    p.offset <= x < p.offset + |p.data|
  }

  ghost predicate SentInSome(sent: seq<Piece>, x: nat) {
    exists i :: 0 <= i < |sent| && Covers(sent[i], x)
  }

  /** Every frame is a true slice of what was written, and so is everything the receiver was given. */
  ghost predicate Truthful(n: Net) {
    && (forall p :: p in n.wire ==> SliceAt(n.sender.written, p.offset, p.data))
    && (forall p :: p in n.sent ==> p in n.wire)
    && AllGenuine(n.sender.written, n.history)
    && !FinArrived(n.history)
  }

  /** No byte is sent in two frames, and the bytes sent are those the sender's offsets say. */
  ghost predicate Tiled(n: Net) {
    && (forall i, j, x: nat :: 0 <= i < j < |n.sent| ==> !(Covers(n.sent[i], x) && Covers(n.sent[j], x)))
    && (forall x: nat :: Sent(n.sender, x) <==> SentInSome(n.sent, x))
  }

  ghost predicate Inv(n: Net) {
    Ordered(n.sender) && Truthful(n) && Tiled(n)
  }

  lemma GrowSlice(src: seq<byte>, p: seq<byte>, offset: nat, data: seq<byte>)
    requires SliceAt(src, offset, data)
    ensures SliceAt(src + p, offset, data)
  {
  }

  lemma WriteKeeps(n: Net, p: seq<byte>)
    requires Inv(n) && Enabled(n, Write(p))
    ensures Inv(Next(n, Write(p)))
  {
    var t := Next(n, Write(p));
    WriteExact(n.sender, p);
    forall q | q in t.wire ensures SliceAt(t.sender.written, q.offset, q.data) {
      GrowSlice(n.sender.written, p, q.offset, q.data);
    }
    forall i | 0 <= i < |n.history| ensures Genuine(t.sender.written, n.history[i]) {
      assert Genuine(n.sender.written, n.history[i]);
      if n.history[i].Frame? {
        GrowSlice(n.sender.written, p, n.history[i].offset, n.history[i].data);
        assert !n.history[i].fin;
      }
    }
    forall x: nat ensures Sent(t.sender, x) <==> SentInSome(t.sent, x) {
      assert Sent(n.sender, x) <==> SentInSome(n.sent, x);
    }
  }

  lemma SentMore(sent: seq<Piece>, p: Piece, x: nat)
    ensures SentInSome(sent + [p], x) <==> SentInSome(sent, x) || Covers(p, x)
  {
    var more := sent + [p];
    assert more[|sent|] == p;
    if SentInSome(sent, x) {
      var i :| 0 <= i < |sent| && Covers(sent[i], x);
      assert more[i] == sent[i];
    }
  }

  lemma SendKeeps(n: Net, maxBytes: nat, gap: int)
    requires Inv(n) && Enabled(n, Send(maxBytes, gap))
    ensures Inv(Next(n, Send(maxBytes, gap)))
  {
    var t := Next(n, Send(maxBytes, gap));
    SendTiles(n.sender, maxBytes, gap);
    match Stretch(n.sender, maxBytes, gap)
    case None =>
      assert t.sent == n.sent && t.wire == n.wire;
    case Some((lo, hi)) =>
      var p := Piece(lo, n.sender.written[lo..hi]);
      assert Emitted(n.sender, maxBytes, gap) == [p];
      assert t.sent == n.sent + [p];
      forall x: nat ensures Sent(t.sender, x) <==> SentInSome(t.sent, x) {
        SentMore(n.sent, p, x);
      }
      forall i, j, x: nat | 0 <= i < j < |t.sent| ensures !(Covers(t.sent[i], x) && Covers(t.sent[j], x)) {
        if j == |n.sent| && Covers(t.sent[i], x) {
          assert Covers(n.sent[i], x);
          assert SentInSome(n.sent, x);
          assert Sent(n.sender, x);
        }
      }
  }

  lemma SplitKeepsInv(n: Net, piece: Piece, k: nat)
    requires Inv(n) && Enabled(n, Split(piece, k))
    ensures Inv(Next(n, Split(piece, k)))
  {
    var src, data := n.sender.written, piece.data;
    assert SliceAt(src, piece.offset, data[..k]);
    assert SliceAt(src, piece.offset + k, data[k..]);
  }

  lemma DeliverKeeps(n: Net, e: Event)
    requires Inv(n) && Genuine(n.sender.written, e) && (e.Frame? ==> !e.fin)
    ensures Inv(n.(history := n.history + [e]))
  {
    FinMore(n.history, e);
  }

  lemma StepKeeps(n: Net, a: Act)
    requires Inv(n) && Enabled(n, a)
    ensures Inv(Next(n, a))
  {
    match a
    case Write(p) => WriteKeeps(n, p);
    case Send(maxBytes, gap) => SendKeeps(n, maxBytes, gap);
    case Split(piece, k) => SplitKeepsInv(n, piece, k);
    case Deliver(piece) => DeliverKeeps(n, Frame(piece.offset, piece.data, false));
    case Read => DeliverKeeps(n, Take);
  }

  lemma {:induction false} ReachedInv(acts: seq<Act>)
    requires Possible(acts)
    ensures Inv(Reached(acts))
    decreases |acts|
  {
    if acts != [] {
      ReachedInv(acts[..|acts| - 1]);
      StepKeeps(Reached(acts[..|acts| - 1]), acts[|acts| - 1]);
    }
  }

  /** What the receiver has popped in a reached state. */
  function PoppedSoFar(n: Net, maxGaps: nat, maxBytes: nat): seq<byte> {
    After(maxGaps, maxBytes, n.history).popped
  }

  /** Safety: in every run, what was popped is the beginning of what was written. */
  lemma NeverWrong(acts: seq<Act>, maxGaps: nat, maxBytes: nat)
    requires Possible(acts) && |Reached(acts).sender.written| < maxBytes
    ensures PoppedSoFar(Reached(acts), maxGaps, maxBytes) <= Reached(acts).sender.written
  {
    ReachedInv(acts);
    RunGood(Reached(acts).sender.written, maxGaps, maxBytes, Reached(acts).history);
  }

  /** Every byte that was sent has been delivered at least once, in whatever piece. */
  ghost predicate AllArrived(n: Net) {
    forall p, x: nat :: p in n.sent && Covers(p, x) ==> Arrived(n.history, x)
  }

  /**
   * Completeness: once the sender has nothing left and everything sent has arrived, the receiver pops all that was
   * written.
   */
  lemma NothingLost(acts: seq<Act>, maxGaps: nat, maxBytes: nat)
    requires Possible(acts) && Ordered(Reached(acts).sender) && Pending(Reached(acts).sender) == [] &&
        AllArrived(Reached(acts))
    requires |Reached(acts).sender.written| < maxBytes && !After(maxGaps, maxBytes, Reached(acts).history).failed
    ensures var n := Reached(acts);
      After(maxGaps, maxBytes, n.history + Takes(|n.sender.written|)).popped == n.sender.written
  {
    ReachedInv(acts);
    var n := Reached(acts);
    NothingPending(n.sender);
    forall x: nat | x < |n.sender.written| ensures Arrived(n.history, x) {
      assert Sent(n.sender, x);
      var i :| 0 <= i < |n.sent| && Covers(n.sent[i], x);
      assert n.sent[i] in n.sent;
    }
    AllDelivered(n.sender.written, maxGaps, maxBytes, n.history);
  }
}
