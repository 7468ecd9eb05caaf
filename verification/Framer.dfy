/** Packing queued stream frames into a packet again after a loss, splitting the last one if it does not fit. */
module Framer {
  import opened Basics

  datatype StreamFrame = StreamFrame(streamID: nat, offset: nat, data: seq<byte>, fin: bool, dataLenPresent: bool)

  function StreamIDLength(id: nat): nat {
    if id < 0x100 then 1 else if id < 0x1_0000 then 2 else if id < 0x100_0000 then 3 else 4
  }

  function OffsetLength(offset: nat): nat {
    if offset == 0 then 0
    else if offset < 0x1_0000 then 2
    else if offset < 0x100_0000 then 3
    else if offset < 0x1_0000_0000 then 4
    else if offset < 0x100_0000_0000 then 5
    else if offset < 0x1_0000_0000_0000 then 6
    else if offset < 0x100_0000_0000_0000 then 7
    else 8
  }

  function Power256(k: nat): nat { if k == 0 then 1 else 256 * Power256(k - 1) }

  lemma Powers()
    ensures Power256(1) == 0x100 && Power256(2) == 0x1_0000 && Power256(3) == 0x100_0000
    ensures Power256(4) == 0x1_0000_0000 && Power256(5) == 0x100_0000_0000 && Power256(6) == 0x1_0000_0000_0000
    ensures Power256(7) == 0x100_0000_0000_0000 && Power256(8) == 0x1_0000_0000_0000_0000
  {
  }

  /** An identifier takes the fewest bytes, at least one, in which it can be written. */
  lemma IDLengthExact(id: nat, k: nat)
    requires id < 0x1_0000_0000 && 1 <= k <= 4
    ensures 1 <= StreamIDLength(id) <= 4 && (StreamIDLength(id) <= k <==> id < Power256(k))
  {
    Powers();
  }

  /** An offset takes no bytes if it is zero, and otherwise the fewest, at least two. */
  lemma OffsetLengthExact(offset: nat, k: nat)
    requires offset < 0x1_0000_0000_0000_0000 && 2 <= k <= 8
    ensures OffsetLength(offset) == 0 <==> offset == 0
    ensures offset > 0 ==> 2 <= OffsetLength(offset) <= 8 && (OffsetLength(offset) <= k <==> offset < Power256(k))
  {
    Powers();
  }

  /** The length of a frame without its data. */
  function MinLength(f: StreamFrame): nat {
    1 + StreamIDLength(f.streamID) + OffsetLength(f.offset) + if f.dataLenPresent then 2 else 0
  }

  function Size(frames: seq<StreamFrame>): nat {
    if frames == [] then 0 else
      var last := frames[|frames| - 1];
      Size(frames[..|frames| - 1]) + MinLength(last) + |last.data|
  }

  /** One byte of a stream, with its place. */
  datatype Datum = Datum(streamID: nat, offset: nat, value: byte)

  function Bytes(f: StreamFrame): seq<Datum> {
    seq(|f.data|, i requires 0 <= i < |f.data| => Datum(f.streamID, f.offset + i, f.data[i]))
  }

  /** The bytes that frames carry, in order, with their places. */
  function Carried(frames: seq<StreamFrame>): seq<Datum> {
    if frames == [] then [] else Bytes(frames[0]) + Carried(frames[1..])
  }

  /** The stream ends that frames announce, in order. */
  function Fins(frames: seq<StreamFrame>): seq<(nat, nat)> {
    if frames == [] then [] else FinOf(frames[0]) + Fins(frames[1..])
  }

  lemma {:induction false} CarriedConcat(a: seq<StreamFrame>, b: seq<StreamFrame>)
    ensures Carried(a + b) == Carried(a) + Carried(b)
  {
    if a == [] {
      assert a + b == b;
    } else {
      assert (a + b)[1..] == a[1..] + b;
      CarriedConcat(a[1..], b);
      Assoc(Bytes(a[0]), Carried(a[1..]), Carried(b));
    }
  }

  function FinOf(f: StreamFrame): seq<(nat, nat)> {
    if f.fin then [(f.streamID, f.offset + |f.data|)] else []
  }

  lemma {:induction false} FinsConcat(a: seq<StreamFrame>, b: seq<StreamFrame>)
    ensures Fins(a + b) == Fins(a) + Fins(b)
  {
    if a == [] {
      assert a + b == b;
    } else {
      assert (a + b)[1..] == a[1..] + b;
      FinsConcat(a[1..], b);
      Assoc(FinOf(a[0]), Fins(a[1..]), Fins(b));
    }
  }

  /** What two lists carry and announce, one after the other. */
  lemma Concat(a: seq<StreamFrame>, b: seq<StreamFrame>)
    ensures Carried(a + b) == Carried(a) + Carried(b) && Fins(a + b) == Fins(a) + Fins(b)
  {
    CarriedConcat(a, b);
    FinsConcat(a, b);
  }

  /** The first n bytes of a frame as a frame of their own. */
  function SplitOff(f: StreamFrame, n: nat): StreamFrame
    requires n <= |f.data|
  {
    f.(data := f.data[..n], fin := false)
  }

  /** What is left of the frame. */
  function Remainder(f: StreamFrame, n: nat): StreamFrame
    requires n <= |f.data|
  {
    f.(data := f.data[n..], offset := f.offset + n)
  }

  /** Splitting keeps every byte at its place and the fin on the last piece. */
  lemma SplitKeeps(f: StreamFrame, n: nat)
    requires n <= |f.data|
    ensures Bytes(SplitOff(f, n)) + Bytes(Remainder(f, n)) == Bytes(f)
    ensures Fins([SplitOff(f, n), Remainder(f, n)]) == Fins([f])
  {
    var a, b := SplitOff(f, n), Remainder(f, n);
    assert [a, b][1..] == [b] && [b][1..] == [] && [f][1..] == [];
    assert Bytes(a) + Bytes(b) == Bytes(f);
  }

  /** Two lists of frames carry the same bytes at the same places and announce the same stream ends. */
  ghost predicate Same(a: seq<StreamFrame>, b: seq<StreamFrame>) {
    Carried(a) == Carried(b) && Fins(a) == Fins(b)
  }

  lemma SameWithin(before: seq<StreamFrame>, a: seq<StreamFrame>, b: seq<StreamFrame>, after: seq<StreamFrame>)
    requires Same(a, b)
    ensures Same(before + (a + after), before + (b + after))
  {
    Concat(before, a + after);
    Concat(before, b + after);
    Concat(a, after);
    Concat(b, after);
  }

  lemma SplitSame(f: StreamFrame, n: nat)
    requires n <= |f.data|
    ensures Same([f], [SplitOff(f, n)] + [Remainder(f, n)])
  {
    var a, b := SplitOff(f, n), Remainder(f, n);
    SplitKeeps(f, n);
    Concat([a], [b]);
    assert [a] + [b] == [a, b];
    assert forall g: StreamFrame :: Carried([g]) == Bytes(g) by {
      forall g: StreamFrame ensures Carried([g]) == Bytes(g) {
        assert [g][1..] == [];
      }
    }
  }

  lemma FlagSame(f: StreamFrame)
    ensures Same([f], [f.(dataLenPresent := true)])
  {
    var g := f.(dataLenPresent := true);
    assert [f][1..] == [] && [g][1..] == [];
    assert Bytes(f) == Bytes(g);
  }

  lemma SizePush(frames: seq<StreamFrame>, f: StreamFrame)
    ensures Size(frames + [f]) == Size(frames) + MinLength(f) + |f.data|
  {
    assert (frames + [f])[..|frames|] == frames;
  }

  lemma MoveHead(res: seq<StreamFrame>, queue: seq<StreamFrame>)
    requires queue != []
    ensures queue == [queue[0]] + queue[1..] && res + queue == (res + [queue[0]]) + queue[1..]
  {
  }

  lemma MovePiece(res: seq<StreamFrame>, a: StreamFrame, b: StreamFrame, after: seq<StreamFrame>)
    ensures res + (([a] + [b]) + after) == (res + [a]) + ([b] + after)
  {
  }

  class StreamFramer {
    var retransmissionQueue: seq<StreamFrame>

    constructor ()
      ensures retransmissionQueue == []
    {
      retransmissionQueue := [];
    }

    /** The first n bytes of the head of the queue, which keeps the rest; nothing if n bytes hold the whole frame. */
    method MaybeSplitOffFrame(n: nat) returns (piece: Option<StreamFrame>)
      requires retransmissionQueue != []
      modifies this
      ensures piece.Some? <==> n < |old(retransmissionQueue)[0].data|
      ensures piece.None? ==> retransmissionQueue == old(retransmissionQueue)
      ensures piece.Some? ==>
        && piece.value == SplitOff(old(retransmissionQueue)[0], n) && |piece.value.data| == n
        && retransmissionQueue == [Remainder(old(retransmissionQueue)[0], n)] + old(retransmissionQueue)[1..]
    {
      var frame := retransmissionQueue[0];
      if n >= |frame.data| {
        return None;
      }
      piece := Some(frame.(data := frame.data[..n], fin := false));
      retransmissionQueue := [frame.(data := frame.data[n..], offset := frame.offset + n)] + retransmissionQueue[1..];
    }

    /** The head of the queue is going to be sent with its length. */
    method MarkHead(ghost res: seq<StreamFrame>)
      requires retransmissionQueue != []
      modifies this
      ensures retransmissionQueue != [] && |retransmissionQueue| == |old(retransmissionQueue)|
      ensures Same(res + old(retransmissionQueue), res + retransmissionQueue)
    {
      ghost var queue := retransmissionQueue;
      MoveHead(res, queue);
      FlagSame(queue[0]);
      SameWithin(res, [queue[0]], [queue[0].(dataLenPresent := true)], queue[1..]);
      retransmissionQueue := [retransmissionQueue[0].(dataLenPresent := true)] + retransmissionQueue[1..];
    }

    /** One round: the head of the queue, or as much of it as fits, goes to the result. */
    method PopOne(popped: seq<StreamFrame>, length: nat, maxLen: nat)
      returns (res: seq<StreamFrame>, currentLen: nat, more: bool)
      requires retransmissionQueue != [] && length == Size(popped) <= maxLen
      modifies this
      ensures Same(popped + old(retransmissionQueue), res + retransmissionQueue)
      ensures currentLen == Size(res) <= maxLen
      ensures more ==> |retransmissionQueue| < |old(retransmissionQueue)|
      ensures !more ==> retransmissionQueue != [] && currentLen + MinLength(retransmissionQueue[0]) >= maxLen
    {
      MarkHead(popped);
      res, currentLen := popped, length;
      var frame := retransmissionQueue[0];
      var headerLen := MinLength(frame);
      if currentLen + headerLen >= maxLen {
        return res, currentLen, false;
      }
      currentLen := currentLen + headerLen;
      MoveHead(res, retransmissionQueue);
      ghost var n, rest := maxLen - currentLen, retransmissionQueue[1..];
      var piece := MaybeSplitOffFrame(maxLen - currentLen);
      if piece.Some? {
        SplitSame(frame, n);
        SameWithin(res, [frame], [piece.value] + [Remainder(frame, n)], rest);
        MovePiece(res, piece.value, Remainder(frame, n), rest);
        SizePush(res, piece.value);
        return res + [piece.value], currentLen + |piece.value.data|, false;
      }
      retransmissionQueue := retransmissionQueue[1..];
      SizePush(res, frame);
      return res + [frame], currentLen + |frame.data|, true;
    }

    /** Pops frames for a packet with room for maxLen bytes. */
    method MaybePopFramesForRetransmission(maxLen: nat) returns (res: seq<StreamFrame>, currentLen: nat)
      modifies this
      ensures Same(old(retransmissionQueue), res + retransmissionQueue)
      ensures currentLen == Size(res) && currentLen <= maxLen
      ensures retransmissionQueue == [] || currentLen + MinLength(retransmissionQueue[0]) >= maxLen
    {
      res, currentLen := [], 0;
      ghost var queue0 := retransmissionQueue;
      assert [] + retransmissionQueue == retransmissionQueue;
      while |retransmissionQueue| > 0
        invariant Same(queue0, res + retransmissionQueue)
        invariant currentLen == Size(res) && currentLen <= maxLen
        decreases |retransmissionQueue|
      {
        var more;
        res, currentLen, more := PopOne(res, currentLen, maxLen);
        if !more {
          break;
        }
      }
    }
  }
}
