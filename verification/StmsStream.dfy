/**
 The sending half of a stream as the program has it: one byte buffer in which the hole left for
 the fast path and the tail lie side by side, three offsets and a gap counter. Taking bytes from
 the middle moves the rest of the buffer down in place, and frames given out may still point into
 the same buffer; `Intact` says that no frame ever changes under its reader.
 */
module StmsStream {
  import opened Basics
  import opened Stms

  /** A stretch of a buffer that has been given out as the data of a frame. */
  datatype Slice = Slice(data: array<byte>, lo: nat, hi: nat) {
    ghost predicate Valid() {
      lo <= hi <= data.Length
    }

    ghost function Bytes(): seq<byte>
      requires Valid()
      reads data
    {
      data[lo..hi]
    }
  }

  datatype SentFrame = SentFrame(offset: nat, slice: Slice)

  class Stream {
    var buf: array?<byte>
    var lo: nat
    var hi: nat
    var offsetF: nat
    var offsetSS: nat
    var offsetSN: nat
    var gap: nat
    ghost var written: seq<byte>
    ghost var frames: seq<SentFrame>

    ghost function Abs(): Sender
      reads this`written, this`offsetF, this`offsetSS, this`offsetSN
    {
      Sender(written, offsetF, offsetSS, offsetSN)
    }

    ghost predicate BufferOk()
      reads this`buf, this`lo, this`hi
    {
      buf != null ==> lo <= hi <= buf.Length
    }

    /** What dataForWriting holds; nil holds nothing. */
    ghost function Live(): seq<byte>
      requires BufferOk()
      reads this`buf, this`lo, this`hi, buf
    {
      if buf == null then [] else buf[lo..hi]
    }

    /** The slice does not reach into the part of the buffer that is still in use. */
    ghost predicate Apart(s: Slice)
      reads this`buf, this`lo, this`hi
    {
      s.data == buf ==> s.hi <= lo || hi <= s.lo
    }

    ghost function Arrays(): set<object>
      reads this`frames
    {
      set fr | fr in frames :: fr.slice.data
    }

    /** Every frame given out still holds the bytes that were written at its offset. */
    ghost predicate Intact()
      reads this`frames, this`written, this`buf, this`lo, this`hi, Arrays()
    {
      forall fr :: fr in frames ==>
        fr.slice.Valid() && Apart(fr.slice) && SliceAt(written, fr.offset, fr.slice.Bytes())
    }

    ghost predicate Valid()
      reads this, buf, Arrays()
    {
      && BufferOk() && (buf != null ==> lo < hi)
      && Ordered(Abs()) && gap == offsetSS - offsetF
      && Live() == Pending(Abs())
      && Intact()
    }

    constructor ()
      ensures Valid() && Abs() == Sender([], 0, 0, 0) && frames == [] && buf == null
    {
      buf, lo, hi, offsetF, offsetSS, offsetSN, gap := null, 0, 0, 0, 0, 0, 0;
      written, frames := [], [];
    }

    // ----- buffer operations -----

    /** dataForWriting[:n], sharing the buffer. */
    method TakeFront(n: nat) returns (ret: Slice)
      requires buf != null && BufferOk() && n <= |Live()| && Intact()
      modifies this`lo
      ensures BufferOk() && Intact() && Live() == old(Live())[n..]
      ensures ret.Valid() && Apart(ret) && ret.Bytes() == old(Live())[..n] && ret.data == buf
    {
      ret := Slice(buf, lo, lo + n);
      lo := lo + n;
    }

    /** dataForWriting[at:], sharing the buffer, which is cut off there. */
    method TakeBack(at: nat) returns (ret: Slice)
      requires buf != null && BufferOk() && at <= |Live()| && Intact()
      modifies this`hi
      ensures BufferOk() && Intact() && Live() == old(Live())[..at]
      ensures ret.Valid() && Apart(ret) && ret.Bytes() == old(Live())[at..]
    {
      ret := Slice(buf, lo + at, hi);
      hi := lo + at;
    }

    /** A copy of dataForWriting[at:at+n]; the bytes behind it move down in place. */
    method TakeMiddle(at: nat, n: nat) returns (ret: Slice)
      requires buf != null && BufferOk() && at + n <= |Live()| && Intact()
      modifies this`hi, buf
      ensures BufferOk() && Intact() && Live() == old(Live())[..at] + old(Live())[at + n..]
      ensures ret.Valid() && Apart(ret) && fresh(ret.data) && ret.Bytes() == old(Live())[at..at + n]
    {
      ghost var live := Live();
      var copy := Copy(buf, lo + at, lo + at + n);
      ret := Slice(copy, 0, n);
      assert ret.Bytes() == live[at..at + n];
      CloseUp(at, n);
    }

    /** Leaves out dataForWriting[at:at+n]; the bytes behind it move down in place. */
    method CloseUp(at: nat, n: nat)
      requires buf != null && BufferOk() && at + n <= |Live()| && Intact()
      modifies this`hi, buf
      ensures BufferOk() && Intact() && Live() == old(Live())[..at] + old(Live())[at + n..]
    {
      var b, from := buf, lo + at;
      ghost var live := Live();
      MoveDown(b, from, hi, n);
      forall fr | fr in frames ensures fr.slice.Bytes() == old(fr.slice.Bytes()) {
        if fr.slice.data == b { assert forall k :: fr.slice.lo <= k < fr.slice.hi ==> b[k] == old(b[k]); }
      }
      hi := hi - n;
      Spliced(live, Live(), at, n);
    }

    /** An empty buffer becomes nil, which releases the blocked writer. */
    method Settle()
      requires buf != null && BufferOk() && Intact()
      modifies this`buf
      ensures BufferOk() && Intact() && Live() == old(Live())
      ensures buf == null || (buf == old(buf) && lo < hi)
    {
      if lo == hi {
        buf := null;
      }
    }

    /** Write: the buffer is replaced by a copy of p. The program blocks afterwards until it is nil again. */
    method Write(p: seq<byte>)
      requires Valid()
      modifies this
      ensures frames == old(frames)
      ensures Abs() == old(Abs()).(written := old(written) + p)
      ensures BufferOk() && Intact() && (p != [] ==> Live() == p)
      ensures Valid() <==> old(buf) == null || p == []
    {
      WriteExact(Abs(), p);
      PutBuffer(p);
    }

    method PutBuffer(p: seq<byte>)
      requires BufferOk() && Intact()
      modifies this`buf, this`lo, this`hi, this`written
      ensures written == old(written) + p && BufferOk() && Intact()
      ensures p != [] ==> Live() == p && buf != null && lo < hi
      ensures p == [] ==> written == old(written) && unchanged(this`buf, this`lo, this`hi)
    {
      if |p| > 0 {
        buf := FromBytes(p);
        lo, hi := 0, |p|;
      }
      assert p == [] ==> written + p == written;
      written := written + p;
    }

    // ----- getDataForWritingSTMS -----

    /** How many bytes the fastest of at least three paths takes from the front, and the offsets afterwards. */
    method MoveFastest(maxBytes: nat) returns (n: nat, errorCase: bool)
      requires Ordered(Abs()) && gap == offsetSS - offsetF && maxBytes >= 1
      requires lo < hi && hi - lo == |Pending(Abs())|
      modifies this`offsetF, this`offsetSS, this`offsetSN, this`gap
      ensures Abs() == Advance(old(Abs()), maxBytes, FASTEST) && gap == offsetSS - offsetF
      ensures Length(old(Abs()), maxBytes, FASTEST) == n && !errorCase
    {
      n, errorCase := hi - lo, false;
      if n > maxBytes {
        n := maxBytes;
        if offsetF + n > offsetSS && offsetF < offsetSS {
          n := offsetSS - offsetF;
          offsetF, offsetSS, gap := offsetSN, offsetSN, 0;
        } else if offsetF + n <= offsetSS && offsetF < offsetSS {
          offsetF, gap := offsetF + n, gap - n;
        } else if offsetF == offsetSS {
          offsetF, offsetSS, offsetSN, gap := offsetSN + n, offsetSN + n, offsetSN + n, 0;
        } else {
          errorCase := true;
        }
      } else {
        if offsetF + n >= offsetSS && offsetF < offsetSS {
          n := offsetSS - offsetF;
          offsetF, offsetSS, gap := offsetSN, offsetSN, 0;
        } else if offsetF + n < offsetSS && offsetF < offsetSS {
          errorCase := true;
        } else if offsetF == offsetSS {
          offsetF, offsetSS, offsetSN, gap := offsetSN + n, offsetSN + n, offsetSN + n, 0;
        } else {
          errorCase := true;
        }
      }
    }

    /** The fastest of at least three paths. */
    method TakeFastest(maxBytes: nat) returns (ret: Slice, errorCase: bool)
      requires Valid() && buf != null && maxBytes >= 1
      modifies this`lo, this`buf, this`offsetF, this`offsetSS, this`offsetSN, this`gap
      ensures Valid() && Abs() == Advance(old(Abs()), maxBytes, FASTEST)
      ensures Gives(old(Abs()), maxBytes, FASTEST, ret) && !errorCase
    {
      FrontTaken(Abs(), maxBytes, FASTEST);
      var n;
      n, errorCase := MoveFastest(maxBytes);
      ret := TakeFront(n);
      Settle();
    }

    /**
     The fast path when there are not enough others: everything moves by what it takes.
     With a hole open this loses the account (`Stms.AloneExact`).
     */
    method TakeAlone(maxBytes: nat) returns (ret: Slice)
      requires Valid() && buf != null && maxBytes >= 1
      modifies this`lo, this`buf, this`offsetF, this`offsetSS, this`offsetSN
      ensures Abs() == MoveAll(old(Abs()), Min(maxBytes, |Pending(old(Abs()))|))
      ensures BufferOk() && Intact() && ret.Valid() && Apart(ret)
      ensures ret.Bytes() + Live() == Pending(old(Abs())) && |ret.Bytes()| == Min(maxBytes, |Pending(old(Abs()))|)
      ensures old(offsetF == offsetSS) ==>
        Valid() && Abs() == Advance(old(Abs()), maxBytes, ALONE) && Gives(old(Abs()), maxBytes, ALONE, ret)
    {
      if offsetF == offsetSS {
        FrontTaken(Abs(), maxBytes, ALONE);
      }
      ret := TakeAny(maxBytes);
    }

    /** The front of the buffer, with all three offsets moved. */
    method TakeAny(maxBytes: nat) returns (ret: Slice)
      requires buf != null && BufferOk() && Intact() && lo < hi && maxBytes >= 1
      modifies this`lo, this`buf, this`offsetF, this`offsetSS, this`offsetSN
      ensures Abs() == MoveAll(old(Abs()), Min(maxBytes, |old(Live())|))
      ensures BufferOk() && Intact() && ret.Valid() && Apart(ret) && (buf != null ==> lo < hi)
      ensures var n := Min(maxBytes, |old(Live())|); ret.Bytes() == old(Live())[..n] && Live() == old(Live())[n..]
    {
      var n := if hi - lo > maxBytes then maxBytes else hi - lo;
      ret := TakeFront(n);
      Settle();
      offsetF, offsetSS, offsetSN := offsetF + n, offsetSS + n, offsetSN + n;
    }

    /** Up to maxBytes bytes from position `at` on; the last of the buffer are shared or copied. */
    method TakeAt(at: nat, maxBytes: nat, share: bool) returns (ret: Slice)
      requires buf != null && BufferOk() && at <= |Live()| && Intact()
      modifies this`hi, buf
      ensures BufferOk() && Intact() && ret.Valid() && Apart(ret)
      ensures ret.Bytes() == Middle(old(Live()), at, maxBytes) && Live() == Around(old(Live()), at, maxBytes)
    {
      ghost var live := Live();
      WholeBack(live, at, maxBytes);
      if hi - lo - at > maxBytes {
        ret := TakeMiddle(at, maxBytes);
      } else if share {
        ret := TakeBack(at);
      } else {
        ret := TakeMiddle(at, hi - lo - at);
      }
    }

    method TakeSettled(at: nat, maxBytes: nat, share: bool) returns (ret: Slice, n: nat)
      requires buf != null && BufferOk() && at <= |Live()| && Intact()
      modifies this`hi, this`buf, buf
      ensures BufferOk() && Intact() && ret.Valid() && Apart(ret) && (buf != null ==> lo < hi)
      ensures ret.Bytes() == Middle(old(Live()), at, maxBytes) && Live() == Around(old(Live()), at, maxBytes)
      ensures n == |ret.Bytes()|
    {
      ret := TakeAt(at, maxBytes, share);
      n := ret.hi - ret.lo;
      Settle();
    }

    /** With a hole open, a slower path goes on behind what slower paths took before. */
    method TakeBehindHole(maxBytes: nat) returns (slice: Slice)
      requires buf != null && BufferOk() && Intact() && gap <= |Live()|
      modifies this`hi, this`buf, this`offsetSN, buf
      ensures BufferOk() && Intact() && slice.Valid() && Apart(slice) && (buf != null ==> lo < hi)
      ensures slice.Bytes() == Middle(old(Live()), gap, maxBytes) && Live() == Around(old(Live()), gap, maxBytes)
      ensures offsetSN == old(offsetSN) + |slice.Bytes()|
    {
      var n;
      slice, n := TakeSettled(gap, maxBytes, true);
      offsetSN := offsetSN + n;
    }

    /** Otherwise it leaves a new hole of g bytes. */
    method TakeNewHole(maxBytes: nat, g: nat) returns (slice: Slice)
      requires buf != null && BufferOk() && Intact() && g <= |Live()|
      modifies this`hi, this`buf, this`offsetSS, this`offsetSN, this`gap, buf
      ensures BufferOk() && Intact() && slice.Valid() && Apart(slice) && (buf != null ==> lo < hi)
      ensures slice.Bytes() == Middle(old(Live()), g, maxBytes) && Live() == Around(old(Live()), g, maxBytes)
      ensures gap == g && offsetSS == old(offsetSS) + g && offsetSN == offsetSS + |slice.Bytes()|
    {
      gap := g;
      var n;
      slice, n := TakeSettled(gap, maxBytes, false);
      offsetSS := offsetSS + gap;
      offsetSN := offsetSS;
      offsetSN := offsetSN + n;
    }

    /** A slower path, which leaves g bytes for the fast one when no hole is open. */
    method TakeSlower(maxBytes: nat, g: nat) returns (ret: Option<Slice>)
      requires Valid() && buf != null && maxBytes >= 1
      modifies this`hi, this`buf, this`offsetSS, this`offsetSN, this`gap, buf
      ensures Valid() && Abs() == Advance(old(Abs()), maxBytes, g)
      ensures ret.None? <==> Stretch(old(Abs()), maxBytes, g).None?
      ensures ret.Some? ==> Gives(old(Abs()), maxBytes, g, ret.value)
    {
      if g >= hi - lo {
        return None;
      }
      ghost var at, t := SlowerTaken(Abs(), maxBytes, g);
      var slice := CutSlower(maxBytes, g, at, t);
      ret := if slice.hi == slice.lo then None else Some(slice);
    }

    /** The cut from the buffer at position `at`, after which the offsets are those of t. */
    method CutSlower(maxBytes: nat, g: nat, ghost at: nat, ghost t: Sender) returns (slice: Slice)
      requires buf != null && BufferOk() && Intact() && at <= |Live()|
      requires offsetF <= offsetSS <= offsetSN && gap == offsetSS - offsetF
      requires at == if offsetSN > offsetSS then gap else g
      requires offsetSN == offsetSS ==> offsetF == offsetSS
      requires t == Sender(written, offsetF, offsetF + at, (if offsetSN > offsetSS then offsetSN else offsetF + at) +
                                                           |Middle(Live(), at, maxBytes)|)
      modifies this`hi, this`buf, this`offsetSS, this`offsetSN, this`gap, buf
      ensures Abs() == t && gap == offsetSS - offsetF
      ensures BufferOk() && Intact() && slice.Valid() && Apart(slice) && (buf != null ==> lo < hi)
      ensures slice.Bytes() == Middle(old(Live()), at, maxBytes) && Live() == Around(old(Live()), at, maxBytes)
    {
      if offsetSN > offsetSS {
        slice := TakeBehindHole(maxBytes);
      } else {
        slice := TakeNewHole(maxBytes, g);
      }
    }

    method GetDataForWritingSTMS(maxBytes: nat, g: int) returns (ret: Option<Slice>, errorCase: bool)
      requires Valid() && maxBytes >= 1
      modifies this`lo, this`hi, this`buf, this`offsetF, this`offsetSS, this`offsetSN, this`gap, buf
      ensures !errorCase
      ensures Allowed(old(Abs()), maxBytes, g) ==>
        && Valid() && Abs() == Advance(old(Abs()), maxBytes, g)
        && (ret.None? <==> Stretch(old(Abs()), maxBytes, g).None?)
        && (ret.Some? ==> Gives(old(Abs()), maxBytes, g, ret.value))
      ensures old(buf) == null ==> ret.None? && Abs() == old(Abs())
      ensures !Allowed(old(Abs()), maxBytes, g) && old(buf) != null ==>
        var n := Min(maxBytes, |Pending(old(Abs()))|);
        && Abs() == MoveAll(old(Abs()), n) && BufferOk() && Intact()
        && ret.Some? && ret.value.Valid() && Apart(ret.value) && |ret.value.Bytes()| == n
        && ret.value.Bytes() + Live() == Pending(old(Abs()))
    {
      errorCase := false;
      if buf == null {
        return None, false;
      }
      if g >= 0 {
        ret := TakeSlower(maxBytes, g);
      } else if g == FASTEST {
        var slice;
        slice, errorCase := TakeFastest(maxBytes);
        ret := Some(slice);
      } else if g == ALONE {
        var slice := TakeAlone(maxBytes);
        ret := Some(slice);
      } else {
        ret := None;
      }
    }

    /** The frame's offset is chosen first, then its data is taken. */
    method EmitFrame(maxLen: nat, g: int) returns (frame: Option<SentFrame>)
      requires Valid() && buf != null && Allowed(Abs(), maxLen, g)
      modifies this, buf
      ensures Valid() && Abs() == Advance(old(Abs()), maxLen, g)
      ensures frame.None? <==> Stretch(old(Abs()), maxLen, g).None?
      ensures frame.Some? ==> Emits(old(Abs()), maxLen, g, frame.value)
      ensures frames == old(frames) + (if frame.Some? then [frame.value] else [])
    {
      frame := ChooseFrame(maxLen, g);
      if frame.Some? {
        frames := frames + [frame.value];
      }
    }

    method ChooseFrame(maxLen: nat, g: int) returns (frame: Option<SentFrame>)
      requires Valid() && buf != null && Allowed(Abs(), maxLen, g)
      modifies this`lo, this`hi, this`buf, this`offsetF, this`offsetSS, this`offsetSN, this`gap, buf
      ensures Valid() && Abs() == Advance(old(Abs()), maxLen, g) && written == old(written)
      ensures frame.None? <==> Stretch(old(Abs()), maxLen, g).None?
      ensures frame.Some? ==> Emits(old(Abs()), maxLen, g, frame.value) && Apart(frame.value.slice)
    {
      var offset := if g < 0 then (if offsetF == offsetSS && offsetSS < offsetSN then offsetSN else offsetF)
                    else if offsetSN > offsetSS then offsetSN else offsetF + g;
      OffsetIs(Abs(), maxLen, g, offset);
      var data, _ := GetDataForWritingSTMS(maxLen, g);
      frame := if data.None? then None else Some(SentFrame(offset, data.value));
    }

    /** One round of maybePopNormalFramesSTMS: the header and flow control leave room for a frame's data. */
    method PopFrame(maxBytes: nat, headerBytes: nat, sendWindow: nat, g: int) returns (frame: Option<SentFrame>)
      requires Valid() && (g == ALONE ==> offsetF == offsetSS)
      modifies this, buf
      ensures Valid() && frames == old(frames) + (if frame.Some? then [frame.value] else [])
      ensures var room := Min(if headerBytes <= maxBytes then maxBytes - headerBytes else 0, sendWindow);
        if room == 0 || old(buf) == null then frame.None? && Abs() == old(Abs())
        else
          && Abs() == Advance(old(Abs()), room, g)
          && (frame.None? <==> Stretch(old(Abs()), room, g).None?)
          && (frame.Some? ==> Emits(old(Abs()), room, g, frame.value))
    {
      if headerBytes > maxBytes {
        return None;
      }
      var maxLen := maxBytes - headerBytes;
      if buf != null {
        maxLen := Min(maxLen, sendWindow);
      }
      if maxLen == 0 || buf == null {
        return None;
      }
      frame := EmitFrame(maxLen, g);
    }

    /** The ret of a send: the bytes of the chosen stretch, not shared with the buffer in use. */
    ghost predicate Gives(s: Sender, maxBytes: nat, g: int, ret: Slice)
      requires Ordered(s) && Allowed(s, maxBytes, g)
      reads this`buf, this`lo, this`hi, ret.data
    {
      && Stretch(s, maxBytes, g).Some? && ret.Valid() && Apart(ret)
      && SliceAt(s.written, Stretch(s, maxBytes, g).value.0, ret.Bytes())
      && |ret.Bytes()| == Stretch(s, maxBytes, g).value.1 - Stretch(s, maxBytes, g).value.0
    }
  }

  /** The offset that the framer computes is where the data comes from. */
  lemma OffsetIs(s: Sender, maxLen: nat, g: int, offset: nat)
    requires Ordered(s) && Allowed(s, maxLen, g) && offset == FrameOffset(s, g)
    ensures Stretch(s, maxLen, g).Some? ==> Stretch(s, maxLen, g).value.0 == offset
    ensures Advance(s, maxLen, g).written == s.written
  {
    SendTiles(s, maxLen, g);
  }

  /** The frame carries the stretch that the send chooses. */
  ghost predicate Emits(s: Sender, maxBytes: nat, g: int, frame: SentFrame)
    requires Ordered(s) && Allowed(s, maxBytes, g)
    reads frame.slice.data
  {
    && Stretch(s, maxBytes, g).Some? && frame.slice.Valid()
    && frame.offset == Stretch(s, maxBytes, g).value.0
    && frame.offset + (frame.slice.hi - frame.slice.lo) == Stretch(s, maxBytes, g).value.1
    && SliceAt(s.written, frame.offset, frame.slice.Bytes())
  }

  lemma WholeBack(live: seq<byte>, at: nat, maxBytes: nat)
    requires at <= |live|
    ensures |live| - at <= maxBytes ==>
      Middle(live, at, maxBytes) == live[at..] && Around(live, at, maxBytes) == live[..at]
  {
  }

  lemma Spliced(before: seq<byte>, after: seq<byte>, at: nat, n: nat)
    requires at + n <= |before| && |after| == |before| - n
    requires forall k :: 0 <= k < at ==> after[k] == before[k]
    requires forall k :: at <= k < |after| ==> after[k] == before[k + n]
    ensures after == before[..at] + before[at + n..]
  {
  }

  method FromBytes(p: seq<byte>) returns (r: array<byte>)
    ensures fresh(r) && r.Length == |p| && r[0..|p|] == p
  {
    r := new byte[|p|](k requires 0 <= k < |p| => p[k]);
  }

  method Copy(a: array<byte>, from: nat, to: nat) returns (r: array<byte>)
    requires from <= to <= a.Length
    ensures fresh(r) && r.Length == to - from
    ensures forall k :: 0 <= k < to - from ==> r[k] == a[from + k]
  {
    r := new byte[to - from](k requires 0 <= k < to - from reads a => a[from + k]);
  }

  /** append(a[:from], a[from+n:to]...) within the capacity of a. */
  method MoveDown(a: array<byte>, from: nat, to: nat, n: nat)
    requires from + n <= to <= a.Length
    modifies a
    ensures forall k :: from <= k < to - n ==> a[k] == old(a[k + n])
    ensures forall k :: 0 <= k < a.Length && !(from <= k < to - n) ==> a[k] == old(a[k])
  {
    forall k | from <= k < to - n {
      a[k] := a[k + n];
    }
  }
}
