/**
 The frame sorter as the program has it: a queue map, a gap list walked and
 spliced in place, a read position and a final offset.
 */
module ReceiveQueue {
  import opened Basics
  import opened FrameSorter

  lemma MapMinus<K, V>(m: map<K, V>, a: set<K>, b: set<K>)
    ensures (m - a) - b == m - (a + b)
  {
  }

  lemma MapMinusNone<K, V>(m: map<K, V>)
    ensures m - {} == m
  {
  }

  lemma Relink(pre: seq<Interval>, g: seq<Interval>)
    requires g != []
    ensures pre + g == pre + [g[0]] + g[1..]
    ensures pre + g[1..] == pre + [] + g[1..]
  {
  }

  lemma Around(before: seq<Interval>, gap: Interval, after: seq<Interval>)
    ensures var all := before + [gap] + after;
      all[|before|] == gap && all[..|before|] == before && all[|before| + 1..] == after
  {
  }

  lemma Reassociate(a: seq<Interval>, b: seq<Interval>, c: seq<Interval>, d: seq<Interval>)
    ensures a + b + c + d == a + b + (c + d) == a + (b + c) + d
    ensures b == [] ==> a + b + c + d == a + c + d
    ensures c == [] ==> a + b + c + d == a + b + d
  {
  }

  /** A gap list, seen from its first gap on. */
  ghost predicate Reaching(g: seq<Interval>) { g != [] && Above(g[0].start, g) }

  lemma ReachingOn(g: seq<Interval>)
    requires Reaching(g) && |g| > 1
    ensures Reaching(g[1..]) && g[1..][|g| - 2] == g[|g| - 1]
  {
    AboveFirst(g[0].end + 1, g[1..]);
  }

  lemma SplitAt(gaps: seq<Interval>, i: nat) returns (before: seq<Interval>, ahead: seq<Interval>)
    requires GapsOk(gaps) && i < |gaps|
    ensures |before| == i && before + ahead == gaps && before + [gaps[i]] + ahead[1..] == gaps
    ensures i > 0 ==> before[i - 1] == gaps[i - 1]
    ensures Reaching(ahead) && ahead[0] == gaps[i] && |ahead| == |gaps| - i && EndOf(ahead) == EndOf(gaps)
  {
    AboveAt(0, gaps, i);
    before, ahead := gaps[..i], gaps[i..];
    assert ahead[1..] == gaps[i + 1..];
  }

  /** The gap list around the first gap that [start, end) reaches. */
  lemma Located(gaps: seq<Interval>, before: seq<Interval>, ahead: seq<Interval>, start: nat, end: nat)
    requires GapsOk(gaps) && gaps == before + ahead && ahead != []
    requires start < ahead[0].end && ahead[0].start < end && start < end
    requires before != [] ==> before[|before| - 1].end <= start
    ensures From(gaps, start) == ahead && Unlinked(gaps, start) == before + Ends(ahead)
    ensures Minus(gaps, start, end) == before + Piece(ahead[0].start, start) + Tail(ahead, start, end)
  {
    FromSplit(0, before, ahead, start);
    MinusSplit(0, before, ahead, start, end);
    MinusFirst(ahead, start, end);
    Assoc(before, Piece(ahead[0].start, start), Tail(ahead, start, end));
    Taken(before, ahead);
  }

  /** The list around the gap that the search ended at: [start, end) reaches it, or begins where the last gap ends. */
  ghost predicate AtGap(gaps: seq<Interval>, before: seq<Interval>, ahead: seq<Interval>, start: nat, end: nat) {
    && Reaching(ahead) && ahead[0].start < end && gaps == before + [ahead[0]] + ahead[1..]
    && if start < ahead[0].end then
         && From(gaps, start) == ahead && Unlinked(gaps, start) == before + Ends(ahead)
         && Minus(gaps, start, end) == before + Piece(ahead[0].start, start) + Tail(ahead, start, end)
       else |ahead| == 1 && From(gaps, start) == [] && start == EndOf(gaps) && gaps == before + Ends(ahead)
  }

  lemma Found(gaps: seq<Interval>, i: nat, start: nat, end: nat) returns (before: seq<Interval>, ahead: seq<Interval>)
    requires GapsOk(gaps) && i < |gaps| && start <= gaps[i].end && gaps[i].start < end && start < end
    requires i > 0 ==> gaps[i - 1].end <= start
    requires start == gaps[i].end ==> i + 1 == |gaps| && From(gaps, start) == []
    ensures |before| == i && AtGap(gaps, before, ahead, start, end)
  {
    before, ahead := SplitAt(gaps, i);
    if start < gaps[i].end {
      Located(gaps, before, ahead, start, end);
    }
  }

  lemma Taken(before: seq<Interval>, ahead: seq<Interval>)
    ensures (before + ahead)[..|before + ahead| - |ahead|] == before
  {
  }

  lemma MinusFirst(ahead: seq<Interval>, start: nat, end: nat)
    requires ahead != [] && start < ahead[0].end
    ensures Minus(ahead, start, end) == Piece(ahead[0].start, start) + Tail(ahead, start, end)
  {
    var g := ahead[0];
    var a, b, c := Piece(g.start, start), Piece(Max(g.start, end), g.end), Minus(ahead[1..], start, end);
    assert a + b + c == a + (b + c);
  }

  /** What Insert comes to once the gap it starts in is known to exist. */
  lemma InsertInto(s: Sorter, data: seq<byte>, start: nat, ahead: seq<Interval>, gaps: seq<Interval>, queue: map<nat,
      seq<byte>>, lo: nat, hi: nat)
    requires data != [] && ahead == From(s.gaps, start) && ahead != [] &&
        ahead[0].start < start + |data| < EndOf(ahead)
    requires gaps == Minus(s.gaps, start, start + |data|)
    requires queue == s.queue - Bridged(ahead, LastEnd(ahead, start + |data|))
    requires lo == Max(start, ahead[0].start) < hi == LastEnd(ahead, start + |data|)
    ensures Insert(s, data, start) ==
      if |gaps| > s.maxGaps then (s.(gaps := gaps, queue := queue), TooManyGaps)
      else (s.(gaps := gaps, queue := queue[lo := data[lo - start..hi - start]]), Accepted)
  {
    FilledIs(s, data, start, ahead, gaps, queue, lo, hi);
  }

  lemma FilledIs(s: Sorter, data: seq<byte>, start: nat, ahead: seq<Interval>, gaps: seq<Interval>,
      queue: map<nat, seq<byte>>, lo: nat, hi: nat)
    requires ahead == From(s.gaps, start) && ahead != []
    requires gaps == Minus(s.gaps, start, start + |data|)
    requires queue == s.queue - Bridged(ahead, LastEnd(ahead, start + |data|))
    requires lo == Max(start, ahead[0].start) < hi == LastEnd(ahead, start + |data|)
    ensures Filled(s, data, start) ==
      if |gaps| > s.maxGaps then (s.(gaps := gaps, queue := queue), TooManyGaps)
      else (s.(gaps := gaps, queue := queue[lo := data[lo - start..hi - start]]), Accepted)
  {
    FilledFrom(s, data, start, s.(gaps := gaps, queue := queue), lo, hi);
    assert Cut(data, start, lo, hi) == data[lo - start..hi - start];
  }

  lemma FilledFrom(s: Sorter, data: seq<byte>, start: nat, t: Sorter, lo: nat, hi: nat)
    requires t == Fill(s, start, start + |data|) && (lo, hi) == Bounds(s.gaps, start, start + |data|)
    ensures Filled(s, data, start) ==
      if |t.gaps| > s.maxGaps then (t, TooManyGaps)
      else (t.(queue := t.queue[lo := Cut(data, start, lo, hi)]), Accepted)
  {
  }

  /** What it comes to when the data reaches the end of the number space. */
  lemma InsertRefused(s: Sorter, data: seq<byte>, start: nat, before: seq<Interval>, ahead: seq<Interval>,
      gaps: seq<Interval>, queue: map<nat, seq<byte>>)
    requires data != [] && AtGap(s.gaps, before, ahead, start, start + |data|) && EndOf(ahead) <= start + |data|
    requires gaps == before + Ends(ahead) && queue == s.queue - Bridged(ahead, LastEnd(ahead, start + |data|))
    ensures Insert(s, data, start) == (s.(gaps := gaps, queue := queue), NoEndGapFound)
  {
    if start >= ahead[0].end {
      NoneBridged(ahead, LastEnd(ahead, start + |data|));
      MapMinusNone(s.queue);
    }
  }

  lemma NoneBridged(g: seq<Interval>, hi: nat)
    requires |g| == 1 && hi <= g[0].end
    ensures Bridged(g, hi) == {}
  {
    assert g[1..] == [];
  }

  lemma Rejoin(before: seq<Interval>, ahead: seq<Interval>)
    requires ahead != []
    ensures before + [ahead[0]] + Ends(ahead)[1..] == before + Ends(ahead)
  {
  }

  class FrameQueue {
    var queue: map<nat, seq<byte>>
    var gaps: seq<Interval>
    var readPos: nat
    var finalOffset: nat
    const maxGaps: nat

    ghost function State(): Sorter
      reads this
    {
      Sorter(queue, gaps, readPos, finalOffset, maxGaps)
    }

    constructor (maxGaps: nat, maxBytes: nat)
      requires maxBytes > 0
      ensures State() == Fresh(maxGaps, maxBytes) && WellFormed(State())
    {
      queue, gaps, readPos, finalOffset := map[], [Interval(0, maxBytes)], 0, maxBytes;
      this.maxGaps := maxGaps;
    }

    /** Walks to the first gap that [start, end) reaches. */
    method FindGap(start: nat, end: nat) returns (i: nat, outcome: Outcome)
      requires GapsOk(gaps) && start < end
      requires forall k :: 0 <= k < |gaps| - 1 ==> gaps[k].end != start
      ensures outcome == Accepted || outcome == Duplicate || outcome == NoGapFound
      ensures outcome == Duplicate ==> From(gaps, start) != [] && end <= From(gaps, start)[0].start
      ensures outcome == NoGapFound ==> From(gaps, start) == [] && start > EndOf(gaps)
      ensures outcome == Accepted ==>
        && i < |gaps| && start <= gaps[i].end && gaps[i].start < end
        && (i > 0 ==> gaps[i - 1].end <= start)
        && (start == gaps[i].end ==> i + 1 == |gaps| && From(gaps, start) == [])
    {
      i := 0;
      while i < |gaps|
        invariant i <= |gaps|
        invariant i > 0 ==> gaps[i - 1].end < start
        invariant From(gaps[i..], start) == From(gaps, start)
      {
        assert gaps[i..][1..] == gaps[i + 1..];
        if end <= gaps[i].start {
          AboveAt(0, gaps, i);
          return i, Duplicate;
        }
        if end > gaps[i].start && start <= gaps[i].end {
          assert start == gaps[i].end ==> gaps[i..][1..] == [];
          return i, Accepted;
        }
        i := i + 1;
      }
      return i, NoGapFound;
    }

    /**
     Walks from gap i to the last gap that begins below `end`, unlinking the gaps passed over and
     deleting the blocks at their ends. The gap returned is gap i itself (`same`), or a later one,
     which is still linked only if it ends after `end`. When `end` is beyond the last gap, the walk
     gives up there.
     */
    method BridgeGaps(i: nat, start: nat, end: nat, ghost pre: seq<Interval>, ghost ahead: seq<Interval>)
      returns (endGap: Interval, same: bool, ghost rest: seq<Interval>, ok: bool)
      requires |pre| == i + 1 && Reaching(ahead) && pre[i] == ahead[0] && gaps == pre + ahead[1..]
      requires (start < ahead[0].end || |ahead| == 1) && ahead[0].start < end && start < end
      modifies this`gaps, this`queue
      ensures ok <==> end < EndOf(ahead)
      ensures queue == old(queue) - Bridged(ahead, LastEnd(ahead, end))
      ensures !ok ==> gaps == pre + Ends(ahead)[1..]
      ensures ok ==> Tail(ahead, start, end) == Piece(end, endGap.end) + rest
      ensures ok ==> LastEnd(ahead, end) == Min(endGap.end, end)
      ensures ok ==> gaps == pre + (if same || endGap.end <= end then [] else [endGap]) + rest
      ensures ok && same ==> endGap == ahead[0]
      ensures ok && !same ==> ahead[0].end <= end && ahead[0].end < endGap.start < endGap.end
    {
      endGap, same, ok := gaps[i], true, true;
      ghost var queue0, hi := queue, LastEnd(ahead, end);
      ghost var g := ahead;  // endGap and the gaps after it
      while end >= endGap.end
        invariant Reaching(g) && endGap == g[0] && endGap.start < end && (start < endGap.end || |g| == 1)
        invariant g[|g| - 1] == ahead[|ahead| - 1] && if same then g == ahead else |g| < |ahead|
        invariant gaps == pre + (if same then g[1..] else g)
        invariant if same then endGap == ahead[0] else ahead[0].end <= end && ahead[0].end < endGap.start
        invariant Tail(ahead, start, end) == Tail(g, start, end)
        invariant hi == LastEnd(g, end)
        invariant queue0 - Bridged(ahead, hi) == queue - Bridged(g, hi)
        decreases |g|
      {
        var e := if same then i else i + 1;  // the position of endGap
        if e + 1 == |gaps| {
          ok := false;
          NoneBridged(g, hi);
          break;
        }
        var next := gaps[e + 1];
        assert next == g[1];
        if !same {
          Relink(pre, g);
          Replace(e, [], pre, endGap, g[1..]);
        }
        if end <= next.start {
          FirstEnd(endGap.end + 1, g[1..]);
          break;
        }
        TailStep(endGap.start, g, start, end);
        MapMinus(queue, {endGap.end}, Bridged(g[1..], hi));
        queue := queue - {endGap.end};
        ReachingOn(g);
        AboveNext(endGap.start, g);
        g := g[1..];
        endGap, same := next, false;
      }
      rest := g[1..];
      MapMinusNone(queue);
      if ok {
        AboveNext(endGap.start, g);
        Relink(pre, g);
        FirstEnd(endGap.start, g);
        TailEnd(endGap.start, g, start, end);
      }
    }

    /** The list operations on the element at position i: update, unlink, insert after. */
    method Replace(i: nat, items: seq<Interval>, ghost before: seq<Interval>, ghost gap: Interval,
        ghost after: seq<Interval>)
      requires gaps == before + [gap] + after && |before| == i
      modifies this`gaps
      ensures gaps == before + items + after
    {
      Around(before, gap, after);
      gaps := gaps[..i] + items + gaps[i + 1..];
    }

    /** Shrinks, splits or unlinks gap i and shrinks the last gap reached, once [start, end) is filled. */
    method AdjustGaps(i: nat, start: nat, end: nat, endGap: Interval, same: bool,
                      ghost before: seq<Interval>, gap: Interval, ghost rest: seq<Interval>)
      requires |before| == i && gap.start <= start < gap.end && start < end <= endGap.end
      requires gaps == before + [gap] + (if same || endGap.end <= end then [] else [endGap]) + rest
      requires if same then endGap == gap else gap.end <= end
      modifies this`gaps
      ensures gaps == before + Piece(gap.start, start) + Piece(end, endGap.end) + rest
    {
      ghost var last := if same || endGap.end <= end then [] else [endGap];
      ghost var left, right := Piece(gap.start, start), Piece(end, endGap.end);
      Reassociate(before, [gap], last, rest);
      Reassociate(before, left, last, rest);
      Reassociate(before, left, right, rest);
      if start == gap.start {
        if end >= gap.end {
          Replace(i, [], before, gap, last + rest);
          if end < endGap.end {
            Replace(i, [Interval(end, endGap.end)], before, endGap, rest);
          }
        } else {
          Replace(i, [Interval(end, endGap.end)], before, gap, rest);
        }
      } else if end == endGap.end {
        Replace(i, [Interval(gap.start, start)], before, gap, rest);
      } else if same {
        Replace(i, [Interval(gap.start, start), Interval(end, gap.end)], before, gap, rest);
        assert left + right == [Interval(gap.start, start), Interval(end, gap.end)];
      } else {
        Replace(i, [Interval(gap.start, start)], before, gap, last + rest);
        Replace(i + 1, [Interval(end, endGap.end)], before + left, endGap, rest);
      }
    }

    method Push(data: seq<byte>, offset: nat, fin: bool) returns (outcome: Outcome)
      requires WellFormed(State())
      modifies this
      ensures (State(), outcome) == Pushed(old(State()), data, offset, fin)
    {
      if fin {
        finalOffset := offset + |data|;
      }
      if |data| == 0 {
        return Accepted;
      }
      var d, o := data, offset;
      if offset in queue {
        if |data| <= |queue[offset]| {
          return Duplicate;
        }
        d, o := data[|queue[offset]|..], offset + |queue[offset]|;
      }
      forall k | 0 <= k < |gaps| - 1 ensures gaps[k].end != o {
        NotAtEnd(old(State()), offset, o, k);
      }
      outcome := Store(d, o);
    }

    /** Closes [start, end) from gap i on; what was missing of it is [lo, hi). */
    method FillGap(i: nat, start: nat, end: nat, ghost before: seq<Interval>, ghost ahead: seq<Interval>)
      returns (lo: nat, hi: nat, ok: bool)
      requires |before| == i && Reaching(ahead) && gaps == before + [ahead[0]] + ahead[1..]
      requires (start < ahead[0].end || |ahead| == 1) && ahead[0].start < end && start < end
      modifies this`gaps, this`queue
      ensures ok <==> end < EndOf(ahead)
      ensures queue == old(queue) - Bridged(ahead, LastEnd(ahead, end))
      ensures !ok ==> gaps == before + Ends(ahead)
      ensures ok ==> gaps == before + Piece(ahead[0].start, start) + Tail(ahead, start, end)
      ensures ok ==> lo == Max(start, ahead[0].start) < hi == LastEnd(ahead, end)
    {
      var gap := gaps[i];
      var endGap, same;
      ghost var rest;
      endGap, same, rest, ok := BridgeGaps(i, start, end, before + [gap], ahead);
      lo, hi := start, end;
      if !ok {
        Rejoin(before, ahead);
        return;
      }
      Assoc(before + Piece(gap.start, start), Piece(end, endGap.end), rest);
      if lo < gap.start {
        lo := gap.start;
      }
      if hi > endGap.end {
        hi := endGap.end;
      }
      AdjustGaps(i, lo, hi, endGap, same, before, gap, rest);
    }

    /** The part of Push that follows the trimming against a block queued at the same offset. */
    method Store(data: seq<byte>, offset: nat) returns (outcome: Outcome)
      requires GapsOk(gaps) && data != []
      requires forall k :: 0 <= k < |gaps| - 1 ==> gaps[k].end != offset
      modifies this`gaps, this`queue
      ensures (State(), outcome) == Insert(old(State()), data, offset)
    {
      var i;
      i, outcome := FindGap(offset, offset + |data|);
      if outcome != Accepted {
        return;
      }
      outcome := StoreAt(i, data, offset);
    }

    /** The part of it that follows the search for the gap. */
    method StoreAt(i: nat, data: seq<byte>, offset: nat) returns (outcome: Outcome)
      requires GapsOk(gaps) && data != [] && i < |gaps| && offset <= gaps[i].end && gaps[i].start < offset + |data|
      requires i > 0 ==> gaps[i - 1].end <= offset
      requires offset == gaps[i].end ==> i + 1 == |gaps| && From(gaps, offset) == []
      modifies this`gaps, this`queue
      ensures (State(), outcome) == Insert(old(State()), data, offset)
    {
      ghost var before, ahead := Found(gaps, i, offset, offset + |data|);
      outcome := StoreFrom(i, data, offset, before, ahead);
    }

    method StoreFrom(i: nat, data: seq<byte>, offset: nat, ghost before: seq<Interval>, ghost ahead: seq<Interval>)
      returns (outcome: Outcome)
      requires data != [] && |before| == i && AtGap(gaps, before, ahead, offset, offset + |data|)
      modifies this`gaps, this`queue
      ensures (State(), outcome) == Insert(old(State()), data, offset)
    {
      ghost var s := State();
      var start, end, ok := FillGap(i, offset, offset + |data|, before, ahead);
      if !ok {
        InsertRefused(s, data, offset, before, ahead, gaps, queue);
        return NoEndGapFound;
      }
      InsertInto(s, data, offset, ahead, gaps, queue, start, end);
      if |gaps| > maxGaps {
        return TooManyGaps;
      }
      queue := queue[start := data[start - offset..end - offset]];
      return Accepted;
    }

    method Pop() returns (data: seq<byte>, fin: bool)
      modifies this`queue, this`readPos
      ensures (State(), data, fin) == Popped(old(State()))
    {
      if readPos !in queue {
        assert queue - {readPos} == queue;
        return [], readPos >= finalOffset;
      }
      data := queue[readPos];
      queue := queue - {readPos};
      readPos := readPos + |data|;
      return data, readPos >= finalOffset;
    }
  }
}
