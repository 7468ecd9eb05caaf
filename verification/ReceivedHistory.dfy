/** The packet numbers a receiver has seen, kept as a list of ranges: ascending, disjoint and never adjacent. */
module ReceivedHistory {
  import opened AckFrames

  datatype Range = Range(start: nat, end: nat)

  /** Ranges from `low` on, each at least one number apart from the next. */
  predicate Apart(low: nat, ranges: seq<Range>)
    decreases |ranges|
  {
    ranges == [] || (low <= ranges[0].start <= ranges[0].end && Apart(ranges[0].end + 2, ranges[1..]))
  }

  predicate Within(r: Range, x: nat) {
    r.start <= x <= r.end
  }

  function Numbers(r: Range): set<nat> {
    set x: nat | x <= r.end && Within(r, x)
  }

  /** The set of packet numbers that a range list stands for. */
  function Members(ranges: seq<Range>): set<nat>
    decreases |ranges|
  {
    if ranges == [] then {} else Numbers(ranges[0]) + Members(ranges[1..])
  }

  // ----- facts about range lists -----

  lemma {:induction false} MembersConcat(a: seq<Range>, b: seq<Range>)
    ensures Members(a + b) == Members(a) + Members(b)
    decreases |a|
  {
    if a == [] {
      assert a + b == b;
    } else {
      assert (a + b)[1..] == a[1..] + b;
      MembersConcat(a[1..], b);
    }
  }

  function After(low: nat, ranges: seq<Range>): nat {
    if ranges == [] then low else ranges[|ranges| - 1].end + 2
  }

  lemma {:induction false} ApartConcat(low: nat, a: seq<Range>, b: seq<Range>)
    ensures Apart(low, a + b) <==> Apart(low, a) && Apart(After(low, a), b)
    decreases |a|
  {
    if a == [] {
      assert a + b == b;
    } else {
      assert (a + b)[1..] == a[1..] + b;
      ApartConcat(a[0].end + 2, a[1..], b);
      assert After(a[0].end + 2, a[1..]) == After(low, a);
    }
  }

  lemma ApartFrom(high: nat, low: nat, ranges: seq<Range>)
    requires Apart(high, ranges) && (ranges != [] ==> low <= ranges[0].start)
    ensures Apart(low, ranges)
  {
  }

  lemma {:induction false} MembersFrom(low: nat, ranges: seq<Range>, x: nat)
    requires Apart(low, ranges) && x in Members(ranges)
    ensures low <= x
    decreases |ranges|
  {
    if x !in Numbers(ranges[0]) {
      MembersFrom(ranges[0].end + 2, ranges[1..], x);
    }
  }

  lemma {:induction false} MembersUpTo(low: nat, ranges: seq<Range>, x: nat)
    requires Apart(low, ranges) && x in Members(ranges)
    ensures x <= ranges[|ranges| - 1].end
    decreases |ranges|
  {
    if |ranges| > 1 {
      if x in Members(ranges[1..]) {
        MembersUpTo(ranges[0].end + 2, ranges[1..], x);
      } else {
        LastIn(ranges[0].end + 2, ranges[1..]);
        MembersFrom(ranges[0].end + 2, ranges[1..], ranges[|ranges| - 1].end);
      }
    } else {
      assert ranges[1..] == [];
    }
  }

  lemma {:induction false} LastIn(low: nat, ranges: seq<Range>)
    requires Apart(low, ranges) && ranges != []
    ensures ranges[|ranges| - 1].end in Members(ranges)
    ensures low <= ranges[|ranges| - 1].start
    decreases |ranges|
  {
    if |ranges| > 1 {
      LastIn(ranges[0].end + 2, ranges[1..]);
    }
  }

  lemma FirstIn(low: nat, ranges: seq<Range>)
    requires Apart(low, ranges) && ranges != []
    ensures ranges[0].start in Members(ranges)
  {
  }

  /** The list is determined by the set it stands for. */
  lemma {:induction false} Canonical(low: nat, a: seq<Range>, b: seq<Range>)
    requires Apart(low, a) && Apart(low, b) && Members(a) == Members(b)
    ensures a == b
    decreases |a|
  {
    if a == [] || b == [] {
      if a != [] { FirstIn(low, a); }
      if b != [] { FirstIn(low, b); }
    } else {
      FirstAgrees(low, a, b);
      FirstAgrees(low, b, a);
      TailMembers(low, a);
      TailMembers(low, b);
      Canonical(a[0].end + 2, a[1..], b[1..]);
    }
  }

  lemma TailMembers(low: nat, a: seq<Range>)
    requires Apart(low, a) && a != []
    ensures Members(a[1..]) == Members(a) - Numbers(a[0])
  {
    forall x: nat | x in Members(a[1..]) ensures x !in Numbers(a[0]) {
      MembersFrom(a[0].end + 2, a[1..], x);
    }
  }

  lemma FirstAgrees(low: nat, a: seq<Range>, b: seq<Range>)
    requires Apart(low, a) && Apart(low, b) && Members(a) == Members(b) && a != [] && b != []
    ensures a[0].start <= b[0].start && (a[0].start == b[0].start ==> b[0].end <= a[0].end)
  {
    assert b[0].start in Members(a);
    MembersFrom(low, a, b[0].start);
    ApartFrom(low, a[0].start, a);
    MembersFrom(a[0].start, a, b[0].start);
    if a[0].start == b[0].start && a[0].end < b[0].end {
      assert a[0].end + 1 in Numbers(b[0]);
      assert a[0].end + 1 in Members(a);
      MembersFrom(a[0].end + 2, a[1..], a[0].end + 1);
    }
  }

  lemma Around(ranges: seq<Range>, i: nat) returns (before: seq<Range>, after: seq<Range>)
    requires i < |ranges|
    ensures before == ranges[..i] && after == ranges[i + 1..] && ranges == before + [ranges[i]] + after
    ensures i > 0 ==> before[i - 1] == ranges[i - 1]
  {
    before, after := ranges[..i], ranges[i + 1..];
  }

  lemma MembersAround(before: seq<Range>, r: Range, after: seq<Range>)
    ensures Members(before + [r] + after) == Members(before) + Numbers(r) + Members(after)
  {
    MembersConcat(before + [r], after);
    MembersConcat(before, [r]);
    assert [r][1..] == [];
  }

  lemma ApartAround(before: seq<Range>, r: Range, after: seq<Range>)
    ensures Apart(0, before + [r] + after) <==>
      Apart(0, before) && After(0, before) <= r.start <= r.end && Apart(r.end + 2, after)
  {
    ApartConcat(0, before + [r], after);
    ApartConcat(0, before, [r]);
    assert [r][1..] == [];
  }

  lemma Single(p: nat)
    ensures Apart(0, [Range(p, p)]) && Members([Range(p, p)]) == {p}
  {
    assert [Range(p, p)][1..] == [];
    assert Within(Range(p, p), p);
  }

  /** A range grows by p at one end. */
  predicate Grows(r: Range, s: Range, p: nat) {
    r.start <= r.end && ((s == Range(r.start, p) && p == r.end + 1) || (s == Range(p, r.end) && r.start == p + 1))
  }

  lemma ExtendedApart(before: seq<Range>, r: Range, after: seq<Range>, s: Range, p: nat)
    requires Apart(0, before + [r] + after) && (after != [] ==> p + 1 < after[0].start)
    requires Grows(r, s, p) && (before != [] ==> before[|before| - 1].end + 1 < p)
    ensures Apart(0, before + [s] + after)
  {
    ApartAround(before, r, after);
    ApartAround(before, s, after);
    ApartFrom(r.end + 2, s.end + 2, after);
  }

  lemma Extended(before: seq<Range>, r: Range, after: seq<Range>, s: Range, p: nat)
    requires Grows(r, s, p)
    ensures Members(before + [s] + after) == Members(before + [r] + after) + {p}
  {
    MembersAround(before, r, after);
    MembersAround(before, s, after);
    NumbersExtend(r, s, p);
  }

  lemma NumbersExtend(r: Range, s: Range, p: nat)
    requires Grows(r, s, p)
    ensures Numbers(s) == Numbers(r) + {p}
  {
    forall x: nat ensures x in Numbers(s) <==> x in Numbers(r) || x == p {
      assert Within(s, x) <==> Within(r, x) || x == p;
    }
  }

  /** p gets a range of its own. */
  lemma Inserted(before: seq<Range>, after: seq<Range>, p: nat)
    requires Apart(0, before + after) && (after != [] ==> p + 1 < after[0].start)
    requires before != [] ==> before[|before| - 1].end + 1 < p
    ensures Apart(0, before + [Range(p, p)] + after)
    ensures Members(before + [Range(p, p)] + after) == Members(before + after) + {p}
  {
    InsertedApart(before, after, p);
    InsertedMembers(before, after, p);
  }

  lemma InsertedApart(before: seq<Range>, after: seq<Range>, p: nat)
    requires Apart(0, before + after) && (after != [] ==> p + 1 < after[0].start)
    requires before != [] ==> before[|before| - 1].end + 1 < p
    ensures Apart(0, before + [Range(p, p)] + after)
  {
    ApartConcat(0, before, after);
    ApartFrom(After(0, before), p + 2, after);
    ApartAround(before, Range(p, p), after);
  }

  lemma InsertedMembers(before: seq<Range>, after: seq<Range>, p: nat)
    ensures Members(before + [Range(p, p)] + after) == Members(before + after) + {p}
  {
    MembersConcat(before, after);
    MembersAround(before, Range(p, p), after);
    assert Numbers(Range(p, p)) == {p} by { assert Within(Range(p, p), p); }
  }

  /** p closes the space between two ranges. */
  lemma Merged(ranges: seq<Range>, i: nat, p: nat)
    requires Apart(0, ranges) && 0 < i < |ranges| && ranges[i].start == p + 1 && ranges[i - 1].end + 1 == p
    ensures var merged := ranges[..i - 1] + [Range(ranges[i - 1].start, ranges[i].end)] + ranges[i + 1..];
      Apart(0, merged) && Members(merged) == Members(ranges) + {p}
  {
    var a, b, before, after := ranges[i - 1], ranges[i], ranges[..i - 1], ranges[i + 1..];
    assert ranges == before + [a] + ([b] + after);
    ApartAround(before, a, [b] + after);
    assert ([b] + after)[1..] == after;
    MembersAround(before, a, [b] + after);
    var m := Range(a.start, b.end);
    ApartAround(before, m, after);
    MembersAround(before, m, after);
    forall x: nat ensures Within(m, x) <==> Within(a, x) || Within(b, x) || x == p {}
    assert Numbers(m) == Numbers(a) + Numbers(b) + {p};
  }

  function Beyond(s: set<nat>, p: nat): set<nat> {
    set x | x in s && x > p
  }

  lemma AllBeyond(ranges: seq<Range>, p: nat)
    requires Apart(0, ranges) && (ranges != [] ==> ranges[0].start > p)
    ensures Beyond(Members(ranges), p) == Members(ranges)
  {
    ApartFrom(0, p + 1, ranges);
    forall x: nat | x in Members(ranges) ensures x > p {
      MembersFrom(p + 1, ranges, x);
    }
  }

  /** Dropping or shrinking the first range. */
  lemma FrontCut(ranges: seq<Range>, p: nat)
    requires Apart(0, ranges) && ranges != []
    ensures Apart(0, ranges[1..]) && (|ranges| > 1 ==> ranges[0].end < ranges[1].start <= ranges[1].end)
    ensures ranges[0].end <= p ==> Beyond(Members(ranges[1..]), p) == Beyond(Members(ranges), p)
    ensures ranges[0].start <= p < ranges[0].end ==>
      var cut := [Range(p + 1, ranges[0].end)] + ranges[1..];
      Apart(0, cut) && Beyond(Members(cut), p) == Beyond(Members(ranges), p)
  {
    ApartFrom(ranges[0].end + 2, 0, ranges[1..]);
    if ranges[0].start <= p < ranges[0].end {
      var cut := [Range(p + 1, ranges[0].end)] + ranges[1..];
      assert cut[1..] == ranges[1..];
      forall x: nat | x > p ensures x in Members(cut) <==> x in Members(ranges) {
        assert Within(cut[0], x) <==> Within(ranges[0], x);
      }
    } else if ranges[0].end <= p {
      forall x: nat | x > p ensures x in Members(ranges[1..]) <==> x in Members(ranges) {
        assert !Within(ranges[0], x);
      }
    }
  }

  // ----- what an ACK frame says -----

  /** The ranges in the order of an ACK frame. */
  function Descending(ranges: seq<Range>): seq<AckRange>
    decreases |ranges|
  {
    if ranges == [] then [] else Descending(ranges[1..]) + [AckRange(ranges[0].start, ranges[0].end)]
  }

  lemma {:induction false} InSomeConcat(a: seq<AckRange>, b: seq<AckRange>, p: nat)
    ensures InSome(a + b, p) <==> InSome(a, p) || InSome(b, p)
    decreases |a|
  {
    if a == [] {
      assert a + b == b;
    } else {
      assert (a + b)[1..] == a[1..] + b;
      InSomeConcat(a[1..], b, p);
    }
  }

  lemma {:induction false} DescendingMembers(ranges: seq<Range>, p: nat)
    ensures InSome(Descending(ranges), p) <==> p in Members(ranges)
    decreases |ranges|
  {
    if ranges != [] {
      DescendingMembers(ranges[1..], p);
      var r := AckRange(ranges[0].start, ranges[0].end);
      InSomeConcat(Descending(ranges[1..]), [r], p);
      assert [r][1..] == [];
      assert InSome([r], p) <==> Within(ranges[0], p);
    }
  }

  lemma {:induction false} DescendsPush(high: nat, a: seq<AckRange>, r: AckRange)
    requires Descends(high, a) && r.first <= r.last < high
    requires a != [] ==> r.last + 1 < a[|a| - 1].first
    ensures Descends(high, a + [r])
    decreases |a|
  {
    if a == [] {
      assert (a + [r])[1..] == [];
    } else {
      assert (a + [r])[1..] == a[1..] + [r];
      LowestFirst(high, a);
      DescendsPush(if a[0].first == 0 then 0 else a[0].first - 1, a[1..], r);
    }
  }

  lemma {:induction false} LowestFirst(high: nat, a: seq<AckRange>)
    requires Descends(high, a) && a != []
    ensures a[|a| - 1].first <= a[0].first
    decreases |a|
  {
    if |a| > 1 {
      LowestFirst(if a[0].first == 0 then 0 else a[0].first - 1, a[1..]);
    }
  }

  lemma {:induction false} DescendingDescends(low: nat, ranges: seq<Range>)
    requires Apart(low, ranges) && ranges != []
    ensures var d := Descending(ranges);
      && |d| == |ranges| && d[0].last == ranges[|ranges| - 1].end &&
          d[|d| - 1] == AckRange(ranges[0].start, ranges[0].end)
      && Descends(d[0].last + 1, d)
    decreases |ranges|
  {
    var r := AckRange(ranges[0].start, ranges[0].end);
    if |ranges| == 1 {
      assert Descending(ranges) == [r];
      assert [r][1..] == [];
    } else {
      DescendingDescends(ranges[0].end + 2, ranges[1..]);
      var d := Descending(ranges[1..]);
      LowestFirst(d[0].last + 1, d);
      DescendsPush(d[0].last + 1, d, r);
    }
  }

  // ----- the list operations of the program -----

  class ReceivedPacketHistory {
    var ranges: seq<Range>
    var lowestInReceivedPacketNumbers: nat
    const maxRanges: nat

    ghost predicate Valid()
      reads this
    {
      Apart(0, ranges)
    }

    constructor (maxRanges: nat)
      ensures Valid() && ranges == [] && this.maxRanges == maxRanges && lowestInReceivedPacketNumbers == 0
    {
      ranges, lowestInReceivedPacketNumbers := [], 0;
      this.maxRanges := maxRanges;
    }

    /** Records a packet number; refused, without a change, when the list is full. */
    method ReceivedPacket(p: nat) returns (ok: bool)
      requires Valid() && p >= 1
      modifies this`ranges
      ensures Valid() && (ok <==> |old(ranges)| < maxRanges)
      ensures Members(ranges) == if ok then Members(old(ranges)) + {p} else Members(old(ranges))
      ensures !ok ==> ranges == old(ranges)
    {
      if |ranges| >= maxRanges {
        return false;
      }
      ok := true;
      if |ranges| == 0 {
        ranges := [Range(p, p)];
        Single(p);
        return;
      }
      var i, done := |ranges|, false;
      while i > 0
        invariant 0 <= i <= |ranges|
        invariant ranges == old(ranges)
        invariant i < |ranges| ==> p + 1 < ranges[i].start
        decreases i
      {
        i := i - 1;
        done := Place(i, p);
        if done {
          return;
        }
      }
      assert [] + ranges == ranges;
      Inserted([], ranges, p);
      ranges := [Range(p, p)] + ranges;
    }

    /**
     * One round of the walk from the back: p is in range i, extends it, or comes right after it; otherwise it comes
     * before.
     */
    method Place(i: nat, p: nat) returns (done: bool)
      requires Valid() && i < |ranges| && p >= 1 && (i + 1 < |ranges| ==> p + 1 < ranges[i + 1].start)
      modifies this`ranges
      ensures done ==> Valid() && Members(ranges) == Members(old(ranges)) + {p}
      ensures !done ==> ranges == old(ranges) && p + 1 < ranges[i].start
    {
      done := true;
      ghost var before, after := Around(ranges, i);
      var r := ranges[i];
      ApartAround(before, r, after);
      if r.start <= p <= r.end {
        MembersAround(before, r, after);
        assert Within(r, p);
        return;
      }
      if r.end == p - 1 {
        Replace(i, Range(r.start, p), p, before, r, after);
        return;
      }
      if r.start == p + 1 {
        if i > 0 && ranges[i - 1].end + 1 == p {
          Merged(ranges, i, p);
          ranges := ranges[..i - 1] + [Range(ranges[i - 1].start, r.end)] + ranges[i + 1..];
        } else {
          Replace(i, Range(p, r.end), p, before, r, after);
        }
        return;
      }
      if p > r.end {
        assert ranges == (before + [r]) + after;
        Inserted(before + [r], after, p);
        InsertAt(i + 1, Range(p, p), before + [r], after);
        return;
      }
      return false;
    }

    method Replace(i: nat, s: Range, p: nat, ghost before: seq<Range>, ghost r: Range, ghost after: seq<Range>)
      requires Valid() && ranges == before + [r] + after && |before| == i && Grows(r, s, p)
      requires (after != [] ==> p + 1 < after[0].start) && (before != [] ==> before[|before| - 1].end + 1 < p)
      modifies this`ranges
      ensures Valid() && Members(ranges) == Members(old(ranges)) + {p}
    {
      ExtendedApart(before, r, after, s, p);
      Extended(before, r, after, s, p);
      ranges := ranges[i := s];
      assert ranges == before + [s] + after;
    }

    method InsertAt(i: nat, s: Range, ghost before: seq<Range>, ghost after: seq<Range>)
      requires ranges == before + after && |before| == i
      modifies this`ranges
      ensures ranges == before + [s] + after
    {
      ranges := ranges[..i] + [s] + ranges[i..];
    }

    /** Forgets all packet numbers up to p. */
    method DeleteUpTo(p: nat)
      requires Valid()
      modifies this
      ensures Valid() && Members(ranges) == Beyond(Members(old(ranges)), p)
      ensures lowestInReceivedPacketNumbers == if old(lowestInReceivedPacketNumbers) < p + 1 then p + 1
          else old(lowestInReceivedPacketNumbers)
    {
      if lowestInReceivedPacketNumbers < p + 1 {
        lowestInReceivedPacketNumbers := p + 1;
      }
      var i := 0;
      while i < |ranges|
        modifies this`ranges
        invariant Apart(0, ranges) && Beyond(Members(ranges), p) == Beyond(Members(old(ranges)), p)
        invariant i == 0 || (i == 1 && ranges != [] && ranges[0].start == p + 1)
        decreases |ranges| - i
      {
        FrontCut(ranges, p);
        if ranges[i].start <= p < ranges[i].end {
          assert ranges[i := Range(p + 1, ranges[i].end)] == [Range(p + 1, ranges[0].end)] + ranges[1..];
          ranges := ranges[i := Range(p + 1, ranges[i].end)];
          i := i + 1;
        } else if ranges[i].end <= p {
          assert ranges[..i] + ranges[i + 1..] == ranges[1..];
          ranges := ranges[..i] + ranges[i + 1..];
        } else {
          break;
        }
      }
      AllBeyond(ranges, p);
    }

    /** The ranges for an ACK frame, highest first. */
    method GetAckRanges() returns (acks: seq<AckRange>)
      ensures acks == Descending(ranges)
    {
      acks := [];
      var i := |ranges|;
      while i > 0
        invariant 0 <= i <= |ranges| && acks == Descending(ranges[i..])
      {
        i := i - 1;
        assert ranges[i..][1..] == ranges[i + 1..];
        acks := acks + [AckRange(ranges[i].start, ranges[i].end)];
      }
      assert ranges[0..] == ranges;
    }
  }
}
