/**
 The receiving half of a stream: frames that arrive reordered, duplicated or
 overlapping are queued by offset, a list of gaps records what is still missing,
 and Pop hands out the bytes from the read position on.

 `Pushed` and `Popped` below say declaratively what happens to the state; the class
 `FrameQueue` carries the loops of the program and is proved to do the same.
 */
module FrameSorter {
  import opened Basics

  /** Bytes `start` up to but not including `end` are missing. */
  datatype Interval = Interval(start: nat, end: nat)

  datatype Sorter = Sorter(
    queue: map<nat, seq<byte>>,
    gaps: seq<Interval>,
    readPos: nat,
    finalOffset: nat,
    maxGaps: nat)

  datatype Outcome = Accepted | Duplicate | NoGapFound | NoEndGapFound | TooManyGaps

  /** A new sorter, for offsets up to `maxBytes`: the largest ByteCount differs between the two versions. */
  function Fresh(maxGaps: nat, maxBytes: nat): Sorter {
    Sorter(map[], [Interval(0, maxBytes)], 0, maxBytes, maxGaps)
  }

  // ----- gap lists -----

  /** Non-empty intervals from `low` on, ascending and never adjacent. */
  predicate Above(low: nat, gaps: seq<Interval>)
    decreases |gaps|
  {
    gaps == [] || (low <= gaps[0].start < gaps[0].end && Above(gaps[0].end + 1, gaps[1..]))
  }

  predicate GapsOk(gaps: seq<Interval>) { gaps != [] && Above(0, gaps) }

  /** The end of the number space, up to which the last gap always reaches. */
  function EndOf(gaps: seq<Interval>): nat
    requires gaps != []
  {
    gaps[|gaps| - 1].end
  }

  predicate Missing(gaps: seq<Interval>, x: nat)
    decreases |gaps|
  {
    gaps != [] && (gaps[0].start <= x < gaps[0].end || Missing(gaps[1..], x))
  }

  /** The non-empty one of the intervals [start, end). */
  function Piece(start: nat, end: nat): seq<Interval> {
    if start < end then [Interval(start, end)] else []
  }

  /** The gaps that remain once the bytes [start, end) are there. */
  function Minus(gaps: seq<Interval>, start: nat, end: nat): seq<Interval>
    decreases |gaps|
  {
    if gaps == [] then [] else
      Piece(gaps[0].start, Min(gaps[0].end, start))
      + Piece(Max(gaps[0].start, end), gaps[0].end)
      + Minus(gaps[1..], start, end)
  }

  /** The gaps that end after `start`. */
  function From(gaps: seq<Interval>, start: nat): (rest: seq<Interval>)
    ensures |rest| <= |gaps| && (rest != [] ==> start < rest[0].end)
    decreases |gaps|
  {
    if gaps == [] || start < gaps[0].end then gaps else From(gaps[1..], start)
  }

  /** The end of the last missing stretch below `end`, for a list whose first gap begins below `end`. */
  function LastEnd(gaps: seq<Interval>, end: nat): (hi: nat)
    requires gaps != []
    ensures hi <= end
    decreases |gaps|
  {
    if |gaps| > 1 && gaps[1].start < end then LastEnd(gaps[1..], end) else Min(gaps[0].end, end)
  }

  /** The queue keys below `hi` at which a gap ends. */
  function Bridged(gaps: seq<Interval>, hi: nat): set<nat>
    decreases |gaps|
  {
    if gaps == [] then {} else
      (if gaps[0].end < hi then {gaps[0].end} else {}) + Bridged(gaps[1..], hi)
  }

  function Ends(gaps: seq<Interval>): seq<Interval>
    requires gaps != []
  {
    if |gaps| > 1 then [gaps[0], gaps[|gaps| - 1]] else gaps
  }

  /** The list without the gaps between the first that ends after `start` and the last. */
  function Unlinked(gaps: seq<Interval>, start: nat): seq<Interval>
    requires From(gaps, start) != []
  {
    gaps[..|gaps| - |From(gaps, start)|] + Ends(From(gaps, start))
  }

  // ----- what push and pop do -----

  /** The bytes [lo, hi) of data that begins at `start`. */
  function Cut(data: seq<byte>, start: nat, lo: nat, hi: nat): seq<byte> {
    if start <= lo <= hi <= start + |data| then data[lo - start..hi - start] else []
  }

  /** [start, end) is no longer missing, and the blocks that begin where a bridged gap ended are dropped. */
  function Fill(s: Sorter, start: nat, end: nat): Sorter {
    var ahead := From(s.gaps, start);
    s.(gaps := Minus(s.gaps, start, end),
       queue := if ahead == [] then s.queue else s.queue - Bridged(ahead, LastEnd(ahead, end)))
  }

  /** Where the block that fills [start, end) begins and ends: at the first and after the last missing byte. */
  function Bounds(gaps: seq<Interval>, start: nat, end: nat): (nat, nat) {
    var ahead := From(gaps, start);
    if ahead == [] then (start, start) else (Max(start, ahead[0].start), LastEnd(ahead, end))
  }

  /** The gaps are filled; what was missing is queued unless there are too many gaps then. */
  function Filled(s: Sorter, data: seq<byte>, start: nat): (Sorter, Outcome) {
    var end := start + |data|;
    var t := Fill(s, start, end);
    if |t.gaps| > s.maxGaps then (t, TooManyGaps)
    else
      var (lo, hi) := Bounds(s.gaps, start, end);
      (t.(queue := t.queue[lo := Cut(data, start, lo, hi)]), Accepted)
  }

  /**
   Takes in non-empty data from `start` on: one block is queued, from the first to the last byte that was missing.
   Data that reaches the end of the number space is refused, when the walk over the gaps has been done already.
   */
  function Insert(s: Sorter, data: seq<byte>, start: nat): (Sorter, Outcome)
    requires data != []
  {
    var end := start + |data|;
    var ahead := From(s.gaps, start);
    if ahead == [] then (s, if s.gaps != [] && start == EndOf(s.gaps) then NoEndGapFound else NoGapFound)
    else if end <= ahead[0].start then (s, Duplicate)
    else if end >= EndOf(ahead) then (Fill(s, start, end).(gaps := Unlinked(s.gaps, start)), NoEndGapFound)
    else Filled(s, data, start)
  }

  function Pushed(s: Sorter, data: seq<byte>, offset: nat, fin: bool): (Sorter, Outcome) {
    var s := if fin then s.(finalOffset := offset + |data|) else s;
    if data == [] then (s, Accepted)
    else if offset !in s.queue then Insert(s, data, offset)
    else if |data| <= |s.queue[offset]| then (s, Duplicate)
    else Insert(s, data[|s.queue[offset]|..], offset + |s.queue[offset]|)
  }

  /** The state after a pop, the bytes handed out (none when nothing is ready) and the fin flag. */
  function Popped(s: Sorter): (Sorter, seq<byte>, bool) {
    var data := if s.readPos in s.queue then s.queue[s.readPos] else [];
    var t := s.(queue := s.queue - {s.readPos}, readPos := s.readPos + |data|);
    (t, data, t.readPos >= t.finalOffset)
  }

  // ----- the invariant -----

  /** Following queued blocks from `from` leads exactly to `to`. */
  ghost predicate Chain(queue: map<nat, seq<byte>>, from: nat, to: nat)
    decreases if from <= to then to - from else 0
  {
    from == to
    || (from < to && from in queue && 0 < |queue[from]| <= to - from
        && Chain(queue, from + |queue[from]|, to))
  }

  /** A chain runs from `from` to the first gap, and from the end of each gap to the next. */
  ghost predicate Chains(queue: map<nat, seq<byte>>, from: nat, gaps: seq<Interval>)
    decreases |gaps|
  {
    gaps == [] || (Chain(queue, from, gaps[0].start) && Chains(queue, gaps[0].end, gaps[1..]))
  }

  /** No queued block is empty or reaches into a gap. */
  ghost predicate BlocksCovered(queue: map<nat, seq<byte>>, gaps: seq<Interval>) {
    && (forall k: nat :: k in queue ==> queue[k] != [])
    && (forall k: nat, x: nat :: k in queue && k <= x < k + |queue[k]| ==> !Missing(gaps, x))
  }

  ghost predicate WellFormed(s: Sorter) {
    GapsOk(s.gaps) && BlocksCovered(s.queue, s.gaps) && Chains(s.queue, s.readPos, s.gaps)
  }

  /** Queued blocks are true pieces of the source. */
  ghost predicate BlocksTrue(src: seq<byte>, queue: map<nat, seq<byte>>) {
    forall k :: k in queue ==> SliceAt(src, k, queue[k])
  }

  lemma FreshOk(maxGaps: nat, maxBytes: nat)
    requires maxBytes > 0
    ensures WellFormed(Fresh(maxGaps, maxBytes))
  {
    var s := Fresh(maxGaps, maxBytes);
    var rest: seq<Interval> := s.gaps[1..];
    assert rest == [];
    assert Above(s.gaps[0].end + 1, rest);
    assert Chains(s.queue, s.gaps[0].end, rest);
    assert Chain(s.queue, 0, 0);
  }

  // ----- facts about gap lists -----

  lemma {:induction false} AboveAt(low: nat, gaps: seq<Interval>, k: nat)
    requires Above(low, gaps) && k < |gaps|
    ensures low <= gaps[k].start < gaps[k].end
    ensures Above(gaps[k].end + 1, gaps[k + 1..])
    decreases k
  {
    if k > 0 {
      AboveAt(gaps[0].end + 1, gaps[1..], k - 1);
      assert gaps[1..][k - 1 + 1..] == gaps[k + 1..];
    }
  }

  lemma {:induction false} MissingAbove(low: nat, gaps: seq<Interval>, x: nat)
    requires Above(low, gaps) && Missing(gaps, x)
    ensures low <= x
    decreases |gaps|
  {
    if !(gaps[0].start <= x < gaps[0].end) {
      MissingAbove(gaps[0].end + 1, gaps[1..], x);
    }
  }

  lemma {:induction false} MissingConcat(a: seq<Interval>, b: seq<Interval>, x: nat)
    ensures Missing(a + b, x) <==> Missing(a, x) || Missing(b, x)
    decreases |a|
  {
    if a == [] {
      assert a + b == b;
    } else {
      assert (a + b)[1..] == a[1..] + b;
      MissingConcat(a[1..], b, x);
    }
  }

  lemma {:induction false} MissingMinus(gaps: seq<Interval>, start: nat, end: nat, x: nat)
    requires start <= end
    ensures Missing(Minus(gaps, start, end), x) <==> Missing(gaps, x) && !(start <= x < end)
    decreases |gaps|
  {
    if gaps != [] {
      var l, r := Piece(gaps[0].start, Min(gaps[0].end, start)), Piece(Max(gaps[0].start, end), gaps[0].end);
      MissingConcat(l + r, Minus(gaps[1..], start, end), x);
      MissingConcat(l, r, x);
      MissingMinus(gaps[1..], start, end, x);
    }
  }

  lemma {:induction false} AboveMinus(low: nat, gaps: seq<Interval>, start: nat, end: nat)
    requires Above(low, gaps) && start < end
    ensures Above(low, Minus(gaps, start, end))
    decreases |gaps|
  {
    if gaps != [] {
      AboveMinus(gaps[0].end + 1, gaps[1..], start, end);
      AbovePieces(low, gaps[0], start, end, Minus(gaps[1..], start, end));
    }
  }

  lemma AboveWeaken(high: nat, low: nat, gaps: seq<Interval>)
    requires Above(high, gaps) && low <= high
    ensures Above(low, gaps)
  {
  }

  lemma AboveFirst(low: nat, gaps: seq<Interval>)
    requires Above(low, gaps) && gaps != []
    ensures Above(gaps[0].start, gaps)
  {
  }

  lemma AboveNext(low: nat, gaps: seq<Interval>)
    requires Above(low, gaps)
    ensures |gaps| > 1 ==> gaps[0].end < gaps[1].start
  {
  }

  lemma AboveCons(low: nat, p: seq<Interval>, rest: seq<Interval>)
    requires |p| <= 1 && Above(low, p)
    requires if p == [] then Above(low, rest) else Above(p[0].end + 1, rest)
    ensures Above(low, p + rest)
  {
    if p == [] {
      assert p + rest == rest;
    } else {
      assert (p + rest)[1..] == rest;
    }
  }

  lemma AbovePieces(low: nat, g: Interval, start: nat, end: nat, rest: seq<Interval>)
    requires low <= g.start < g.end && start < end && Above(g.end + 1, rest)
    ensures Above(low, Piece(g.start, Min(g.end, start)) + Piece(Max(g.start, end), g.end) + rest)
  {
    var l, r := Piece(g.start, Min(g.end, start)), Piece(Max(g.start, end), g.end);
    var low' := if l == [] then low else l[0].end + 1;
    AboveWeaken(g.end + 1, low', rest);
    AboveCons(low', r, rest);
    AboveCons(low, l, r + rest);
    assert l + r + rest == l + (r + rest);
  }

  /** The open end of the number space stays missing. */
  lemma {:induction false} MinusLast(low: nat, gaps: seq<Interval>, start: nat, end: nat)
    requires Above(low, gaps) && gaps != [] && start <= end < gaps[|gaps| - 1].end
    ensures var m := Minus(gaps, start, end); m != [] && m[|m| - 1].end == gaps[|gaps| - 1].end
    decreases |gaps|
  {
    if |gaps| > 1 {
      MinusLast(gaps[0].end + 1, gaps[1..], start, end);
    }
  }

  // ----- facts about chains -----

  /** Two queues that hold the same blocks at the keys in [from, to). */
  ghost predicate Agree(q: map<nat, seq<byte>>, r: map<nat, seq<byte>>, from: nat, to: nat) {
    forall k: nat :: from <= k < to && k in q ==> k in r && r[k] == q[k]
  }

  lemma {:induction false} ChainFrame(q: map<nat, seq<byte>>, r: map<nat, seq<byte>>, from: nat, to: nat)
    requires Chain(q, from, to) && Agree(q, r, from, to)
    ensures from <= to && Chain(r, from, to)
    decreases if from <= to then to - from else 0
  {
    if from != to {
      ChainFrame(q, r, from + |q[from]|, to);
    }
  }

  lemma {:induction false} ChainJoin(q: map<nat, seq<byte>>, a: nat, b: nat, c: nat)
    requires Chain(q, a, b) && Chain(q, b, c)
    ensures Chain(q, a, c)
    decreases if a <= b then b - a else 0
  {
    ChainFrame(q, q, b, c);
    if a != b {
      ChainJoin(q, a + |q[a]|, b, c);
    }
  }

  /** `r` is `q` with everything in [lo, hi) replaced by one block. */
  ghost predicate Replaces(q: map<nat, seq<byte>>, r: map<nat, seq<byte>>, lo: nat, hi: nat) {
    && lo < hi && lo in r && |r[lo]| == hi - lo
    && (forall k: nat :: k in q && !(lo <= k < hi) ==> k in r && r[k] == q[k])
  }

  lemma {:induction false} ChainsBeyond(q: map<nat, seq<byte>>, r: map<nat, seq<byte>>, lo: nat, hi: nat, from: nat,
      gaps: seq<Interval>)
    requires Replaces(q, r, lo, hi) && hi <= from && Chains(q, from, gaps) && Above(from, gaps)
    ensures Chains(r, from, gaps)
    decreases |gaps|
  {
    if gaps != [] {
      ChainFrame(q, r, from, gaps[0].start);
      AboveWeaken(gaps[0].end + 1, gaps[0].end, gaps[1..]);
      ChainsBeyond(q, r, lo, hi, gaps[0].end, gaps[1..]);
    }
  }

  /** What is left of the gaps right of the new block, given that the first of them begins below `end`. */
  lemma {:induction false} ChainsRight(q: map<nat, seq<byte>>, r: map<nat, seq<byte>>, lo: nat, end: nat,
      gaps: seq<Interval>)
    requires gaps != [] && gaps[0].start < end && Above(gaps[0].start, gaps)
    requires Replaces(q, r, lo, LastEnd(gaps, end)) && Chains(q, gaps[0].end, gaps[1..])
    requires lo < gaps[0].end
    ensures Chains(r, LastEnd(gaps, end), Piece(Max(gaps[0].start, end), gaps[0].end) + Minus(gaps[1..], lo, end))
    decreases |gaps|
  {
    var g, tail := gaps[0], gaps[1..];
    if tail != [] && tail[0].start < end {
      ChainsRight(q, r, lo, end, tail);
      assert Piece(tail[0].start, Min(tail[0].end, lo)) == [];
      assert Piece(Max(g.start, end), g.end) == [];
      assert [] + Minus(tail, lo, end) == Minus(tail, lo, end);
    } else {
      MinusNone(g.end + 1, tail, lo, end);
      ChainsBeyondGap(q, r, lo, end, g, tail);
    }
  }

  lemma ChainsBeyondGap(q: map<nat, seq<byte>>, r: map<nat, seq<byte>>, lo: nat, end: nat, g: Interval,
      tail: seq<Interval>)
    requires g.start < end && Above(g.end + 1, tail) && Chains(q, g.end, tail)
    requires Replaces(q, r, lo, Min(g.end, end))
    ensures Chains(r, Min(g.end, end), Piece(Max(g.start, end), g.end) + tail)
  {
    AboveWeaken(g.end + 1, g.end, tail);
    ChainsBeyond(q, r, lo, Min(g.end, end), g.end, tail);
    if end < g.end {
      assert (Piece(end, g.end) + tail)[1..] == tail;
      assert Chain(r, end, end);
    } else {
      assert [] + tail == tail;
    }
  }

  /** Gaps that begin at or after `end` are not touched. */
  lemma {:induction false} MinusNone(low: nat, gaps: seq<Interval>, start: nat, end: nat)
    requires Above(low, gaps) && (gaps != [] ==> start <= end <= gaps[0].start)
    ensures Minus(gaps, start, end) == gaps
    decreases |gaps|
  {
    if gaps != [] {
      MinusNone(gaps[0].end + 1, gaps[1..], start, end);
    }
  }

  /** Cutting from `start` on or from the first missing byte on makes no difference to gaps that end later. */
  lemma {:induction false} MinusSame(low: nat, gaps: seq<Interval>, start: nat, lo: nat, end: nat)
    requires Above(low, gaps) && start <= lo < low
    ensures Minus(gaps, start, end) == Minus(gaps, lo, end)
    decreases |gaps|
  {
    if gaps != [] {
      MinusSame(gaps[0].end + 1, gaps[1..], start, lo, end);
    }
  }

  /** The new block continues the chain that ends at `lo`. */
  lemma ChainsAcross(r: map<nat, seq<byte>>, e: nat, lo: nat, hi: nat, rest: seq<Interval>)
    requires lo < hi && lo in r && |r[lo]| == hi - lo && Chain(r, e, lo) && Chains(r, hi, rest)
    ensures Chains(r, e, rest)
  {
    assert Chain(r, hi, hi);
    assert Chain(r, lo, hi);
    if rest != [] {
      ChainJoin(r, lo, hi, rest[0].start);
      ChainJoin(r, e, lo, rest[0].start);
    }
  }

  lemma ChainsJoin(r: map<nat, seq<byte>>, e: nat, lo: nat, hi: nat, left: seq<Interval>, right: seq<Interval>)
    requires lo < hi && lo in r && |r[lo]| == hi - lo && Chains(r, hi, right)
    requires left == [] ==> Chain(r, e, lo)
    requires left != [] ==> |left| == 1 && left[0].end == lo && Chain(r, e, left[0].start)
    ensures Chains(r, e, left + right)
  {
    if left == [] {
      assert left + right == right;
      ChainsAcross(r, e, lo, hi, right);
    } else {
      assert (left + right)[1..] == right;
      assert Chain(r, lo, lo);
      ChainsAcross(r, lo, lo, hi, right);
    }
  }

  /** Chains from the first touched gap on. */
  lemma ChainsTouched(q: map<nat, seq<byte>>, r: map<nat, seq<byte>>, e: nat, start: nat, end: nat, gaps: seq<Interval>)
    requires gaps != [] && Above(0, gaps) && Chains(q, e, gaps)
    requires start < gaps[0].end && gaps[0].start < end && start < end
    requires Replaces(q, r, Max(start, gaps[0].start), LastEnd(gaps, end))
    ensures Chains(r, e, Minus(gaps, start, end))
  {
    var lo := Max(start, gaps[0].start);
    var left, right := MinusParts(gaps, start, lo, end);
    ChainsRight(q, r, lo, end, gaps);
    ChainFrame(q, r, e, gaps[0].start);
    ChainsJoin(r, e, lo, LastEnd(gaps, end), left, right);
  }

  /** What is left of the gaps on either side of the new block. */
  lemma MinusParts(gaps: seq<Interval>, start: nat, lo: nat, end: nat)
      returns (left: seq<Interval>, right: seq<Interval>)
    requires gaps != [] && Above(0, gaps) && start < gaps[0].end && lo == Max(start, gaps[0].start)
    ensures left == Piece(gaps[0].start, Min(gaps[0].end, start))
    ensures right == Piece(Max(gaps[0].start, end), gaps[0].end) + Minus(gaps[1..], lo, end)
    ensures Minus(gaps, start, end) == left + right
  {
    left := Piece(gaps[0].start, Min(gaps[0].end, start));
    right := Piece(Max(gaps[0].start, end), gaps[0].end) + Minus(gaps[1..], lo, end);
    MinusSame(gaps[0].end + 1, gaps[1..], start, lo, end);
  }

  lemma {:induction false} ChainsMinus(q: map<nat, seq<byte>>, r: map<nat, seq<byte>>, from: nat, start: nat, end: nat,
      gaps: seq<Interval>)
    requires Above(0, gaps) && Chains(q, from, gaps) && start < end
    requires var ahead := From(gaps, start);
      ahead != [] && ahead[0].start < end && Replaces(q, r, Max(start, ahead[0].start), LastEnd(ahead, end))
    ensures Chains(r, from, Minus(gaps, start, end))
    decreases |gaps|
  {
    if start < gaps[0].end {
      ChainsTouched(q, r, from, start, end, gaps);
    } else {
      AboveWeaken(gaps[0].end + 1, 0, gaps[1..]);
      ChainsMinus(q, r, gaps[0].end, start, end, gaps[1..]);
      ChainFrame(q, r, from, gaps[0].start);
      assert Minus(gaps, start, end) == [gaps[0]] + Minus(gaps[1..], start, end);
    }
  }

  // ----- push and pop keep the invariant -----

  /** The bytes [start, end) have become present and nothing else has changed. */
  ghost predicate Absorbed(before: seq<Interval>, after: seq<Interval>, start: nat, end: nat) {
    forall x: nat :: Missing(after, x) <==> Missing(before, x) && !(start <= x < end)
  }

  lemma {:induction false} FromFacts(low: nat, gaps: seq<Interval>, start: nat)
    requires Above(low, gaps)
    ensures Above(0, From(gaps, start))
    ensures gaps != [] && start < EndOf(gaps) ==> From(gaps, start) != [] && EndOf(From(gaps, start)) == EndOf(gaps)
    ensures gaps != [] && start >= EndOf(gaps) ==> From(gaps, start) == []
    decreases |gaps|
  {
    if gaps != [] {
      AboveWeaken(gaps[0].end + 1, 0, gaps[1..]);
      FromFacts(gaps[0].end + 1, gaps[1..], start);
    }
  }

  lemma {:induction false} FromMissing(low: nat, gaps: seq<Interval>, start: nat, x: nat)
    requires Above(low, gaps) && Missing(gaps, x) && start <= x
    ensures From(gaps, start) != [] && From(gaps, start)[0].start <= x
    decreases |gaps|
  {
    if gaps[0].end <= start || !(gaps[0].start <= x < gaps[0].end) {
      FromMissing(gaps[0].end + 1, gaps[1..], start, x);
      MissingAbove(gaps[0].end + 1, gaps[1..], x);
    }
  }

  lemma {:induction false} LastEndFacts(low: nat, gaps: seq<Interval>, start: nat, end: nat)
    requires gaps != [] && Above(low, gaps) && start < gaps[0].end && gaps[0].start < end && start < end
    ensures start < LastEnd(gaps, end) && gaps[0].start < LastEnd(gaps, end)
    decreases |gaps|
  {
    if |gaps| > 1 && gaps[1].start < end {
      LastEndFacts(gaps[0].end + 1, gaps[1..], start, end);
    }
  }

  lemma {:induction false} BridgedWithin(low: nat, gaps: seq<Interval>, hi: nat, k: nat)
    requires Above(low, gaps) && k in Bridged(gaps, hi)
    ensures gaps != [] && gaps[0].end <= k < hi
    decreases |gaps|
  {
    if k in Bridged(gaps[1..], hi) {
      BridgedWithin(gaps[0].end + 1, gaps[1..], hi, k);
    }
  }

  lemma MinusOk(gaps: seq<Interval>, start: nat, end: nat)
    requires GapsOk(gaps) && start < end < EndOf(gaps)
    ensures var m := Minus(gaps, start, end); GapsOk(m) && EndOf(m) == EndOf(gaps) && Absorbed(gaps, m, start, end)
  {
    AboveMinus(0, gaps, start, end);
    MinusLast(0, gaps, start, end);
    forall x: nat ensures Missing(Minus(gaps, start, end), x) <==> Missing(gaps, x) && !(start <= x < end) {
      MissingMinus(gaps, start, end, x);
    }
  }

  lemma BlocksAfter(q: map<nat, seq<byte>>, r: map<nat, seq<byte>>, before: seq<Interval>, after: seq<Interval>,
      start: nat, end: nat, lo: nat)
    requires BlocksCovered(q, before) && Absorbed(before, after, start, end)
    requires forall k: nat :: k in r && k != lo ==> k in q && r[k] == q[k]
    requires lo in r && r[lo] != [] && start <= lo && lo + |r[lo]| <= end
    ensures BlocksCovered(r, after)
  {
    forall k: nat, x: nat | k in r && k <= x < k + |r[k]| ensures !Missing(after, x) {
      if k != lo { assert !Missing(before, x); }
    }
  }

  lemma ReplacesBridged(q: map<nat, seq<byte>>, ahead: seq<Interval>, start: nat, block: seq<byte>, lo: nat, hi: nat)
    requires ahead != [] && Above(0, ahead) && lo == Max(start, ahead[0].start) && start < ahead[0].end
    requires lo < hi && |block| == hi - lo
    ensures Replaces(q, (q - Bridged(ahead, hi))[lo := block], lo, hi)
  {
    forall k: nat | k in Bridged(ahead, hi) ensures lo <= k < hi {
      BridgedWithin(0, ahead, hi, k);
    }
  }

  /** Nothing of [start, end) is missing when the first gap that ends after `start` begins at or after `end`. */
  lemma NothingMissing(gaps: seq<Interval>, start: nat, end: nat)
    requires Above(0, gaps) && From(gaps, start) != [] && end <= From(gaps, start)[0].start
    ensures Absorbed(gaps, gaps, start, end)
  {
    forall x: nat | Missing(gaps, x) ensures !(start <= x < end) {
      if start <= x { FromMissing(0, gaps, start, x); }
    }
  }

  lemma BlockQueued(s: Sorter, t: Sorter, start: nat, end: nat, block: seq<byte>)
    requires WellFormed(s) && start < end < EndOf(s.gaps)
    requires From(s.gaps, start) != [] && From(s.gaps, start)[0].start < end
    requires var (lo, hi) := Bounds(s.gaps, start, end);
      |block| == hi - lo && t.queue == Fill(s, start, end).queue[lo := block]
    requires t.gaps == Minus(s.gaps, start, end) && t.readPos == s.readPos
    ensures WellFormed(t)
  {
    var ahead := From(s.gaps, start);
    var (lo, hi) := Bounds(s.gaps, start, end);
    FromFacts(0, s.gaps, start);
    LastEndFacts(0, ahead, start, end);
    ReplacesBridged(s.queue, ahead, start, block, lo, hi);
    ChainsMinus(s.queue, t.queue, s.readPos, start, end, s.gaps);
    MinusOk(s.gaps, start, end);
    BlocksAfter(s.queue, t.queue, s.gaps, t.gaps, start, end, lo);
  }

  /** What comes of the gaps and how it ends, when some byte of the data was missing and its end is not too far. */
  lemma InsertReaches(s: Sorter, data: seq<byte>, start: nat) returns (gaps: seq<Interval>, outcome: Outcome)
    requires data != [] && From(s.gaps, start) != [] && start + |data| < EndOf(From(s.gaps, start))
    requires From(s.gaps, start)[0].start < start + |data|
    ensures gaps == Insert(s, data, start).0.gaps && outcome == Insert(s, data, start).1
    ensures gaps == Minus(s.gaps, start, start + |data|) && (outcome == Accepted || outcome == TooManyGaps)
  {
    gaps, outcome := Insert(s, data, start).0.gaps, Insert(s, data, start).1;
  }

  lemma InsertGaps(s: Sorter, data: seq<byte>, start: nat)
    requires GapsOk(s.gaps) && data != [] && start + |data| < EndOf(s.gaps)
    ensures var (t, outcome) := Insert(s, data, start);
      && (outcome == Accepted || outcome == Duplicate || outcome == TooManyGaps)
      && GapsOk(t.gaps) && EndOf(t.gaps) == EndOf(s.gaps) && Absorbed(s.gaps, t.gaps, start, start + |data|)
  {
    FromFacts(0, s.gaps, start);
    if start + |data| <= From(s.gaps, start)[0].start {
      NothingMissing(s.gaps, start, start + |data|);
    } else {
      var gaps, outcome := InsertReaches(s, data, start);
      MinusOk(s.gaps, start, start + |data|);
    }
  }

  lemma InsertKeeps(s: Sorter, data: seq<byte>, start: nat)
    requires WellFormed(s) && data != [] && start + |data| < EndOf(s.gaps)
    requires Insert(s, data, start).1 != TooManyGaps
    ensures WellFormed(Insert(s, data, start).0)
  {
    var (t, outcome) := Insert(s, data, start);
    var end, ahead := start + |data|, From(s.gaps, start);
    FromFacts(0, s.gaps, start);
    if ahead[0].start < end {
      LastEndFacts(0, ahead, start, end);
      var (lo, hi) := Bounds(s.gaps, start, end);
      BlockQueued(s, t, start, end, Cut(data, start, lo, hi));
    }
  }

  /** Every block that is queued afterwards was queued before or is cut from the data. */
  lemma InsertAdds(s: Sorter, data: seq<byte>, start: nat, k: nat)
    requires data != [] && k in Insert(s, data, start).0.queue
    ensures var (lo, hi) := Bounds(s.gaps, start, start + |data|); var block := Insert(s, data, start).0.queue[k];
            (k in s.queue && block == s.queue[k]) || (k == lo && block == Cut(data, start, lo, hi))
  {
  }

  lemma InsertTrue(src: seq<byte>, s: Sorter, data: seq<byte>, start: nat)
    requires data != [] && SliceAt(src, start, data) && BlocksTrue(src, s.queue)
    ensures BlocksTrue(src, Insert(s, data, start).0.queue)
  {
    var queue := Insert(s, data, start).0.queue;
    var (lo, hi) := Bounds(s.gaps, start, start + |data|);
    forall k | k in queue
      ensures SliceAt(src, k, queue[k])
    {
      InsertAdds(s, data, start, k);
      if start <= lo <= hi <= start + |data| {
        CutTrue(src, data, start, lo, hi);
      }
    }
  }

  lemma CutTrue(src: seq<byte>, data: seq<byte>, start: nat, lo: nat, hi: nat)
    requires SliceAt(src, start, data) && start <= lo <= hi <= start + |data|
    ensures SliceAt(src, lo, Cut(data, start, lo, hi))
  {
    var cut := data[lo - start..hi - start];
    forall k | 0 <= k < |cut|
      ensures cut[k] == src[lo..hi][k]
    {
      assert data[lo - start + k] == src[start..start + |data|][lo - start + k];
    }
  }

  lemma AbsorbedMore(before: seq<Interval>, after: seq<Interval>, start: nat, mid: nat, end: nat)
    requires Absorbed(before, after, mid, end) && start <= mid <= end
    requires forall x: nat :: start <= x < mid ==> !Missing(before, x)
    ensures Absorbed(before, after, start, end)
  {
  }

  /** A push of something longer than what is queued at its offset inserts the remainder (d, o). */
  lemma PushInserts(s: Sorter, data: seq<byte>, offset: nat, fin: bool) returns (s1: Sorter, d: seq<byte>, o: nat)
    requires data != [] && (offset in s.queue ==> |s.queue[offset]| < |data|)
    ensures s1 == if fin then s.(finalOffset := offset + |data|) else s
    ensures d != [] && offset <= o && o + |d| == offset + |data|
    ensures Pushed(s, data, offset, fin) == Insert(s1, d, o)
    ensures o == offset || (offset in s.queue && o == offset + |s.queue[offset]|)
    ensures forall src :: SliceAt(src, offset, data) ==> SliceAt(src, o, d)
  {
    s1 := if fin then s.(finalOffset := offset + |data|) else s;
    var n := if offset in s.queue then |s.queue[offset]| else 0;
    d, o := data[n..], offset + n;
    assert n == 0 ==> d == data;
  }

  /** A push makes exactly its bytes present, and touches neither the read position nor the limit. */
  lemma PushGaps(s: Sorter, data: seq<byte>, offset: nat, fin: bool)
    requires GapsOk(s.gaps) && BlocksCovered(s.queue, s.gaps) && offset + |data| < EndOf(s.gaps)
    ensures var (t, outcome) := Pushed(s, data, offset, fin);
      && (outcome == Accepted || outcome == Duplicate || outcome == TooManyGaps)
      && GapsOk(t.gaps) && EndOf(t.gaps) == EndOf(s.gaps) && Absorbed(s.gaps, t.gaps, offset, offset + |data|)
      && t.readPos == s.readPos && t.maxGaps == s.maxGaps
      && t.finalOffset == (if fin then offset + |data| else s.finalOffset)
  {
    PushFrame(s, data, offset, fin);
    if data == [] {
    } else if offset in s.queue && |data| <= |s.queue[offset]| {
      assert forall x: nat :: offset <= x < offset + |s.queue[offset]| ==> !Missing(s.gaps, x);
    } else {
      var s1, d, o := PushInserts(s, data, offset, fin);
      InsertGaps(s1, d, o);
      assert forall x: nat :: offset <= x < o ==> !Missing(s.gaps, x);
      AbsorbedMore(s.gaps, Insert(s1, d, o).0.gaps, offset, o, offset + |data|);
    }
  }

  lemma PushFrame(s: Sorter, data: seq<byte>, offset: nat, fin: bool)
    ensures var t := Pushed(s, data, offset, fin).0;
      && t.readPos == s.readPos && t.maxGaps == s.maxGaps
      && t.finalOffset == (if fin then offset + |data| else s.finalOffset)
  {
  }

  /** A push keeps the sorter in order. */
  lemma PushKeeps(s: Sorter, data: seq<byte>, offset: nat, fin: bool)
    requires WellFormed(s) && offset + |data| < EndOf(s.gaps)
    requires Pushed(s, data, offset, fin).1 != TooManyGaps
    ensures WellFormed(Pushed(s, data, offset, fin).0)
  {
    if data != [] && !(offset in s.queue && |data| <= |s.queue[offset]|) {
      var s1, d, o := PushInserts(s, data, offset, fin);
      InsertKeeps(s1, d, o);
    }
  }

  /** After a push that fails in this way, there are more gaps than the limit. */
  lemma PushFails(s: Sorter, data: seq<byte>, offset: nat, fin: bool)
    requires Pushed(s, data, offset, fin).1 == TooManyGaps
    ensures |Pushed(s, data, offset, fin).0.gaps| > s.maxGaps
  {
  }

  /** Some byte of [start, end) is still missing. */
  ghost predicate BringsNew(gaps: seq<Interval>, start: nat, end: nat) {
    exists x: nat :: start <= x < end && Missing(gaps, x)
  }

  lemma {:induction false} FromIsMissing(gaps: seq<Interval>, start: nat)
    requires Above(0, gaps) && From(gaps, start) != []
    ensures Missing(gaps, Max(start, From(gaps, start)[0].start))
    decreases |gaps|
  {
    if start >= gaps[0].end {
      AboveWeaken(gaps[0].end + 1, 0, gaps[1..]);
      FromIsMissing(gaps[1..], start);
    }
  }

  /** Cutting off bytes that are not missing first makes no difference to the gaps. */
  lemma MinusFrom(gaps: seq<Interval>, offset: nat, start: nat, end: nat)
    requires Above(0, gaps) && offset <= start < end && forall x: nat :: offset <= x < start ==> !Missing(gaps, x)
    ensures Minus(gaps, offset, end) == Minus(gaps, start, end)
  {
    AboveMinus(0, gaps, offset, end);
    AboveMinus(0, gaps, start, end);
    forall x: nat
      ensures Missing(Minus(gaps, offset, end), x) <==> Missing(Minus(gaps, start, end), x)
    {
      MissingMinus(gaps, offset, end, x);
      MissingMinus(gaps, start, end, x);
    }
    GapsCanonical(0, Minus(gaps, offset, end), Minus(gaps, start, end));
  }

  lemma InsertFails(s: Sorter, data: seq<byte>, start: nat)
    requires GapsOk(s.gaps) && data != []
    ensures var end, outcome := start + |data|, Insert(s, data, start).1;
            && (outcome == NoGapFound <==> start > EndOf(s.gaps))
            && (outcome == NoEndGapFound <==> start <= EndOf(s.gaps) <= end)
            && (end < EndOf(s.gaps) ==>
                  (outcome == TooManyGaps <==>
                     BringsNew(s.gaps, start, end) && |Minus(s.gaps, start, end)| > s.maxGaps))
  {
    FromFacts(0, s.gaps, start);
    if start < EndOf(s.gaps) {
      FromIsMissing(s.gaps, start);
      FirstEnd(0, From(s.gaps, start));
      if start + |data| <= From(s.gaps, start)[0].start {
        NothingMissing(s.gaps, start, start + |data|);
      } else {
        assert start <= Max(start, From(s.gaps, start)[0].start) < start + |data|;
      }
    }
  }

  /** A push that is shorter than what is queued at its offset, or empty, ends before the gaps are looked at. */
  predicate Covered(s: Sorter, data: seq<byte>, offset: nat) {
    data == [] || (offset in s.queue && |data| <= |s.queue[offset]|)
  }

  /**
   * A push fails exactly when it reaches the end of the number space, or when it brings a byte that was missing and
   * leaves more stretches missing than there may be.
   */
  lemma PushFailsExactly(s: Sorter, data: seq<byte>, offset: nat, fin: bool)
    requires GapsOk(s.gaps) && BlocksCovered(s.queue, s.gaps)
    ensures var end, outcome := offset + |data|, Pushed(s, data, offset, fin).1;
            && (outcome == NoGapFound || outcome == NoEndGapFound <==>
                  !Covered(s, data, offset) && end >= EndOf(s.gaps))
            && (outcome == TooManyGaps <==>
                  && end < EndOf(s.gaps) && BringsNew(s.gaps, offset, end)
                  && |Minus(s.gaps, offset, end)| > s.maxGaps)
  {
    if Covered(s, data, offset) {
      assert data != [] ==> forall x: nat :: offset <= x < offset + |s.queue[offset]| ==> !Missing(s.gaps, x);
    } else {
      var s1, d, o := PushInserts(s, data, offset, fin);
      assert forall x: nat :: offset <= x < o ==> !Missing(s.gaps, x);
      InsertFails(s1, d, o);
      MinusFrom(s.gaps, offset, o, offset + |data|);
    }
  }

  /** The missing bytes determine the list of gaps, so that its length is the number of stretches that are missing. */
  lemma {:induction false} GapsCanonical(low: nat, a: seq<Interval>, b: seq<Interval>)
    requires Above(low, a) && Above(low, b) && forall x: nat :: Missing(a, x) <==> Missing(b, x)
    ensures a == b
    decreases |a|
  {
    if a == [] || b == [] {
      if a != [] {
        assert Missing(a, a[0].start);
      } else if b != [] {
        assert Missing(b, b[0].start);
      }
    } else {
      FirstAgrees(low, a, b);
      FirstAgrees(low, b, a);
      forall x: nat
        ensures Missing(a[1..], x) <==> Missing(b[1..], x)
      {
        TailMissing(low, a, x);
        TailMissing(low, b, x);
      }
      GapsCanonical(a[0].end + 1, a[1..], b[1..]);
    }
  }

  /** A gap that begins a list of missing bytes begins no later, and ends no later, than that of the other list. */
  lemma FirstAgrees(low: nat, a: seq<Interval>, b: seq<Interval>)
    requires a != [] && b != [] && Above(low, a) && Above(low, b)
    requires forall x: nat :: Missing(a, x) <==> Missing(b, x)
    ensures a[0].start >= b[0].start
    ensures a[0].start == b[0].start ==> a[0].end >= b[0].end
  {
    assert Missing(a, a[0].start);
    MissingAbove(b[0].start, b, a[0].start);
    if a[0].start == b[0].start && a[0].end < b[0].end {
      assert Missing(b, a[0].end);
      TailMissing(low, a, a[0].end);
    }
  }

  /** Behind the first gap, exactly what lies after its end is missing. */
  lemma TailMissing(low: nat, gaps: seq<Interval>, x: nat)
    requires gaps != [] && Above(low, gaps)
    ensures Missing(gaps[1..], x) <==> Missing(gaps, x) && x > gaps[0].end
  {
    if Missing(gaps[1..], x) {
      MissingAbove(gaps[0].end + 1, gaps[1..], x);
    }
  }

  /** A push of true data leaves only true data queued. */
  lemma PushTrue(src: seq<byte>, s: Sorter, data: seq<byte>, offset: nat, fin: bool)
    requires SliceAt(src, offset, data) && BlocksTrue(src, s.queue)
    ensures BlocksTrue(src, Pushed(s, data, offset, fin).0.queue)
  {
    if data != [] && !(offset in s.queue && |data| <= |s.queue[offset]|) {
      var s1, d, o := PushInserts(s, data, offset, fin);
      InsertTrue(src, s1, d, o);
    }
  }

  /** A pop hands out the next bytes of the source, and nothing only when the next byte is missing. */
  lemma PopKeeps(src: seq<byte>, s: Sorter)
    requires WellFormed(s) && BlocksTrue(src, s.queue)
    ensures var (t, data, fin) := Popped(s);
      && WellFormed(t) && BlocksTrue(src, t.queue) && t.gaps == s.gaps
      && t.readPos == s.readPos + |data| && (data == [] || SliceAt(src, s.readPos, data))
      && (data == [] <==> Missing(s.gaps, s.readPos))
      && (fin <==> t.readPos >= s.finalOffset)
  {
    var (t, data, _) := Popped(s);
    ChainFrame(s.queue, s.queue, s.readPos, s.gaps[0].start);
    if s.readPos in s.queue {
      assert !Missing(s.gaps, s.readPos);
      ChainFrame(s.queue, t.queue, t.readPos, s.gaps[0].start);
      AboveWeaken(s.gaps[0].end + 1, s.gaps[0].end, s.gaps[1..]);
      ChainsDrop(s.queue, s.readPos, s.gaps[0].end, s.gaps[1..]);
    } else {
      assert t.queue == s.queue;
    }
  }

  lemma {:induction false} ChainsDrop(q: map<nat, seq<byte>>, k: nat, from: nat, gaps: seq<Interval>)
    requires Chains(q, from, gaps) && k < from && Above(from, gaps)
    ensures Chains(q - {k}, from, gaps)
    decreases |gaps|
  {
    if gaps != [] {
      ChainFrame(q, q - {k}, from, gaps[0].start);
      AboveWeaken(gaps[0].end + 1, gaps[0].end, gaps[1..]);
      ChainsDrop(q, k, gaps[0].end, gaps[1..]);
    }
  }

  // ----- the program's loops -----

  /** What is left right of `end`, for gaps of which the first begins below `end` and ends after `start`. */
  function Tail(gaps: seq<Interval>, start: nat, end: nat): seq<Interval>
    requires gaps != []
  {
    Piece(Max(gaps[0].start, end), gaps[0].end) + Minus(gaps[1..], start, end)
  }

  lemma {:induction false} FromSplit(low: nat, before: seq<Interval>, ahead: seq<Interval>, start: nat)
    requires Above(low, before + ahead) && ahead != [] && start < ahead[0].end
    requires before != [] ==> before[|before| - 1].end <= start
    ensures From(before + ahead, start) == ahead
    decreases |before|
  {
    var all := before + ahead;
    if before == [] {
      assert all == ahead;
    } else {
      assert all[1..] == before[1..] + ahead;
      EndsAscend(low, all, |before| - 1);
      FromSplit(all[0].end + 1, before[1..], ahead, start);
    }
  }

  /** Gaps that end at or before `start` stay as they are. */
  lemma {:induction false} MinusSplit(low: nat, before: seq<Interval>, ahead: seq<Interval>, start: nat, end: nat)
    requires Above(low, before + ahead) && start < end
    requires before != [] ==> before[|before| - 1].end <= start
    ensures Minus(before + ahead, start, end) == before + Minus(ahead, start, end)
    decreases |before|
  {
    var all := before + ahead;
    if before == [] {
      assert all == ahead;
    } else {
      assert all[1..] == before[1..] + ahead;
      EndsAscend(low, all, |before| - 1);
      MinusSplit(all[0].end + 1, before[1..], ahead, start, end);
      MinusHead(all, start, end);
      Prepend(before, Minus(ahead, start, end));
    }
  }

  lemma Prepend(before: seq<Interval>, rest: seq<Interval>)
    requires before != []
    ensures [before[0]] + (before[1..] + rest) == before + rest
  {
  }

  lemma MinusHead(gaps: seq<Interval>, start: nat, end: nat)
    requires gaps != [] && gaps[0].start < gaps[0].end <= start < end
    ensures Minus(gaps, start, end) == [gaps[0]] + Minus(gaps[1..], start, end)
  {
  }

  lemma {:induction false} EndsAscend(low: nat, gaps: seq<Interval>, i: nat)
    requires Above(low, gaps) && i < |gaps|
    ensures gaps[0].end <= gaps[i].end
    decreases i
  {
    if i > 0 {
      EndsAscend(gaps[0].end + 1, gaps[1..], i - 1);
    }
  }

  /** One round of the bridging loop: the next gap also begins below `end`. */
  lemma TailStep(low: nat, gaps: seq<Interval>, start: nat, end: nat)
    requires Above(low, gaps) && |gaps| > 1 && start < gaps[0].end <= end && gaps[1].start < end
    ensures Tail(gaps, start, end) == Tail(gaps[1..], start, end)
    ensures LastEnd(gaps, end) == LastEnd(gaps[1..], end) > gaps[0].end
    ensures Bridged(gaps, LastEnd(gaps, end)) == {gaps[0].end} + Bridged(gaps[1..], LastEnd(gaps, end))
  {
    LastEndFacts(gaps[0].end + 1, gaps[1..], gaps[0].end, end);
    assert Piece(Max(gaps[0].start, end), gaps[0].end) == [];
    assert Piece(gaps[1].start, Min(gaps[1].end, start)) == [];
  }

  /** The end of the bridging loop: no further gap begins below `end`. */
  lemma TailEnd(low: nat, gaps: seq<Interval>, start: nat, end: nat)
    requires Above(low, gaps) && gaps != [] && start < gaps[0].end && gaps[0].start < end && start < end
    requires |gaps| > 1 ==> end <= gaps[1].start
    ensures Tail(gaps, start, end) == Piece(end, gaps[0].end) + gaps[1..]
    ensures LastEnd(gaps, end) == Min(gaps[0].end, end)
    ensures Bridged(gaps, LastEnd(gaps, end)) == {}
  {
    MinusNone(gaps[0].end + 1, gaps[1..], start, end);
    BridgedNone(gaps[0].end + 1, gaps[1..], LastEnd(gaps, end));
  }

  lemma {:induction false} FirstEnd(low: nat, gaps: seq<Interval>)
    requires Above(low, gaps) && gaps != []
    ensures gaps[0].end <= gaps[|gaps| - 1].end
    decreases |gaps|
  {
    if |gaps| > 1 {
      FirstEnd(gaps[0].end + 1, gaps[1..]);
    }
  }

  lemma {:induction false} BridgedNone(low: nat, gaps: seq<Interval>, hi: nat)
    requires Above(low, gaps) && hi <= low
    ensures Bridged(gaps, hi) == {}
    decreases |gaps|
  {
    if gaps != [] {
      BridgedNone(gaps[0].end + 1, gaps[1..], hi);
    }
  }

  lemma {:induction false} MissingAt(low: nat, gaps: seq<Interval>, k: nat, x: nat)
    requires Above(low, gaps) && k < |gaps| && gaps[k].start <= x < gaps[k].end
    ensures Missing(gaps, x)
    decreases k
  {
    if k > 0 {
      MissingAt(gaps[0].end + 1, gaps[1..], k - 1, x);
    }
  }

  /** Where a gap other than the last ends, a block is queued. */
  lemma {:induction false} BlockAtEnd(low: nat, queue: map<nat, seq<byte>>, from: nat, gaps: seq<Interval>, k: nat)
    requires Above(low, gaps) && Chains(queue, from, gaps) && k + 1 < |gaps|
    ensures gaps[k].end in queue
    decreases k
  {
    if k > 0 {
      BlockAtEnd(gaps[0].end + 1, queue, gaps[0].end, gaps[1..], k - 1);
    }
  }

  /** Data that is left after trimming does not begin where a gap other than the last ends. */
  lemma NotAtEnd(s: Sorter, offset: nat, start: nat, k: nat)
    requires WellFormed(s) && k + 1 < |s.gaps|
    requires if offset in s.queue then start == offset + |s.queue[offset]| else start == offset
    ensures s.gaps[k].end != start
  {
    if s.gaps[k].end == start {
      if offset in s.queue {
        AboveAt(0, s.gaps, k);
        MissingAt(0, s.gaps, k, start - 1);
        assert false;
      } else {
        BlockAtEnd(0, s.queue, s.readPos, s.gaps, k);
        assert false;
      }
    }
  }
}
