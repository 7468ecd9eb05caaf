/**
 The coupling term of OLIA: epsilon moves window growth from the paths with the largest window
 to the best paths that do not have it.
 */
module OliaEpsilon {
  import opened Basics

  datatype Path = Path(cwnd: nat, srtt: int, loss1: nat, loss2: nat, loss3: nat)

  datatype Epsilon = Epsilon(num: int, den: nat)

  function SmoothedBytesBetweenLosses(p: Path): nat {
    Max(Uint64(p.loss3 - p.loss2), Uint64(p.loss2 - p.loss1))
  }

  function SquaredRTT(p: Path): int { Int64(p.srtt * p.srtt) }

  /** Whether path p is at least as good as the best seen; the products may overflow. */
  predicate AtLeast(p: Path, bestBytes: nat, bestRTT: int) {
    Int64(Int64(SmoothedBytesBetweenLosses(p)) * bestRTT) >= Int64(Int64(bestBytes) * SquaredRTT(p))
  }

  function Bytes(p: Path): nat { SmoothedBytesBetweenLosses(p) }

  /** Round-trip times are positive, and no product of bytes and a squared round-trip time overflows. */
  predicate Fits(paths: map<PathID, Path>) {
    forall k, l :: k in paths && l in paths ==> Comparable(paths[k], paths[l])
  }

  predicate Comparable(p: Path, q: Path) {
    && SquaredRTT(p) > 0 && Int64(Bytes(p)) == Bytes(p)
    && Int64(Bytes(p) * SquaredRTT(q)) == Bytes(p) * SquaredRTT(q)
  }

  /** The ratio of bytes between losses to squared round-trip time of p is at most bytes / rtt. */
  predicate NoBetter(p: Path, bytes: nat, rtt: int) {
    bytes * SquaredRTT(p) >= Bytes(p) * rtt
  }

  function BestTest(bestBytes: nat, bestRTT: int): Path -> bool {
    (p: Path) => AtLeast(p, bestBytes, bestRTT)
  }

  /** The paths whose window is the largest, and the best paths among the others. */
  function Largest(paths: map<PathID, Path>, maxCwnd: nat): set<PathID> {
    set k | k in paths && paths[k].cwnd == maxCwnd
  }

  function BestOthers(paths: map<PathID, Path>, maxCwnd: nat, best: Path -> bool): set<PathID> {
    set k | k in paths && paths[k].cwnd != maxCwnd && best(paths[k])
  }

  /** What each path is assigned, given the two sets and the denominators for them. */
  function Assigned(denM: nat, denB: nat, m: set<PathID>, b: set<PathID>, k: PathID): Epsilon {
    if b == {} then Epsilon(0, 1)
    else if k in b then Epsilon(1, denB)
    else if k in m then Epsilon(-1, denM)
    else Epsilon(0, 1)
  }

  predicate IsMaxCwnd(paths: map<PathID, Path>, maxCwnd: nat) {
    && (forall k :: k in paths ==> paths[k].cwnd <= maxCwnd)
    && (paths != map[] ==> exists k :: k in paths && paths[k].cwnd == maxCwnd)
  }

  /** The two numbers are those of one of the paths. */
  predicate IsRatio(paths: map<PathID, Path>, bytes: nat, rtt: int) {
    exists k :: k in paths && bytes == Bytes(paths[k]) && rtt == SquaredRTT(paths[k])
  }

  class OliaSenders {
    var paths: map<PathID, Path>
    var epsilons: map<PathID, Epsilon>

    constructor (paths: map<PathID, Path>)
      ensures this.paths == paths
    {
      this.paths := paths;
      epsilons := map[];
    }

    method GetMaxCwnd() returns (best: nat)
      ensures IsMaxCwnd(paths, best)
    {
      best := 0;
      var todo := paths.Keys;
      while todo != {}
        invariant todo <= paths.Keys
        invariant forall k :: k in paths && k !in todo ==> paths[k].cwnd <= best
        invariant best == 0 || exists k :: k in paths && paths[k].cwnd == best
        decreases |todo|
      {
        var k :| k in todo;
        todo := todo - {k};
        if best < paths[k].cwnd {
          best := paths[k].cwnd;
        }
      }
      if best == 0 && paths != map[] {
        ghost var k :| k in paths.Keys;
        assert paths[k].cwnd == best;
      }
    }

    /**
     The figures of one of the paths. As long as no product overflows, no path has a better ratio;
     otherwise which one it is depends on the order of the visits, which is not fixed.
     */
    method FindBest() returns (bestBytes: nat, bestRTT: int)
      ensures paths != map[] ==> IsRatio(paths, bestBytes, bestRTT)
      ensures Fits(paths) ==> forall k :: k in paths ==> NoBetter(paths[k], bestBytes, bestRTT)
    {
      bestBytes, bestRTT := 0, 0;
      var todo := paths.Keys;
      while todo != {}
        invariant todo <= paths.Keys
        invariant todo == paths.Keys ==> bestBytes == 0 && bestRTT == 0
        invariant todo < paths.Keys ==> IsRatio(paths, bestBytes, bestRTT)
        invariant Fits(paths) ==> forall k :: k in paths && k !in todo ==> NoBetter(paths[k], bestBytes, bestRTT)
        decreases |todo|
      {
        var k :| k in todo;
        if todo == paths.Keys {
          FirstTaken(paths[k]);
        }
        var b, r := bestBytes, bestRTT;
        if AtLeast(paths[k], bestBytes, bestRTT) {
          b, r := Bytes(paths[k]), SquaredRTT(paths[k]);
        }
        if Fits(paths) {
          Improves(paths, todo, k, bestBytes, bestRTT);
        }
        bestBytes, bestRTT := b, r;
        todo := todo - {k};
      }
    }

    /** Sizes of the two sets, counted in bytes that wrap around. */
    method CountSets(maxCwnd: nat, best: Path -> bool) returns (m: nat, b: nat)
      ensures m == Uint8(|Largest(paths, maxCwnd)|) && b == Uint8(|BestOthers(paths, maxCwnd, best)|)
    {
      m, b := 0, 0;
      ghost var inM, inB := Largest(paths, maxCwnd), BestOthers(paths, maxCwnd, best);
      var todo := paths.Keys;
      NoneVisited(inM, todo);
      NoneVisited(inB, todo);
      while todo != {}
        invariant todo <= paths.Keys
        invariant m == Visited(inM, todo) && b == Visited(inB, todo)
        decreases |todo|
      {
        var k :| k in todo;
        Visit(inM, todo, k);
        Visit(inB, todo, k);
        todo := todo - {k};
        if paths[k].cwnd == maxCwnd {
          m := Uint8(m + 1);
        } else if best(paths[k]) {
          b := Uint8(b + 1);
        }
      }
      AllVisited(inM);
      AllVisited(inB);
    }

    /** Each path's share from the counted sizes; the test for the best paths is the same one as in the count. */
    method AssignAll(maxCwnd: nat, best: Path -> bool, countM: nat, countB: nat)
      requires IsMaxCwnd(paths, maxCwnd)
      requires countB == 0 <==> BestOthers(paths, maxCwnd, best) == {}
      modifies this`epsilons
      ensures epsilons.Keys == paths.Keys
      ensures forall k :: k in paths ==>
        epsilons[k] == Assigned(|paths| * countM, |paths| * countB, Largest(paths, maxCwnd),
            BestOthers(paths, maxCwnd, best), k)
    {
      ghost var m, b := Largest(paths, maxCwnd), BestOthers(paths, maxCwnd, best);
      var denM, denB := |paths| * countM, |paths| * countB;
      epsilons := map[];
      var todo := paths.Keys;
      while todo != {}
        invariant todo <= paths.Keys
        invariant epsilons.Keys == paths.Keys - todo
        invariant forall k :: k in epsilons ==> epsilons[k] == Assigned(denM, denB, m, b, k)
        decreases |todo|
      {
        var k :| k in todo;
        todo := todo - {k};
        var e :=
          if countB == 0 then Epsilon(0, 1)
          else if paths[k].cwnd < maxCwnd && best(paths[k]) then Epsilon(1, denB)
          else if paths[k].cwnd == maxCwnd then Epsilon(-1, denM)
          else Epsilon(0, 1);
        epsilons := epsilons[k := e];
      }
    }

    /** Afterwards every path has its share; `m` and `b` are the two sets it was worked out from. */
    method GetEpsilon() returns (ghost maxCwnd: nat, ghost bestBytes: nat, ghost bestRTT: int)
      modifies this`epsilons
      ensures IsMaxCwnd(paths, maxCwnd)
      ensures Fits(paths) ==> forall k :: k in paths ==> NoBetter(paths[k], bestBytes, bestRTT)
      ensures paths != map[] ==> IsRatio(paths, bestBytes, bestRTT)
      ensures epsilons == Shared(paths, maxCwnd, BestTest(bestBytes, bestRTT))
    {
      var largest := GetMaxCwnd();
      var bytes, rtt := FindBest();
      var best := BestTest(bytes, rtt);
      var countM, countB := CountSets(largest, best);
      LargestExists(paths, largest);
      SizesFit(paths.Keys, Largest(paths, largest), BestOthers(paths, largest, best));
      AssignAll(largest, best, countM, countB);
      SharedIs(paths, largest, best, countM, countB, epsilons);
      maxCwnd, bestBytes, bestRTT := largest, bytes, rtt;
    }
  }

  // ----- bytes between losses -----

  /** What the three counters see: bytes that are acknowledged, and losses that cut the window. */
  datatype LossEvent = BytesAcked(bytes: nat) | LossSeen

  datatype Counters = Counters(loss1: nat, loss2: nat, loss3: nat)

  function Counted(c: Counters, e: LossEvent): Counters {
    match e
    case BytesAcked(bytes) => c.(loss3 := c.loss3 + bytes)
    case LossSeen => Counters(c.loss2, c.loss3, c.loss3)
  }

  function CountedAll(events: seq<LossEvent>): Counters {
    if events == [] then Counters(0, 0, 0) else Counted(CountedAll(events[..|events| - 1]), events[|events| - 1])
  }

  /** The bytes acknowledged since the last loss. */
  function SinceLoss(events: seq<LossEvent>): nat {
    if events == [] || events[|events| - 1].LossSeen? then 0
    else SinceLoss(events[..|events| - 1]) + events[|events| - 1].bytes
  }

  /** The bytes acknowledged between the last loss and the one before it. */
  function BetweenLosses(events: seq<LossEvent>): nat {
    if events == [] then 0
    else if events[|events| - 1].LossSeen? then SinceLoss(events[..|events| - 1])
    else BetweenLosses(events[..|events| - 1])
  }

  lemma {:induction false} CountersAre(events: seq<LossEvent>)
    ensures var c := CountedAll(events);
            c.loss3 - c.loss2 == SinceLoss(events) && c.loss2 - c.loss1 == BetweenLosses(events)
  {
    if events != [] {
      CountersAre(events[..|events| - 1]);
    }
  }

  /**
   * In every run of acknowledgements and losses, what a path is measured by is the larger of the bytes acknowledged
   * since the last loss and those between the last two.
   */
  lemma SmoothedExact(events: seq<LossEvent>, p: Path)
    requires Counters(p.loss1, p.loss2, p.loss3) == CountedAll(events) && p.loss3 < TWO_64
    ensures SmoothedBytesBetweenLosses(p) == Max(SinceLoss(events), BetweenLosses(events))
  {
    CountersAre(events);
    NoWrap(p.loss3 - p.loss2);
    NoWrap(p.loss2 - p.loss1);
  }

  // ----- who gets which share -----

  /** No path has a better ratio of bytes between losses to squared round-trip time. */
  ghost predicate Unbeaten(paths: map<PathID, Path>, k: PathID)
    requires k in paths
  {
    forall l :: l in paths ==> NoBetter(paths[l], Bytes(paths[k]), SquaredRTT(paths[k]))
  }

  lemma BestIsUnbeaten(paths: map<PathID, Path>, bytes: nat, rtt: int, k: PathID)
    requires Fits(paths) && k in paths && IsRatio(paths, bytes, rtt)
    requires forall l :: l in paths ==> NoBetter(paths[l], bytes, rtt)
    ensures AtLeast(paths[k], bytes, rtt) <==> Unbeaten(paths, k)
  {
    var best :| best in paths && bytes == Bytes(paths[best]) && rtt == SquaredRTT(paths[best]);
    Exact(paths[k], paths[best]);
    if AtLeast(paths[k], bytes, rtt) {
      forall l | l in paths
        ensures NoBetter(paths[l], Bytes(paths[k]), SquaredRTT(paths[k]))
      {
        assert Comparable(paths[l], paths[l]) && Comparable(paths[k], paths[k]) && Comparable(paths[best], paths[best]);
        Transitive(Bytes(paths[k]), SquaredRTT(paths[k]), bytes, rtt, Bytes(paths[l]), SquaredRTT(paths[l]));
      }
    }
  }

  /** The unbeaten paths that do not have the largest window. */
  ghost function UnbeatenOthers(paths: map<PathID, Path>, maxCwnd: nat): set<PathID> {
    set k | k in paths && paths[k].cwnd < maxCwnd && Unbeaten(paths, k)
  }

  /**
   * Where nothing overflows: a path gains exactly when it is unbeaten and does not have the largest window, pays
   * exactly when it has the largest window and some path gains, and gains and payments are shared out equally.
   */
  lemma SharesExact(paths: map<PathID, Path>, maxCwnd: nat, bytes: nat, rtt: int, k: PathID)
    requires Fits(paths) && IsMaxCwnd(paths, maxCwnd) && IsRatio(paths, bytes, rtt) && k in paths
    requires forall l :: l in paths ==> NoBetter(paths[l], bytes, rtt)
    ensures var e := Shared(paths, maxCwnd, BestTest(bytes, rtt))[k]; var gain := UnbeatenOthers(paths, maxCwnd);
            && -1 <= e.num <= 1
            && (e.num == 1 <==> paths[k].cwnd < maxCwnd && Unbeaten(paths, k))
            && (e.num == -1 <==> paths[k].cwnd == maxCwnd && gain != {})
            && (e.num == 1 ==> e.den == |paths| * |gain|)
            && (e.num == -1 ==> e.den == |paths| * |Largest(paths, maxCwnd)|)
  {
    BestOthersAre(paths, maxCwnd, bytes, rtt);
    var e := ShareIs(paths, maxCwnd, BestTest(bytes, rtt), UnbeatenOthers(paths, maxCwnd), k);
  }

  lemma ShareIs(paths: map<PathID, Path>, maxCwnd: nat, best: Path -> bool, gain: set<PathID>, k: PathID)
      returns (e: Epsilon)
    requires k in paths && gain == BestOthers(paths, maxCwnd, best)
    ensures e == Shared(paths, maxCwnd, best)[k] && -1 <= e.num <= 1
    ensures e.num == 1 <==> k in gain
    ensures e.num == -1 <==> paths[k].cwnd == maxCwnd && gain != {}
    ensures e.num == 1 ==> e.den == |paths| * |gain|
    ensures e.num == -1 ==> e.den == |paths| * |Largest(paths, maxCwnd)|
  {
    var m := Largest(paths, maxCwnd);
    e := Assigned(|paths| * |m|, |paths| * |gain|, m, gain, k);
    AssignedExact(|paths| * |m|, |paths| * |gain|, m, gain, k);
  }

  lemma BestOthersAre(paths: map<PathID, Path>, maxCwnd: nat, bytes: nat, rtt: int)
    requires Fits(paths) && IsMaxCwnd(paths, maxCwnd) && IsRatio(paths, bytes, rtt)
    requires forall l :: l in paths ==> NoBetter(paths[l], bytes, rtt)
    ensures BestOthers(paths, maxCwnd, BestTest(bytes, rtt)) == UnbeatenOthers(paths, maxCwnd)
  {
    forall l: PathID
      ensures l in BestOthers(paths, maxCwnd, BestTest(bytes, rtt)) <==> l in UnbeatenOthers(paths, maxCwnd)
    {
      if l in paths {
        BestIsUnbeaten(paths, bytes, rtt, l);
      }
    }
  }

  lemma AssignedExact(denM: nat, denB: nat, m: set<PathID>, b: set<PathID>, k: PathID)
    requires k in b ==> k !in m
    ensures var e := Assigned(denM, denB, m, b, k);
            && -1 <= e.num <= 1 && (e.num == 1 <==> k in b) && (e.num == -1 <==> k in m && b != {})
            && (e.num == 1 ==> e.den == denB) && (e.num == -1 ==> e.den == denM)
  {
  }

  /** Every path's share. */
  function Shared(paths: map<PathID, Path>, maxCwnd: nat, best: Path -> bool): map<PathID, Epsilon> {
    var m, b := Largest(paths, maxCwnd), BestOthers(paths, maxCwnd, best);
    map k | k in paths :: Assigned(|paths| * |m|, |paths| * |b|, m, b, k)
  }

  lemma SharedIs(paths: map<PathID, Path>, maxCwnd: nat, best: Path -> bool, countM: nat, countB: nat,
      shares: map<PathID, Epsilon>)
    requires var m, b := Largest(paths, maxCwnd), BestOthers(paths, maxCwnd, best);
      && (b != {} ==> countB == |b| && countM == |m|) && shares.Keys == paths.Keys
      && forall k :: k in paths ==> shares[k] == Assigned(|paths| * countM, |paths| * countB, m, b, k)
    ensures shares == Shared(paths, maxCwnd, best)
  {
  }

  /** Nothing is as good as the figures that the search begins with. */
  lemma FirstTaken(p: Path)
    ensures AtLeast(p, 0, 0)
  {
    assert Int64(0) == 0;
    assert Int64(Bytes(p)) * 0 == 0 && 0 * SquaredRTT(p) == 0;
  }

  lemma Transitive(bn: int, rn: int, bb: int, br: int, bk: int, rk: int)
    requires rn > 0 && br > 0 && rk > 0 && bn * br >= bb * rn && bb * rk >= bk * br
    ensures bn * rk >= bk * rn
  {
    assert (bn * br) * rk >= (bb * rn) * rk;
    assert (bb * rk) * rn >= (bk * br) * rn;
    assert (bn * rk) * br >= (bk * rn) * br by {
      assert (bn * br) * rk == (bn * rk) * br && (bb * rn) * rk == (bb * rk) * rn && (bk * br) * rn == (bk * rn) * br;
    }
    if bn * rk < bk * rn {
      Scale(bn * rk, bk * rn, br);
    }
  }

  lemma Scale(a: int, b: int, c: int)
    requires a < b && c > 0
    ensures a * c < b * c
  {
  }

  /** One visit of the search keeps the best ratio found. */
  lemma Improves(paths: map<PathID, Path>, todo: set<PathID>, k: PathID, bytes: nat, rtt: int)
    requires Fits(paths) && k in paths && k in todo
    requires (bytes == 0 && rtt == 0 && todo == paths.Keys) || IsRatio(paths, bytes, rtt)
    requires forall l :: l in paths && l !in todo ==> NoBetter(paths[l], bytes, rtt)
    ensures AtLeast(paths[k], bytes, rtt) ==>
      forall l :: l in paths && l !in todo - {k} ==> NoBetter(paths[l], Bytes(paths[k]), SquaredRTT(paths[k]))
    ensures !AtLeast(paths[k], bytes, rtt) ==>
      forall l :: l in paths && l !in todo - {k} ==> NoBetter(paths[l], bytes, rtt)
  {
    if bytes == 0 && rtt == 0 && todo == paths.Keys {
      FirstTaken(paths[k]);
    } else {
      var best :| best in paths && bytes == Bytes(paths[best]) && rtt == SquaredRTT(paths[best]);
      Exact(paths[k], paths[best]);
      if AtLeast(paths[k], bytes, rtt) {
        forall l | l in paths && l !in todo - {k} ensures NoBetter(paths[l], Bytes(paths[k]), SquaredRTT(paths[k])) {
          if l != k {
            assert Comparable(paths[l], paths[l]) && Comparable(paths[k], paths[k]) &&
                Comparable(paths[best], paths[best]);
            Transitive(Bytes(paths[k]), SquaredRTT(paths[k]), bytes, rtt, Bytes(paths[l]), SquaredRTT(paths[l]));
          }
        }
      }
    }
  }

  /** Without overflow the test compares the ratios. */
  lemma Exact(p: Path, q: Path)
    requires Comparable(p, q) && Comparable(q, p)
    ensures AtLeast(p, Bytes(q), SquaredRTT(q)) <==> Bytes(p) * SquaredRTT(q) >= Bytes(q) * SquaredRTT(p)
  {
  }

  lemma LargestExists(paths: map<PathID, Path>, maxCwnd: nat)
    requires IsMaxCwnd(paths, maxCwnd)
    ensures paths.Keys != {} ==> Largest(paths, maxCwnd) != {}
  {
    if paths.Keys != {} {
      var k :| k in paths && paths[k].cwnd == maxCwnd;
      assert k in Largest(paths, maxCwnd);
    }
  }

  /** How many paths of s have been visited, as a byte. */
  ghost function Visited(s: set<PathID>, todo: set<PathID>): nat {
    Uint8(|s - todo|)
  }

  lemma Visit(s: set<PathID>, todo: set<PathID>, k: PathID)
    requires k in todo
    ensures Visited(s, todo - {k}) == if k in s then Uint8(Visited(s, todo) + 1) else Visited(s, todo)
  {
    if k in s {
      assert s - (todo - {k}) == (s - todo) + {k};
    } else {
      assert s - (todo - {k}) == s - todo;
    }
  }

  lemma NoneVisited(s: set<PathID>, all: set<PathID>)
    requires s <= all
    ensures Visited(s, all) == 0
  {
    assert s - all == {};
  }

  lemma AllVisited(s: set<PathID>)
    ensures Visited(s, {}) == Uint8(|s|)
  {
    assert s - {} == s;
  }

  /** The wrapped counters are exact whenever they matter. */
  lemma SizesFit(keys: set<PathID>, m: set<PathID>, b: set<PathID>)
    requires m <= keys && b <= keys && m !! b && (keys != {} ==> m != {})
    ensures (Uint8(|b|) == 0 <==> b == {})
    ensures b != {} ==> Uint8(|b|) == |b| && Uint8(|m|) == |m|
  {
    AtMost256(keys);
    assert m + b <= keys;
    SubsetSize(m + b, keys);
    assert |m + b| == |m| + |b|;
  }

  lemma SubsetSize(a: set<PathID>, b: set<PathID>)
    requires a <= b
    ensures |a| <= |b|
  {
    assert b == a + (b - a);
  }

  lemma AtMost256(keys: set<PathID>)
    ensures |keys| <= 256
  {
    var all: set<PathID> := Below(256);
    SubsetSize(keys, all);
  }

  ghost function Below(n: nat): (s: set<PathID>)
    requires n <= 256
    ensures |s| == n && forall k: PathID :: k in s <==> k < n
  {
    if n == 0 then {} else Below(n - 1) + {n - 1}
  }

  // ----- the shares cancel out -----

  function Value(e: Epsilon): real
    requires e.den > 0
  {
    e.num as real / e.den as real
  }

  /** The sum of epsilon over the paths in the order given. */
  function Sum(order: seq<PathID>, denM: nat, denB: nat, m: set<PathID>, b: set<PathID>): real
    requires b != {} ==> denM > 0 && denB > 0
    decreases |order|
  {
    if order == [] then 0.0 else Value(Assigned(denM, denB, m, b, order[0])) + Sum(order[1..], denM, denB, m, b)
  }

  /** How many of the paths in `order` are in s. */
  function Count(order: seq<PathID>, s: set<PathID>): nat
    decreases |order|
  {
    if order == [] then 0 else (if order[0] in s then 1 else 0) + Count(order[1..], s)
  }

  lemma {:induction false} CountAll(order: seq<PathID>, s: set<PathID>)
    requires Distinct(order) && forall k :: k in s ==> k in order
    ensures Count(order, s) == |s|
    decreases |order|
  {
    if order == [] {
      assert s == {};
    } else {
      var x := order[0];
      DistinctTail(order);
      forall k | k in s - {x} ensures k in order[1..] {
        assert k in order;
      }
      CountAll(order[1..], s - {x});
      CountWithout(order[1..], s, x);
      if x in s { assert s == (s - {x}) + {x}; } else { assert s - {x} == s; }
    }
  }

  lemma {:induction false} CountWithout(order: seq<PathID>, s: set<PathID>, x: PathID)
    requires x !in order
    ensures Count(order, s) == Count(order, s - {x})
    decreases |order|
  {
    if order != [] {
      assert order[0] in order;
      CountWithout(order[1..], s, x);
    }
  }

  lemma {:induction false} SumByCount(order: seq<PathID>, denM: nat, denB: nat, m: set<PathID>, b: set<PathID>,
      u: real, v: real)
    requires b != {} && m !! b && denM > 0 && denB > 0
    requires Value(Epsilon(1, denB)) == u && Value(Epsilon(-1, denM)) == -v && Value(Epsilon(0, 1)) == 0.0
    ensures Sum(order, denM, denB, m, b) == Times(Count(order, b), u) - Times(Count(order, m), v)
    decreases |order|
  {
    if order != [] {
      SumByCount(order[1..], denM, denB, m, b, u, v);
    }
  }

  /** u added up c times. */
  function Times(c: nat, u: real): real {
    if c == 0 then 0.0 else Times(c - 1, u) + u
  }

  lemma {:induction false} TimesIs(c: nat, u: real)
    ensures Times(c, u) == c as real * u
  {
    if c > 0 {
      TimesIs(c - 1, u);
      assert c as real == (c - 1) as real + 1.0;
      assert ((c - 1) as real + 1.0) * u == (c - 1) as real * u + u;
    }
  }

  /** c shares of 1/(n*c) make 1/n. */
  lemma Shares(n: nat, c: nat)
    requires n > 0 && c > 0
    ensures n * c > 0
    ensures Times(c, Value(Epsilon(1, n * c))) == 1.0 / n as real
    ensures Value(Epsilon(-1, n * c)) == -Value(Epsilon(1, n * c))
  {
    TimesIs(c, Value(Epsilon(1, n * c)));
    var x, y := n as real, c as real;
    assert (n * c) as real == x * y;
    assert y * (1.0 / (x * y)) == 1.0 / x;
  }

  /**
   Zero sum: for any paths, windows, round-trip times and losses, whatever test decides which paths are best,
   and in whatever order the terms are added, the shares of all paths add up to exactly 0 and no denominator is 0.
   */
  lemma ZeroSum(paths: map<PathID, Path>, maxCwnd: nat, best: Path -> bool, order: seq<PathID>)
    requires IsMaxCwnd(paths, maxCwnd)
    requires Distinct(order) && forall k :: k in order <==> k in paths
    ensures forall k :: k in paths ==> Shared(paths, maxCwnd, best)[k].den > 0
    ensures SumOf(order, Shared(paths, maxCwnd, best)) == 0.0
  {
    var m, b := Largest(paths, maxCwnd), BestOthers(paths, maxCwnd, best);
    var denM, denB := |paths| * |m|, |paths| * |b|;
    LargestExists(paths, maxCwnd);
    if b == {} {
      SumOfNothing(order, denM, denB, m);
    } else {
      SubsetSize(b, paths.Keys);
      Shares(|paths|, |b|);
      Shares(|paths|, |m|);
      SumByCount(order, denM, denB, m, b, Value(Epsilon(1, denB)), Value(Epsilon(1, denM)));
      CountAll(order, b);
      CountAll(order, m);
    }
    SumsAgree(paths, maxCwnd, best, order);
  }

  /** The sum of the shares of the paths in the order given. */
  ghost function SumOf(order: seq<PathID>, shares: map<PathID, Epsilon>): real
    requires forall k :: k in order ==> k in shares && shares[k].den > 0
    decreases |order|
  {
    if order == [] then 0.0 else
      assert order[0] in order;
      Value(shares[order[0]]) + SumOf(order[1..], shares)
  }

  lemma {:induction false} SumsAgree(paths: map<PathID, Path>, maxCwnd: nat, best: Path -> bool, order: seq<PathID>)
    requires forall k :: k in order ==> k in paths && Shared(paths, maxCwnd, best)[k].den > 0
    requires var m, b := Largest(paths, maxCwnd), BestOthers(paths, maxCwnd, best);
      b != {} ==> |paths| * |m| > 0 && |paths| * |b| > 0
    ensures var m, b := Largest(paths, maxCwnd), BestOthers(paths, maxCwnd, best);
      SumOf(order, Shared(paths, maxCwnd, best)) == Sum(order, |paths| * |m|, |paths| * |b|, m, b)
    decreases |order|
  {
    if order != [] {
      assert order[0] in order;
      SumsAgree(paths, maxCwnd, best, order[1..]);
    }
  }

  lemma {:induction false} SumOfNothing(order: seq<PathID>, denM: nat, denB: nat, m: set<PathID>)
    ensures Sum(order, denM, denB, m, {}) == 0.0
    decreases |order|
  {
    if order != [] {
      SumOfNothing(order[1..], denM, denB, m);
    }
  }
}
