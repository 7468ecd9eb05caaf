/** One round over the open streams: the crypto and the header stream first, then the others from the index on. */
module RoundRobin {
  import opened Basics
  import opened StreamsMap

  /** What the callback says after a stream. */
  datatype Reply = Continue | Stop | Fail

  predicate Special(id: nat) { id == 1 || id == 3 }

  /** The list from place i + start on, once around. */
  function Around(ids: seq<nat>, start: nat, i: nat): seq<nat>
    decreases if i < |ids| then |ids| - i else 0
  {
    if i >= |ids| then [] else [ids[(i + start) % |ids|]] + Around(ids, start, i + 1)
  }

  function Others(ids: seq<nat>): seq<nat> {
    if ids == [] then [] else if Special(ids[0]) then Others(ids[1..]) else [ids[0]] + Others(ids[1..])
  }

  function If(s: Streams, id: nat): seq<nat> { if id in s.streams then [id] else [] }

  /** The order in which a round takes the streams. */
  function Order(s: Streams): seq<nat> { If(s, 1) + If(s, 3) + Others(Around(s.listing, s.index, 0)) }

  /** As far as the callback lets it go. */
  function Until(ids: seq<nat>, reply: nat -> Reply): seq<nat> {
    if ids == [] then [] else if reply(ids[0]).Continue? then [ids[0]] + Until(ids[1..], reply) else [ids[0]]
  }

  // ----- each stream once -----

  lemma {:induction false} AroundAt(ids: seq<nat>, start: nat, i: nat, j: nat)
    requires i + j < |ids|
    ensures |Around(ids, start, i)| == |ids| - i
    ensures Around(ids, start, i)[j] == ids[(i + j + start) % |ids|]
    decreases |ids| - i
  {
    if i + 1 < |ids| {
      AroundAt(ids, start, i + 1, if j == 0 then 0 else j - 1);
    }
  }

  lemma Wraps(x: nat, start: nat, n: nat)
    requires x < n
    ensures var k := start % n; (x + start) % n == if k + x < n then k + x else k + x - n
  {
    var k, q := start % n, start / n;
    assert x + start == (x + k) + q * n;
    if k + x < n {
      Remainder(x + start, n, q, k + x);
    } else {
      assert x + start == (x + k - n) + (q + 1) * n;
      Remainder(x + start, n, q + 1, k + x - n);
    }
  }

  lemma Remainder(x: nat, n: nat, q: nat, r: nat)
    requires r < n && x == r + q * n
    ensures x % n == r
  {
    var d := x / n - q;
    assert x == (x / n) * n + x % n;
    assert d * n == r - x % n;
    AtLeastOnce(d, n);
  }

  lemma AtLeastOnce(d: int, n: int)
    requires n > 0
    ensures d >= 1 ==> d * n >= n
    ensures d <= -1 ==> d * n <= -n
  {
  }

  /** Going around is the list turned by the index. */
  lemma AroundTurns(ids: seq<nat>, start: nat)
    requires ids != []
    ensures var k := start % |ids|; Around(ids, start, 0) == ids[k..] + ids[..k]
  {
    var k := start % |ids|;
    var turned := ids[k..] + ids[..k];
    AroundAt(ids, start, 0, 0);
    forall j: nat | j < |ids|
      ensures Around(ids, start, 0)[j] == turned[j]
    {
      AroundAt(ids, start, 0, j);
      Wraps(j, start, |ids|);
    }
  }

  lemma AroundMultiset(ids: seq<nat>, start: nat)
    ensures multiset(Around(ids, start, 0)) == multiset(ids)
  {
    if ids != [] {
      var k := start % |ids|;
      AroundTurns(ids, start);
      assert ids == ids[..k] + ids[k..];
    }
  }

  lemma {:induction false} OthersMultiset(ids: seq<nat>, id: nat)
    ensures multiset(Others(ids))[id] == if Special(id) then 0 else multiset(ids)[id]
  {
    if ids != [] {
      assert ids == [ids[0]] + ids[1..];
      OthersMultiset(ids[1..], id);
    }
  }

  /** A round that is not stopped takes every open stream exactly once, and nothing else. */
  lemma OrderOnce(s: Streams, id: nat)
    requires Listed(s)
    ensures multiset(Order(s))[id] == if id in s.streams then 1 else 0
  {
    var around := Around(s.listing, s.index, 0);
    AroundMultiset(s.listing, s.index);
    OthersMultiset(around, id);
    assert multiset(If(s, 1) + If(s, 3))[id] == if Special(id) && id in s.streams then 1 else 0;
    assert id in s.listing <==> multiset(s.listing)[id] > 0;
  }

  /** The callback lets the round go on after each of them. */
  predicate AllContinue(ids: seq<nat>, reply: nat -> Reply) {
    ids != [] ==> reply(ids[0]).Continue? && AllContinue(ids[1..], reply)
  }

  lemma {:induction false} UntilAll(ids: seq<nat>, reply: nat -> Reply)
    requires AllContinue(ids, reply)
    ensures Until(ids, reply) == ids
  {
    if ids != [] {
      UntilAll(ids[1..], reply);
    }
  }

  /** Otherwise it takes a part of the same order, and everything but the last reply was to go on. */
  lemma {:induction false} UntilPrefix(ids: seq<nat>, reply: nat -> Reply)
    ensures Until(ids, reply) <= ids
    ensures forall i: nat :: i + 1 < |Until(ids, reply)| ==> reply(Until(ids, reply)[i]).Continue?
    ensures var taken := Until(ids, reply); taken != ids ==> taken != [] && !reply(taken[|taken| - 1]).Continue?
  {
    if ids != [] && reply(ids[0]).Continue? {
      UntilPrefix(ids[1..], reply);
      var rest := Until(ids[1..], reply);
      forall i: nat | i + 1 < |[ids[0]] + rest|
        ensures reply(([ids[0]] + rest)[i]).Continue?
      {
        assert i > 0 ==> ([ids[0]] + rest)[i] == rest[i - 1];
      }
      assert ids == [ids[0]] + ids[1..];
    }
  }

  lemma {:induction false} UntilConcat(a: seq<nat>, b: seq<nat>, reply: nat -> Reply)
    ensures Until(a + b, reply) ==
            if AllContinue(a, reply) then a + Until(b, reply) else Until(a, reply)
  {
    if a == [] {
      assert a + b == b;
    } else {
      assert (a + b)[1..] == a[1..] + b;
      UntilConcat(a[1..], b, reply);
      Regroup(a, Until(b, reply));
    }
  }

  lemma Regroup(a: seq<nat>, b: seq<nat>)
    requires a != []
    ensures [a[0]] + (a[1..] + b) == a + b
  {
  }

  // ----- where the next round starts -----

  /** The streams that move the index on: those after which the callback did not fail, but not the special two. */
  function Moves(ids: seq<nat>, reply: nat -> Reply): nat {
    if ids == [] then 0
    else (if Special(ids[0]) || reply(ids[0]).Fail? then 0 else 1) + Moves(ids[1..], reply)
  }

  lemma {:induction false} MovesConcat(a: seq<nat>, b: seq<nat>, reply: nat -> Reply)
    ensures Moves(a + b, reply) == Moves(a, reply) + Moves(b, reply)
  {
    if a == [] {
      assert a + b == b;
    } else {
      assert (a + b)[1..] == a[1..] + b;
      MovesConcat(a[1..], b, reply);
    }
  }

  lemma TurnedStep(index: nat, moves: nat, n: nat)
    requires n > 0
    ensures (Turned(index, moves, n) + 1) % n == Turned(index, moves + 1, n)
  {
    if moves > 0 {
      ModStep(index + moves, n);
    }
  }

  lemma ModStep(x: nat, n: nat)
    requires n > 0
    ensures (x % n + 1) % n == (x + 1) % n
  {
    var r, q := x % n, x / n;
    assert x == r + q * n;
    if r + 1 < n {
      Remainder(x + 1, n, q, r + 1);
    } else {
      assert (q + 1) * n == q * n + n;
      Remainder(x + 1, n, q + 1, 0);
    }
  }

  // ----- whose turn it is -----

  /** How many of the two special streams there are. */
  function Specials(ids: seq<nat>): nat {
    if ids == [] then 0 else (if Special(ids[0]) then 1 else 0) + Specials(ids[1..])
  }

  lemma {:induction false} OthersCount(ids: seq<nat>)
    ensures |Others(ids)| + Specials(ids) == |ids|
  {
    if ids != [] {
      OthersCount(ids[1..]);
    }
  }

  lemma {:induction false} SpecialsBefore(ids: seq<nat>)
    requires ids != [] && !Special(ids[|ids| - 1])
    ensures Specials(ids) < |ids|
  {
    if |ids| > 1 {
      SpecialsBefore(ids[1..]);
    }
  }

  lemma {:induction false} NoSpecials(ids: seq<nat>)
    ensures Specials(ids) == 0 <==> forall id <- ids :: !Special(id)
  {
    if ids != [] {
      NoSpecials(ids[1..]);
      assert ids == [ids[0]] + ids[1..];
    }
  }

  lemma AroundSize(ids: seq<nat>, start: nat)
    ensures |Around(ids, start, 0)| == |ids|
  {
    if ids != [] {
      AroundAt(ids, start, 0, 0);
    }
  }

  lemma SameRemainder(a: nat, b: nat, n: nat)
    requires a <= b < a + n
    ensures a % n == b % n <==> a == b
  {
    if a % n == b % n {
      var q := b / n - a / n;
      assert b == (b / n) * n + b % n && a == (a / n) * n + a % n;
      assert q * n == b - a;
      AtLeastOnce(q, n);
    }
  }

  /**
   * A round that stops after the stream p places from its index has served the streams up to there except 1 and 3.
   * The index moves to the place after it if and only if neither of the two was passed on the way.
   */
  lemma TurnExact(s: Streams, p: nat)
    requires p < |Around(s.listing, s.index, 0)|
    requires !Special(Around(s.listing, s.index, 0)[p])
    ensures p < |s.listing| == |Around(s.listing, s.index, 0)|
    ensures var n := |s.listing|; var passed := Around(s.listing, s.index, 0)[..p + 1];
            var next := Turned(s.index, |Others(passed)|, n);
            && next == (s.index + p + 1 - Specials(passed)) % n
            && (next == (s.index + p + 1) % n <==> forall id <- passed :: !Special(id))
  {
    var passed := Around(s.listing, s.index, 0)[..p + 1];
    AroundSize(s.listing, s.index);
    OthersCount(passed);
    SpecialsBefore(passed);
    NoSpecials(passed);
    SameRemainder(s.index + p + 1 - Specials(passed), s.index + p + 1, |s.listing|);
  }

  lemma {:induction false} OthersConcat(a: seq<nat>, b: seq<nat>)
    ensures Others(a + b) == Others(a) + Others(b)
  {
    if a == [] {
      assert a + b == b;
    } else {
      assert (a + b)[1..] == a[1..] + b;
      OthersConcat(a[1..], b);
      Assoc([a[0]], Others(a[1..]), Others(b));
    }
  }

  /** The callback lets the round go on after all but the last of these, and stops it there. */
  predicate StopsAt(ids: seq<nat>, reply: nat -> Reply) {
    ids != [] && AllContinue(ids[..|ids| - 1], reply) && reply(ids[|ids| - 1]).Stop?
  }

  lemma UntilStops(ids: seq<nat>, rest: seq<nat>, reply: nat -> Reply)
    requires StopsAt(ids, reply)
    ensures Until(ids + rest, reply) == ids
  {
    var before, last := ids[..|ids| - 1], ids[|ids| - 1];
    assert ids + rest == before + ([last] + rest);
    UntilConcat(before, [last] + rest, reply);
    assert before + [last] == ids;
  }

  /** The others move the index on, one place each, as long as the callback does not fail. */
  lemma {:induction false} MovesContinue(ids: seq<nat>, reply: nat -> Reply)
    requires AllContinue(ids, reply)
    ensures Moves(ids, reply) + Specials(ids) == |ids|
  {
    if ids != [] {
      MovesContinue(ids[1..], reply);
    }
  }

  lemma MovesStop(ids: seq<nat>, reply: nat -> Reply)
    requires StopsAt(ids, reply) && Specials(ids) == 0
    ensures Moves(ids, reply) == |ids|
  {
    var before, last := ids[..|ids| - 1], [ids[|ids| - 1]];
    assert ids == before + last;
    NoSpecials(ids);
    NoSpecials(before);
    MovesContinue(before, reply);
    MovesConcat(before, last, reply);
    assert !Special(last[0]) by { assert ids[|ids| - 1] in ids; }
    assert Moves(last, reply) == 1;
  }

  lemma {:induction false} OthersPlain(ids: seq<nat>)
    ensures Specials(Others(ids)) == 0
  {
    if ids != [] {
      OthersPlain(ids[1..]);
      if !Special(ids[0]) {
        assert Others(ids)[1..] == Others(ids[1..]);
      }
    }
  }

  /** What a round serves that is stopped after the stream p places from its index, and how far the index moves. */
  lemma StoppedRound(s: Streams, p: nat, reply: nat -> Reply)
    requires p < |Around(s.listing, s.index, 0)|
    requires var served := Others(Around(s.listing, s.index, 0)[..p + 1]);
             AllContinue(If(s, 1) + If(s, 3), reply) && StopsAt(served, reply)
    ensures var served := Others(Around(s.listing, s.index, 0)[..p + 1]);
            && Until(Order(s), reply) == If(s, 1) + If(s, 3) + served
            && Moves(Until(Order(s), reply), reply) == |served|
  {
    var around := Around(s.listing, s.index, 0);
    var first, served, rest := If(s, 1) + If(s, 3), Others(around[..p + 1]), Others(around[p + 1..]);
    assert around == around[..p + 1] + around[p + 1..];
    OthersConcat(around[..p + 1], around[p + 1..]);
    UntilConcat(first, served + rest, reply);
    UntilStops(served, rest, reply);
    OthersPlain(around[..p + 1]);
    MovesStop(served, reply);
    MovesConcat(first, served, reply);
    SpecialsFirst(s, reply);
  }

  /** The callback lets the round go on after all but the last of these, and fails there. */
  predicate FailsAt(ids: seq<nat>, reply: nat -> Reply) {
    ids != [] && AllContinue(ids[..|ids| - 1], reply) && reply(ids[|ids| - 1]).Fail?
  }

  /** A round in which the callback fails serves as far as that, and the stream it failed at does not move the index. */
  lemma FailedRound(s: Streams, p: nat, reply: nat -> Reply)
    requires p < |Around(s.listing, s.index, 0)|
    requires var served := Others(Around(s.listing, s.index, 0)[..p + 1]);
             AllContinue(If(s, 1) + If(s, 3), reply) && FailsAt(served, reply)
    ensures var served := Others(Around(s.listing, s.index, 0)[..p + 1]);
            && Until(Order(s), reply) == If(s, 1) + If(s, 3) + served
            && Moves(Until(Order(s), reply), reply) == |served| - 1
  {
    var around := Around(s.listing, s.index, 0);
    var first, served, rest := If(s, 1) + If(s, 3), Others(around[..p + 1]), Others(around[p + 1..]);
    assert around == around[..p + 1] + around[p + 1..];
    OthersConcat(around[..p + 1], around[p + 1..]);
    UntilConcat(first, served + rest, reply);
    UntilFails(served, rest, reply);
    OthersPlain(around[..p + 1]);
    MovesFail(served, reply);
    MovesConcat(first, served, reply);
    SpecialsFirst(s, reply);
  }

  lemma UntilFails(ids: seq<nat>, rest: seq<nat>, reply: nat -> Reply)
    requires FailsAt(ids, reply)
    ensures Until(ids + rest, reply) == ids
  {
    var before, last := ids[..|ids| - 1], ids[|ids| - 1];
    assert ids + rest == before + ([last] + rest);
    UntilConcat(before, [last] + rest, reply);
    assert before + [last] == ids;
  }

  lemma MovesFail(ids: seq<nat>, reply: nat -> Reply)
    requires FailsAt(ids, reply) && Specials(ids) == 0
    ensures Moves(ids, reply) == |ids| - 1
  {
    var before, last := ids[..|ids| - 1], [ids[|ids| - 1]];
    assert ids == before + last;
    NoSpecials(ids);
    NoSpecials(before);
    MovesContinue(before, reply);
    MovesConcat(before, last, reply);
    assert Moves(last, reply) == 0;
  }

  lemma SpecialsFirst(s: Streams, reply: nat -> Reply)
    ensures Moves(If(s, 1) + If(s, 3), reply) == 0
  {
    MovesConcat(If(s, 1), If(s, 3), reply);
  }

  // ----- who is served next -----

  /** Starting k places later only moves the first k streams to the end. */
  lemma AroundShift(ids: seq<nat>, start: nat, k: nat)
    requires k <= |ids|
    ensures |Around(ids, start, 0)| == |ids|
    ensures Around(ids, start + k, 0) == Around(ids, start, 0)[k..] + Around(ids, start, 0)[..k]
  {
    AroundSize(ids, start);
    AroundSize(ids, start + k);
    var a, b := Around(ids, start, 0), Around(ids, start + k, 0);
    forall j: nat | j < |ids|
      ensures b[j] == (a[k..] + a[..k])[j]
    {
      AroundAt(ids, start + k, 0, j);
      var i := if j + k < |ids| then j + k else j + k - |ids|;
      AroundAt(ids, start, 0, i);
      OnceAround(i + start, j + k + start, |ids|);
    }
  }

  lemma OnceAround(x: nat, y: nat, n: nat)
    requires n > 0 && (y == x || y == x + n)
    ensures x % n == y % n
  {
    Remainder(y, n, x / n + (if y == x then 0 else 1), x % n);
  }

  /** Only the place in the list matters, not how often it was gone around. */
  lemma AroundMod(ids: seq<nat>, start: nat)
    requires ids != []
    ensures Around(ids, start % |ids|, 0) == Around(ids, start, 0)
  {
    AroundTurns(ids, start);
    AroundTurns(ids, start % |ids|);
    Remainder(start % |ids|, |ids|, 0, start % |ids|);
  }

  lemma {:induction false} OthersSome(ids: seq<nat>)
    requires ids != [] && !Special(ids[|ids| - 1])
    ensures Others(ids) != []
  {
    if |ids| > 1 {
      OthersSome(ids[1..]);
    }
  }

  /** Two lists that have nothing in common make the same list in either order only if one of them is empty. */
  lemma Commute(a: seq<nat>, b: seq<nat>)
    requires Distinct(a + b)
    ensures a + b == b + a <==> a == [] || b == []
  {
    if a != [] && b != [] && a + b == b + a {
      assert (a + b)[0] == a[0] && (b + a)[0] == b[0];
      NotAgain(a, b, a[0]);
    }
  }

  lemma OthersDistinct(s: Streams, start: nat)
    requires Listed(s)
    ensures Distinct(Others(Around(s.listing, start, 0)))
  {
    var others := Others(Around(s.listing, start, 0));
    forall id | id in others
      ensures multiset(others)[id] == 1
    {
      assert multiset(others)[id] > 0;
      AroundMultiset(s.listing, start);
      OthersMultiset(Around(s.listing, start, 0), id);
      assert id in s.listing;
    }
  }

  /** The map after a round that served n streams other than 1 and 3. */
  function Moved(s: Streams, n: nat): Streams { s.(index := Turned(s.index, n, |s.listing|)) }

  /** The map with the index right behind the place p from it. */
  function Behind(s: Streams, p: nat): Streams
    requires s.listing != []
  {
    s.(index := (s.index + p + 1) % |s.listing|)
  }

  /**
   * Whom the next round serves. It goes on as if it began right after the stream served last if and only if neither 1
   * nor 3 was passed on the way, or no stream is left that does not lie in the places by which the index fell short.
   */
  lemma NextExact(s: Streams, p: nat, passed: seq<nat>, behind: seq<nat>)
    requires Listed(s) && p < |Around(s.listing, s.index, 0)| == |s.listing|
    requires passed == Around(s.listing, s.index, 0)[..p + 1] && !Special(Around(s.listing, s.index, 0)[p])
    requires behind == Around(s.listing, s.index + p + 1, 0)
    ensures Specials(passed) <= |behind|
    ensures Order(Moved(s, |Others(passed)|)) == Order(Behind(s, p)) <==>
            Specials(passed) == 0 || Others(behind[..|behind| - Specials(passed)]) == []
  {
    var k, next, after := IndexAfter(s, p, passed);
    var a := BehindExact(s, p, k, behind);
    SameOrder(next, after, a, behind);
  }

  lemma IndexAfter(s: Streams, p: nat, passed: seq<nat>) returns (k: nat, next: Streams, after: Streams)
    requires p < |Around(s.listing, s.index, 0)| == |s.listing| && passed == Around(s.listing, s.index, 0)[..p + 1]
    requires !Special(Around(s.listing, s.index, 0)[p])
    ensures k == Specials(passed) <= p && next == Moved(s, |Others(passed)|) && after == Behind(s, p)
    ensures Around(next.listing, next.index, 0) == Around(s.listing, s.index + p + 1 - k, 0)
    ensures Around(after.listing, after.index, 0) == Around(s.listing, s.index + p + 1, 0)
  {
    TurnExact(s, p);
    SpecialsBefore(passed);
    k, next, after := Specials(passed), Moved(s, |Others(passed)|), Behind(s, p);
    AroundMod(s.listing, s.index + p + 1 - k);
    AroundMod(s.listing, s.index + p + 1);
  }

  lemma SameOrder(s: Streams, t: Streams, a: seq<nat>, b: seq<nat>)
    requires s.streams == t.streams && a == Around(s.listing, s.index, 0) && b == Around(t.listing, t.index, 0)
    ensures Order(s) == Order(t) <==> Others(a) == Others(b)
  {
    SameStart(If(s, 1) + If(s, 3), Others(a), Others(b));
  }

  /** The k places before the one after p, and all the others. */
  lemma FallsShort(ids: seq<nat>, index: nat, p: nat, k: nat) returns (first: seq<nat>, rest: seq<nat>)
    requires p < |ids| == |Around(ids, index, 0)| && k <= p && !Special(Around(ids, index, 0)[p])
    ensures |first| == k && Around(ids, index + p + 1 - k, 0) == first + rest
    ensures Around(ids, index + p + 1, 0) == rest + first
    ensures k > 0 ==> !Special(first[k - 1])
  {
    AroundShift(ids, index + p + 1 - k, k);
    var a := Around(ids, index + p + 1 - k, 0);
    first, rest := a[..k], a[k..];
    if k > 0 {
      AroundAt(ids, index, 0, p);
      AroundAt(ids, index + p + 1 - k, 0, k - 1);
    }
  }

  lemma OthersCommute(first: seq<nat>, rest: seq<nat>)
    requires Distinct(Others(first + rest)) && (first != [] ==> !Special(first[|first| - 1]))
    ensures Others(first + rest) == Others(rest + first) <==> first == [] || Others(rest) == []
  {
    OthersConcat(first, rest);
    OthersConcat(rest, first);
    Commute(Others(first), Others(rest));
    if first != [] {
      OthersSome(first);
    }
  }

  lemma BehindExact(s: Streams, p: nat, k: nat, b: seq<nat>) returns (a: seq<nat>)
    requires Listed(s) && p < |s.listing| && k <= p
    requires |Around(s.listing, s.index, 0)| == |s.listing| && !Special(Around(s.listing, s.index, 0)[p])
    requires b == Around(s.listing, s.index + p + 1, 0)
    ensures a == Around(s.listing, s.index + p + 1 - k, 0)
    ensures |b| >= k && (Others(a) == Others(b) <==> k == 0 || Others(b[..|b| - k]) == [])
  {
    var first, rest := FallsShort(s.listing, s.index, p, k);
    OthersDistinct(s, s.index + p + 1 - k);
    OthersCommute(first, rest);
    WithoutEnd(rest, first);
    a := first + rest;
  }

  lemma WithoutEnd(a: seq<nat>, b: seq<nat>)
    ensures (a + b)[..|a + b| - |b|] == a
  {
  }

  lemma SameStart(a: seq<nat>, b: seq<nat>, c: seq<nat>)
    ensures a + b == a + c <==> b == c
  {
    assert (a + b)[|a|..] == b && (a + c)[|a|..] == c;
  }

  /** The peer opens streams up to 7: a round that stops after stream 5 is followed by one that serves 5 again. */
  lemma ServedAgain(maxIncoming: nat, reply: nat -> Reply)
    requires maxIncoming >= 4 && reply(1).Continue? && reply(3).Continue? && reply(5).Stop?
    ensures var s := After(Run(Fresh(true, maxIncoming), [], []), [Request(7)]).s;
            && Until(Order(s), reply) == [1, 3, 5]
            && var t := Moved(s, Moves([1, 3, 5], reply)); Until(Order(t), reply) == [1, 3, 5]
  {
    var s := FourOpen(maxIncoming);
    FiveAgain(s, reply);
  }

  lemma FourOpen(maxIncoming: nat) returns (k: Streams)
    requires maxIncoming >= 4
    ensures k == After(Run(Fresh(true, maxIncoming), [], []), [Request(7)]).s
    ensures k.listing == [1, 3, 5, 7] && k.index == 0 && k.streams == {1, 3, 5, 7}
  {
    var s := Fresh(true, maxIncoming);
    var r := Run(s, [], []);
    k := Get(s, 7);
    assert [Request(7)][1..] == [];
    assert After(r, [Request(7)]) == After(Then(r, Request(7)), []);
    var s1 := OpenRemote(s, 1);
    var s3 := OpenRemote(s1, 3);
    var s5 := OpenRemote(s3, 5);
    var s7 := OpenRemote(s5, 7);
    assert s1.listing == [1] && s3.listing == [1, 3] && s5.listing == [1, 3, 5] && s7.listing == [1, 3, 5, 7];
    assert OpenUpTo(s7, 9, 7) == (s7, Opened);
    assert OpenUpTo(s5, 7, 7) == OpenUpTo(s7, 9, 7);
    assert OpenUpTo(s3, 5, 7) == OpenUpTo(s5, 7, 7);
    assert OpenUpTo(s1, 3, 7) == OpenUpTo(s3, 5, 7);
    assert OpenUpTo(s, 1, 7) == OpenUpTo(s1, 3, 7);
  }

  lemma FiveAgain(s: Streams, reply: nat -> Reply)
    requires s.listing == [1, 3, 5, 7] && s.index == 0 && s.streams == {1, 3, 5, 7}
    requires reply(1).Continue? && reply(3).Continue? && reply(5).Stop?
    ensures Until(Order(s), reply) == [1, 3, 5] && Moves([1, 3, 5], reply) == 1
    ensures Until(Order(s.(index := Turned(0, 1, 4))), reply) == [1, 3, 5]
  {
    AroundTurns(s.listing, 0);
    AroundTurns(s.listing, 1);
    assert s.listing[0..] + s.listing[..0] == [1, 3, 5, 7];
    assert s.listing[1..] + s.listing[..1] == [3, 5, 7, 1];
    OthersOfFour(1, 3, 5, 7);
    OthersOfFour(3, 5, 7, 1);
    assert Order(s) == [1, 3, 5, 7] == Order(s.(index := 1));
    StopsAtFive(reply);
  }

  lemma StopsAtFive(reply: nat -> Reply)
    requires reply(1).Continue? && reply(3).Continue? && reply(5).Stop?
    ensures Until([1, 3, 5, 7], reply) == [1, 3, 5] && Moves([1, 3, 5], reply) == 1
  {
    assert [1, 3, 5, 7] == [1, 3] + [5, 7];
    UntilConcat([1, 3], [5, 7], reply);
    assert [1, 3][1..] == [3] && [3][1..] == [];
    assert [1, 3] + [5] == [1, 3, 5];
    MovesConcat([1, 3], [5], reply);
  }

  lemma OthersOfFour(a: nat, b: nat, c: nat, d: nat)
    ensures Others([a, b, c, d]) ==
            (if Special(a) then [] else [a]) + (if Special(b) then [] else [b]) +
            (if Special(c) then [] else [c]) + (if Special(d) then [] else [d])
  {
    assert [a, b, c, d] == [a] + ([b] + ([c] + [d]));
    OthersConcat([a], [b] + ([c] + [d]));
    OthersConcat([b], [c] + [d]);
    OthersConcat([c], [d]);
  }

  // ----- removing a stream -----

  function Drop(ids: seq<nat>, id: nat): seq<nat> {
    if ids == [] then [] else (if ids[0] == id then [] else [ids[0]]) + Drop(ids[1..], id)
  }

  lemma {:induction false} DropConcat(a: seq<nat>, b: seq<nat>, id: nat)
    ensures Drop(a + b, id) == Drop(a, id) + Drop(b, id)
  {
    if a == [] {
      assert a + b == b;
    } else {
      assert (a + b)[1..] == a[1..] + b;
      DropConcat(a[1..], b, id);
      Assoc(if a[0] == id then [] else [a[0]], Drop(a[1..], id), Drop(b, id));
    }
  }

  lemma {:induction false} DropNone(ids: seq<nat>, id: nat)
    requires id !in ids
    ensures Drop(ids, id) == ids
  {
    if ids != [] {
      DropNone(ids[1..], id);
    }
  }

  lemma {:induction false} DropOthers(ids: seq<nat>, id: nat)
    ensures Others(Drop(ids, id)) == Drop(Others(ids), id)
  {
    if ids != [] {
      DropOthers(ids[1..], id);
      var head := if ids[0] == id then [] else [ids[0]];
      OthersConcat(head, Drop(ids[1..], id));
      OthersConcat([ids[0]], ids[1..]);
      assert [ids[0]] + ids[1..] == ids;
      DropConcat(Others([ids[0]]), Others(ids[1..]), id);
    }
  }

  /** The list from place k on, and then its beginning. */
  function Rotated(ids: seq<nat>, k: nat): seq<nat>
    requires k <= |ids|
  {
    ids[k..] + ids[..k]
  }

  /** A list loses exactly the one entry that is x. */
  lemma DropAt(a: seq<nat>, x: nat, b: seq<nat>)
    requires x !in a && x !in b
    ensures Drop(a + [x] + b, x) == a + b
  {
    DropThree(a, [x], b, x);
    DropNone(a, x);
    DropNone(b, x);
    DropOne(x);
    NothingBetween(a, b);
  }

  lemma DropOne(x: nat)
    ensures Drop([x], x) == []
  {
    assert [x][1..] == [];
  }

  lemma NothingBetween(a: seq<nat>, b: seq<nat>)
    ensures a + [] + b == a + b
  {
  }

  lemma Elsewhere(ids: seq<nat>, i: nat)
    requires Distinct(ids) && i < |ids|
    ensures ids[i] !in ids[..i] && ids[i] !in ids[i + 1..]
  {
    DistinctWithout(ids, i);
    Halves(ids[..i], ids[i + 1..], ids[i]);
  }

  lemma Halves(a: seq<nat>, b: seq<nat>, x: nat)
    ensures x in a + b <==> x in a || x in b
  {
  }

  /** The removed stream lies before the index. */
  lemma RotatedBefore(ids: seq<nat>, k: nat, i: nat)
    requires Distinct(ids) && i < k <= |ids|
    ensures Drop(Rotated(ids, k), ids[i]) == Rotated(Without(ids, i), k - 1)
  {
    var x, a, b, c := ids[i], ids[..i], ids[i + 1..k], ids[k..];
    Elsewhere(ids, i);
    Halves(b, c, x);
    CutBefore(ids, k, i);
    DropConcat(c, a + [x] + b, x);
    DropNone(c, x);
    DropAt(a, x, b);
  }

  lemma CutBefore(ids: seq<nat>, k: nat, i: nat)
    requires i < k <= |ids|
    ensures ids[..k] == ids[..i] + [ids[i]] + ids[i + 1..k] && ids[i + 1..] == ids[i + 1..k] + ids[k..]
    ensures Without(ids, i)[k - 1..] == ids[k..] && Without(ids, i)[..k - 1] == ids[..i] + ids[i + 1..k]
  {
  }

  /** It lies at the index or behind. */
  lemma RotatedAfter(ids: seq<nat>, k: nat, i: nat)
    requires Distinct(ids) && k <= i < |ids|
    ensures Drop(Rotated(ids, k), ids[i]) == Rotated(Without(ids, i), k)
  {
    var x, a, b, c := ids[i], ids[..k], ids[k..i], ids[i + 1..];
    Elsewhere(ids, i);
    Halves(a, b, x);
    CutAfter(ids, k, i);
    DropConcat(b + [x] + c, a, x);
    DropNone(a, x);
    DropAt(b, x, c);
  }

  lemma CutAfter(ids: seq<nat>, k: nat, i: nat)
    requires k <= i < |ids|
    ensures ids[k..] == ids[k..i] + [ids[i]] + ids[i + 1..] && ids[..i] == ids[..k] + ids[k..i]
    ensures Without(ids, i)[k..] == ids[k..i] + ids[i + 1..] && Without(ids, i)[..k] == ids[..k]
  {
  }

  /** An index at the end of the list is the same as one at its beginning. */
  lemma AroundIs(ids: seq<nat>, k: nat)
    requires k <= |ids|
    ensures Around(ids, k, 0) == Rotated(ids, k)
  {
    if k < |ids| {
      Remainder(k, |ids|, 0, k);
      AroundTurns(ids, k);
    } else if k > 0 {
      Remainder(k, |ids|, 1, 0);
      AroundTurns(ids, k);
      RotatedEnd(ids);
    }
  }

  lemma RotatedEnd(ids: seq<nat>)
    ensures Rotated(ids, |ids|) == Rotated(ids, 0)
  {
  }

  /** Removing a stream, wherever the index is, takes it out of the order of the next round and changes nothing else. */
  lemma RemoveKeepsOrder(s: Streams, id: nat)
    requires Listed(s) && id in s.streams && s.index <= |s.listing|
    ensures Order(Remove(s, id)) == Drop(Order(s), id)
  {
    var around := Around(s.listing, s.index, 0);
    assert Around(Remove(s, id).listing, Remove(s, id).index, 0) == Drop(around, id) by { RemoveAround(s, id); }
    DropOthers(around, id);
    DropIf(s, id, 1);
    DropIf(s, id, 3);
    DropThree(If(s, 1), If(s, 3), Others(around), id);
  }

  lemma DropIf(s: Streams, id: nat, x: nat)
    ensures Drop(If(s, x), id) == If(Remove(s, id), x)
  {
  }

  lemma DropThree(a: seq<nat>, b: seq<nat>, c: seq<nat>, id: nat)
    ensures Drop(a + b + c, id) == Drop(a, id) + Drop(b, id) + Drop(c, id)
  {
    DropConcat(a + b, c, id);
    DropConcat(a, b, id);
  }

  lemma RemoveAround(s: Streams, id: nat)
    requires Listed(s) && id in s.streams && s.index <= |s.listing|
    ensures var t := Remove(s, id); Around(t.listing, t.index, 0) == Drop(Around(s.listing, s.index, 0), id)
  {
    var i := Place(s.listing, id);
    AroundIs(s.listing, s.index);
    if i < s.index {
      RotatedBefore(s.listing, s.index, i);
      AroundIs(Without(s.listing, i), s.index - 1);
    } else {
      RotatedAfter(s.listing, s.index, i);
      AroundIs(Without(s.listing, i), s.index);
    }
  }
}
