/** Streams that the peer opens: identifiers four apart, and a limit that moves as streams are closed. */
module IncomingStreams {
  import opened Basics

  /** The identifiers first, first + 4, ... below `end`. */
  function Stepped(first: nat, end: nat): (ids: seq<nat>)
    decreases if first < end then end - first else 0
  {
    if first >= end then [] else [first] + Stepped(first + 4, end)
  }

  datatype Incoming = Incoming(
    first: nat,
    maxNum: nat,
    streams: set<nat>,
    next: nat,
    highest: nat,
    max: nat)

  datatype Answer = Refused | Found(stream: Option<nat>)

  function Start(m: Incoming): nat { if m.highest == 0 then m.next else m.highest + 4 }

  /** The streams that a request for `id` opens. */
  function Created(m: Incoming, id: nat): seq<nat> {
    if id > m.max || id <= m.highest then [] else Stepped(Start(m), id + 1)
  }

  function Lookup(streams: set<nat>, id: nat): Option<nat> { if id in streams then Some(id) else None }

  function GetOrOpen(m: Incoming, id: nat): Incoming {
    if id > m.max || id <= m.highest then m
    else m.(streams := m.streams + Elements(Created(m, id)), highest := id)
  }

  function Answered(m: Incoming, id: nat): Answer {
    if id > m.max then Refused else Found(Lookup(GetOrOpen(m, id).streams, id))
  }

  function Elements(ids: seq<nat>): set<nat> { set id | id in ids }

  function Delete(m: Incoming, id: nat): Incoming {
    if id !in m.streams then m
    else
      var rest := m.streams - {id};
      if m.maxNum > |rest| then m.(streams := rest, max := m.highest + 4 * (m.maxNum - |rest|))
      else m.(streams := rest)
  }

  function Accept(m: Incoming): Incoming { if m.next in m.streams then m.(next := m.next + 4) else m }

  /** As the map is made: 4, 1, 2 or 3 is the first identifier, and zero streams means a limit of zero. */
  function Fresh(first: nat, maxNum: nat): Incoming {
    Incoming(first, maxNum, {}, first, 0, if maxNum == 0 then 0 else first + 4 * (maxNum - 1))
  }

  // ----- what every run keeps -----

  /** How many streams the peer has opened. */
  function Opened(m: Incoming): nat {
    if m.highest < m.first then 0 else (m.highest - m.first) / 4 + 1
  }

  predicate Alike(m: Incoming, id: nat) { id >= m.first && (id - m.first) % 4 == 0 }

  /** The identifiers that mark what was opened and accepted are of the map's kind. */
  predicate Marked(m: Incoming) {
    && 1 <= m.first <= 4
    && (m.highest == 0 || Alike(m, m.highest))
    && (m.highest == 0 ==> m.next == m.first)
    && Alike(m, m.next) && (m.next == m.first || m.next <= m.highest + 4)
  }

  predicate Shaped(m: Incoming) { Marked(m) && forall id <- m.streams :: Alike(m, id) && id <= m.highest }

  /** The peer may open exactly as many streams as the limit allows, and one more for each that was closed. */
  predicate Limited(m: Incoming) {
    && |m.streams| <= m.maxNum && |m.streams| <= Opened(m)
    && (m.maxNum > 0 ==> m.max == m.first + 4 * (m.maxNum - 1 + Opened(m) - |m.streams|))
    && (m.maxNum == 0 ==> m.max == 0 && m.highest == 0)
  }

  predicate Inv(m: Incoming) { Shaped(m) && Limited(m) }

  predicate Between(first: nat, end: nat, id: nat) { first <= id < end && (id - first) % 4 == 0 }

  lemma BetweenStep(first: nat, end: nat, id: nat)
    requires first < end
    ensures Between(first, end, id) <==> id == first || Between(first + 4, end, id)
  {
  }

  lemma {:induction false} SteppedMembers(first: nat, end: nat, id: nat)
    ensures id in Stepped(first, end) <==> Between(first, end, id)
    decreases if first < end then end - first else 0
  {
    if first < end {
      SteppedMembers(first + 4, end, id);
      BetweenStep(first, end, id);
      HeadOrTail(first, Stepped(first + 4, end), id);
    }
  }

  lemma HeadOrTail(x: nat, rest: seq<nat>, id: nat)
    ensures id in [x] + rest <==> id == x || id in rest
  {
  }

  lemma {:induction false} SteppedCount(first: nat, last: nat)
    requires first <= last && (last - first) % 4 == 0
    ensures |Elements(Stepped(first, last + 1))| == (last - first) / 4 + 1 == |Stepped(first, last + 1)|
    decreases last - first
  {
    var rest := Stepped(first + 4, last + 1);
    if first + 4 <= last {
      SteppedCount(first + 4, last);
      assert (last - first) / 4 == (last - (first + 4)) / 4 + 1;
    } else {
      assert Elements(rest) == {};
    }
    SteppedMembers(first + 4, last + 1, first);
    ElementsMore(first, rest);
  }

  lemma ElementsMore(x: nat, rest: seq<nat>)
    requires x !in rest
    ensures |Elements([x] + rest)| == 1 + |Elements(rest)|
  {
    ElementsCons(x, rest);
  }

  lemma Union(a: set<nat>, b: set<nat>)
    requires a !! b
    ensures |a + b| == |a| + |b|
  {
  }

  /** Where the streams that a request opens lie, and how many there are. */
  lemma Positions(first: nat, highest: nat, start: nat, id: nat)
    requires 1 <= first && highest < id && first <= id && (id - first) % 4 == 0
    requires highest == 0 || (first <= highest && (highest - first) % 4 == 0)
    requires start == if highest == 0 then first else highest + 4
    ensures first <= start <= id && (start - first) % 4 == 0 && (id - start) % 4 == 0
    ensures (id - first) / 4 == (if highest < first then 0 else (highest - first) / 4 + 1) + (id - start) / 4
  {
  }

  lemma StartIs(m: Incoming, id: nat)
    requires Inv(m) && Alike(m, id) && m.highest < id <= m.max
    ensures m.first <= Start(m) <= id && (Start(m) - m.first) % 4 == 0 && (id - Start(m)) % 4 == 0
    ensures Opened(m.(highest := id)) == Opened(m) + ((id - Start(m)) / 4 + 1)
  {
    Positions(m.first, m.highest, Start(m), id);
  }

  lemma NewOnes(m: Incoming, id: nat)
    requires Inv(m) && m.highest < id <= m.max
    ensures m.streams !! Elements(Created(m, id))
  {
    forall i | i in Created(m, id)
      ensures i !in m.streams
    {
      SteppedMembers(Start(m), id + 1, i);
    }
  }

  /** What a request that opens streams adds. */
  lemma OpenCounts(m: Incoming, id: nat)
    requires Inv(m) && Alike(m, id) && m.highest < id <= m.max
    ensures var k := GetOrOpen(m, id);
            Opened(k) == Opened(m) + |Created(m, id)| && |k.streams| == |m.streams| + |Created(m, id)|
  {
    StartIs(m, id);
    SteppedCount(Start(m), id);
    NewOnes(m, id);
    Union(m.streams, Elements(Created(m, id)));
  }

  lemma OpenMarked(m: Incoming, id: nat)
    requires Marked(m) && Alike(m, id) && m.highest < id
    ensures Marked(m.(highest := id))
  {
  }

  lemma OpenShaped(m: Incoming, id: nat)
    requires Inv(m) && Alike(m, id) && m.highest < id <= m.max
    ensures Shaped(GetOrOpen(m, id))
  {
    OpenMarked(m, id);
    var k := GetOrOpen(m, id);
    forall i | i in k.streams
      ensures Alike(k, i) && i <= k.highest
    {
      OpenAlike(m, id, i);
    }
  }

  lemma OpenAlike(m: Incoming, id: nat, i: nat)
    requires Inv(m) && Alike(m, id) && m.highest < id <= m.max && i in GetOrOpen(m, id).streams
    ensures Alike(m, i) && i <= id
  {
    if i !in m.streams {
      StartIs(m, id);
      SteppedMembers(Start(m), id + 1, i);
      FourApart(m.first, Start(m), i);
    }
  }

  lemma FourApart(a: nat, b: nat, c: nat)
    requires a <= b <= c && (b - a) % 4 == 0 && (c - b) % 4 == 0
    ensures (c - a) % 4 == 0
  {
  }

  lemma OpenKeeps(m: Incoming, id: nat)
    requires Inv(m) && Alike(m, id) && m.highest < id <= m.max
    ensures Inv(GetOrOpen(m, id))
  {
    OpenCounts(m, id);
    OpenShaped(m, id);
  }

  /** Closing a stream raises the limit by exactly one stream. */
  lemma DeleteKeeps(m: Incoming, id: nat)
    requires Inv(m)
    ensures Inv(Delete(m, id))
    ensures Delete(m, id).max == if id in m.streams then m.max + 4 else m.max
  {
    if id in m.streams {
      assert |m.streams - {id}| == |m.streams| - 1;
    }
  }

  lemma AcceptKeeps(m: Incoming)
    requires Inv(m)
    ensures Inv(Accept(m))
  {
  }

  // ----- runs -----

  lemma {:induction false} SteppedExtends(first: nat, mid: nat, end: nat)
    requires first <= mid <= end && (mid - first) % 4 == 0
    ensures Stepped(first, mid) + Stepped(mid, end) == Stepped(first, end)
    decreases mid - first
  {
    if first < mid {
      SteppedExtends(first + 4, mid, end);
      Assoc([first], Stepped(first + 4, mid), Stepped(mid, end));
    }
  }

  lemma {:induction false} SteppedStops(first: nat, last: nat)
    requires first <= last && (last - first) % 4 == 0
    ensures Stepped(first, last + 1) == Stepped(first, last + 4)
    decreases last - first
  {
    if first + 4 <= last {
      SteppedStops(first + 4, last);
    }
  }

  lemma {:induction false} SteppedDistinct(first: nat, end: nat)
    ensures Distinct(Stepped(first, end))
    decreases if first < end then end - first else 0
  {
    if first < end {
      SteppedDistinct(first + 4, end);
      SteppedMembers(first + 4, end, first);
      DistinctCons(first, Stepped(first + 4, end));
    }
  }

  /** What the peer asks for, what the session closes and what the application accepts. */
  datatype Event = Get(id: nat) | Close(id: nat) | Take

  /** The map, with every stream it made, closed and handed out, in that order. */
  datatype Run = Run(m: Incoming, created: seq<nat>, closed: seq<nat>, accepted: seq<nat>)

  /** Identifiers of another kind go to another map; AcceptStream waits until there is a stream. */
  predicate Enabled(r: Run, e: Event) {
    match e
    case Get(id) => id % 4 == r.m.first % 4
    case Close(id) => true
    case Take => r.m.next in r.m.streams
  }

  function Next(r: Run, e: Event): Run {
    match e
    case Get(id) => r.(m := GetOrOpen(r.m, id), created := r.created + Created(r.m, id))
    case Close(id) => r.(m := Delete(r.m, id), closed := if id in r.m.streams then r.closed + [id] else r.closed)
    case Take => r.(m := Accept(r.m), accepted := r.accepted + [r.m.next])
  }

  predicate InOrder(r: Run) {
    && r.created == Stepped(r.m.first, Start(r.m))
    && r.accepted == Stepped(r.m.first, r.m.next)
  }

  predicate Counted(r: Run) {
    && |r.created| == Opened(r.m)
    && |r.closed| == |r.created| - |r.m.streams|
    && forall id <- r.closed :: id !in r.m.streams && id <= r.m.highest
  }

  predicate RunInv(r: Run) { Inv(r.m) && InOrder(r) && Counted(r) }

  lemma GetInOrder(r: Run, id: nat)
    requires RunInv(r) && Alike(r.m, id) && r.m.highest < id <= r.m.max
    ensures r.created + Created(r.m, id) == Stepped(r.m.first, id + 4)
  {
    StartIs(r.m, id);
    CreatedExtends(r.m.first, Start(r.m), id);
  }

  lemma CreatedExtends(first: nat, start: nat, id: nat)
    requires first <= start <= id && (start - first) % 4 == 0 && (id - start) % 4 == 0
    ensures Stepped(first, start) + Stepped(start, id + 1) == Stepped(first, id + 4)
  {
    SteppedExtends(first, start, id + 4);
    SteppedStops(start, id);
  }

  /** A stream that was closed is not opened again. */
  lemma StaysClosed(m: Incoming, id: nat, i: nat)
    requires Inv(m) && m.highest < id <= m.max && i <= m.highest && i !in m.streams
    ensures i !in GetOrOpen(m, id).streams
  {
    SteppedMembers(Start(m), id + 1, i);
  }

  lemma GetCounted(r: Run, id: nat)
    requires RunInv(r) && Alike(r.m, id) && r.m.highest < id <= r.m.max
    ensures Counted(Next(r, Get(id)))
  {
    var k := GetOrOpen(r.m, id);
    OpenCounts(r.m, id);
    forall i | i in r.closed
      ensures i !in k.streams && i <= k.highest
    {
      StaysClosed(r.m, id, i);
    }
  }

  lemma GetOpens(r: Run, id: nat)
    requires InOrder(r) && r.m.highest < id <= r.m.max
    requires r.created + Created(r.m, id) == Stepped(r.m.first, id + 4)
    ensures InOrder(Next(r, Get(id)))
  {
  }

  lemma GetNothing(r: Run, id: nat)
    requires id > r.m.max || id <= r.m.highest
    ensures Next(r, Get(id)) == r
  {
    assert r.created + [] == r.created;
  }

  lemma SameKind(m: Incoming, id: nat)
    requires Inv(m) && id % 4 == m.first % 4 && id > m.highest
    ensures Alike(m, id)
  {
  }

  lemma GetKeeps(r: Run, id: nat)
    requires RunInv(r) && id % 4 == r.m.first % 4
    ensures RunInv(Next(r, Get(id)))
  {
    if id > r.m.max || id <= r.m.highest {
      GetNothing(r, id);
    } else {
      SameKind(r.m, id);
      GetOpenKeeps(r, id);
    }
  }

  lemma GetOpenKeeps(r: Run, id: nat)
    requires RunInv(r) && Alike(r.m, id) && r.m.highest < id <= r.m.max
    ensures RunInv(Next(r, Get(id)))
  {
    assert Inv(GetOrOpen(r.m, id)) by { OpenKeeps(r.m, id); }
    assert InOrder(Next(r, Get(id))) by {
      GetInOrder(r, id);
      GetOpens(r, id);
    }
    assert Counted(Next(r, Get(id))) by { GetCounted(r, id); }
  }

  lemma CloseCounted(r: Run, id: nat)
    requires RunInv(r)
    ensures Counted(Next(r, Close(id)))
  {
    if id in r.m.streams {
      assert |r.m.streams - {id}| == |r.m.streams| - 1;
    }
  }

  lemma TakeInOrder(r: Run)
    requires RunInv(r) && r.m.next in r.m.streams
    ensures InOrder(Next(r, Take))
  {
    var next := r.m.next;
    SteppedExtends(r.m.first, next, next + 4);
    assert Stepped(next, next + 4) == [next];
  }

  lemma StepKeeps(r: Run, e: Event)
    requires RunInv(r) && Enabled(r, e)
    ensures RunInv(Next(r, e))
    ensures r.m.max <= Next(r, e).m.max
  {
    match e
    case Get(id) => GetKeeps(r, id);
    case Close(id) => CloseKeeps(r, id);
    case Take => TakeKeeps(r);
  }

  lemma CloseKeeps(r: Run, id: nat)
    requires RunInv(r)
    ensures RunInv(Next(r, Close(id))) && r.m.max <= Next(r, Close(id)).m.max
  {
    assert Inv(Delete(r.m, id)) by { DeleteKeeps(r.m, id); }
    CloseCounted(r, id);
  }

  lemma TakeKeeps(r: Run)
    requires RunInv(r) && r.m.next in r.m.streams
    ensures RunInv(Next(r, Take))
  {
    AcceptKeeps(r.m);
    TakeInOrder(r);
  }

  predicate Possible(r: Run, events: seq<Event>)
    decreases |events|, 0
  {
    |events| > 0 ==>
      var before := events[..|events| - 1];
      Possible(r, before) && Enabled(Reached(r, before), events[|events| - 1])
  }

  function Reached(r: Run, events: seq<Event>): (k: Run)
    requires Possible(r, events)
    decreases |events|, 1
  {
    if |events| == 0 then r
    else Next(Reached(r, events[..|events| - 1]), events[|events| - 1])
  }

  /** The invariant holds throughout, and the limit never goes back. */
  lemma {:induction false} ReachedInv(r: Run, events: seq<Event>)
    requires RunInv(r) && Possible(r, events)
    ensures RunInv(Reached(r, events))
    ensures r.m.max <= Reached(r, events).m.max
    decreases |events|
  {
    if |events| > 0 {
      ReachedInv(r, events[..|events| - 1]);
      StepKeeps(Reached(r, events[..|events| - 1]), events[|events| - 1]);
    }
  }

  function Made(first: nat, maxNum: nat): Run { Run(Fresh(first, maxNum), [], [], []) }

  lemma FreshInv(first: nat, maxNum: nat)
    requires 1 <= first <= 4
    ensures RunInv(Made(first, maxNum))
  {
    assert Stepped(first, first) == [];
  }

  /**
   * In every run: no more than `maxNum` streams are ever open; the peer has opened at most one stream more for each
   * that was closed; every identifier is used once, in order; and the application gets them in the same order.
   */
  lemma LimitHolds(first: nat, maxNum: nat, events: seq<Event>)
    requires 1 <= first <= 4 && Possible(Made(first, maxNum), events)
    ensures var r := Reached(Made(first, maxNum), events);
            && |r.m.streams| <= maxNum
            && |r.created| <= maxNum + |r.closed|
            && Distinct(r.created) && Distinct(r.accepted)
            && r.accepted <= r.created
  {
    var r := Made(first, maxNum);
    FreshInv(first, maxNum);
    ReachedInv(r, events);
    SameParameters(r, events);
    var k := Reached(r, events);
    SteppedDistinct(first, Start(k.m));
    SteppedDistinct(first, k.m.next);
    SteppedExtends(first, k.m.next, Start(k.m));
  }

  lemma {:induction false} SameParameters(r: Run, events: seq<Event>)
    requires Possible(r, events)
    ensures Reached(r, events).m.first == r.m.first && Reached(r, events).m.maxNum == r.m.maxNum
    decreases |events|
  {
    if |events| > 0 {
      SameParameters(r, events[..|events| - 1]);
    }
  }

  /** Once a stream was opened, open streams and those the peer may still open make up the maximum. */
  lemma RoomExactly(r: Run)
    requires RunInv(r) && r.m.highest > 0
    ensures |r.m.streams| + (r.m.max - r.m.highest) / 4 == r.m.maxNum && (r.m.max - r.m.highest) % 4 == 0
  {
    var n := (r.m.highest - r.m.first) / 4;
    assert r.m.highest == r.m.first + 4 * n;
  }

  /** A stream is refused exactly when the peer would then have opened more than the closed ones make room for. */
  lemma RefusedExactly(r: Run, id: nat)
    requires RunInv(r) && Alike(r.m, id)
    ensures Answered(r.m, id).Refused? <==> (id - r.m.first) / 4 + 1 > r.m.maxNum + |r.closed|
  {
  }

  /** Who asks again for a closed stream gets nothing, and nothing is opened. */
  lemma NeverReopened(r: Run, id: nat)
    requires RunInv(r) && id in r.closed
    ensures Created(r.m, id) == [] && Answered(r.m, id) in {Refused, Found(None)}
  {
  }

  // ----- accepting -----

  /** Every stream that was opened is still open or was closed. */
  predicate Accounted(r: Run) { forall id <- r.created :: id in r.m.streams || id in r.closed }

  lemma AccountedStep(r: Run, e: Event)
    requires Accounted(r)
    ensures Accounted(Next(r, e))
  {
    if e.Get? {
      forall id | id in r.created + Created(r.m, e.id)
        ensures id in GetOrOpen(r.m, e.id).streams || id in r.closed
      {
        if id !in r.created {
          assert id in Elements(Created(r.m, e.id));
        }
      }
    }
  }

  lemma {:induction false} ReachedAccounted(r: Run, events: seq<Event>)
    requires Accounted(r) && Possible(r, events)
    ensures Accounted(Reached(r, events))
    decreases |events|
  {
    if |events| > 0 {
      ReachedAccounted(r, events[..|events| - 1]);
      AccountedStep(Reached(r, events[..|events| - 1]), events[|events| - 1]);
    }
  }

  /** The next stream to accept has been opened exactly when not everything opened was accepted. */
  lemma NextOpened(r: Run)
    requires RunInv(r)
    ensures r.m.next in r.created <==> |r.accepted| < |r.created|
    ensures r.m.next in r.m.streams ==> r.m.next in r.created
  {
    SteppedMembers(r.m.first, Start(r.m), r.m.next);
    SteppedExtends(r.m.first, r.m.next, Start(r.m));
  }

  lemma AcceptsUnlessClosed(r: Run)
    requires RunInv(r) && Accounted(r)
    ensures Enabled(r, Take) <==> |r.accepted| < |r.created| && r.m.next !in r.closed
  {
    NextOpened(r);
  }

  /** In every run, accepting succeeds exactly when a stream is left over and the first such one was not closed. */
  lemma AcceptsExactly(first: nat, maxNum: nat, events: seq<Event>)
    requires 1 <= first <= 4 && Possible(Made(first, maxNum), events)
    ensures var r := Reached(Made(first, maxNum), events);
            Enabled(r, Take) <==> |r.accepted| < |r.created| && r.m.next !in r.closed
  {
    var r := Made(first, maxNum);
    FreshInv(first, maxNum);
    ReachedInv(r, events);
    ReachedAccounted(r, events);
    AcceptsUnlessClosed(Reached(r, events));
  }

  /** Once the next stream in line is closed, no stream is ever accepted again, whatever is opened and closed. */
  lemma {:induction false} WaitsForever(r: Run, events: seq<Event>)
    requires RunInv(r) && r.m.next in r.closed && Possible(r, events)
    ensures var k := Reached(r, events);
            k.m.next == r.m.next && k.m.next in k.closed && k.accepted == r.accepted && !Enabled(k, Take)
    decreases |events|
  {
    if |events| > 0 {
      WaitsForever(r, events[..|events| - 1]);
    }
    ReachedInv(r, events);
  }

  /** It takes one stream that is opened and closed before it is accepted. */
  lemma WaitingHappens(first: nat, maxNum: nat)
    requires 1 <= first <= 4 && maxNum > 0
    ensures var events := [Get(first), Close(first)];
            && Possible(Made(first, maxNum), events)
            && var r := Reached(Made(first, maxNum), events);
               |r.accepted| < |r.created| && r.m.next in r.closed && !Enabled(r, Take)
  {
    var r := Made(first, maxNum);
    OpensFirst(first, maxNum);
    ReachedMore(r, [], Get(first));
    ReachedMore(r, [Get(first)], Close(first));
    assert [] + [Get(first)] == [Get(first)] && [Get(first)] + [Close(first)] == [Get(first), Close(first)];
  }

  lemma OpensFirst(first: nat, maxNum: nat)
    requires 1 <= first <= 4 && maxNum > 0
    ensures Created(Fresh(first, maxNum), first) == [first]
    ensures GetOrOpen(Fresh(first, maxNum), first).streams == {first}
  {
    assert Stepped(first + 4, first + 1) == [];
  }

  lemma ReachedMore(r: Run, events: seq<Event>, e: Event)
    requires Possible(r, events) && Enabled(Reached(r, events), e)
    ensures Possible(r, events + [e]) && Reached(r, events + [e]) == Next(Reached(r, events), e)
  {
    assert (events + [e])[..|events + [e]| - 1] == events;
  }

  // ----- the object -----

  class IncomingStreamsMap {
    const first: nat
    var streams: set<nat>
    var nextStream: nat
    var highestStream: nat
    var maxStream: nat
    var maxNumStreams: nat
    var queued: seq<nat>

    function State(): Incoming
      reads this
    {
      Incoming(first, maxNumStreams, streams, nextStream, highestStream, maxStream)
    }

    /** `initialMaxStreamID` is the number that MaxBidiStreamID and MaxUniStreamID compute. */
    constructor (firstStream: nat, maxNum: nat)
      ensures State() == Fresh(firstStream, maxNum) && queued == []
    {
      first := firstStream;
      streams := {};
      nextStream := firstStream;
      highestStream := 0;
      maxStream := if maxNum == 0 then 0 else firstStream + 4 * (maxNum - 1);
      maxNumStreams := maxNum;
      queued := [];
    }

    /** None when AcceptStream would have to wait. */
    method AcceptStream() returns (stream: Option<nat>)
      modifies `nextStream
      ensures State() == Accept(old(State()))
      ensures stream == Lookup(old(streams), old(nextStream))
    {
      if nextStream !in streams {
        return None;
      }
      stream := Some(nextStream);
      nextStream := nextStream + 4;
    }

    method GetOrOpenStream(id: nat) returns (answer: Answer)
      modifies `streams, `highestStream
      ensures State() == GetOrOpen(old(State()), id)
      ensures answer == Answered(old(State()), id)
    {
      if id > maxStream {
        return Refused;
      }
      if id <= highestStream {
        return Found(Lookup(streams, id));
      }
      var start := if highestStream == 0 then nextStream else highestStream + 4;
      OpenAll(start, id);
      highestStream := id;
      answer := Found(Lookup(streams, id));
    }

    method OpenAll(start: nat, id: nat)
      modifies `streams
      ensures streams == old(streams) + Elements(Stepped(start, id + 1))
    {
      var newID := start;
      while newID <= id
        invariant streams + Elements(Stepped(newID, id + 1)) == old(streams) + Elements(Stepped(start, id + 1))
        decreases if newID <= id then id - newID + 1 else 0
      {
        ElementsCons(newID, Stepped(newID + 4, id + 1));
        streams := streams + {newID};
        newID := newID + 4;
      }
      assert Elements([]) == {};
    }

    /** Tells whether there was such a stream. */
    method DeleteStream(id: nat) returns (known: bool)
      modifies `streams, `maxStream, `queued
      ensures State() == Delete(old(State()), id)
      ensures known <==> id in old(streams)
      ensures queued == if known && maxNumStreams > |streams| then old(queued) + [maxStream] else old(queued)
    {
      if id !in streams {
        return false;
      }
      streams := streams - {id};
      var numNewStreams := maxNumStreams - |streams|;
      if numNewStreams > 0 {
        maxStream := highestStream + numNewStreams * 4;
        queued := queued + [maxStream];
      }
      known := true;
    }
  }

  lemma ElementsCons(x: nat, rest: seq<nat>)
    ensures Elements([x] + rest) == {x} + Elements(rest)
  {
  }
}
