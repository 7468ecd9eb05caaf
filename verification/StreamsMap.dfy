/** The streams of one session: who opens which identifiers, the list for round-robin, and the two counters. */
module StreamsMap {
  import opened Basics

  /** 4 * MaxStreamsPerConnection. */
  const MAX_DELTA: nat := 400

  datatype Streams = Streams(
    server: bool,
    maxIncoming: nat,
    streams: set<nat>,
    listing: seq<nat>,
    index: nat,
    next: nat,
    highest: nat,
    accept: nat,
    outgoing: int,
    incoming: int)

  datatype Outcome = Opened | TooMany | InvalidID

  /** What GetOrOpenStream gives back: a stream, nothing because it is closed, or an error. */
  datatype Answer = Stream(id: nat) | Closed | Error(why: Outcome)

  // ----- the operations -----

  function Put(s: Streams, id: nat): Streams {
    if id in s.streams then s else s.(streams := s.streams + {id}, listing := s.listing + [id])
  }

  function RemoteOutcome(s: Streams, id: nat): Outcome {
    if s.incoming >= s.maxIncoming then TooMany
    else if id + MAX_DELTA < s.highest then InvalidID
    else Opened
  }

  function OpenRemote(s: Streams, id: nat): Streams {
    if !RemoteOutcome(s, id).Opened? then s
    else
      var t := if s.server then s.(incoming := s.incoming + 1) else s.(outgoing := s.outgoing + 1);
      Put(t.(highest := Max(s.highest, id)), id)
  }

  /** Opens sid, sid + 2, ... up to id, and stops at the first that cannot be opened. */
  function OpenUpTo(s: Streams, sid: nat, id: nat): (r: (Streams, Outcome))
    decreases if sid <= id then id - sid + 1 else 0
  {
    if sid > id then (s, Opened)
    else if !RemoteOutcome(s, sid).Opened? then (s, RemoteOutcome(s, sid))
    else OpenUpTo(OpenRemote(s, sid), sid + 2, id)
  }

  predicate Ours(s: Streams, id: nat) { (id % 2 == 0) == s.server }

  function First(s: Streams): nat { if s.server && s.highest == 0 then 1 else s.highest + 2 }

  predicate Known(s: Streams, id: nat) { id in s.streams || Ours(s, id) || id <= s.highest }

  function Get(s: Streams, id: nat): Streams {
    if Known(s, id) then s else OpenUpTo(s, First(s), id).0
  }

  function GetAnswer(s: Streams, id: nat): Answer {
    if id in s.streams then Stream(id)
    else if Ours(s, id) then if id <= s.next then Closed else Error(InvalidID)
    else if id <= s.highest then Closed
    else
      var r := OpenUpTo(s, First(s), id);
      if !r.1.Opened? then Error(r.1) else if id in r.0.streams then Stream(id) else Closed
  }

  predicate LocalAllowed(s: Streams, maxOutgoing: nat) { s.outgoing < maxOutgoing }

  function OpenLocal(s: Streams, maxOutgoing: nat): Streams {
    if !LocalAllowed(s, maxOutgoing) then s
    else
      var t := if s.server then s.(outgoing := s.outgoing + 1) else s.(incoming := s.incoming + 1);
      Put(t.(next := s.next + 2), s.next)
  }

  /** The first place of `id` in the list, or its length. */
  function Place(ids: seq<nat>, id: nat): (i: nat)
    ensures i <= |ids|
    ensures i < |ids| ==> ids[i] == id
    ensures i == |ids| ==> id !in ids
  {
    if ids == [] then 0 else if ids[0] == id then 0 else 1 + Place(ids[1..], id)
  }

  function Without(ids: seq<nat>, i: nat): seq<nat>
    requires i < |ids|
  {
    ids[..i] + ids[i + 1..]
  }

  function Remove(s: Streams, id: nat): Streams {
    if id !in s.streams then s
    else
      var i := Place(s.listing, id);
      var t := if id % 2 == 0 then s.(outgoing := s.outgoing - 1) else s.(incoming := s.incoming - 1);
      var u := if i == |s.listing| then t
               else t.(listing := Without(s.listing, i), index := if i < s.index then s.index - 1 else s.index);
      u.(streams := s.streams - {id})
  }

  function Accept(s: Streams): Streams { if s.accept in s.streams then s.(accept := s.accept + 2) else s }

  function Fresh(server: bool, maxIncoming: nat): Streams {
    Streams(server, maxIncoming, {}, [], 0, if server then 2 else 1, 0, if server then 1 else 2, 0, 0)
  }

  // ----- coherence -----

  /** How many of the identifiers have this parity. */
  function Count(ids: seq<nat>, parity: nat): nat {
    if ids == [] then 0 else (if ids[0] % 2 == parity then 1 else 0) + Count(ids[1..], parity)
  }

  predicate Listed(s: Streams) {
    && Distinct(s.listing)
    && (forall id <- s.streams :: id in s.listing)
    && (forall id <- s.listing :: id in s.streams)
  }

  predicate Counted(s: Streams) { s.incoming == Count(s.listing, 1) && s.outgoing == Count(s.listing, 0) }

  /** Nothing beyond the counters of identifiers is open, and each side has its own parity. */
  predicate Below(s: Streams, id: nat) { if Ours(s, id) then id < s.next else id <= s.highest }

  predicate Shaped(s: Streams) {
    && Ours(s, s.next)
    && (s.highest == 0 || !Ours(s, s.highest))
    && forall id <- s.streams :: Below(s, id)
  }

  predicate Inv(s: Streams) { Listed(s) && Counted(s) && Shaped(s) }

  lemma {:induction false} CountConcat(a: seq<nat>, b: seq<nat>, parity: nat)
    ensures Count(a + b, parity) == Count(a, parity) + Count(b, parity)
  {
    if a == [] {
      assert a + b == b;
    } else {
      assert (a + b)[1..] == a[1..] + b;
      CountConcat(a[1..], b, parity);
    }
  }

  lemma SplitAt(ids: seq<nat>, i: nat)
    requires i < |ids|
    ensures ids == ids[..i] + ([ids[i]] + ids[i + 1..])
  {
  }

  lemma CountWithout(ids: seq<nat>, i: nat, parity: nat)
    requires i < |ids|
    ensures Count(ids, parity) == Count(Without(ids, i), parity) + (if ids[i] % 2 == parity then 1 else 0)
  {
    var a, b := ids[..i], ids[i + 1..];
    SplitAt(ids, i);
    CountConcat(a, [ids[i]] + b, parity);
    CountConcat([ids[i]], b, parity);
    CountConcat(a, b, parity);
    assert Count([ids[i]], parity) == if ids[i] % 2 == parity then 1 else 0;
  }

  lemma MultisetWithout(ids: seq<nat>, i: nat)
    requires i < |ids|
    ensures multiset(ids) == multiset(Without(ids, i)) + multiset{ids[i]}
  {
    SplitAt(ids, i);
  }

  lemma DistinctWithout(ids: seq<nat>, i: nat)
    requires Distinct(ids) && i < |ids|
    ensures Distinct(Without(ids, i))
    ensures forall id: nat :: id in Without(ids, i) <==> id in ids && id != ids[i]
  {
    MultisetWithout(ids, i);
    forall id: nat
      ensures multiset(Without(ids, i))[id] == multiset(ids)[id] - (if id == ids[i] then 1 else 0)
    {
    }
    forall id: nat
      ensures id in Without(ids, i) <==> id in ids && id != ids[i]
    {
      assert id in Without(ids, i) <==> multiset(Without(ids, i))[id] > 0;
      assert id in ids <==> multiset(ids)[id] > 0;
    }
  }

  lemma PutListed(s: Streams, id: nat)
    requires Listed(s) && id !in s.streams
    ensures Listed(Put(s, id))
  {
    DistinctAppend(s.listing, id);
  }

  lemma PutCounts(s: Streams, id: nat, parity: nat)
    requires id !in s.streams
    ensures Count(Put(s, id).listing, parity) == Count(s.listing, parity) + (if id % 2 == parity then 1 else 0)
  {
    CountConcat(s.listing, [id], parity);
    assert Count([id], parity) == if id % 2 == parity then 1 else 0;
  }

  lemma RemoteKeeps(s: Streams, id: nat)
    requires Inv(s) && !Ours(s, id) && id > s.highest
    ensures Inv(OpenRemote(s, id))
  {
    PutListed(s, id);
    PutCounts(s, id, 0);
    PutCounts(s, id, 1);
  }

  lemma LocalShaped(s: Streams, maxOutgoing: nat)
    requires Shaped(s)
    ensures Shaped(OpenLocal(s, maxOutgoing)) && s.next !in s.streams
  {
  }

  lemma LocalKeeps(s: Streams, maxOutgoing: nat)
    requires Inv(s)
    ensures Inv(OpenLocal(s, maxOutgoing))
  {
    assert Shaped(OpenLocal(s, maxOutgoing)) && s.next !in s.streams by { LocalShaped(s, maxOutgoing); }
    PutListed(s, s.next);
    PutCounts(s, s.next, 0);
    PutCounts(s, s.next, 1);
  }

  lemma RemoveShaped(s: Streams, id: nat)
    requires Shaped(s)
    ensures Shaped(Remove(s, id))
  {
  }

  lemma RemoveListed(s: Streams, id: nat)
    requires Listed(s) && Counted(s) && id in s.streams
    ensures Listed(Remove(s, id)) && Counted(Remove(s, id))
  {
    var i := Place(s.listing, id);
    DistinctWithout(s.listing, i);
    CountWithout(s.listing, i, 0);
    CountWithout(s.listing, i, 1);
  }

  lemma RemoveKeeps(s: Streams, id: nat)
    requires Inv(s)
    ensures Inv(Remove(s, id))
    ensures id in s.streams ==> Remove(s, id).incoming >= 0 && Remove(s, id).outgoing >= 0
  {
    RemoveShaped(s, id);
    if id in s.streams {
      RemoveListed(s, id);
    }
  }

  // ----- opening everything up to an identifier -----

  /** How many identifiers lie between the next one of the peer and this one. */
  function Steps(sid: nat, id: nat): nat { if sid > id then 0 else (id - sid) / 2 + 1 }

  predicate NextUp(s: Streams, sid: nat, id: nat) { s.highest < sid && sid % 2 == id % 2 && !Ours(s, id) }

  lemma RemoteNext(s: Streams, sid: nat, id: nat)
    requires Inv(s) && NextUp(s, sid, id)
    ensures Inv(OpenRemote(s, sid)) && NextUp(OpenRemote(s, sid), sid + 2, id)
  {
    RemoteKeeps(s, sid);
  }

  lemma {:induction false} UpToKeeps(s: Streams, sid: nat, id: nat)
    requires Inv(s) && NextUp(s, sid, id)
    ensures Inv(OpenUpTo(s, sid, id).0)
    decreases if sid <= id then id - sid + 1 else 0
  {
    if sid <= id && RemoteOutcome(s, sid).Opened? {
      RemoteNext(s, sid, id);
      UpToKeeps(OpenRemote(s, sid), sid + 2, id);
    }
  }

  /** When a server gets as far as `id`, and how many streams of the peer there are then. */
  lemma {:induction false} UpToServer(s: Streams, sid: nat, id: nat)
    requires Inv(s) && s.server && NextUp(s, sid, id) && s.incoming <= s.maxIncoming
    ensures var r := OpenUpTo(s, sid, id);
            && (r.1.Opened? <==> s.incoming + Steps(sid, id) <= s.maxIncoming)
            && r.0.incoming == (if r.1.Opened? then s.incoming + Steps(sid, id) else s.maxIncoming)
            && (r.1.Opened? || r.1.TooMany?) && r.0.server && r.0.maxIncoming == s.maxIncoming
    decreases if sid <= id then id - sid + 1 else 0
  {
    if sid <= id && RemoteOutcome(s, sid).Opened? {
      RemoteNext(s, sid, id);
      UpToServer(OpenRemote(s, sid), sid + 2, id);
    }
  }

  /** A client looks at the counter of its own streams, so it lets the peer open everything or nothing. */
  lemma {:induction false} UpToClient(s: Streams, sid: nat, id: nat)
    requires Inv(s) && !s.server && NextUp(s, sid, id)
    ensures var r := OpenUpTo(s, sid, id);
            && (sid <= id ==> (r.1.TooMany? <==> s.incoming >= s.maxIncoming))
            && (r.1.Opened? || r.1.TooMany?)
            && r.0.incoming == s.incoming
            && r.0.outgoing == s.outgoing + (if r.1.Opened? then Steps(sid, id) else 0)
            && !r.0.server && r.0.maxIncoming == s.maxIncoming
    decreases if sid <= id then id - sid + 1 else 0
  {
    if sid <= id && RemoteOutcome(s, sid).Opened? {
      RemoteNext(s, sid, id);
      UpToClient(OpenRemote(s, sid), sid + 2, id);
    }
  }

  lemma FirstIsNext(s: Streams, id: nat)
    requires Inv(s) && !Known(s, id)
    ensures NextUp(s, First(s), id) && First(s) <= id
  {
  }

  /** Opened without error means that the stream is there. */
  lemma {:induction false} UpToReaches(s: Streams, sid: nat, id: nat)
    requires sid % 2 == id % 2
    ensures var r := OpenUpTo(s, sid, id); s.streams <= r.0.streams && (r.1.Opened? && sid <= id ==> id in r.0.streams)
    decreases if sid <= id then id - sid + 1 else 0
  {
    if sid <= id && RemoteOutcome(s, sid).Opened? {
      UpToReaches(OpenRemote(s, sid), sid + 2, id);
    }
  }

  /** What a request for a stream that the peer has not opened yet brings. */
  lemma AnswerExactly(s: Streams, id: nat)
    requires Inv(s) && !Known(s, id) && (s.server ==> s.incoming <= s.maxIncoming)
    ensures GetAnswer(s, id) == Stream(id) || GetAnswer(s, id) == Error(TooMany)
    ensures GetAnswer(s, id) == Error(TooMany) <==>
            if s.server then Count(s.listing, 1) + Steps(First(s), id) > s.maxIncoming
            else Count(s.listing, 1) >= s.maxIncoming
  {
    FirstIsNext(s, id);
    UpToReaches(s, First(s), id);
    if s.server {
      UpToServer(s, First(s), id);
    } else {
      UpToClient(s, First(s), id);
    }
  }

  lemma FreshInv(server: bool, maxIncoming: nat)
    ensures Inv(Fresh(server, maxIncoming))
  {
  }

  /** On a client the limit on incoming streams limits nothing: with a limit of one, any number can be opened. */
  lemma ClientUnlimited(maxIncoming: nat, n: nat)
    requires maxIncoming > 0 && n > 0
    ensures GetAnswer(Fresh(false, maxIncoming), 2 * n) == Stream(2 * n)
    ensures Count(Get(Fresh(false, maxIncoming), 2 * n).listing, 0) == n
  {
    var s := Fresh(false, maxIncoming);
    FreshInv(false, maxIncoming);
    FirstIsNext(s, 2 * n);
    AnswerExactly(s, 2 * n);
    UpToKeeps(s, 2, 2 * n);
    UpToClient(s, 2, 2 * n);
  }

  // ----- runs -----

  /** Where the round-robin index goes when it moves on. */
  function Turned(index: nat, moves: nat, n: nat): nat {
    if moves == 0 || n == 0 then index else (index + moves) % n
  }

  datatype Event = Request(id: nat) | Open(maxOutgoing: nat) | Close(id: nat) | Take | Turn(moves: nat)

  function Step(s: Streams, e: Event): Streams {
    match e
    case Request(id) => Get(s, id)
    case Open(maxOutgoing) => OpenLocal(s, maxOutgoing)
    case Close(id) => Remove(s, id)
    case Take => Accept(s)
    case Turn(moves) => s.(index := Turned(s.index, moves, |s.listing|))
  }

  /** The streams that a step opened. */
  function Added(s: Streams, e: Event): seq<nat> {
    var k := Step(s, e);
    if |k.listing| <= |s.listing| then [] else k.listing[|s.listing|..]
  }

  /** The stream that a step closed, if it closed one. */
  function Shut(s: Streams, e: Event): seq<nat> { if e.Close? && e.id in s.streams then [e.id] else [] }

  /** The map, every identifier that was ever opened and every one that was closed. */
  datatype Run = Run(s: Streams, created: seq<nat>, closed: seq<nat>)

  function Then(r: Run, e: Event): Run { Run(Step(r.s, e), r.created + Added(r.s, e), r.closed + Shut(r.s, e)) }

  function After(r: Run, events: seq<Event>): Run
    decreases |events|
  {
    if events == [] then r else After(Then(r, events[0]), events[1..])
  }

  /** Every identifier was opened once, and none is beyond the two that mark what is still unused. */
  predicate Recorded(s: Streams, created: seq<nat>) { Distinct(created) && forall id <- created :: Below(s, id) }

  predicate RunInv(r: Run) {
    && Inv(r.s) && Recorded(r.s, r.created) && r.s.index <= |r.s.listing|
    && (r.s.server ==> r.s.incoming <= r.s.maxIncoming)
  }

  lemma RemoteRecorded(s: Streams, id: nat, log: seq<nat>)
    requires Inv(s) && !Ours(s, id) && id > s.highest && RemoteOutcome(s, id).Opened? && Recorded(s, log)
    ensures Recorded(OpenRemote(s, id), log + [id])
    ensures OpenRemote(s, id).listing == s.listing + [id] && OpenRemote(s, id).index == s.index
  {
    DistinctAppend(log, id);
  }

  lemma NoMore(a: seq<nat>)
    ensures a + [] == a
  {
  }

  lemma {:induction false} UpToRecorded(s: Streams, sid: nat, id: nat, log: seq<nat>) returns (added: seq<nat>)
    requires Inv(s) && NextUp(s, sid, id) && Recorded(s, log)
    ensures var k := OpenUpTo(s, sid, id).0;
            k.listing == s.listing + added && k.index == s.index && Recorded(k, log + added)
    decreases if sid <= id then id - sid + 1 else 0
  {
    if sid <= id && RemoteOutcome(s, sid).Opened? {
      RemoteNext(s, sid, id);
      RemoteRecorded(s, sid, log);
      var rest := UpToRecorded(OpenRemote(s, sid), sid + 2, id, log + [sid]);
      added := [sid] + rest;
      Assoc(s.listing, [sid], rest);
      Assoc(log, [sid], rest);
    } else {
      added := [];
      NoMore(s.listing);
      NoMore(log);
    }
  }

  lemma Tail(a: seq<nat>, b: seq<nat>)
    ensures b == if |a + b| <= |a| then [] else (a + b)[|a|..]
  {
  }

  lemma RequestKeeps(r: Run, id: nat)
    requires RunInv(r)
    ensures RunInv(Then(r, Request(id)))
  {
    if Known(r.s, id) {
      assert r.created + [] == r.created;
    } else {
      var sid := First(r.s);
      FirstIsNext(r.s, id);
      UpToKeeps(r.s, sid, id);
      var added := UpToRecorded(r.s, sid, id, r.created);
      Tail(r.s.listing, added);
      if r.s.server {
        UpToServer(r.s, sid, id);
      } else {
        UpToClient(r.s, sid, id);
      }
    }
  }

  lemma LocalRecorded(s: Streams, maxOutgoing: nat, log: seq<nat>)
    requires Shaped(s) && s.next !in s.streams && LocalAllowed(s, maxOutgoing) && Recorded(s, log)
    ensures Recorded(OpenLocal(s, maxOutgoing), log + [s.next])
    ensures OpenLocal(s, maxOutgoing).listing == s.listing + [s.next]
  {
    DistinctAppend(log, s.next);
  }

  lemma OpenKeeps(r: Run, maxOutgoing: nat)
    requires RunInv(r)
    ensures RunInv(Then(r, Open(maxOutgoing)))
  {
    if LocalAllowed(r.s, maxOutgoing) {
      assert Inv(OpenLocal(r.s, maxOutgoing)) by { LocalKeeps(r.s, maxOutgoing); }
      LocalRecorded(r.s, maxOutgoing, r.created);
      Tail(r.s.listing, [r.s.next]);
    } else {
      assert r.created + [] == r.created;
    }
  }

  lemma RemoveRecorded(s: Streams, id: nat, log: seq<nat>)
    requires Recorded(s, log)
    ensures Recorded(Remove(s, id), log)
    ensures |Remove(s, id).listing| <= |s.listing|
    ensures Remove(s, id).incoming <= s.incoming && Remove(s, id).maxIncoming == s.maxIncoming
  {
  }

  lemma RemoveIndex(s: Streams, id: nat)
    requires Listed(s) && s.index <= |s.listing|
    ensures Remove(s, id).index <= |Remove(s, id).listing|
  {
  }

  lemma CloseKeeps(r: Run, id: nat)
    requires RunInv(r)
    ensures RunInv(Then(r, Close(id)))
  {
    assert r.created + [] == r.created;
    assert Inv(Remove(r.s, id)) by { RemoveKeeps(r.s, id); }
    RemoveRecorded(r.s, id, r.created);
    RemoveIndex(r.s, id);
  }

  lemma OtherKeeps(r: Run, e: Event)
    requires RunInv(r) && (e.Take? || e.Turn?)
    ensures RunInv(Then(r, e))
  {
    assert r.created + [] == r.created;
  }

  /** Whatever happens, the list, the map and the counters agree, and no identifier is ever opened twice. */
  lemma {:induction false} RunKeeps(r: Run, events: seq<Event>)
    requires RunInv(r)
    ensures RunInv(After(r, events))
    decreases |events|
  {
    if events != [] {
      var e := events[0];
      if e.Request? {
        RequestKeeps(r, e.id);
      } else if e.Open? {
        OpenKeeps(r, e.maxOutgoing);
      } else if e.Close? {
        CloseKeeps(r, e.id);
      } else {
        OtherKeeps(r, e);
      }
      RunKeeps(Then(r, e), events[1..]);
    }
  }

  predicate SameSide(s: Streams, t: Streams) { t.server == s.server && t.maxIncoming == s.maxIncoming }

  lemma {:induction false} UpToSame(s: Streams, sid: nat, id: nat)
    ensures SameSide(s, OpenUpTo(s, sid, id).0)
    decreases if sid <= id then id - sid + 1 else 0
  {
    if sid <= id && RemoteOutcome(s, sid).Opened? {
      UpToSame(OpenRemote(s, sid), sid + 2, id);
    }
  }

  lemma {:induction false} RunSame(r: Run, events: seq<Event>)
    ensures SameSide(r.s, After(r, events).s)
    decreases |events|
  {
    if events != [] {
      var e := events[0];
      if e.Request? {
        UpToSame(r.s, First(r.s), e.id);
      }
      RunSame(Then(r, e), events[1..]);
    }
  }

  /** The session's map in every run; on a server, the peer never has more streams open than it may. */
  lemma AlwaysCoherent(server: bool, maxIncoming: nat, events: seq<Event>)
    ensures var r := After(Run(Fresh(server, maxIncoming), [], []), events);
            && Inv(r.s) && Distinct(r.created)
            && r.s.incoming >= 0 && r.s.outgoing >= 0 && r.s.index <= |r.s.listing|
            && (server ==> Count(r.s.listing, 1) <= maxIncoming)
  {
    FreshInv(server, maxIncoming);
    RunKeeps(Run(Fresh(server, maxIncoming), [], []), events);
    RunSame(Run(Fresh(server, maxIncoming), [], []), events);
  }

  // ----- accepting -----

  /** An identifier that was opened is either open or closed, and never both. */
  predicate Accounted(r: Run) {
    && (forall id <- r.created :: id in r.s.listing || id in r.closed)
    && (forall id <- r.closed :: id in r.created && id !in r.s.listing)
    && (forall id <- r.s.listing :: id in r.created)
  }

  /** Opening adds to the list and to the record alike. */
  lemma AccountedMore(r: Run, t: Streams, added: seq<nat>)
    requires Accounted(r) && t.listing == r.s.listing + added && Distinct(r.created + added)
    ensures Accounted(Run(t, r.created + added, r.closed + []))
  {
    forall id | id in r.closed
      ensures id !in added
    {
      NotAgain(r.created, added, id);
    }
  }

  lemma NotAgain(a: seq<nat>, b: seq<nat>, id: nat)
    requires Distinct(a + b) && id in a
    ensures id !in b
  {
    assert id in a + b;
    assert multiset(a + b)[id] == multiset(a)[id] + multiset(b)[id];
  }

  lemma AccountedClose(r: Run, id: nat)
    requires Accounted(r) && Listed(r.s)
    ensures Accounted(Then(r, Close(id)))
  {
    assert r.created + [] == r.created;
    if id in r.s.streams {
      DistinctWithout(r.s.listing, Place(r.s.listing, id));
    }
  }

  lemma AccountedStep(r: Run, e: Event)
    requires RunInv(r) && RunInv(Then(r, e)) && Accounted(r)
    ensures Accounted(Then(r, e))
  {
    if e.Close? {
      AccountedClose(r, e.id);
    } else {
      ListGrows(r.s, e);
      AccountedMore(r, Step(r.s, e), Added(r.s, e));
    }
  }

  /** Anything but closing only adds to the list. */
  lemma ListGrows(s: Streams, e: Event)
    requires Inv(s) && !e.Close?
    ensures Step(s, e).listing == s.listing + Added(s, e)
  {
    if e.Request? && !Known(s, e.id) {
      FirstIsNext(s, e.id);
      var added := UpToRecorded(s, First(s), e.id, []);
      Tail(s.listing, added);
    }
  }

  lemma StepKeeps(r: Run, e: Event)
    requires RunInv(r)
    ensures RunInv(Then(r, e))
  {
    RunKeeps(r, [e]);
    assert After(r, [e]) == After(Then(r, e), []);
  }

  lemma {:induction false} RunAccounted(r: Run, events: seq<Event>)
    requires RunInv(r) && Accounted(r)
    ensures Accounted(After(r, events))
    decreases |events|
  {
    if events != [] {
      StepKeeps(r, events[0]);
      AccountedStep(r, events[0]);
      RunAccounted(Then(r, events[0]), events[1..]);
    }
  }

  /** In every run, AcceptStream finds its stream exactly when it was opened and has not been closed. */
  lemma AcceptsExactly(server: bool, maxIncoming: nat, events: seq<Event>)
    ensures var r := After(Run(Fresh(server, maxIncoming), [], []), events);
            r.s.accept in r.s.streams <==> r.s.accept in r.created && r.s.accept !in r.closed
  {
    var r := Run(Fresh(server, maxIncoming), [], []);
    FreshInv(server, maxIncoming);
    RunKeeps(r, events);
    RunAccounted(r, events);
  }

  /** Once the stream that is next to be accepted is closed, nothing is accepted any more, whatever happens. */
  lemma {:induction false} WaitsForever(r: Run, events: seq<Event>)
    requires RunInv(r) && Accounted(r) && r.s.accept in r.closed
    ensures var k := After(r, events); k.s.accept == r.s.accept && k.s.accept in k.closed && Accept(k.s) == k.s
    decreases |events|
  {
    if events != [] {
      StepKeeps(r, events[0]);
      AccountedStep(r, events[0]);
      AcceptSame(r.s, events[0]);
      WaitsForever(Then(r, events[0]), events[1..]);
    }
  }

  /** A stream that is not there is not accepted. */
  lemma AcceptSame(s: Streams, e: Event)
    requires s.accept !in s.streams
    ensures Step(s, e).accept == s.accept
  {
    if e.Request? {
      UpToAccept(s, First(s), e.id);
    }
  }

  lemma {:induction false} UpToAccept(s: Streams, sid: nat, id: nat)
    ensures OpenUpTo(s, sid, id).0.accept == s.accept
    decreases if sid <= id then id - sid + 1 else 0
  {
    if sid <= id && RemoteOutcome(s, sid).Opened? {
      UpToAccept(OpenRemote(s, sid), sid + 2, id);
    }
  }

  /** It takes one stream of the peer that is opened and closed before it is accepted. */
  lemma WaitingHappens(server: bool, maxIncoming: nat)
    requires maxIncoming > 0
    ensures var first := if server then 1 else 2;
            var r := After(Run(Fresh(server, maxIncoming), [], []), [Request(first), Close(first)]);
            r.s.accept in r.created && r.s.accept in r.closed && Accept(r.s) == r.s
  {
    var first := if server then 1 else 2;
    var s := Fresh(server, maxIncoming);
    var r := Run(s, [], []);
    var t := OpenRemote(s, first);
    assert OpenUpTo(s, first, first) == OpenUpTo(t, first + 2, first) == (t, Opened);
    assert t.listing == [first];
    var one := Then(r, Request(first));
    assert one == Run(t, [first], []);
    assert Then(one, Close(first)).closed == [first];
    var events := [Request(first), Close(first)];
    assert events[1..] == [Close(first)] && events[1..][1..] == [];
    assert After(r, events) == After(one, [Close(first)]) == After(Then(one, Close(first)), []);
  }

  // ----- what counts as closed -----

  /** Every identifier below the two marks was opened at some time. */
  ghost predicate Full(s: Streams, created: seq<nat>) { forall id: nat :: 0 < id && Below(s, id) ==> id in created }

  lemma RemoteFull(s: Streams, log: seq<nat>)
    requires Shaped(s) && Full(s, log) && !Ours(s, First(s)) && First(s) !in s.streams
    requires RemoteOutcome(s, First(s)).Opened?
    ensures var k := OpenRemote(s, First(s));
            k.listing == s.listing + [First(s)] && Full(k, log + [First(s)]) && First(k) == First(s) + 2
  {
    var sid, k := First(s), OpenRemote(s, First(s));
    forall id: nat | 0 < id && Below(k, id)
      ensures id in log + [sid]
    {
      assert Below(s, id) || id == sid;
    }
  }

  lemma {:induction false} UpToFull(s: Streams, sid: nat, id: nat, log: seq<nat>) returns (added: seq<nat>)
    requires Inv(s) && NextUp(s, sid, id) && sid == First(s) && Full(s, log)
    ensures var k := OpenUpTo(s, sid, id).0; k.listing == s.listing + added && Full(k, log + added)
    decreases if sid <= id then id - sid + 1 else 0
  {
    if sid <= id && RemoteOutcome(s, sid).Opened? {
      RemoteNext(s, sid, id);
      RemoteFull(s, log);
      var rest := UpToFull(OpenRemote(s, sid), sid + 2, id, log + [sid]);
      added := [sid] + rest;
      Assoc(s.listing, [sid], rest);
      Assoc(log, [sid], rest);
    } else {
      added := [];
      NoMore(s.listing);
      NoMore(log);
    }
  }

  lemma LocalFull(s: Streams, maxOutgoing: nat, log: seq<nat>)
    requires Shaped(s) && LocalAllowed(s, maxOutgoing) && Full(s, log)
    ensures Full(OpenLocal(s, maxOutgoing), log + [s.next])
  {
    var k := OpenLocal(s, maxOutgoing);
    forall id: nat | 0 < id && Below(k, id)
      ensures id in log + [s.next]
    {
      assert Below(s, id) || id == s.next;
    }
  }

  lemma StepFull(r: Run, e: Event)
    requires RunInv(r) && Full(r.s, r.created)
    ensures Full(Then(r, e).s, Then(r, e).created)
  {
    if e.Request? && !Known(r.s, e.id) {
      FirstIsNext(r.s, e.id);
      var added := UpToFull(r.s, First(r.s), e.id, r.created);
      Tail(r.s.listing, added);
    } else if e.Open? && LocalAllowed(r.s, e.maxOutgoing) {
      LocalShaped(r.s, e.maxOutgoing);
      LocalFull(r.s, e.maxOutgoing, r.created);
      Tail(r.s.listing, [r.s.next]);
    } else {
      SameMarks(r.s, e);
    }
  }

  lemma SameMarks(s: Streams, e: Event)
    requires !(e.Request? && !Known(s, e.id)) && !(e.Open? && LocalAllowed(s, e.maxOutgoing))
    ensures var k := Step(s, e); k.next == s.next && k.highest == s.highest && k.server == s.server
  {
  }

  lemma {:induction false} RunFull(r: Run, events: seq<Event>)
    requires RunInv(r) && Full(r.s, r.created)
    ensures Full(After(r, events).s, After(r, events).created)
    decreases |events|
  {
    if events != [] {
      StepKeeps(r, events[0]);
      StepFull(r, events[0]);
      RunFull(Then(r, events[0]), events[1..]);
    }
  }

  /**
   * In every run, a request is answered that the stream is closed if and only if the stream has been closed, or it is
   * the one that this side would open next.
   */
  lemma ClosedExactly(server: bool, maxIncoming: nat, events: seq<Event>, id: nat)
    requires id > 0
    ensures var r := After(Run(Fresh(server, maxIncoming), [], []), events);
            && (GetAnswer(r.s, id) == Closed <==> id in r.closed || id == r.s.next)
            && (id in r.s.streams ==> GetAnswer(r.s, id) == Stream(id))
            && (Ours(r.s, id) && id > r.s.next ==> GetAnswer(r.s, id) == Error(InvalidID))
  {
    var r := RunFacts(server, maxIncoming, events);
    AnswerClosed(r, id);
  }

  lemma RunFacts(server: bool, maxIncoming: nat, events: seq<Event>) returns (r: Run)
    ensures r == After(Run(Fresh(server, maxIncoming), [], []), events)
    ensures RunInv(r) && Accounted(r) && Full(r.s, r.created)
  {
    var start := Run(Fresh(server, maxIncoming), [], []);
    FreshInv(server, maxIncoming);
    RunKeeps(start, events);
    RunAccounted(start, events);
    RunFull(start, events);
    r := After(start, events);
  }

  lemma AnswerClosed(r: Run, id: nat)
    requires RunInv(r) && Accounted(r) && Full(r.s, r.created) && id > 0
    ensures GetAnswer(r.s, id) == Closed <==> id in r.closed || id == r.s.next
    ensures id in r.s.streams ==> GetAnswer(r.s, id) == Stream(id)
    ensures Ours(r.s, id) && id > r.s.next ==> GetAnswer(r.s, id) == Error(InvalidID)
  {
    if !Known(r.s, id) {
      AnswerExactly(r.s, id);
    }
  }

  // ----- opening a stream of this side -----

  /** A stream of this side is opened exactly when there are fewer streams with even numbers than are allowed. */
  lemma LocalExactly(s: Streams, maxOutgoing: nat)
    requires Inv(s)
    ensures s.next in OpenLocal(s, maxOutgoing).streams <==> Count(s.listing, 0) < maxOutgoing
    ensures OpenLocal(s, maxOutgoing).streams - {s.next} == s.streams
  {
    LocalShaped(s, maxOutgoing);
  }

  function OpenTimes(s: Streams, maxOutgoing: nat, n: nat): Streams {
    if n == 0 then s else OpenLocal(OpenTimes(s, maxOutgoing, n - 1), maxOutgoing)
  }

  /**
   * On a client these are the streams of the peer. As long as the peer has fewer open, the client can open any number
   * of its own; from then on it can open none.
   */
  lemma {:induction false} ClientOpens(s: Streams, maxOutgoing: nat, n: nat) returns (k: Streams)
    requires Inv(s) && !s.server
    ensures k == OpenTimes(s, maxOutgoing, n) && Inv(k) && !k.server && Count(k.listing, 0) == Count(s.listing, 0)
    ensures Count(k.listing, 1) == Count(s.listing, 1) + if Count(s.listing, 0) < maxOutgoing then n else 0
    decreases n
  {
    if n == 0 {
      k := s;
    } else {
      var j := ClientOpens(s, maxOutgoing, n - 1);
      k := ClientOpensOne(j, maxOutgoing);
    }
  }

  lemma ClientOpensOne(s: Streams, maxOutgoing: nat) returns (k: Streams)
    requires Inv(s) && !s.server
    ensures k == OpenLocal(s, maxOutgoing) && Inv(k) && !k.server && Count(k.listing, 0) == Count(s.listing, 0)
    ensures Count(k.listing, 1) == Count(s.listing, 1) + if Count(s.listing, 0) < maxOutgoing then 1 else 0
  {
    k := OpenLocal(s, maxOutgoing);
    LocalKeeps(s, maxOutgoing);
    ClientCounters(s, maxOutgoing);
  }

  lemma ClientCounters(s: Streams, maxOutgoing: nat)
    requires !s.server
    ensures var k := OpenLocal(s, maxOutgoing);
            && !k.server && k.outgoing == s.outgoing
            && k.incoming == s.incoming + if s.outgoing < maxOutgoing then 1 else 0
  {
  }
}
