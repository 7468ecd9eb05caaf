/** The streams map as the session holds it: a map, a list and counters that its methods update in place. */
module SessionStreams {
  import opened Basics
  import opened StreamsMap
  import opened RoundRobin

  function Ids(ids: seq<nat>): set<nat> { set id | id in ids }

  lemma {:induction false} DistinctCard(ids: seq<nat>)
    requires Distinct(ids)
    ensures |Ids(ids)| == |ids|
  {
    if ids == [] {
      assert Ids(ids) == {};
    } else {
      DistinctTail(ids);
      DistinctCard(ids[1..]);
      IdsTail(ids);
    }
  }

  lemma IdsTail(ids: seq<nat>)
    requires ids != []
    ensures Ids(ids) == {ids[0]} + Ids(ids[1..])
  {
    assert ids == [ids[0]] + ids[1..];
  }

  class SessionStreamsMap {
    const server: bool
    const maxIncoming: nat
    var streams: set<nat>
    var openStreams: seq<nat>
    var roundRobinIndex: nat
    var nextStream: nat
    var highestStreamOpenedByPeer: nat
    var nextStreamToAccept: nat
    var numOutgoingStreams: int
    var numIncomingStreams: int

    function State(): Streams
      reads this
    {
      Streams(server, maxIncoming, streams, openStreams, roundRobinIndex, nextStream, highestStreamOpenedByPeer,
              nextStreamToAccept, numOutgoingStreams, numIncomingStreams)
    }

    constructor (isServer: bool, maxStreams: nat)
      ensures State() == Fresh(isServer, maxStreams)
    {
      server := isServer;
      maxIncoming := maxStreams;
      streams, openStreams, roundRobinIndex := {}, [], 0;
      highestStreamOpenedByPeer, numOutgoingStreams, numIncomingStreams := 0, 0, 0;
      if isServer {
        nextStream, nextStreamToAccept := 2, 1;
      } else {
        nextStream, nextStreamToAccept := 1, 2;
      }
    }

    method PutStream(id: nat)
      modifies `streams, `openStreams
      ensures State() == Put(old(State()), id)
    {
      if id !in streams {
        streams := streams + {id};
        openStreams := openStreams + [id];
      }
    }

    method OpenRemoteStream(id: nat) returns (outcome: Outcome)
      modifies this
      ensures State() == OpenRemote(old(State()), id)
      ensures outcome == RemoteOutcome(old(State()), id)
    {
      if numIncomingStreams >= maxIncoming {
        return TooMany;
      }
      if id + MAX_DELTA < highestStreamOpenedByPeer {
        return InvalidID;
      }
      if server {
        numIncomingStreams := numIncomingStreams + 1;
      } else {
        numOutgoingStreams := numOutgoingStreams + 1;
      }
      if id > highestStreamOpenedByPeer {
        highestStreamOpenedByPeer := id;
      }
      PutStream(id);
      return Opened;
    }

    method OpenStreamImpl(maxOutgoing: nat) returns (id: Option<nat>)
      modifies this
      ensures State() == OpenLocal(old(State()), maxOutgoing)
      ensures id == if LocalAllowed(old(State()), maxOutgoing) then Some(old(nextStream)) else None
    {
      var next := nextStream;
      if numOutgoingStreams >= maxOutgoing {
        return None;
      }
      if server {
        numOutgoingStreams := numOutgoingStreams + 1;
      } else {
        numIncomingStreams := numIncomingStreams + 1;
      }
      nextStream := nextStream + 2;
      PutStream(next);
      return Some(next);
    }

    method GetOrOpenStream(id: nat) returns (answer: Answer)
      modifies this
      ensures State() == Get(old(State()), id)
      ensures answer == GetAnswer(old(State()), id)
    {
      if id in streams {
        return Stream(id);
      }
      if server {
        if id % 2 == 0 {
          return if id <= nextStream then Closed else Error(InvalidID);
        }
        if id <= highestStreamOpenedByPeer {
          return Closed;
        }
      }
      if !server {
        if id % 2 == 1 {
          return if id <= nextStream then Closed else Error(InvalidID);
        }
        if id <= highestStreamOpenedByPeer {
          return Closed;
        }
      }
      var sid := highestStreamOpenedByPeer + 2;
      if sid == 2 && server {
        sid := 1;
      }
      var outcome := OpenAll(sid, id);
      if !outcome.Opened? {
        return Error(outcome);
      }
      answer := if id in streams then Stream(id) else Closed;
    }

    method OpenAll(start: nat, id: nat) returns (outcome: Outcome)
      modifies this
      ensures (State(), outcome) == OpenUpTo(old(State()), start, id)
    {
      var sid := start;
      outcome := Opened;
      while sid <= id
        invariant outcome == Opened && OpenUpTo(State(), sid, id) == OpenUpTo(old(State()), start, id)
        decreases if sid <= id then id - sid + 1 else 0
      {
        outcome := OpenRemoteStream(sid);
        if !outcome.Opened? {
          return;
        }
        sid := sid + 2;
      }
    }

    /** None when AcceptStream would have to wait. */
    method AcceptStream() returns (stream: Option<nat>)
      modifies `nextStreamToAccept
      ensures State() == Accept(old(State()))
      ensures stream == if old(nextStreamToAccept) in old(streams) then Some(old(nextStreamToAccept)) else None
    {
      if nextStreamToAccept !in streams {
        return None;
      }
      stream := Some(nextStreamToAccept);
      nextStreamToAccept := nextStreamToAccept + 2;
    }

    /** The first place of `id` in the list of open streams. */
    method FindOpen(id: nat) returns (i: nat)
      ensures i == Place(openStreams, id)
    {
      i := 0;
      while i < |openStreams| && openStreams[i] != id
        invariant i <= |openStreams|
        invariant i + Place(openStreams[i..], id) == Place(openStreams, id)
      {
        assert openStreams[i..][1..] == openStreams[i + 1..];
        i := i + 1;
      }
    }

    method RemoveStream(id: nat) returns (known: bool)
      modifies this
      ensures State() == Remove(old(State()), id)
      ensures known <==> id in old(streams)
    {
      if id !in streams {
        return false;
      }
      if id % 2 == 0 {
        numOutgoingStreams := numOutgoingStreams - 1;
      } else {
        numIncomingStreams := numIncomingStreams - 1;
      }
      var i := FindOpen(id);
      if i < |openStreams| {
        openStreams := openStreams[..i] + openStreams[i + 1..];
        if i < roundRobinIndex {
          roundRobinIndex := roundRobinIndex - 1;
        }
      }
      streams := streams - {id};
      return true;
    }

    /** The crypto and the header stream, as far as they are open. */
    method VisitSpecial(reply: nat -> Reply) returns (visited: seq<nat>, last: Reply)
      ensures visited == Until(If(State(), 1) + If(State(), 3), reply)
      ensures last.Continue? <==> AllContinue(If(State(), 1) + If(State(), 3), reply)
      ensures last == LastReply(visited, reply)
    {
      var specials := [1, 3];
      visited, last := [], Continue;
      ghost var goal := If(State(), 1) + If(State(), 3);
      for j := 0 to 2
        invariant last.Continue? && last == LastReply(visited, reply)
        invariant j == 0 ==> visited == []
        invariant j == 1 ==> visited == If(State(), 1) && AllContinue(visited, reply)
        invariant j == 2 ==> visited == goal && AllContinue(goal, reply)
      {
        if specials[j] in streams {
          visited := visited + [specials[j]];
          last := reply(specials[j]);
          if !last.Continue? {
            return;
          }
        }
      }
      UntilAll(goal, reply);
    }

    method VisitOthers(reply: nat -> Reply) returns (visited: seq<nat>, last: Reply)
      requires Listed(State())
      modifies `roundRobinIndex
      ensures visited == Left(openStreams, old(roundRobinIndex), 0, reply)
      ensures last == LastReply(visited, reply)
      ensures roundRobinIndex == Turned(old(roundRobinIndex), Moves(visited, reply), |openStreams|)
    {
      SameSize();
      var numStreams := |streams|;
      var startIndex := roundRobinIndex;
      visited, last := [], Continue;
      var i := 0;
      assert visited + Left(openStreams, startIndex, 0, reply) == Left(openStreams, startIndex, 0, reply);
      while i < numStreams
        invariant i <= numStreams && last.Continue? && last == LastReply(visited, reply)
        invariant visited + Left(openStreams, startIndex, i, reply) == Left(openStreams, startIndex, 0, reply)
        invariant roundRobinIndex == Turned(startIndex, Moves(visited, reply), numStreams)
      {
        visited, last := VisitOne(i, startIndex, numStreams, visited, reply);
        if !last.Continue? {
          return;
        }
        i := i + 1;
      }
    }

    /** The stream at place i, unless it is one of the special two. */
    method VisitOne(i: nat, startIndex: nat, numStreams: nat, before: seq<nat>, reply: nat -> Reply)
      returns (visited: seq<nat>, last: Reply)
      requires i < numStreams == |openStreams| && LastReply(before, reply).Continue?
      requires roundRobinIndex == Turned(startIndex, Moves(before, reply), numStreams)
      modifies `roundRobinIndex
      ensures before + Left(openStreams, startIndex, i, reply) ==
              visited + (if last.Continue? then Left(openStreams, startIndex, i + 1, reply) else [])
      ensures last == LastReply(visited, reply)
      ensures roundRobinIndex == Turned(startIndex, Moves(visited, reply), numStreams)
    {
      var streamID := openStreams[(i + startIndex) % numStreams];
      LeftStep(openStreams, startIndex, i, before, reply);
      if Special(streamID) {
        return before, Continue;
      }
      visited := before + [streamID];
      last := reply(streamID);
      if !last.Fail? {
        roundRobinIndex := (roundRobinIndex + 1) % numStreams;
      }
    }

    lemma SameSize()
      requires Listed(State())
      ensures |streams| == |openStreams|
    {
      DistinctCard(openStreams);
      assert streams == Ids(openStreams);
    }

    /**
     * Calls the callback on the streams in the order of a round, as far as it lets it. The next round starts as many
     * places further on as streams other than 1 and 3 were served.
     */
    method RoundRobinIterate(reply: nat -> Reply) returns (visited: seq<nat>, failed: bool)
      requires Listed(State())
      modifies `roundRobinIndex
      ensures visited == Until(Order(old(State())), reply)
      ensures failed <==> LastReply(visited, reply).Fail?
      ensures roundRobinIndex == Turned(old(roundRobinIndex), Moves(visited, reply), |openStreams|)
    {
      RoundParts(State(), reply);
      var last;
      visited, last := VisitSpecial(reply);
      if !last.Continue? {
        return visited, last.Fail?;
      }
      var more;
      more, last := VisitOthers(reply);
      Joined(visited, more, reply);
      return visited + more, last.Fail?;
    }
  }

  /** What two parts of a round come to, the first of which the callback did not stop. */
  lemma Joined(a: seq<nat>, b: seq<nat>, reply: nat -> Reply)
    requires LastReply(a, reply).Continue? && Moves(a, reply) == 0
    ensures LastReply(a + b, reply) == LastReply(b, reply) && Moves(a + b, reply) == Moves(b, reply)
  {
    MovesConcat(a, b, reply);
    if b == [] {
      assert a + b == a;
    }
  }

  lemma RoundParts(s: Streams, reply: nat -> Reply)
    ensures var first := If(s, 1) + If(s, 3);
            && Moves(Until(first, reply), reply) == 0
            && Until(Order(s), reply) ==
               if AllContinue(first, reply) then Until(first, reply) + Left(s.listing, s.index, 0, reply)
               else Until(first, reply)
  {
    var first := If(s, 1) + If(s, 3);
    UntilConcat(first, Others(Around(s.listing, s.index, 0)), reply);
    NoMoves(first, reply);
    if AllContinue(first, reply) {
      UntilAll(first, reply);
    }
  }

  function LastReply(visited: seq<nat>, reply: nat -> Reply): Reply {
    if visited == [] then Continue else reply(visited[|visited| - 1])
  }

  /** What a round still takes from place i on. */
  function Left(ids: seq<nat>, start: nat, i: nat, reply: nat -> Reply): seq<nat> {
    Until(Others(Around(ids, start, i)), reply)
  }

  lemma LeftStep(ids: seq<nat>, start: nat, i: nat, visited: seq<nat>, reply: nat -> Reply)
    requires i < |ids|
    ensures var id := ids[(i + start) % |ids|];
            if Special(id) then Left(ids, start, i, reply) == Left(ids, start, i + 1, reply)
            else
              && visited + Left(ids, start, i, reply) ==
                 (visited + [id]) + (if reply(id).Continue? then Left(ids, start, i + 1, reply) else [])
              && Turned(start, Moves(visited + [id], reply), |ids|) ==
                 (if reply(id).Fail? then Turned(start, Moves(visited, reply), |ids|)
                  else (Turned(start, Moves(visited, reply), |ids|) + 1) % |ids|)
  {
    var id := ids[(i + start) % |ids|];
    var rest := Around(ids, start, i + 1);
    assert Around(ids, start, i)[1..] == rest;
    VisitStep(visited, id, Others(rest), reply);
    TurnedStep(start, Moves(visited, reply), |ids|);
  }

  lemma VisitStep(visited: seq<nat>, id: nat, rest: seq<nat>, reply: nat -> Reply)
    ensures visited + Until([id] + rest, reply) ==
            (visited + [id]) + (if reply(id).Continue? then Until(rest, reply) else [])
    ensures Moves(visited + [id], reply) ==
            Moves(visited, reply) + (if Special(id) || reply(id).Fail? then 0 else 1)
  {
    assert ([id] + rest)[1..] == rest;
    MovesConcat(visited, [id], reply);
    Assoc(visited, [id], Until(rest, reply));
    Assoc(visited, [id], []);
  }

  /** The special streams do not move the index. */
  lemma {:induction false} NoMoves(ids: seq<nat>, reply: nat -> Reply)
    requires forall id <- ids :: Special(id)
    ensures Moves(Until(ids, reply), reply) == 0
  {
    if ids != [] {
      NoMoves(ids[1..], reply);
    }
  }
}
