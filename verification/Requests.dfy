/** Requests for new coefficients: one at a time, each with its own identifier, no faster than the cooldown. */
module Requests {
  import opened Basics
  import opened Trigger

  type Time = int

  /** The run's name is the same in all of them; what differs is the millisecond and the serial number. */
  datatype RequestID = RequestID(millis: int, serial: nat)

  datatype Request = Request(id: RequestID, path: PathID, time: Time)

  datatype Controller = Controller(
    paths: map<PathID, Trigger.Path>,
    busy: bool,
    inflight: Option<RequestID>,
    inflightPath: PathID,
    last: Option<Time>,
    serial: nat)

  const IDLE: Controller := Controller(map[], false, None, 0, None, 0)

  datatype Settings = Settings(trigger: Config, cooldown: int, minSamples: int)

  /** What the controller finds outside: the answer, a request nobody has taken, a disk that works, the buffers. */
  datatype World = World(answer: Option<RequestID>, fileThere: bool, canWrite: bool, rows: PathID -> int)

  // ----- samples -----

  function PathOf(c: Controller, path: PathID): Trigger.Path { if path in c.paths then c.paths[path] else NEW_PATH }

  function Observe(s: Settings, c: Controller, path: PathID, current: real, elapsed: real): Controller {
    c.(paths := c.paths[path := Observed(s.trigger, PathOf(c, path), current, elapsed)])
  }

  // ----- answers and requests -----

  predicate Answers(c: Controller, w: World) { c.busy && c.inflight.Some? && w.answer == c.inflight }

  function Respond(c: Controller, w: World, now: Time): Controller {
    if Answers(c, w) then c.(busy := false, inflight := None, inflightPath := 0, last := Some(now)) else c
  }

  predicate Candidate(s: Settings, c: Controller, w: World, path: PathID) {
    path in c.paths && c.paths[path].pending && c.paths[path].triggered && w.rows(path) >= s.minSamples
  }

  /** The first candidate from `path` on. */
  function Pick(s: Settings, c: Controller, w: World, path: nat): (r: Option<PathID>)
    requires path <= 256
    ensures r.Some? ==> path <= r.value && Candidate(s, c, w, r.value)
    ensures forall p: PathID :: Candidate(s, c, w, p) && path <= p ==> r.Some? && r.value <= p
    decreases 256 - path
  {
    if path == 256 then None
    else if Candidate(s, c, w, path) then Some(path)
    else Pick(s, c, w, path + 1)
  }

  predicate CoolingDown(s: Settings, c: Controller, now: Time) { c.last.Some? && now - c.last.value < s.cooldown }

  /** A request is written. */
  predicate Writes(w: World) { !w.fileThere && w.canWrite }

  function NewID(c: Controller, now: Time): RequestID { RequestID(Millis(now), c.serial + 1) }

  /** Nanoseconds to milliseconds, rounded towards zero. */
  function Millis(now: Time): (r: int)
    ensures if now >= 0 then r * 1_000_000 <= now < (r + 1) * 1_000_000 else (r - 1) * 1_000_000 < now <= r * 1_000_000
  {
    if now >= 0 then now / 1_000_000 else -(-now / 1_000_000)
  }

  /** The attempt to write a request: a failed one uses up a serial number, and the path stays pending. */
  function Attempt(c: Controller, w: World, path: PathID, now: Time): Controller
    requires path in c.paths
  {
    if w.fileThere then c
    else if !w.canWrite then c.(serial := c.serial + 1)
    else c.(paths := c.paths[path := c.paths[path].(pending := false)], busy := true, inflight := Some(NewID(c, now)),
            inflightPath := path, last := Some(now), serial := c.serial + 1)
  }

  /** The path that a turn asks for, if it gets as far as asking. */
  function Asks(s: Settings, c: Controller, w: World, now: Time): (r: Option<PathID>)
    ensures r.Some? ==> Candidate(s, c, w, r.value)
  {
    if c.busy || CoolingDown(s, c, now) then None else Pick(s, c, w, 0)
  }

  function TryRequest(s: Settings, c: Controller, w: World, now: Time): Controller {
    var r := Asks(s, c, w, now);
    if r.None? then c else Attempt(c, w, r.value, now)
  }

  function Turn(s: Settings, c: Controller, w: World, now: Time): Controller {
    TryRequest(s, Respond(c, w, now), w, now)
  }

  // ----- runs -----

  datatype Event = Sample(path: PathID, current: real, elapsed: real) | Tick(world: World, now: Time)

  /**
   * The controller, the requests it wrote, how many were answered, every activation of a path, every activation that
   * was over before its request was written, and the clock.
   */
  datatype Run = Run(
    c: Controller,
    requests: seq<Request>,
    answered: nat,
    activations: seq<PathID>,
    dropped: seq<PathID>,
    clock: Time)

  /** Time does not go backwards. */
  predicate Enabled(r: Run, e: Event) { e.Tick? ==> r.clock <= e.now }

  /** The requests a turn writes: none or one. */
  function Written(s: Settings, c: Controller, w: World, now: Time): seq<Request> {
    var d := Respond(c, w, now);
    var r := Asks(s, d, w, now);
    if r.Some? && Writes(w) then [Request(NewID(d, now), r.value, now)] else []
  }

  function Activated(before: Trigger.Path, after: Trigger.Path, path: PathID): seq<PathID> {
    if !before.triggered && after.triggered then [path] else []
  }

  function Dropped(before: Trigger.Path, after: Trigger.Path, path: PathID): seq<PathID> {
    if before.pending && !after.pending then [path] else []
  }

  function Next(s: Settings, r: Run, e: Event): Run {
    match e
    case Sample(path, current, elapsed) =>
      var c := Observe(s, r.c, path, current, elapsed);
      var before, after := PathOf(r.c, path), PathOf(c, path);
      r.(c := c, activations := r.activations + Activated(before, after, path),
         dropped := r.dropped + Dropped(before, after, path))
    case Tick(world, now) =>
      Run(Turn(s, r.c, world, now), r.requests + Written(s, r.c, world, now),
          r.answered + (if Answers(r.c, world) then 1 else 0), r.activations, r.dropped, now)
  }

  // ----- what every run keeps -----

  /** One request at a time, and the one that is out is the last one written. */
  predicate OneOut(r: Run) {
    && |r.requests| == r.answered + (if r.c.busy then 1 else 0)
    && (r.c.busy <==> r.c.inflight.Some?)
    && (r.c.busy ==> r.c.inflight == Some(r.requests[|r.requests| - 1].id))
  }

  /** Serial numbers rise, and times lie at least the cooldown apart. */
  predicate Spaced(s: Settings, requests: seq<Request>) {
    |requests| > 1 ==>
      var n := |requests| - 1;
      && requests[n - 1].id.serial < requests[n].id.serial
      && requests[n - 1].time + s.cooldown <= requests[n].time
      && Spaced(s, requests[..n])
  }

  predicate UpToNow(r: Run) {
    && (r.c.last.Some? ==> r.c.last.value <= r.clock)
    && (r.requests != [] ==>
          var last := r.requests[|r.requests| - 1];
          last.id.serial <= r.c.serial && r.c.last.Some? && last.time <= r.c.last.value)
  }

  function Count<T(==)>(items: seq<T>, x: T): nat {
    if items == [] then 0 else Count(items[..|items| - 1], x) + (if items[|items| - 1] == x then 1 else 0)
  }

  function PathsOf(requests: seq<Request>): seq<PathID> {
    if requests == [] then [] else PathsOf(requests[..|requests| - 1]) + [requests[|requests| - 1].path]
  }

  predicate Owed(r: Run, path: PathID) {
    var p := PathOf(r.c, path);
    && (p.pending ==> p.triggered)
    && Count(PathsOf(r.requests), path) + Count(r.dropped, path) + (if p.pending then 1 else 0) ==
       Count(r.activations, path)
  }

  /** Every activation of a path leads to one request, is still waiting for it, or was over before. */
  predicate Earned(r: Run) { forall path: PathID :: Owed(r, path) }

  predicate Inv(s: Settings, r: Run) { OneOut(r) && Spaced(s, r.requests) && UpToNow(r) && Earned(r) }

  lemma CountAppend<T>(items: seq<T>, x: T, y: T)
    ensures Count(items + [x], y) == Count(items, y) + (if x == y then 1 else 0)
  {
    assert (items + [x])[..|items + [x]| - 1] == items;
  }

  lemma PathsOfAppend(requests: seq<Request>, q: Request)
    ensures PathsOf(requests + [q]) == PathsOf(requests) + [q.path]
  {
    assert (requests + [q])[..|requests + [q]| - 1] == requests;
  }

  lemma SpacedAppend(s: Settings, requests: seq<Request>, q: Request)
    requires Spaced(s, requests)
    requires requests != [] ==>
      var last := requests[|requests| - 1]; last.id.serial < q.id.serial && last.time + s.cooldown <= q.time
    ensures Spaced(s, requests + [q])
  {
    assert (requests + [q])[..|requests + [q]| - 1] == requests;
  }

  // ----- a sample -----

  /** A sample makes a request pending only by triggering the path. */
  lemma ObservedPending(c: Config, p: Trigger.Path, current: real, elapsed: real)
    requires p.pending ==> p.triggered
    ensures var q := Observed(c, p, current, elapsed);
            && (q.pending ==> q.triggered)
            && (!p.triggered && q.triggered ==> q.pending)
            && (q.pending && !p.pending ==> !p.triggered)
  {
    PendingExact(c, p, current, elapsed);
  }

  lemma SampleOwed(s: Settings, r: Run, path: PathID, current: real, elapsed: real, q: PathID)
    requires Owed(r, q)
    ensures Owed(Next(s, r, Sample(path, current, elapsed)), q)
  {
    var before, after := PathOf(r.c, path), PathOf(Observe(s, r.c, path, current, elapsed), path);
    if !before.triggered && after.triggered {
      CountAppend(r.activations, path, q);
    } else {
      assert r.activations + [] == r.activations;
    }
    if before.pending && !after.pending {
      CountAppend(r.dropped, path, q);
    } else {
      assert r.dropped + [] == r.dropped;
    }
    if q == path {
      ObservedPending(s.trigger, before, current, elapsed);
    }
  }

  lemma SampleKeeps(s: Settings, r: Run, path: PathID, current: real, elapsed: real)
    requires Inv(s, r)
    ensures Inv(s, Next(s, r, Sample(path, current, elapsed)))
  {
    forall q: PathID
      ensures Owed(Next(s, r, Sample(path, current, elapsed)), q)
    {
      SampleOwed(s, r, path, current, elapsed, q);
    }
  }

  // ----- a turn -----

  function Responded(r: Run, w: World, now: Time): Run {
    r.(c := Respond(r.c, w, now), answered := r.answered + (if Answers(r.c, w) then 1 else 0), clock := now)
  }

  lemma RespondKeeps(s: Settings, r: Run, w: World, now: Time)
    requires Inv(s, r) && r.clock <= now
    ensures Inv(s, Responded(r, w, now))
  {
    forall q: PathID
      ensures Owed(Responded(r, w, now), q)
    {
      assert Owed(r, q);
    }
  }

  /** The run with one more request. */
  function Asked(r: Run, w: World, path: PathID): Run
    requires path in r.c.paths
  {
    r.(c := Attempt(r.c, w, path, r.clock),
       requests := if Writes(w) then r.requests + [Request(NewID(r.c, r.clock), path, r.clock)] else r.requests)
  }

  lemma AskedOwed(r: Run, w: World, path: PathID, q: PathID)
    requires path in r.c.paths && r.c.paths[path].pending && Owed(r, q)
    ensures Owed(Asked(r, w, path), q)
  {
    if Writes(w) {
      var request := Request(NewID(r.c, r.clock), path, r.clock);
      PathsOfAppend(r.requests, request);
      CountAppend(PathsOf(r.requests), path, q);
    }
  }

  lemma AskedSpaced(s: Settings, r: Run, w: World, path: PathID)
    requires Inv(s, r) && path in r.c.paths && !r.c.busy && !CoolingDown(s, r.c, r.clock)
    ensures Spaced(s, Asked(r, w, path).requests)
  {
    if Writes(w) {
      SpacedAppend(s, r.requests, Request(NewID(r.c, r.clock), path, r.clock));
    }
  }

  lemma AskedKeeps(s: Settings, r: Run, w: World, path: PathID)
    requires Inv(s, r) && path in r.c.paths && r.c.paths[path].pending && !r.c.busy && !CoolingDown(s, r.c, r.clock)
    ensures Inv(s, Asked(r, w, path))
  {
    forall q: PathID
      ensures Owed(Asked(r, w, path), q)
    {
      assert Owed(r, q);
      AskedOwed(r, w, path, q);
    }
    AskedSpaced(s, r, w, path);
  }

  /** A turn is an answer, if there is one, and then a request, if one is due. */
  lemma TickIs(s: Settings, r: Run, w: World, now: Time)
    ensures var d := Responded(r, w, now); var ask := Asks(s, d.c, w, now);
            Next(s, r, Tick(w, now)) == if ask.None? then d else Asked(d, w, ask.value)
  {
    assert r.requests + [] == r.requests;
  }

  lemma StepKeeps(s: Settings, r: Run, e: Event)
    requires Inv(s, r) && Enabled(r, e)
    ensures Inv(s, Next(s, r, e))
  {
    match e
    case Sample(path, current, elapsed) =>
      SampleKeeps(s, r, path, current, elapsed);
    case Tick(w, now) =>
      RespondKeeps(s, r, w, now);
      TickIs(s, r, w, now);
      var d := Responded(r, w, now);
      var ask := Asks(s, d.c, w, now);
      if ask.Some? {
        AskedKeeps(s, d, w, ask.value);
      }
  }

  predicate Possible(s: Settings, r: Run, events: seq<Event>)
    decreases |events|, 0
  {
    |events| > 0 ==>
      var before := events[..|events| - 1];
      Possible(s, r, before) && Enabled(Reached(s, r, before), events[|events| - 1])
  }

  function Reached(s: Settings, r: Run, events: seq<Event>): (k: Run)
    requires Possible(s, r, events)
    decreases |events|, 1
  {
    if |events| == 0 then r
    else Next(s, Reached(s, r, events[..|events| - 1]), events[|events| - 1])
  }

  lemma {:induction false} ReachedInv(s: Settings, r: Run, events: seq<Event>)
    requires Inv(s, r) && Possible(s, r, events)
    ensures Inv(s, Reached(s, r, events))
    decreases |events|
  {
    if |events| > 0 {
      ReachedInv(s, r, events[..|events| - 1]);
      StepKeeps(s, Reached(s, r, events[..|events| - 1]), events[|events| - 1]);
    }
  }

  /** Of any two requests, the later one has the larger serial number and comes at least the cooldown later. */
  lemma {:induction false} SpacedAll(s: Settings, requests: seq<Request>, i: nat, j: nat)
    requires Spaced(s, requests) && i < j < |requests|
    ensures requests[i].id.serial < requests[j].id.serial && requests[i].id != requests[j].id
    ensures s.cooldown >= 0 ==> requests[i].time + s.cooldown <= requests[j].time
    decreases |requests|
  {
    var n := |requests| - 1;
    if j < n {
      SpacedAll(s, requests[..n], i, j);
    } else if i < n - 1 {
      SpacedAll(s, requests[..n], i, n - 1);
    }
  }

  /**
   * In every run of a new controller: at most one request is out, identifiers differ, requests are at least the
   * cooldown apart, and every activation of a path has led to one request, still waits for it or was over before.
   */
  lemma ProtocolHolds(s: Settings, clock: Time, events: seq<Event>, i: nat, j: nat, path: PathID)
    requires Possible(s, Run(IDLE, [], 0, [], [], clock), events)
    ensures var r := Reached(s, Run(IDLE, [], 0, [], [], clock), events);
            && r.answered <= |r.requests| <= r.answered + 1
            && Count(PathsOf(r.requests), path) + Count(r.dropped, path) +
               (if PathOf(r.c, path).pending then 1 else 0) == Count(r.activations, path)
            && (i < j < |r.requests| ==>
                  && r.requests[i].id != r.requests[j].id
                  && (s.cooldown >= 0 ==> r.requests[i].time + s.cooldown <= r.requests[j].time))
  {
    var start := Run(IDLE, [], 0, [], [], clock);
    ReachedInv(s, start, events);
    var r := Reached(s, start, events);
    assert Owed(r, path);
    if i < j < |r.requests| {
      SpacedAll(s, r.requests, i, j);
    }
  }

  /** When exactly a turn writes a request, and for which path. */
  lemma WritesExactly(s: Settings, c: Controller, w: World, now: Time)
    ensures var d := Respond(c, w, now);
            && (Written(s, c, w, now) != [] <==>
                  && !d.busy && (d.last.Some? ==> now - d.last.value >= s.cooldown) && !w.fileThere && w.canWrite
                  && exists p :: p in d.paths && Waiting(d.paths[p], w.rows(p), s.minSamples))
            && (Written(s, c, w, now) != [] ==>
                  var p := Written(s, c, w, now)[0].path;
                  && p in d.paths && Waiting(d.paths[p], w.rows(p), s.minSamples)
                  && (forall q :: q in d.paths && Waiting(d.paths[q], w.rows(q), s.minSamples) ==> p <= q)
                  && Turn(s, c, w, now).paths == d.paths[p := d.paths[p].(pending := false)]
                  && Turn(s, c, w, now).inflight == Some(Written(s, c, w, now)[0].id))
            && (Written(s, c, w, now) == [] ==> Turn(s, c, w, now).paths == c.paths)
  {
    var d := Respond(c, w, now);
    var ask := Asks(s, d, w, now);
    assert ask.Some? ==> Candidate(s, d, w, ask.value);
    if exists p :: p in d.paths && Waiting(d.paths[p], w.rows(p), s.minSamples) {
      var p :| p in d.paths && Waiting(d.paths[p], w.rows(p), s.minSamples);
      assert Candidate(s, d, w, p);
    }
    forall q | q in d.paths && Waiting(d.paths[q], w.rows(q), s.minSamples)
      ensures Candidate(s, d, w, q)
    {
    }
  }

  /** A request for the path is due, and there is enough to send with it. */
  predicate Waiting(p: Trigger.Path, rows: int, minSamples: int) { p.pending && p.triggered && rows >= minSamples }

  /** When a controller goes idle: exactly when the answer to the request that is out has come. */
  lemma AnsweredExactly(c: Controller, w: World, now: Time)
    requires c.busy <==> c.inflight.Some?
    ensures var d := Respond(c, w, now);
            && (c.busy && !d.busy <==> c.inflight.Some? && w.answer == c.inflight)
            && (c.busy && !d.busy ==> d.inflight.None? && d.last == Some(now))
            && (!(c.busy && !d.busy) ==> d == c) && d.paths == c.paths
  {
  }

  /** An answer starts the cooldown again: no request is written in the same turn, nor before the cooldown is over. */
  lemma CoolsAfterAnswer(s: Settings, c: Controller, w: World, now: Time, v: World, later: Time)
    requires Answers(c, w) && now <= later < now + s.cooldown
    ensures Written(s, c, w, now) == []
    ensures Written(s, Turn(s, c, w, now), v, later) == []
  {
    var d := Respond(c, w, now);
    assert CoolingDown(s, d, now);
    assert Turn(s, c, w, now) == d;
  }
}
