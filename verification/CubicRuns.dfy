/** What every run of the CUBIC sender keeps, and the one way to lose it. */
module CubicRuns {
  import opened Basics
  import opened Cubic
  import opened CubicWindow
  import opened CubicFriendly

  datatype Event = Ack(window: nat, now: int, delay: int) | Loss(window: nat) | Limited(now: int) | Reset

  /** The sender, the window its epoch began with, the position of its last target and the ACKs of the epoch so far. */
  datatype Run = Run(curve: Curve, start: nat, position: int, acks: nat)

  /** Go's shift by ten wraps around after 285 years. */
  const MAX_DURATION: int := 9_007_199_254_740_992_000

  /** The time from the epoch, as the acknowledgement places it, to the acknowledgement one round trip later. */
  function Duration(s: Curve, window: nat, now: int, delay: int): int {
    now + delay - Placed(s, window, now).epoch.value
  }

  /**
   * The numbers fit when something is computed: the product at this position, and the product at the start of an
   * epoch that begins, which is not too far below its origin.
   */
  predicate Fits(r: Run, e: Event) {
    match e
    case Ack(window, now, delay) =>
      || Recent(r.curve, window, now)
      || (&& window < TWO_63
          && Duration(r.curve, window, now, delay) < MAX_DURATION
          && Position(r.curve, window, now, delay) - Placed(r.curve, window, now).k <= MAX_OFFSET
          && (r.curve.epoch.None? ==> r.curve.lastMax - window <= MAX_DROP))
    case Loss(window) => window < TWO_63
    case Limited(now) => true
    case Reset => true
  }

  /** The epoch does not lie in the future of an acknowledgement for which something is computed. */
  predicate Begins(r: Run, e: Event) {
    e.Ack? && !Recent(r.curve, e.window, e.now) ==> 0 <= Duration(r.curve, e.window, e.now, e.delay)
  }

  /** The arithmetic is right. */
  predicate Enabled(r: Run, e: Event) { Fits(r, e) && Begins(r, e) }

  function Next(r: Run, e: Event): Run
    requires r.curve.connections > 0
  {
    match e
    case Ack(window, now, delay) =>
      var s := AfterAck(r.curve, window, now, delay);
      if Recent(r.curve, window, now) then r.(curve := s, acks := r.acks + 1)
      else
        var position := Position(r.curve, window, now, delay);
        if r.curve.epoch.None? then Run(s, window, position, 1) else Run(s, r.start, position, r.acks + 1)
    case Loss(window) => r.(curve := AfterLoss(r.curve, window))
    case Limited(now) => r.(curve := Limit(r.curve, now))
    case Reset => r.(curve := Cleared(r.curve.connections))
  }

  predicate OnCurve(s: Curve, start: nat, position: int) {
    && EpochOk(start, s.origin, s.k) && s.origin < TWO_63
    && InReach(s.k, position)
    && s.lastTarget == Target(s.origin, s.k, position)
    && start <= s.estimate
  }

  predicate Inv(r: Run) {
    && r.curve.connections > 0 && r.curve.lastMax < TWO_63
    && (r.curve.epoch.Some? ==> OnCurve(r.curve, r.start, r.position))
  }

  lemma TicksMono(d1: int, d2: int)
    requires 0 <= d1 <= d2 < MAX_DURATION
    ensures 0 <= Ticks(d1) <= Ticks(d2)
  {
    TicksAre(d1);
    TicksAre(d2);
    assert d1 / 1000 <= d2 / 1000;
  }

  lemma TicksAre(d: int)
    requires 0 <= d < MAX_DURATION
    ensures Ticks(d) == d / 1000 * 1024 / 1_000_000
  {
    assert 0 <= d / 1000 * 1024 < TWO_63;
  }

  /** The epoch that begins has the shape that the curve needs. */
  lemma BegunOk(s: Curve, window: nat, now: int)
    requires s.lastMax < TWO_63 && window < TWO_63 && s.lastMax - window <= MAX_DROP
    ensures var t := Begun(s, window, now); EpochOk(window, t.origin, t.k) && t.origin < TWO_63
  {
    if s.lastMax > window {
      NoWrap(CUBE_FACTOR * (s.lastMax - window));
      DropExact(Begun(s, window, now).k, s.lastMax - window);
    }
  }

  lemma PlacedOk(r: Run, window: nat, now: int, delay: int)
    requires Inv(r) && Enabled(r, Ack(window, now, delay)) && !Recent(r.curve, window, now)
    ensures var t := Placed(r.curve, window, now);
            var start := if r.curve.epoch.None? then window else r.start;
            && EpochOk(start, t.origin, t.k) && t.origin < TWO_63 && start <= t.estimate
            && InReach(t.k, Position(r.curve, window, now, delay))
  {
    if r.curve.epoch.None? {
      BegunOk(r.curve.(acked := r.curve.acked + 1, lastWindow := window, updated := Some(now)), window, now);
    }
    var d := Duration(r.curve, window, now, delay);
    TicksMono(d, d);
  }

  lemma AckKeeps(r: Run, window: nat, now: int, delay: int)
    requires Inv(r) && Enabled(r, Ack(window, now, delay))
    ensures Inv(Next(r, Ack(window, now, delay)))
  {
    if !Recent(r.curve, window, now) {
      PlacedOk(r, window, now, delay);
    }
  }

  lemma StepKeeps(r: Run, e: Event)
    requires Inv(r) && Enabled(r, e)
    ensures Inv(Next(r, e))
  {
    match e
    case Ack(window, now, delay) => AckKeeps(r, window, now, delay);
    case Loss(window) => LossKeeps(r, window);
    case Limited(now) =>
    case Reset =>
  }

  lemma LossKeeps(r: Run, window: nat)
    requires Inv(r) && window < TWO_63
    ensures Inv(Next(r, Loss(window)))
  {
    assert 0.85 * window as real <= window as real;
  }

  function Reached(r: Run, events: seq<Event>): (k: Run)
    requires r.curve.connections > 0
    ensures k.curve.connections > 0
    decreases |events|
  {
    if |events| == 0 then r
    else Next(Reached(r, events[..|events| - 1]), events[|events| - 1])
  }

  /** The arithmetic is right at every event. */
  predicate Possible(r: Run, events: seq<Event>)
    requires r.curve.connections > 0
    decreases |events|
  {
    |events| > 0 ==>
      var before := events[..|events| - 1];
      Possible(r, before) && Enabled(Reached(r, before), events[|events| - 1])
  }

  lemma {:induction false} ReachedInv(r: Run, events: seq<Event>)
    requires Inv(r) && Possible(r, events)
    ensures Inv(Reached(r, events))
    decreases |events|
  {
    if |events| > 0 {
      ReachedInv(r, events[..|events| - 1]);
      StepKeeps(Reached(r, events[..|events| - 1]), events[|events| - 1]);
    }
  }

  /**
   * Throughout every run from a new sender, the target is the one of unlimited arithmetic, and the window is
   * never below the one the epoch began with.
   */
  lemma NeverBelowStart(connections: nat, events: seq<Event>)
    requires connections > 0
    requires Possible(Run(Cleared(connections), 0, 0, 0), events)
    ensures var r := Reached(Run(Cleared(connections), 0, 0, 0), events);
            r.curve.epoch.Some? ==>
              && r.curve.lastTarget == IdealTarget(r.curve.origin, r.curve.k, r.position)
              && r.start <= r.curve.lastTarget <= Window(r.curve)
  {
    var r := Run(Cleared(connections), 0, 0, 0);
    ReachedInv(r, events);
    var last := Reached(r, events);
    if last.curve.epoch.Some? {
      TargetIdeal(last.start, last.curve.origin, last.curve.k, last.position);
    }
  }

  // ----- what the estimate has cost -----

  /** The ACKs of the epoch have paid for the estimate, and the rest of them is left over. */
  predicate Paid(r: Run)
    requires r.curve.connections > 0
  {
    r.curve.epoch.Some? ==>
      && r.start <= r.curve.estimate
      && r.acks == Cost(r.start, r.curve.estimate, Alpha(r.curve.connections)) + r.curve.acked
  }

  lemma PaidStep(r: Run, e: Event)
    requires r.curve.connections > 0 && Paid(r)
    ensures Paid(Next(r, e)) && Next(r, e).curve.connections == r.curve.connections
  {
    if e.Ack? && !Recent(r.curve, e.window, e.now) {
      var t := Placed(r.curve, e.window, e.now);
      var k := Next(r, e);
      var alpha := Alpha(r.curve.connections);
      assert Settles(t.acked, t.estimate, alpha, k.curve.acked, k.curve.estimate);
      CostSplits(k.start, t.estimate, k.curve.estimate, alpha);
    }
  }

  lemma {:induction false} ReachedPaid(r: Run, events: seq<Event>)
    requires r.curve.connections > 0 && Paid(r)
    ensures Paid(Reached(r, events)) && Reached(r, events).curve.connections == r.curve.connections
    decreases |events|
  {
    if |events| > 0 {
      ReachedPaid(r, events[..|events| - 1]);
      PaidStep(Reached(r, events[..|events| - 1]), events[|events| - 1]);
    }
  }

  /**
   * In every run, the estimate after an acknowledgement for which something is computed is the largest that the
   * acknowledgements since the epoch began have paid for, starting from the window of that time.
   */
  lemma EstimateExact(connections: nat, events: seq<Event>, window: nat, now: int, delay: int, other: nat)
    requires connections > 0
    requires !Recent(Reached(Run(Cleared(connections), 0, 0, 0), events).curve, window, now)
    ensures var r := Next(Reached(Run(Cleared(connections), 0, 0, 0), events), Ack(window, now, delay));
            && r.start <= r.curve.estimate
            && (r.start <= other ==>
                  (Cost(r.start, other, Alpha(connections)) <= r.acks <==> other <= r.curve.estimate))
            && (connections <= 2 ==> (r.curve.estimate - r.start) * r.start <= r.acks)
  {
    var before := Reached(Run(Cleared(connections), 0, 0, 0), events);
    var r := Next(before, Ack(window, now, delay));
    ReachedPaid(Run(Cleared(connections), 0, 0, 0), events);
    PaidStep(before, Ack(window, now, delay));
    var alpha := Alpha(connections);
    LastSettles(before, window, now, delay);
    if r.start <= other {
      SettlesExact(r.acks, r.start, alpha, r.curve.acked, r.curve.estimate, other);
    }
    if connections <= 2 {
      GrowsSlowly(connections, r.acks, r.start, r.curve.acked, r.curve.estimate);
    }
  }

  lemma LastSettles(r: Run, window: nat, now: int, delay: int)
    requires r.curve.connections > 0 && !Recent(r.curve, window, now)
    ensures var k := Next(r, Ack(window, now, delay)).curve; k.acked < Required(k.estimate, Alpha(r.curve.connections))
  {
    var t := Placed(r.curve, window, now);
    var k := AfterAck(r.curve, window, now, delay);
    assert Settles(t.acked, t.estimate, Alpha(r.curve.connections), k.acked, k.estimate);
  }

  /** Right after an epoch begins, with one or two connections, the estimate is the window it begins with. */
  lemma EpochStartsLevel(s: Curve, window: nat, now: int, delay: int)
    requires 1 <= s.connections <= 2 && s.epoch.None? && !Recent(s, window, now) && window >= 2
    ensures AfterAck(s, window, now, delay).estimate == window
  {
    var t := AfterAck(s, window, now, delay);
    assert Settles(1, window, Alpha(s.connections), t.acked, t.estimate);
    GrowsSlowly(s.connections, 1, window, t.acked, t.estimate);
    if t.estimate > window {
      AtLeastWindow(t.estimate - window, window);
    }
  }

  /** The first answer of a new sender to an acknowledgement is the window it has. */
  lemma FirstAnswer(connections: nat, window: nat, now: int)
    requires 1 <= connections <= 2 && 2 <= window < TWO_64
    ensures Window(AfterAck(Cleared(connections), window, now, 0)) == window
  {
    EpochStartsLevel(Cleared(connections), window, now, 0);
    assert Cube(0) == 0;
    NoWrap(window);
  }

  lemma AtLeastWindow(n: nat, window: nat)
    requires n >= 1
    ensures n * window >= window
  {
  }

  /** An ACK computes nothing exactly when the window is the same and the last one that did is at most 30 ms old. */
  lemma ComputesExactly(s: Curve, window: nat, now: int, delay: int)
    requires s.connections > 0
    ensures var t := AfterAck(s, window, now, delay);
            var quiet := s.lastWindow == window && s.updated.Some? && now <= s.updated.value + 30_000_000;
            && (quiet ==> t == s.(acked := s.acked + 1) && Window(t) == Window(s))
            && (!quiet ==> t.updated == Some(now) && t.lastWindow == window && t.epoch.Some? &&
                           t.lastTarget == Target(t.origin, t.k, Ticks(now + delay - t.epoch.value)))
  {
  }

  // ----- when the epoch does not lie in the future -----

  /** An event's time, if it has one. */
  function TimeOf(e: Event, clock: int): int {
    match e
    case Ack(window, now, delay) => now
    case Limited(now) => now
    case _ => clock
  }

  /** The clock does not run backwards, and no epoch begins while an application-limited period is on record. */
  predicate Timely(s: Curve, clock: int, e: Event) {
    && clock <= TimeOf(e, clock)
    && (e.Ack? ==> e.delay >= 0 && (s.epoch.None? ==> s.limited.None?))
  }

  predicate Times(s: Curve, clock: int) {
    && (s.limited.Some? ==> s.limited.value <= clock)
    && (s.epoch.Some? ==> s.epoch.value <= clock)
    && (s.epoch.Some? && s.limited.Some? ==> s.epoch.value <= s.limited.value)
  }

  lemma TimelyStep(r: Run, clock: int, e: Event)
    requires r.curve.connections > 0 && Times(r.curve, clock) && Timely(r.curve, clock, e)
    ensures Times(Next(r, e).curve, TimeOf(e, clock)) && Begins(r, e)
  {
  }

  /** What the clock shows after a run. */
  function ClockAfter(clock: int, events: seq<Event>): int {
    if |events| == 0 then clock
    else TimeOf(events[|events| - 1], ClockAfter(clock, events[..|events| - 1]))
  }

  /** Every event of the run is timely. */
  predicate InTime(r: Run, clock: int, events: seq<Event>)
    requires r.curve.connections > 0
    decreases |events|
  {
    |events| > 0 ==>
      var before := events[..|events| - 1];
      InTime(r, clock, before) && Timely(Reached(r, before).curve, ClockAfter(clock, before), events[|events| - 1])
  }

  lemma {:induction false} TimelyKeeps(r: Run, clock: int, events: seq<Event>)
    requires r.curve.connections > 0 && Times(r.curve, clock) && InTime(r, clock, events)
    ensures Times(Reached(r, events).curve, ClockAfter(clock, events))
    decreases |events|
  {
    if |events| > 0 {
      var before := events[..|events| - 1];
      TimelyKeeps(r, clock, before);
      TimelyStep(Reached(r, before), ClockAfter(clock, before), events[|events| - 1]);
    }
  }

  /** In a timely run of a new sender, however long, no acknowledgement finds the epoch in the future. */
  lemma NeverInFuture(connections: nat, clock: int, events: seq<Event>, e: Event)
    requires connections > 0
    requires var r := Run(Cleared(connections), 0, 0, 0);
             InTime(r, clock, events) && Timely(Reached(r, events).curve, ClockAfter(clock, events), e)
    ensures Begins(Reached(Run(Cleared(connections), 0, 0, 0), events), e)
  {
    var r := Run(Cleared(connections), 0, 0, 0);
    TimelyKeeps(r, clock, events);
    TimelyStep(Reached(r, events), ClockAfter(clock, events), e);
  }

  predicate AllFit(r: Run, events: seq<Event>)
    requires r.curve.connections > 0
    decreases |events|
  {
    |events| > 0 ==>
      var before := events[..|events| - 1];
      AllFit(r, before) && Fits(Reached(r, before), events[|events| - 1])
  }

  lemma {:induction false} TimelyPossible(connections: nat, clock: int, events: seq<Event>)
    requires connections > 0
    requires var r := Run(Cleared(connections), 0, 0, 0); InTime(r, clock, events) && AllFit(r, events)
    ensures Possible(Run(Cleared(connections), 0, 0, 0), events)
    decreases |events|
  {
    if |events| > 0 {
      var before := events[..|events| - 1];
      TimelyPossible(connections, clock, before);
      NeverInFuture(connections, clock, before, events[|events| - 1]);
    }
  }

  /** In a timely run, the target is right and the window never below the epoch's start as long as the numbers fit. */
  lemma TimelyNeverBelow(connections: nat, clock: int, events: seq<Event>)
    requires connections > 0
    requires var r := Run(Cleared(connections), 0, 0, 0); InTime(r, clock, events) && AllFit(r, events)
    ensures var r := Reached(Run(Cleared(connections), 0, 0, 0), events);
            r.curve.epoch.Some? ==>
              && r.curve.lastTarget == IdealTarget(r.curve.origin, r.curve.k, r.position)
              && r.start <= r.curve.lastTarget <= Window(r.curve)
  {
    TimelyPossible(connections, clock, events);
    NeverBelowStart(connections, events);
  }

  /** After a shift, what counts is the time without the limited period, however long that was. */
  lemma ShiftForgets(s: Curve, window: nat, now: int, delay: int)
    requires s.epoch.Some? && s.limited.Some?
    ensures Duration(s, window, now, delay) == s.limited.value + delay - s.epoch.value
  {
  }

  /** Within an epoch, an acknowledgement further along the curve never lowers the window. */
  lemma AckNeverLowers(r: Run, window: nat, now: int, delay: int)
    requires Inv(r) && Enabled(r, Ack(window, now, delay)) && r.curve.epoch.Some?
    requires r.position <= Position(r.curve, window, now, delay)
    ensures Window(r.curve) <= Window(AfterAck(r.curve, window, now, delay))
  {
    if !Recent(r.curve, window, now) {
      PlacedOk(r, window, now, delay);
      TargetMono(r.start, r.curve.origin, r.curve.k, r.position, Position(r.curve, window, now, delay));
    }
  }

  lemma ReducedBelow(s: Curve, window: nat)
    requires s.connections > 0 && window > 0
    ensures Reduced(s, window) < window
  {
    Sign(1.0 - Beta(s.connections), window as real);
    assert (1.0 - Beta(s.connections)) * window as real == window as real - window as real * Beta(s.connections);
  }

  /**
   * After a loss at a window that is no smaller than the last, the next epoch levels off at exactly that window; the
   * arithmetic is right from its start on exactly when the cut is not too deep.
   */
  lemma LevelsOffAtLoss(s: Curve, window: nat, now: int, delay: int)
    requires s.connections > 0 && s.lastMax <= window && window > 0
    requires CUBE_FACTOR * (window - Reduced(s, window)) < TWO_64
    requires !Recent(s, Reduced(s, window), now)
    ensures var w := Reduced(s, window); var t := AfterAck(AfterLoss(s, window), w, now, delay);
            && w < window && t.origin == window && Curved(w, window, t.k)
            && IdealTarget(t.origin, t.k, t.k) == window
            && (EpochOk(w, window, t.k) <==> window - w <= MAX_DROP)
  {
    ReducedBelow(s, window);
    var t := AfterLoss(s, window);
    var w := Reduced(s, window);
    var u := Begun(t.(acked := t.acked + 1, lastWindow := w, updated := Some(now)), w, now);
    NoWrap(CUBE_FACTOR * (window - w));
    DropExact(u.k, window - w);
    assert Delta(0) == 0;
  }

  /**
   * When an epoch begins with an application-limited period on record, the next shift puts it after the clock by
   * as much as the period was older than the epoch, whenever the acknowledgement comes.
   */
  lemma ShiftExact(s: Curve, w1: nat, begin: int, delay: int, w2: nat, now: int)
    requires s.connections > 0 && s.epoch.None? && s.limited.Some?
    requires !Recent(s, w1, begin)
    ensures var t := AfterAck(s, w1, begin, delay);
            && t.limited == s.limited
            && now - Placed(t, w2, now).epoch.value == s.limited.value - begin
            && (Placed(t, w2, now).epoch.value <= now <==> begin <= s.limited.value)
  {
  }

  /** With the period ten seconds older than the epoch, the window of 70 packets turns into one of nearly 2^64. */
  lemma ShiftHappens()
    ensures var s := Limit(Cleared(2), 0);
            var t := AfterAck(s, 70, 10_000_000_000, 0);
            AfterAck(t, 71, 11_000_000_000, 0).lastTarget == TWO_64 - 330
  {
    var s := Limit(Cleared(2), 0);
    var t := ShiftBegins(s);
    ShiftExact(s, 70, 10_000_000_000, 0, 71, 11_000_000_000);
    ShiftEnds(t, 71, 11_000_000_000);
  }

  lemma ShiftBegins(s: Curve) returns (t: Curve)
    requires s == Limit(Cleared(2), 0)
    ensures t == AfterAck(s, 70, 10_000_000_000, 0)
    ensures t.origin == 70 && t.k == 0 && t.epoch.Some? && t.connections == 2 && t.lastWindow == 70
  {
    t := AfterAck(s, 70, 10_000_000_000, 0);
  }

  lemma ShiftEnds(t: Curve, window: nat, now: int)
    requires t.origin == 70 && t.k == 0 && t.epoch.Some? && t.connections == 2 && t.lastWindow != window
    requires now - Placed(t, window, now).epoch.value == -10_000_000_000
    ensures AfterAck(t, window, now, 0).lastTarget == TWO_64 - 330
  {
    ShiftedTarget();
    ShiftedPosition();
  }

  lemma ShiftedPosition()
    ensures Ticks(-10_000_000_000) == -10240
  {
    assert Quotient(-10_000_000_000, 1000) == -10_000_000;
  }

  lemma ShiftedTarget()
    ensures Target(70, 0, -10240) == TWO_64 - 330
  {
    assert Cube(10240) == 1073741824000;
  }

  /** After a loss before the old maximum was reached, the next epoch of two connections starts at its own origin. */
  lemma GivesWayBelowMax(s: Curve, window: nat, now: int)
    requires s.connections == 2 && window < s.lastMax
    ensures var w := Reduced(s, window); var t := Begun(AfterLoss(s, window), w, now);
            AfterLoss(s, window).lastMax == w && t.origin == w && t.k == 0
  {
    TwoConnections();
    assert window as real * 0.85 == 0.85 * window as real;
  }

  lemma TwoConnections()
    ensures Beta(2) == 0.85
  {
    assert Beta(2) * 2.0 == 1.7;
  }
}
