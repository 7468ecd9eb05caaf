/** When a path counts as deteriorated: a reference from a window of samples, and a threshold with hysteresis. */
module Trigger {

  // ----- the reference value -----

  function Insert(x: real, values: seq<real>): seq<real> {
    if values == [] then [x]
    else if x <= values[0] then [x] + values
    else [values[0]] + Insert(x, values[1..])
  }

  function Sort(values: seq<real>): seq<real> {
    if values == [] then [] else Insert(values[0], Sort(values[1..]))
  }

  predicate Ascending(values: seq<real>) {
    |values| > 1 ==> values[0] <= values[1] && Ascending(values[1..])
  }

  /** The middle of the sorted values, or the mean of the two in the middle. */
  function Median(values: seq<real>): real {
    var ordered := Sort(values);
    SortSize(values);
    var mid := |ordered| / 2;
    if |values| == 0 then 0.0
    else if |values| % 2 == 1 then ordered[mid]
    else (ordered[mid - 1] + ordered[mid]) / 2.0
  }

  lemma {:induction false} InsertSize(x: real, values: seq<real>)
    ensures |Insert(x, values)| == |values| + 1
  {
    if values != [] && x > values[0] {
      InsertSize(x, values[1..]);
    }
  }

  lemma {:induction false} SortSize(values: seq<real>)
    ensures |Sort(values)| == |values|
  {
    if values != [] {
      SortSize(values[1..]);
      InsertSize(values[0], Sort(values[1..]));
    }
  }

  lemma {:induction false} InsertAscends(x: real, values: seq<real>)
    requires Ascending(values)
    ensures Ascending(Insert(x, values))
    ensures var r := Insert(x, values); r != [] && (values == [] || values[0] <= r[0] || x <= r[0])
    ensures Insert(x, values)[0] == x || (values != [] && Insert(x, values)[0] == values[0] < x)
  {
    if values != [] && x > values[0] {
      InsertAscends(x, values[1..]);
      assert Insert(x, values)[1..] == Insert(x, values[1..]);
    } else {
      assert Insert(x, values)[1..] == values;
    }
  }

  lemma {:induction false} SortAscends(values: seq<real>)
    ensures Ascending(Sort(values))
  {
    if values != [] {
      SortAscends(values[1..]);
      InsertAscends(values[0], Sort(values[1..]));
    }
  }

  /** How many of the values pass. */
  function Count(values: seq<real>, test: real -> bool): nat {
    if values == [] then 0 else (if test(values[0]) then 1 else 0) + Count(values[1..], test)
  }

  lemma {:induction false} InsertCounts(x: real, values: seq<real>, test: real -> bool)
    ensures Count(Insert(x, values), test) == Count(values, test) + if test(x) then 1 else 0
  {
    if values != [] && x > values[0] {
      InsertCounts(x, values[1..], test);
      assert Insert(x, values)[1..] == Insert(x, values[1..]);
    } else {
      assert Insert(x, values)[1..] == values;
    }
  }

  lemma {:induction false} SortCounts(values: seq<real>, test: real -> bool)
    ensures Count(Sort(values), test) == Count(values, test)
  {
    if values != [] {
      SortCounts(values[1..], test);
      InsertCounts(values[0], Sort(values[1..]), test);
    }
  }

  /** The values up to place i are no larger than the one there. */
  lemma {:induction false} CountUpTo(values: seq<real>, i: nat, bound: real)
    requires Ascending(values) && i < |values| && values[i] <= bound
    ensures Count(values, (x: real) => x <= bound) >= i + 1
  {
    if i > 0 {
      CountUpTo(values[1..], i - 1, bound);
      HeadLowest(values, i);
    }
  }

  lemma {:induction false} HeadLowest(values: seq<real>, i: nat)
    requires Ascending(values) && i < |values|
    ensures values[0] <= values[i]
  {
    if i > 0 {
      HeadLowest(values[1..], i - 1);
    }
  }

  /** The values from place i on are no smaller than the one there. */
  lemma {:induction false} CountFrom(values: seq<real>, i: nat, bound: real)
    requires Ascending(values) && i < |values| && values[i] >= bound
    ensures Count(values, (x: real) => x >= bound) >= |values| - i
  {
    if i > 0 {
      CountFrom(values[1..], i - 1, bound);
    } else if |values| > 1 {
      CountFrom(values[1..], 0, bound);
    }
  }

  /** At least half of the samples are at or below the reference, and at least half at or above it. */
  lemma MedianHalves(values: seq<real>)
    requires values != []
    ensures 2 * Count(values, (x: real) => x <= Median(values)) >= |values|
    ensures 2 * Count(values, (x: real) => x >= Median(values)) >= |values|
  {
    var ordered, m := Sort(values), Median(values);
    var mid := |ordered| / 2;
    SortSize(values);
    SortAscends(values);
    SortCounts(values, (x: real) => x <= m);
    SortCounts(values, (x: real) => x >= m);
    if |values| % 2 == 1 {
      CountUpTo(ordered, mid, m);
      CountFrom(ordered, mid, m);
    } else {
      Neighbours(ordered, mid - 1);
      CountUpTo(ordered, mid - 1, m);
      CountFrom(ordered, mid, m);
    }
  }

  lemma {:induction false} Neighbours(values: seq<real>, i: nat)
    requires Ascending(values) && i + 1 < |values|
    ensures values[i] <= values[i + 1]
  {
    if i > 0 {
      Neighbours(values[1..], i - 1);
    }
  }

  /** Values up to a bound below the one at place i all lie before it. */
  lemma {:induction false} CountBelow(values: seq<real>, i: nat, bound: real)
    requires Ascending(values) && i < |values| && bound < values[i]
    ensures Count(values, (x: real) => x <= bound) <= i
  {
    if i > 0 {
      CountBelow(values[1..], i - 1, bound);
    } else {
      NoneUpTo(values, bound);
    }
  }

  lemma {:induction false} NoneUpTo(values: seq<real>, bound: real)
    requires Ascending(values) && (values != [] ==> bound < values[0])
    ensures Count(values, (x: real) => x <= bound) == 0
  {
    if values != [] {
      NoneUpTo(values[1..], bound);
    }
  }

  /** And values from a bound above it on all lie behind it. */
  lemma {:induction false} CountAbove(values: seq<real>, i: nat, bound: real)
    requires Ascending(values) && i < |values| && bound > values[i]
    ensures Count(values, (x: real) => x >= bound) <= |values| - 1 - i
  {
    HeadLowest(values, i);
    if i > 0 {
      CountAbove(values[1..], i - 1, bound);
    } else if |values| > 1 {
      CountSize(values[1..], (x: real) => x >= bound);
    }
  }

  lemma {:induction false} CountSize(values: seq<real>, p: real -> bool)
    ensures Count(values, p) <= |values|
  {
    if values != [] {
      CountSize(values[1..], p);
    }
  }

  /** At least half of the values are at or below x, or at or above it. */
  predicate HalfUpTo(values: seq<real>, x: real) { 2 * Count(values, (y: real) => y <= x) >= |values| }

  predicate HalfFrom(values: seq<real>, x: real) { 2 * Count(values, (y: real) => y >= x) >= |values| }

  /** The reference is the middle between the least number with half at or below it and the greatest with half above. */
  lemma MedianExact(values: seq<real>) returns (low: real, high: real)
    requires values != []
    ensures 2.0 * Median(values) == low + high
    ensures forall x: real :: HalfUpTo(values, x) <==> low <= x
    ensures forall x: real :: HalfFrom(values, x) <==> x <= high
  {
    var ordered := Sort(values);
    SortSize(values);
    SortAscends(values);
    var n := |values|;
    low, high := ordered[(n - 1) / 2], ordered[n / 2];
    forall x: real
      ensures HalfUpTo(values, x) <==> low <= x
    {
      SortCounts(values, (y: real) => y <= x);
      if low <= x {
        CountUpTo(ordered, (n - 1) / 2, x);
      } else {
        CountBelow(ordered, (n - 1) / 2, x);
      }
    }
    forall x: real
      ensures HalfFrom(values, x) <==> x <= high
    {
      SortCounts(values, (y: real) => y >= x);
      if x <= high {
        CountFrom(ordered, n / 2, x);
      } else {
        CountAbove(ordered, n / 2, x);
      }
    }
  }

  // ----- one sample -----

  datatype Mode = Throughput | Delay | Loss

  datatype Config = Config(
    mode: Mode,
    throughputAbs: real,
    throughputRel: real,
    delayAbs: real,
    delayRel: real,
    lossAbs: real,
    referenceStart: real,
    referenceEnd: real,
    activate: int,
    recover: int)

  datatype Path = Path(
    samples: seq<real>,
    reference: real,
    ready: bool,
    triggerStreak: nat,
    recoveryStreak: nat,
    triggered: bool,
    pending: bool)

  const NEW_PATH: Path := Path([], 0.0, false, 0, 0, false, false)

  function Abs(x: real): real { if x < 0.0 then -x else x }

  function Relative(delta: real, reference: real): real {
    if Abs(reference) > 0.000000000001 then delta / Abs(reference) else 0.0
  }

  predicate Deteriorated(c: Config, reference: real, current: real) {
    var delta := current - reference;
    var relative := Relative(delta, reference);
    match c.mode
    case Throughput => Abs(delta) >= c.throughputAbs || Abs(relative) >= c.throughputRel
    case Delay => delta > 0.0 && (delta >= c.delayAbs || relative >= c.delayRel)
    case Loss => delta >= c.lossAbs
  }

  /** A sample inside the window moves the reference; the first one after it stands in for a missing reference. */
  function Referenced(c: Config, p: Path, current: real, elapsed: real): Path {
    if c.referenceStart <= elapsed <= c.referenceEnd then
      var samples := p.samples + [current];
      p.(samples := samples, reference := Median(samples), ready := true)
    else if elapsed > c.referenceEnd && !p.ready then
      p.(samples := p.samples + [current], reference := current, ready := true)
    else p
  }

  /** One comparison with the reference. */
  function Compared(c: Config, p: Path, deteriorated: bool): Path {
    if deteriorated then
      if p.triggered then p.(recoveryStreak := 0)
      else
        var streak := p.triggerStreak + 1;
        if streak >= c.activate then p.(recoveryStreak := 0, triggerStreak := streak, triggered := true,
            pending := true)
        else p.(recoveryStreak := 0, triggerStreak := streak)
    else if !p.triggered then p.(triggerStreak := 0)
    else if p.recoveryStreak + 1 >= c.recover then
      p.(triggerStreak := 0, recoveryStreak := 0, triggered := false, pending := false)
    else p.(triggerStreak := 0, recoveryStreak := p.recoveryStreak + 1)
  }

  /** Whether a sample is compared at all. */
  predicate Compares(c: Config, p: Path, current: real, elapsed: real) {
    Referenced(c, p, current, elapsed).ready && elapsed > c.referenceEnd
  }

  function Observed(c: Config, p: Path, current: real, elapsed: real): Path {
    var q := Referenced(c, p, current, elapsed);
    if Compares(c, p, current, elapsed) then Compared(c, q, Deteriorated(c, q.reference, current)) else q
  }

  // ----- hysteresis -----

  /** How many samples at the end of the history were all of this kind. */
  function Trailing(history: seq<bool>, kind: bool): nat {
    if history == [] || history[|history| - 1] != kind then 0 else 1 + Trailing(history[..|history| - 1], kind)
  }

  /** At least one sample is needed, whatever the setting. */
  function Needed(setting: int): nat { if setting < 1 then 1 else setting }

  /** Whether a path is triggered, from the history alone: it changes only after enough samples against it in a row. */
  predicate Hysteresis(c: Config, history: seq<bool>) {
    history != [] &&
    if Hysteresis(c, history[..|history| - 1]) then Trailing(history, false) < Needed(c.recover)
    else Trailing(history, true) >= Needed(c.activate)
  }

  function ComparedAll(c: Config, history: seq<bool>): Path {
    if history == [] then NEW_PATH
    else Compared(c, ComparedAll(c, history[..|history| - 1]), history[|history| - 1])
  }

  predicate Streaks(c: Config, p: Path, history: seq<bool>) {
    && p.triggered == Hysteresis(c, history)
    && (p.pending ==> p.triggered)
    && (!p.triggered ==> p.triggerStreak == Trailing(history, true) < Needed(c.activate))
    && (p.triggered ==> p.recoveryStreak == Trailing(history, false) < Needed(c.recover))
    && (!p.triggered ==> p.recoveryStreak == 0)
  }

  lemma StreaksStep(c: Config, p: Path, history: seq<bool>, deteriorated: bool)
    requires Streaks(c, p, history)
    ensures Streaks(c, Compared(c, p, deteriorated), history + [deteriorated])
  {
    var longer := history + [deteriorated];
    assert longer[..|longer| - 1] == history;
  }

  /** The two streak counters compute exactly the hysteresis, and a request is pending only while triggered. */
  lemma {:induction false} StreaksExact(c: Config, history: seq<bool>)
    ensures Streaks(c, ComparedAll(c, history), history)
  {
    if history != [] {
      var before := history[..|history| - 1];
      StreaksExact(c, before);
      StreaksStep(c, ComparedAll(c, before), before, history[|history| - 1]);
      assert history == before + [history[|history| - 1]];
    }
  }

  /** A path is triggered only by `activate` deteriorated samples in a row, the last of them this one. */
  lemma TriggersOnly(c: Config, history: seq<bool>, n: nat)
    requires history != [] && Hysteresis(c, history) && !Hysteresis(c, history[..|history| - 1])
    requires n < Needed(c.activate)
    ensures n < |history| && history[|history| - 1 - n]
  {
    TrailingAre(history, true, n);
  }

  /** And it clears only by `recover` others in a row. */
  lemma ClearsOnly(c: Config, history: seq<bool>, n: nat)
    requires history != [] && !Hysteresis(c, history) && Hysteresis(c, history[..|history| - 1])
    requires n < Needed(c.recover)
    ensures n < |history| && !history[|history| - 1 - n]
  {
    TrailingAre(history, false, n);
  }

  lemma {:induction false} TrailingAre(history: seq<bool>, kind: bool, n: nat)
    requires n < Trailing(history, kind)
    ensures n < |history| && history[|history| - 1 - n] == kind
  {
    if n > 0 {
      TrailingAre(history[..|history| - 1], kind, n - 1);
    }
  }

  // ----- samples of a path -----

  /** A sample and the time it was taken, in seconds since the start of the experiment. */
  datatype Reading = Reading(current: real, elapsed: real)

  function ObservedAll(c: Config, samples: seq<Reading>): Path {
    if samples == [] then NEW_PATH
    else
      var last := samples[|samples| - 1];
      Observed(c, ObservedAll(c, samples[..|samples| - 1]), last.current, last.elapsed)
  }

  /** The outcomes of the comparisons that took place. */
  function Flags(c: Config, samples: seq<Reading>): seq<bool> {
    if samples == [] then []
    else
      var before, last := samples[..|samples| - 1], samples[|samples| - 1];
      var p := ObservedAll(c, before);
      var q := Referenced(c, p, last.current, last.elapsed);
      if Compares(c, p, last.current, last.elapsed) then Flags(c, before) + [Deteriorated(c, q.reference, last.current)]
      else Flags(c, before)
  }

  /** For every sequence of samples, the path is triggered exactly as the hysteresis over its comparisons says. */
  lemma {:induction false} ObservedStreaks(c: Config, samples: seq<Reading>)
    ensures Streaks(c, ObservedAll(c, samples), Flags(c, samples))
  {
    if samples != [] {
      var before, last := samples[..|samples| - 1], samples[|samples| - 1];
      ObservedStreaks(c, before);
      var q := Referenced(c, ObservedAll(c, before), last.current, last.elapsed);
      StreaksStep(c, q, Flags(c, before), Deteriorated(c, q.reference, last.current));
    }
  }

  function Values(samples: seq<Reading>): seq<real> {
    if samples == [] then [] else Values(samples[..|samples| - 1]) + [samples[|samples| - 1].current]
  }

  predicate InWindow(c: Config, samples: seq<Reading>) {
    forall s <- samples :: c.referenceStart <= s.elapsed <= c.referenceEnd
  }

  /** After samples inside the window, the reference is the median of all of them and nothing was compared. */
  lemma {:induction false} ReferenceIsMedian(c: Config, samples: seq<Reading>)
    requires InWindow(c, samples) && samples != []
    ensures var p := ObservedAll(c, samples);
            && p.ready && p.reference == Median(Values(samples)) && p.samples == Values(samples)
            && Flags(c, samples) == []
  {
    var before, last := samples[..|samples| - 1], samples[|samples| - 1];
    assert InWindow(c, [last]) by { assert last in samples; }
    if before != [] {
      ReferenceIsMedian(c, before);
    }
  }

  /** After the window a reference that is there stays, and the first sample of a late path becomes its reference. */
  lemma ReferenceStays(c: Config, p: Path, current: real, elapsed: real)
    requires elapsed > c.referenceEnd
    ensures var q := Observed(c, p, current, elapsed);
            q.ready && q.reference == (if p.ready then p.reference else current)
  {
  }

  /** Before the window, a sample changes nothing. */
  lemma BeforeWindow(c: Config, p: Path, current: real, elapsed: real)
    requires elapsed < c.referenceStart && elapsed <= c.referenceEnd
    ensures Observed(c, p, current, elapsed) == p
  {
  }

  lemma RatioGrows(a: real, b: real, d: real)
    requires a <= b && d > 0.0
    ensures a / d <= b / d
  {
    var q := (b - a) / d;
    assert q * d == b - a;
    assert q >= 0.0;
    assert b / d == a / d + q;
  }

  /** Delay and loss deteriorate upwards only: a worse value is never the better one, and delay never falls into it. */
  lemma WorseIsWorse(c: Config, reference: real, current: real, worse: real)
    requires !c.mode.Throughput? && current <= worse && Deteriorated(c, reference, current)
    ensures Deteriorated(c, reference, worse)
    ensures c.mode.Delay? ==> current > reference
  {
    if Abs(reference) > 0.000000000001 {
      RatioGrows(current - reference, worse - reference, Abs(reference));
    }
  }

  /** Throughput deteriorates in both directions alike. */
  lemma ThroughputEitherWay(c: Config, reference: real, change: real)
    requires c.mode.Throughput?
    ensures Deteriorated(c, reference, reference + change) <==> Deteriorated(c, reference, reference - change)
  {
    if Abs(reference) > 0.000000000001 {
      var d := Abs(reference);
      assert (-change) / d == -(change / d);
    }
  }

  // ----- thresholds -----

  /** A change by `distance` is at least the given share of the reference; a reference near zero has no shares. */
  predicate ShareReached(distance: real, share: real, reference: real) {
    if Abs(reference) > 0.000000000001 then distance >= share * Abs(reference) else share <= 0.0
  }

  lemma ShareIs(distance: real, share: real, d: real)
    requires d > 0.0
    ensures distance / d >= share <==> distance >= share * d
  {
    var q := distance / d;
    assert q * d == distance;
    if q >= share {
      assert (q - share) * d >= 0.0;
    } else {
      assert (share - q) * d > 0.0;
    }
  }

  lemma RelativeReached(delta: real, share: real, reference: real)
    ensures Relative(delta, reference) >= share <==> ShareReached(delta, share, reference)
  {
    if Abs(reference) > 0.000000000001 {
      ShareIs(delta, share, Abs(reference));
    }
  }

  lemma AbsRelative(delta: real, reference: real)
    ensures Abs(Relative(delta, reference)) == Relative(Abs(delta), reference)
  {
    var d := Abs(reference);
    if d > 0.000000000001 {
      var q := delta / d;
      assert q * d == delta;
      assert (-delta) / d == -q;
      assert q < 0.0 ==> delta < 0.0;
      assert q > 0.0 ==> delta > 0.0;
    }
  }

  /** Throughput counts as deteriorated exactly when it is off by at least the amount or the share. */
  lemma ThroughputExact(c: Config, reference: real, current: real)
    requires c.mode.Throughput?
    ensures Deteriorated(c, reference, current) <==>
            || Abs(current - reference) >= c.throughputAbs
            || ShareReached(Abs(current - reference), c.throughputRel, reference)
  {
    AbsRelative(current - reference, reference);
    RelativeReached(Abs(current - reference), c.throughputRel, reference);
  }

  /** Delay, exactly when it has risen by at least one of the two. */
  lemma DelayExact(c: Config, reference: real, current: real)
    requires c.mode.Delay?
    ensures Deteriorated(c, reference, current) <==>
            && current > reference
            && (current - reference >= c.delayAbs || ShareReached(current - reference, c.delayRel, reference))
  {
    RelativeReached(current - reference, c.delayRel, reference);
  }

  /** Loss, exactly when it has risen by at least the amount. */
  lemma LossExact(c: Config, reference: real, current: real)
    requires c.mode.Loss?
    ensures Deteriorated(c, reference, current) <==> current >= reference + c.lossAbs
  {
  }

  /** How far a value has gone the wrong way. */
  function Drift(mode: Mode, reference: real, current: real): real {
    if mode.Throughput? then Abs(current - reference) else current - reference
  }

  predicate PositiveThresholds(c: Config) {
    match c.mode
    case Throughput => c.throughputAbs > 0.0 && c.throughputRel > 0.0
    case Delay => c.delayAbs > 0.0 && c.delayRel > 0.0
    case Loss => c.lossAbs > 0.0
  }

  /** In every mode, going further the wrong way does not help. */
  lemma DriftDecides(c: Config, reference: real, current: real, worse: real)
    requires Deteriorated(c, reference, current)
    requires Drift(c.mode, reference, current) <= Drift(c.mode, reference, worse)
    ensures Deteriorated(c, reference, worse)
  {
    if c.mode.Throughput? {
      ThroughputExact(c, reference, current);
      ThroughputExact(c, reference, worse);
    } else if c.mode.Delay? {
      DelayExact(c, reference, current);
      DelayExact(c, reference, worse);
    }
  }

  /** With positive thresholds, a value that has not moved the wrong way is never deteriorated. */
  lemma UnmovedIsFine(c: Config, reference: real, current: real)
    requires PositiveThresholds(c) && Drift(c.mode, reference, current) <= 0.0
    ensures !Deteriorated(c, reference, current)
  {
    if c.mode.Throughput? {
      ThroughputExact(c, reference, current);
      assert current == reference;
      assert Abs(reference) > 0.000000000001 ==> c.throughputRel * Abs(reference) > 0.0;
    }
  }

  // ----- paths that stay within the thresholds, and paths that do not -----

  /** The value is off by less than every threshold of the mode. */
  predicate WithinThresholds(c: Config, reference: real, current: real) {
    match c.mode
    case Throughput =>
      var d := Abs(current - reference); d < c.throughputAbs && !ShareReached(d, c.throughputRel, reference)
    case Delay =>
      var d := current - reference; d <= 0.0 || (d < c.delayAbs && !ShareReached(d, c.delayRel, reference))
    case Loss => current - reference < c.lossAbs
  }

  lemma WithinExact(c: Config, reference: real, current: real)
    ensures Deteriorated(c, reference, current) <==> !WithinThresholds(c, reference, current)
  {
    match c.mode
    case Throughput => ThroughputExact(c, reference, current);
    case Delay => DelayExact(c, reference, current);
    case Loss => LossExact(c, reference, current);
  }

  /** All samples come after the window, and all of them are within the thresholds, or all of them are not. */
  predicate AllLater(c: Config, reference: real, later: seq<Reading>, within: bool) {
    forall s <- later :: s.elapsed > c.referenceEnd && WithinThresholds(c, reference, s.current) == within
  }

  function Repeated(n: nat, kind: bool): seq<bool> { if n == 0 then [] else Repeated(n - 1, kind) + [kind] }

  /** One more sample after the window, for a path that has its reference. */
  lemma LaterSample(c: Config, samples: seq<Reading>, last: Reading)
    requires ObservedAll(c, samples).ready && last.elapsed > c.referenceEnd
    ensures var p, q := ObservedAll(c, samples), ObservedAll(c, samples + [last]);
            && q.ready && q.reference == p.reference
            && Flags(c, samples + [last]) == Flags(c, samples) + [!WithinThresholds(c, p.reference, last.current)]
  {
    var more := samples + [last];
    assert more[..|more| - 1] == samples;
    WithinExact(c, ObservedAll(c, samples).reference, last.current);
  }

  lemma {:induction false} LaterFlags(c: Config, window: seq<Reading>, later: seq<Reading>, within: bool)
    requires InWindow(c, window) && window != []
    requires AllLater(c, Median(Values(window)), later, within)
    ensures var p := ObservedAll(c, window + later); p.ready && p.reference == Median(Values(window))
    ensures Flags(c, window + later) == Repeated(|later|, !within)
    decreases |later|
  {
    ReferenceIsMedian(c, window);
    if later == [] {
      assert window + later == window;
    } else {
      var before, last := later[..|later| - 1], later[|later| - 1];
      assert window + later == (window + before) + [last];
      assert last in later;
      LaterFlags(c, window, before, within);
      LaterSample(c, window + before, last);
    }
  }

  lemma HistoryPush(c: Config, history: seq<bool>, x: bool, kind: bool)
    ensures Trailing(history + [x], kind) == if x == kind then 1 + Trailing(history, kind) else 0
    ensures Hysteresis(c, history + [x]) <==>
            if Hysteresis(c, history) then Trailing(history + [x], false) < Needed(c.recover)
            else Trailing(history + [x], true) >= Needed(c.activate)
  {
    var more := history + [x];
    assert more[..|more| - 1] == history;
  }

  lemma {:induction false} HysteresisAll(c: Config, n: nat, kind: bool)
    ensures Trailing(Repeated(n, kind), kind) == n && Trailing(Repeated(n, kind), !kind) == 0
    ensures Hysteresis(c, Repeated(n, kind)) <==> kind && n >= Needed(c.activate)
  {
    if n > 0 {
      HysteresisAll(c, n - 1, kind);
      HistoryPush(c, Repeated(n - 1, kind), kind, kind);
      HistoryPush(c, Repeated(n - 1, kind), kind, !kind);
    }
  }

  /** Samples that all stay within the thresholds of the reference never trigger a path, nor ask for anything. */
  lemma StaysQuiet(c: Config, window: seq<Reading>, later: seq<Reading>)
    requires InWindow(c, window) && window != [] && AllLater(c, Median(Values(window)), later, true)
    ensures var p := ObservedAll(c, window + later); !p.triggered && !p.pending
  {
    LaterFlags(c, window, later, true);
    ObservedStreaks(c, window + later);
    HysteresisAll(c, |later|, false);
  }

  /** Whenever a sample is compared, early or late, it is within the thresholds of the reference at that time. */
  predicate AlwaysWithin(c: Config, samples: seq<Reading>) {
    samples != [] ==>
      var before, last := samples[..|samples| - 1], samples[|samples| - 1];
      var p := ObservedAll(c, before);
      && AlwaysWithin(c, before)
      && (Compares(c, p, last.current, last.elapsed) ==>
            WithinThresholds(c, Referenced(c, p, last.current, last.elapsed).reference, last.current))
  }

  /** For every sequence of samples: a path that is always within the thresholds is never triggered. */
  lemma {:induction false} QuietThroughout(c: Config, samples: seq<Reading>)
    requires AlwaysWithin(c, samples)
    ensures Flags(c, samples) == Repeated(|Flags(c, samples)|, false)
    ensures !ObservedAll(c, samples).triggered && !ObservedAll(c, samples).pending
  {
    if samples != [] {
      var before, last := samples[..|samples| - 1], samples[|samples| - 1];
      var q := Referenced(c, ObservedAll(c, before), last.current, last.elapsed);
      QuietThroughout(c, before);
      WithinExact(c, q.reference, last.current);
    }
    ObservedStreaks(c, samples);
    HysteresisAll(c, |Flags(c, samples)|, false);
  }

  /** Samples that are all outside trigger it exactly when there are enough of them. */
  lemma GoesOff(c: Config, window: seq<Reading>, later: seq<Reading>)
    requires InWindow(c, window) && window != [] && AllLater(c, Median(Values(window)), later, false)
    ensures ObservedAll(c, window + later).triggered <==> |later| >= Needed(c.activate)
  {
    LaterFlags(c, window, later, false);
    ObservedStreaks(c, window + later);
    HysteresisAll(c, |later|, true);
  }

  /** A request becomes pending exactly when a path is triggered, and stays so while the path stays triggered. */
  lemma PendingExact(c: Config, p: Path, current: real, elapsed: real)
    requires p.pending ==> p.triggered
    ensures var q := Observed(c, p, current, elapsed);
            q.pending <==> q.triggered && (p.pending || !p.triggered)
  {
  }
}
