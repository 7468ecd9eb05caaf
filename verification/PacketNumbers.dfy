/**
 The numbers given to packets. The program means to leave one out now and then, so that a peer that
 acknowledges packets it has not seen gives itself away.
 */
module PacketNumbers {
  import opened Basics

  datatype Generator = Generator(next: nat, toSkip: nat)

  /** As constructed: no number to leave out has been drawn. */
  const START := Generator(1, 0)

  /** A drawn number lands at least two ahead. */
  function Draw(g: Generator, random: Option<nat>, period: nat): Generator
    requires period >= 1
  {
    if random.None? then g else g.(toSkip := g.next + 2 + random.value * (period - 1) / 32767)
  }

  function Popped(g: Generator, random: Option<nat>, period: nat): Generator
    requires period >= 1
  {
    if g.next + 1 == g.toSkip then Draw(g.(next := g.next + 2), random, period) else g.(next := g.next + 1)
  }

  class PacketNumberGenerator {
    const averagePeriod: nat
    var next: nat
    var nextToSkip: nat

    ghost function State(): Generator
      reads this
    {
      Generator(next, nextToSkip)
    }

    constructor (averagePeriod: nat)
      ensures State() == START && this.averagePeriod == averagePeriod
    {
      next, nextToSkip := 1, 0;
      this.averagePeriod := averagePeriod;
    }

    method Peek() returns (n: nat)
      ensures n == next
    {
      n := next;
    }

    /** `random` is the outcome of the draw, None if the source of randomness fails. */
    method Pop(random: Option<nat>) returns (n: nat)
      requires averagePeriod >= 1
      modifies this
      ensures n == old(next) && State() == Popped(old(State()), random, averagePeriod)
    {
      n := next;
      next := next + 1;
      if next == nextToSkip {
        next := next + 1;
        if random.Some? {
          nextToSkip := next + 2 + random.value * (averagePeriod - 1) / 32767;
        }
      }
    }
  }

  function Run(g: Generator, draws: seq<Option<nat>>, period: nat): Generator
    requires period >= 1
    decreases |draws|
  {
    if draws == [] then g else Popped(Run(g, draws[..|draws| - 1], period), draws[|draws| - 1], period)
  }

  /**
   * Never two in a row: whatever is drawn, the number after a skipped one is handed out and so is the one after that.
   */
  lemma NoTwoSkipsInARow(g: Generator, a: Option<nat>, b: Option<nat>, period: nat)
    requires period >= 1 && g.next + 1 == g.toSkip
    ensures var h := Popped(g, a, period);
      h.next == g.next + 2 && Popped(h, b, period).next == h.next + 1
  {
    var h := Popped(g, a, period);
    if a.Some? {
      assert a.value * (period - 1) / 32767 >= 0;
    }
  }

  /** As constructed, the generator never leaves out a number: after k pops the next number is k + 1. */
  lemma {:induction false} NeverSkips(draws: seq<Option<nat>>, period: nat)
    requires period >= 1
    ensures Run(START, draws, period) == Generator(|draws| + 1, 0)
    decreases |draws|
  {
    if draws != [] {
      NeverSkips(draws[..|draws| - 1], period);
    }
  }

  /** Without a drawn number ahead, no run ever leaves out a number or draws one. */
  lemma {:induction false} NoneAhead(g: Generator, draws: seq<Option<nat>>, period: nat)
    requires period >= 1 && g.toSkip <= g.next
    ensures Run(g, draws, period) == g.(next := g.next + |draws|)
    decreases |draws|
  {
    if draws != [] {
      NoneAhead(g, draws[..|draws| - 1], period);
    }
  }

  /** A drawn number ahead is left out as soon as the run gets there, whatever is drawn then. */
  lemma {:induction false} DrawnAhead(g: Generator, draws: seq<Option<nat>>, period: nat)
    requires period >= 1 && g.toSkip > g.next && |draws| <= g.toSkip - g.next
    ensures |draws| < g.toSkip - g.next ==> Run(g, draws, period) == g.(next := g.next + |draws|)
    ensures |draws| == g.toSkip - g.next ==> Run(g, draws, period).next == g.toSkip + 1
    decreases |draws|
  {
    if draws != [] {
      DrawnAhead(g, draws[..|draws| - 1], period);
    }
  }

  /** Some run of a generator leaves out a number if and only if one ahead was drawn before the run. */
  lemma SkipsIffDrawn(g: Generator, period: nat)
    requires period >= 1
    ensures (forall draws: seq<Option<nat>> :: Run(g, draws, period).next == g.next + |draws|) <==> g.toSkip <= g.next
  {
    if g.toSkip <= g.next {
      forall draws: seq<Option<nat>>
        ensures Run(g, draws, period).next == g.next + |draws|
      {
        NoneAhead(g, draws, period);
      }
    } else {
      var draws := seq(g.toSkip - g.next, i => None);
      DrawnAhead(g, draws, period);
      assert Run(g, draws, period).next != g.next + |draws|;
    }
  }

  /** How far beyond the next but one a draw lands. */
  function Leap(random: nat, period: nat): int
    requires period >= 1
  {
    Draw(START, Some(random), period).toSkip - START.next - 2
  }

  /** Draws lie evenly around the period: two that are as far from the middle add up to twice the period less one. */
  lemma DrawsBalance(random: nat, period: nat)
    requires period >= 1 && random <= 65534
    ensures 0 <= Leap(random, period) <= 2 * (period - 1)
    ensures 2 * (period - 1) - 1 <= Leap(random, period) + Leap(65534 - random, period) <= 2 * (period - 1)
  {
    var a, b := random * (period - 1), (65534 - random) * (period - 1);
    Split(random, period - 1);
    assert a + b == 65534 * (period - 1);
  }

  lemma Split(r: nat, k: nat)
    requires r <= 65534
    ensures r * k >= 0 && (65534 - r) * k >= 0 && r * k + (65534 - r) * k == 65534 * k
  {
  }
}
