/**
 Runs of the frame sorter against one source stream: frames cut from it arrive in any order,
 any number of times and with any overlap, and pops come in between.
 */
module Reassembly {
  import opened Basics
  import opened FrameSorter

  datatype Event = Frame(offset: nat, data: seq<byte>, fin: bool) | Take

  /** The frame is a piece of the source, and a fin names the source's end. */
  predicate Genuine(src: seq<byte>, e: Event) {
    e.Frame? ==> SliceAt(src, e.offset, e.data) && (e.fin ==> e.offset + |e.data| == |src|)
  }

  /** A sorter, what has been popped from it, whether the last pop reported fin, and whether it has failed. */
  datatype Run = Run(sorter: Sorter, popped: seq<byte>, fin: bool, failed: bool)

  function Start(maxGaps: nat, maxBytes: nat): Run {
    Run(Fresh(maxGaps, maxBytes), [], false, false)
  }

  function Step(r: Run, e: Event): Run {
    if r.failed then r else
      match e
      case Frame(offset, data, fin) =>
        var (t, outcome) := Pushed(r.sorter, data, offset, fin);
        r.(sorter := t, failed := outcome != Accepted && outcome != Duplicate)
      case Take =>
        var (t, data, fin) := Popped(r.sorter);
        r.(sorter := t, popped := r.popped + data, fin := fin)
  }

  function After(maxGaps: nat, maxBytes: nat, events: seq<Event>): Run {
    if events == [] then Start(maxGaps, maxBytes)
    else Step(After(maxGaps, maxBytes, events[..|events| - 1]), events[|events| - 1])
  }

  /** Byte x was in some frame. */
  ghost predicate Arrived(events: seq<Event>, x: nat) {
    exists i :: 0 <= i < |events| && events[i].Frame? && events[i].offset <= x < events[i].offset + |events[i].data|
  }

  ghost predicate FinArrived(events: seq<Event>) {
    exists i :: 0 <= i < |events| && events[i].Frame? && events[i].fin
  }

  ghost predicate Good(src: seq<byte>, maxBytes: nat, events: seq<Event>, r: Run) {
    && WellFormed(r.sorter) && EndOf(r.sorter.gaps) == maxBytes && BlocksTrue(src, r.sorter.queue)
    && r.sorter.readPos <= |src| && r.popped == src[..r.sorter.readPos]
    && (forall x: nat :: Missing(r.sorter.gaps, x) <==> x < maxBytes && !Arrived(events, x))
    && r.sorter.finalOffset == (if FinArrived(events) then |src| else maxBytes)
  }

  lemma ArrivedMore(events: seq<Event>, e: Event, x: nat)
    ensures Arrived(events + [e], x) <==> Arrived(events, x) || (e.Frame? && e.offset <= x < e.offset + |e.data|)
  {
    var more := events + [e];
    assert more[|events|] == e;
    if Arrived(events, x) {
      var i :| 0 <= i < |events| && events[i].Frame? && events[i].offset <= x < events[i].offset + |events[i].data|;
      assert more[i] == events[i];
    }
  }

  lemma FinMore(events: seq<Event>, e: Event)
    ensures FinArrived(events + [e]) <==> FinArrived(events) || (e.Frame? && e.fin)
  {
    var more := events + [e];
    assert more[|events|] == e;
    if FinArrived(events) {
      var i :| 0 <= i < |events| && events[i].Frame? && events[i].fin;
      assert more[i] == events[i];
    }
  }

  lemma FrameStep(src: seq<byte>, maxBytes: nat, events: seq<Event>, r: Run, e: Event)
    requires Good(src, maxBytes, events, r) && !r.failed && e.Frame? && Genuine(src, e) && |src| < maxBytes
    ensures Step(r, e).popped == r.popped && Step(r, e).fin == r.fin
    ensures Step(r, e).failed ==> |Step(r, e).sorter.gaps| > r.sorter.maxGaps
    ensures !Step(r, e).failed ==> Good(src, maxBytes, events + [e], Step(r, e))
  {
    var s := r.sorter;
    PushGaps(s, e.data, e.offset, e.fin);
    PushTrue(src, s, e.data, e.offset, e.fin);
    FinMore(events, e);
    if !Step(r, e).failed {
      PushKeeps(s, e.data, e.offset, e.fin);
      var t := Pushed(s, e.data, e.offset, e.fin).0;
      forall x: nat ensures Missing(t.gaps, x) <==> x < maxBytes && !Arrived(events + [e], x) {
        ArrivedMore(events, e, x);
      }
    } else {
      PushFails(s, e.data, e.offset, e.fin);
    }
  }

  lemma TakeStep(src: seq<byte>, maxBytes: nat, events: seq<Event>, r: Run)
    requires Good(src, maxBytes, events, r) && !r.failed && |src| < maxBytes
    ensures Good(src, maxBytes, events, Step(r, Take)) && !Step(r, Take).failed
    ensures Step(r, Take).fin <==> FinArrived(events) && Step(r, Take).popped == src
    ensures r.sorter.readPos <= Step(r, Take).sorter.readPos
    ensures Step(r, Take).sorter.readPos == r.sorter.readPos <==> !Arrived(events, r.sorter.readPos)
  {
    var s := r.sorter;
    PopKeeps(src, s);
    var (t, data, _) := Popped(s);
    assert t.readPos <= |src| && r.popped + data == src[..t.readPos] by {
      assert data != [] ==> src[..s.readPos] + src[s.readPos..t.readPos] == src[..t.readPos];
    }
  }

  /** A pop brings nothing new. */
  lemma GoodTake(src: seq<byte>, maxBytes: nat, events: seq<Event>, r: Run)
    requires Good(src, maxBytes, events, r)
    ensures Good(src, maxBytes, events + [Take], r)
  {
    FinMore(events, Take);
    forall x: nat ensures Arrived(events + [Take], x) <==> Arrived(events, x) { ArrivedMore(events, Take, x); }
  }

  lemma AfterMore(maxGaps: nat, maxBytes: nat, events: seq<Event>, e: Event)
    ensures After(maxGaps, maxBytes, events + [e]) == Step(After(maxGaps, maxBytes, events), e)
  {
    assert (events + [e])[..|events|] == events;
  }

  ghost predicate AllGenuine(src: seq<byte>, events: seq<Event>) {
    forall i :: 0 <= i < |events| ==> Genuine(src, events[i])
  }

  /**
   Whatever arrives in whatever order, the bytes popped so far are the beginning of the source, the gaps are
   exactly what has not arrived, and the sorter fails only by exceeding its limit of gaps.
   */
  lemma {:induction false} RunGood(src: seq<byte>, maxGaps: nat, maxBytes: nat, events: seq<Event>)
    requires AllGenuine(src, events) && |src| < maxBytes
    ensures After(maxGaps, maxBytes, events).popped <= src
    ensures !After(maxGaps, maxBytes, events).failed ==> Good(src, maxBytes, events, After(maxGaps, maxBytes, events))
    ensures After(maxGaps, maxBytes, events).failed ==> |After(maxGaps, maxBytes, events).sorter.gaps| > maxGaps
    ensures After(maxGaps, maxBytes, events).sorter.maxGaps == maxGaps
    decreases |events|
  {
    if events == [] {
      StartGood(src, maxGaps, maxBytes);
    } else {
      var before, e := events[..|events| - 1], events[|events| - 1];
      RunGood(src, maxGaps, maxBytes, before);
      assert before + [e] == events;
      RunStep(src, maxBytes, before, After(maxGaps, maxBytes, before), e);
    }
  }

  lemma RunStep(src: seq<byte>, maxBytes: nat, events: seq<Event>, r: Run, e: Event)
    requires |src| < maxBytes && Genuine(src, e) && r.popped <= src
    requires if r.failed then |r.sorter.gaps| > r.sorter.maxGaps else Good(src, maxBytes, events, r)
    ensures Step(r, e).popped <= src && Step(r, e).sorter.maxGaps == r.sorter.maxGaps
    ensures if Step(r, e).failed then |Step(r, e).sorter.gaps| > r.sorter.maxGaps
        else Good(src, maxBytes, events + [e], Step(r, e))
  {
    if !r.failed {
      if e.Frame? {
        FrameStep(src, maxBytes, events, r, e);
      } else {
        TakeStep(src, maxBytes, events, r);
        GoodTake(src, maxBytes, events, Step(r, Take));
      }
    }
  }

  lemma StartGood(src: seq<byte>, maxGaps: nat, maxBytes: nat)
    requires |src| < maxBytes
    ensures Good(src, maxBytes, [], Start(maxGaps, maxBytes))
  {
    var gaps := Start(maxGaps, maxBytes).sorter.gaps;
    assert gaps[1..] == [];
    FreshOk(maxGaps, maxBytes);
    forall x: nat ensures Missing(gaps, x) <==> x < maxBytes && !Arrived([], x) {
      assert !Missing(gaps[1..], x);
    }
  }

  /** The fin flag of a pop says exactly that a fin has arrived and that everything has been popped. */
  lemma FinExact(src: seq<byte>, maxGaps: nat, maxBytes: nat, events: seq<Event>)
    requires AllGenuine(src, events) && |src| < maxBytes && !After(maxGaps, maxBytes, events).failed
    ensures var r := After(maxGaps, maxBytes, events + [Take]);
      !r.failed && (r.fin <==> FinArrived(events) && r.popped == src)
  {
    RunGood(src, maxGaps, maxBytes, events);
    TakeStep(src, maxBytes, events, After(maxGaps, maxBytes, events));
    AfterMore(maxGaps, maxBytes, events, Take);
  }

  function Takes(n: nat): seq<Event> {
    seq(n, _ => Take)
  }

  /** Enough pops hand out everything up to the first byte that has not arrived. */
  lemma {:induction false} TakesDrain(src: seq<byte>, maxGaps: nat, maxBytes: nat, events: seq<Event>, n: nat)
    requires AllGenuine(src, events) && |src| < maxBytes && !After(maxGaps, maxBytes, events).failed
    ensures var r := After(maxGaps, maxBytes, events + Takes(n));
      && !r.failed && Good(src, maxBytes, events, r)
      && (forall x: nat :: x < |r.popped| ==> Arrived(events, x))
      && (Arrived(events, |r.popped|) ==> n <= |r.popped|)
    decreases n
  {
    if n == 0 {
      assert events + Takes(0) == events;
      RunGood(src, maxGaps, maxBytes, events);
      BelowRead(src, maxBytes, events, After(maxGaps, maxBytes, events));
    } else {
      TakesDrain(src, maxGaps, maxBytes, events, n - 1);
      var r := After(maxGaps, maxBytes, events + Takes(n - 1));
      TakeStep(src, maxBytes, events, r);
      assert events + Takes(n) == (events + Takes(n - 1)) + [Take];
      AfterMore(maxGaps, maxBytes, events + Takes(n - 1), Take);
      BelowRead(src, maxBytes, events, Step(r, Take));
    }
  }

  lemma BelowRead(src: seq<byte>, maxBytes: nat, events: seq<Event>, r: Run)
    requires Good(src, maxBytes, events, r) && |src| < maxBytes
    ensures forall x: nat :: x < |r.popped| ==> Arrived(events, x)
  {
    var s := r.sorter;
    ChainFrame(s.queue, s.queue, s.readPos, s.gaps[0].start);
    forall x: nat | x < |r.popped| ensures Arrived(events, x) {
      if Missing(s.gaps, x) {
        AboveFirst(0, s.gaps);
        MissingAbove(s.gaps[0].start, s.gaps, x);
        assert false;
      }
    }
  }

  /** The order of arrival does not matter: the same bytes arrived, the same bytes come out. */
  lemma OrderIrrelevant(src: seq<byte>, maxGaps: nat, maxBytes: nat, a: seq<Event>, b: seq<Event>)
    requires AllGenuine(src, a) && AllGenuine(src, b) && |src| < maxBytes
    requires !After(maxGaps, maxBytes, a).failed && !After(maxGaps, maxBytes, b).failed
    requires forall x: nat :: Arrived(a, x) <==> Arrived(b, x)
    ensures After(maxGaps, maxBytes, a + Takes(|src| + 1)).popped ==
            After(maxGaps, maxBytes, b + Takes(|src| + 1)).popped
  {
    TakesDrain(src, maxGaps, maxBytes, a, |src| + 1);
    TakesDrain(src, maxGaps, maxBytes, b, |src| + 1);
  }

  /** Once every byte of the source has arrived, all of it comes out. */
  lemma AllDelivered(src: seq<byte>, maxGaps: nat, maxBytes: nat, events: seq<Event>)
    requires AllGenuine(src, events) && |src| < maxBytes && !After(maxGaps, maxBytes, events).failed
    requires forall x: nat :: x < |src| ==> Arrived(events, x)
    ensures After(maxGaps, maxBytes, events + Takes(|src|)).popped == src
  {
    TakesDrain(src, maxGaps, maxBytes, events, |src|);
  }
}
