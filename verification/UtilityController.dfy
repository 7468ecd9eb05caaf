/** The controller as an object: streaks and flags for each path, and the request that is out. */
module UtilityController {
  import opened Basics
  import opened Trigger
  import opened Requests

  /** Not-a-number and infinity do not occur among real numbers. */
  function Sanitized(v: real): real { if v < 0.0 then 0.0 else v }

  class Phase2Controller {
    const settings: Settings
    var states: map<PathID, Trigger.Path>
    var updateInProgress: bool
    var inflightRequestID: Option<RequestID>
    var inflightPathID: PathID
    var lastTriggerTime: Option<Time>
    var requestSerial: nat

    function State(): Controller
      reads this
    {
      Controller(states, updateInProgress, inflightRequestID, inflightPathID, lastTriggerTime, requestSerial)
    }

    constructor (s: Settings)
      ensures State() == IDLE && settings == s
    {
      settings := s;
      states := map[];
      updateInProgress := false;
      inflightRequestID := None;
      inflightPathID := 0;
      lastTriggerTime := None;
      requestSerial := 0;
    }

    method ObserveObjectiveTrigger(path: PathID, metric: real, elapsed: real)
      modifies `states
      ensures State() == Observe(settings, old(State()), path, Sanitized(metric), elapsed)
    {
      var c := settings.trigger;
      var state := if path in states then states[path] else NEW_PATH;
      var current := Sanitized(metric);
      if c.referenceStart <= elapsed <= c.referenceEnd {
        var samples := state.samples + [current];
        state := state.(samples := samples, reference := Median(samples), ready := true);
      }
      if elapsed > c.referenceEnd && !state.ready {
        state := state.(samples := state.samples + [current], reference := current, ready := true);
      }
      if state.ready && elapsed > c.referenceEnd {
        state := Compare(state, Deteriorated(c, state.reference, current));
      }
      states := states[path := state];
    }

    method Compare(before: Trigger.Path, deteriorated: bool) returns (state: Trigger.Path)
      ensures state == Compared(settings.trigger, before, deteriorated)
    {
      state := before;
      if deteriorated {
        state := state.(recoveryStreak := 0);
        if !state.triggered {
          state := state.(triggerStreak := state.triggerStreak + 1);
          if state.triggerStreak >= settings.trigger.activate {
            state := state.(triggered := true, pending := true);
          }
        }
      } else {
        state := state.(triggerStreak := 0);
        if state.triggered {
          state := state.(recoveryStreak := state.recoveryStreak + 1);
          if state.recoveryStreak >= settings.trigger.recover {
            state := state.(triggered := false, pending := false, recoveryStreak := 0);
          }
        }
      }
    }

    method MaybeCheckUpdateResponse(w: World, now: Time)
      modifies `updateInProgress, `inflightRequestID, `inflightPathID, `lastTriggerTime
      ensures State() == Respond(old(State()), w, now)
    {
      if !updateInProgress || inflightRequestID.None? {
        return;
      }
      if w.answer.None? || w.answer != inflightRequestID {
        return;
      }
      updateInProgress := false;
      inflightRequestID := None;
      inflightPathID := 0;
      lastTriggerTime := Some(now);
    }

    method NewRequestID(now: Time) returns (id: RequestID)
      modifies `requestSerial
      ensures id == NewID(old(State()), now) && requestSerial == old(requestSerial) + 1
    {
      requestSerial := requestSerial + 1;
      id := RequestID(Millis(now), requestSerial);
    }

    /** Tells whether the request was written; nothing but the serial number changes when it was not. */
    method WritePerPathTrigger(w: World, path: PathID, now: Time) returns (written: bool)
      modifies `updateInProgress, `inflightRequestID, `inflightPathID, `lastTriggerTime, `requestSerial
      ensures written <==> !old(updateInProgress) && Writes(w)
      ensures written ==>
                updateInProgress && inflightRequestID == Some(NewID(old(State()), now)) && inflightPathID == path &&
                lastTriggerTime == Some(now)
      ensures !written ==>
                unchanged(`updateInProgress, `inflightRequestID, `inflightPathID, `lastTriggerTime)
      ensures requestSerial ==
              if old(updateInProgress) || w.fileThere then old(requestSerial) else old(requestSerial) + 1
    {
      if updateInProgress {
        return false;
      }
      if w.fileThere {
        return false;
      }
      var id := NewRequestID(now);
      if !w.canWrite {
        return false;
      }
      updateInProgress := true;
      inflightRequestID := Some(id);
      inflightPathID := path;
      lastTriggerTime := Some(now);
      return true;
    }

    /** The identifiers of the paths in ascending order. */
    method SortedPaths() returns (ids: seq<PathID>)
      ensures Rising(-1, ids) && forall p: PathID :: p in ids <==> p in states
    {
      ids := [];
      for p := 0 to 256
        invariant Rising(-1, ids) && (ids != [] ==> ids[|ids| - 1] < p)
        invariant forall q: PathID :: q in ids <==> q in states && q < p
      {
        if p in states {
          RisingPush(-1, ids, p);
          ids := ids + [p];
        }
      }
    }

    method MaybeTriggerObjectiveUpdate(w: World, now: Time)
      modifies this
      ensures State() == TryRequest(settings, old(State()), w, now)
    {
      if updateInProgress {
        return;
      }
      if lastTriggerTime.Some? && now - lastTriggerTime.value < settings.cooldown {
        return;
      }
      var ask := FirstPending(w);
      if ask.None? {
        return;
      }
      var path := ask.value;
      var written := WritePerPathTrigger(w, path, now);
      if written {
        states := states[path := states[path].(pending := false)];
      }
    }

    method FirstPending(w: World) returns (ask: Option<PathID>)
      ensures ask == Pick(settings, State(), w, 0)
    {
      var pathIDs := SortedPaths();
      var i := 0;
      while i < |pathIDs|
        invariant i <= |pathIDs|
        invariant forall j: nat :: j < i ==> !Candidate(settings, State(), w, pathIDs[j])
      {
        var p := pathIDs[i];
        if states[p].pending && states[p].triggered && w.rows(p) >= settings.minSamples {
          FirstIsLowest(settings, State(), w, pathIDs, i);
          return Some(p);
        }
        i := i + 1;
      }
      ask := None;
    }

    method MaybeTriggerCoefficientUpdate(w: World, now: Time)
      modifies this
      ensures State() == Turn(settings, old(State()), w, now)
    {
      MaybeCheckUpdateResponse(w, now);
      MaybeTriggerObjectiveUpdate(w, now);
    }
  }

  /** In ascending order, the first candidate is the lowest. */
  lemma FirstIsLowest(s: Settings, c: Controller, w: World, ids: seq<PathID>, i: nat)
    requires Rising(-1, ids) && (forall p: PathID :: p in ids <==> p in c.paths)
    requires i < |ids| && Candidate(s, c, w, ids[i])
    requires forall j: nat :: j < i ==> !Candidate(s, c, w, ids[j])
    ensures Pick(s, c, w, 0) == Some(ids[i])
  {
    var pick := Pick(s, c, w, 0).value;
    var k :| 0 <= k < |ids| && ids[k] == pick;
    if k > i {
      RisingPair(-1, ids, i, k);
    }
  }
}
