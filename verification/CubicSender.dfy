/** The CUBIC object itself: fields updated in place, proved to follow the curve of CubicWindow. */
module CubicSender {
  import opened Basics
  import opened Cubic
  import opened CubicWindow
  import opened CubicFriendly

  class CubicState {
    var numConnections: nat
    var epoch: Option<int>
    var appLimitedStartTime: Option<int>
    var lastUpdateTime: Option<int>
    var lastCongestionWindow: nat
    var lastMaxCongestionWindow: nat
    var ackedPacketsCount: nat
    var estimatedTCPcongestionWindow: nat
    var originPointCongestionWindow: nat
    var timeToOriginPoint: nat
    var lastTargetCongestionWindow: nat

    function State(): Curve
      reads this
    {
      Curve(numConnections, epoch, appLimitedStartTime, lastUpdateTime, lastCongestionWindow, lastMaxCongestionWindow,
            ackedPacketsCount, estimatedTCPcongestionWindow, originPointCongestionWindow, timeToOriginPoint,
            lastTargetCongestionWindow)
    }

    constructor ()
      ensures State() == Cleared(2)
    {
      numConnections := 2;
      epoch, appLimitedStartTime, lastUpdateTime := None, None, None;
      lastCongestionWindow, lastMaxCongestionWindow, ackedPacketsCount := 0, 0, 0;
      estimatedTCPcongestionWindow, originPointCongestionWindow := 0, 0;
      timeToOriginPoint, lastTargetCongestionWindow := 0, 0;
    }

    method Reset()
      modifies this
      ensures State() == Cleared(old(numConnections))
    {
      epoch, appLimitedStartTime, lastUpdateTime := None, None, None;
      lastCongestionWindow, lastMaxCongestionWindow, ackedPacketsCount := 0, 0, 0;
      estimatedTCPcongestionWindow, originPointCongestionWindow := 0, 0;
      timeToOriginPoint, lastTargetCongestionWindow := 0, 0;
    }

    method OnApplicationLimited(now: int)
      modifies `appLimitedStartTime
      ensures State() == Limit(old(State()), now)
    {
      if appLimitedStartTime.None? {
        appLimitedStartTime := Some(now);
      }
    }

    method CongestionWindowAfterPacketLoss(window: nat) returns (reduced: nat)
      requires numConnections > 0
      modifies `lastMaxCongestionWindow, `epoch
      ensures State() == AfterLoss(old(State()), window)
      ensures reduced == Reduced(old(State()), window)
    {
      if window < lastMaxCongestionWindow {
        lastMaxCongestionWindow := (0.85 * window as real).Floor;
      } else {
        lastMaxCongestionWindow := window;
      }
      epoch := None;
      reduced := (window as real * Beta(numConnections)).Floor;
    }

    /** Lets the Reno estimate grow as far as the acknowledged packets go. */
    method GrowEstimate()
      requires numConnections > 0
      modifies `ackedPacketsCount, `estimatedTCPcongestionWindow
      ensures Settles(old(ackedPacketsCount), old(estimatedTCPcongestionWindow), Alpha(numConnections),
                      ackedPacketsCount, estimatedTCPcongestionWindow)
      ensures numConnections <= 2 ==>
        (estimatedTCPcongestionWindow - old(estimatedTCPcongestionWindow)) * old(estimatedTCPcongestionWindow) <=
        old(ackedPacketsCount)
    {
      ghost var acked, from := ackedPacketsCount, estimatedTCPcongestionWindow;
      var alpha := Alpha(numConnections);
      var required := Required(estimatedTCPcongestionWindow, alpha);
      while ackedPacketsCount >= required
        invariant alpha > 0.0
        invariant required == Required(estimatedTCPcongestionWindow, alpha)
        invariant from <= estimatedTCPcongestionWindow
        invariant acked == Cost(from, estimatedTCPcongestionWindow, alpha) + ackedPacketsCount
        decreases ackedPacketsCount, Free(estimatedTCPcongestionWindow, alpha)
      {
        CostSplits(from, estimatedTCPcongestionWindow, estimatedTCPcongestionWindow + 1, alpha);
        if estimatedTCPcongestionWindow as real >= alpha {
          RequiredGrows(estimatedTCPcongestionWindow, alpha);
        }
        ackedPacketsCount := ackedPacketsCount - required;
        estimatedTCPcongestionWindow := estimatedTCPcongestionWindow + 1;
        required := Required(estimatedTCPcongestionWindow, alpha);
      }
      if numConnections <= 2 {
        GrowsSlowly(numConnections, acked, from, ackedPacketsCount, estimatedTCPcongestionWindow);
      }
    }

    /** Starts an epoch, or moves it through an application-limited period. */
    method PlaceEpoch(window: nat, now: int)
      modifies this
      ensures State() == (if old(epoch).None? then Begun(old(State()), window, now) else Shifted(old(State()), now))
    {
      if epoch.None? {
        epoch := Some(now);
        ackedPacketsCount := 1;
        estimatedTCPcongestionWindow := window;
        if lastMaxCongestionWindow <= window {
          timeToOriginPoint := 0;
          originPointCongestionWindow := window;
        } else {
          timeToOriginPoint := CubeRoot(Uint64(CUBE_FACTOR * (lastMaxCongestionWindow - window)));
          originPointCongestionWindow := lastMaxCongestionWindow;
        }
      } else if appLimitedStartTime.Some? {
        var shift := now - appLimitedStartTime.value;
        epoch := Some(epoch.value + shift);
        appLimitedStartTime := None;
      }
    }

    method Prepare(window: nat, now: int)
      requires ackedPacketsCount > 0
      modifies this
      ensures State() == Placed(old(State()).(acked := old(State()).acked - 1), window, now)
    {
      lastCongestionWindow := window;
      lastUpdateTime := Some(now);
      PlaceEpoch(window, now);
    }

    /** The position on the curve, and the target there. */
    method FindTarget(now: int, delayMin: int) returns (target: nat)
      requires epoch.Some?
      ensures target == Target(originPointCongestionWindow, timeToOriginPoint, Ticks(now + delayMin - epoch.value))
    {
      var elapsed := Quotient(Int64(Quotient(now + delayMin - epoch.value, 1000) * 1024), 1_000_000);
      var offset := timeToOriginPoint - elapsed;
      if offset < 0 {
        offset := -offset;
      }
      var delta := Uint64(Int64(WINDOW_SCALE * offset * offset * offset) / CUBE_SCALE);
      CubeProduct(offset);
      if elapsed > timeToOriginPoint {
        target := Uint64(originPointCongestionWindow + delta);
      } else {
        target := Uint64(originPointCongestionWindow - delta);
      }
    }

    method Recompute(now: int, delayMin: int) returns (target: nat)
      requires numConnections > 0 && epoch.Some?
      modifies `ackedPacketsCount, `estimatedTCPcongestionWindow, `lastTargetCongestionWindow
      ensures State() == Grown(old(State()), Ticks(now + delayMin - old(epoch).value))
      ensures target == Window(State())
    {
      ghost var acked, from, alpha := ackedPacketsCount, estimatedTCPcongestionWindow, Alpha(numConnections);
      target := FindTarget(now, delayMin);
      GrowEstimate();
      lastTargetCongestionWindow := target;
      ghost var r := Reno(acked, from, alpha);
      SettlesOnce(acked, from, alpha, r.0, r.1, ackedPacketsCount, estimatedTCPcongestionWindow);
      if target < estimatedTCPcongestionWindow {
        target := estimatedTCPcongestionWindow;
      }
    }

    method CongestionWindowAfterAck(window: nat, now: int, delayMin: int) returns (target: nat)
      requires numConnections > 0
      modifies this
      ensures State() == AfterAck(old(State()), window, now, delayMin)
      ensures target == Window(State())
    {
      ackedPacketsCount := ackedPacketsCount + 1;
      if lastCongestionWindow == window && lastUpdateTime.Some? && now - lastUpdateTime.value <= INTERVAL {
        return Max(lastTargetCongestionWindow, estimatedTCPcongestionWindow);
      }
      Prepare(window, now);
      target := Recompute(now, delayMin);
    }
  }

  lemma CubeProduct(offset: nat)
    ensures WINDOW_SCALE * offset * offset * offset == WINDOW_SCALE * Cube(offset)
  {
  }
}
