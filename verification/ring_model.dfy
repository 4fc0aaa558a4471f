/**
 * The ring pass/score state machine (client/src/components/game/RingModel.tsx).
 *
 * Each ring component keeps one flag, "passed". Every frame, a ring that is
 * not yet passed, once the airplane has flown the grace distance, locates
 * the airplane in the ring's own frame. Within the ring's depth window it
 * classifies the pass as success, hit or miss by the radial distance from
 * the ring's axis, consumes the ring and counts it; a success also scores.
 * When the count reaches the number of rings, a completion callback is
 * scheduled; it is modelled as a counter of scheduled callbacks plus an
 * explicit step that fires one of them.
 *
 * A ring's status records the classification its pass received; the
 * component's flag is `status.Passed?`.
 */
module RingCollision {
  import opened Geometry
  import opened GameConfig
  import opened EventBus
  import opened GameStore
  import opened AirplaneMotion

  /** Distance to travel before any ring is evaluated. */
  const GraceDistance: real := 10.0

  datatype Classification = Success | Hit | Miss

  datatype Verdict = Pending | Classified(result: Classification)

  datatype RingStatus = Unpassed | Passed(result: Classification)

  /**
   * The verdict for the airplane at `local`, in ring coordinates (z along
   * the ring's axis). The radial distance is compared through its square.
   */
  function Classify(local: Vec3): (v: Verdict)
    ensures v == Pending <==> Abs(local.z) > DepthTolerance
  {
    var radialSquared := local.x * local.x + local.y * local.y;
    var zGap := Abs(local.z);
    if zGap > DepthTolerance then Pending
    else if radialSquared < InnerRadius * InnerRadius then Classified(Success)
    else if radialSquared < HitRadius * HitRadius then Classified(Hit)
    else Classified(Miss)
  }

  /** For non-negative reals, comparing squares is comparing the values. */
  lemma SquaresOrdered(a: real, b: real)
    requires 0.0 <= a && 0.0 <= b
    ensures a < b <==> a * a < b * b
  {
    if a < b {
      SquareBelow(a, b);
    } else {
      SquareBelow(b, a);
    }
  }

  lemma SquareBelow(a: real, b: real)
    requires 0.0 <= a <= b
    ensures a * a <= b * b
    ensures a < b ==> a * a < b * b
  {
    var d := b - a;
    assert b * b == a * a + 2.0 * a * d + d * d;
    assert 0.0 <= a * d;
    if a < b {
      assert 0.0 < d * d;
    }
  }

  /**
   * Within the depth window, the verdict is decided by the radial distance
   * `radial = hypot(x, y)`: below 4.2 a success, from 4.2 up to 5.2 a hit,
   * from 5.2 on a miss.
   */
  lemma ClassifyByRadius(local: Vec3, radial: real)
    requires 0.0 <= radial && radial * radial == local.x * local.x + local.y * local.y
    requires Abs(local.z) <= DepthTolerance
    ensures Classify(local) == Classified(Success) <==> radial < 4.2
    ensures Classify(local) == Classified(Hit) <==> 4.2 <= radial < 5.2
    ensures Classify(local) == Classified(Miss) <==> 5.2 <= radial
  {
    SquaresOrdered(radial, InnerRadius);
    SquaresOrdered(radial, HitRadius);
  }

  /** The ring's current world position: design position scrolled by the world. */
  function RingWorldPosition<L>(spec: RingSpec, s: GameState<L>): Vec3 {
    Vec3(s.worldOffset.x + spec.position.x,
         s.worldOffset.y + spec.position.y,
         spec.position.z + s.distanceTraveled)
  }

  /** The airplane sits at the origin of the horizontal plane, at its altitude. */
  function PlanePosition<L>(s: GameState<L>): Vec3 {
    Vec3(0.0, s.altitude, 0.0)
  }

  /** Rotates a vector by the inverse of an Euler rotation. */
  type InverseRotation = (Vec3, Vec3) -> Vec3

  /**
   * The airplane in the ring's frame: the inverse of "rotate, then move to
   * the ring's position" applied to the airplane's position.
   */
  function LocalPlanePosition<L>(inverse: InverseRotation, spec: RingSpec, s: GameState<L>): Vec3 {
    inverse(spec.rotation, Sub(PlanePosition(s), RingWorldPosition(spec, s)))
  }

  /** For an untilted ring, ring coordinates are the airplane's offset from the ring. */
  lemma UntiltedLocal<L>(inverse: InverseRotation, spec: RingSpec, s: GameState<L>)
    requires spec.rotation == Zero()
    requires forall v :: inverse(Zero(), v) == v
    ensures LocalPlanePosition(inverse, spec, s) ==
      Vec3(-(s.worldOffset.x + spec.position.x),
           s.altitude - (s.worldOffset.y + spec.position.y),
           -(spec.position.z + s.distanceTraveled))
  {
  }

  /** The store, one status per ring component, and the completion callbacks not yet fired. */
  datatype Round<L> = Round(store: GameState<L>, rings: seq<RingStatus>, pendingCompletions: nat)

  datatype RoundStep<L> = RoundStep(round: Round<L>, emitted: seq<Emission>)

  /** Points a classification is worth. */
  function Points(c: Classification): int {
    if c == Success then RingPoints else 0
  }

  /**
   * One frame of ring `i` with the airplane at `local` in the ring's frame.
   */
  function EvaluateRing<L>(round: Round<L>, i: nat, local: Vec3): (step: RoundStep<L>)
    requires i < |round.rings|
    ensures round.rings[i].Passed? || round.store.distanceTraveled < GraceDistance
            || Classify(local) == Pending
            ==> step == RoundStep(round, [])
    ensures !round.rings[i].Passed? && round.store.distanceTraveled >= GraceDistance
            && Classify(local).Classified? ==>
      var c := Classify(local).result;
      var s := round.store;
      && step.round.rings == round.rings[i := Passed(c)]
      && step.round.store.ringsPassed == s.ringsPassed + 1
      && step.round.store.score == s.score + Points(c)
      && step.round.store == s.(ringsPassed := step.round.store.ringsPassed,
                                score := step.round.store.score)
      && (c == Success ==> step.emitted == [
            Emission(RingPassed, RingPassedData(i, 10)),
            Emission(ScoreChanged, ScoreChangedData(s.score + 10, 10))])
      && (c != Success ==> step.emitted == [])
      && step.round.pendingCompletions ==
           round.pendingCompletions + (if s.ringsPassed + 1 >= TotalRings then 1 else 0)
  {
    var s := round.store;
    if round.rings[i].Passed? || s.distanceTraveled < GraceDistance then RoundStep(round, [])
    else
      match Classify(local)
      case Pending => RoundStep(round, [])
      case Classified(result) =>
        var counted := IncrementRingsPassed(s);
        var scored := if result == Success then AddScoreForRing(counted, i) else StoreStep(counted, []);
        var pending := if scored.state.ringsPassed >= TotalRings
                       then round.pendingCompletions + 1 else round.pendingCompletions;
        RoundStep(Round(scored.state, round.rings[i := Passed(result)], pending), scored.emitted)
  }

  /**
   * One frame of ring `i` of the layout, locating the airplane with `inverse`.
   * The ring is consumed in this frame exactly when it was unconsumed, the
   * grace distance has been flown, and the airplane is within the ring's
   * depth window; it scores exactly when that pass is a success.
   */
  function RingFrame<L>(round: Round<L>, i: nat, inverse: InverseRotation): (step: RoundStep<L>)
    requires i < |round.rings| && i < |round.store.currentRingLayout|
    ensures var local := LocalPlanePosition(inverse, round.store.currentRingLayout[i], round.store);
      && |step.round.rings| == |round.rings|
      && step.round.store.currentRingLayout == round.store.currentRingLayout
      && (step.round.rings[i] != round.rings[i] <==>
            !round.rings[i].Passed? && round.store.distanceTraveled >= GraceDistance
            && Abs(local.z) <= DepthTolerance)
      && (step.round.store.score != round.store.score <==>
            step.round.rings[i] != round.rings[i] && step.round.rings[i] == Passed(Success))
  {
    EvaluateRing(round, i, LocalPlanePosition(inverse, round.store.currentRingLayout[i], round.store))
  }

  /**
   * For an untilted ring of a well-placed layout, ring `i` is consumed in the
   * frame where the travelled distance is within 0.75 of `50 + 50 i`, the
   * distance at which the world has scrolled the ring onto the airplane.
   */
  lemma RingFrameUntilted<L>(round: Round<L>, i: nat, inverse: InverseRotation)
    requires i < |round.rings| && i < |round.store.currentRingLayout|
    requires WellPlaced(round.store.currentRingLayout[i], i)
    requires round.store.currentRingLayout[i].rotation == Zero()
    requires forall v :: inverse(Zero(), v) == v
    ensures var step := RingFrame(round, i, inverse);
      step.round.rings[i] != round.rings[i] <==>
        !round.rings[i].Passed? && round.store.distanceTraveled >= GraceDistance
        && Abs(round.store.distanceTraveled - (50.0 + 50.0 * i as real)) <= 0.75
  {
  }

  /**
   * The completion callback: stops the game, releases every control and
   * announces the end of the game twice, once through `pauseGame` and once
   * directly.
   */
  function FireCompletion<L>(round: Round<L>): (step: RoundStep<L>)
    requires round.pendingCompletions > 0
    ensures !step.round.store.isGameRunning
    ensures step.round.store.controls == NoControls()
    ensures step.round.store == round.store.(isGameRunning := false, controls := NoControls())
    ensures step.round.rings == round.rings
    ensures step.round.pendingCompletions == round.pendingCompletions - 1
    ensures step.emitted == [Emission(GameEnded, NoData), Emission(GameEnded, NoData)]
  {
    var paused := PauseGame(round.store);
    var released := SetControl(SetControl(SetControl(SetControl(
      paused.state, Up, false), Down, false), Left, false), Right, false);
    RoundStep(Round(released, round.rings, round.pendingCompletions - 1),
              paused.emitted + [Emission(GameEnded, NoData)])
  }

  function AllUnpassed(n: nat): (rings: seq<RingStatus>)
    ensures |rings| == n && forall k :: 0 <= k < n ==> rings[k] == Unpassed
  {
    seq(n, _ => Unpassed)
  }

  /**
   * A restart: the store resets and every ring component clears its flag on
   * `game_reset`. Scheduled completion callbacks are not cancelled.
   */
  function ResetRound<L>(round: Round<L>, sine: Sine, now: real): (step: RoundStep<L>)
    ensures FreshRound(step.round.store)
    ensures step.round.store.eventListeners == round.store.eventListeners
    ensures step.round.rings == AllUnpassed(TotalRings)
    ensures step.round.pendingCompletions == round.pendingCompletions
    ensures step.emitted == [Emission(GameEnded, NoData), Emission(GameReset, NoData)]
  {
    var reset := ResetGame(round.store, sine, now);
    RoundStep(Round(reset.state, AllUnpassed(|reset.state.currentRingLayout|), round.pendingCompletions),
              reset.emitted)
  }

  /** The number of consumed rings. */
  function CountPassed(rings: seq<RingStatus>): (n: nat)
    ensures n <= |rings|
  {
    if |rings| == 0 then 0 else (if rings[0].Passed? then 1 else 0) + CountPassed(rings[1..])
  }

  /** The number of rings passed cleanly. */
  function CountSuccess(rings: seq<RingStatus>): (n: nat)
    ensures n <= CountPassed(rings)
  {
    if |rings| == 0 then 0
    else (if rings[0] == Passed(Success) then 1 else 0) + CountSuccess(rings[1..])
  }

  /** Consuming one more ring adds one pass, and one success if it was a success. */
  lemma {:induction false} CountAfterPass(rings: seq<RingStatus>, i: nat, c: Classification)
    requires i < |rings| && rings[i] == Unpassed
    ensures CountPassed(rings[i := Passed(c)]) == CountPassed(rings) + 1
    ensures CountSuccess(rings[i := Passed(c)]) == CountSuccess(rings) + (if c == Success then 1 else 0)
  {
    var updated := rings[i := Passed(c)];
    if i == 0 {
      assert updated[1..] == rings[1..];
    } else {
      assert updated[1..] == rings[1..][i - 1 := Passed(c)];
      CountAfterPass(rings[1..], i - 1, c);
    }
  }

  /** Every ring is consumed exactly when the count equals the number of rings. */
  lemma {:induction false} CountPassedFull(rings: seq<RingStatus>)
    ensures CountPassed(rings) == |rings| <==> forall k :: 0 <= k < |rings| ==> rings[k].Passed?
  {
    if |rings| > 0 {
      CountPassedFull(rings[1..]);
      if forall k :: 0 <= k < |rings| ==> rings[k].Passed? {
        assert forall k :: 0 <= k < |rings[1..]| ==> rings[1..][k] == rings[k + 1];
      } else {
        var k :| 0 <= k < |rings| && !rings[k].Passed?;
        if k > 0 {
          assert !rings[1..][k - 1].Passed?;
        }
      }
    }
  }

  /** A round whose rings are all unconsumed counts no pass and no success. */
  lemma {:induction false} AllUnpassedCounts(n: nat)
    ensures CountPassed(AllUnpassed(n)) == 0 && CountSuccess(AllUnpassed(n)) == 0
  {
    if n > 0 {
      assert AllUnpassed(n)[1..] == AllUnpassed(n - 1);
      AllUnpassedCounts(n - 1);
    }
  }

  /**
   * The round invariant: one status per ring of a seven-ring layout, the
   * store's counter equal to the number of consumed rings, the score ten
   * points per clean pass, altitude in range and speed constant.
   */
  ghost predicate RoundInv<L>(r: Round<L>) {
    && |r.rings| == TotalRings
    && |r.store.currentRingLayout| == TotalRings
    && r.store.ringsPassed == CountPassed(r.rings)
    && r.store.score == RingPoints * CountSuccess(r.rings)
    && Sane(r.store)
  }

  /** Under the invariant, at most 7 rings are counted and at most 70 points scored. */
  lemma RoundBounds<L>(r: Round<L>)
    requires RoundInv(r)
    ensures 0 <= r.store.ringsPassed <= TotalRings
    ensures 0 <= r.store.score <= RingPoints * r.store.ringsPassed <= 70
    ensures r.store.score % RingPoints == 0
  {
  }

  /** The round as it stands when the program has loaded. */
  function StartRound<L>(sine: Sine, loadTime: real): (r: Round<L>)
    ensures RoundInv(r)
    ensures r.pendingCompletions == 0 && forall k :: 0 <= k < |r.rings| ==> r.rings[k] == Unpassed
  {
    AllUnpassedCounts(TotalRings);
    Round(CreateStore(sine, loadTime), AllUnpassed(TotalRings), 0)
  }

  lemma EvaluateRingKeepsInv<L>(round: Round<L>, i: nat, local: Vec3)
    requires RoundInv(round) && i < |round.rings|
    ensures RoundInv(EvaluateRing(round, i, local).round)
  {
    if !round.rings[i].Passed? && round.store.distanceTraveled >= GraceDistance
       && Classify(local).Classified? {
      CountAfterPass(round.rings, i, Classify(local).result);
    }
  }

  /**
   * A completion callback is scheduled by the classification that consumes
   * the last unconsumed ring, and by no other.
   */
  lemma CompletionOnLastRing<L>(round: Round<L>, i: nat, local: Vec3)
    requires RoundInv(round) && i < |round.rings|
    requires !round.rings[i].Passed? && round.store.distanceTraveled >= GraceDistance
    requires Classify(local).Classified?
    ensures var next := EvaluateRing(round, i, local).round;
      next.pendingCompletions == round.pendingCompletions + 1
      <==> forall k :: 0 <= k < |next.rings| ==> next.rings[k].Passed?
  {
    var next := EvaluateRing(round, i, local).round;
    CountAfterPass(round.rings, i, Classify(local).result);
    CountPassedFull(next.rings);
  }

  /** What can happen to a round: frames, ring checks, timers, input and game control. */
  datatype Action =
    | Tick(dt: real)
    | CheckRing(index: nat, inverse: InverseRotation)
    | FireTimer
    | Press(control: Control, active: bool)
    | Start
    | Pause
    | Restart(now: real)

  /** One action; a check of a ring that does not exist, or a timer that was never set, does nothing. */
  function Apply<L>(round: Round<L>, a: Action, sine: Sine): RoundStep<L> {
    match a
    case Tick(dt) => RoundStep(round.(store := Frame(round.store, dt)), [])
    case CheckRing(i, inverse) =>
      if i < |round.rings| && i < |round.store.currentRingLayout| then RingFrame(round, i, inverse)
      else RoundStep(round, [])
    case FireTimer =>
      if round.pendingCompletions > 0 then FireCompletion(round) else RoundStep(round, [])
    case Press(c, v) => RoundStep(round.(store := SetControl(round.store, c, v)), [])
    case Start =>
      var started := StartGame(round.store);
      RoundStep(round.(store := started.state), started.emitted)
    case Pause =>
      var paused := PauseGame(round.store);
      RoundStep(round.(store := paused.state), paused.emitted)
    case Restart(now) => ResetRound(round, sine, now)
  }

  lemma ApplyKeepsInv<L>(round: Round<L>, a: Action, sine: Sine)
    requires RoundInv(round)
    ensures RoundInv(Apply(round, a, sine).round)
  {
    match a
    case Tick(dt) =>
      RunFramesInvariantOne(round.store, dt);
    case CheckRing(i, inverse) =>
      if i < |round.rings| && i < |round.store.currentRingLayout| {
        EvaluateRingKeepsInv(round, i,
          LocalPlanePosition(inverse, round.store.currentRingLayout[i], round.store));
      }
    case Restart(now) =>
      AllUnpassedCounts(TotalRings);
    case _ =>
  }

  /** A frame keeps the store's invariant and does not touch the counters. */
  lemma RunFramesInvariantOne<L>(s: GameState<L>, dt: real)
    requires Sane(s)
    ensures Sane(Frame(s, dt))
  {
  }

  /** A sequence of actions, with every emission in order. */
  function Run<L>(round: Round<L>, actions: seq<Action>, sine: Sine): RoundStep<L>
    decreases |actions|
  {
    if |actions| == 0 then RoundStep(round, [])
    else
      var first := Apply(round, actions[0], sine);
      var rest := Run(first.round, actions[1..], sine);
      RoundStep(rest.round, first.emitted + rest.emitted)
  }

  /**
   * Whatever happens, a round keeps its invariant: counter equal to the
   * consumed rings (at most 7), score ten per clean pass (at most 70).
   */
  lemma {:induction false} RunKeepsInv<L>(round: Round<L>, actions: seq<Action>, sine: Sine)
    requires RoundInv(round)
    decreases |actions|
    ensures RoundInv(Run(round, actions, sine).round)
  {
    if |actions| > 0 {
      ApplyKeepsInv(round, actions[0], sine);
      RunKeepsInv(Apply(round, actions[0], sine).round, actions[1..], sine);
    }
  }

  /** No restart among the actions. */
  predicate NoRestart(actions: seq<Action>) {
    forall k :: 0 <= k < |actions| ==> !actions[k].Restart?
  }

  /** Consumed rings keep their verdict; counters and score never go down. */
  ghost predicate Progressed<L>(before: Round<L>, after: Round<L>) {
    && |after.rings| == |before.rings|
    && (forall k :: 0 <= k < |before.rings| && before.rings[k].Passed? ==>
          after.rings[k] == before.rings[k])
    && before.store.ringsPassed <= after.store.ringsPassed
    && before.store.score <= after.store.score
  }

  lemma ApplyProgresses<L>(round: Round<L>, a: Action, sine: Sine)
    requires !a.Restart?
    ensures Progressed(round, Apply(round, a, sine).round)
  {
  }

  /**
   * Within a round, a ring once consumed is never classified again and its
   * verdict stands, and neither the counter nor the score ever decreases.
   */
  lemma {:induction false} RunProgresses<L>(round: Round<L>, actions: seq<Action>, sine: Sine)
    requires NoRestart(actions)
    decreases |actions|
    ensures Progressed(round, Run(round, actions, sine).round)
  {
    if |actions| > 0 {
      var next := Apply(round, actions[0], sine).round;
      ApplyProgresses(round, actions[0], sine);
      assert NoRestart(actions[1..]) by {
        forall k | 0 <= k < |actions[1..]| ensures !actions[1..][k].Restart? {
          assert actions[1..][k] == actions[k + 1];
        }
      }
      RunProgresses(next, actions[1..], sine);
    }
  }

  /**
   * A completion callback scheduled in one round and not yet fired ends the
   * next round too, once that round has started.
   */
  lemma StaleCompletionEndsNextRound<L>(round: Round<L>, sine: Sine, now: real)
    requires round.pendingCompletions > 0
    ensures var restarted := Run(round, [Restart(now), Start], sine).round;
      && restarted.store.isGameRunning
      && !Apply(restarted, FireTimer, sine).round.store.isGameRunning
  {
    assert [Restart(now), Start][1..] == [Start];
    assert [Start][1..] == [];
  }
}
