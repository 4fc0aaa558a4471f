/**
 * The airplane's per-frame motion step
 * (client/src/components/game/AirplaneModel.tsx): while the game runs, each
 * rendered frame of duration `dt` advances the travelled distance, scrolls
 * the world against the control flags, moves the altitude, and eases the
 * airplane's pitch and bank toward targets chosen by the flags.
 *
 * The frame reads the store as committed by the previous frame.
 */
module AirplaneMotion {
  import opened Geometry
  import opened GameStore

  /** World units per second of sideways scrolling. */
  const MoveSpeed: real := 20.0
  /** Altitude units per second of climbing or diving. */
  const AltitudeSpeed: real := 5.0
  const PitchAngle: real := 0.2
  const BankAngle: real := 0.3
  /** Fraction of the remaining angle covered each frame. */
  const Smoothing: real := 0.1

  /** True when exactly the up flag of the pair up/down is held. */
  predicate ClimbOnly(c: Controls) {
    c.up && !c.down
  }

  predicate DiveOnly(c: Controls) {
    c.down && !c.up
  }

  /** The requested altitude change of a frame: up and down cancel each other. */
  function AltitudeChange(c: Controls, dt: real): real {
    if ClimbOnly(c) then AltitudeSpeed * dt
    else if DiveOnly(c) then -(AltitudeSpeed * dt)
    else 0.0
  }

  function PitchTarget(c: Controls): real {
    if ClimbOnly(c) then PitchAngle
    else if DiveOnly(c) then -PitchAngle
    else 0.0
  }

  /** The bank target: the right flag is applied after the left one and wins. */
  function BankTarget(c: Controls): real {
    var afterLeft := if c.left then BankAngle else 0.0;
    if c.right then -BankAngle else afterLeft
  }

  /** The sideways world offset after applying the left flag, then the right flag. */
  function ScrollX(x: real, c: Controls, dt: real): real {
    var moveSpeed := MoveSpeed * dt;
    var afterLeft := if c.left then x + moveSpeed else x;
    if c.right then afterLeft - moveSpeed else afterLeft
  }

  /** One rendered frame; a frame while the game is stopped changes nothing. */
  function Frame<L>(s: GameState<L>, dt: real): (r: GameState<L>)
    ensures !s.isGameRunning ==> r == s
    ensures s.isGameRunning ==> MinAltitude <= r.altitude <= MaxAltitude
    ensures r.worldOffset.z == s.worldOffset.z
    ensures r.airplaneRotation.y == s.airplaneRotation.y
    ensures r == s.(distanceTraveled := r.distanceTraveled, worldOffset := r.worldOffset,
                    altitude := r.altitude, airplaneRotation := r.airplaneRotation)
  {
    if !s.isGameRunning then s
    else
      var moved := UpdateDistanceTraveled(s, dt);
      var c := s.controls;
      var altitudeChange := AltitudeChange(c, dt);
      var newWorldOffset := Vec3(ScrollX(s.worldOffset.x, c, dt),
                                 s.worldOffset.y - altitudeChange,
                                 s.worldOffset.z);
      var newAltitude := s.altitude + altitudeChange;
      var newRotation := Vec3(Lerp(s.airplaneRotation.x, PitchTarget(c), Smoothing),
                              s.airplaneRotation.y,
                              Lerp(s.airplaneRotation.z, BankTarget(c), Smoothing));
      SetAltitude(SetWorldOffset(SetAirplaneRotation(moved, newRotation), newWorldOffset), newAltitude)
  }

  /** A running frame covers `forwardSpeed * dt` of distance. */
  lemma FrameDistance<L>(s: GameState<L>, dt: real)
    requires s.isGameRunning && s.forwardSpeed == DefaultForwardSpeed
    ensures Frame(s, dt).distanceTraveled == s.distanceTraveled + 15.0 * dt
    ensures dt >= 0.0 ==> Frame(s, dt).distanceTraveled >= s.distanceTraveled
  {
  }

  /**
   * Climbing alone asks for +5 dt of altitude and lowers the world by 5 dt
   * with a nose-up target; diving alone is the mirror image; both or
   * neither leave the vertical axis alone with a level target. The altitude
   * takes the requested change whenever that keeps it within [0, 20].
   */
  lemma FrameVertical<L>(s: GameState<L>, dt: real)
    requires s.isGameRunning
    ensures var r := Frame(s, dt); var c := s.controls;
      && (ClimbOnly(c) ==>
            AltitudeChange(c, dt) == 5.0 * dt && r.worldOffset.y == s.worldOffset.y - 5.0 * dt
            && PitchTarget(c) == 0.2)
      && (DiveOnly(c) ==>
            AltitudeChange(c, dt) == -5.0 * dt && r.worldOffset.y == s.worldOffset.y + 5.0 * dt
            && PitchTarget(c) == -0.2)
      && (c.up == c.down ==>
            AltitudeChange(c, dt) == 0.0 && r.worldOffset.y == s.worldOffset.y
            && PitchTarget(c) == 0.0)
      && (MinAltitude <= s.altitude + AltitudeChange(c, dt) <= MaxAltitude ==>
            r.altitude == s.altitude + AltitudeChange(c, dt))
  {
  }

  /**
   * Left scrolls the world by +20 dt with a left bank, right by -20 dt with
   * a right bank, and both together cancel out while banking right.
   */
  lemma FrameHorizontal<L>(s: GameState<L>, dt: real)
    requires s.isGameRunning
    ensures var r := Frame(s, dt); var c := s.controls;
      && (c.left && !c.right ==>
            r.worldOffset.x == s.worldOffset.x + 20.0 * dt && BankTarget(c) == 0.3)
      && (c.right && !c.left ==>
            r.worldOffset.x == s.worldOffset.x - 20.0 * dt && BankTarget(c) == -0.3)
      && (c.left && c.right ==>
            r.worldOffset.x == s.worldOffset.x && BankTarget(c) == -0.3)
      && (!c.left && !c.right ==>
            r.worldOffset.x == s.worldOffset.x && BankTarget(c) == 0.0)
  {
  }

  /** Pitch and bank close 10% of their distance to the target each frame. */
  lemma FrameSmoothing<L>(s: GameState<L>, dt: real)
    requires s.isGameRunning
    ensures var r := Frame(s, dt);
      && Abs(r.airplaneRotation.x - PitchTarget(s.controls))
           == 0.9 * Abs(s.airplaneRotation.x - PitchTarget(s.controls))
      && Abs(r.airplaneRotation.z - BankTarget(s.controls))
           == 0.9 * Abs(s.airplaneRotation.z - BankTarget(s.controls))
  {
  }

  /** Pitch and bank within [-0.3, 0.3]. */
  ghost predicate AttitudeBounded<L>(s: GameState<L>) {
    -BankAngle <= s.airplaneRotation.x <= BankAngle && -BankAngle <= s.airplaneRotation.z <= BankAngle
  }

  /**
   * `altitude + worldOffset.y` is kept by a running frame exactly when the
   * unclamped altitude stays within [0, 20]: at the bounds the altitude is
   * clamped while the world offset still moves.
   */
  lemma FrameAltitudeOffsetCoupling<L>(s: GameState<L>, dt: real)
    requires s.isGameRunning
    ensures var r := Frame(s, dt);
      (r.altitude + r.worldOffset.y == s.altitude + s.worldOffset.y)
      <==> (MinAltitude <= s.altitude + AltitudeChange(s.controls, dt) <= MaxAltitude)
  {
  }

  /** Successive frames with the given durations. */
  function RunFrames<L>(s: GameState<L>, dts: seq<real>): GameState<L>
    decreases |dts|
  {
    if |dts| == 0 then s else RunFrames(Frame(s, dts[0]), dts[1..])
  }

  function Sum(xs: seq<real>): real {
    if |xs| == 0 then 0.0 else xs[0] + Sum(xs[1..])
  }

  predicate AllNonNegative(xs: seq<real>) {
    forall k :: 0 <= k < |xs| ==> xs[k] >= 0.0
  }

  /**
   * Over any run of frames, altitude stays in [0, 20], speed stays
   * constant, pitch and bank stay within [-0.3, 0.3], the run flag is not
   * touched, and the distance grows by 15 times the elapsed time while the
   * game runs (so it never shrinks when no duration is negative).
   */
  lemma {:induction false} RunFramesInvariant<L>(s: GameState<L>, dts: seq<real>)
    requires Sane(s) && AttitudeBounded(s)
    decreases |dts|
    ensures var r := RunFrames(s, dts);
      && Sane(r) && AttitudeBounded(r)
      && r.isGameRunning == s.isGameRunning
      && (s.isGameRunning ==> r.distanceTraveled == s.distanceTraveled + 15.0 * Sum(dts))
      && (AllNonNegative(dts) ==> r.distanceTraveled >= s.distanceTraveled)
  {
    if |dts| > 0 {
      var s1 := Frame(s, dts[0]);
      if s.isGameRunning {
        FrameSmoothing(s, dts[0]);
      }
      assert AttitudeBounded(s1);
      RunFramesInvariant(s1, dts[1..]);
      if AllNonNegative(dts) {
        assert dts[0] >= 0.0;
        assert AllNonNegative(dts[1..]) by {
          forall k | 0 <= k < |dts[1..]| ensures dts[1..][k] >= 0.0 {
            assert dts[1..][k] == dts[k + 1];
          }
        }
      }
    }
  }
}
