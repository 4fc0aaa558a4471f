/**
 * The game-state store (client/src/lib/stores/useGameState.tsx): one record
 * holding motion, controls, counters, the run flag, the ring layout and the
 * listener registry, and the actions that update it.
 *
 * Every action is a pure function from the old record to the new one; an
 * action that dispatches events also returns the emissions in the order it
 * made them. Dispatching reads the registry of the updated record, which no
 * action here changes.
 */
module GameStore {
  import opened Geometry
  import opened GameConfig
  import opened EventBus

  const MinAltitude: real := 0.0
  const MaxAltitude: real := 20.0
  const DefaultAltitude: real := 5.0
  const DefaultForwardSpeed: real := 15.0
  /** Points awarded for a ring flown through cleanly. */
  const RingPoints: int := 10

  datatype Controls = Controls(up: bool, down: bool, left: bool, right: bool)

  /** The names `setControl` is called with. */
  datatype Control = Up | Down | Left | Right

  datatype GameState<L> = GameState(
    airplanePosition: Vec3,
    airplaneRotation: Vec3,
    worldOffset: Vec3,
    altitude: real,
    forwardSpeed: real,
    distanceTraveled: real,
    ringsPassed: int,
    score: int,
    controls: Controls,
    eventListeners: Registry<L>,
    isGameRunning: bool,
    currentRingLayout: seq<RingSpec>)

  /** The updated store and the events dispatched while updating it, in order. */
  datatype StoreStep<L> = StoreStep(state: GameState<L>, emitted: seq<Emission>)

  function NoControls(): Controls {
    Controls(false, false, false, false)
  }

  /** The value of one control flag. */
  function ControlValue(c: Controls, which: Control): bool {
    match which
    case Up => c.up
    case Down => c.down
    case Left => c.left
    case Right => c.right
  }

  /** What the store holds at the start of every round. */
  ghost predicate FreshRound<L>(s: GameState<L>) {
    && s.airplanePosition == Vec3(0.0, DefaultAltitude, 0.0)
    && s.airplaneRotation == Zero()
    && s.worldOffset == Zero()
    && s.altitude == DefaultAltitude
    && s.forwardSpeed == DefaultForwardSpeed
    && s.distanceTraveled == 0.0
    && s.ringsPassed == 0
    && s.score == 0
    && s.controls == NoControls()
    && !s.isGameRunning
  }

  /** The initial values, with the given layout and registry. */
  function InitialState<L>(layout: seq<RingSpec>, reg: Registry<L>): (s: GameState<L>)
    ensures FreshRound(s) && s.currentRingLayout == layout && s.eventListeners == reg
  {
    GameState(Vec3(0.0, DefaultAltitude, 0.0), Zero(), Zero(), DefaultAltitude,
              DefaultForwardSpeed, 0.0, 0, 0, NoControls(), map[], false, layout)
      .(eventListeners := reg)
  }

  /** The store as created when the program loads at time `loadTime`. */
  function CreateStore<L>(sine: Sine, loadTime: real): (s: GameState<L>)
    ensures FreshRound(s) && s.eventListeners == map[]
    ensures s.currentRingLayout == GenerateRingPositions(sine, loadTime)
    ensures |s.currentRingLayout| == TotalRings
  {
    InitialState(GenerateRingPositions(sine, loadTime), map[])
  }

  /** Invariants every action keeps: altitude clamped and speed constant. */
  ghost predicate Sane<L>(s: GameState<L>) {
    MinAltitude <= s.altitude <= MaxAltitude && s.forwardSpeed == DefaultForwardSpeed
  }

  function SetAirplaneRotation<L>(s: GameState<L>, rotation: Vec3): GameState<L> {
    s.(airplaneRotation := rotation)
  }

  function SetWorldOffset<L>(s: GameState<L>, offset: Vec3): GameState<L> {
    s.(worldOffset := offset)
  }

  /** Stores the altitude clamped to [0, 20]. */
  function SetAltitude<L>(s: GameState<L>, newAltitude: real): (r: GameState<L>)
    ensures MinAltitude <= r.altitude <= MaxAltitude
    ensures MinAltitude <= newAltitude <= MaxAltitude ==> r.altitude == newAltitude
    ensures newAltitude < MinAltitude ==> r.altitude == MinAltitude
    ensures newAltitude > MaxAltitude ==> r.altitude == MaxAltitude
    ensures r == s.(altitude := r.altitude)
  {
    s.(altitude := Clamp(newAltitude, MinAltitude, MaxAltitude))
  }

  /** Advances the travelled distance by `forwardSpeed * delta`. */
  function UpdateDistanceTraveled<L>(s: GameState<L>, delta: real): (r: GameState<L>)
    ensures s.forwardSpeed >= 0.0 && delta >= 0.0 ==> r.distanceTraveled >= s.distanceTraveled
    ensures r.distanceTraveled - s.distanceTraveled == s.forwardSpeed * delta
    ensures r == s.(distanceTraveled := r.distanceTraveled)
  {
    s.(distanceTraveled := s.distanceTraveled + s.forwardSpeed * delta)
  }

  /** Sets exactly one control flag. */
  function SetControl<L>(s: GameState<L>, which: Control, active: bool): (r: GameState<L>)
    ensures ControlValue(r.controls, which) == active
    ensures forall other :: other != which ==>
      ControlValue(r.controls, other) == ControlValue(s.controls, other)
    ensures r == s.(controls := r.controls)
  {
    var c := s.controls;
    var updated := match which
      case Up => c.(up := active)
      case Down => c.(down := active)
      case Left => c.(left := active)
      case Right => c.(right := active);
    s.(controls := updated)
  }

  function IncrementRingsPassed<L>(s: GameState<L>): (r: GameState<L>)
    ensures r.ringsPassed == s.ringsPassed + 1
    ensures r == s.(ringsPassed := r.ringsPassed)
  {
    s.(ringsPassed := s.ringsPassed + 1)
  }

  function AddScore<L>(s: GameState<L>, points: int): (r: GameState<L>)
    ensures r.score - s.score == points
    ensures r == s.(score := r.score)
  {
    s.(score := s.score + points)
  }

  /**
   * Awards the points of one ring, then announces the ring and the new
   * score, in that order.
   */
  function AddScoreForRing<L>(s: GameState<L>, ringIndex: int): (step: StoreStep<L>)
    ensures step.state.score == s.score + 10
    ensures step.state == s.(score := step.state.score)
    ensures step.emitted == [
      Emission(RingPassed, RingPassedData(ringIndex, 10)),
      Emission(ScoreChanged, ScoreChangedData(s.score + 10, 10))]
  {
    var basePoints := RingPoints;
    var r := s.(score := s.score + basePoints);
    StoreStep(r, [
      Emission(RingPassed, RingPassedData(ringIndex, basePoints)),
      Emission(ScoreChanged, ScoreChangedData(s.score + basePoints, basePoints))])
  }

  /**
   * The listener calls of `addScoreForRing`: every `ring_passed` listener,
   * then every `score_changed` listener, each in registration order.
   */
  lemma AddScoreForRingCalls<L>(s: GameState<L>, ringIndex: int)
    ensures var step := AddScoreForRing(s, ringIndex);
      var calls := Deliver(step.state.eventListeners, step.emitted);
      var nPassed := |Listeners(s.eventListeners, RingPassed)|;
      && |calls| == nPassed + |Listeners(s.eventListeners, ScoreChanged)|
      && (forall k :: 0 <= k < nPassed ==>
            calls[k] == Invocation(Listeners(s.eventListeners, RingPassed)[k],
                                   RingPassed, RingPassedData(ringIndex, 10)))
      && (forall k :: nPassed <= k < |calls| ==>
            calls[k] == Invocation(Listeners(s.eventListeners, ScoreChanged)[k - nPassed],
                                   ScoreChanged, ScoreChangedData(s.score + 10, 10)))
  {
    var step := AddScoreForRing(s, ringIndex);
    DeliverPair(s.eventListeners, step.emitted[0], step.emitted[1]);
  }

  function StartGame<L>(s: GameState<L>): (step: StoreStep<L>)
    ensures step.state.isGameRunning
    ensures step.state == s.(isGameRunning := true)
    ensures step.emitted == [Emission(GameStarted, NoData)]
  {
    StoreStep(s.(isGameRunning := true), [Emission(GameStarted, NoData)])
  }

  function PauseGame<L>(s: GameState<L>): (step: StoreStep<L>)
    ensures !step.state.isGameRunning
    ensures step.state == s.(isGameRunning := false)
    ensures step.emitted == [Emission(GameEnded, NoData)]
  {
    StoreStep(s.(isGameRunning := false), [Emission(GameEnded, NoData)])
  }

  /** Installs a fresh layout generated from the time `now`; nothing else changes. */
  function RegenerateRingLayout<L>(s: GameState<L>, sine: Sine, now: real): (r: GameState<L>)
    ensures r.currentRingLayout == GenerateRingPositions(sine, now)
    ensures |r.currentRingLayout| == TotalRings
    ensures r == s.(currentRingLayout := r.currentRingLayout)
  {
    s.(currentRingLayout := GenerateRingPositions(sine, now))
  }

  /**
   * Starts a new round: every round-scoped field back to its initial value,
   * a new layout generated from the time `now`, the registry kept as it is.
   * Announces the end of the old round, then the reset.
   */
  function ResetGame<L>(s: GameState<L>, sine: Sine, now: real): (step: StoreStep<L>)
    ensures FreshRound(step.state)
    ensures step.state.eventListeners == s.eventListeners
    ensures step.state.currentRingLayout == GenerateRingPositions(sine, now)
    ensures step.emitted == [Emission(GameEnded, NoData), Emission(GameReset, NoData)]
  {
    var newRingLayout := GenerateRingPositions(sine, now);
    var currentListeners := s.eventListeners;
    var r := InitialState(newRingLayout, currentListeners)
      .(controls := Controls(false, false, false, false),
        airplanePosition := Vec3(0.0, DefaultAltitude, 0.0),
        airplaneRotation := Vec3(0.0, 0.0, 0.0),
        worldOffset := Vec3(0.0, 0.0, 0.0));
    StoreStep(r, [Emission(GameEnded, NoData), Emission(GameReset, NoData)])
  }

  /** A listener registered before a reset hears the reset, and every later event. */
  lemma ResetKeepsSubscribers<L>(s: GameState<L>, sine: Sine, now: real, listener: L)
    requires listener in Listeners(s.eventListeners, GameReset)
    ensures var step := ResetGame(s, sine, now);
      && (forall e :: Listeners(step.state.eventListeners, e) == Listeners(s.eventListeners, e))
      && Invocation(listener, GameReset, NoData) in Deliver(step.state.eventListeners, step.emitted)
  {
    var step := ResetGame(s, sine, now);
    DeliverPair(s.eventListeners, step.emitted[0], step.emitted[1]);
    var k :| 0 <= k < |Listeners(s.eventListeners, GameReset)| &&
             Listeners(s.eventListeners, GameReset)[k] == listener;
    var calls := Deliver(step.state.eventListeners, step.emitted);
    assert calls[|Listeners(s.eventListeners, GameEnded)| + k] == Invocation(listener, GameReset, NoData);
  }

  /** Every store action keeps the altitude in range and the speed constant. */
  lemma ActionsKeepSane<L>(s: GameState<L>, sine: Sine, t: real, a: real,
                                              which: Control, v: bool, i: int, p: int)
    requires Sane(s)
    ensures Sane(SetAltitude(s, a))
    ensures Sane(UpdateDistanceTraveled(s, t)) && Sane(SetControl(s, which, v))
    ensures Sane(IncrementRingsPassed(s)) && Sane(AddScore(s, p))
    ensures Sane(AddScoreForRing(s, i).state)
    ensures Sane(StartGame(s).state) && Sane(PauseGame(s).state)
    ensures Sane(RegenerateRingLayout(s, sine, t)) && Sane(ResetGame(s, sine, t).state)
  {
  }
}
