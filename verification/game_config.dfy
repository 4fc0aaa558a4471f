/**
 * The game's configuration constants and the procedural ring layout
 * generator (client/src/lib/constants/gameConfig.ts).
 *
 * `Math.sin` is not modelled: the generator takes the sine function as a
 * parameter `sine`, about which nothing is assumed. The range of the seeded
 * random number generator is then a consequence of taking the fractional
 * part, not an assumption.
 */
module GameConfig {
  import opened Geometry

  // Ring layout configuration.
  const RingSpacing: real := 50.0
  const MaxHorizontalOffset: real := 15.0
  const MaxVerticalOffset: real := 8.0
  /** The double closest to pi, written as its shortest decimal form. */
  const Pi: real := 3.141592653589793
  const MaxTiltX: real := Pi / 6.0
  const MaxTiltZ: real := Pi / 6.0
  const LayoutRingCount: nat := 7
  const StartZ: real := -50.0
  /** Height added to every ring's vertical offset. */
  const BaseHeight: real := 5.0

  // Ring dimensions.
  const RingRadius: real := 5.0
  const RingThickness: real := 0.5
  const InnerRadiusBuffer: real := 0.3
  const PlaneMaxWidth: real := 3.0

  /**
   * The number of rings of a round. The source takes the length of a layout
   * generated at load time; `GenerateRingPositions` proves every layout has
   * `LayoutRingCount` rings, so the two agree for every load-time seed.
   */
  const TotalRings: nat := LayoutRingCount

  // Seed multipliers, one per generated property.
  const SeedStepX: real := 1.1
  const SeedStepY: real := 2.2
  const SeedStepTiltX: real := 3.3
  const SeedStepTiltZ: real := 4.4

  /** A ring of the layout: its design position and its Euler rotation. */
  datatype RingSpec = RingSpec(position: Vec3, rotation: Vec3)

  /** The sine function the generator hashes its seed with. */
  type Sine = real -> real

  /**
   * The fractional part of `sine(seed) * 10000`. The result lies in [0, 1)
   * (not in [-1, 1] as the source's comment claims) and differs from the
   * scaled sine by a whole number.
   */
  function SeededRandom(sine: Sine, seed: real): (r: real)
    ensures 0.0 <= r < 1.0
    ensures sine(seed) * 10000.0 - r == (sine(seed) * 10000.0 - r).Floor as real
  {
    var x := sine(seed) * 10000.0;
    x - x.Floor as real
  }

  /** The bounds every generated ring respects. */
  predicate WellPlaced(ring: RingSpec, i: nat) {
    && 0.0 <= ring.position.x < MaxHorizontalOffset
    && BaseHeight <= ring.position.y < BaseHeight + MaxVerticalOffset
    && ring.position.z == StartZ - i as real * RingSpacing
    && 0.0 <= ring.rotation.x < MaxTiltX
    && ring.rotation.y == 0.0
    && 0.0 <= ring.rotation.z < MaxTiltZ
  }

  /** The i-th ring of the layout for `seed`: one iteration of the generator loop. */
  function RingAt(sine: Sine, seed: real, i: nat): (ring: RingSpec)
    ensures WellPlaced(ring, i)
  {
    var xOffset := SeededRandom(sine, seed + i as real * SeedStepX) * MaxHorizontalOffset;
    var yOffset := SeededRandom(sine, seed + i as real * SeedStepY) * MaxVerticalOffset + BaseHeight;
    var zPos := StartZ - i as real * RingSpacing;
    var rotX := SeededRandom(sine, seed + i as real * SeedStepTiltX) * MaxTiltX;
    var rotZ := SeededRandom(sine, seed + i as real * SeedStepTiltZ) * MaxTiltZ;
    RingSpec(Vec3(xOffset, yOffset, zPos), Vec3(rotX, 0.0, rotZ))
  }

  /** The first `n` rings, built by appending one ring per iteration. */
  function Layout(sine: Sine, seed: real, n: nat): (rings: seq<RingSpec>)
    ensures |rings| == n
    ensures forall i :: 0 <= i < n ==> rings[i] == RingAt(sine, seed, i)
  {
    if n == 0 then [] else Layout(sine, seed, n - 1) + [RingAt(sine, seed, n - 1)]
  }

  /** The ring layout for `seed`. */
  function GenerateRingPositions(sine: Sine, seed: real): (rings: seq<RingSpec>)
    ensures |rings| == LayoutRingCount
    ensures forall i :: 0 <= i < |rings| ==> WellPlaced(rings[i], i)
  {
    Layout(sine, seed, LayoutRingCount)
  }

  /** Rings are placed strictly further away, each exactly one spacing behind the last. */
  lemma LayoutSpacing(sine: Sine, seed: real)
    ensures var rings := GenerateRingPositions(sine, seed);
      && (forall i :: 0 < i < |rings| ==>
            rings[i - 1].position.z - rings[i].position.z == RingSpacing)
      && (forall i, j :: 0 <= i < j < |rings| ==> rings[j].position.z < rings[i].position.z)
  {
  }

  /** The four values the generator draws for ring `i` agree under two sine functions. */
  predicate SamplesAgree(sine1: Sine, sine2: Sine, seed: real, i: nat) {
    && sine1(seed + i as real * SeedStepX) == sine2(seed + i as real * SeedStepX)
    && sine1(seed + i as real * SeedStepY) == sine2(seed + i as real * SeedStepY)
    && sine1(seed + i as real * SeedStepTiltX) == sine2(seed + i as real * SeedStepTiltX)
    && sine1(seed + i as real * SeedStepTiltZ) == sine2(seed + i as real * SeedStepTiltZ)
  }

  /**
   * The layout is a pure function of the seed: it depends on nothing but
   * the hashed values at the seed's own sample points, so there is no
   * random state shared between calls.
   */
  lemma {:induction false} LayoutDependsOnlyOnSamples(sine1: Sine, sine2: Sine, seed: real, n: nat)
    requires forall i: nat :: i < n ==> SamplesAgree(sine1, sine2, seed, i)
    ensures Layout(sine1, seed, n) == Layout(sine2, seed, n)
  {
    if n > 0 {
      LayoutDependsOnlyOnSamples(sine1, sine2, seed, n - 1);
      RingDependsOnlyOnSamples(sine1, sine2, seed, n - 1);
    }
  }

  lemma RingDependsOnlyOnSamples(sine1: Sine, sine2: Sine, seed: real, i: nat)
    requires SamplesAgree(sine1, sine2, seed, i)
    ensures RingAt(sine1, seed, i) == RingAt(sine2, seed, i)
  {
  }

  /** Derived radii of the collision test and of the success indicator. */
  const InnerRadius: real := RingRadius - RingThickness - InnerRadiusBuffer
  const HitRadius: real := RingRadius + 0.2
  const SuccessAreaRadius: real := InnerRadius - PlaneMaxWidth / 2.0 * 0.5
  /** Depth within which a ring is evaluated. */
  const DepthTolerance: real := RingThickness * 1.5

  lemma RadiiOrdered()
    ensures InnerRadius == 4.2 && HitRadius == 5.2 && SuccessAreaRadius == 3.45
    ensures DepthTolerance == 0.75
    ensures 0.0 < SuccessAreaRadius < InnerRadius < HitRadius
  {
  }
}
