/** The module-scope constants of boids.js (lines 6-23, 26, 101, 317-321). */
module Config {
  import opened Vectors

  // Arena.
  const CanvasWidth: real := 1700.0
  const CanvasHeight: real := 925.0
  const Margin: real := 40.0
  const LeftMargin: real := Margin
  const RightMargin: real := CanvasWidth - Margin
  const TopMargin: real := Margin
  const BottomMargin: real := CanvasHeight - Margin

  // Behaviour.
  const TurnFactor: real := 3.0
  const MaxSpeed: real := 250.0
  const MinSpeed: real := 125.0
  const VisionRadius: real := 35.0
  const ProtectedRadius: real := 9.0
  const CenterFactor: real := 0.0005
  const AvoidFactor: real := 0.25
  const MatchFactor: real := 0.05
  const Randomness: real := 5.0

  /** The time step before the first measured frame, and after `reset`. */
  const InitialDt: real := 1.0 / 60.0

  /** `biasVal`, the weight every new boid gets for its goal. */
  const DefaultBias: real := 0.4

  // Population and the two scouts' goals.
  const NumBoids: nat := 500
  const NumScout1s: nat := 100
  const NumScout2s: nat := 100
  const FoodPos1: Vector := Vector(CanvasWidth / 3.0, CanvasHeight / 2.0)
  const FoodPos2: Vector := Vector(2.0 * CanvasWidth / 3.0, CanvasHeight / 2.0)
}
