/** Positions are opaque; the Euclidean distance between two positions is a
    parameter of the model, constrained only to be non-negative. */
module Geometry {

  /** `dist` behaves like a distance in the one respect the model relies on. */
  ghost predicate IsDistance<P(!new)>(dist: (P, P) -> real)
  {
    forall a, b :: dist(a, b) >= 0.0
  }

}
