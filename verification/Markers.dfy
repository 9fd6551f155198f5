/**
 Instantiation markers. A law quantified over all elements of a type would be applied by the
 solver without end, so the laws in this project are triggered only by a marker, and a proof
 mentions the marker for exactly the elements it needs the law for.
 */
module Markers {
  predicate On1<T>(a: T) { true }
  predicate On2<T>(a: T, b: T) { true }
  predicate On3<T>(a: T, b: T, c: T) { true }
  predicate On4<T>(a: T, b: T, c: T, d: T) { true }
}
