/**
  What every orbit-thickness data set shares (`OrbitThicknessBaseClass`):
  the placeholder its identifiers start with.
*/
module Dataset {
  /** The value `track_id` and `cs2_orbit_id` keep when a source does not report them. */
  const NOT_AVAILABLE: string := "n/a"
}
