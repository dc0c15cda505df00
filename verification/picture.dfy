/** The picture size a video stream's codec parameters report. */
module Picture {

  import opened CInt

  datatype Dimensions = Dimensions(width: int, height: int)

  /** Dimensions a decoder reports: non-negative C `int`s. */
  predicate IsValid(d: Dimensions) {
    0 <= d.width <= INT32_MAX && 0 <= d.height <= INT32_MAX
  }
}
