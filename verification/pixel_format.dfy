/** The pixel formats the player names, and the correction that replaces a
    deprecated full-range ("J", JPEG) planar YUV format with the plain YUV
    format of the same chroma layout before the scaler is configured. */
module PixelFormats {

  import opened Optional

  /** The formats the player mentions by name; every other member of the
      decoding library's enumeration is `Other(code)`. */
  datatype PixelFormat =
    | YUV420P | YUV422P | YUV444P | YUV440P
    | YUVJ420P | YUVJ422P | YUVJ444P | YUVJ440P
    | RGB0
    | Other(code: int)

  /** Chroma subsampling of a planar YUV layout. */
  datatype Chroma = Chroma420 | Chroma422 | Chroma444 | Chroma440

  /** The deprecated full-range formats. */
  predicate IsFullRange(f: PixelFormat) {
    f.YUVJ420P? || f.YUVJ422P? || f.YUVJ444P? || f.YUVJ440P?
  }

  /** The plain (limited-range) planar YUV formats. */
  predicate IsPlainYuv(f: PixelFormat) {
    f.YUV420P? || f.YUV422P? || f.YUV444P? || f.YUV440P?
  }

  /** The chroma layout of a planar YUV format, plain or full-range. */
  function ChromaOf(f: PixelFormat): Option<Chroma> {
    match f
    case YUV420P | YUVJ420P => Some(Chroma420)
    case YUV422P | YUVJ422P => Some(Chroma422)
    case YUV444P | YUVJ444P => Some(Chroma444)
    case YUV440P | YUVJ440P => Some(Chroma440)
    case _ => None
  }

  /** `correct_for_deprecated_pixel_format`: a full-range format becomes the
      plain format with the same chroma layout; anything else is kept. */
  function CorrectForDeprecated(f: PixelFormat): (r: PixelFormat)
    ensures !IsFullRange(r)
    ensures IsFullRange(f) ==> IsPlainYuv(r) && ChromaOf(r) == ChromaOf(f)
    ensures !IsFullRange(f) ==> r == f
  {
    match f
    case YUVJ420P => YUV420P
    case YUVJ422P => YUV422P
    case YUVJ444P => YUV444P
    case YUVJ440P => YUV440P
    case _ => f
  }

  /** A plain format is identified by its chroma layout, so the correction of
      a full-range format is the only plain format with its chroma. */
  lemma CorrectionIsDetermined(f: PixelFormat, g: PixelFormat)
    requires IsFullRange(f) && IsPlainYuv(g) && ChromaOf(g) == ChromaOf(f)
    ensures CorrectForDeprecated(f) == g
  {
  }

  /** Correcting twice is correcting once. */
  lemma CorrectionIdempotent(f: PixelFormat)
    ensures CorrectForDeprecated(CorrectForDeprecated(f)) == CorrectForDeprecated(f)
  {
  }

  /** The correction moves a format exactly when it is deprecated. */
  lemma CorrectionFixedPoints(f: PixelFormat)
    ensures CorrectForDeprecated(f) == f <==> !IsFullRange(f)
  {
  }
}
