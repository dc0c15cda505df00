/** The RGBA frame buffer: `init_frame_context` allocates `width * height * 4`
    bytes, and `get_one_video_frame` hands the scaler that buffer with a row
    stride of `width * 4` bytes. */
module FrameBuffer {

  import opened Optional
  import opened CInt
  import opened Picture

  /** Bytes per pixel of the RGB0 destination layout. */
  const BytesPerPixel: int := 4

  /** The destination stride `dest_linesize[0]`, in bytes. */
  function RowStride(d: Dimensions): int {
    d.width * BytesPerPixel
  }

  /** `alloc_size`: the byte count handed to `calloc`, when the C `int`
      product does not overflow; `None` when it would (undefined in C). */
  function AllocSize(d: Dimensions): (n: Option<int>)
    requires IsValid(d)
    ensures n.Some? ==> IsInt32(n.value) && 0 <= n.value && n.value == d.height * RowStride(d)
    ensures n.None? ==> !IsInt32(d.width * d.height * BytesPerPixel)
  {
    var size := d.width * d.height * BytesPerPixel;
    if size <= INT32_MAX then Some(size) else None
  }

  /** Byte offset of channel `ch` of pixel (`x`, `y`) when the scaler writes
      rows `RowStride(d)` bytes apart. Every such byte lies in the buffer. */
  function PixelOffset(d: Dimensions, x: int, y: int, ch: int): (k: int)
    requires IsValid(d) && AllocSize(d).Some?
    requires 0 <= x < d.width && 0 <= y < d.height && 0 <= ch < BytesPerPixel
    ensures 0 <= k < AllocSize(d).value
  {
    RowInBuffer(d, y);
    y * RowStride(d) + x * BytesPerPixel + ch
  }

  /** Row `y` starts inside the buffer and ends no later than its end. */
  lemma RowInBuffer(d: Dimensions, y: int)
    requires IsValid(d) && AllocSize(d).Some?
    requires 0 <= y < d.height
    ensures 0 <= y * RowStride(d)
    ensures y * RowStride(d) + RowStride(d) <= AllocSize(d).value
  {
    assert y * RowStride(d) + RowStride(d) == (y + 1) * RowStride(d);
    assert (y + 1) * RowStride(d) <= d.height * RowStride(d);
  }

  /** Distinct pixels and channels occupy distinct bytes, so the stride and
      the allocation agree: the buffer holds exactly `height` rows of
      `width` four-byte pixels with nothing shared. */
  lemma {:induction false} PixelOffsetInjective(d: Dimensions, x: int, y: int, ch: int, x': int, y': int, ch': int)
    requires IsValid(d) && AllocSize(d).Some?
    requires 0 <= x < d.width && 0 <= y < d.height && 0 <= ch < BytesPerPixel
    requires 0 <= x' < d.width && 0 <= y' < d.height && 0 <= ch' < BytesPerPixel
    ensures PixelOffset(d, x, y, ch) == PixelOffset(d, x', y', ch') ==> x == x' && y == y' && ch == ch'
  {
    if PixelOffset(d, x, y, ch) == PixelOffset(d, x', y', ch') {
      var inRow := x * BytesPerPixel + ch;
      var inRow' := x' * BytesPerPixel + ch';
      assert 0 <= inRow < RowStride(d) && 0 <= inRow' < RowStride(d);
      QuotientUnique(PixelOffset(d, x, y, ch), RowStride(d), y, inRow);
      QuotientUnique(PixelOffset(d, x', y', ch'), RowStride(d), y', inRow');
      QuotientUnique(inRow, BytesPerPixel, x, ch);
      QuotientUnique(inRow', BytesPerPixel, x', ch');
    }
  }
}
