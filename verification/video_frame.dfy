/** The frame context of `video.c`: what `init_frame_context` computes from
    the container (the duration banner, the chosen streams, the frame buffer
    size), and one call of `get_one_video_frame` (skip packets until one of
    the video stream arrives, decode it, configure the scaler). The decoding
    library's answers (the container's duration and streams, each packet
    read, the results of sending and receiving) are parameters. */
module VideoFrame {

  import opened Optional
  import opened CInt
  import opened PixelFormats
  import opened Duration
  import opened Picture
  import opened FrameBuffer
  import opened Streams

  /** The parts of `FrameContext` that this code computes. `size` and
      `allocSize` are unset when the container has no video stream. */
  datatype FrameContext = FrameContext(
    banner: Banner,
    video: int,
    audio: int,
    size: Option<Dimensions>,
    allocSize: Option<int>)

  /** A stream's reported picture size is a pair of non-negative C `int`s. */
  predicate ReportsValidSize(st: StreamInfo) {
    IsValid(Dimensions(st.width, st.height))
  }

  /** The frame size is known exactly when a video stream was chosen, and the
      buffer size is the one `AllocSize` gives for it. */
  predicate Consistent(ctx: FrameContext) {
    && (ctx.video >= 0 <==> ctx.size.Some?)
    && (ctx.size.Some? ==> IsValid(ctx.size.value) && ctx.allocSize == AllocSize(ctx.size.value))
    && (ctx.size.None? ==> ctx.allocSize.None?)
  }

  /** `init_frame_context` given the container's duration and streams. */
  function InitFrameContext(duration: int, streams: seq<StreamInfo>): (ctx: FrameContext)
    requires IsInt64(duration)
    requires forall j :: 0 <= j < |streams| ==> ReportsValidSize(streams[j])
    ensures Consistent(ctx)
    ensures ctx.video == FirstOfKind(streams, Video)
    ensures ctx.audio == FirstOfKind(streams, Audio)
    ensures ctx.video >= 0 ==> ctx.size == Some(Dimensions(streams[ctx.video].width, streams[ctx.video].height))
    ensures ctx.allocSize.Some? ==> ctx.allocSize.value == ctx.size.value.height * RowStride(ctx.size.value)
    ensures ctx.banner == BannerOf(duration)
    ensures 0 <= duration <= INT64_MAX - RoundingOffset ==>
      && BannerHundredths(ctx.banner) * UsPerHundredth - RoundingOffset <= duration
      && duration < BannerHundredths(ctx.banner) * UsPerHundredth + RoundingOffset
  {
    var c := Classify(streams);
    assert c.size.Some? ==> ReportsValidSize(streams[c.video]);
    var alloc := if c.size.Some? then AllocSize(c.size.value) else None;
    assert 0 <= duration <= INT64_MAX - RoundingOffset ==>
      BannerHundredths(BannerOf(duration)) * UsPerHundredth - RoundingOffset <= duration
      < BannerHundredths(BannerOf(duration)) * UsPerHundredth + RoundingOffset
    by {
      if 0 <= duration <= INT64_MAX - RoundingOffset {
        BannerRoundsToNearestHundredth(duration);
      }
    }
    FrameContext(BannerOf(duration), c.video, c.audio, c.size, alloc)
  }

  /** One `av_read_frame` as the loop sees it: its return value and the
      stream index of the packet it filled. */
  datatype ReadResult = ReadResult(res: int, streamIndex: int)

  /** The read ends the loop of lines 97-99: it succeeded and its packet
      belongs to the video stream. */
  predicate Accepts(r: ReadResult, video: int) {
    r.res >= 0 && r.streamIndex == video
  }

  /** The packet-skipping loop over the reads the library returns, in order:
      the index of the first accepted read, or `None` when none of these
      reads is accepted and the loop is still reading. */
  method FindVideoPacket(attempts: seq<ReadResult>, video: int) returns (found: Option<nat>)
    ensures found.Some? ==> found.value < |attempts| && Accepts(attempts[found.value], video)
    ensures found.Some? ==> forall j :: 0 <= j < found.value ==> !Accepts(attempts[j], video)
    ensures found.None? <==> forall j :: 0 <= j < |attempts| ==> !Accepts(attempts[j], video)
  {
    var i := 0;
    while i < |attempts| && !Accepts(attempts[i], video)
      invariant 0 <= i <= |attempts|
      invariant forall j :: 0 <= j < i ==> !Accepts(attempts[j], video)
    {
      i := i + 1;
    }
    found := if i < |attempts| then Some(i) else None;
  }

  /** The scaler configuration of lines 121-128. */
  datatype ScalerSetup = ScalerSetup(
    srcWidth: int, srcHeight: int, srcFormat: PixelFormat,
    dstWidth: int, dstHeight: int, dstFormat: PixelFormat,
    dstStride: int)

  /** The scaler converts the decoder's format, with deprecated full-range
      tags replaced, to RGB0 at the same size, writing rows one stride
      apart into the frame buffer. */
  function ScalerFor(size: Dimensions, codecFormat: PixelFormat): (s: ScalerSetup)
    requires IsValid(size)
    ensures !IsFullRange(s.srcFormat)
    ensures !IsFullRange(codecFormat) ==> s.srcFormat == codecFormat
    ensures IsFullRange(codecFormat) ==> IsPlainYuv(s.srcFormat) && ChromaOf(s.srcFormat) == ChromaOf(codecFormat)
    ensures s.dstFormat == RGB0
    ensures s.srcWidth == s.dstWidth == size.width && s.srcHeight == s.dstHeight == size.height
    ensures AllocSize(size).Some? ==> s.dstStride * s.dstHeight == AllocSize(size).value
  {
    ScalerSetup(
      size.width, size.height, CorrectForDeprecated(codecFormat),
      size.width, size.height, RGB0,
      RowStride(size))
  }

  /** What a call of `get_one_video_frame` comes to: it keeps reading
      forever, or it returns a code after taking packet `packet`, having
      run the scaler with `scaler` when decoding succeeded. */
  datatype FrameOutcome =
    | ReadsForever
    | Returned(code: int, packet: nat, scaler: Option<ScalerSetup>)

  /** Lines 101-132, once a video packet is in hand: a failed
      `avcodec_send_packet` or `avcodec_receive_frame` is returned without
      running the scaler; otherwise the receive result is returned and the
      scaler built by `ScalerFor` fills the frame buffer. */
  function Decoded(ctx: FrameContext, k: nat, sendRes: int, recvRes: int, codecFormat: PixelFormat): (out: FrameOutcome)
    requires Consistent(ctx) && ctx.size.Some?
    ensures out.Returned? && out.packet == k
    ensures out.code < 0 <==> out.scaler.None?
    ensures sendRes < 0 ==> out.code == sendRes
    ensures sendRes >= 0 ==> out.code == recvRes
    ensures out.scaler.Some? ==> out.scaler.value == ScalerFor(ctx.size.value, codecFormat)
  {
    if sendRes < 0 then Returned(sendRes, k, None)
    else if recvRes < 0 then Returned(recvRes, k, None)
    else Returned(recvRes, k, Some(ScalerFor(ctx.size.value, codecFormat)))
  }

  /** `get_one_video_frame`, given the reads and the results of
      `avcodec_send_packet` and `avcodec_receive_frame`. A successful read
      always names a stream, so a context without a video stream never gets
      past the loop. */
  method GetOneVideoFrame(ctx: FrameContext, attempts: seq<ReadResult>, sendRes: int, recvRes: int, codecFormat: PixelFormat)
    returns (out: FrameOutcome)
    requires Consistent(ctx)
    requires forall j :: 0 <= j < |attempts| && attempts[j].res >= 0 ==> attempts[j].streamIndex >= 0
    ensures out.ReadsForever? <==> forall j :: 0 <= j < |attempts| ==> !Accepts(attempts[j], ctx.video)
    ensures out.Returned? ==> out.packet < |attempts| && Accepts(attempts[out.packet], ctx.video)
    ensures out.Returned? ==> forall j :: 0 <= j < out.packet ==> !Accepts(attempts[j], ctx.video)
    ensures out.Returned? ==> (out.code < 0 <==> out.scaler.None?)
    ensures out.Returned? && sendRes < 0 ==> out.code == sendRes
    ensures out.Returned? && sendRes >= 0 ==> out.code == recvRes
    ensures out.Returned? && out.scaler.Some? ==>
      ctx.size.Some? && out.scaler.value == ScalerFor(ctx.size.value, codecFormat)
    ensures out.Returned? && out.scaler.Some? && ctx.allocSize.Some? ==>
      out.scaler.value.dstStride * out.scaler.value.dstHeight == ctx.allocSize.value
  {
    var found := FindVideoPacket(attempts, ctx.video);
    if found.None? {
      return ReadsForever;
    }
    assert ctx.video >= 0;
    out := Decoded(ctx, found.value, sendRes, recvRes, codecFormat);
  }

  /** At end of file every read fails, and the loop of lines 97-99 retries
      each failure: `get_one_video_frame` does not return, although its
      declaration promises an error code on failure. */
  method ReadFailuresNeverReturn(ctx: FrameContext, attempts: seq<ReadResult>, sendRes: int, recvRes: int, codecFormat: PixelFormat)
    returns (out: FrameOutcome)
    requires Consistent(ctx)
    requires forall j :: 0 <= j < |attempts| ==> attempts[j].res < 0
    ensures out == ReadsForever
  {
    out := GetOneVideoFrame(ctx, attempts, sendRes, recvRes, codecFormat);
  }

  /** Where the packet loop stops when read errors end it: at the first
      accepted read, at the first failed read, or not within the reads. */
  datatype ReadStop = Packet(index: nat) | ReadError(index: nat) | StillReading

  /** A read that succeeded but carries a packet of another stream. */
  predicate Skipped(r: ReadResult, video: int) {
    r.res >= 0 && r.streamIndex != video
  }

  /** The packet loop as the declaration describes it: skip packets of other
      streams, but stop at the first failed read. */
  method FindVideoPacketOrError(attempts: seq<ReadResult>, video: int) returns (stop: ReadStop)
    ensures stop.Packet? ==> stop.index < |attempts| && Accepts(attempts[stop.index], video)
    ensures stop.ReadError? ==> stop.index < |attempts| && attempts[stop.index].res < 0
    ensures !stop.StillReading? ==> forall j :: 0 <= j < stop.index ==> Skipped(attempts[j], video)
    ensures stop.StillReading? <==> forall j :: 0 <= j < |attempts| ==> Skipped(attempts[j], video)
  {
    var i := 0;
    while i < |attempts| && Skipped(attempts[i], video)
      invariant 0 <= i <= |attempts|
      invariant forall j :: 0 <= j < i ==> Skipped(attempts[j], video)
    {
      i := i + 1;
    }
    if i == |attempts| {
      stop := StillReading;
    } else if attempts[i].res < 0 {
      stop := ReadError(i);
    } else {
      stop := Packet(i);
    }
  }

  /** `get_one_video_frame` with read errors returned, as its declaration
      promises: a failed read ends the call with that read's code and no
      frame; otherwise it behaves as the code as written. */
  method GetOneVideoFrameReportingReadErrors(ctx: FrameContext, attempts: seq<ReadResult>, sendRes: int, recvRes: int, codecFormat: PixelFormat)
    returns (out: FrameOutcome)
    requires Consistent(ctx)
    requires forall j :: 0 <= j < |attempts| && attempts[j].res >= 0 ==> attempts[j].streamIndex >= 0
    ensures out.ReadsForever? <==> forall j :: 0 <= j < |attempts| ==> Skipped(attempts[j], ctx.video)
    ensures (exists j :: 0 <= j < |attempts| && attempts[j].res < 0) ==> out.Returned?
    ensures out.Returned? ==> out.packet < |attempts| && forall j :: 0 <= j < out.packet ==> Skipped(attempts[j], ctx.video)
    ensures out.Returned? && attempts[out.packet].res < 0 ==> out == Returned(attempts[out.packet].res, out.packet, None)
    ensures out.Returned? && attempts[out.packet].res >= 0 ==>
      Accepts(attempts[out.packet], ctx.video) && ctx.size.Some? &&
      out == Decoded(ctx, out.packet, sendRes, recvRes, codecFormat)
    ensures out.Returned? ==> (out.code < 0 <==> out.scaler.None?)
  {
    var stop := FindVideoPacketOrError(attempts, ctx.video);
    match stop
    case StillReading =>
      out := ReadsForever;
    case ReadError(k) =>
      out := Returned(attempts[k].res, k, None);
    case Packet(k) =>
      assert ctx.video >= 0;
      out := Decoded(ctx, k, sendRes, recvRes, codecFormat);
  }
}
