# Video player frame context — a Dafny model

This project models the small pieces of the video player's `src/video.c`
that make their own decisions, rather than passing work on to the FFmpeg
decoding library or the graphics layer:

- **Pixel-format correction** (`correct_for_deprecated_pixel_format`). The
  four deprecated full-range "J" planar YUV formats become the plain YUV
  format with the same chroma layout. Every other format passes through
  unchanged (module `PixelFormats`).
- **Duration banner** (`init_frame_context`, lines 36-46). The container
  duration is in microseconds (`AV_TIME_BASE` = 1 000 000). It is offset by
  5000 µs, but only when the `int64_t` sum cannot overflow. It is then split
  with C's truncating `/` and `%` into hours, minutes, seconds and
  microseconds. The sub-second field printed is `(100 * us) / AV_TIME_BASE`.
  That field is hundredths of a second, although the format string labels
  it "ms" (module `Duration`). C's division is modelled exactly (module
  `CInt`), so the model also covers negative durations, for example the
  library's "unknown duration" value. It does not require `duration >= 0`.
- **Stream classification** (`init_frame_context`, lines 50-78). The first
  video stream and the first audio stream are chosen, each -1 when absent.
  The picture size comes from the chosen video stream (module `Streams`).
  The loop counter is a `uint8_t`, and this is modelled separately; see
  Findings.
- **Frame buffer and stride** (lines 80-81 and 127-128). The buffer holds
  `width * height * 4` bytes. The scaler writes rows `width * 4` bytes apart.
  The model proves that every pixel byte lies inside the buffer and that no
  two pixels share a byte (module `FrameBuffer`).
- **One frame fetch** (`get_one_video_frame`). Reads are skipped until a
  successful read of a video-stream packet arrives. The send/receive results
  are then propagated, and the scaler is configured with the corrected
  format at the stream's size (module `VideoFrame`).

Everything the decoding library supplies is a parameter. That covers the
container's duration, the per-stream media type and size, the sequence of
`av_read_frame` results (return value and packet stream index), the results
of `avcodec_send_packet` and `avcodec_receive_frame`, and the codec's pixel
format. When none of the given reads is accepted, the model reports
`ReadsForever`. The C loop has no other exit. In particular, at end of file
`av_read_frame` keeps failing, and `get_one_video_frame` never returns (see Findings).

When the container has no video stream, the C code leaves `width` and
`height` uninitialised. The model records them as `None`, and records the
allocation size as `None` as well. The allocation size is also `None` when
`width * height * 4` would overflow a C `int`.

## Model

| member | source | states |
|---|---|---|
| PixelFormats.CorrectForDeprecated | src/video.c:4-14 | the result is never a deprecated full-range format; a full-range format becomes a plain YUV format with the same chroma layout; any other format is returned unchanged |
| PixelFormats.CorrectionIsDetermined | src/video.c:8-11 | the replacement of a full-range format is the one plain YUV format of its chroma layout, so YUVJ420P/422P/444P/440P map to YUV420P/422P/444P/440P |
| PixelFormats.CorrectionIdempotent | src/video.c:7-13 | correcting twice equals correcting once |
| PixelFormats.CorrectionFixedPoints | src/video.c:7-13 | a format is left unchanged exactly when it is not one of the four full-range formats |
| CInt.Div | src/video.c:39-44 | C's `int64_t` division by a positive divisor truncates toward zero: the quotient brackets the dividend from below for non-negative and from above for negative dividends |
| CInt.Rem | src/video.c:39-44 | C's remainder rebuilds the dividend with the quotient and has the dividend's sign, with magnitude below the divisor |
| CInt.DivAgreesOnNonNegative | src/video.c:39-44 | C's and Dafny's division agree on non-negative dividends and differ on negative ones (-7 / 2) |
| CInt.QuotientUnique | src/video.c:39-44 | a quotient and remainder are fixed by the division identity and a remainder in `0..b-1` |
| Duration.Rounded | src/video.c:38 | the 5000 µs offset is added exactly when the `int64_t` sum is representable, and the result never leaves the `int64_t` range |
| Duration.Decompose | src/video.c:39-44 | hours, minutes, seconds and microseconds rebuild the duration; for a non-negative duration minutes and seconds are in 0..59 and microseconds in 0..999999; for a negative one every field is non-positive with the mirrored bounds |
| Duration.DecomposeUnique | src/video.c:39-44 | a non-negative duration has exactly one clock with fields in range, and it is the one computed |
| Duration.Hundredths | src/video.c:46 | the printed field is the whole number of hundredths of a second in the microseconds, 0..99 for a non-negative value (and -99..0 for a negative one) |
| Duration.BannerRoundsToNearestHundredth | src/video.c:36-46 | for a non-negative duration without offset overflow, the banner fields are in range and the banner is the duration rounded to the nearest hundredth of a second |
| Duration.BannerOf | src/video.c:38-46 | the printed banner is the offset duration truncated toward zero to whole hundredths of a second, with minutes and seconds in 0..59 and hundredths in 0..99 when it is non-negative, and every field non-positive in the mirrored ranges when it is negative |
| Duration.NegativeBanner | src/video.c:38-46 | every negative duration prints non-positive fields in the mirrored ranges, not a wrapped positive time (all zero between -5000 and -1 µs) |
| Duration.UnknownDurationBanner | src/video.c:38-46 | the least `int64_t` (the library's unknown duration) prints as -2562047788 h, 0 m, -54 s and -77 hundredths |
| FrameBuffer.AllocSize | src/video.c:80-81 | the allocated size equals `height` rows of the `width * 4` destination stride whenever the C `int` product does not overflow |
| FrameBuffer.RowInBuffer | src/video.c:128 | every row `y < height` written at stride `width * 4` begins and ends inside the allocation |
| FrameBuffer.PixelOffset | src/video.c:127-128 | every byte of every pixel the scaler writes lies inside the allocated buffer |
| FrameBuffer.PixelOffsetInjective | src/video.c:127-128 | distinct pixels and channels map to distinct bytes of the buffer |
| Streams.FirstOfKind | src/video.c:57-70 | reference search: -1 exactly when no stream has the kind, otherwise an index of that kind with no earlier one |
| Streams.Visit | src/video.c:57-77 | the loop body keeps the counter, never forgets a stream already chosen, and carries "the state summarises the first `i` streams" over to the first `i + 1` |
| Streams.Scan | src/video.c:51-78 | the corrected loop (counter that cannot wrap) ends in a state where the loop condition is false, keeping every stream already chosen |
| Streams.ScanFindsFirst | src/video.c:51-78 | the loop run from any state summarising a prefix ends with the first video and the first audio stream of the whole list and the size of the chosen video stream |
| Streams.Classify | src/video.c:50-78 | the chosen video and audio indices are the first of their kind (-1 if none), never equal when both are set, and the size is the chosen video stream's (unset without video) |
| Streams.ScanU8 | src/video.c:51 | the loop as written, with the `uint8_t` counter wrapping 255 to 0: the counter stays in 0..255, chosen streams are never forgotten, and only indices below 256 are ever chosen |
| Streams.ScanU8AgreesBelow256 | src/video.c:51 | with at most 255 streams the `uint8_t` counter never wraps and the loop as written gives the same result as the corrected one |
| Streams.ScanU8Cycles | src/video.c:51 | when none of the first 256 streams is video or audio, the `uint8_t` counter cycles through 0..255 and the loop condition stays true after any number of iterations |
| Streams.ScanU8FindsBothBelow256 | src/video.c:51-78 | when a video and an audio stream both occur below index 256, the loop as written ends with the same video index, audio index and size as the corrected loop |
| Streams.ScanU8MissesAudio | src/video.c:51 | with at least 256 streams and no audio stream among the first 256, the `uint8_t` loop never finds audio and its condition stays true after any number of iterations, whatever video it found |
| Streams.ScanU8MissesVideo | src/video.c:51 | with at least 256 streams and no video stream among the first 256, the `uint8_t` loop never finds video, keeps the size unset, and its condition stays true after any number of iterations |
| Streams.VideoWithoutAudio300Streams | src/video.c:51-70 | with 300 streams, video first and no audio, the corrected classification reports video 0 and no audio, while the loop as written never exits |
| Streams.VideoAfter256Streams | src/video.c:51-61 | with 256 data streams followed by a video stream, the corrected classification picks index 256 and its size, while the loop as written never exits and never finds it |
| VideoFrame.InitFrameContext | src/video.c:27-91 | the context records the first video and audio streams, a size exactly when there is a video stream, an allocation equal to `height` rows of stride, and the banner `BannerOf` prints, which for durations in 0..INT64_MAX-5000 is the duration rounded to the nearest hundredth |
| VideoFrame.FindVideoPacket | src/video.c:96-99 | the loop stops at the first read that succeeded and carries a packet of the video stream, and keeps reading exactly when no read does |
| VideoFrame.ScalerFor | src/video.c:121-128 | the scaler's source format is never deprecated and keeps the chroma layout, the destination is RGB0 at the same size, and stride times height equals the allocation |
| VideoFrame.Decoded | src/video.c:101-132 | once a packet is taken, a failed send or receive is returned without scaling; otherwise the receive result is returned and the scaler is the one `ScalerFor` builds; the code is negative exactly when no frame was converted |
| VideoFrame.GetOneVideoFrame | src/video.c:94-133 | the first accepted read is the packet decoded; a failed send or receive is returned and the scaler is not run; the code is negative exactly when no frame was converted; a converted frame uses exactly the scaler `ScalerFor` builds from the context's size and the codec's format: the corrected source format, RGB0 at the same size, and a stride matching the buffer |
| VideoFrame.ReadFailuresNeverReturn | src/video.c:97-99 | when every read fails, as at end of file, `get_one_video_frame` as written keeps reading and never returns |
| VideoFrame.FindVideoPacketOrError | src/video.h:28-31 | the packet loop with read errors returned stops at the first read that either fails or carries a video packet, after skipping only successful reads of other streams, and keeps reading exactly when every read is such a skip |
| VideoFrame.GetOneVideoFrameReportingReadErrors | src/video.h:28-31 | any failed read ends the call: the first failure before a video packet is returned with its code and no frame; otherwise the packet is decoded as in `Decoded`; the code is negative exactly when no frame was converted |

## Left out

- Every FFmpeg, SDL and OpenGL call is left out: opening the input, probing streams, opening codecs, sending and receiving packets, `sws_getContext`/`sws_scale` and the frees in `cleanup_frame_context`. These calls are opaque foreign behaviour. Their results are parameters of the model.
- The actual pixel conversion (bilinear scaling) is floating point inside the scaling library.
- `printf`/`fprintf` output is left out. The model computes the numbers the banner prints, not their text or `%02lld` padding.
- `src/hard_way1.c` (window, events, textures, render loop), `src/tutorial1.c` (an unfinished packet-parser tutorial), `src/video.h` (declarations only) and `build.py` (compiler invocation) are not part of this model.
- `PixelFormats.PixelFormat.Other(code)` stands for every format the player does not name. Its codes are assumed to differ from the named formats.
- FrameBuffer.AllocSize: when `width * height * 4` overflows a C `int`, the C behaviour is undefined. The model reports `None` rather than a wrapped value.
- VideoFrame.InitFrameContext: requires every stream to report a non-negative `int` width and height, as the library's codec parameters do.
- VideoFrame.GetOneVideoFrame: requires every successful read to name a stream index `>= 0`, as `av_read_frame` does. The model does not follow C into the uninitialised `width`/`height` when there is no video stream.
- VideoFrame.InitFrameContext: models the corrected stream loop (`Streams.Classify`, a counter that cannot wrap). On more than 255 streams it returns where the C function may never return; the loop as written is `Streams.ScanU8` (see Findings).
- FrameBuffer.PixelOffset: assumes the decoded frame has the codec parameters' width and height. `video_frame->height` and `video_frame->linesize`, which the scaler receives as the source slice, are not modelled.
- An endless read loop is represented by a finite list of reads and the outcome `ReadsForever`. No claim is made about reads beyond the list.

## Findings

| source | as written | input that shows it | evidently intended | confidence | as-written member | corrected member |
|---|---|---|---|---|---|---|
| src/video.c:51 | the stream loop counter is `uint8_t i`, so `i++` wraps from 255 to 0 while `i < nb_streams` stays true | 256 data streams followed by one video stream: the counter never reaches index 256, and the loop never exits (also 300 streams with video first and no audio) | a counter as wide as `nb_streams`, so every stream is examined and the loop ends | high (not executed) | Streams.VideoAfter256Streams | Streams.Classify |
| src/video.c:99 | the read loop retries while `res < 0`, so a failed read is never returned | every read failing, as at end of file (`AVERROR_EOF`, which the render loop checks for): the call never returns | return the failed read's code, as the declaration in src/video.h says ("on failure, returns AV error code") | high (not executed) | VideoFrame.ReadFailuresNeverReturn | VideoFrame.GetOneVideoFrameReportingReadErrors |
