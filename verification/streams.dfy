/** Stream classification in `init_frame_context`: walk the container's
    streams in order, remember the first video stream (and its picture size)
    and the first audio stream, and stop once both are known. */
module Streams {

  import opened Optional
  import opened Picture

  /** The decoding library's media types. */
  datatype MediaType = Unknown | Video | Audio | Data | Subtitle | Attachment

  /** What the classification reads of a stream's codec parameters. */
  datatype StreamInfo = StreamInfo(kind: MediaType, width: int, height: int)

  /** The result: stream indices (-1 when absent) and the video size, which
      the C code leaves unset when there is no video stream. */
  datatype Classification = Classification(video: int, audio: int, size: Option<Dimensions>)

  /** Index of the first stream of `kind`, or -1 when there is none. */
  function FirstOfKind(streams: seq<StreamInfo>, kind: MediaType): (k: int)
    ensures -1 <= k < |streams|
    ensures k == -1 <==> forall j :: 0 <= j < |streams| ==> streams[j].kind != kind
    ensures k >= 0 ==> streams[k].kind == kind && forall j :: 0 <= j < k ==> streams[j].kind != kind
  {
    if |streams| == 0 then -1
    else if streams[0].kind == kind then 0
    else
      var k := FirstOfKind(streams[1..], kind);
      assert forall j :: 1 <= j < |streams| ==> streams[j] == streams[1..][j - 1];
      if k == -1 then -1 else k + 1
  }

  /** The picture size of stream `k`, or nothing when `k` is not an index. */
  function SizeOf(streams: seq<StreamInfo>, k: int): Option<Dimensions> {
    if 0 <= k < |streams| then Some(Dimensions(streams[k].width, streams[k].height)) else None
  }

  /** `k` is the first stream of `kind` among the first `n`, or -1 if none. */
  predicate FirstIn(streams: seq<StreamInfo>, n: int, kind: MediaType, k: int)
    requires 0 <= n <= |streams|
  {
    if k == -1 then forall j :: 0 <= j < n ==> streams[j].kind != kind
    else 0 <= k < n && streams[k].kind == kind && forall j :: 0 <= j < k ==> streams[j].kind != kind
  }

  /** The loop's variables: the counter and what has been found so far. */
  datatype ScanState = ScanState(i: int, video: int, audio: int, size: Option<Dimensions>)

  const Start: ScanState := ScanState(0, -1, -1, None)

  /** The loop condition of line 51. */
  predicate Continues(streams: seq<StreamInfo>, s: ScanState) {
    s.i < |streams| && (s.video == -1 || s.audio == -1)
  }

  /** The loop body: stream `i` becomes the video stream if none is known yet,
      else the audio stream if none is known yet. The counter is untouched. */
  function Visit(streams: seq<StreamInfo>, s: ScanState): (r: ScanState)
    requires 0 <= s.i < |streams|
    ensures r.i == s.i
    ensures s.video != -1 ==> r.video == s.video && r.size == s.size
    ensures s.audio != -1 ==> r.audio == s.audio
    ensures ScannedPrefix(streams, s) ==> ScannedPrefix(streams, r.(i := s.i + 1))
  {
    var st := streams[s.i];
    if s.video == -1 && st.kind == Video then
      s.(video := s.i, size := Some(Dimensions(st.width, st.height)))
    else if s.audio == -1 && st.kind == Audio then
      s.(audio := s.i)
    else s
  }

  /** The loop with a counter that cannot wrap. */
  function Scan(streams: seq<StreamInfo>, s: ScanState): (r: ScanState)
    requires 0 <= s.i <= |streams|
    ensures s.i <= r.i <= |streams| && !Continues(streams, r)
    ensures s.video != -1 ==> r.video == s.video && r.size == s.size
    ensures s.audio != -1 ==> r.audio == s.audio
    decreases |streams| - s.i
  {
    if Continues(streams, s) then Scan(streams, Visit(streams, s).(i := s.i + 1)) else s
  }

  /** What holds of the loop's variables after the first `s.i` streams. */
  predicate ScannedPrefix(streams: seq<StreamInfo>, s: ScanState) {
    && 0 <= s.i <= |streams|
    && FirstIn(streams, s.i, Video, s.video)
    && FirstIn(streams, s.i, Audio, s.audio)
    && s.size == SizeOf(streams, s.video)
  }

  /** Running the loop from a state that summarises a prefix ends with the
      first video and audio streams of the whole sequence. */
  lemma {:induction false} ScanFindsFirst(streams: seq<StreamInfo>, s: ScanState)
    requires ScannedPrefix(streams, s)
    ensures var r := Scan(streams, s);
      && FirstIn(streams, |streams|, Video, r.video)
      && FirstIn(streams, |streams|, Audio, r.audio)
      && r.size == SizeOf(streams, r.video)
    decreases |streams| - s.i
  {
    if Continues(streams, s) {
      var next := Visit(streams, s).(i := s.i + 1);
      assert ScannedPrefix(streams, next);
      ScanFindsFirst(streams, next);
    }
  }

  /** `FirstIn` over the whole sequence pins down `FirstOfKind`. */
  lemma FirstInWhole(streams: seq<StreamInfo>, kind: MediaType, k: int)
    requires FirstIn(streams, |streams|, kind, k)
    ensures k == FirstOfKind(streams, kind)
  {
  }

  /** The classification loop of lines 51-78. */
  function Classify(streams: seq<StreamInfo>): (c: Classification)
    ensures c.video == FirstOfKind(streams, Video)
    ensures c.audio == FirstOfKind(streams, Audio)
    ensures c.video >= 0 ==> c.size == Some(Dimensions(streams[c.video].width, streams[c.video].height))
    ensures c.video == -1 ==> c.size == None
    ensures c.video >= 0 && c.audio >= 0 ==> c.video != c.audio
  {
    var r := Scan(streams, Start);
    ScanFindsFirst(streams, Start);
    FirstInWhole(streams, Video, r.video);
    FirstInWhole(streams, Audio, r.audio);
    Classification(r.video, r.audio, r.size)
  }

  /* ---- The loop as written: a `uint8_t` counter ---- */

  /** The loop of line 51 as written, run for at most `fuel` iterations: the
      counter `i++` is a `uint8_t` and wraps from 255 to 0. */
  function ScanU8(streams: seq<StreamInfo>, s: ScanState, fuel: nat): (r: ScanState)
    requires 0 <= s.i < 256
    ensures 0 <= r.i < 256
    ensures s.video < 256 ==> r.video < 256
    ensures s.audio < 256 ==> r.audio < 256
    ensures s.video != -1 ==> r.video == s.video
    ensures s.audio != -1 ==> r.audio == s.audio
    decreases fuel
  {
    if fuel == 0 || !Continues(streams, s) then s
    else ScanU8(streams, Visit(streams, s).(i := (s.i + 1) % 256), fuel - 1)
  }

  /** With at most 255 streams the counter never wraps, and the loop as
      written computes what `Scan` does. */
  lemma {:induction false} ScanU8AgreesBelow256(streams: seq<StreamInfo>, s: ScanState, fuel: nat)
    requires |streams| <= 255 && 0 <= s.i <= |streams|
    requires fuel >= |streams| - s.i
    ensures ScanU8(streams, s, fuel) == Scan(streams, s)
    decreases fuel
  {
    if fuel > 0 && Continues(streams, s) {
      assert (s.i + 1) % 256 == s.i + 1;
      ScanU8AgreesBelow256(streams, Visit(streams, s).(i := s.i + 1), fuel - 1);
    }
  }

  /** When none of the first 256 streams is video or audio, the counter only
      ever reaches 0..255, the loop condition stays true, and nothing is
      ever found: however many iterations run, the loop has not exited.
      (More generally `ScanU8` only ever picks indices below 256.) */
  lemma {:induction false} ScanU8Cycles(streams: seq<StreamInfo>, k: int, fuel: nat)
    requires |streams| >= 256 && 0 <= k < 256
    requires forall j :: 0 <= j < 256 ==> streams[j].kind != Video && streams[j].kind != Audio
    ensures ScanU8(streams, ScanState(k, -1, -1, None), fuel) == ScanState((k + fuel) % 256, -1, -1, None)
    ensures Continues(streams, ScanU8(streams, ScanState(k, -1, -1, None), fuel))
    decreases fuel
  {
    if fuel > 0 {
      var s := ScanState(k, -1, -1, None);
      assert Continues(streams, s);
      assert Visit(streams, s) == s;
      ScanU8Cycles(streams, (k + 1) % 256, fuel - 1);
      assert ((k + 1) % 256 + (fuel - 1)) % 256 == (k + fuel) % 256;
    }
  }

  /** When a video and an audio stream both occur below index 256, the loop
      as written has found both before the counter could wrap, so it ends
      with the same streams and size as `Scan` (only the final counter
      differs: 0 instead of 256 when the last of them is stream 255). */
  lemma {:induction false} ScanU8FindsBothBelow256(streams: seq<StreamInfo>, s: ScanState, fuel: nat, v: int, a: int)
    requires 0 <= s.i < 256 && ScannedPrefix(streams, s)
    requires 0 <= v < 256 && v < |streams| && streams[v].kind == Video
    requires 0 <= a < 256 && a < |streams| && streams[a].kind == Audio
    requires fuel >= 256 - s.i
    ensures var r, q := ScanU8(streams, s, fuel), Scan(streams, s);
      r.video == q.video && r.audio == q.audio && r.size == q.size
    decreases fuel
  {
    if Continues(streams, s) {
      var next := Visit(streams, s);
      assert ScannedPrefix(streams, next.(i := s.i + 1));
      if s.i + 1 < 256 {
        assert (s.i + 1) % 256 == s.i + 1;
        ScanU8FindsBothBelow256(streams, next.(i := s.i + 1), fuel - 1, v, a);
      } else {
        assert next.video != -1 && next.audio != -1;
        assert !Continues(streams, next.(i := 0));
        assert !Continues(streams, next.(i := 256));
      }
    }
  }

  /** With at least 256 streams and no audio stream among the first 256,
      a loop that has not found audio yet never finds it and never exits,
      whatever it has found as video: the counter keeps cycling through
      0..255 below `nb_streams`. */
  lemma {:induction false} ScanU8MissesAudio(streams: seq<StreamInfo>, s: ScanState, fuel: nat)
    requires |streams| >= 256 && 0 <= s.i < 256 && s.audio == -1
    requires forall j :: 0 <= j < 256 ==> streams[j].kind != Audio
    ensures ScanU8(streams, s, fuel).audio == -1
    ensures Continues(streams, ScanU8(streams, s, fuel))
    decreases fuel
  {
    if fuel > 0 {
      ScanU8MissesAudio(streams, Visit(streams, s).(i := (s.i + 1) % 256), fuel - 1);
    }
  }

  /** The same for video: with at least 256 streams and no video stream among
      the first 256, the loop as written never finds video and never exits. */
  lemma {:induction false} ScanU8MissesVideo(streams: seq<StreamInfo>, s: ScanState, fuel: nat)
    requires |streams| >= 256 && 0 <= s.i < 256 && s.video == -1
    requires forall j :: 0 <= j < 256 ==> streams[j].kind != Video
    ensures ScanU8(streams, s, fuel).video == -1
    ensures ScanU8(streams, s, fuel).size == s.size
    ensures Continues(streams, ScanU8(streams, s, fuel))
    decreases fuel
  {
    if fuel > 0 {
      ScanU8MissesVideo(streams, Visit(streams, s).(i := (s.i + 1) % 256), fuel - 1);
    }
  }

  /** 256 data streams followed by one video stream: `Classify` finds the
      video stream at index 256, while the loop as written never exits. */
  lemma VideoAfter256Streams(fuel: nat)
    ensures var streams := seq(256, _ => StreamInfo(Data, 0, 0)) + [StreamInfo(Video, 640, 480)];
      && Classify(streams).video == 256
      && Classify(streams).size == Some(Dimensions(640, 480))
      && Continues(streams, ScanU8(streams, Start, fuel))
      && ScanU8(streams, Start, fuel).video == -1
  {
    var streams := seq(256, _ => StreamInfo(Data, 0, 0)) + [StreamInfo(Video, 640, 480)];
    assert streams[256].kind == Video;
    assert forall j :: 0 <= j < 256 ==> streams[j].kind == Data;
    ScanU8Cycles(streams, 0, fuel);
  }

  /** 300 streams, video first and no audio: `Classify` reports video 0 and
      no audio, while the loop as written, having found the video stream,
      still never exits. */
  lemma VideoWithoutAudio300Streams(fuel: nat)
    ensures var streams := [StreamInfo(Video, 640, 480)] + seq(299, _ => StreamInfo(Data, 0, 0));
      && Classify(streams).video == 0
      && Classify(streams).audio == -1
      && Continues(streams, ScanU8(streams, Start, fuel))
      && ScanU8(streams, Start, fuel).audio == -1
  {
    var streams := [StreamInfo(Video, 640, 480)] + seq(299, _ => StreamInfo(Data, 0, 0));
    assert forall j :: 0 <= j < |streams| ==> streams[j].kind != Audio;
    ScanU8MissesAudio(streams, Start, fuel);
  }
}
