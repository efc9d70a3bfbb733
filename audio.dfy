/**
 * Class `AudioReactive` of script.js: it owns a lazily created audio
 * context and analyser, optionally a microphone stream, and a frame loop
 * that publishes the smoothed band energy as the `--react` style property.
 * The Web Audio and media-capture objects it uses appear here with only the
 * state the class reads or changes.
 */
module Audio {
  import opened Wrappers
  import opened Energy

  /** An `AudioContext`; only its identity matters to the model. */
  class AudioContext {
    constructor ()
    {
    }
  }

  /** An `AnalyserNode` with the two parameters the class sets. */
  class AnalyserNode {
    var fftSize: nat
    var smoothingTimeConstant: real

    /** `ctx.createAnalyser()`, with the Web Audio defaults. */
    constructor ()
      ensures fftSize == 2048 && smoothingTimeConstant == 0.8
    {
      fftSize := 2048;
      smoothingTimeConstant := 0.8;
    }

    function FrequencyBinCount(): nat
      reads this
    {
      fftSize / 2
    }
  }

  datatype TrackState = Live | Ended

  /** A `MediaStreamTrack`; `stop()` ends it for good. */
  class MediaStreamTrack {
    var readyState: TrackState

    constructor ()
      ensures readyState == Live
    {
      readyState := Live;
    }

    method Stop()
      modifies this
      ensures readyState == Ended
    {
      readyState := Ended;
    }
  }

  /** A `MediaStream`, as returned by `getUserMedia`. */
  class MediaStream {
    const tracks: seq<MediaStreamTrack>

    constructor (tracks: seq<MediaStreamTrack>)
      ensures this.tracks == tracks
    {
      this.tracks := tracks;
    }
  }

  /** The node `ctx.createMediaStreamSource(stream)` returns. */
  class MediaStreamSource {
    const mediaStream: MediaStream
    var output: AnalyserNode?

    constructor (mediaStream: MediaStream)
      ensures this.mediaStream == mediaStream && output == null
    {
      this.mediaStream := mediaStream;
      output := null;
    }

    /** `source.connect(node)`. */
    method Connect(node: AnalyserNode)
      modifies this
      ensures output == node
    {
      output := node;
    }
  }

  /** The inline style of `document.documentElement`, reduced to the
      `--react` custom property; `None` while it was never set. */
  class DocumentStyle {
    var react: Option<real>

    constructor ()
      ensures react == None
    {
      react := None;
    }
  }

  /** Why `getUserMedia` rejects. */
  datatype MediaError = NotAllowedError | NotFoundError | NotReadableError | AbortError | SecurityError

  /** The fields of an `AudioReactive`, plus the length of the buffer that
      `start` allocates for its frame callback. */
  datatype Snapshot = Snapshot(
    ctx: AudioContext?, analyser: AnalyserNode?, source: MediaStreamSource?,
    stream: MediaStream?, enabled: bool, raf: Option<nat>, smooth: real, bufLength: nat)

  /** What the constructor establishes. */
  const Initial := Snapshot(null, null, null, null, false, None, 0.0, 0)

  /** The invariant every method keeps: context and analyser exist together,
      the loop runs only with an analyser and a full-size buffer, a stream is
      held only with a source node and an analyser, a frame is
      pending exactly while the loop runs, and the smoothed value is in [0, 1]. */
  ghost predicate Consistent(s: Snapshot)
  {
    && (s.ctx == null <==> s.analyser == null)
    && (s.enabled ==> s.analyser != null && s.bufLength == BinCount)
    && (s.stream != null ==> s.source != null && s.analyser != null)
    && (s.raf.Some? <==> s.enabled)
    && 0.0 <= s.smooth <= 1.0
  }

  /** `start()` with the frame id `requestAnimationFrame` hands out. It keeps
      the invariant; it does nothing before an analyser exists or while the
      loop runs, and otherwise turns the loop on with a full-size buffer and
      a pending frame, leaving everything else alone. */
  function StartStep(s: Snapshot, handle: nat): (r: Snapshot)
    ensures Consistent(s) ==> Consistent(r)
    ensures s.analyser == null || s.enabled ==> r == s
    ensures r.enabled <==> s.enabled || s.analyser != null
    ensures r.(enabled := s.enabled, raf := s.raf, bufLength := s.bufLength) == s
  {
    if s.analyser == null || s.enabled then s
    else s.(enabled := true, raf := Some(handle), bufLength := BinCount)
  }

  /** One run of the frame callback on a frame of spectrum bytes. It keeps
      the invariant (the new smoothed value blends two values of [0, 1]); a
      callback that finds the loop off changes nothing, and otherwise only
      the smoothed value and the pending frame change, the smoothed value
      moving towards the frame's level. */
  function TickStep(s: Snapshot, frame: seq<byte>, handle: nat): (r: Snapshot)
    ensures Consistent(s) ==> Consistent(r)
    ensures !s.enabled ==> r == s
    ensures r.(smooth := s.smooth, raf := s.raf) == s
    ensures s.enabled && s.smooth <= Level(frame) ==> s.smooth <= r.smooth <= Level(frame)
    ensures s.enabled && Level(frame) <= s.smooth ==> Level(frame) <= r.smooth <= s.smooth
  {
    if !s.enabled then s
    else s.(smooth := Smooth(s.smooth, Level(frame)), raf := Some(handle))
  }

  /** `stop()`: it keeps the invariant; afterwards the loop is off, nothing is
      pending and the stream is let go, while the context, analyser, source
      node and smoothed value stay as they were. */
  function StopStep(s: Snapshot): (r: Snapshot)
    ensures Consistent(s) ==> Consistent(r)
    ensures !r.enabled && r.raf == None && r.stream == null
    ensures r.(enabled := s.enabled, raf := s.raf, stream := s.stream) == s
  {
    s.(enabled := false, raf := None, stream := null)
  }

  /** `start()` changes nothing before an analyser exists or while the loop
      runs, so a second `start()` schedules nothing more. */
  lemma StartGuards(s: Snapshot, h1: nat, h2: nat)
    ensures s.analyser == null || s.enabled ==> StartStep(s, h1) == s
    ensures StartStep(StartStep(s, h1), h2) == StartStep(s, h1)
    ensures StartStep(Initial, h1) == Initial
  {
  }

  /** A frame callback that finds the loop off samples, publishes and
      reschedules nothing, so after `stop()` no stale callback changes state;
      `stop()` twice is `stop()` once. */
  lemma StopSettles(s: Snapshot, frame: seq<byte>, handle: nat)
    ensures !s.enabled ==> TickStep(s, frame, handle) == s
    ensures TickStep(StopStep(s), frame, handle) == StopStep(s)
    ensures StopStep(StopStep(s)) == StopStep(s)
  {
  }

  /** The frame callback run once per frame of `frames`, the `k`-th run
      receiving the frame id `handles[k]` from `requestAnimationFrame`. */
  function RunFrames(s: Snapshot, frames: seq<seq<byte>>, handles: seq<nat>): Snapshot
    requires |handles| == |frames|
    decreases |frames|
  {
    if frames == [] then s
    else RunFrames(TickStep(s, frames[0], handles[0]), frames[1..], handles[1..])
  }

  /** However many frames run, the invariant holds and the published value
      stays in [0, 1]; a loop that is off stays exactly as it was; while it
      runs, the pending frame is the id of the last run. */
  lemma {:induction false} RunFramesKeepsConsistent(s: Snapshot, frames: seq<seq<byte>>, handles: seq<nat>)
    requires Consistent(s)
    requires |handles| == |frames|
    ensures Consistent(RunFrames(s, frames, handles))
    ensures 0.0 <= RunFrames(s, frames, handles).smooth <= 1.0
    ensures !s.enabled ==> RunFrames(s, frames, handles) == s
    ensures s.enabled && frames != [] ==> RunFrames(s, frames, handles).raf == Some(handles[|handles| - 1])
    decreases |frames|
  {
    if frames != [] {
      RunFramesKeepsConsistent(TickStep(s, frames[0], handles[0]), frames[1..], handles[1..]);
      if s.enabled && |frames| > 1 {
        assert handles[1..][|handles[1..]| - 1] == handles[|handles| - 1];
      }
    }
  }

  class AudioReactive {
    var ctx: AudioContext?
    var analyser: AnalyserNode?
    var source: MediaStreamSource?
    var stream: MediaStream?
    var enabled: bool
    var raf: Option<nat>
    var smooth: real
    /** The length of `buf`, the `Uint8Array` the frame callback fills. */
    var bufLength: nat

    function State(): Snapshot
      reads this
    {
      Snapshot(ctx, analyser, source, stream, enabled, raf, smooth, bufLength)
    }

    ghost predicate Valid()
      reads this, analyser, source
    {
      && Consistent(State())
      && (analyser != null ==> analyser.fftSize == 2048 && analyser.smoothingTimeConstant == 0.85)
      && (stream != null ==> source.mediaStream == stream && source.output == analyser)
    }

    /** The tracks of the stream currently held. */
    function HeldTracks(): set<MediaStreamTrack>
      reads this
    {
      if stream == null then {} else set t | t in stream.tracks
    }

    constructor ()
      ensures Valid() && State() == Initial
    {
      ctx := null;
      analyser := null;
      source := null;
      stream := null;
      enabled := false;
      raf := None;
      smooth := 0.0;
      bufLength := 0;
    }

    /** `ensureCtx()`: creates the context and its analyser (fftSize 2048,
        smoothing 0.85) the first time, and does nothing afterwards. */
    method EnsureCtx()
      requires Valid()
      modifies this
      ensures Valid() && ctx != null && analyser != null
      ensures old(ctx) != null ==> State() == old(State())
      ensures old(ctx) == null ==>
        && fresh(ctx) && fresh(analyser)
        && State() == old(State()).(ctx := ctx, analyser := analyser)
    {
      if ctx == null {
        ctx := new AudioContext();
        analyser := new AnalyserNode();
        analyser.fftSize := 2048;
        analyser.smoothingTimeConstant := 0.85;
      }
    }

    /** `start()`: begins the frame loop unless there is no analyser yet or
        it already runs; `handle` is the id `requestAnimationFrame` returns. */
    method Start(handle: nat)
      requires Valid()
      modifies this
      ensures Valid()
      ensures State() == StartStep(old(State()), handle)
    {
      if analyser == null || enabled {
        return;
      }
      enabled := true;
      bufLength := analyser.FrequencyBinCount();
      raf := Some(handle);
    }

    /** One run of the frame callback. `frame` is what
        `getByteFrequencyData(buf)` writes into the buffer and `handle` the id
        of the next request; the result says whether it was made. */
    method Tick(frame: seq<byte>, handle: nat, doc: DocumentStyle) returns (rescheduled: bool)
      requires Valid()
      requires enabled ==> |frame| == bufLength
      modifies this, doc
      ensures Valid()
      ensures State() == TickStep(old(State()), frame, handle)
      ensures rescheduled == old(enabled)
      ensures old(enabled) ==> doc.react == Some(smooth)
      ensures !old(enabled) ==> doc.react == old(doc.react)
    {
      if !enabled {
        return false;
      }
      var v := BandLevel(frame);
      smooth := Smooth(smooth, v);
      doc.react := Some(smooth);
      raf := Some(handle);
      rescheduled := true;
    }

    /** `stop()`: ends the loop, publishes 0, and stops and drops the
        microphone stream if one is held. */
    method Stop(doc: DocumentStyle)
      requires Valid()
      modifies this, doc, HeldTracks()
      ensures Valid()
      ensures State() == StopStep(old(State()))
      ensures doc.react == Some(0.0)
      ensures old(stream) != null ==> forall t :: t in old(stream).tracks ==> t.readyState == Ended
    {
      enabled := false;
      raf := None;
      doc.react := Some(0.0);
      if stream != null {
        StopAll(stream.tracks);
        stream := null;
      }
    }

    /** `useMic()`: makes sure the context exists, stops the loop and the
        held stream if there is one, then takes the stream `grant` that
        `getUserMedia` resolved with and connects it to the analyser. When
        `getUserMedia` rejects, so does `useMic`, with the same error. */
    method UseMic(grant: Result<MediaStream, MediaError>, doc: DocumentStyle) returns (r: Result<bool, MediaError>)
      requires Valid()
      modifies this, doc, HeldTracks()
      ensures Valid() && ctx != null
      ensures old(ctx) != null ==> ctx == old(ctx) && analyser == old(analyser)
      ensures old(stream) != null ==>
        && !enabled && raf == None && doc.react == Some(0.0)
        && forall t :: t in old(stream).tracks ==> t.readyState == Ended
      ensures old(stream) == null ==> enabled == old(enabled) && raf == old(raf) && doc.react == old(doc.react)
      ensures smooth == old(smooth) && bufLength == old(bufLength)
      ensures grant.Err? ==> r == Err(grant.error) && stream == null && source == old(source)
      ensures grant.Ok? ==>
        && r == Ok(true) && stream == grant.value
        && fresh(source) && source.mediaStream == grant.value && source.output == analyser
    {
      EnsureCtx();
      if stream != null {
        Stop(doc);
      }
      match grant
      case Err(e) =>
        r := Err(e);
      case Ok(s) =>
        stream := s;
        var node := new MediaStreamSource(s);
        node.Connect(analyser);
        source := node;
        r := Ok(true);
    }
  }

  /** `stream.getTracks().forEach(t => t.stop())`. */
  method StopAll(tracks: seq<MediaStreamTrack>)
    modifies set t | t in tracks
    ensures forall t :: t in tracks ==> t.readyState == Ended
  {
    for i := 0 to |tracks|
      invariant forall k :: 0 <= k < i ==> tracks[k].readyState == Ended
    {
      tracks[i].Stop();
    }
  }
}
