/**
 * The Kotlin frame processor: a run flag gating the hand-off of camera frames
 * to the native engine, the completion timestamp of the latest processed
 * frame, the frame rate computed when the render side drains it, and the
 * frame size given to the engine.
 */
module Ingestion {
  import opened Image
  import opened OpenCvStaging

  /**
   * A reading of a monotonic nanosecond clock, held in a Kotlin Long: never
   * negative, so the difference of two readings cannot wrap.
   */
  type Nanos = t: int | 0 <= t < 0x8000_0000_0000_0000

  /**
   * The frame rate implied by a frame that completed at `frameNs` and is
   * drained at `nowNs`: one frame per elapsed interval when time has passed,
   * and 0 otherwise, never negative and never infinite.
   */
  function Fps(nowNs: Nanos, frameNs: Nanos): (fps: real)
    ensures fps >= 0.0
    ensures fps > 0.0 <==> nowNs > frameNs
    ensures nowNs > frameNs ==> fps * (nowNs - frameNs) as real == 1_000_000_000.0
  {
    var deltaNs := nowNs - frameNs;
    if deltaNs > 0 then 1_000_000_000.0 / deltaNs as real else 0.0
  }

  /** The calls the processor makes into the native engine, in order. */
  datatype EngineCall =
    | Initialise(width: int, height: int)
    | ProcessFrame(frame: CameraFrame, edgeMode: bool)
    | UploadToTexture(textureId: int)
    | Release

  /** FrameProcessor; `engine` records every call made into the native engine. */
  class FrameProcessor {
    var running: bool
    var lastFrameTimestampNs: Nanos
    var lastFps: real
    var frameWidth: int
    var frameHeight: int
    ghost var engine: seq<EngineCall>

    function IsRunning(): bool
      reads this
    {
      running
    }

    /** A frame has completed, unless the stored timestamp is still the initial 0. */
    function HasFrame(): bool
      reads this
    {
      lastFrameTimestampNs != 0
    }

    function LastFps(): real
      reads this
    {
      lastFps
    }

    function FrameSize(): (int, int)
      reads this
    {
      (frameWidth, frameHeight)
    }

    constructor ()
      ensures !IsRunning() && !HasFrame() && LastFps() == 0.0 && FrameSize() == (0, 0)
      ensures engine == []
    {
      running := false;
      lastFrameTimestampNs := 0;
      lastFps := 0.0;
      frameWidth, frameHeight := 0, 0;
      engine := [];
    }

    /** start: only the first call of a run initialises the engine and records the size. */
    method Start(width: int, height: int)
      modifies this
      ensures IsRunning()
      ensures old(running) ==> unchanged(this)
      ensures !old(running) ==>
        && engine == old(engine) + [Initialise(width, height)]
        && FrameSize() == (width, height)
        && lastFrameTimestampNs == old(lastFrameTimestampNs) && lastFps == old(lastFps)
    {
      var wasRunning := running;
      running := true;
      if wasRunning {
        return;
      }
      engine := engine + [Initialise(width, height)];
      frameWidth := width;
      frameHeight := height;
    }

    /** stop: always clears the flag and releases the engine; nothing else changes. */
    method Stop()
      modifies this
      ensures !IsRunning()
      ensures engine == old(engine) + [Release]
      ensures lastFrameTimestampNs == old(lastFrameTimestampNs)
      ensures lastFps == old(lastFps) && FrameSize() == old(FrameSize())
    {
      running := false;
      engine := engine + [Release];
    }

    /**
     * processDirect: while running, hands the planes to the engine with the
     * stored frame size and keeps the timestamp it returns, `completedNs`,
     * in place of any earlier one; while stopped, does nothing.
     */
    method ProcessDirect(y: seq<byte>, u: seq<byte>, v: seq<byte>, pixelStride: int, rowStride: int,
                         edgeMode: bool, completedNs: Nanos)
      modifies this
      ensures !old(running) ==> unchanged(this)
      ensures old(running) ==>
        && engine == old(engine) + [ProcessFrame(CameraFrame(y, u, v, pixelStride, rowStride,
                                                             frameWidth, frameHeight), edgeMode)]
        && lastFrameTimestampNs == completedNs
        && running && lastFps == old(lastFps) && FrameSize() == old(FrameSize())
    {
      if !running {
        return;
      }
      engine := engine + [ProcessFrame(CameraFrame(y, u, v, pixelStride, rowStride,
                                                   frameWidth, frameHeight), edgeMode)];
      lastFrameTimestampNs := completedNs;
    }

    /**
     * drainToTexture: while running, has the engine upload its latest result
     * and records and returns the frame rate as of the clock reading `nowNs`;
     * while stopped, returns 0 and does nothing.
     */
    method DrainToTexture(textureId: int, nowNs: Nanos) returns (fps: real)
      modifies this
      ensures fps >= 0.0
      ensures !old(running) ==> fps == 0.0 && unchanged(this)
      ensures old(running) ==>
        && fps == Fps(nowNs, lastFrameTimestampNs)
        && lastFps == fps
        && engine == old(engine) + [UploadToTexture(textureId)]
        && running && lastFrameTimestampNs == old(lastFrameTimestampNs) && FrameSize() == old(FrameSize())
    {
      if !running {
        return 0.0;
      }
      engine := engine + [UploadToTexture(textureId)];
      var frameNs := lastFrameTimestampNs;
      fps := Fps(nowNs, frameNs);
      lastFps := fps;
    }

    /** updateFrameSize: records the size whether or not the processor runs. */
    method UpdateFrameSize(width: int, height: int)
      modifies this
      ensures FrameSize() == (width, height)
      ensures running == old(running) && engine == old(engine)
      ensures lastFrameTimestampNs == old(lastFrameTimestampNs) && lastFps == old(lastFps)
    {
      frameWidth := width;
      frameHeight := height;
    }
  }

  /**
   * start(1280, 720), a frame completing at t = 0 and a drain 33 ms later:
   * about 30.3 frames per second. The timestamp 0 is the initial value, so
   * afterwards the processor still reports no frame. The engine only records
   * the planes it is handed and its timestamp is a parameter, so empty planes
   * stand in for the camera's here and below without changing what is proved.
   */
  method ThirtyFramesPerSecond() returns (fps: real, hasFrame: bool)
    ensures 30.30 < fps < 30.31
    ensures !hasFrame
  {
    var p := new FrameProcessor();
    p.Start(1280, 720);
    p.ProcessDirect([], [], [], 2, 1280, false, 0);
    fps := p.DrainToTexture(1, 33_000_000);
    hasFrame := p.HasFrame();
  }

  /**
   * A drain after start but before any frame has completed measures from the
   * initial timestamp 0, so it yields 1e9 / now rather than 0.
   */
  method DrainBeforeAnyFrame(nowNs: Nanos) returns (fps: real)
    requires nowNs > 0
    ensures fps > 0.0 && fps * nowNs as real == 1_000_000_000.0
  {
    var p := new FrameProcessor();
    p.Start(640, 480);
    fps := p.DrainToTexture(1, nowNs);
  }

  /** Only the latest of several completed frames determines the next frame rate. */
  method LatestFrameWins(first: Nanos, second: Nanos, nowNs: Nanos) returns (fps: real)
    ensures fps == Fps(nowNs, second)
  {
    var p := new FrameProcessor();
    p.Start(640, 480);
    p.ProcessDirect([], [], [], 1, 640, true, first);
    p.ProcessDirect([], [], [], 1, 640, true, second);
    fps := p.DrainToTexture(7, nowNs);
  }

  /**
   * Starting twice initialises the engine once, with the first size; a stop
   * and a second stop leave it stopped with that size, each releasing once.
   */
  method StartTwiceStopTwice() returns (p: FrameProcessor)
    ensures p.engine == [Initialise(1280, 720), Release, Release]
    ensures p.FrameSize() == (1280, 720) && !p.IsRunning() && !p.HasFrame()
  {
    p := new FrameProcessor();
    p.Start(1280, 720);
    p.Start(640, 480);
    p.Stop();
    p.Stop();
  }
}
