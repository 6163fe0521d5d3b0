/**
 * The video player component: play/pause, the scan started on pause or by the
 * "Full Scan" button, and the capture-then-detect sequence. The browser and the
 * detector are inputs (`ScanEnv`); `await` is one step. The callbacks the player
 * receives are the application's handlers, so the player holds the `AppState` and
 * calls them, and a trace records, in order, every call the player makes.
 */
module Player {
  import opened Wrappers
  import opened Types
  import opened Text
  import opened Detection
  import opened App

  /** The fixed size of the capture canvas. */
  const CaptureWidth: int := 1280
  const CaptureHeight: int := 720

  /** The outcome of `canvas.toDataURL('image/jpeg', 0.8)`: a data URL, or a throw. */
  datatype Capture = Encoded(dataUrl: string) | EncodeThrew

  /**
   * What the browser and the detector do during one scan: whether the canvas yields
   * a 2D context, what encoding the frame gives, what the remote call returns for
   * the payload sent, and how its text parses.
   */
  datatype ScanEnv = ScanEnv(
    contextAvailable: bool,
    capture: Capture,
    reply: Option<string> -> Reply,
    parse: string -> Option<GeminiResponse>)

  /** One call the player makes, in the order it makes them. */
  datatype Step =
    | ScanStartCalled
    | ContextRequested
    | FrameDrawn(width: int, height: int)
    | FrameEncoded(dataUrl: string)
    | DetectorCalled(payload: Option<string>)
    | ScanCompleteCalled(items: seq<DetectedItem>, screenshot: string)
    | PlayCalled
    | PauseCalled

  /** `dataUrl.split(',')[1]`: the second comma-separated field; absent (`undefined`) without a comma. */
  function Payload(dataUrl: string): (p: Option<string>)
    ensures p.Some? <==> ',' in dataUrl
    ensures p.Some? ==> ',' !in p.value
  {
    SplitFieldCount(dataUrl, ',');
    var fields := Split(dataUrl, ',');
    if |fields| > 1 then Some(fields[1]) else None
  }

  /** For a data URL with one comma, the payload is all the text after it. */
  lemma PayloadAfterComma(header: string, body: string)
    requires ',' !in header && ',' !in body
    ensures Payload(header + [','] + body) == Some(body)
  {
    SplitAfterField(header, body, ',');
    SplitWithoutSeparator(body, ',');
  }

  /** The arguments of the one `onScanComplete` call of a scan that obtained a 2D context. */
  function Completion(env: ScanEnv): (c: (seq<DetectedItem>, string))
    ensures c == ([], "") || (env.capture.Encoded? && c.1 == env.capture.dataUrl)
  {
    match env.capture
    case EncodeThrew => ([], "")
    case Encoded(url) =>
      match DetectCommercialProducts(env.reply(Payload(url)), env.parse)
      case Detected(items) => (items, url)
      case Threw => ([], "")
  }

  /** The calls `handleScan` makes once a context is obtained and the frame drawn. */
  function CaptureSteps(env: ScanEnv): (steps: seq<Step>)
    ensures |steps| >= 1 && steps[|steps| - 1] == ScanCompleteCalled(Completion(env).0, Completion(env).1)
    ensures forall k :: 0 <= k < |steps| - 1 ==> !steps[k].ScanCompleteCalled? && !steps[k].ScanStartCalled?
  {
    match env.capture
    case EncodeThrew => [ScanCompleteCalled([], "")]
    case Encoded(url) =>
      [FrameEncoded(url), DetectorCalled(Payload(url)), ScanCompleteCalled(Completion(env).0, Completion(env).1)]
  }

  /** The calls one `handleScan` makes, given whether the video and canvas elements exist. */
  function ScanSteps(hasVideo: bool, hasCanvas: bool, env: ScanEnv): (steps: seq<Step>)
    ensures steps == [] <==> !(hasVideo && hasCanvas)
    ensures steps != [] ==> |steps| >= 2 && steps[0] == ScanStartCalled && steps[1] == ContextRequested
    ensures steps != [] && env.contextAvailable ==> |steps| >= 3 && steps[2] == FrameDrawn(1280, 720)
  {
    if !(hasVideo && hasCanvas) then []
    else if !env.contextAvailable then [ScanStartCalled, ContextRequested]
    else [ScanStartCalled, ContextRequested, FrameDrawn(CaptureWidth, CaptureHeight)] + CaptureSteps(env)
  }

  /** The application state after one `handleScan`, seen through the callbacks it fires. */
  function ScanEffect(s: AppView, hasVideo: bool, hasCanvas: bool, env: ScanEnv): (r: AppView)
    ensures r.videos == s.videos && r.selectedVideo == s.selectedVideo
    ensures r.openedTabs == s.openedTabs && r.librarySearch == s.librarySearch && r.isUploading == s.isUploading
  {
    if !(hasVideo && hasCanvas) then s
    else if !env.contextAvailable then Apply(s, ScanStart)
    else Apply(Apply(s, ScanStart), ScanComplete(Completion(env).0, Completion(env).1))
  }

  /** How many steps of `steps` are calls of `onScanStart`. */
  function StartCount(steps: seq<Step>): nat
    decreases |steps|
  {
    if steps == [] then 0
    else (if steps[0].ScanStartCalled? then 1 else 0) + StartCount(steps[1..])
  }

  /** How many steps of `steps` are calls of `onScanComplete`. */
  function CompleteCount(steps: seq<Step>): nat
    decreases |steps|
  {
    if steps == [] then 0
    else (if steps[0].ScanCompleteCalled? then 1 else 0) + CompleteCount(steps[1..])
  }

  lemma {:induction false} CountsOfConcat(a: seq<Step>, b: seq<Step>)
    ensures StartCount(a + b) == StartCount(a) + StartCount(b)
    ensures CompleteCount(a + b) == CompleteCount(a) + CompleteCount(b)
    decreases |a|
  {
    if a != [] {
      assert (a + b)[1..] == a[1..] + b;
      CountsOfConcat(a[1..], b);
    } else {
      assert a + b == b;
    }
  }

  /** A trace whose last call, and only that one, is a completion, and that never starts a scan. */
  lemma {:induction false} CountsOfCompletionLast(steps: seq<Step>)
    requires |steps| >= 1 && steps[|steps| - 1].ScanCompleteCalled?
    requires forall k :: 0 <= k < |steps| - 1 ==> !steps[k].ScanCompleteCalled? && !steps[k].ScanStartCalled?
    ensures StartCount(steps) == 0 && CompleteCount(steps) == 1
    decreases |steps|
  {
    if |steps| > 1 {
      CountsOfCompletionLast(steps[1..]);
    } else {
      assert steps[1..] == [];
    }
  }

  /** The two calls every scan with both elements begins with: one start, no completion. */
  lemma CountsOfScanHead()
    ensures StartCount([ScanStartCalled, ContextRequested]) == 1
    ensures CompleteCount([ScanStartCalled, ContextRequested]) == 0
  {
    var head := [ScanStartCalled, ContextRequested];
    assert head[1..] == [ContextRequested];
    assert head[1..][1..] == [];
  }

  /**
   * Exactly which callbacks a scan fires: none without the video and canvas
   * elements; otherwise one `onScanStart`, first, immediately followed by the
   * context request; and one `onScanComplete`, last, exactly when a context was
   * obtained. Without a context the scan is left started.
   */
  lemma ScanCallbacks(hasVideo: bool, hasCanvas: bool, env: ScanEnv)
    ensures var steps := ScanSteps(hasVideo, hasCanvas, env);
      && StartCount(steps) == (if hasVideo && hasCanvas then 1 else 0)
      && CompleteCount(steps) == (if hasVideo && hasCanvas && env.contextAvailable then 1 else 0)
      && (hasVideo && hasCanvas ==> steps[0] == ScanStartCalled && steps[1] == ContextRequested)
      && (hasVideo && hasCanvas && env.contextAvailable ==>
            steps[|steps| - 1] == ScanCompleteCalled(Completion(env).0, Completion(env).1))
  {
    if hasVideo && hasCanvas {
      var head := [ScanStartCalled, ContextRequested];
      CountsOfScanHead();
      if env.contextAvailable {
        var drawnTail := [FrameDrawn(CaptureWidth, CaptureHeight)] + CaptureSteps(env);
        assert drawnTail[1..] == CaptureSteps(env);
        CountsOfCompletionLast(drawnTail);
        CountsOfConcat(head, drawnTail);
        assert ScanSteps(hasVideo, hasCanvas, env) == head + drawnTail;
      }
    }
  }

  /**
   * What reaches the detector and the completion: the frame is drawn at exactly
   * 1280 by 720; the detector gets the payload of the data URL; on success the
   * completion carries the detector's items and that same data URL; when encoding
   * or detection throws it carries no items and the empty screenshot.
   */
  lemma ScanData(env: ScanEnv)
    requires env.contextAvailable
    ensures var steps := ScanSteps(true, true, env);
      && steps[2] == FrameDrawn(1280, 720)
      && (env.capture.Encoded? ==> steps[4] == DetectorCalled(Payload(env.capture.dataUrl)))
      && (env.capture.EncodeThrew? ==> Completion(env) == ([], ""))
      && (env.capture.Encoded? ==>
            var d := DetectCommercialProducts(env.reply(Payload(env.capture.dataUrl)), env.parse);
            Completion(env) == if d.Threw? then ([], "") else (d.items, env.capture.dataUrl))
  {
  }

  /**
   * The application state after a scan: untouched without the elements; left
   * scanning, with results and redirect cleared, when no context is obtained;
   * otherwise scanning is over and the completion's items and screenshot are shown.
   */
  lemma ScanEffectOutcome(s: AppView, hasVideo: bool, hasCanvas: bool, env: ScanEnv)
    ensures var s' := ScanEffect(s, hasVideo, hasCanvas, env);
      && (!(hasVideo && hasCanvas) ==> s' == s)
      && (hasVideo && hasCanvas && !env.contextAvailable ==>
            s'.isScanning && s'.detectedItems == [] && s'.currentScreenshot == None && s'.redirectingTo == None)
      && (hasVideo && hasCanvas && env.contextAvailable ==>
            !s'.isScanning && s'.detectedItems == Completion(env).0 &&
            s'.currentScreenshot == Some(Completion(env).1) && s'.redirectingTo == None)
  {
  }

  /** A scan, whatever its outcome, keeps the application state consistent. */
  lemma ScanKeepsConsistent(s: AppView, hasVideo: bool, hasCanvas: bool, env: ScanEnv)
    requires Consistent(s)
    ensures Consistent(ScanEffect(s, hasVideo, hasCanvas, env))
  {
    if hasVideo && hasCanvas {
      ApplyPreservesConsistent(s, ScanStart);
      ApplyPreservesConsistent(Apply(s, ScanStart), ScanComplete(Completion(env).0, Completion(env).1));
    }
  }

  /** The player component's state and the elements it works on. */
  class VideoPlayer {
    /** The application whose handlers are the player's callbacks and whose `isScanning` is its prop. */
    const app: AppState
    /** Whether the video and canvas elements are mounted (the refs are set). */
    var hasVideo: bool
    var hasCanvas: bool
    /** The video element's own `paused` flag. */
    var videoPaused: bool
    /** The component's `isPlaying` state. */
    var isPlaying: bool
    var canvasWidth: int
    var canvasHeight: int
    /** Every call the player has made, oldest first. */
    var trace: seq<Step>

    /** A freshly mounted player: paused video, default 300 by 150 canvas, nothing called yet. */
    constructor (app: AppState, hasVideo: bool, hasCanvas: bool)
      ensures this.app == app && this.hasVideo == hasVideo && this.hasCanvas == hasCanvas
      ensures videoPaused && !isPlaying && canvasWidth == 300 && canvasHeight == 150 && trace == []
    {
      this.app := app;
      this.hasVideo := hasVideo;
      this.hasCanvas := hasCanvas;
      videoPaused := true;
      isPlaying := false;
      canvasWidth := 300;
      canvasHeight := 150;
      trace := [];
    }

    /** `handleScan`: start the scan, capture the frame, detect, complete. */
    method HandleScan(env: ScanEnv)
      modifies this, app
      ensures trace == old(trace) + ScanSteps(hasVideo, hasCanvas, env)
      ensures app.Snapshot() == ScanEffect(old(app.Snapshot()), hasVideo, hasCanvas, env)
      ensures hasVideo == old(hasVideo) && hasCanvas == old(hasCanvas)
      ensures videoPaused == old(videoPaused) && isPlaying == old(isPlaying)
      ensures if hasVideo && hasCanvas && env.contextAvailable
              then canvasWidth == CaptureWidth && canvasHeight == CaptureHeight
              else canvasWidth == old(canvasWidth) && canvasHeight == old(canvasHeight)
    {
      if !hasVideo || !hasCanvas {
        return;
      }
      trace := trace + [ScanStartCalled];
      app.HandleScanStart();
      trace := trace + [ContextRequested];
      if !env.contextAvailable {
        return;
      }
      canvasWidth := CaptureWidth;
      canvasHeight := CaptureHeight;
      trace := trace + [FrameDrawn(canvasWidth, canvasHeight)];
      CaptureAndDetect(env);
    }

    /** The part of `handleScan` after the frame is drawn: encode, detect, complete. */
    method CaptureAndDetect(env: ScanEnv)
      modifies this, app
      ensures trace == old(trace) + CaptureSteps(env)
      ensures app.Snapshot() == Apply(old(app.Snapshot()), ScanComplete(Completion(env).0, Completion(env).1))
      ensures hasVideo == old(hasVideo) && hasCanvas == old(hasCanvas)
      ensures videoPaused == old(videoPaused) && isPlaying == old(isPlaying)
      ensures canvasWidth == old(canvasWidth) && canvasHeight == old(canvasHeight)
    {
      match env.capture {
        case EncodeThrew =>
          trace := trace + [ScanCompleteCalled([], "")];
          app.HandleScanComplete([], "");
        case Encoded(screenshot) =>
          var base64Data := Payload(screenshot);
          var results := DetectCommercialProducts(env.reply(base64Data), env.parse);
          var items, shot := [], "";
          if results.Detected? {
            items, shot := results.items, screenshot;
          }
          trace := trace + [FrameEncoded(screenshot), DetectorCalled(base64Data), ScanCompleteCalled(items, shot)];
          app.HandleScanComplete(items, shot);
      }
    }

    /**
     * The video's `pause` event, which the element fires once its `paused` flag is
     * set (by `pause()` or at the end of playback): not playing any more, and a
     * scan unless one is running.
     */
    method HandlePause(env: ScanEnv)
      modifies this, app
      ensures videoPaused && !isPlaying
      ensures hasVideo == old(hasVideo) && hasCanvas == old(hasCanvas)
      ensures old(app.isScanning) ==>
        trace == old(trace) && app.Snapshot() == old(app.Snapshot()) &&
        canvasWidth == old(canvasWidth) && canvasHeight == old(canvasHeight)
      ensures !old(app.isScanning) ==>
        trace == old(trace) + ScanSteps(hasVideo, hasCanvas, env) &&
        app.Snapshot() == ScanEffect(old(app.Snapshot()), hasVideo, hasCanvas, env) &&
        if hasVideo && hasCanvas && env.contextAvailable
        then canvasWidth == CaptureWidth && canvasHeight == CaptureHeight
        else canvasWidth == old(canvasWidth) && canvasHeight == old(canvasHeight)
    {
      videoPaused := true;
      isPlaying := false;
      if !app.isScanning {
        HandleScan(env);
      }
    }

    /** The "Full Scan" button: a scan whether or not one is running. */
    method FullScan(env: ScanEnv)
      modifies this, app
      ensures trace == old(trace) + ScanSteps(hasVideo, hasCanvas, env)
      ensures app.Snapshot() == ScanEffect(old(app.Snapshot()), hasVideo, hasCanvas, env)
      ensures hasVideo == old(hasVideo) && hasCanvas == old(hasCanvas)
      ensures videoPaused == old(videoPaused) && isPlaying == old(isPlaying)
      ensures if hasVideo && hasCanvas && env.contextAvailable
              then canvasWidth == CaptureWidth && canvasHeight == CaptureHeight
              else canvasWidth == old(canvasWidth) && canvasHeight == old(canvasHeight)
    {
      HandleScan(env);
    }

    /** `togglePlay`: play a paused video, pause a playing one, and mirror it in `isPlaying`. */
    method TogglePlay()
      modifies this
      ensures hasVideo == old(hasVideo) && hasCanvas == old(hasCanvas)
      ensures canvasWidth == old(canvasWidth) && canvasHeight == old(canvasHeight)
      ensures !hasVideo ==> videoPaused == old(videoPaused) && isPlaying == old(isPlaying) && trace == old(trace)
      ensures hasVideo ==>
        videoPaused == !old(videoPaused) && isPlaying == !videoPaused &&
        trace == old(trace) + [if old(videoPaused) then PlayCalled else PauseCalled]
    {
      if !hasVideo {
        return;
      }
      if videoPaused {
        videoPaused := false;
        trace := trace + [PlayCalled];
        isPlaying := true;
      } else {
        videoPaused := true;
        trace := trace + [PauseCalled];
        isPlaying := false;
      }
    }

    /** The video's `play` event, which the element fires once its `paused` flag is cleared. */
    method HandlePlay()
      modifies this
      ensures !videoPaused && isPlaying
      ensures hasVideo == old(hasVideo) && hasCanvas == old(hasCanvas)
      ensures canvasWidth == old(canvasWidth) && canvasHeight == old(canvasHeight)
      ensures trace == old(trace)
    {
      videoPaused := false;
      isPlaying := true;
    }
  }
}
