/**
 * The face-detection loop of the Detector component: one tick throttles itself
 * to a fixed cadence, picks the largest detected face, cuts a padded crop
 * clamped to the video frame, and hands the encoded crop to the callback only
 * when it differs from the last one handed over.
 *
 * The face detector and the JPEG encoder are outside the model: a tick
 * receives the detector's output as a value and the encoder as a function of
 * the crop rectangle.
 */
module Detector {
  import opened Wrappers

  /** Minimum time between two detection cycles, in milliseconds. */
  const DetectionInterval: int := 300

  /** Margin added around the primary face on every side, in pixels. */
  const Padding: real := 20.0

  datatype Box = Box(x: real, y: real, width: real, height: real)

  /** One face found by the detector: its box and its detection score. */
  datatype Detection = Detection(box: Box, score: real)

  function Area(b: Box): real
  {
    b.width * b.height
  }

  // ---------------------------------------------------------------------------
  // Primary face: `detections.reduce((prev, current) => area(current) > area(prev) ? current : prev)`

  /** `k` is an index of a face whose area no other face exceeds. */
  ghost predicate IsLargest(ds: seq<Detection>, k: nat)
  {
    k < |ds| && forall j :: 0 <= j < |ds| ==> Area(ds[j].box) <= Area(ds[k].box)
  }

  /** `k` is the earliest index of a largest face: every face before it is strictly smaller. */
  ghost predicate IsFirstLargest(ds: seq<Detection>, k: nat)
  {
    IsLargest(ds, k) && forall j :: 0 <= j < k ==> Area(ds[j].box) < Area(ds[k].box)
  }

  /**
   * The fold that `reduce` without an initial value performs: `best` is the
   * accumulator after elements `0 .. i-1`, and element `i` replaces it only
   * when its area is strictly larger.
   */
  function ReduceFrom(ds: seq<Detection>, i: nat, best: nat): (k: nat)
    requires best < i <= |ds|
    requires forall j :: 0 <= j < i ==> Area(ds[j].box) <= Area(ds[best].box)
    requires forall j :: 0 <= j < best ==> Area(ds[j].box) < Area(ds[best].box)
    ensures IsFirstLargest(ds, k)
    decreases |ds| - i
  {
    if i == |ds| then best
    else if Area(ds[i].box) > Area(ds[best].box) then ReduceFrom(ds, i + 1, i)
    else ReduceFrom(ds, i + 1, best)
  }

  /** Index of the primary face; `reduce` is only ever applied to a non-empty list. */
  function PrimaryIndex(ds: seq<Detection>): (k: nat)
    requires |ds| > 0
    ensures IsFirstLargest(ds, k)
  {
    ReduceFrom(ds, 1, 0)
  }

  function PrimaryFace(ds: seq<Detection>): (d: Detection)
    requires |ds| > 0
    ensures d in ds
    ensures forall j :: 0 <= j < |ds| ==> Area(ds[j].box) <= Area(d.box)
  {
    ds[PrimaryIndex(ds)]
  }

  /** The selection policy determines the index: the first largest face and no other. */
  lemma PrimaryIndexCharacterised(ds: seq<Detection>, k: nat)
    requires |ds| > 0
    ensures IsFirstLargest(ds, k) <==> k == PrimaryIndex(ds)
  {
  }

  /** Two faces of equal area: the one the detector listed first wins. */
  lemma TieKeepsEarlier(a: Detection, b: Detection)
    requires Area(a.box) == Area(b.box)
    ensures PrimaryIndex([a, b]) == 0 && PrimaryFace([a, b]) == a
  {
  }

  // ---------------------------------------------------------------------------
  // Crop geometry

  datatype CropRect = CropRect(x: real, y: real, width: real, height: real)

  function Max(a: real, b: real): real
  {
    if a >= b then a else b
  }

  function Min(a: real, b: real): real
  {
    if a <= b then a else b
  }

  /**
   * The padded crop around `b` in a frame of the given size. The left and top
   * edges are pulled inside the frame; the width and height are only cut where
   * they would run past the right or bottom edge, so each side is clamped on
   * its own.
   */
  function CropFor(frameWidth: real, frameHeight: real, b: Box): (r: CropRect)
    ensures 0.0 <= r.x && r.x + r.width <= frameWidth && r.width <= b.width + 2.0 * Padding
    ensures 0.0 <= r.y && r.y + r.height <= frameHeight && r.height <= b.height + 2.0 * Padding
    ensures b.x - Padding <= r.x && (b.x >= Padding ==> r.x == b.x - Padding) && (b.x < Padding ==> r.x == 0.0)
    ensures b.y - Padding <= r.y && (b.y >= Padding ==> r.y == b.y - Padding) && (b.y < Padding ==> r.y == 0.0)
  {
    var x := Max(0.0, b.x - Padding);
    var y := Max(0.0, b.y - Padding);
    CropRect(x, y, Min(frameWidth - x, b.width + 2.0 * Padding), Min(frameHeight - y, b.height + 2.0 * Padding))
  }

  /** A crop with no area; the tick gives up on it. */
  predicate IsDegenerate(r: CropRect)
  {
    r.width <= 0.0 || r.height <= 0.0
  }

  /** A box whose padded region fits the frame is cropped exactly to that region. */
  lemma InteriorCropIsExact(frameWidth: real, frameHeight: real, b: Box)
    requires b.x >= Padding && b.x + b.width + Padding <= frameWidth
    requires b.y >= Padding && b.y + b.height + Padding <= frameHeight
    ensures CropFor(frameWidth, frameHeight, b)
         == CropRect(b.x - Padding, b.y - Padding, b.width + 2.0 * Padding, b.height + 2.0 * Padding)
  {
  }

  /** The worked example: a 400x400 frame and a 50x50 face at (100, 100). */
  lemma CropExample()
    ensures CropFor(400.0, 400.0, Box(100.0, 100.0, 50.0, 50.0)) == CropRect(80.0, 80.0, 90.0, 90.0)
  {
  }

  /**
   * Near the left edge the crop is shifted, not shrunk: it starts at 0 and keeps
   * the full padded width when that fits in the frame, so its right edge lies
   * `Padding - b.x` past the padded box's right edge.
   */
  lemma LeftClampKeepsWidth(frameWidth: real, frameHeight: real, b: Box)
    requires b.x < Padding && b.width + 2.0 * Padding <= frameWidth
    ensures CropFor(frameWidth, frameHeight, b).x == 0.0
    ensures CropFor(frameWidth, frameHeight, b).width == b.width + 2.0 * Padding
    ensures CropFor(frameWidth, frameHeight, b).x + CropFor(frameWidth, frameHeight, b).width
         == (b.x + b.width + Padding) + (Padding - b.x)
  {
  }

  /** Near the right edge only the width is cut; the left edge keeps its padding. */
  lemma RightClampCutsWidth(frameWidth: real, frameHeight: real, b: Box)
    requires b.x >= Padding && b.x + b.width + Padding > frameWidth
    ensures CropFor(frameWidth, frameHeight, b).x == b.x - Padding
    ensures CropFor(frameWidth, frameHeight, b).width == frameWidth - (b.x - Padding)
  {
  }

  /** The crop covers the part of the padded box that lies in the frame. */
  lemma CropCoversPaddedBox(frameWidth: real, frameHeight: real, b: Box)
    ensures var r := CropFor(frameWidth, frameHeight, b);
      r.x + r.width >= Min(frameWidth, b.x + b.width + Padding)
      && r.y + r.height >= Min(frameHeight, b.y + b.height + Padding)
  {
  }

  /** When a crop is degenerate: the frame has no room right of (or below) its clamped corner, or the box is too small. */
  lemma DegenerateIff(frameWidth: real, frameHeight: real, b: Box)
    ensures IsDegenerate(CropFor(frameWidth, frameHeight, b)) <==>
      (frameWidth <= Max(0.0, b.x - Padding) || b.width + 2.0 * Padding <= 0.0
       || frameHeight <= Max(0.0, b.y - Padding) || b.height + 2.0 * Padding <= 0.0)
  {
  }

  // ---------------------------------------------------------------------------
  // One detection cycle

  /** What `faceapi.detectAllFaces` produced: the faces in detector order, or a rejection. */
  datatype DetectorOutput = Detected(detections: seq<Detection>) | DetectorFailed

  datatype TickOutcome =
    | Throttled                    // too soon after the last cycle
    | DetectionFailed              // the detector threw; the outer handler swallowed it
    | NoSubject                    // no face, no drawing surface, or no callback
    | DegenerateCrop(rect: CropRect) // the crop had no area; the tick returned early
    | EncodeFailed                 // drawing or encoding the crop threw; the inner handler swallowed it
    | Duplicate                    // the encoded crop equals the last one handed over
    | Submitted(dataUrl: string)   // the callback was called with this crop
  {
    /** Whether the tick requests the next animation frame before it ends. */
    predicate Reschedules()
    {
      !DegenerateCrop?
    }
  }

  /**
   * The outcome of a cycle that the throttle let through, given the crop last
   * handed to the callback. `canvasReady` says the overlay canvas and its 2D
   * context exist; `hasCallback` says the component received `onFaceCropped`.
   */
  function Cycle(lastFaceDataUrl: string, frameWidth: real, frameHeight: real, output: DetectorOutput,
                 canvasReady: bool, hasCallback: bool, encode: CropRect -> Option<string>): (o: TickOutcome)
    ensures o != Throttled
  {
    match output
    case DetectorFailed => DetectionFailed
    case Detected(ds) =>
      if |ds| == 0 || !canvasReady || !hasCallback then NoSubject
      else
        var rect := CropFor(frameWidth, frameHeight, PrimaryFace(ds).box);
        if IsDegenerate(rect) then DegenerateCrop(rect)
        else match encode(rect)
          case None => EncodeFailed
          case Some(u) => if u == lastFaceDataUrl then Duplicate else Submitted(u)
  }

  /**
   * The callback is called exactly when the cycle has a face, a non-degenerate
   * crop of the primary face and an encoding of it that differs from the last
   * one; what it receives is that encoding.
   */
  lemma SubmittedIff(lastFaceDataUrl: string, frameWidth: real, frameHeight: real, output: DetectorOutput,
                     canvasReady: bool, hasCallback: bool, encode: CropRect -> Option<string>, u: string)
    ensures Cycle(lastFaceDataUrl, frameWidth, frameHeight, output, canvasReady, hasCallback, encode) == Submitted(u)
      <==>
      (output.Detected? && |output.detections| > 0 && canvasReady && hasCallback
       && !IsDegenerate(CropFor(frameWidth, frameHeight, PrimaryFace(output.detections).box))
       && encode(CropFor(frameWidth, frameHeight, PrimaryFace(output.detections).box)) == Some(u)
       && u != lastFaceDataUrl)
  {
  }

  /** No face, no selection and no crop: the primary-face fold is never asked about an empty list. */
  lemma NoFaceNoCrop(lastFaceDataUrl: string, frameWidth: real, frameHeight: real,
                     canvasReady: bool, hasCallback: bool, encode: CropRect -> Option<string>)
    ensures Cycle(lastFaceDataUrl, frameWidth, frameHeight, Detected([]), canvasReady, hasCallback, encode) == NoSubject
  {
  }

  /** The change gate: repeating a cycle right after it handed a crop over hands nothing over. */
  lemma RepeatedCropIsDuplicate(lastFaceDataUrl: string, frameWidth: real, frameHeight: real, output: DetectorOutput,
                                canvasReady: bool, hasCallback: bool, encode: CropRect -> Option<string>, u: string)
    requires Cycle(lastFaceDataUrl, frameWidth, frameHeight, output, canvasReady, hasCallback, encode) == Submitted(u)
    ensures Cycle(u, frameWidth, frameHeight, output, canvasReady, hasCallback, encode) == Duplicate
  {
  }

  /** The loop stops itself exactly on a degenerate crop. */
  lemma StopsOnlyOnDegenerateCrop(lastFaceDataUrl: string, frameWidth: real, frameHeight: real, output: DetectorOutput,
                                  canvasReady: bool, hasCallback: bool, encode: CropRect -> Option<string>)
    ensures var o := Cycle(lastFaceDataUrl, frameWidth, frameHeight, output, canvasReady, hasCallback, encode);
      !o.Reschedules() <==>
      (output.Detected? && |output.detections| > 0 && canvasReady && hasCallback
       && IsDegenerate(CropFor(frameWidth, frameHeight, PrimaryFace(output.detections).box)))
  {
  }

  // ---------------------------------------------------------------------------
  // The loop's closure state and one tick

  /**
   * The state one run of the detection effect keeps between ticks, plus the
   * component's face counter that each cycle updates.
   */
  class DetectionLoop {
    var lastDetectionTime: int
    var lastFaceDataUrl: string
    var faceCount: nat

    /** The effect starting the loop (the counter starts at its initial state value). */
    constructor ()
      ensures lastDetectionTime == 0 && lastFaceDataUrl == "" && faceCount == 0
    {
      lastDetectionTime := 0;
      lastFaceDataUrl := "";
      faceCount := 0;
    }

    /**
     * One call of `detectFaces` at time `now`. The returned outcome says what
     * happened and, through `Reschedules()`, whether another tick was requested.
     */
    method Tick(now: int, frameWidth: real, frameHeight: real, output: DetectorOutput,
                canvasReady: bool, hasCallback: bool, encode: CropRect -> Option<string>)
      returns (outcome: TickOutcome)
      modifies this
      ensures now - old(lastDetectionTime) < DetectionInterval ==>
        outcome == Throttled && unchanged(this)
      ensures now - old(lastDetectionTime) >= DetectionInterval ==>
        lastDetectionTime == now
        && outcome == Cycle(old(lastFaceDataUrl), frameWidth, frameHeight, output, canvasReady, hasCallback, encode)
        && faceCount == (if output.Detected? then |output.detections| else old(faceCount))
      ensures lastFaceDataUrl == if outcome.Submitted? then outcome.dataUrl else old(lastFaceDataUrl)
    {
      if now - lastDetectionTime < DetectionInterval {
        return Throttled;
      }
      lastDetectionTime := now;

      if output.DetectorFailed? {
        return DetectionFailed;
      }
      var ds := output.detections;
      faceCount := |ds|;

      if |ds| == 0 || !canvasReady {
        return NoSubject;
      }
      var primary := PrimaryFace(ds);
      if !hasCallback {
        return NoSubject;
      }

      var rect := CropFor(frameWidth, frameHeight, primary.box);
      if IsDegenerate(rect) {
        return DegenerateCrop(rect);
      }

      var encoded := encode(rect);
      if encoded.None? {
        return EncodeFailed;
      }
      var dataUrl := encoded.value;
      if dataUrl != lastFaceDataUrl {
        lastFaceDataUrl := dataUrl;
        outcome := Submitted(dataUrl);
      } else {
        outcome := Duplicate;
      }
    }
  }

  /**
   * Ticks at T+300, T+599 and T+600 of a fresh loop, each seeing no face: only
   * the middle one is throttled, and every one asks for the next tick, so the
   * loop itself would make all three calls.
   */
  method ThrottleScenario(t: nat, w: real, h: real, encode: CropRect -> Option<string>)
    returns (first: TickOutcome, second: TickOutcome, third: TickOutcome)
    ensures first == NoSubject && second == Throttled && third == NoSubject
    ensures first.Reschedules() && second.Reschedules() && third.Reschedules()
  {
    var loop := new DetectionLoop();
    first := loop.Tick(t + 300, w, h, Detected([]), true, true, encode);
    second := loop.Tick(t + 599, w, h, Detected([]), true, true, encode);
    third := loop.Tick(t + 600, w, h, Detected([]), true, true, encode);
  }
}
