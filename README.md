# Face-crop detection and emotion classification: a Dafny model

This project models the two pieces of logic in a React front end that watches a
camera and labels the emotion on the face it sees:

- **The detection tick** (`detectFaces` in `src/components/Detector.jsx`). It runs
  on every animation frame and does work at most once per 300 ms. The face
  detector returns a list of faces. The tick picks the largest one; on equal
  areas the first in detector order wins. It cuts a crop with 20 px of padding,
  clamped to the video frame, and gives up on a crop with no area. It hands the
  encoded crop to the `onFaceCropped` callback only when the crop differs from
  the last one it handed over.
- **The crop handler** (`handleFaceCropped` in `src/App.jsx`). It accepts at
  most one crop per 700 ms and sends it to the classification service. The reply
  becomes the current emotion and confidence, or an `"Error"` state with a
  message. Each success is prepended to a history that keeps the ten newest
  results.

Module `Detector` (`detector.dfy`) has the pure parts of the tick: the
primary-face fold, the crop geometry and the outcome of one cycle (`Cycle`). It
also has the class `DetectionLoop`, which holds the loop's closure state
(`lastDetectionTime`, `lastFaceDataUrl`) and the face counter. Its `Tick` method
is written with the source's early returns and is proved against `Cycle`.

Module `App` (`app.dfy`) has the meaning of a reply (`Classify`), the history
update (`PushHistory`) and the class `EmotionPanel`, which holds the component
state the handler writes. The handler is split at its `await`:

- `Submit` is the synchronous part: the rate limit, the empty-crop check and
  the loading flag.
- `Settle` applies the reply, then clears the loading flag, as the `finally`
  block does.
- `HandleFaceCropped` runs the two in sequence.

`Decimal` renders the HTTP status in the error message and proves the rendering
can be read back. `Wrappers` holds `Option` and the JavaScript `||` default on
optional strings.

The model keeps these behaviours of the code:

- **A degenerate crop stops the loop.** The `return` at
  `src/components/Detector.jsx:281` leaves `detectFaces` before the reschedule at
  line 319, so no further tick is requested. The warning at line 280 says
  "skipping frame", but the `return` at line 281 also skips the reschedule.
  This model follows the code (`TickOutcome.Reschedules`,
  `Detector.StopsOnlyOnDegenerateCrop`).
- **Every other tick reschedules.** The flags tested at line 319 are captured
  from the render that started the loop, and the effect starts it only when
  both are true (line 166).
- **The change gate records a crop before the rate limiter sees it.**
  `lastFaceDataUrl` takes the new crop whenever the callback is called, even if
  `handleFaceCropped` then drops it.
- **An empty crop uses up a slot.** `lastSent` is written before the empty-URL
  check, so an empty crop blocks the next 700 ms while sending nothing.
- **Emotion and history read different fields.** The current emotion reads
  `data.emotion`, but the history row reads `data.label`. A reply with only
  `emotion` is shown, but its history row says `"Unknown"` (`App.EmotionOnlyReply`).
- **The rate limiter starts at zero.** `lastSent` is 0 initially, so a call at
  a time below 700 would be dropped. With wall-clock times this never happens.
  Calls at 0, 500 and 750 ms would drop the call at 0 as well, because 0 − 0 < 700.
  The scenario therefore uses T, T+500 and T+750 with T ≥ 700
  (`App.RateLimitScenario`).

Time is an integer number of milliseconds.

- **Time.** The time of a tick or a call is passed in as `now`.
- **Detector output.** What `faceapi.detectAllFaces` produced is passed in as
  a `DetectorOutput` value: the faces in detector order, or a rejection.
- **Encoder.** The JPEG encoder is a parameter
  `encode: CropRect -> Option<string>`. `None` stands for `drawImage` or
  `toDataURL` throwing.
- **Reply.** The classification service's reply is a `Response` value. Its
  cases: an exception, a failure status (a `FailureStatus`: below 1000 and outside 200-299) with an optional error text, or a
  success body with optional `error`, `emotion`, `label` (`labelText`, as
  `label` is a Dafny keyword) and `confidence`.

JavaScript truthiness of a string field is "present and non-empty"
(`Wrappers.Truthy`). Geometry and confidence are Dafny `real`s.

## Model

| member | source | states |
|---|---|---|
| `Detector.ReduceFrom` | src/components/Detector.jsx:252-257 | the left fold `reduce` performs, from an accumulator that is the first largest of the prefix, ends at the first index of a largest-area face |
| `Detector.PrimaryIndex` | src/components/Detector.jsx:252-257 | for a non-empty list, the selected index has area ≥ every face's area, and every earlier face is strictly smaller (ties keep the earlier face) |
| `Detector.PrimaryFace` | src/components/Detector.jsx:252-257 | the selected face is one of the detections and no detection has a larger area |
| `Detector.PrimaryIndexCharacterised` | src/components/Detector.jsx:252-257 | an index is the selected one if and only if it is the first index of a largest face |
| `Detector.TieKeepsEarlier` | src/components/Detector.jsx:253-256 | of two faces with equal area, the first is selected, because the comparison is strict |
| `Detector.CropFor` | src/components/Detector.jsx:266-277 | the crop never leaves the frame (0 ≤ x, x + width ≤ frame width, likewise vertically), is at most the box plus 2·20 in each dimension, and starts exactly at the padded corner when that lies inside the frame, and exactly at 0 where it lies left of or above the frame |
| `Detector.InteriorCropIsExact` | src/components/Detector.jsx:267-277 | a box at least 20 px from every frame edge gives exactly (x−20, y−20, w+40, h+40) |
| `Detector.CropExample` | src/components/Detector.jsx:267-277 | a 400×400 frame and box (100,100,50,50) give crop (80,80,90,90) |
| `Detector.LeftClampKeepsWidth` | src/components/Detector.jsx:268-273 | near the left edge the crop window is shifted, not cut: it starts at 0 and keeps the full padded width when that fits, so it ends 20 − x px past the padded box's right edge (a box at x = 5, w = 50 gives a crop ending at 90, not 75) |
| `Detector.RightClampCutsWidth` | src/components/Detector.jsx:268-273 | near the right edge the crop keeps its left padding and is cut to end at the frame edge |
| `Detector.CropCoversPaddedBox` | src/components/Detector.jsx:268-277 | the crop reaches at least to the padded box's right and bottom edges, or to the frame's edge if that is nearer |
| `Detector.DegenerateIff` | src/components/Detector.jsx:279-282 | `IsDegenerate`, the test at line 279 that the crop has no width or no height, holds exactly when the frame ends at or before the clamped corner, or the padded box size is not positive |
| `Detector.Cycle` | src/components/Detector.jsx:199-313 | the outcome of a cycle the throttle let through is never `Throttled` |
| `Detector.SubmittedIff` | src/components/Detector.jsx:305-309 | the callback receives a crop exactly when there is a face, a canvas and a callback, the primary face's crop is not degenerate, it encodes, and its encoding differs from the last one; it receives that encoding |
| `Detector.NoFaceNoCrop` | src/components/Detector.jsx:211 | with no detections the cycle selects nothing and crops nothing |
| `Detector.RepeatedCropIsDuplicate` | src/components/Detector.jsx:305-306 | the same crop offered right after it was handed over is suppressed |
| `Detector.StopsOnlyOnDegenerateCrop` | src/components/Detector.jsx:279-321 | a cycle skips the reschedule exactly when the primary face's crop is degenerate |
| `Detector.DetectionLoop.constructor` | src/components/Detector.jsx:168-171 | the loop starts with last detection time 0 and no previous crop |
| `Detector.DetectionLoop.Tick` | src/components/Detector.jsx:173-322 | a tick less than 300 ms after the last detection changes nothing and reschedules; otherwise it records `now`, sets the face count when the detector returned faces (keeping it when the detector failed) and has the outcome of `Cycle`; the last crop changes exactly when the callback is called, to the crop it receives |
| `Detector.ThrottleScenario` | src/components/Detector.jsx:175-181 | on a fresh loop seeing no face, ticks at T+300, T+599 and T+600: the first and last do detection work, the middle one is throttled, and each asks for the next tick |
| `Decimal.NatToString` | src/App.jsx:43 | the status renders as a non-empty string of digits without a leading zero |
| `Decimal.NatToStringRoundTrip` | src/App.jsx:43 | reading the rendered digits back gives the status |
| `Decimal.NatToStringInjective` | src/App.jsx:43 | different statuses render differently |
| `Wrappers.OrElse` | src/App.jsx:53-59 | the string-or-default idiom gives the string when it is non-empty and the fallback otherwise |
| `App.Percent` | src/App.jsx:54 | a missing confidence gives 0; a confidence in [0,1] gives a percentage in [0,100] |
| `App.Classify` | src/App.jsx:36-70 | a reply fails exactly on an exception, a failure status or a truthy body `error`; every failure has a non-empty message, which is the body's `error` text or the exception's message, else "Prediction failed"; a success takes its emotion from `emotion` and its history row from `label` (each defaulting to "Unknown"), with the same percentage for both |
| `App.EmotionOnlyReply` | src/App.jsx:53-60 | the reply `{"confidence":0.82,"emotion":"happy"}` shows "happy" at 82%, and its history row reads "Unknown" at 82 |
| `App.NotOkMessage` | src/App.jsx:38-43 | the message `ServerMessage` builds, and `Classify` gives for a failure status, is "Server returned " and the status, followed by ": " and the error text exactly when the body has a truthy `error` |
| `App.NotOkMessageInjective` | src/App.jsx:43 | failure messages without error text identify the status |
| `App.PushHistory` | src/App.jsx:57-64 | the new history starts with the new entry, continues with the old history in order, and has length min(old + 1, 10) |
| `App.HistoryNewestFirst` | src/App.jsx:57-64 | from an empty history, a run of successes leaves the last min(n, 10) results, newest first |
| `App.OldestEvicted` | src/App.jsx:63 | after eleven or more distinct results the first one is no longer in the history |
| `App.EmotionPanel.constructor` | src/App.jsx:6-11 | the initial state: last sent 0, "No emotion detected yet", confidence 0, empty history, no error, not loading |
| `App.EmotionPanel.Submit` | src/App.jsx:20-27 | a call less than 700 ms after the last accepted one changes nothing; otherwise `lastSent` becomes `now` even for an empty crop; a request goes out exactly for a non-empty crop, with `isLoading` set and the error cleared |
| `App.EmotionPanel.Settle` | src/App.jsx:29-73 | a success sets emotion and confidence and prepends one entry to the history; a failure sets "Error", confidence 0 and the message, and leaves the history unchanged; `isLoading` ends false |
| `App.EmotionPanel.HandleFaceCropped` | src/App.jsx:17-78 | a dropped call changes nothing but possibly `lastSent`; an accepted non-empty call ends not loading, with a success's emotion, confidence and history and no error, or with a failure's "Error" state and message |
| `App.RateLimitScenario` | src/App.jsx:20-22 | crops at T, T+500 and T+750: the first and last are sent, the middle one is dropped |
| `App.EmptyCropScenario` | src/App.jsx:20-24 | an empty crop in an open slot blocks a real crop 100 ms later, and nothing reaches the history |

## Left out

- Model loading, camera acquisition and device enumeration, the video listeners, the 10 s start timeout and track stopping: browser and device I/O.
- The face detector itself and its options (input size 320, score threshold 0.5): a foreign library; its output is an input value.
- Canvas sizing and clearing, overlay drawing, labels and scores: rendering.
- The JPEG encoding at quality 0.9: an opaque encoder, passed in as a function. The model does not capture that the crop canvas has integer dimensions, so a crop narrower than one pixel gives an empty image to the encoder.
- `fetch`, the request body and JSON parsing: network I/O, replaced by the `Response` value. A body that is not an object, an `error`, `emotion` or `label` that is not a string, or a `confidence` that is not a number, is not modelled.
- `requestAnimationFrame`, `cancelAnimationFrame` and the effect's cleanup: scheduling is modelled only as the `Reschedules()` flag of a tick's outcome.
- `Date.now()`: the clock is the `now` parameter.
- Overlapping requests and late replies: concurrency; replies are applied one at a time in arrival order, and `Submit`/`Settle` can be interleaved by a caller.
- `toFixed(1)`, the percent display, NaN confidences and `toLocaleTimeString`: floating-point formatting and locale text.
- `App.HistoryEntry` does not carry the entry's time of day, because that is only a locale string for display.
- `App.Percent`: the history row stores the confidence as a number, not the string `toFixed(1)` makes of it.
- Floating-point arithmetic: areas, clamping and the confidence scaling are computed exactly on Dafny `real`s, so rounding in IEEE doubles, and near-ties in the area comparison that rounding could create or break, is not modelled.
- Logging with `console.*`: it has no effect on state.
- React rendering, the device selector, `toggleDetection` and `retryCamera`: UI glue.
- `Detector.DetectionLoop.constructor`: it sets the face counter to 0. In the component the counter is state that survives a restart of the loop; the constructor models the first start only.
