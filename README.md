# Face presence debounce of the ML Kit live preview screen

`LivePreviewActivity` runs a face detector on every camera frame and is told, frame by
frame, how many faces it saw. From that count it derives two debounced signals:

- **face found**: the first frame with a face records `lastFaceFoundTime` and posts
  `foundFacePeriodFinishedChecker` to `mFaceFoundHandler` 3000 ms later. When it runs and
  more than 3000 − 50 ms have passed since the found time, the greeting screen starts.
- **face lost**: the first faceless frame after a face records `lastFaceLostTime` and posts
  `lostFacePeriodFinishedChecker` to `mFaceLostHandler` 500 ms later. A face seen in the
  meantime cancels it (`cancelLostFace`). When it runs and more than 500 − 50 ms have
  passed since the loss time, everything is reset (`seCancelaTodo`).

`onResume` performs the same reset. A timestamp of 0 means "unset".

The project has two modules:

- `PresenceDebounce` (`debounce.dfy`) is the specification, written as values. A
  `State` holds both timestamps and, for each handler, the due times of the posted
  checker callbacks that are still queued. The step functions are `OnSuccess`, `FireFound`,
  `FireLost`, `CancelLostFace`, `CancelAll` and `OnResume`. `Run` applies a sequence of
  events. The lemmas cover single steps and whole event sequences: the invariant, at
  most one greeting per episode, and where each timestamp comes from.
- `LivePreview` (`live_preview.dfy`) is the class `LivePreviewActivity`. Its fields are
  updated in place, the way the activity's fields are. Every method ensures that the new
  fields equal the matching step function applied to the old fields, and that the
  invariant is kept. `Scenarios` is a client that works through three timings using the
  method contracts alone.

The handler queues are modelled as sequences instead of flags. A second `postDelayed`
would therefore queue a second callback, as Android's `Handler` does. That at most one
callback of each kind is ever queued is proved (`Inv`), not assumed.

Four details of the code shape the model:

- After the found checker runs, the found time stays set and no found callback is queued.
  A face therefore never starts a second greeting until a reset.
- A lost checker that fails its time test is consumed and leaves the loss time set. No
  lost callback is then queued, so later faceless frames cannot declare the face gone
  (`EarlyLostCheckerStrandsLoss`). This needs the checker to run before its due time on
  the wall clock. That cannot happen when the event loop and the wall clock agree
  (`OnTimeCheckersPass`).
- Both time tests are strict (`>`) and subtract 50 ms from the period
  (LivePreviewActivity.java:115 and :125).
- The periods are the fixed constants 500 and 3000 (LivePreviewActivity.java:42-43).

## Model

| member | source | states |
|---|---|---|
| `PresenceDebounce.OnSuccess` | app/src/main/java/com/google/mlkit/LivePreviewActivity.java:87-104 | A face with no found time sets the found time to `now` and queues exactly one found checker, due at `now + 3000`. A face during an episode keeps the found time and the found queue, and cancels a pending loss. A face in any other case leaves the loss time and the lost queue as they were. A count ≤ 0 (negatives included) never touches the found side. After a face, with no loss pending, it sets the loss time to `now` and queues one lost checker due at `now + 500`. In every other case the state is unchanged. The invariant is kept when `now > 0`. |
| `PresenceDebounce.FireFound` | app/src/main/java/com/google/mlkit/LivePreviewActivity.java:112-120 | Delivering the found checker consumes it. It signals "start greeting" exactly when `now > lastFaceFoundTime + 3000 - 50`. It changes neither timestamp nor the lost queue, and under the invariant leaves no found checker queued. |
| `PresenceDebounce.FireLost` | app/src/main/java/com/google/mlkit/LivePreviewActivity.java:122-130 | Delivering the lost checker consumes it. It reports "gone" exactly when `now > lastFaceLostTime + 500 - 50`. Then the state is fully reset, otherwise only the consumed callback is gone. |
| `PresenceDebounce.CancelLostFace` | app/src/main/java/com/google/mlkit/LivePreviewActivity.java:138-141 | Clears the loss time and the lost queue. The found time and the found queue are untouched, and the invariant is kept. |
| `PresenceDebounce.CancelAll` | app/src/main/java/com/google/mlkit/LivePreviewActivity.java:132-136 | From any state, it leaves the machine idle: both timestamps 0 and both queues empty. |
| `PresenceDebounce.OnResume` | app/src/main/java/com/google/mlkit/LivePreviewActivity.java:166-172 | Resuming the screen leaves the machine idle, whatever the state was. |
| `PresenceDebounce.CancelAllIdempotent` | app/src/main/java/com/google/mlkit/LivePreviewActivity.java:132-141 | Resetting twice gives the same state as resetting once. |
| `PresenceDebounce.ApplyKeepsInv` | app/src/main/java/com/google/mlkit/LivePreviewActivity.java:85-141 | Every single event keeps the invariant. The invariant is: a loss time implies a found time; at most one checker of each kind is queued; a queued checker implies its timestamp is set and is due 3000 or 500 ms after it. |
| `PresenceDebounce.RunKeepsInv` | app/src/main/java/com/google/mlkit/LivePreviewActivity.java:85-141 | Every sequence of frames, checker deliveries and resumes keeps that invariant. |
| `PresenceDebounce.GreetingsWithinBudget` | app/src/main/java/com/google/mlkit/LivePreviewActivity.java:85-136 | Over any event sequence, greetings started plus the remaining budget are at most the initial budget plus the number of resets. The budget is one for a queued found checker, or one for an episode not yet opened. |
| `PresenceDebounce.GreetingAtMostOncePerEpisode` | app/src/main/java/com/google/mlkit/LivePreviewActivity.java:85-136 | From any state that satisfies the invariant, an event sequence with no reset starts at most one greeting: one episode, one greeting at most. Over any sequence, greetings are at most one more than the number of resets. |
| `PresenceDebounce.RunAppend` | app/src/main/java/com/google/mlkit/LivePreviewActivity.java:85-141 | Running `a + b` is running `a` and then `b` from the state `a` reached. Greetings and resets split the same way. |
| `PresenceDebounce.SegmentGreetsAtMostOnce` | app/src/main/java/com/google/mlkit/LivePreviewActivity.java:85-136 | Inside any longer trace, a segment with no reset starts at most one greeting, whatever came before it. Every episode greets at most once. |
| `PresenceDebounce.FlickerKeepsEpisode` | app/src/main/java/com/google/mlkit/LivePreviewActivity.java:94-101 | A faceless frame followed by a frame with a face keeps the found time and the queued found checker, and leaves no loss pending. The presence deadline is not restarted. |
| `PresenceDebounce.OnTimeCheckersPass` | app/src/main/java/com/google/mlkit/LivePreviewActivity.java:88-130 | A checker delivered at or after its due time always passes its time test. |
| `PresenceDebounce.EarlyLostCheckerStrandsLoss` | app/src/main/java/com/google/mlkit/LivePreviewActivity.java:97-130 | A lost checker that fails its time test leaves the loss time set with no lost checker queued. Every later faceless frame then leaves the state unchanged. |
| `PresenceDebounce.TimestampsHaveWitnesses` | app/src/main/java/com/google/mlkit/LivePreviewActivity.java:85-141 | Starting idle, a set found time is the time of some frame that saw a face. A set loss time is the time of a faceless frame, and no later frame saw a face. |
| `PresenceDebounce.GreetingFollowsPresence` | app/src/main/java/com/google/mlkit/LivePreviewActivity.java:89-120 | Starting idle, the greeting only starts at a time more than 2950 ms after some frame that saw a face. |
| `PresenceDebounce.GoneFollowsAbsence` | app/src/main/java/com/google/mlkit/LivePreviewActivity.java:97-130 | Starting idle, the face is only declared gone more than 450 ms after a faceless frame, with no face seen since that frame. |
| `LivePreview.LivePreviewActivity.constructor` | app/src/main/java/com/google/mlkit/LivePreviewActivity.java:50-53 | Both timestamps start at 0, no callbacks are queued, and the invariant holds. |
| `LivePreview.LivePreviewActivity.OnSuccess` | app/src/main/java/com/google/mlkit/LivePreviewActivity.java:87-104 | Updating the fields in place yields `PresenceDebounce.OnSuccess` of the old fields, and keeps the invariant. |
| `LivePreview.LivePreviewActivity.RunFoundChecker` | app/src/main/java/com/google/mlkit/LivePreviewActivity.java:112-120 | The new fields and the returned "start greeting" flag are `PresenceDebounce.FireFound` of the old fields. |
| `LivePreview.LivePreviewActivity.RunLostChecker` | app/src/main/java/com/google/mlkit/LivePreviewActivity.java:122-130 | The new fields and the returned "gone" flag are `PresenceDebounce.FireLost` of the old fields. |
| `LivePreview.LivePreviewActivity.CancelAll` | app/src/main/java/com/google/mlkit/LivePreviewActivity.java:132-136 | After the call, the fields are idle, whatever they were before. |
| `LivePreview.LivePreviewActivity.CancelLostFace` | app/src/main/java/com/google/mlkit/LivePreviewActivity.java:138-141 | Only the loss time and the lost queue change. A valid object stays valid. |
| `LivePreview.LivePreviewActivity.OnResume` | app/src/main/java/com/google/mlkit/LivePreviewActivity.java:166-172 | Resuming leaves the fields idle. |

## Left out

- Time is a `now` parameter in place of `System.currentTimeMillis()`. Frames require `now > 0`, because 0 is the "unset" value and the wall clock never reads 0.
- `Handler` scheduling is reduced to a queue of due times. When a checker runs is up to the caller of `RunFoundChecker`/`RunLostChecker`, and both may only be called while a callback is queued. The event loop's own clock (uptime) is not modelled separately from the wall clock.
- Java `long` arithmetic is modelled with unbounded integers. Wall-clock milliseconds plus 3000 cannot overflow 64 bits.
- Threading: frames and callbacks arrive one at a time on the UI thread, so each method is one atomic step.
- `startActivity` and navigation to the greeting screen are not modelled. They appear only as the returned `startGreeting` flag. All `Log` calls are left out.
- Camera plumbing is not modelled: `createCameraSource` setup, `startCameraSource`, the camera part of `onResume`, `onPause` and `onDestroy`. These are calls into `CameraSource` and `CameraSourcePreview`, which are not part of this model.
- Permission handling is not modelled: `getRequiredPermissions`, `allPermissionsGranted`, `getRuntimePermissions`, `onRequestPermissionsResult` and `isPermissionGranted`. These are wrappers over the Android permission framework.
- `FaceDetectionProcessor` is not part of this model. It appears only as the source of the `numFaces` argument.
