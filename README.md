# Pay Per Laugh: the billing and detection core

This project models the decision layer of a webcam novelty-billing demo. The app
shows a welcome screen, then a "show" during which a face-landmark model scores every
camera frame for smiling, then a receipt. Each detected laugh costs a fixed price, and
the session total is capped.

The model has three parts, over the shared definitions of `types.ts`. Module `Types`
holds those: the `LaughStats` record (count, total due, price per laugh, cap) and the
four `AppState` values.

- **The session ledger and screen state machine** (`App.tsx`). The stats record holds
  the laugh count, the amount due, the price per laugh and the cap. A laugh adds one to
  the count and sets the total to `min(count * pricePerLaugh, maxCharge)`. A reset
  rebuilds the zero record. Module `Ledger` holds the pure record update (the updater
  passed to `setStats`). Module `App` holds the class `PayPerLaugh`, whose fields
  `appState` and `stats` are the component's two state cells, and whose methods are the
  four handlers. `Dispatch` models the rendering: an event runs its handler only when
  the rendered screen holds that callback. So laughs reach the ledger only while the
  state is `Showtime`.
- **The per-frame laugh detector** (the body of `detect` in `components/Showtime.tsx`).
  This is module `LaughDetection`. Class `LaughDetector` has fields `lastLaughTime`
  (the ref, which starts at 0) and `isSmiling` (the display cell). `Detect` is one
  frame. The smile score is the mean of the first `mouthSmileLeft` and
  `mouthSmileRight` categories, and a missing one counts as 0. A frame is smiling when
  the score is strictly above the threshold. It bills a laugh only when it is smiling
  and the time since the last laugh is strictly above the cooldown. `Step` is the same
  decision as a function, and `Emissions` lists the laugh times that a run of frames
  reports.
- **The receipt's cap line** (`components/FinalReceipt.tsx`). It is shown exactly when
  `count * pricePerLaugh > maxCharge`. This is module `Receipt`.

Module `ShowSession` connects the parts. The show's detection loop feeds every reported
laugh to the app's laugh handler. A whole visit goes welcome, show, receipt.

Money is integer cents. `PRICE_PER_LAUGH`, `MAX_CHARGE`, `LAUGH_THRESHOLD` and
`COOLDOWN_PERIOD` live in `constants.ts`, which is not part of this model, so they are
parameters here. The price and the cap must be positive. The advertised values are 30
cents and 2400 cents (WelcomeScreen.tsx:21-22). The laugh threshold is a `real`, and
timestamps and the cooldown are integer milliseconds. The landmarker's per-frame result
and the clock reading `Date.now()` are inputs to each frame.

Two facts about the code shape the detector's boundary cases:

- `lastLaughTime` starts at `0` (components/Showtime.tsx:22), so a smile bills only
  once `now > COOLDOWN_PERIOD`. A smile at t = 0 ms does not bill (`SampleCooldown`).
  With real `Date.now()` readings the first smile always bills.
- Each frame's input is the landmarker's result, not a bare score. A frame with no
  face landmarks only clears the smiling flag. A face without blendshapes changes
  nothing. Otherwise the two smile categories are looked up by name among the first
  face's categories.

## Model

| member | source | states |
|---|---|---|
| `Ledger.Charge` | App.tsx:29 | the charge is at most the cap and at most `count * price`, and equals one of the two (it is their minimum) |
| `Ledger.Consistent` | App.tsx:29 | the ledger invariant `totalDue == min(count * price, cap)`; a record that keeps it owes at most the cap and at most the uncapped bill |
| `Ledger.Initial` | App.tsx:11-16 | the start-up record has count 0, total 0 and the configured price and cap, and satisfies the ledger invariant |
| `Ledger.ApplyLaugh` | App.tsx:27-35 | a laugh raises the count by exactly one, keeps the price and the cap, and leaves a record whose total is `min(newCount * price, cap)` |
| `Ledger.Laughs` | App.tsx:26-36 | `n` laughs in a row add exactly `n` to the count, keep the price and the cap, and (for `n > 0`) leave a record that keeps the invariant |
| `Ledger.ChargeMonotone` | App.tsx:29 | the capped charge does not decrease as the count grows |
| `Ledger.LaughNeverLowersTotal` | App.tsx:26-36 | from a record that keeps the invariant, a laugh never lowers the total due |
| `Ledger.LaughsShape` | App.tsx:26-36 | after `n` laughs the count has grown by `n`, the price and cap are unchanged, and the invariant holds |
| `Ledger.AfterLaughs` | App.tsx:11-36 | from the zero record, `n` laughs give exactly count `n` and total `min(n * price, cap)`, including at the boundary `n * price == cap` |
| `Ledger.LaughsMonotone` | App.tsx:26-36 | along any run of laughs the total due is non-decreasing |
| `Ledger.CapReached` | App.tsx:29 | once `n * price` reaches the cap, the total after `n` laughs is exactly the cap |
| `Ledger.SampleCap` | App.tsx:29 | at 30 cents with a 2400-cent cap: 79 laughs owe 2370, 80 owe 2400, 81 still owe 2400 |
| `App.Rendered` | App.tsx:81-95 | exactly the unused `Permissions` state renders no screen |
| `App.Wired` | App.tsx:81-95 | no callback is wired in the `Permissions` state, which renders no screen; the laugh callback is wired in the `Showtime` state and in no other |
| `App.Start` | App.tsx:10-16 | the app starts in `Idle` with count 0 and total 0, in a state that satisfies the reachability invariant (ledger invariant, configured prices, never `Permissions`, zero stats in `Idle`) |
| `App.Handle` | App.tsx:18-46 | a restart yields the start-up state whatever came before; every other handler keeps the price and cap and never lowers the count; every handler keeps the ledger invariant |
| `App.Deliver` | App.tsx:81-95 | an event either leaves the screen as it is or moves it one step along Idle, Showtime, Finished, Idle; it keeps the reachability invariant; the stats change only by a laugh during the show or by a restart |
| `App.Replay` | App.tsx:18-46 | any sequence of events from a reachable state ends in a reachable state; in the `Permissions` state, which renders no screen, no sequence of events changes anything |
| `App.LaughDelivery` | App.tsx:85-91 | a laugh event applies the ledger update in `Showtime` and changes nothing in any other state |
| `App.CountOnlyGrowsDuringShow` | App.tsx:26-46 | without a restart the laugh count never decreases; outside the show and without a start click the stats never change |
| `App.ResetForgets` | App.tsx:38-46 | the reset result does not depend on the prior state, equals the start-up state, and resetting twice equals resetting once |
| `App.PayPerLaugh.constructor` | App.tsx:10-16 | the component mounts in `Idle` with the zero record for the configured price and cap |
| `App.PayPerLaugh.StartShow` | App.tsx:18-20 | start moves to `Showtime` and leaves the stats unchanged |
| `App.PayPerLaugh.FinishShow` | App.tsx:22-24 | finish moves to `Finished` and leaves the stats unchanged |
| `App.PayPerLaugh.LaughDetected` | App.tsx:26-36 | the stats become the ledger update of the old stats: count plus one, total non-decreasing and at most the cap, screen unchanged |
| `App.PayPerLaugh.ResetShow` | App.tsx:38-46 | reset yields `Idle` with count 0, total 0 and the configured price and cap, whatever the prior stats |
| `App.PayPerLaugh.Dispatch` | App.tsx:81-95 | an event is delivered exactly when the rendered screen holds its callback; the new cells are the handler's result if delivered, otherwise unchanged |
| `LaughDetection.CategoryScore` | components/Showtime.tsx:108-109 | the score of the first category with that name, or 0 when no category has it |
| `LaughDetection.SmileScore` | components/Showtime.tsx:108-110 | the mean of the two smile scores; with the landmarker's scores in [0, 1] it is in [0, 1] |
| `LaughDetection.SmileScoreOfBoth` | components/Showtime.tsx:108-110 | wherever the two smile categories stand in the list, the smile score is the mean of the first `mouthSmileLeft` score and the first `mouthSmileRight` score |
| `LaughDetection.SmileScoreMissingLeft` | components/Showtime.tsx:108-110 | with no `mouthSmileLeft` category, the left side counts as 0, so the score is half the first `mouthSmileRight` score |
| `LaughDetection.SmileScoreMissingRight` | components/Showtime.tsx:108-110 | with no `mouthSmileRight` category, the right side counts as 0, so the score is half the first `mouthSmileLeft` score |
| `LaughDetection.SmileScoreMissingBoth` | components/Showtime.tsx:108-110 | with neither smile category, the score is 0 |
| `LaughDetection.Smiling` | components/Showtime.tsx:112 | the smiling test is strict: a score exactly at the threshold is not a smile |
| `LaughDetection.CooledDown` | components/Showtime.tsx:119 | the cooldown test is strict: an elapsed time exactly equal to the cooldown has not cooled down; from the mount state (laugh time 0) it has cooled down exactly when the clock is past the cooldown period |
| `LaughDetection.Step` | components/Showtime.tsx:103-134 | the laugh time becomes `now` on a billed frame and is unchanged on any other; a bill needs the cooldown passed and sets the smiling flag; a frame with no face bills nothing and clears the flag |
| `LaughDetection.StepLaugh` | components/Showtime.tsx:106-124 | a frame bills iff it has a scored face, the score is strictly above the threshold, and `now - lastLaughTime` is strictly above the cooldown; the laugh time becomes `now` on billing and is unchanged otherwise; on a scored face the display flag is the smiling test |
| `LaughDetection.NoFaceFrame` | components/Showtime.tsx:132-134 | a frame with no face clears the smiling flag, bills nothing, and keeps the laugh time |
| `LaughDetection.UnscoredFaceFrame` | components/Showtime.tsx:103-124 | a face without blendshapes changes neither field and bills nothing |
| `LaughDetection.StrictBoundaries` | components/Showtime.tsx:112-119 | a score equal to the threshold, or an elapsed time equal to the cooldown, bills nothing and keeps the laugh time |
| `LaughDetection.Emissions` | components/Showtime.tsx:119-137 | the laughs a run of frames bills, in order, at most one per frame |
| `LaughDetection.Final` | components/Showtime.tsx:119-137 | after a run of frames the laugh time is the initial one or the timestamp of one of the frames |
| `LaughDetection.EmissionsPerFrame` | components/Showtime.tsx:119-123 | a run of frames bills at most one laugh per frame, and ends with the laugh time of the last billed laugh (or the initial one) |
| `LaughDetection.EmissionsSpaced` | components/Showtime.tsx:119-120 | over any run of frames, each billed laugh is more than the cooldown after the previous one and the first is more than the cooldown after the initial laugh time, whatever the timestamps |
| `LaughDetection.SpacedPairwise` | components/Showtime.tsx:119-120 | the spacing property implies that consecutive billed times differ by more than the cooldown |
| `LaughDetection.FreshDetectorSpacing` | components/Showtime.tsx:22 | from the mount state (laugh time 0), the first billed laugh is at a time above the cooldown, and consecutive billed laughs are more than the cooldown apart |
| `LaughDetection.QuietFramesKeepLaughTime` | components/Showtime.tsx:132-134 | a run of no-face frames bills nothing, never moves the laugh time, and leaves the smiling flag false |
| `LaughDetection.SampleCooldown` | components/Showtime.tsx:118-120 | with threshold 0.65 and cooldown 1000 ms, a 0.9 smile seen at 0, 1001, 1500, 2001 and 2002 ms bills at 1001 and 2002 only |
| `LaughDetection.SampleThreshold` | components/Showtime.tsx:112 | a smile of exactly 0.65 does not bill; a smile of 0.6500001 does |
| `LaughDetection.LaughDetector.constructor` | components/Showtime.tsx:18-22 | the detector mounts with laugh time 0 and not smiling |
| `LaughDetection.LaughDetector.Detect` | components/Showtime.tsx:103-134 | one frame updates the two fields and reports a laugh exactly as `Step` says, at most one laugh per call |
| `Receipt.CapApplied` | components/FinalReceipt.tsx:42 | the cap-line guard `count * price > cap`; for a record that keeps the ledger invariant it holds iff the total due is below the uncapped bill |
| `Receipt.Render` | components/FinalReceipt.tsx:33-57 | the receipt shows the record's own count, unit price and total; under the ledger invariant that total is `min(count shown * price shown, cap)` |
| `Receipt.CapLineMeaning` | components/FinalReceipt.tsx:42 | under the ledger invariant: if the cap line is shown the total is the cap; if not, the total is `count * price` |
| `Receipt.CapBoundary` | components/FinalReceipt.tsx:42 | at `count * price == cap` the cap line is not shown and the total is the cap |
| `Receipt.CapAfterLaughs` | components/FinalReceipt.tsx:42 | after `n` laughs the cap line is shown iff `n * price > cap`; at 30/2400 it is not shown after 80 laughs and is shown after 81 |
| `ShowSession.ShowFrame` | components/Showtime.tsx:119-121 | one frame: the detector's new state and laugh flag are as `Step` says, and a reported laugh runs the app's laugh handler once, so the stats become the ledger update of the old stats, and otherwise stay the same |
| `ShowSession.LoopStep` | components/Showtime.tsx:103-137 | one pass of the detection loop keeps the loop's invariant: the billed laughs so far plus those still to come are the laughs of the whole run, and the stats are that many ledger updates of the stats at the start of the show |
| `ShowSession.RunShowtime` | components/Showtime.tsx:103-137 | the show's frame loop bills exactly the laughs `Emissions` lists for a fresh detector, the stats become that many ledger updates, and the billed times are more than the cooldown apart |
| `ShowSession.Visit` | App.tsx:81-95 | welcome, start, show and finish give a receipt for `n` billed laughs: count `n`, the configured price, the cap line iff `n * price > cap`, and total `min(n * price, cap)`, never above the cap |

## Left out

- MediaPipe initialisation and model loading over the network (components/Showtime.tsx:26-49): a foreign library. Each frame's landmarker result is an input instead.
- Camera acquisition and release (components/Showtime.tsx:52-80), and the error and loading overlays with their reload button: browser I/O and UI.
- The `requestAnimationFrame` scheduling and cancellation, and the early return when the video, the canvas or the landmarker is missing (components/Showtime.tsx:84, 137, 145-152): event-loop scheduling. The model makes one `Detect` call per frame, in order.
- The canvas bounding box and drawing (components/Showtime.tsx:89-101, 126-131), including the case of a missing 2-D context, which would skip the frame: presentational geometry.
- The one-second notification flash (components/Showtime.tsx:140-143): UI only. It does not touch the ledger or the detector.
- React's stale closure over `isSmiling` in `detect`: framework semantics. The model writes the current value directly.
- The `|| 0` fallback on a NaN score: reals have no NaN. A found score of 0 gives 0 either way.
- Floating-point scores and `toFixed(2)` money formatting: scores are exact reals and money is integer cents.
- The Showtime header figures (App.tsx:65-77) and the show screen's price and limit boxes: they display `stats` fields and change nothing.
- The receipt's random invoice id, its locale date, and the payment and share stubs (components/FinalReceipt.tsx:11-14, 65, 73, 80): random values, clock and alerts.
- components/WelcomeScreen.tsx: static markup with one start callback, modelled as the `StartClicked` event.
