# CircleRectScreenView scale state, in Dafny

This project models the animation core of `CircleRectScreenView.kt`: the
per-node state machine `CircleRectScreenView.State` and the scale-splitting
helpers `Int.inverse`, `Float.maxScale` and `Float.divideScale`.

`State` holds `scale` (the drawn progress), `dir` (0 while idle, +1 or -1
while animating) and `prevScale` (the resting value, 0 or 1).
`startUpdating` arms an idle state by pointing `dir` away from its resting
value. Each `update` moves `scale` by the fixed step `scGap = 0.01`; once
`scale` is more than one unit from `prevScale` it snaps onto the opposite end,
goes idle, commits that end as the new resting value and reports it.

Modelling choices:

- Kotlin `Float` is modelled as an exact Dafny `real`, and `scGap` is exactly 0.01.
- The callbacks become returned values. `update` yields a `Stepped` value whose `arrived` field is `Some(v)` exactly when the callback would be called with `v`. `startUpdating` yields a `Started` value whose `started` flag says whether its callback fired.
- Repeated calls are modelled by `StateRuns.Run`, which performs `k` updates and collects every reported value in order.

Files:

- `wrappers.dfy`: the `Option` type that stands in for a callback that may or may not fire.
- `scale_math.dfy`: module `ScaleMath`, the helpers `inverse`, `maxScale` and `divideScale`.
- `scale_state.dfy`: module `ScaleState`, holding `scGap`, `State`, `update`, `startUpdating` and the invariant `Valid`, which holds in every state reachable from the defaults.
- `state_runs.dfy`: module `StateRuns`, covering sequences of updates, the arrival on the 101st update and the toggle round trip.

## Model

| member | source | states |
|---|---|---|
| ScaleState.Update | circlerectscreenview/src/main/java/com/anwesh/uiprojects/circlerectscreenview/CircleRectScreenView.kt:76-84 | On arrival, `update` sets `scale` to `prevScale + dir`, clears `dir`, commits the new end as `prevScale` and reports it; otherwise only `scale` moves, by `dir * scGap`. Arrival happens exactly when the stepped value is more than one unit from `prevScale`. `Valid` states stay `Valid`, an arrival from one reports `1 - prevScale`, and an idle `Valid` state is left unchanged with nothing reported. |
| ScaleState.StartUpdating | circlerectscreenview/src/main/java/com/anwesh/uiprojects/circlerectscreenview/CircleRectScreenView.kt:86-91 | The callback fires exactly when `dir == 0`. While animating, nothing changes. When it starts, only `dir` changes, to `1 - 2 * prevScale`. `Valid` states stay `Valid`, and from rest the direction is +1 at 0 and -1 at 1. |
| ScaleState.InitialResting | circlerectscreenview/src/main/java/com/anwesh/uiprojects/circlerectscreenview/CircleRectScreenView.kt:74 | The all-zero defaults are an idle `Valid` state resting on 0. |
| ScaleState.ValidBounds | circlerectscreenview/src/main/java/com/anwesh/uiprojects/circlerectscreenview/CircleRectScreenView.kt:74-91 | In every `Valid` state (which includes every state reachable from the defaults), `scale` lies in [0, 1] and `dir` is -1, 0 or +1. |
| StateRuns.RunIdle | circlerectscreenview/src/main/java/com/anwesh/uiprojects/circlerectscreenview/CircleRectScreenView.kt:76-84 | Any number of updates on an idle `Valid` state change nothing and report nothing. |
| StateRuns.RunInvariant | circlerectscreenview/src/main/java/com/anwesh/uiprojects/circlerectscreenview/CircleRectScreenView.kt:76-84 | Across any number of updates from a `Valid` state, the state stays `Valid` and the callback fires at most once. It fires exactly when an animating state comes to rest. It reports the opposite end `1 - prevScale`, which becomes the new `prevScale`. |
| StateRuns.StepAlong | circlerectscreenview/src/main/java/com/anwesh/uiprojects/circlerectscreenview/CircleRectScreenView.kt:77-78 | An armed state fewer than 100 steps along moves exactly one `scGap` further per update without reporting. |
| StateRuns.ArmedRun | circlerectscreenview/src/main/java/com/anwesh/uiprojects/circlerectscreenview/CircleRectScreenView.kt:76-84 | After `k <= 100` updates, an armed state has `scale = prevScale ± k * scGap`, with `dir` and `prevScale` unchanged and nothing reported. |
| StateRuns.RunSplit | circlerectscreenview/src/main/java/com/anwesh/uiprojects/circlerectscreenview/CircleRectScreenView.kt:76-84 | `j + k` updates are `j` updates followed by `k` more, with the reported values concatenated in order. |
| StateRuns.RunLast | circlerectscreenview/src/main/java/com/anwesh/uiprojects/circlerectscreenview/CircleRectScreenView.kt:76-84 | `k + 1` updates are `k` updates followed by one more. |
| StateRuns.AlongToEnd | circlerectscreenview/src/main/java/com/anwesh/uiprojects/circlerectscreenview/CircleRectScreenView.kt:78-82 | After 100 steps an armed state sits exactly on the opposite end. The next update moves it 1.01 from `prevScale`, so it snaps back onto that end, goes idle and reports it. |
| StateRuns.ArmedArrives | circlerectscreenview/src/main/java/com/anwesh/uiprojects/circlerectscreenview/CircleRectScreenView.kt:76-84 | An armed state still at its resting value is still animating after `n = 100` updates, with nothing reported. After `n + 1` updates it rests on `prevScale + dir` and has reported that value once. |
| StateRuns.ArrivesOnUpdate101 | circlerectscreenview/src/main/java/com/anwesh/uiprojects/circlerectscreenview/CircleRectScreenView.kt:76-84 | After `startUpdating` from rest, nothing is reported within 100 updates. The 101st update arrives at `1 - prevScale`, reports it exactly once and leaves the node at rest there. |
| StateRuns.ReportsOnce | circlerectscreenview/src/main/java/com/anwesh/uiprojects/circlerectscreenview/CircleRectScreenView.kt:76-91 | For any number `k >= 101` of updates after `startUpdating` from rest, the node rests on `1 - prevScale` and the arrival callback has fired exactly once. |
| StateRuns.ToggleFlips | circlerectscreenview/src/main/java/com/anwesh/uiprojects/circlerectscreenview/CircleRectScreenView.kt:76-91 | A full toggle from rest (`startUpdating`, then 101 updates) ends at rest on the other end. |
| StateRuns.ToggleTwiceRestores | circlerectscreenview/src/main/java/com/anwesh/uiprojects/circlerectscreenview/CircleRectScreenView.kt:76-91 | Two full toggles return a resting state to exactly where it started: 0 to 1 to 0, or 1 to 0 to 1. |
| ScaleMath.Inverse | circlerectscreenview/src/main/java/com/anwesh/uiprojects/circlerectscreenview/CircleRectScreenView.kt:23 | `inverse` of a non-zero `n` is its reciprocal: times `n` it gives 1, and it has the sign of `n`. |
| ScaleMath.MaxScale | circlerectscreenview/src/main/java/com/anwesh/uiprojects/circlerectscreenview/CircleRectScreenView.kt:24 | `maxScale` is never negative and never below `s - i / n`, and it equals one of these two values. |
| ScaleMath.MaxScaleZeroBeforeSlot | circlerectscreenview/src/main/java/com/anwesh/uiprojects/circlerectscreenview/CircleRectScreenView.kt:24 | For `n > 0`, `maxScale(s, i, n)` is zero exactly when `n * s <= i`, that is, before slot `i` starts. |
| ScaleMath.DivideScale | circlerectscreenview/src/main/java/com/anwesh/uiprojects/circlerectscreenview/CircleRectScreenView.kt:25 | For `n > 0`, `divideScale` lies in [0, 1]. For `n < 0`, it is always 1. |
| ScaleMath.DivideScaleIsClamp | circlerectscreenview/src/main/java/com/anwesh/uiprojects/circlerectscreenview/CircleRectScreenView.kt:23-25 | For `n > 0`, `divideScale(s, i, n)` equals `n * s - i` clamped into [0, 1]. It is 0 before slot `i`, rises linearly across the slot and is 1 after it. |
| ScaleMath.DivideScaleMonotone | circlerectscreenview/src/main/java/com/anwesh/uiprojects/circlerectscreenview/CircleRectScreenView.kt:23-25 | `divideScale` never decreases as `s` grows, for every non-zero `n`. |

## Left out

- Float rounding: `Float` arithmetic is modelled exactly, and `ArrivesOnUpdate101` is proved for exact arithmetic only. In IEEE-754 single precision, adding `0.01f` does not hit the exact multiples of 0.01, but the arrival still comes on the 101st update in both directions: going up from 0, `scale` is about 1.0099994 after 101 steps; going down from 1, it is about -0.0099993.
- ScaleMath.Inverse: requires `n != 0`. In the source, `1f / 0` is +Infinity. Non-finite values are not modelled, and the only call site (line 42) passes `n = 2`.
- ScaleMath.MaxScale: requires `n != 0`. For `n = 0` the source computes `i * Infinity`: with `i = 0` the result is NaN, with `i < 0` it is +Infinity, and with `i > 0` it is 0. None of these cases is modelled.
- ScaleMath.DivideScale: requires `n != 0`. For `n = 0` the source gives NaN when `i = 0` or `i < 0` (from `0 * Infinity` and `Infinity * 0`), and 0 when `i > 0`. None of these cases is modelled.
- The Android `View` subclass and its `onDraw` and `onTouchEvent`: their bodies are empty, so there is no behaviour to model.
- The canvas helpers `drawRectScreen`, `drawCircleRect`, `drawCircleRectScreen` and `drawCRSNode` are left out. They only call graphics primitives (path clipping, translation, rectangles, colour parsing). The local `w` in `drawRectScreen` is never used.
- The presentation constants `colors`, `backColor`, `delay` and `sizeFactor` have no logic and are left out.
- `MainActivity.kt` only does Android lifecycle and full-screen window setup. It calls `CircleRectScreenView.create`, which is not defined in the source.
- No node chain, traversal, frame timer, or tap and draw logic exists in CircleRectScreenView.kt: `onDraw` and `onTouchEvent` (lines 61-72) have empty bodies, so there is nothing of that kind to model.
