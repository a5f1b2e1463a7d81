# smart-tv-smooth-callback, modelled in Dafny

This project models the library's core scheduler from `index.ts`. It has two parts:

- **`smoothFunction` / `throttleFactory`.** Calls to the throttled function are coalesced into at most one callback invocation per animation frame, and that invocation uses the most recent context and arguments. A fallback path handles hosts without `requestAnimationFrame`: the callback runs at once, and a ~1/60 s timer then acts as a debounce window.
- **`setRequestTimeout` / `clearRequestTimeout`.** This is a one-shot delay. It polls once per frame (or per timer tick) until the time since a start reading taken once reaches the delay, and then runs the function exactly once.

The host (`window`) is abstract: module `Host` holds a value `HostState` with these parts:

- the pending frame requests, keyed by positive id, each with the task its closure runs;
- the pending timer requests, keyed the same way;
- two separate id counters, as in browsers, so one number can name a frame request and a timer request at the same time;
- a log of every callback invocation (function, `this`, arguments).

Each operation takes `hasFrame`, the result of the `"requestAnimationFrame" in window` probe, because the code repeats that probe on every call. Clock readings are parameters: one for the start of `setRequestTimeout`, and a sequence of them for a run of polls. When the host fires a request, the model calls the owning object's `OnFrame`, `OnTimer` or `OnPoll`.

The wrapper's slot (`cancelToken`, `callbackThis`, `args`) is the class `Scheduler.Wrapper`. The handle returned by `setRequestTimeout`, together with what its `loop` closure captured, is the class `DelayedInvoker.Handle`. The throttled function is the class `Throttle.Throttled`. Every method of these classes is tied by its postcondition to a pure step function of the old state and the host (`SubmitStep`, `FrameStep`, `TimerStep`, `CancelStep`, `LoopStep`, `StartStep`, `ClearStep`). The properties are lemmas about those step functions. The invariant `Scheduler.Coherent` says that a wrapper's token is 0 exactly when nothing of its own is pending, and that otherwise exactly one request of its own is pending, at the token. It is stated for a fixed capability. `DelayedInvoker.Live` and `Host.Quiet` play the same role for a delay handle.

Three details of the code are easy to misread, and the model keeps them as written:

- With frames available, `cancel` calls both `cancelAnimationFrame` and `clearTimeout` on the token. It does not pick one primitive, so it also clears any timer that happens to have the same number (`CancelAlsoClearsSameNumberedTimer`).
- The context is chosen by `arguments.length > 1`, not by whether a context was "configured". So `smooth.bind(undefined)` binds `this` to `undefined` (`ExplicitUndefinedBinds`).
- The frame closure calls the callback captured by the submit that issued the request, with the context and arguments stored when the frame fires.

## Model

| member | source | states |
|---|---|---|
| `Scheduler.Wrapper.constructor` | index.ts:28-31 | a new wrapper starts with token 0 and no context or arguments |
| `Scheduler.Wrapper.ResetCancelToken` | index.ts:33-35 | sets the token to 0 and changes nothing else |
| `Scheduler.Wrapper.Submit` | index.ts:37-57 | the new slot and host are `SubmitStep` of the old slot, the host and the capability |
| `Scheduler.Wrapper.OnFrame` | index.ts:46-49 | the host running the wrapper's frame request does what `FrameStep` says: callback with the stored context and args, then token 0 |
| `Scheduler.Wrapper.OnTimer` | index.ts:52-55 | the host running the wrapper's debounce timer does what `TimerStep` says: token 0, nothing runs |
| `Scheduler.Wrapper.Cancel` | index.ts:59-65 | slot and host become `CancelStep` of the old ones |
| `Scheduler.InitialCoherent` | index.ts:29-31 | a fresh wrapper on a host where it has nothing pending satisfies the invariant |
| `Scheduler.SubmitOverwrites` | index.ts:38-43 | every submit overwrites `callbackThis` and `args`; with a nonzero token the host is unchanged and the token kept |
| `Scheduler.SubmitWhenIdle` | index.ts:45-56 | token 0: on the frame path one fresh frame request and nothing runs; on the fallback path the callback runs with this submit's context and args, then one fresh timer |
| `Scheduler.SubmitKeepsCoherent` | index.ts:37-57 | submit preserves the one-outstanding-request invariant and leaves the token nonzero |
| `Scheduler.AtMostOneOutstanding` | index.ts:41-56 | under the invariant the pending requests of a wrapper are exactly none (token 0) or the one at the token, so at most one |
| `Scheduler.SubmitLeavesOthers` | index.ts:37-57 | a submit changes nothing pending for any other owner |
| `Scheduler.FrameBurst` | index.ts:37-49 | N >= 1 submits on the frame path run nothing and leave one frame request, with the last submit's context and args stored |
| `Scheduler.FrameCoalesces` | index.ts:45-49 | N >= 1 submits then the frame: exactly one invocation, with the last submit's context and args; afterwards token 0 and nothing pending |
| `Scheduler.FrameKeepsCoherent` | index.ts:46-49 | the only frame of the wrapper the host can run is the one at the token; it logs one call and leaves nothing pending |
| `Scheduler.FallbackBurst` | index.ts:50-56 | N >= 1 submits without frames: one synchronous call with the first submit's context and args when the token was 0, none otherwise; one timer left |
| `Scheduler.DebounceEnds` | index.ts:52-55 | the debounce timer is the one at the token; firing it runs nothing and brings the token back to 0 with nothing pending |
| `Scheduler.FireLeavesOthers` | index.ts:46-55 | the host running a wrapper's request leaves other owners' requests alone |
| `Scheduler.CancelIdempotent` | index.ts:59-65 | cancel sets the token to 0, keeps context and args, runs nothing, and a second cancel changes nothing |
| `Scheduler.CancelWithdraws` | index.ts:59-65 | under a fixed capability cancel leaves nothing of the wrapper pending, so a cancelled frame never runs the callback |
| `Scheduler.CancelLeavesOthers` | index.ts:59-65 | cancel leaves other wrappers' and handles' pending requests alone when they hold no timer while frames are available |
| `Scheduler.CancelAlsoClearsSameNumberedTimer` | index.ts:60-63 | with frames available cancel also clears the timer with the same number as the token |
| `Scheduler.FallbackCancelKeepsFrame` | index.ts:60-64 | with frames gone since the request, cancel zeroes the token and leaves the frame request pending |
| `Scheduler.TwoFrameScenario` | index.ts:37-49 | submits f(1), f(2), frame, f(3), frame: the log is exactly f(2), f(3) |
| `Throttle.AdaptIsBinding` | index.ts:76-78 | what the adapter forwards equals a plain call when no argument followed the callback, and a `bind(thisArg, ...argArray)` call otherwise |
| `Throttle.ForwardedLayout` | index.ts:78 | forwarded arguments are `argArray` followed by the call's own arguments, element by element |
| `Throttle.ContextFixedIffBound` | index.ts:76-78 | the context ignores the call site exactly when `throttleFactory` got more than one argument |
| `Throttle.ExplicitUndefinedBinds` | index.ts:72-78 | an explicit `undefined` `thisArg` binds `this` to `undefined` |
| `Throttle.Throttled.constructor` | index.ts:70-76 | `throttleFactory` captures the callback and arguments and gets a fresh wrapper in its initial state |
| `Throttle.Throttled.Call` | index.ts:77-79 | a call submits `Adapt(...)` (resolved context, callback, `argArray ++ args`) to its own wrapper and touches no other state |
| `Throttle.Throttled.Cancel` | index.ts:80 | delegates to the wrapper's cancel |
| `Throttle.Throttled.Bind` | index.ts:88 | `.bind` of a smooth function is a new `throttleFactory` around the original callback with a fresh wrapper |
| `Throttle.SmoothFunction` | index.ts:84-90 | a throttled function with no bound arguments, a fresh wrapper and the rebuilding `.bind` |
| `Throttle.BoundVariantCoalescesApart` | index.ts:75-89 | one call to a smooth function and one to a variant bound from it give two invocations, each with its own context and args |
| `DelayedInvoker.FirstDue` | index.ts:97-99 | the first reading with `now - start >= delay`: due there and at no earlier reading, or due at none |
| `DelayedInvoker.ExactlyOnce` | index.ts:96-108 | over any readings `fn` runs exactly once, at the first due poll, and no poll follows; with no due reading nothing runs and the poll stays pending |
| `DelayedInvoker.StartSchedulesFirstPoll` | index.ts:109-114 | `setRequestTimeout` runs nothing and leaves one pending poll at the handle's value |
| `DelayedInvoker.ScheduleIsLive` | index.ts:102-106 | the poll is requested with the primitive the probe picks, at a fresh id |
| `DelayedInvoker.RescheduleOverwritesValue` | index.ts:101-106 | a poll before the delay runs nothing and stores the id of the newest request, the only one pending |
| `DelayedInvoker.DuePollRunsOnce` | index.ts:99-100 | a due poll logs one call of `fn` with its args and requests nothing |
| `DelayedInvoker.QuietStops` | index.ts:99-107 | with no poll pending no further poll runs |
| `DelayedInvoker.DefaultDelayFiresAtFirstPoll` | index.ts:92-100 | with the default delay 0 and a clock not running backwards the first poll runs `fn` |
| `DelayedInvoker.ClearAbsentIsNoOp` | index.ts:118 | null or undefined handle: nothing changes |
| `DelayedInvoker.ClearStopsLoop` | index.ts:117-124 | clearing with the capability the poll was made with withdraws it and `fn` never runs |
| `DelayedInvoker.ClearAfterCapabilityChangeMisses` | index.ts:119-121 | frames available now but the poll is a timer: only `cancelAnimationFrame` is called and the poll stays pending |
| `DelayedInvoker.Handle.constructor` | index.ts:93-95 | the handle captures fn, delay, args and the start reading |
| `DelayedInvoker.Handle.Loop` | index.ts:96-108 | `loop` at reading `now` is `LoopStep` of the old handle value and host |
| `DelayedInvoker.Handle.OnPoll` | index.ts:103-105 | the host taking the pending poll and running `loop` |
| `DelayedInvoker.SetRequestTimeout` | index.ts:92-115 | fresh handle with `start` the reading at the call and `delay` defaulting to 0; result is `StartStep`, nothing ran, one poll pending |
| `DelayedInvoker.ClearRequestTimeout` | index.ts:117-124 | result is `ClearStep`: no-op on null, else cancel `handle.value` with the primitive the probe picks |

## Left out

- The clock (`nowCustom`, the `try`/`catch` around `performance.now` and `Date.now`, the unused `_now` fallback) is left out; clock readings are parameters, in whole milliseconds.
- The 1000/60 ms interval and floating-point timestamps are left out: a timer fires whenever the host chooses to run it.
- The real `window`, `requestAnimationFrame`, `setTimeout` and the event loop are replaced by `Host.HostState` and by explicit calls of `OnFrame`, `OnTimer` and `OnPoll`.
- Callbacks are opaque. Exceptions they throw, and callbacks that call back into a throttled function while it runs, are not modelled.
- The module-level `this` captured by `setRequestTimeout` is left out: the model calls `fn` with `undefined`.
- Native `Function.prototype.bind` on a throttled function that did not come from `smoothFunction` is not modelled; `Throttled.Bind` requires the replaced `.bind`.
- `handle` arguments to `clearRequestTimeout` other than a handle, null or undefined are not modelled, and neither are non-numeric `delay` values.
- The initially absent `callbackThis` and `args` of the slot are modelled as `undefined` and the empty list.
- `Scheduler.Coherent`, `FrameBurst`, `FallbackBurst`, `CancelWithdraws`: stated for a capability that stays fixed. Capability changes are allowed by every operation, but only `FallbackCancelKeepsFrame` and `ClearAfterCapabilityChangeMisses` describe them.
- `DelayedInvoker.RunPolls`, `ExactlyOnce`: a run of polls uses one capability throughout; `LoopStep` itself probes on every poll.
- TypeScript types (`Cancellable`, `WindowWithoutRAF`, `Parameters<T>`), the declaration files under `lib/` and `rollup.config.js` are left out: they are types and build configuration.
