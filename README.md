# fs-poll: a verified model of libuv's polling file watcher

libuv's `uv_fs_poll_t` watches one path without kernel change notification.
It stats the path, waits on a one-shot timer, stats again, and so on. After
each stat it compares the new record with the previous one. The user callback
fires when the record changes, when the stat starts failing or changes its
error, and when it recovers.

The state lives in a heap-allocated `poll_ctx`. `uv_fs_poll_stop` does not
free it. Stop only detaches it: `parent_handle` becomes NULL, and the context
lives on until its outstanding operation completes, or for ever if Stop
cancelled an armed timer (see "Left out"). The user callback receives the
handle and may stop it from inside `poll_cb`. `poll_cb` then still arms the
timer on the detached context, and that timer's firing closes the timer and
frees the context. Neither `poll_cb` nor `timer_cb` frees a detached context
itself: they close the timer, and `timer_close_cb` frees the context. The
error callback's status is always -1, never the error code.

The model has four modules.

- `Snapshot` (`snapshot.dfy`): the stat record and `statbuf_eq`. The build
  target is a `Platform` value, which selects the comparator branch.
- `PollDecision` (`decision.dfy`): `poll_cb`'s decision for an attached
  context, as the pure function `PollStep`. It covers whether the callback
  fires, its arguments, and the new `busy_polling` and `statbuf`. Two further
  definitions sit beside it:
  - the status that `busy_polling` encodes (0 unprimed, 1 primed, `-errno`
    failing), with the abstract status machine `StatusStep` written on that
    status as an independent reference;
  - `Run`, the fold of `PollStep` over a run of stat results.
- `Schedule` (`schedule.dfy`): the drift-corrected timeout
  `interval - (now - start_time) % interval`, computed in unsigned 64-bit
  arithmetic. It also models the cycle start times it produces.
- `FsPoll` (`fs_poll.dfy`): the handle (`FsPollHandle`) and the context
  (`PollCtx`) as classes whose methods update their fields in place.
  - `Start`, `Stop` and `Close` are the handle's methods.
  - `TimerFired` is `timer_cb`, `StatCompleted` is `poll_cb`, and
    `TimerClosed` is `timer_close_cb`. `poll_cb`'s failure and success
    branches are the methods `FailedStat` and `SucceededStat`.
  - The clock (`now`) and the stat result are method inputs.
  - The timer and the stat request are the single field `pending`, so at most
    one operation is outstanding at a time.
  - The user callback is the ghost log `events`. Whether the callback stops
    its own handle is the `callbackStops` input of `StatCompleted`.
  - `PollCtx.Valid()` ties the context's real fields and its event log to
    `Run` over the ghost log `observed` of stat results. The trace lemmas of
    `PollDecision` therefore speak about the context.
    It also states that an attached context always waits on exactly a stat or
    a timer.

  `FsPollScenarios` drives whole lifecycles through these methods.

## Model

| member | source | states |
|---|---|---|
| `Snapshot.StatbufEq` | deps/uv/src/fs-poll.c:188-230 | The early-return comparator returns true iff the fields its platform compares agree. On Windows those are mtime, size and mode. Every other build compares ctime, mtime, size, mode, uid, gid, ino and dev, plus both nanosecond fields on Linux and macOS. |
| `Snapshot.StatbufEqIsEquivalence` | deps/uv/src/fs-poll.c:188-230 | On every platform the comparator is reflexive, symmetric and transitive. |
| `Snapshot.NsecComparatorIsEquality` | deps/uv/src/fs-poll.c:195-228 | On Linux and macOS two records compare equal iff they agree on every modelled field (all ten fields of `Stat`). |
| `Snapshot.ComparatorSeesContentChanges` | deps/uv/src/fs-poll.c:188-230 | On every platform, records that compare equal have the same mtime, size and mode. |
| `PollDecision.PollStep` | deps/uv/src/fs-poll.c:153-169 | `poll_cb`'s decision for an attached context. Every callback names the stored record as previous and reports a change: `busy_polling` changed, or the comparator tells the stored and the new record apart. A failure that does not call back leaves `busy_polling` and `statbuf` untouched. A success that does not call back happens only when the context was unprimed or the comparator deems the records equal. |
| `PollDecision.Decode` | deps/uv/src/fs-poll.c:153-169 | Reading `busy_polling` back as a status inverts the encoding. The result is well-coded (any failing code is positive) iff the value is at most 1. |
| `PollDecision.EncodingRoundTrip` | deps/uv/src/fs-poll.c:153-169 | Encoding a well-coded status as `busy_polling` and decoding it gives the status back. |
| `PollDecision.PollStepImplementsStatusMachine` | deps/uv/src/fs-poll.c:153-169 | For positive error codes, `poll_cb`'s integer tests make the same decision as the abstract status machine `StatusStep`: the same callback, the same next status and the same stored record. The status never returns to unprimed. |
| `PollDecision.FirstSuccessOnlyPrimes` | deps/uv/src/fs-poll.c:164-169 | The first successful stat after start never calls back. It stores the record and sets `busy_polling` to 1. |
| `PollDecision.ErrorReportedIffNewCode` | deps/uv/src/fs-poll.c:153-158 | A failed stat calls back with `(-1, stored record, zero record)` iff `busy_polling != -errno`. Afterwards `busy_polling == -errno` and the stored record is unchanged. |
| `PollDecision.RecoveryAlwaysReported` | deps/uv/src/fs-poll.c:164-166 | A successful stat after a failure always calls back with `(0, stored record, new record)`. |
| `PollDecision.Run` | deps/uv/src/fs-poll.c:140-180 | A run of stat completions produces at most one callback per completion. Every callback status is 0 or -1. |
| `PollDecision.SteadyFileIsSilent` | deps/uv/src/fs-poll.c:164-169 | Repeated stats that return the same record never call back, whether from an unprimed start or from a baseline the comparator deems equal. Afterwards the context is primed on that record. |
| `PollDecision.RepeatedErrorReportedOnce` | deps/uv/src/fs-poll.c:153-158 | Consecutive failures with one error code, starting from a state not already reporting that code, call back exactly once with the zero record. The context is left failing with that code. |
| `PollDecision.GrowDeleteRecreate` | deps/uv/src/fs-poll.c:153-169 | In this scenario a file of size 10 grows to 20, is deleted, and reappears with size 5. The callbacks are exactly (10→20), (error, 20→zero) and (20→5). |
| `Schedule.Elapsed` | deps/uv/src/fs-poll.c:176 | The unsigned 64-bit `now - start_time` equals the plain difference whenever the clock has not gone backwards. |
| `Schedule.Delay` | deps/uv/src/fs-poll.c:175-176 | The computed wait `d` satisfies `1 <= d <= interval`, and `elapsed + d` is a multiple of `interval`. |
| `Schedule.NextDelay` | deps/uv/src/fs-poll.c:174-179 | The timeout armed after a stat lies in `1..interval`, and `now - start_time + timeout` is a multiple of `interval`. |
| `Schedule.NextDelayExample` | deps/uv/src/fs-poll.c:175-176 | An interval of 100 and an elapsed time of 30 give a timeout of 70. |
| `Schedule.CycleStarts` | deps/uv/src/fs-poll.c:174-179 | With n stat latencies there are n+1 cycle starts, the first at the initial start time. |
| `Schedule.CyclesStayOnGrid` | deps/uv/src/fs-poll.c:174-179 | There is no drift: every cycle starts a whole number of intervals after the first. Each cycle starts at the first grid point strictly after the previous stat completed. |
| `FsPoll.FsPollHandle.constructor` | deps/uv/src/fs-poll.c:50-53 | A new handle is inactive and has no context. |
| `FsPoll.FsPollHandle.Start` | deps/uv/src/fs-poll.c:56-94 | On an active handle, Start returns 0 and changes nothing. On allocation failure it returns the error and the handle stays inactive. Otherwise a fresh context is attached and the handle becomes active. The context's interval is the requested one, with 0 raised to 1. Its cycle starts at `now`, `busy_polling` is 0, the record is zeroed and nothing has been observed. A stat is in flight and no timer is armed. |
| `FsPoll.FsPollHandle.Stop` | deps/uv/src/fs-poll.c:97-114 | On an inactive handle, Stop returns 0 and changes nothing. Otherwise the context is detached: `parent_handle` and `poll_ctx` become null and the handle becomes inactive. An armed timer is disarmed. An in-flight stat stays outstanding. Nothing else in the context changes. |
| `FsPoll.FsPollHandle.Close` | deps/uv/src/fs-poll.c:117-119 | Close does what Stop does, with the same contract: on an inactive handle nothing changes; otherwise the context is detached, an armed timer is disarmed, an in-flight stat stays outstanding, and `busy_polling`, `statbuf`, `start_time`, the logs and the freed flag are unchanged. Close does not free the context. |
| `FsPoll.PollCtx.constructor` | deps/uv/src/fs-poll.c:69-91 | The zeroed allocation holds the normalised interval, the start time and the back-reference to the handle. It has issued its first stat request. |
| `FsPoll.PollCtx.TimerFired` | deps/uv/src/fs-poll.c:122-137 | On a detached context the timer is closed, so the close callback is now pending. On an attached context `start_time := now` and the next stat is issued. No callback fires, and the invariant is kept. |
| `FsPoll.PollCtx.StatCompleted` | deps/uv/src/fs-poll.c:140-180 | On a detached context the timer is closed: no callback fires, nothing is rescheduled and the state is unchanged. On an attached context the result is appended to the observed run. The callback log, `busy_polling` and `statbuf` follow `PollStep`, and the timer is armed with `NextDelay(interval, start_time, now)`. The context ends detached exactly when the callback fired and stopped its handle; the handle is then inactive with no context, and the timer is armed on the detached context all the same. Otherwise the parent is unchanged. |
| `FsPoll.PollCtx.FailedStat` | deps/uv/src/fs-poll.c:153-160 | On an attached context, a failed stat is appended to the observed run. The callback log, `busy_polling` and `statbuf` follow `PollStep`. The context is detached exactly when the callback fired and stopped the handle. No timer is armed yet and the invariant is kept. |
| `FsPoll.PollCtx.SucceededStat` | deps/uv/src/fs-poll.c:162-169 | On an attached context, a successful stat is appended to the observed run. The callback log, `busy_polling` and `statbuf` follow `PollStep`. The context is detached exactly when the callback fired and stopped the handle. No timer is armed yet and the invariant is kept. |
| `PollDecision.RunExtend` | deps/uv/src/fs-poll.c:140-180 | One more stat completion extends a run by exactly the step `PollStep` takes from the run's final state. |
| `FsPoll.PollCtx.TimerClosed` | deps/uv/src/fs-poll.c:183-185 | This is the only place the context is freed. It runs only on a detached context whose timer is closing, and only once. Afterwards nothing is outstanding. |
| `FsPollScenarios.StopDuringStat` | deps/uv/src/fs-poll.c:147-151 | Start, then Stop while the first stat is in flight, then that stat's completion, then the close callback. No callback ever fires, and the context is freed. |
| `FsPollScenarios.StopDuringTimerWait` | deps/uv/src/fs-poll.c:107-108 | Stop while the timer is armed disarms it. Nothing is left outstanding and the context is never freed. |
| `FsPollScenarios.CallbackStopsHandle` | deps/uv/src/fs-poll.c:122-185 | The first stat fails and the callback stops its own handle. The callback fired once with the zero records, and `poll_cb` armed the timer on the now detached context. The timer's firing closes the timer, and the close callback frees the context. The handle ends inactive. |
| `FsPollScenarios.SteadyFileTwoCycles` | deps/uv/src/fs-poll.c:122-180 | Two stat/timer cycles on an unchanging file produce no callback. They leave the context primed on the record, with the timer armed and the cycle restarted at the timer's firing time. |

## Left out

- The real filesystem stat (`uv_fs_stat`, `uv_fs_req_cleanup`) is not modelled. The stat's outcome is the `res` input of `StatCompleted`.
- Event-loop internals are not modelled: `uv_now`, `uv_timer_init/start/stop`, `uv_close`, handle ref/unref and the `UV__HANDLE_INTERNAL` flag. The clock is the `now` input, and the timer and the stat request are the `pending` field.
- The `loop` and `poll_cb` pointers stored in the context are not modelled. Each call of the user callback is recorded in the ghost log `events`, without the handle argument, which is always the attached parent.
- Memory is not modelled: `calloc`, `free`, the variable-length `path[1]` and its `memcpy`. The path is an immutable string and freeing is the `freed` flag. Allocation failure is the `outOfMemory` input of `Start`.
- Start's error return value is not derived from the source. uv-common.c, where `uv__set_artificial_error` lives, is not part of this model. Start returns the constant `ArtificialError` (-1) in that case, the same failure status this file passes to the callback.
- The `abort()` paths for failing timer or stat starts are not modelled: those calls are taken to succeed.
- The `uv__set_artificial_error` call in `poll_cb` is not modelled. It only records the error on the loop, and it affects no decision.
- The `assert`s at lines 104-105 and 132 are not modelled as statements. They follow from `FsPollHandle.Valid()` and `PollCtx.Valid()`.
- `uv__fs_poll_endgame`, Windows handle-close plumbing, is not modelled.
- `busy_polling` is an unbounded integer, and `-errorno` on `INT_MIN` is not modelled. uv.h, which defines the error codes, is not part of this model. The encoding lemmas assume positive error codes. `Decode` shows the codes 0 and -1 would be confused with "unprimed" and "primed".
- There is no no-leak guarantee, because the source does not give one. When Stop runs while the timer is armed, `uv_timer_stop` disarms it. The detached branch of `timer_cb` then never runs, and the context is never freed (`StopDuringTimerWait`). The model proves "never freed while attached" and "freed only by the close callback, at most once".
- CyclesStayOnGrid: assumes each timer fires exactly when due. A late timer shifts the grid by its lateness, because `timer_cb` restarts the cycle at the actual firing time.
- `Stat` keeps only the ten fields some comparator branch reads. atime, nlink, rdev, blksize, blocks and the rest of `struct stat` are dropped, so a change to them alone is invisible here, as it is to `statbuf_eq`.
- A user callback that stops its handle and then restarts it with `uv_fs_poll_start` is not modelled. Only the stop is: `StatCompleted`'s `callbackStops`. A restart would attach a second, fresh context to the handle while the old one finishes detached.
- The callback's stop is applied after `poll_cb`'s writes to `busy_polling` and `statbuf` rather than between the callback and those writes. Those writes do not read `parent_handle`, so the resulting state is the same.
