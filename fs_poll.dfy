/** The polling file watcher: a handle the user starts and stops, and the
    poll context it owns while active. The context alternates between one
    stat request and one one-shot timer; stopping the handle detaches the
    context, which lives on until its outstanding operation completes, or
    for ever if Stop cancelled an armed timer. The user callback may itself
    stop the handle while poll_cb runs; the timer is then armed on a detached
    context, and its firing closes the timer and frees the context.

    The clock and the stat result are inputs of the completion methods; the
    user callback is recorded as a ghost log of events. */
module FsPoll {
  import opened Snapshot
  import opened PollDecision
  import opened Schedule

  /** The one asynchronous operation a context waits for. */
  datatype Pending =
    | StatPending               // a stat request is in flight
    | TimerPending(delay: u64)  // the timer is armed with this timeout
    | ClosePending              // the timer is being closed; timer_close_cb follows
    | Idle                      // nothing outstanding

  /** What uv__set_artificial_error hands back to uv_fs_poll_start's caller. */
  const ArtificialError := -1

  /** A uv_fs_poll_t handle. */
  class FsPollHandle {
    /** The build the loop runs on; it selects the comparator. */
    const platform: Platform
    /** Whether the handle is active (uv__is_active). */
    var active: bool
    /** handle->poll_ctx */
    var ctx: PollCtx?

    /** The handle owns a live, attached context exactly while it is active. */
    ghost predicate Valid()
      reads this, ctx
    {
      && (active <==> ctx != null)
      && (ctx != null ==> ctx.parent == this && ctx.platform == platform && ctx.Valid())
    }

    /** uv_fs_poll_init: an inactive handle with no context. */
    constructor (platform: Platform)
      ensures Valid()
      ensures this.platform == platform && !active && ctx == null
    {
      this.platform := platform;
      active := false;
      ctx := null;
    }

    /** uv_fs_poll_start. On an active handle it returns 0 and changes
        nothing; when the context cannot be allocated it fails and the handle
        stays inactive; otherwise a fresh context is attached, with the
        interval raised to at least 1, the cycle started at `now`, nothing
        observed yet, and the first stat request in flight (no timer armed). */
    method Start(path: string, interval: u32, now: u64, outOfMemory: bool) returns (r: int)
      requires Valid()
      modifies this
      ensures Valid()
      ensures old(active) ==> r == 0 && unchanged(this)
      ensures !old(active) && outOfMemory ==> r == ArtificialError && unchanged(this)
      ensures !old(active) && !outOfMemory ==>
        && r == 0 && active && ctx != null && fresh(ctx)
        && ctx.path == path
        && ctx.interval == (if interval == 0 then 1 else interval)
        && ctx.startTime == now
        && ctx.busyPolling == 0 && ctx.statbuf == ZeroStat
        && ctx.pending == StatPending && !ctx.freed
        && ctx.observed == [] && ctx.events == []
    {
      if active {
        return 0;
      }
      if outOfMemory {
        return ArtificialError;
      }
      var c := new PollCtx(this, path, if interval == 0 then 1 else interval, now, platform);
      ctx := c;
      active := true;
      r := 0;
    }

    /** uv_fs_poll_stop. On an inactive handle it returns 0 and changes
        nothing. Otherwise it detaches the context for good, disarms its
        timer if armed (an in-flight stat cannot be cancelled and stays
        outstanding), clears handle->poll_ctx and deactivates the handle. */
    method Stop() returns (r: int)
      requires Valid()
      modifies this, ctx
      ensures Valid() && r == 0
      ensures !active && ctx == null
      ensures !old(active) ==> unchanged(this)
      ensures old(active) ==>
        var c := old(ctx);
        && c.parent == null
        && c.pending == (if old(c.pending).TimerPending? then Idle else old(c.pending))
        && c.busyPolling == old(c.busyPolling) && c.statbuf == old(c.statbuf)
        && c.startTime == old(c.startTime) && c.freed == old(c.freed)
        && c.observed == old(c.observed) && c.events == old(c.events)
        && c.Valid()
    {
      if !active {
        return 0;
      }
      var c := ctx;
      c.parent := null;
      if c.pending.TimerPending? {
        c.pending := Idle;  // uv_timer_stop
      }
      ctx := null;
      active := false;
      r := 0;
    }

    /** uv__fs_poll_close: the same as Stop; the context is not freed here. */
    method Close()
      requires Valid()
      modifies this, ctx
      ensures Valid() && !active && ctx == null
      ensures !old(active) ==> unchanged(this)
      ensures old(active) ==>
        var c := old(ctx);
        && c.parent == null
        && c.pending == (if old(c.pending).TimerPending? then Idle else old(c.pending))
        && c.busyPolling == old(c.busyPolling) && c.statbuf == old(c.statbuf)
        && c.startTime == old(c.startTime) && c.freed == old(c.freed)
        && c.observed == old(c.observed) && c.events == old(c.events)
        && c.Valid()
    {
      var _ := Stop();
    }
  }

  /** A struct poll_ctx. */
  class PollCtx {
    /** parent_handle: null once the handle was stopped or closed. */
    var parent: FsPollHandle?
    var busyPolling: int
    const interval: u32
    var startTime: u64
    var statbuf: Stat
    const path: string
    const platform: Platform
    /** The operation this context waits for; only one at a time. */
    var pending: Pending
    /** Whether timer_close_cb has released the memory. */
    var freed: bool
    /** The stat results seen while attached, in order. */
    ghost var observed: seq<StatResult>
    /** The calls of the user callback, in order. */
    ghost var events: seq<Event>

    ghost predicate Valid()
      reads this, parent
    {
      && interval >= 1
      && (parent != null ==> parent.active && parent.ctx == this && parent.platform == platform && !freed)
      && (freed ==> pending == Idle)
      && (pending == ClosePending ==> parent == null)
      && (parent != null ==> pending.StatPending? || pending.TimerPending?)
      && Run(Initial, observed, platform) == Trace(events, PollState(busyPolling, statbuf))
    }

    /** The zero-filled allocation and field set-up of uv_fs_poll_start,
        ending with the first stat request issued. */
    constructor (handle: FsPollHandle, path: string, interval: u32, now: u64, platform: Platform)
      requires interval >= 1
      ensures parent == handle && this.path == path && this.interval == interval
      ensures this.platform == platform && startTime == now
      ensures busyPolling == 0 && statbuf == ZeroStat && pending == StatPending && !freed
      ensures observed == [] && events == []
    {
      parent := handle;
      busyPolling := 0;
      this.interval := interval;
      startTime := now;
      statbuf := ZeroStat;
      this.path := path;
      this.platform := platform;
      pending := StatPending;
      freed := false;
      observed := [];
      events := [];
    }

    /** timer_cb. On a detached context the timer is closed, which leads to
        timer_close_cb. Otherwise a new cycle starts at `now` and the next
        stat request is issued. No callback fires either way. */
    method TimerFired(now: u64)
      requires Valid() && pending.TimerPending?
      modifies this
      ensures Valid()
      ensures parent == old(parent) && !freed
      ensures busyPolling == old(busyPolling) && statbuf == old(statbuf)
      ensures observed == old(observed) && events == old(events)
      ensures parent == null ==> pending == ClosePending && startTime == old(startTime)
      ensures parent != null ==> pending == StatPending && startTime == now
    {
      if parent == null {
        pending := ClosePending;  // uv_close(timer, timer_close_cb)
        return;
      }
      startTime := now;
      pending := StatPending;
    }

    /** poll_cb. On a detached context the timer is closed and nothing else
        happens. Otherwise the completion is decided by PollStep (callback,
        busy_polling, statbuf) and the timer is armed for the rest of the
        current interval, measured from the cycle's start. The callback
        receives the handle and may stop it (`callbackStops`): the context is
        then detached, yet poll_cb goes on to arm the timer on it. */
    method StatCompleted(now: u64, res: StatResult, callbackStops: bool)
      requires Valid() && pending == StatPending
      modifies this, parent
      ensures Valid() && startTime == old(startTime) && !freed
      ensures old(parent) == null ==>
        && parent == null && pending == ClosePending
        && busyPolling == old(busyPolling) && statbuf == old(statbuf)
        && observed == old(observed) && events == old(events)
      ensures old(parent) != null ==>
        var step := PollStep(PollState(old(busyPolling), old(statbuf)), res, platform);
        && observed == old(observed) + [res]
        && events == old(events) + Emitted(step.event)
        && PollState(busyPolling, statbuf) == step.next
        && pending == TimerPending(NextDelay(interval, startTime, now))
        && (parent == null <==> callbackStops && step.event.Some?)
        && (parent != null ==> parent == old(parent))
        && (parent == null ==> !old(parent).active && old(parent).ctx == null)
    {
      if parent == null {
        pending := ClosePending;  // uv_close(timer, timer_close_cb)
        return;
      }
      match res {
        case StatErr(e) => FailedStat(e, callbackStops);
        case StatOk(buf) => SucceededStat(buf, callbackStops);
      }
      pending := TimerPending(NextDelay(interval, startTime, now));
    }

    /** The failure branch of poll_cb on an attached context: the callback
        fires with the zero record unless this error is already being
        reported, and busy_polling becomes minus the error code. A callback
        that stops the handle detaches the context. */
    method FailedStat(e: int, callbackStops: bool)
      requires Valid() && parent != null && pending == StatPending
      modifies this, parent
      ensures Valid() && startTime == old(startTime) && pending == StatPending && !freed
      ensures var step := PollStep(PollState(old(busyPolling), old(statbuf)), StatErr(e), platform);
        && observed == old(observed) + [StatErr(e)]
        && events == old(events) + Emitted(step.event)
        && PollState(busyPolling, statbuf) == step.next
        && (parent == null <==> callbackStops && step.event.Some?)
        && (parent != null ==> parent == old(parent))
        && (parent == null ==> !old(parent).active && old(parent).ctx == null)
    {
      RunExtend(Initial, observed, StatErr(e), platform);
      var h := parent;
      var fired := busyPolling != -e;
      if fired {
        events := events + [Event(-1, statbuf, ZeroStat)];
        busyPolling := -e;
      }
      observed := observed + [StatErr(e)];
      if fired && callbackStops {
        // uv_fs_poll_stop from inside the callback; the writes after the
        // callback do not read parent_handle, so it is applied here
        var _ := h.Stop();
      }
    }

    /** The success branch of poll_cb on an attached context: the callback
        fires with the old and new records unless the context is unprimed or
        primed on a record the comparator deems equal; the new record is
        stored and busy_polling becomes 1. A callback that stops the handle
        detaches the context. */
    method SucceededStat(buf: Stat, callbackStops: bool)
      requires Valid() && parent != null && pending == StatPending
      modifies this, parent
      ensures Valid() && startTime == old(startTime) && pending == StatPending && !freed
      ensures var step := PollStep(PollState(old(busyPolling), old(statbuf)), StatOk(buf), platform);
        && observed == old(observed) + [StatOk(buf)]
        && events == old(events) + Emitted(step.event)
        && PollState(busyPolling, statbuf) == step.next
        && (parent == null <==> callbackStops && step.event.Some?)
        && (parent != null ==> parent == old(parent))
        && (parent == null ==> !old(parent).active && old(parent).ctx == null)
    {
      RunExtend(Initial, observed, StatOk(buf), platform);
      var h := parent;
      var fired := busyPolling != 0 && (busyPolling < 0 || !StatbufEq(platform, statbuf, buf));
      if fired {
        events := events + [Event(0, statbuf, buf)];
      }
      statbuf := buf;
      busyPolling := 1;
      observed := observed + [StatOk(buf)];
      if fired && callbackStops {
        // uv_fs_poll_stop from inside the callback, applied after the writes
        // that follow it, which do not read parent_handle
        var _ := h.Stop();
      }
    }

    /** timer_close_cb: the only place the context is freed, and it can run
        only once, on a detached context whose timer is being closed. */
    method TimerClosed()
      requires Valid() && pending == ClosePending
      modifies this
      ensures Valid()
      ensures freed && !old(freed) && pending == Idle && parent == null
      ensures busyPolling == old(busyPolling) && statbuf == old(statbuf)
      ensures startTime == old(startTime) && events == old(events) && observed == old(observed)
    {
      freed := true;
      pending := Idle;
    }
  }
}

/** Whole lifecycles driven through the handle, as a user and the event loop
    would drive them. */
module FsPollScenarios {
  import opened Snapshot
  import opened PollDecision
  import opened Schedule
  import opened FsPoll

  /** Stopping while a stat is in flight: the stat still completes, without a
      callback, and its completion closes the timer, after which the context
      is freed, once. */
  method StopDuringStat(path: string, interval: u32, t0: u64, t1: u64, res: StatResult) returns (c: PollCtx)
    ensures c.freed && c.parent == null && c.pending == Idle && c.events == []
  {
    var h := new FsPollHandle(Linux);
    var r := h.Start(path, interval, t0, false);
    c := h.ctx;
    r := h.Stop();
    c.StatCompleted(t1, res, true);
    assert c.pending == ClosePending;
    c.TimerClosed();
  }

  /** Stopping while the timer is armed: the timer is disarmed, so nothing is
      left outstanding and the context is never freed. */
  method StopDuringTimerWait(path: string, interval: u32, t0: u64, t1: u64, res: StatResult) returns (c: PollCtx)
    ensures !c.freed && c.parent == null && c.pending == Idle
  {
    var h := new FsPollHandle(Linux);
    var r := h.Start(path, interval, t0, false);
    c := h.ctx;
    c.StatCompleted(t1, res, false);
    r := h.Stop();
  }

  /** Start, a first successful stat, the timer, and a second stat seeing the
      same record: no callback, and the two waits keep the cycle on its grid. */
  method SteadyFileTwoCycles(path: string, interval: u32, buf: Stat, t0: u64, t1: u64, t2: u64, t3: u64)
    returns (c: PollCtx)
    requires t0 <= t1
    ensures c.events == [] && c.busyPolling == 1 && c.statbuf == buf
    ensures c.pending.TimerPending? && c.startTime == t2
  {
    var h := new FsPollHandle(Linux);
    var r := h.Start(path, interval, t0, false);
    c := h.ctx;
    c.StatCompleted(t1, StatOk(buf), false);
    assert c.parent == h && c.events == [] && c.observed == [StatOk(buf)];
    assert (t1 - t0 + c.pending.delay) % c.interval == 0;
    c.TimerFired(t2);
    StatbufEqIsEquivalence(Linux, buf, buf, buf);
    c.StatCompleted(t3, StatOk(buf), false);
  }

  /** The callback stops its own handle when the first stat fails: poll_cb
      still arms the timer, now on a detached context; the timer's firing
      closes it, and the close callback frees the context. */
  method CallbackStopsHandle(path: string, interval: u32, e: int, t0: u64, t1: u64, t2: u64)
    returns (h: FsPollHandle, c: PollCtx)
    requires e != 0
    ensures !h.active && h.ctx == null
    ensures c.events == [Event(-1, ZeroStat, ZeroStat)] && c.busyPolling == -e
    ensures c.freed && c.parent == null && c.pending == Idle
  {
    h := new FsPollHandle(Linux);
    var r := h.Start(path, interval, t0, false);
    c := h.ctx;
    c.StatCompleted(t1, StatErr(e), true);
    assert c.pending.TimerPending? && c.parent == null;
    c.TimerFired(t2);
    c.TimerClosed();
  }
}
