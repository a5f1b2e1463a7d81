/** `setRequestTimeout` and `clearRequestTimeout`: a one-shot delay that
    polls once per frame (or per fallback tick) until the time elapsed since
    a start reading taken once reaches the delay, then runs the function once. */
module DelayedInvoker {
  import opened Host

  /** What the `loop` closure of one `setRequestTimeout` call captured. The
      context it calls `fn` with is not modelled: the model calls it with `undefined`. */
  datatype Captured = Captured(fn: Fn, delay: int, args: seq<Value>, start: int)

  /** The default parameter `delay = 0`. */
  function DefaultDelay(delay: Option<int>): int
  {
    match delay
    case None => 0
    case Some(d) => d
  }

  /** `now - start >= delay`. */
  predicate Due(c: Captured, now: int)
  {
    now - c.start >= c.delay
  }

  /** `handle.value` and the host after a step. */
  datatype Progress = Progress(value: nat, host: HostState)

  /** The next poll of `o`, requested with the primitive the capability probe picks. */
  function Schedule(h: HostState, hasFrame: bool, o: object): Issued
  {
    if hasFrame then RequestFrame(h, Poll(o)) else SetTimeout(h, Poll(o))
  }

  /** The body of `setRequestTimeout` after the start reading: the first poll
      is requested and its id stored in the handle; nothing runs. */
  function StartStep(h: HostState, hasFrame: bool, o: object): Progress
  {
    var i := Schedule(h, hasFrame, o);
    Progress(i.id, i.host)
  }

  /** One run of `loop` at clock reading `now`: either `fn` runs and nothing
      is requested, or the next poll is requested and its id overwrites the
      handle's value. */
  function LoopStep(c: Captured, value: nat, h: HostState, hasFrame: bool, o: object, now: int): Progress
  {
    if Due(c, now) then Progress(value, Invoke(h, Invocation(c.fn, Undefined, c.args)))
    else
      var i := Schedule(h, hasFrame, o);
      Progress(i.id, i.host)
  }

  /** `clearRequestTimeout(handle)`, where `handle` is `None` for null or
      undefined and otherwise the handle's value. */
  function ClearStep(h: HostState, hasFrame: bool, handle: Option<nat>): HostState
  {
    match handle
    case None => h
    case Some(v) => if hasFrame then CancelFrame(h, v) else ClearTimeout(h, v)
  }

  /** The poll of `o` pending at `value`, if any. */
  function PendingPoll(h: HostState, o: object, value: nat): Option<Request>
  {
    if value in h.frames && h.frames[value] == Poll(o) then Some(FrameRequest(value))
    else if value in h.timers && h.timers[value] == Poll(o) then Some(TimerRequest(value))
    else None
  }

  /** A delayed invocation `o` that has not run yet: exactly one request of
      `o` is pending, a poll, at the handle's value. */
  predicate Live(value: nat, h: HostState, o: object)
  {
    && h.Valid()
    && ((FramesOf(h, o) == map[value := Poll(o)] && TimersOf(h, o) == map[])
        || (TimersOf(h, o) == map[value := Poll(o)] && FramesOf(h, o) == map[]))
  }

  /** The host after some polls, and how many polls ran. */
  datatype Run = Run(progress: Progress, polls: nat)

  /** The event loop with a fixed capability: each clock reading is one run
      of the handle's pending poll, until none is pending. */
  function RunPolls(c: Captured, value: nat, h: HostState, hasFrame: bool, o: object, readings: seq<int>): Run
    decreases |readings|
  {
    if readings == [] then Run(Progress(value, h), 0)
    else
      match PendingPoll(h, o, value)
      case None => Run(Progress(value, h), 0)
      case Some(req) =>
        var p := LoopStep(c, value, Deliver(h, req), hasFrame, o, readings[0]);
        var r := RunPolls(c, p.value, p.host, hasFrame, o, readings[1..]);
        Run(r.progress, r.polls + 1)
  }

  /** The index of the first reading at which the delay has elapsed. */
  function FirstDue(c: Captured, readings: seq<int>): (r: Option<nat>)
    decreases |readings|
    ensures r.Some? ==> r.value < |readings| && Due(c, readings[r.value])
    ensures r.Some? ==> forall j | 0 <= j < r.value :: !Due(c, readings[j])
    ensures r.None? ==> forall j | 0 <= j < |readings| :: !Due(c, readings[j])
  {
    if readings == [] then None
    else if Due(c, readings[0]) then Some(0)
    else
      match FirstDue(c, readings[1..])
      case None => None
      case Some(i) => Some(i + 1)
  }

  /** A live invocation's pending poll is the one at its value; once the
      host takes it, nothing of `o` is pending. */
  lemma LivePoll(value: nat, h: HostState, o: object)
    requires Live(value, h, o)
    ensures PendingPoll(h, o, value).Some?
    ensures Quiet(Deliver(h, PendingPoll(h, o, value).value), o)
  {
    if FramesOf(h, o) == map[value := Poll(o)] {
      assert value in FramesOf(h, o);
      OwnedRemove(h.frames, value, o);
    } else {
      assert value in TimersOf(h, o);
      OwnedRemove(h.timers, value, o);
    }
  }

  /** With nothing pending for `o`, a poll of `o` is scheduled at a fresh id
      that becomes the handle's value, and the invocation is live. */
  lemma ScheduleIsLive(h: HostState, hasFrame: bool, o: object)
    requires h.Valid() && Quiet(h, o)
    ensures var i := Schedule(h, hasFrame, o);
      && Live(i.id, i.host, o) && i.host.log == h.log
      && (hasFrame ==> i.id > h.lastFrame && i.id in FramesOf(i.host, o))
      && (!hasFrame ==> i.id > h.lastTimer && i.id in TimersOf(i.host, o))
  {
    var i := Schedule(h, hasFrame, o);
    if hasFrame {
      OwnedAddMine(h.frames, i.id, Poll(o), o);
    } else {
      OwnedAddMine(h.timers, i.id, Poll(o), o);
    }
  }

  /** `setRequestTimeout` never runs `fn` synchronously: it only schedules
      the first poll, which is then the one request pending for the handle. */
  lemma StartSchedulesFirstPoll(h: HostState, hasFrame: bool, o: object)
    requires h.Valid() && Quiet(h, o)
    ensures var p := StartStep(h, hasFrame, o);
      p.host.log == h.log && Live(p.value, p.host, o)
  {
    ScheduleIsLive(h, hasFrame, o);
  }

  /** A poll before the delay has elapsed runs nothing and overwrites the
      handle's value with the id of the newest request, the only one pending. */
  lemma RescheduleOverwritesValue(c: Captured, value: nat, h: HostState, hasFrame: bool, o: object, now: int)
    requires h.Valid() && Quiet(h, o) && !Due(c, now)
    ensures var p := LoopStep(c, value, h, hasFrame, o, now);
      && p.host.log == h.log && Live(p.value, p.host, o)
      && (hasFrame ==> p.value > h.lastFrame) && (!hasFrame ==> p.value > h.lastTimer)
  {
    ScheduleIsLive(h, hasFrame, o);
  }

  /** A poll once the delay has elapsed runs `fn` once and requests nothing more. */
  lemma DuePollRunsOnce(c: Captured, value: nat, h: HostState, hasFrame: bool, o: object, now: int)
    requires Quiet(h, o) && Due(c, now)
    ensures var p := LoopStep(c, value, h, hasFrame, o, now);
      p.host.log == h.log + [Invocation(c.fn, Undefined, c.args)] && Quiet(p.host, o)
  {
  }

  /** Exactly once: over any sequence of clock readings, `fn` runs at the
      first poll whose reading is at least `delay` after the start, exactly
      once, and no poll runs after it; if no reading gets there, nothing runs
      and the invocation is still live. */
  lemma {:induction false} ExactlyOnce(c: Captured, value: nat, h: HostState, hasFrame: bool, o: object, readings: seq<int>)
    requires Live(value, h, o)
    decreases |readings|
    ensures var r := RunPolls(c, value, h, hasFrame, o, readings);
      match FirstDue(c, readings)
      case Some(i) =>
        && r.polls == i + 1
        && r.progress.host.log == h.log + [Invocation(c.fn, Undefined, c.args)]
        && Quiet(r.progress.host, o)
      case None =>
        && r.polls == |readings|
        && r.progress.host.log == h.log
        && Live(r.progress.value, r.progress.host, o)
  {
    if readings != [] {
      LivePoll(value, h, o);
      var req := PendingPoll(h, o, value).value;
      var h0 := Deliver(h, req);
      var p := LoopStep(c, value, h0, hasFrame, o, readings[0]);
      if Due(c, readings[0]) {
        DuePollRunsOnce(c, value, h0, hasFrame, o, readings[0]);
        QuietStops(c, p.value, p.host, hasFrame, o, readings[1..]);
      } else {
        RescheduleOverwritesValue(c, value, h0, hasFrame, o, readings[0]);
        ExactlyOnce(c, p.value, p.host, hasFrame, o, readings[1..]);
      }
    }
  }

  /** Once nothing of `o` is pending, no poll of `o` runs again. */
  lemma QuietStops(c: Captured, value: nat, h: HostState, hasFrame: bool, o: object, readings: seq<int>)
    requires Quiet(h, o)
    ensures RunPolls(c, value, h, hasFrame, o, readings) == Run(Progress(value, h), 0)
  {
    assert value !in FramesOf(h, o) && value !in TimersOf(h, o);
  }

  /** With the default delay and a clock that does not run backwards, the very
      first poll runs `fn`, with elapsed time 0 or more. */
  lemma DefaultDelayFiresAtFirstPoll(fn: Fn, args: seq<Value>, value: nat, h: HostState, hasFrame: bool, o: object, start: int, readings: seq<int>)
    requires Live(value, h, o) && |readings| > 0 && readings[0] >= start
    ensures var r := RunPolls(Captured(fn, DefaultDelay(None), args, start), value, h, hasFrame, o, readings);
      r.polls == 1 && r.progress.host.log == h.log + [Invocation(fn, Undefined, args)]
  {
    var c := Captured(fn, DefaultDelay(None), args, start);
    assert FirstDue(c, readings) == Some(0);
    ExactlyOnce(c, value, h, hasFrame, o, readings);
  }

  /** `clearRequestTimeout` on a null or undefined handle does nothing. */
  lemma ClearAbsentIsNoOp(h: HostState, hasFrame: bool)
    ensures ClearStep(h, hasFrame, None) == h
  {
  }

  /** `clearRequestTimeout` under the capability the pending poll was made
      with withdraws it, so `fn` never runs afterwards, whatever the clock says. */
  lemma ClearStopsLoop(c: Captured, value: nat, h: HostState, hasFrame: bool, o: object, readings: seq<int>)
    requires Live(value, h, o)
    requires hasFrame <==> value in FramesOf(h, o)
    ensures var h' := ClearStep(h, hasFrame, Some(value));
      && h'.log == h.log && Quiet(h', o)
      && RunPolls(c, value, h', hasFrame, o, readings) == Run(Progress(value, h'), 0)
  {
    var h' := ClearStep(h, hasFrame, Some(value));
    if hasFrame {
      OwnedRemove(h.frames, value, o);
    } else {
      assert value in TimersOf(h, o);
      OwnedRemove(h.timers, value, o);
    }
    QuietStops(c, value, h', hasFrame, o, readings);
  }

  /** `clearRequestTimeout` probes the capability again: if the pending poll
      is a timer but frames are available now, it cancels a frame id instead
      and the poll stays pending. */
  lemma ClearAfterCapabilityChangeMisses(value: nat, h: HostState, o: object)
    requires Live(value, h, o) && value in TimersOf(h, o)
    ensures Live(value, ClearStep(h, true, Some(value)), o)
  {
    var h' := ClearStep(h, true, Some(value));
    OwnedRemove(h.frames, value, o);
    assert FramesOf(h, o) == map[];
  }

  /** The handle object returned by `setRequestTimeout`, together with what
      its `loop` closure captured. */
  class Handle {
    const fn: Fn
    const delay: int
    const args: seq<Value>
    const start: int
    var value: nat

    function Closure(): Captured
    {
      Captured(fn, delay, args, start)
    }

    constructor (fn: Fn, delay: int, args: seq<Value>, start: int)
      ensures Closure() == Captured(fn, delay, args, start) && value == 0
    {
      this.fn := fn;
      this.delay := delay;
      this.args := args;
      this.start := start;
      value := 0;
    }

    /** `loop`, run at clock reading `now`. */
    method Loop(h: HostState, hasFrame: bool, now: int) returns (h': HostState)
      modifies this
      ensures Progress(value, h') == LoopStep(Closure(), old(value), h, hasFrame, this, now)
    {
      var delta := now - start;
      if delta >= delay {
        h' := Invoke(h, Invocation(fn, Undefined, args));
      } else if hasFrame {
        var issued := RequestFrame(h, Poll(this));
        h', value := issued.host, issued.id;
      } else {
        var issued := SetTimeout(h, Poll(this));
        h', value := issued.host, issued.id;
      }
    }

    /** The host runs a pending poll of this handle at clock reading `now`. */
    method OnPoll(h: HostState, req: Request, hasFrame: bool, now: int) returns (h': HostState)
      requires req.FrameRequest? ==> req.id in h.frames && h.frames[req.id] == Poll(this)
      requires req.TimerRequest? ==> req.id in h.timers && h.timers[req.id] == Poll(this)
      modifies this
      ensures Progress(value, h') == LoopStep(Closure(), old(value), Deliver(h, req), hasFrame, this, now)
    {
      h' := Deliver(h, req);
      h' := Loop(h', hasFrame, now);
    }
  }

  /** `setRequestTimeout(fn, delay, ...args)` with `now` the start reading. */
  method SetRequestTimeout(h: HostState, hasFrame: bool, now: int, fn: Fn, delay: Option<int>, args: seq<Value>)
    returns (handle: Handle, h': HostState)
    requires h.Valid()
    ensures fresh(handle)
    ensures handle.Closure() == Captured(fn, DefaultDelay(delay), args, now)
    ensures Progress(handle.value, h') == StartStep(h, hasFrame, handle)
    ensures h'.log == h.log && Live(handle.value, h', handle)
  {
    var d := match delay case None => 0 case Some(x) => x;
    handle := new Handle(fn, d, args, now);
    assert Quiet(h, handle);
    if hasFrame {
      var issued := RequestFrame(h, Poll(handle));
      h', handle.value := issued.host, issued.id;
    } else {
      var issued := SetTimeout(h, Poll(handle));
      h', handle.value := issued.host, issued.id;
    }
    StartSchedulesFirstPoll(h, hasFrame, handle);
  }

  /** `clearRequestTimeout(handle)`; `null` stands for null and undefined alike. */
  method ClearRequestTimeout(h: HostState, hasFrame: bool, handle: Handle?) returns (h': HostState)
    ensures h' == ClearStep(h, hasFrame, if handle == null then None else Some(handle.value))
  {
    if handle == null {
      return h;
    }
    if hasFrame {
      h' := CancelFrame(h, handle.value);
      return;
    }
    h' := ClearTimeout(h, handle.value);
  }
}
