/** The host environment the scheduler runs in, made abstract: the pending
    frame requests (requestAnimationFrame), the pending timer requests
    (setTimeout), the counters that hand out their ids, and a log of every
    callback invocation. Frame ids and timer ids come from two separate
    counters, as in browsers, so the same number can name a frame request and
    a timer request at once. Id 0 is never handed out. */
module Host {

  datatype Option<T> = None | Some(value: T)

  /** A JavaScript value, as far as the scheduler can observe one. */
  datatype Value = Undefined | Null | Num(n: int) | Str(s: string) | Ref(addr: nat)

  /** A callback, known only by its identity. */
  datatype Fn = Fn(name: nat)

  /** One call of a callback: which function, with which `this`, with which arguments. */
  datatype Invocation = Invocation(fn: Fn, self: Value, args: seq<Value>)

  /** What a pending host request runs when it fires; `owner` is the scheduler
      state (a wrapper or a delay handle) whose closure it is. */
  datatype Task =
    | RunCallback(owner: object, cb: Fn)  // the frame closure of a coalescing wrapper
    | ResetToken(owner: object)           // the debounce timer of a coalescing wrapper
    | Poll(owner: object)                 // the polling step of a delayed invocation

  /** A pending request, named by the primitive that issued it and its id. */
  datatype Request = FrameRequest(id: nat) | TimerRequest(id: nat)

  datatype HostState = HostState(
    frames: map<nat, Task>,
    timers: map<nat, Task>,
    lastFrame: nat,
    lastTimer: nat,
    log: seq<Invocation>)
  {
    /** Every pending id is positive and was handed out already. */
    predicate Valid() {
      && (forall id | id in frames :: 0 < id <= lastFrame)
      && (forall id | id in timers :: 0 < id <= lastTimer)
    }
  }

  /** A host that has issued nothing and run nothing. */
  const Idle := HostState(map[], map[], 0, 0, [])

  /** A request the host has just issued, and the host after issuing it. */
  datatype Issued = Issued(host: HostState, id: nat)

  /** requestAnimationFrame: a fresh, positive frame id. */
  function RequestFrame(h: HostState, t: Task): (r: Issued)
    ensures r.id > 0 && r.id > h.lastFrame
    ensures h.Valid() ==> r.host.Valid() && r.id !in h.frames
    ensures r.host.frames == h.frames[r.id := t]
    ensures r.host.timers == h.timers && r.host.lastTimer == h.lastTimer && r.host.log == h.log
  {
    var id := h.lastFrame + 1;
    Issued(h.(frames := h.frames[id := t], lastFrame := id), id)
  }

  /** setTimeout: a fresh, positive timer id. The interval (1000/60 ms) is
      not modelled: the timer fires whenever the host chooses. */
  function SetTimeout(h: HostState, t: Task): (r: Issued)
    ensures r.id > 0 && r.id > h.lastTimer
    ensures h.Valid() ==> r.host.Valid() && r.id !in h.timers
    ensures r.host.timers == h.timers[r.id := t]
    ensures r.host.frames == h.frames && r.host.lastFrame == h.lastFrame && r.host.log == h.log
  {
    var id := h.lastTimer + 1;
    Issued(h.(timers := h.timers[id := t], lastTimer := id), id)
  }

  /** cancelAnimationFrame: forgets the frame request, if any, with that id. */
  function CancelFrame(h: HostState, id: nat): (r: HostState)
    ensures h.Valid() ==> r.Valid()
    ensures r.frames.Keys == h.frames.Keys - {id}
  {
    h.(frames := h.frames - {id})
  }

  /** clearTimeout: forgets the timer request, if any, with that id. */
  function ClearTimeout(h: HostState, id: nat): (r: HostState)
    ensures h.Valid() ==> r.Valid()
    ensures r.timers.Keys == h.timers.Keys - {id}
  {
    h.(timers := h.timers - {id})
  }

  /** Running a callback: the host records the call. */
  function Invoke(h: HostState, call: Invocation): (r: HostState)
    ensures h.Valid() ==> r.Valid()
    ensures r.log == h.log + [call]
  {
    h.(log := h.log + [call])
  }

  /** The host takes a pending request off its queue to run it. */
  function Deliver(h: HostState, req: Request): (r: HostState)
    ensures h.Valid() ==> r.Valid()
    ensures r.log == h.log
  {
    match req
    case FrameRequest(id) => h.(frames := h.frames - {id})
    case TimerRequest(id) => h.(timers := h.timers - {id})
  }

  /** The part of a request map whose tasks belong to `o`. */
  function Owned(m: map<nat, Task>, o: object): (r: map<nat, Task>)
    ensures forall id :: id in r <==> id in m && m[id].owner == o
    ensures forall id | id in r :: r[id] == m[id]
  {
    map id | id in m && m[id].owner == o :: m[id]
  }

  /** The frame requests and timer requests pending for `o`. */
  function FramesOf(h: HostState, o: object): map<nat, Task> { Owned(h.frames, o) }
  function TimersOf(h: HostState, o: object): map<nat, Task> { Owned(h.timers, o) }

  /** All requests pending for `o`. */
  function Pending(h: HostState, o: object): (r: set<Request>)
    ensures forall id :: FrameRequest(id) in r <==> id in FramesOf(h, o)
    ensures forall id :: TimerRequest(id) in r <==> id in TimersOf(h, o)
  {
    (set id | id in FramesOf(h, o) :: FrameRequest(id)) + (set id | id in TimersOf(h, o) :: TimerRequest(id))
  }

  /** `o` has nothing pending on the host. */
  predicate Quiet(h: HostState, o: object) {
    FramesOf(h, o) == map[] && TimersOf(h, o) == map[]
  }

  /** Two hosts agree on everything pending for `o`. */
  predicate SameFor(h: HostState, h': HostState, o: object) {
    FramesOf(h', o) == FramesOf(h, o) && TimersOf(h', o) == TimersOf(h, o)
  }

  lemma QuietHasNoPending(h: HostState, o: object)
    requires Quiet(h, o)
    ensures Pending(h, o) == {}
  {
    assert forall r: Request :: r !in Pending(h, o) by {
      forall r: Request ensures r !in Pending(h, o) {
        if r.FrameRequest? { assert r.id !in FramesOf(h, o); } else { assert r.id !in TimersOf(h, o); }
      }
    }
  }

  /** Adding a task for `o` at a fresh key adds exactly that entry to `o`'s share. */
  lemma OwnedAddMine(m: map<nat, Task>, id: nat, t: Task, o: object)
    requires t.owner == o
    ensures Owned(m[id := t], o) == Owned(m, o)[id := t]
  {
  }

  /** Adding a task of another owner leaves `o`'s share alone. */
  lemma OwnedAddOther(m: map<nat, Task>, id: nat, t: Task, o: object)
    requires t.owner != o && id !in m
    ensures Owned(m[id := t], o) == Owned(m, o)
  {
  }

  /** Removing a key removes it from `o`'s share and nothing else. */
  lemma OwnedRemove(m: map<nat, Task>, id: nat, o: object)
    ensures Owned(m - {id}, o) == Owned(m, o) - {id}
  {
  }
}
