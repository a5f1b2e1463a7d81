/** The coalescing wrapper built by `wrapperFactory`: one pending-call slot
    (`cancelToken`, `callbackThis`, `args`) shared by the submit operation,
    the frame closure, the debounce timer and `cancel`. */
module Scheduler {
  import opened Host

  /** The wrapper's slot. `cancelToken` is 0 when nothing is outstanding and
      otherwise the id of the outstanding frame or timer request. */
  datatype WrapperState = WrapperState(cancelToken: nat, callbackThis: Value, args: seq<Value>)

  /** The slot as `wrapperFactory` creates it (context and arguments not yet set). */
  const Initial := WrapperState(0, Undefined, [])

  /** One call of the wrapper: the context, the callback and the arguments. */
  datatype Submission = Submission(self: Value, cb: Fn, args: seq<Value>)

  /** The slot and the host after one operation. */
  datatype Step = Step(state: WrapperState, host: HostState)

  function LastOf(subs: seq<Submission>): Submission
    requires |subs| > 0
  {
    subs[|subs| - 1]
  }

  /** `wrapper(cbThis, cb, ...args)`: the context and arguments are stored
      first; with a request outstanding nothing else happens; otherwise
      either a frame is requested whose closure will run `cb`, or `cb` runs
      at once and a debounce timer is armed. */
  function SubmitStep(s: WrapperState, h: HostState, hasFrame: bool, o: object, sub: Submission): Step
  {
    var s1 := s.(callbackThis := sub.self, args := sub.args);
    if s1.cancelToken != 0 then Step(s1, h)
    else if hasFrame then
      var i := RequestFrame(h, RunCallback(o, sub.cb));
      Step(s1.(cancelToken := i.id), i.host)
    else
      var h1 := Invoke(h, Invocation(sub.cb, s1.callbackThis, s1.args));
      var i := SetTimeout(h1, ResetToken(o));
      Step(s1.(cancelToken := i.id), i.host)
  }

  /** The host runs frame request `id`: its closure calls the callback it
      captured with the context and arguments stored NOW, then clears the token. */
  function FrameStep(s: WrapperState, h: HostState, id: nat): Step
    requires id in h.frames && h.frames[id].RunCallback?
  {
    var h1 := Deliver(h, FrameRequest(id));
    var h2 := Invoke(h1, Invocation(h.frames[id].cb, s.callbackThis, s.args));
    Step(s.(cancelToken := 0), h2)
  }

  /** The host runs debounce timer `id`: it only clears the token. */
  function TimerStep(s: WrapperState, h: HostState, id: nat): Step
    requires id in h.timers && h.timers[id].ResetToken?
  {
    Step(s.(cancelToken := 0), Deliver(h, TimerRequest(id)))
  }

  /** `wrapper.cancel()`: cancelAnimationFrame on the token when frames are
      available, then clearTimeout on the same token in every case, then the
      token is cleared. */
  function CancelStep(s: WrapperState, h: HostState, hasFrame: bool): Step
  {
    var h1 := if hasFrame then CancelFrame(h, s.cancelToken) else h;
    Step(s.(cancelToken := 0), ClearTimeout(h1, s.cancelToken))
  }

  /** A sequence of submits with no host event in between. */
  function SubmitAll(s: WrapperState, h: HostState, hasFrame: bool, o: object, subs: seq<Submission>): Step
    decreases |subs|
  {
    if subs == [] then Step(s, h)
    else
      var r := SubmitStep(s, h, hasFrame, o, subs[0]);
      SubmitAll(r.state, r.host, hasFrame, o, subs[1..])
  }

  /** The slot of wrapper `o` agrees with the host, for a fixed capability:
      token 0 exactly when nothing of `o` is pending, and otherwise exactly
      one request of `o` is pending, at the token, of the kind the
      capability dictates. */
  predicate Coherent(s: WrapperState, h: HostState, o: object, hasFrame: bool)
  {
    && h.Valid()
    && if s.cancelToken == 0 then Quiet(h, o)
       else if hasFrame then
         && FramesOf(h, o).Keys == {s.cancelToken}
         && FramesOf(h, o)[s.cancelToken].RunCallback?
         && TimersOf(h, o) == map[]
       else
         && TimersOf(h, o).Keys == {s.cancelToken}
         && TimersOf(h, o)[s.cancelToken].ResetToken?
         && FramesOf(h, o) == map[]
  }

  /** A fresh wrapper on a valid host is coherent. */
  lemma InitialCoherent(h: HostState, o: object, hasFrame: bool)
    requires h.Valid() && Quiet(h, o)
    ensures Coherent(Initial, h, o, hasFrame)
  {
  }

  /** One wrapper never has more than one outstanding request, and the only
      request of its own that the host can run is the one at its token. */
  lemma AtMostOneOutstanding(s: WrapperState, h: HostState, o: object, hasFrame: bool)
    requires Coherent(s, h, o, hasFrame)
    ensures Pending(h, o) == if s.cancelToken == 0 then {}
                             else if hasFrame then {FrameRequest(s.cancelToken)}
                             else {TimerRequest(s.cancelToken)}
    ensures |Pending(h, o)| <= 1
  {
    if s.cancelToken == 0 {
      QuietHasNoPending(h, o);
    } else if hasFrame {
      assert Pending(h, o) == {FrameRequest(s.cancelToken)} by {
        forall r: Request ensures r in Pending(h, o) <==> r == FrameRequest(s.cancelToken) {
          if r.FrameRequest? { assert r.id in FramesOf(h, o) <==> r.id in {s.cancelToken}; }
          else { assert r.id !in TimersOf(h, o); }
        }
      }
    } else {
      assert Pending(h, o) == {TimerRequest(s.cancelToken)} by {
        forall r: Request ensures r in Pending(h, o) <==> r == TimerRequest(s.cancelToken) {
          if r.TimerRequest? { assert r.id in TimersOf(h, o) <==> r.id in {s.cancelToken}; }
          else { assert r.id !in FramesOf(h, o); }
        }
      }
    }
  }

  /** Every submit overwrites the stored context and arguments; while a
      request is outstanding it issues nothing, runs nothing and keeps the token. */
  lemma SubmitOverwrites(s: WrapperState, h: HostState, hasFrame: bool, o: object, sub: Submission)
    ensures var r := SubmitStep(s, h, hasFrame, o, sub);
      && r.state.callbackThis == sub.self && r.state.args == sub.args
      && (s.cancelToken != 0 ==> r.host == h && r.state.cancelToken == s.cancelToken)
  {
  }

  /** A submit with nothing outstanding: on the frame path it runs nothing and
      leaves a frame request at a fresh token; on the fallback path it runs
      the callback with this submit's context and arguments before returning
      and leaves a debounce timer at a fresh token. */
  lemma SubmitWhenIdle(s: WrapperState, h: HostState, hasFrame: bool, o: object, sub: Submission)
    requires h.Valid() && s.cancelToken == 0
    ensures var r := SubmitStep(s, h, hasFrame, o, sub);
      && r.state.cancelToken != 0
      && (hasFrame ==>
            && r.host.log == h.log
            && r.state.cancelToken !in h.frames
            && r.host.frames == h.frames[r.state.cancelToken := RunCallback(o, sub.cb)]
            && r.host.timers == h.timers)
      && (!hasFrame ==>
            && r.host.log == h.log + [Invocation(sub.cb, sub.self, sub.args)]
            && r.state.cancelToken !in h.timers
            && r.host.timers == h.timers[r.state.cancelToken := ResetToken(o)]
            && r.host.frames == h.frames)
  {
  }

  lemma SubmitKeepsCoherent(s: WrapperState, h: HostState, hasFrame: bool, o: object, sub: Submission)
    requires Coherent(s, h, o, hasFrame)
    ensures var r := SubmitStep(s, h, hasFrame, o, sub);
      Coherent(r.state, r.host, o, hasFrame) && r.state.cancelToken != 0
  {
    var r := SubmitStep(s, h, hasFrame, o, sub);
    if s.cancelToken == 0 {
      if hasFrame {
        OwnedAddMine(h.frames, r.state.cancelToken, RunCallback(o, sub.cb), o);
      } else {
        OwnedAddMine(h.timers, r.state.cancelToken, ResetToken(o), o);
      }
    }
  }

  /** A submit to wrapper `o` leaves what is pending for any other owner alone. */
  lemma SubmitLeavesOthers(s: WrapperState, h: HostState, hasFrame: bool, o: object, sub: Submission, other: object)
    requires h.Valid() && other != o
    ensures SameFor(h, SubmitStep(s, h, hasFrame, o, sub).host, other)
  {
    var r := SubmitStep(s, h, hasFrame, o, sub);
    if s.cancelToken == 0 {
      if hasFrame {
        OwnedAddOther(h.frames, r.state.cancelToken, RunCallback(o, sub.cb), other);
      } else {
        OwnedAddOther(h.timers, r.state.cancelToken, ResetToken(o), other);
      }
    }
  }

  /** Frame path, N >= 1 submits: before the frame fires, nothing has run, one
      frame request is outstanding, and the slot holds the LAST submit's
      context and arguments; the frame closure runs the callback captured by
      the submit that issued the request. */
  lemma {:induction false} FrameBurst(s: WrapperState, h: HostState, o: object, subs: seq<Submission>)
    requires Coherent(s, h, o, true) && |subs| > 0
    decreases |subs|
    ensures var r := SubmitAll(s, h, true, o, subs);
      && Coherent(r.state, r.host, o, true)
      && r.state.cancelToken != 0
      && r.host.log == h.log
      && r.state.callbackThis == LastOf(subs).self
      && r.state.args == LastOf(subs).args
      && r.state.cancelToken in r.host.frames
      && r.host.frames[r.state.cancelToken]
         == (if s.cancelToken == 0 then RunCallback(o, subs[0].cb) else h.frames[s.cancelToken])
  {
    var r1 := SubmitStep(s, h, true, o, subs[0]);
    SubmitKeepsCoherent(s, h, true, o, subs[0]);
    SubmitWhenIdleOrBusy(s, h, o, subs[0]);
    if |subs| == 1 {
      assert SubmitAll(r1.state, r1.host, true, o, subs[1..]) == r1;
    } else {
      FrameBurst(r1.state, r1.host, o, subs[1..]);
      assert LastOf(subs[1..]) == LastOf(subs);
    }
  }

  /** The frame-path facts FrameBurst needs about its first submit. */
  lemma SubmitWhenIdleOrBusy(s: WrapperState, h: HostState, o: object, sub: Submission)
    requires Coherent(s, h, o, true)
    ensures var r := SubmitStep(s, h, true, o, sub);
      && r.host.log == h.log
      && r.state.cancelToken in r.host.frames
      && r.host.frames[r.state.cancelToken]
         == (if s.cancelToken == 0 then RunCallback(o, sub.cb) else h.frames[s.cancelToken])
  {
    if s.cancelToken != 0 {
      assert s.cancelToken in FramesOf(h, o);
    }
  }

  /** Coalescing on the frame path: N >= 1 submits with nothing outstanding,
      then the frame: exactly one invocation, with the context and arguments
      of the last submit, and afterwards the token is 0 and nothing is pending. */
  lemma FrameCoalesces(s: WrapperState, h: HostState, o: object, subs: seq<Submission>)
    requires Coherent(s, h, o, true) && s.cancelToken == 0 && |subs| > 0
    ensures var r := SubmitAll(s, h, true, o, subs);
      && r.state.cancelToken in r.host.frames
      && r.host.frames[r.state.cancelToken] == RunCallback(o, subs[0].cb)
      && var f := FrameStep(r.state, r.host, r.state.cancelToken);
         && f.host.log == h.log + [Invocation(subs[0].cb, LastOf(subs).self, LastOf(subs).args)]
         && f.state.cancelToken == 0
         && Coherent(f.state, f.host, o, true)
  {
    FrameBurst(s, h, o, subs);
    var r := SubmitAll(s, h, true, o, subs);
    FrameKeepsCoherent(r.state, r.host, o, r.state.cancelToken);
  }

  /** The host runs the wrapper's frame request: it was the one at the token,
      the callback runs once, and the wrapper is left with nothing pending. */
  lemma FrameKeepsCoherent(s: WrapperState, h: HostState, o: object, id: nat)
    requires Coherent(s, h, o, true) && id in FramesOf(h, o)
    ensures id == s.cancelToken && h.frames[id].RunCallback?
    ensures var f := FrameStep(s, h, id);
      && f.host.log == h.log + [Invocation(h.frames[id].cb, s.callbackThis, s.args)]
      && Quiet(f.host, o) && Coherent(f.state, f.host, o, true)
  {
    OwnedRemove(h.frames, id, o);
  }

  /** Fallback path: the first submit with nothing outstanding runs the
      callback synchronously with its own context and arguments; every later
      submit before the debounce timer fires runs nothing; afterwards one
      debounce timer is outstanding and the slot holds the last arguments. */
  lemma {:induction false} FallbackBurst(s: WrapperState, h: HostState, o: object, subs: seq<Submission>)
    requires Coherent(s, h, o, false) && |subs| > 0
    decreases |subs|
    ensures var r := SubmitAll(s, h, false, o, subs);
      && Coherent(r.state, r.host, o, false)
      && r.state.cancelToken != 0
      && r.state.callbackThis == LastOf(subs).self
      && r.state.args == LastOf(subs).args
      && r.host.log == h.log + (if s.cancelToken == 0 then [Invocation(subs[0].cb, subs[0].self, subs[0].args)] else [])
  {
    var r1 := SubmitStep(s, h, false, o, subs[0]);
    SubmitKeepsCoherent(s, h, false, o, subs[0]);
    if |subs| == 1 {
      assert SubmitAll(r1.state, r1.host, false, o, subs[1..]) == r1;
    } else {
      FallbackBurst(r1.state, r1.host, o, subs[1..]);
      assert LastOf(subs[1..]) == LastOf(subs);
    }
  }

  /** End of the debounce window: the host runs the wrapper's timer, which
      was the one at the token; nothing runs, the token is 0 again and
      nothing is pending, so the next submit runs the callback again. */
  lemma DebounceEnds(s: WrapperState, h: HostState, o: object, id: nat)
    requires Coherent(s, h, o, false) && id in TimersOf(h, o)
    ensures id == s.cancelToken && h.timers[id].ResetToken?
    ensures var t := TimerStep(s, h, id);
      && t.host.log == h.log && t.state.cancelToken == 0
      && t.state.callbackThis == s.callbackThis && t.state.args == s.args
      && Quiet(t.host, o) && Coherent(t.state, t.host, o, false)
  {
    OwnedRemove(h.timers, id, o);
  }

  /** The host running a request of wrapper `o` leaves every other owner's
      pending requests alone. */
  lemma FireLeavesOthers(s: WrapperState, h: HostState, req: Request, o: object, other: object)
    requires other != o
    requires req.FrameRequest? ==> req.id in h.frames && h.frames[req.id].owner == o
    requires req.TimerRequest? ==> req.id in h.timers && h.timers[req.id].owner == o
    ensures SameFor(h, Deliver(h, req), other)
  {
    match req
    case FrameRequest(id) => OwnedRemove(h.frames, id, other);
    case TimerRequest(id) => OwnedRemove(h.timers, id, other);
  }

  /** `cancel` always leaves the token 0, keeps the stored context and
      arguments, runs nothing, and a second cancel changes nothing more. */
  lemma CancelIdempotent(s: WrapperState, h: HostState, hasFrame: bool)
    requires h.Valid()
    ensures var c := CancelStep(s, h, hasFrame);
      && c.state == s.(cancelToken := 0)
      && c.host.log == h.log
      && CancelStep(c.state, c.host, hasFrame) == c
  {
    var c := CancelStep(s, h, hasFrame);
    assert 0 !in c.host.frames && 0 !in c.host.timers;
    assert c.host.frames - {0} == c.host.frames;
    assert c.host.timers - {0} == c.host.timers;
  }

  /** Under a fixed capability `cancel` withdraws the wrapper's outstanding
      request, so a frame cancelled before it fires never runs the callback. */
  lemma CancelWithdraws(s: WrapperState, h: HostState, o: object, hasFrame: bool)
    requires Coherent(s, h, o, hasFrame)
    ensures var c := CancelStep(s, h, hasFrame);
      Quiet(c.host, o) && Coherent(c.state, c.host, o, hasFrame) && Pending(c.host, o) == {}
  {
    var c := CancelStep(s, h, hasFrame);
    var h1 := if hasFrame then CancelFrame(h, s.cancelToken) else h;
    OwnedRemove(h.frames, s.cancelToken, o);
    OwnedRemove(h1.timers, s.cancelToken, o);
    QuietHasNoPending(c.host, o);
  }

  /** `cancel` on wrapper `o` leaves alone what another owner has pending,
      provided the other owner holds no timer while frames are available
      (so for every wrapper and delay handle under a fixed capability). */
  lemma CancelLeavesOthers(s: WrapperState, h: HostState, o: object, hasFrame: bool, other: object)
    requires Coherent(s, h, o, hasFrame) && other != o
    requires hasFrame ==> TimersOf(h, other) == map[]
    ensures SameFor(h, CancelStep(s, h, hasFrame).host, other)
  {
    var h1 := if hasFrame then CancelFrame(h, s.cancelToken) else h;
    OwnedRemove(h.frames, s.cancelToken, other);
    OwnedRemove(h1.timers, s.cancelToken, other);
    if s.cancelToken != 0 {
      if hasFrame {
        assert s.cancelToken in FramesOf(h, o);
      } else {
        assert s.cancelToken in TimersOf(h, o);
      }
    }
  }

  /** With frames available, `cancel` also clears whatever timer has the
      same number as the token, whoever armed it. */
  lemma CancelAlsoClearsSameNumberedTimer(s: WrapperState, h: HostState)
    requires s.cancelToken in h.timers
    ensures var c := CancelStep(s, h, true);
      s.cancelToken !in c.host.frames && s.cancelToken !in c.host.timers
      && c.host.timers == h.timers - {s.cancelToken}
  {
  }

  /** If frames became unavailable after the request was made, `cancel`
      clears the token but leaves the frame request pending: it will still
      run the callback. */
  lemma FallbackCancelKeepsFrame(s: WrapperState, h: HostState)
    requires s.cancelToken in h.frames
    ensures var c := CancelStep(s, h, false);
      c.state.cancelToken == 0 && c.host.frames == h.frames
  {
  }

  /** The two-frame run: at tick 0 `f(1)` and `f(2)`, at tick 1 the frame,
      at tick 2 `f(3)` and its frame: exactly the calls `f(2)` and `f(3)`. */
  lemma TwoFrameScenario(o: object, f: Fn, self: Value)
    ensures
      var a := SubmitAll(Initial, Idle, true, o, [Submission(self, f, [Num(1)]), Submission(self, f, [Num(2)])]);
      && a.state.cancelToken in a.host.frames && a.host.frames[a.state.cancelToken].RunCallback?
      && var b := FrameStep(a.state, a.host, a.state.cancelToken);
         var c := SubmitStep(b.state, b.host, true, o, Submission(self, f, [Num(3)]));
         && c.state.cancelToken in c.host.frames && c.host.frames[c.state.cancelToken].RunCallback?
         && FrameStep(c.state, c.host, c.state.cancelToken).host.log
            == [Invocation(f, self, [Num(2)]), Invocation(f, self, [Num(3)])]
  {
    var subs := [Submission(self, f, [Num(1)]), Submission(self, f, [Num(2)])];
    InitialCoherent(Idle, o, true);
    FrameCoalesces(Initial, Idle, o, subs);
    var a := SubmitAll(Initial, Idle, true, o, subs);
    var b := FrameStep(a.state, a.host, a.state.cancelToken);
    assert b.host.log == [Invocation(f, self, [Num(2)])];
    FrameCoalesces(b.state, b.host, o, [Submission(self, f, [Num(3)])]);
    assert SubmitAll(b.state, b.host, true, o, [Submission(self, f, [Num(3)])])
        == SubmitStep(b.state, b.host, true, o, Submission(self, f, [Num(3)]));
  }

  /** The wrapper object: its three fields are the slot of `wrapperFactory`. */
  class Wrapper {
    var cancelToken: nat
    var callbackThis: Value
    var args: seq<Value>

    function State(): WrapperState
      reads this
    {
      WrapperState(cancelToken, callbackThis, args)
    }

    constructor ()
      ensures State() == Initial
    {
      cancelToken := 0;
      callbackThis := Undefined;
      args := [];
    }

    /** `resetCancelToken`. */
    method ResetCancelToken()
      modifies this
      ensures State() == old(State()).(cancelToken := 0)
    {
      cancelToken := 0;
    }

    /** `wrapper(cbThis, cb, ...args)`. */
    method Submit(h: HostState, hasFrame: bool, cbThis: Value, cb: Fn, a: seq<Value>) returns (h': HostState)
      modifies this
      ensures Step(State(), h') == SubmitStep(old(State()), h, hasFrame, this, Submission(cbThis, cb, a))
    {
      callbackThis := cbThis;
      args := a;
      h' := h;
      if cancelToken != 0 {
        return;
      }
      if hasFrame {
        var issued := RequestFrame(h', RunCallback(this, cb));
        h', cancelToken := issued.host, issued.id;
      } else {
        h' := Invoke(h', Invocation(cb, callbackThis, args));
        var issued := SetTimeout(h', ResetToken(this));
        h', cancelToken := issued.host, issued.id;
      }
    }

    /** The host runs this wrapper's frame request `id`. */
    method OnFrame(h: HostState, id: nat) returns (h': HostState)
      requires id in h.frames && h.frames[id].RunCallback? && h.frames[id].owner == this
      modifies this
      ensures Step(State(), h') == FrameStep(old(State()), h, id)
    {
      var cb := h.frames[id].cb;
      h' := Deliver(h, FrameRequest(id));
      h' := Invoke(h', Invocation(cb, callbackThis, args));
      ResetCancelToken();
    }

    /** The host runs this wrapper's debounce timer `id`. */
    method OnTimer(h: HostState, id: nat) returns (h': HostState)
      requires id in h.timers && h.timers[id].ResetToken? && h.timers[id].owner == this
      modifies this
      ensures Step(State(), h') == TimerStep(old(State()), h, id)
    {
      h' := Deliver(h, TimerRequest(id));
      ResetCancelToken();
    }

    /** `wrapper.cancel()`. */
    method Cancel(h: HostState, hasFrame: bool) returns (h': HostState)
      modifies this
      ensures Step(State(), h') == CancelStep(old(State()), h, hasFrame)
    {
      h' := h;
      if hasFrame {
        h' := CancelFrame(h', cancelToken);
      }
      h' := ClearTimeout(h', cancelToken);
      ResetCancelToken();
    }
  }
}
