/** The throttle adapter (`throttleFactory`) and `smoothFunction`: a
    callback, an optional explicit `this` and leading arguments, and a
    coalescing wrapper of its own. */
module Throttle {
  import opened Host
  import opened Scheduler

  /** `arguments.length` inside `throttleFactory`, where `extra` are the
      arguments given after the callback (`thisArg`, then `argArray`). An
      explicit `undefined` counts. */
  function ArgCount(extra: seq<Value>): nat
  {
    1 + |extra|
  }

  /** The `thisArg` parameter: `undefined` when it was not given. */
  function ThisArg(extra: seq<Value>): Value
  {
    if |extra| > 0 then extra[0] else Undefined
  }

  /** The rest parameter `argArray`. */
  function ArgArray(extra: seq<Value>): seq<Value>
  {
    if |extra| > 1 then extra[1..] else []
  }

  /** `argCount > 1 ? thisArg : this`. */
  function Context(extra: seq<Value>, callThis: Value): Value
  {
    if ArgCount(extra) > 1 then ThisArg(extra) else callThis
  }

  /** `...argArray, ...args`. */
  function Forwarded(extra: seq<Value>, callArgs: seq<Value>): seq<Value>
  {
    ArgArray(extra) + callArgs
  }

  /** What one call of the throttled function hands to its wrapper. */
  function Adapt(callback: Fn, extra: seq<Value>, callThis: Value, callArgs: seq<Value>): Submission
  {
    Submission(Context(extra, callThis), callback, Forwarded(extra, callArgs))
  }

  /** Reference semantics: calling `callback` plainly, or as bound by
      `callback.bind(thisArg, ...prefix)`, which ignores the call-site `this`. */
  datatype Binding = Unbound | Bound(thisArg: Value, prefix: seq<Value>)

  function BindingOf(extra: seq<Value>): Binding
  {
    if extra == [] then Unbound else Bound(extra[0], extra[1..])
  }

  function CallThrough(b: Binding, callback: Fn, callThis: Value, callArgs: seq<Value>): Submission
  {
    match b
    case Unbound => Submission(callThis, callback, callArgs)
    case Bound(t, prefix) => Submission(t, callback, prefix + callArgs)
  }

  /** The adapter forwards exactly what a plain call (no arguments after the
      callback) or a bound call (any argument after the callback, the first
      being the `this`) would pass. */
  lemma AdaptIsBinding(callback: Fn, extra: seq<Value>, callThis: Value, callArgs: seq<Value>)
    ensures Adapt(callback, extra, callThis, callArgs) == CallThrough(BindingOf(extra), callback, callThis, callArgs)
  {
    if |extra| == 1 {
      assert extra[1..] == [];
    }
  }

  /** The forwarded arguments are the bound prefix followed by the call's own
      arguments, in order. */
  lemma ForwardedLayout(extra: seq<Value>, callArgs: seq<Value>)
    ensures var r := Forwarded(extra, callArgs);
      && |r| == |ArgArray(extra)| + |callArgs|
      && r[..|ArgArray(extra)|] == ArgArray(extra)
      && r[|ArgArray(extra)|..] == callArgs
      && (|extra| > 1 ==> forall i | 0 <= i < |extra| - 1 :: r[i] == extra[i + 1])
  {
  }

  /** The context is `thisArg` regardless of the call site exactly when
      `throttleFactory` received more than one argument. */
  lemma ContextFixedIffBound(extra: seq<Value>)
    ensures (forall c :: Context(extra, c) == ThisArg(extra)) <==> ArgCount(extra) > 1
  {
    if ArgCount(extra) <= 1 {
      assert Context(extra, Num(0)) == Num(0) != ThisArg(extra);
    }
  }

  /** An explicit `undefined` as `thisArg` still binds: the call-site `this` is dropped. */
  lemma ExplicitUndefinedBinds(callThis: Value, callArgs: seq<Value>, cb: Fn)
    ensures Adapt(cb, [Undefined], callThis, callArgs) == Submission(Undefined, cb, callArgs)
  {
  }

  /** A throttled function: the callback, the arguments given after it to
      `throttleFactory`, and its own wrapper. `rebuildsOnBind` is set when
      `smoothFunction` has replaced `.bind`. */
  class Throttled {
    const callback: Fn
    const extra: seq<Value>
    const wrapper: Wrapper
    var rebuildsOnBind: bool

    /** `throttleFactory(callback, ...extra)`. */
    constructor (callback: Fn, extra: seq<Value>)
      ensures this.callback == callback && this.extra == extra
      ensures fresh(wrapper) && wrapper.State() == Initial
      ensures !rebuildsOnBind
    {
      this.callback := callback;
      this.extra := extra;
      wrapper := new Wrapper();
      rebuildsOnBind := false;
    }

    /** `throttledCallback.call(callThis, ...callArgs)`. */
    method Call(h: HostState, hasFrame: bool, callThis: Value, callArgs: seq<Value>) returns (h': HostState)
      modifies wrapper
      ensures Step(wrapper.State(), h')
              == SubmitStep(old(wrapper.State()), h, hasFrame, wrapper, Adapt(callback, extra, callThis, callArgs))
    {
      var argCount := 1 + |extra|;
      var self := if argCount > 1 then extra[0] else callThis;
      var argArray := if argCount > 2 then extra[1..] else [];
      h' := wrapper.Submit(h, hasFrame, self, callback, argArray + callArgs);
    }

    /** `throttledCallback.cancel()`. */
    method Cancel(h: HostState, hasFrame: bool) returns (h': HostState)
      modifies wrapper
      ensures Step(wrapper.State(), h') == CancelStep(old(wrapper.State()), h, hasFrame)
    {
      h' := wrapper.Cancel(h, hasFrame);
    }

    /** `.bind(...newExtra)` as installed by `smoothFunction`: a new
      `throttleFactory` around the ORIGINAL callback, with a wrapper of its own. */
    method Bind(newExtra: seq<Value>) returns (t: Throttled)
      requires rebuildsOnBind
      ensures fresh(t) && fresh(t.wrapper)
      ensures t.callback == callback && t.extra == newExtra
      ensures t.wrapper.State() == Initial && !t.rebuildsOnBind
    {
      t := new Throttled(callback, newExtra);
    }
  }

  /** `smoothFunction(callback)`. */
  method SmoothFunction(callback: Fn) returns (t: Throttled)
    ensures fresh(t) && fresh(t.wrapper)
    ensures t.callback == callback && t.extra == [] && t.rebuildsOnBind
    ensures t.wrapper.State() == Initial
  {
    t := new Throttled(callback, []);
    t.rebuildsOnBind := true;
  }

  /** A smooth function and a variant bound from it coalesce apart: one call
      to each within the same frame gives two invocations when the frames
      fire, neither suppressing nor merging with the other. */
  method BoundVariantCoalescesApart(h: HostState, cb: Fn, x: Value, callThis: Value, a1: seq<Value>, a2: seq<Value>)
    returns (h': HostState)
    requires h.Valid()
    ensures h'.log == h.log + [Invocation(cb, callThis, a1), Invocation(cb, x, a2)]
  {
    var s := SmoothFunction(cb);
    var b := s.Bind([x]);
    h' := s.Call(h, true, callThis, a1);
    assert [] + a1 == a1;
    assert s.wrapper.callbackThis == callThis && s.wrapper.args == a1;
    h' := b.Call(h', true, callThis, a2);
    assert [] + a2 == a2;
    assert b.wrapper.callbackThis == x && b.wrapper.args == a2;
    assert s.wrapper.cancelToken in h'.frames && h'.frames[s.wrapper.cancelToken] == RunCallback(s.wrapper, cb);
    assert b.wrapper.cancelToken in h'.frames && h'.frames[b.wrapper.cancelToken] == RunCallback(b.wrapper, cb);
    var mid := s.wrapper.OnFrame(h', s.wrapper.cancelToken);
    assert mid.log == h.log + [Invocation(cb, callThis, a1)];
    h' := b.wrapper.OnFrame(mid, b.wrapper.cancelToken);
  }
}
