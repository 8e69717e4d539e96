/**
 * The observable cell of src/signal.js: one value and an insertion-ordered set
 * of subscriber callbacks. Callbacks are opaque identities; calling them is
 * recorded as the sequence of `callback(value)` invocations that `notify`
 * makes, and callbacks are assumed not to change the subscriber set while
 * they run.
 */
module Signals {
  import opened Js

  /** A subscriber callback, known only by its identity. */
  type Callback = nat

  /** One invocation `callback(value)`. */
  datatype Call = Call(callback: Callback, value: Value)

  /** The closure `subscribe` returns; running it deletes `callback`. */
  datatype Unsubscriber = Unsubscriber(callback: Callback)

  /** The calls `notify` makes: every subscriber, in set order, with `v`. */
  function CallsFor(subs: seq<Callback>, v: Value): seq<Call> {
    if subs == [] then [] else [Call(subs[0], v)] + CallsFor(subs[1..], v)
  }

  /** How many of `calls` go to `cb`. */
  function CallsTo(calls: seq<Call>, cb: Callback): nat {
    if calls == [] then 0
    else (if calls[0].callback == cb then 1 else 0) + CallsTo(calls[1..], cb)
  }

  lemma {:induction false} CallsForAt(subs: seq<Callback>, v: Value)
    ensures |CallsFor(subs, v)| == |subs|
    ensures forall k :: 0 <= k < |subs| ==> CallsFor(subs, v)[k] == Call(subs[k], v)
  {
    if subs != [] {
      CallsForAt(subs[1..], v);
    }
  }

  /** Every call `notify` makes carries the one value it was given. */
  lemma CallsCarryValue(subs: seq<Callback>, v: Value)
    ensures forall c :: c in CallsFor(subs, v) ==> c.value == v
  {
    CallsForAt(subs, v);
  }

  /** Each subscriber is called exactly once and nothing else is called. */
  lemma {:induction false} CalledOnce(subs: seq<Callback>, v: Value, cb: Callback)
    requires NoDuplicates(subs)
    ensures CallsTo(CallsFor(subs, v), cb) == if cb in subs then 1 else 0
  {
    if subs != [] {
      assert NoDuplicates(subs[1..]);
      CalledOnce(subs[1..], v, cb);
      assert subs[0] == cb ==> cb !in subs[1..];
      var calls := CallsFor(subs, v);
      assert calls[1..] == CallsFor(subs[1..], v);
    }
  }

  /** Once unsubscribed, a callback receives no call from any later `notify`. */
  lemma NotCalledOnceRemoved(subs: seq<Callback>, v: Value, cb: Callback)
    requires NoDuplicates(subs)
    ensures CallsTo(CallsFor(Removed(subs, cb), v), cb) == 0
  {
    RemovedNoDuplicates(subs, cb);
    CalledOnce(Removed(subs, cb), v, cb);
  }

  /** Running an unsubscriber a second time changes nothing. */
  lemma {:induction false} RemovedIdempotent(subs: seq<Callback>, cb: Callback)
    ensures Removed(Removed(subs, cb), cb) == Removed(subs, cb)
  {
    if subs != [] {
      RemovedIdempotent(subs[1..], cb);
    }
  }

  /** Unsubscribing what is not subscribed leaves the set as it is. */
  lemma {:induction false} RemovedAbsent(subs: seq<Callback>, cb: Callback)
    requires cb !in subs
    ensures Removed(subs, cb) == subs
  {
    if subs != [] {
      RemovedAbsent(subs[1..], cb);
      assert subs == [subs[0]] + subs[1..];
    }
  }

  /** Subscribing a new callback and unsubscribing it restores the set exactly. */
  lemma {:induction false} SubscribeThenUnsubscribe(subs: seq<Callback>, cb: Callback)
    requires cb !in subs
    ensures Removed(Added(subs, cb), cb) == subs
  {
    if subs == [] {
      assert Added(subs, cb) == [cb];
      assert Removed([cb], cb) == Removed([], cb);
    } else {
      SubscribeThenUnsubscribe(subs[1..], cb);
      assert Added(subs, cb)[1..] == Added(subs[1..], cb);
      assert subs == [subs[0]] + subs[1..];
    }
  }

  class Signal {
    /** `_value` */
    var value: Value
    /** `_subscribers`, a Set, in insertion order */
    var subscribers: seq<Callback>

    ghost predicate Valid()
      reads this
    {
      NoDuplicates(subscribers)
    }

    /** `new Signal(initialValue)` */
    constructor (initialValue: Value)
      ensures Valid()
      ensures value == initialValue && subscribers == []
    {
      value := initialValue;
      subscribers := [];
    }

    /** `notify()`: calls every subscriber with the current value. */
    method Notify() returns (calls: seq<Call>)
      ensures calls == CallsFor(subscribers, value)
    {
      calls := [];
      var i := 0;
      while i < |subscribers|
        invariant 0 <= i <= |subscribers|
        invariant |calls| == i
        invariant forall k :: 0 <= k < i ==> calls[k] == Call(subscribers[k], value)
      {
        calls := calls + [Call(subscribers[i], value)];
        i := i + 1;
      }
      CallsForAt(subscribers, value);
    }

    /** The `value` setter: a value `===` to the current one is ignored. */
    method SetValue(newValue: Value) returns (calls: seq<Call>)
      requires Valid()
      modifies this
      ensures Valid() && subscribers == old(subscribers)
      ensures old(value) == newValue ==> value == old(value) && calls == []
      ensures old(value) != newValue ==> value == newValue && calls == CallsFor(subscribers, newValue)
    {
      if value == newValue {
        return [];
      }
      value := newValue;
      calls := Notify();
    }

    /** `subscribe(callback)`: adds the callback and returns its unsubscriber. */
    method Subscribe(cb: Callback) returns (unsubscribe: Unsubscriber)
      requires Valid()
      modifies this
      ensures Valid() && value == old(value)
      ensures subscribers == Added(old(subscribers), cb)
      ensures unsubscribe == Unsubscriber(cb)
    {
      if cb !in subscribers {
        subscribers := subscribers + [cb];
      }
      unsubscribe := Unsubscriber(cb);
    }

    /** Runs an unsubscriber closure that `Subscribe` returned on this signal. */
    method Unsubscribe(unsubscribe: Unsubscriber)
      requires Valid()
      modifies this
      ensures Valid() && value == old(value)
      ensures subscribers == Removed(old(subscribers), unsubscribe.callback)
    {
      RemovedNoDuplicates(subscribers, unsubscribe.callback);
      subscribers := Removed(subscribers, unsubscribe.callback);
    }
  }

  /** `createSignal(initialValue)` */
  method CreateSignal(initialValue: Value) returns (s: Signal)
    ensures fresh(s) && s.Valid()
    ensures s.value == initialValue && s.subscribers == []
  {
    s := new Signal(initialValue);
  }

  /**
   * `isSignalLike(candidate)`, where `props` are the properties the candidate
   * has (own or inherited) when it is a reference. A primitive is never
   * signal-like: the built-in prototypes are taken to have no `subscribe`.
   */
  predicate IsSignalLike(candidate: Value, props: map<string, Value>) {
    && (candidate.Obj? || candidate.Arr? || candidate.Fn?)
    && "subscribe" in props && TypeOf(props["subscribe"]) == "function"
    && "notify" in props && TypeOf(props["notify"]) == "function"
    && "value" in props
  }

  /** The properties a `Signal` instance has: two methods, its fields and the `value` accessor. */
  function SignalProperties(value: Value, subscribeFn: nat, notifyFn: nat, subscribersRef: nat): map<string, Value> {
    map["_subscribers" := Obj(subscribersRef), "_value" := value, "value" := value,
        "subscribe" := Fn(subscribeFn), "notify" := Fn(notifyFn)]
  }

  /** Every `Signal` is signal-like, whatever its value, `undefined` included. */
  lemma SignalIsSignalLike(self: nat, value: Value, subscribeFn: nat, notifyFn: nat, subscribersRef: nat)
    ensures IsSignalLike(Obj(self), SignalProperties(value, subscribeFn, notifyFn, subscribersRef))
  {
  }

  /** Null, undefined and every other primitive are not signal-like. */
  lemma PrimitivesAreNotSignalLike(candidate: Value, props: map<string, Value>)
    requires !(candidate.Obj? || candidate.Arr? || candidate.Fn?)
    ensures !IsSignalLike(candidate, props)
  {
  }
}
