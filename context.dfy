/**
 * The context protocol of src/context.js: a provider answers the
 * `context-request` events for its own context with the value of its state
 * signal, and a consumer keeps the value it was handed and the unsubscribe
 * function of its provider.
 *
 * src/signal.js defines neither `get`, `set` nor `effect`, which the
 * provider calls. Here `get()` reads the state's value, `set(v)` is the
 * value setter, and `effect(fn)` subscribes a fresh callback `fn` to the
 * state and returns its unsubscriber; the effect's first run is the one in
 * which `unsubscribe` is still undefined, so it calls nothing. Events,
 * their bubbling and `stopPropagation` are reduced to the decision the
 * provider takes; the host's `requestUpdate()` is counted.
 */
module Contexts {
  import opened Js
  import opened Signals

  /** `string|Symbol`, compared with `!==`. */
  datatype Context = Named(name: string) | Symbol(id: nat)

  /** A `ContextRequestEvent`: its context, its callback and its `subscribe` flag. */
  datatype Request = Request(context: Context, callback: Callback, subscribe: Value)

  /** One call `ev.callback(value, unsubscribe)`; `None` is `undefined`. */
  datatype Answer = Answer(callback: Callback, value: Value, unsubscribe: Option<Unsubscriber>)

  /** What `onContextRequest` does with an event: nothing, or stop it and answer once. */
  datatype Response = Ignored | Stopped(answer: Answer)

  // ---------------------------------------------------------------------
  // The provider

  /**
   * The answers the provider's effects give when the state notifies them:
   * an effect callback in `effects` calls its consumer with the new value
   * and its own unsubscriber, which is defined by then.
   */
  function Forwarded(calls: seq<Call>, effects: map<Callback, Callback>): seq<Answer> {
    if calls == [] then []
    else
      var c := calls[0];
      (if c.callback in effects then [Answer(effects[c.callback], c.value, Some(Unsubscriber(c.callback)))] else [])
      + Forwarded(calls[1..], effects)
  }

  /**
   * After `set(v)` changes the state, every subscribed effect calls its
   * consumer exactly with `v` and its unsubscriber, and nothing else is
   * answered.
   */
  lemma {:induction false} ForwardedAnswers(subs: seq<Callback>, v: Value, effects: map<Callback, Callback>)
    ensures forall a :: a in Forwarded(CallsFor(subs, v), effects) <==>
      exists e :: e in subs && e in effects && a == Answer(effects[e], v, Some(Unsubscriber(e)))
  {
    if subs != [] {
      ForwardedAnswers(subs[1..], v, effects);
      var calls := CallsFor(subs, v);
      assert calls[0] == Call(subs[0], v) && calls[1..] == CallsFor(subs[1..], v);
      forall a ensures a in Forwarded(calls, effects) <==>
        exists e :: e in subs && e in effects && a == Answer(effects[e], v, Some(Unsubscriber(e)))
      {
        if exists e :: e in subs && e in effects && a == Answer(effects[e], v, Some(Unsubscriber(e))) {
          var e :| e in subs && e in effects && a == Answer(effects[e], v, Some(Unsubscriber(e)));
          if e != subs[0] {
            assert e in subs[1..];
          }
        }
      }
    }
  }

  /** The answer to a matching request: the current value, with the effect's unsubscriber when subscribing. */
  function AnswerTo(ev: Request, value: Value, effect: Callback): Answer {
    Answer(ev.callback, value, if Truthy(ev.subscribe) then Some(Unsubscriber(effect)) else None)
  }

  class ContextProvider {
    const context: Context
    /** `this.state` */
    const state: Signal
    /** The effect callbacks subscribed to `state`, each with the consumer callback it forwards to. */
    var effects: map<Callback, Callback>

    ghost predicate Valid()
      reads this, state
    {
      state.Valid()
    }

    /** `new ContextProvider(host, context, initialValue)` */
    constructor (context: Context, initialValue: Value)
      ensures Valid() && fresh(state)
      ensures this.context == context && state.value == initialValue && state.subscribers == [] && effects == map[]
    {
      this.context := context;
      state := new Signal(initialValue);
      effects := map[];
    }

    /** `set(newValue)`: the state's setter, and what the subscribed effects forward in consequence. */
    method Set(newValue: Value) returns (calls: seq<Call>, answers: seq<Answer>)
      requires Valid()
      modifies state
      ensures Valid() && state.subscribers == old(state.subscribers)
      ensures old(state.value) == newValue ==> state.value == old(state.value) && calls == [] && answers == []
      ensures old(state.value) != newValue ==>
        state.value == newValue && calls == CallsFor(state.subscribers, newValue) && answers == Forwarded(calls, effects)
    {
      calls := state.SetValue(newValue);
      answers := Forwarded(calls, effects);
    }

    /**
     * `onContextRequest(ev)`: a request for another context is ignored and
     * left to propagate; a matching one is stopped and answered once with
     * the current value. With `ev.subscribe` the fresh callback `effect` is
     * subscribed to the state first, calling nothing on its first run, and
     * its unsubscriber goes with the answer.
     */
    method OnContextRequest(ev: Request, effect: Callback) returns (r: Response)
      requires Valid()
      modifies this, state
      ensures Valid() && state.value == old(state.value)
      ensures ev.context != context ==> r == Ignored && state.subscribers == old(state.subscribers) && effects == old(effects)
      ensures ev.context == context ==> r == Stopped(AnswerTo(ev, old(state.value), effect))
      ensures ev.context == context && Truthy(ev.subscribe) ==>
                state.subscribers == Added(old(state.subscribers), effect) && effects == old(effects)[effect := ev.callback]
      ensures ev.context == context && !Truthy(ev.subscribe) ==>
                state.subscribers == old(state.subscribers) && effects == old(effects)
    {
      if ev.context != context {
        return Ignored;
      }
      var unsubscribe: Option<Unsubscriber> := None;
      if Truthy(ev.subscribe) {
        var u := state.Subscribe(effect);
        effects := effects[effect := ev.callback];
        unsubscribe := Some(u);
      }
      r := Stopped(Answer(ev.callback, state.value, unsubscribe));
    }

    /** Running an unsubscriber the provider handed out removes its effect from the state. */
    method RunUnsubscriber(u: Unsubscriber)
      requires Valid()
      modifies state
      ensures Valid() && state.value == old(state.value)
      ensures state.subscribers == Removed(old(state.subscribers), u.callback)
    {
      state.Unsubscribe(u);
    }
  }

  // ---------------------------------------------------------------------
  // The consumer

  /**
   * The `options` of a consumer; `validate` is `None` when it is undefined,
   * and otherwise gives what the function returns or the error it throws.
   */
  datatype ConsumerOptions = ConsumerOptions(subscribe: Value, validate: Option<Value -> Result<Value>>)

  /** `{ subscribe = false } = options || {}` then `!!subscribe` */
  function SubscribeOption(options: Option<ConsumerOptions>): bool {
    options.Some? && Truthy(options.value.subscribe)
  }

  /** `{ validate = () => true } = options || {}` */
  function ValidateOption(options: Option<ConsumerOptions>): (r: Value -> Result<Value>)
    ensures options.None? || options.value.validate.None? ==> forall v :: r(v) == Ok(Bool(true))
    ensures options.Some? && options.value.validate.Some? ==> r == options.value.validate.value
  {
    if options.Some? && options.value.validate.Some? then options.value.validate.value else (v: Value) => Ok(Bool(true))
  }

  /** The stored unsubscriber after `_callback`, and the unsubscribers it calls, in order. */
  datatype Handling = Handling(stored: Option<Unsubscriber>, called: seq<Unsubscriber>)

  /**
   * The `if (unsubscribe)` part of `_callback` as written: the handed
   * unsubscriber is stored only inside the branch for an unsubscriber that
   * is stored already.
   */
  function HandleUnsubscribeAsWritten(subscribe: bool, stored: Option<Unsubscriber>, given: Option<Unsubscriber>): Handling {
    if given.None? then Handling(stored, [])
    else if !subscribe then Handling(stored, [given.value])
    else if stored.Some? then Handling(given, if stored != given then [stored.value] else [])
    else Handling(stored, [])
  }

  /** The stored unsubscriber after the part as written has been handed each of `givens` in turn. */
  function StoredAfterAsWritten(subscribe: bool, stored: Option<Unsubscriber>, givens: seq<Option<Unsubscriber>>): Option<Unsubscriber>
    decreases |givens|
  {
    if givens == [] then stored
    else StoredAfterAsWritten(subscribe, HandleUnsubscribeAsWritten(subscribe, stored, givens[0]).stored, givens[1..])
  }

  /**
   * A consumer starts with no stored unsubscriber, and `_callback` as
   * written stores one only when one is stored already: whatever it is
   * handed, it never stores one, so `hostDisconnected` never unsubscribes
   * from a provider and the "previous provider" branch never runs.
   */
  lemma {:induction false} NeverStored(subscribe: bool, givens: seq<Option<Unsubscriber>>)
    ensures StoredAfterAsWritten(subscribe, None, givens) == None
    decreases |givens|
  {
    if givens != [] {
      NeverStored(subscribe, givens[1..]);
    }
  }

  /**
   * The first answer of a subscribing provider to a subscribing consumer,
   * as written: its unsubscriber is neither called nor stored.
   */
  lemma SubscribedAnswerKept(ev: Request, value: Value, effect: Callback)
    requires Truthy(ev.subscribe)
    ensures HandleUnsubscribeAsWritten(true, None, AnswerTo(ev, value, effect).unsubscribe) == Handling(None, [])
  {
  }

  /**
   * The `if (unsubscribe)` part of `_callback` as its comments intend: a
   * subscribing consumer keeps the unsubscriber it is handed, and calls the
   * one of a previous provider that it replaces.
   */
  function HandleUnsubscribe(subscribe: bool, stored: Option<Unsubscriber>, given: Option<Unsubscriber>): Handling {
    if given.None? then Handling(stored, [])
    else if !subscribe then Handling(stored, [given.value])
    else Handling(given, if stored.Some? && stored != given then [stored.value] else [])
  }

  /**
   * A consumer that did not ask to subscribe calls the unsubscriber it is
   * handed at once and keeps what it stored; a subscribing one stores the
   * unsubscriber it is handed and calls the old one exactly when it
   * differs; at most one unsubscriber is called.
   */
  lemma HandleUnsubscribeBranches(subscribe: bool, stored: Option<Unsubscriber>, given: Option<Unsubscriber>)
    ensures var h := HandleUnsubscribe(subscribe, stored, given);
      && |h.called| <= 1
      && (given.None? ==> h == Handling(stored, []))
      && (given.Some? && !subscribe ==> h == Handling(stored, [given.value]))
      && (given.Some? && subscribe ==> h.stored == given)
      && (h.stored != stored <==> subscribe && given.Some? && given != stored)
      && (subscribe && given.Some? && stored.Some? ==> (h.called == [stored.value] <==> given != stored))
      && (subscribe && given.Some? && (stored.None? || stored == given) ==> h.called == [])
  {
  }

  /** The stored unsubscriber after `_callback` has been handed each of `givens` in turn. */
  function StoredAfter(subscribe: bool, stored: Option<Unsubscriber>, givens: seq<Option<Unsubscriber>>): Option<Unsubscriber>
    decreases |givens|
  {
    if givens == [] then stored
    else StoredAfter(subscribe, HandleUnsubscribe(subscribe, stored, givens[0]).stored, givens[1..])
  }

  /**
   * A subscribing consumer holds the last unsubscriber it was handed, and
   * holds one exactly when it started with one or was handed one; a
   * consumer that did not subscribe never changes what it holds.
   */
  lemma {:induction false} StoredAfterHoldsLast(stored: Option<Unsubscriber>, givens: seq<Option<Unsubscriber>>)
    ensures StoredAfter(true, stored, givens).Some? <==>
              stored.Some? || exists i :: 0 <= i < |givens| && givens[i].Some?
    ensures givens != [] && givens[|givens| - 1].Some? ==> StoredAfter(true, stored, givens) == givens[|givens| - 1]
    ensures StoredAfter(false, stored, givens) == stored
    decreases |givens|
  {
    if givens != [] {
      var next := HandleUnsubscribe(true, stored, givens[0]).stored;
      StoredAfterHoldsLast(next, givens[1..]);
      StoredAfterHoldsLast(HandleUnsubscribe(false, stored, givens[0]).stored, givens[1..]);
      if exists i :: 0 <= i < |givens| && givens[i].Some? {
        var i :| 0 <= i < |givens| && givens[i].Some?;
        if i > 0 {
          assert givens[1..][i - 1].Some?;
        }
      }
      if exists i :: 0 <= i < |givens[1..]| && givens[1..][i].Some? {
        var i :| 0 <= i < |givens[1..]| && givens[1..][i].Some?;
        assert givens[i + 1].Some?;
      }
      if |givens| > 1 {
        assert givens[1..][|givens[1..]| - 1] == givens[|givens| - 1];
      }
    }
  }

  /** The first answer of a subscribing provider to a subscribing consumer is kept, and nothing is called. */
  lemma SubscribedAnswerStored(ev: Request, value: Value, effect: Callback)
    requires Truthy(ev.subscribe)
    ensures HandleUnsubscribe(true, None, AnswerTo(ev, value, effect).unsubscribe) == Handling(Some(Unsubscriber(effect)), [])
  {
  }

  /** A consumer that did not subscribe always unsubscribes from what a provider hands it. */
  lemma UnsubscribedAnswerReleased(ev: Request, value: Value, effect: Callback, stored: Option<Unsubscriber>)
    requires Truthy(ev.subscribe)
    ensures HandleUnsubscribe(false, stored, AnswerTo(ev, value, effect).unsubscribe) == Handling(stored, [Unsubscriber(effect)])
  {
  }

  class ContextConsumer {
    const context: Context
    /** `this.subscribe` */
    const subscribe: bool
    /** `this.validate` */
    const validate: Value -> Result<Value>
    /** `this.value` */
    var value: Value
    /** `this.unsubscribe`; `None` is `undefined` */
    var unsubscribe: Option<Unsubscriber>
    /** How many times `host.requestUpdate()` has been called. */
    var updateRequests: nat

    /** `new ContextConsumer(host, context, options)` */
    constructor (context: Context, options: Option<ConsumerOptions>)
      ensures this.context == context
      ensures subscribe == SubscribeOption(options) && validate == ValidateOption(options)
      ensures value == Undefined && unsubscribe == None && updateRequests == 0
    {
      this.context := context;
      subscribe := SubscribeOption(options);
      validate := ValidateOption(options);
      value := Undefined;
      unsubscribe := None;
      updateRequests := 0;
    }

    /** `dispatchRequest()`, with `bound` the function `this._callback.bind(this)`. */
    method DispatchRequest(bound: Callback) returns (ev: Request)
      ensures ev == Request(context, bound, Bool(subscribe))
    {
      ev := Request(context, bound, Bool(subscribe));
    }

    /** `hostDisconnected()`: calls the stored unsubscriber once and forgets it. */
    method HostDisconnected() returns (called: seq<Unsubscriber>)
      modifies this
      ensures unsubscribe == None
      ensures called == if old(unsubscribe).Some? then [old(unsubscribe).value] else []
      ensures value == old(value) && updateRequests == old(updateRequests)
    {
      called := [];
      if unsubscribe.Some? {
        called := [unsubscribe.value];
        unsubscribe := None;
      }
    }

    /**
     * `_callback(value, unsubscribe)`: handles the unsubscriber, then keeps
     * the value and requests an update only when `validate` accepts it; an
     * error `validate` throws propagates after the unsubscriber is handled.
     */
    method Callback(v: Value, given: Option<Unsubscriber>) returns (called: seq<Unsubscriber>, r: Result<()>)
      modifies this
      ensures var h := HandleUnsubscribe(subscribe, old(unsubscribe), given);
        unsubscribe == h.stored && called == h.called
      ensures validate(v).Throw? ==>
        r == Throw(validate(v).exception) && value == old(value) && updateRequests == old(updateRequests)
      ensures validate(v).Ok? && Truthy(validate(v).value) ==>
        r == Ok(()) && value == v && updateRequests == old(updateRequests) + 1
      ensures validate(v).Ok? && !Truthy(validate(v).value) ==>
        r == Ok(()) && value == old(value) && updateRequests == old(updateRequests)
    {
      called := [];
      if given.Some? {
        if !subscribe {
          called := [given.value];
        } else {
          if unsubscribe.Some? && unsubscribe != given {
            called := [unsubscribe.value];
          }
          unsubscribe := given;
        }
      }
      var ok := validate(v);
      if ok.Throw? {
        return called, Throw(ok.exception);
      }
      r := Ok(());
      if !Truthy(ok.value) {
        return;
      }
      value := v;
      updateRequests := updateRequests + 1;
    }
  }

  /**
   * A subscribing consumer handed an unsubscriber releases it when its host
   * disconnects: `_callback` stores it, and `hostDisconnected` calls it.
   */
  method SubscribedLifecycle(context: Context, v: Value, u: Unsubscriber) returns (released: seq<Unsubscriber>)
    ensures released == [u]
  {
    var consumer := new ContextConsumer(context, Some(ConsumerOptions(Bool(true), None)));
    var _, _ := consumer.Callback(v, Some(u));
    released := consumer.HostDisconnected();
  }

  /** A default consumer accepts every value and does not subscribe. */
  lemma DefaultOptions(v: Value)
    ensures !SubscribeOption(None) && ValidateOption(None)(v) == Ok(Bool(true))
    ensures !SubscribeOption(Some(ConsumerOptions(Undefined, None)))
            && ValidateOption(Some(ConsumerOptions(Undefined, None)))(v) == Ok(Bool(true))
  {
  }
}
