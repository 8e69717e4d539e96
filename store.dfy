/**
 * The Flux store of src/store.js: a signal whose value only the named
 * actions change, and `subscribeToStore`, which forwards the store's value
 * to a signal or to a property path of an element.
 *
 * Calling a JavaScript function value is code the model cannot see; it is
 * the parameter `call`, where `call(f, x)` is what `f(x)` returns or the
 * error it throws.
 * `process.env.NODE_ENV === 'production'` is the parameter `production`.
 */
module Stores {
  import opened Js
  import opened Signals
  import opened Elements

  /** One `[action, dispatcher]` pair of `Object.entries(actions)`. */
  datatype ActionEntry = ActionEntry(name: string, dispatcher: Value)

  /** The names of the entries, in order. */
  function ActionNames(entries: seq<ActionEntry>): (r: seq<string>)
    ensures |r| == |entries|
    ensures forall i :: 0 <= i < |entries| ==> r[i] == entries[i].name
  {
    if entries == [] then [] else [entries[0].name] + ActionNames(entries[1..])
  }

  // ---------------------------------------------------------------------
  // Which names a Store already has

  /**
   * The members every Store has before its actions are installed: the own
   * fields `_subscribers` and `_value`, and `value`, `notify` and
   * `subscribe` of `Signal.prototype`.
   */
  const StoreMembers: set<string> := {"_subscribers", "_value", "value", "notify", "subscribe"}

  /**
   * The check `if (this[action])` as written: it asks whether the member is
   * truthy, and `this.value` and `this._value` are the initial value, so a
   * falsy initial value lets those two names through.
   */
  predicate DefinedAsWritten(installed: set<string>, initialValue: Value, name: string) {
    || name in installed
    || name in {"_subscribers", "notify", "subscribe"}
    || name in ObjectPrototypeMembers
    || ((name == "value" || name == "_value") && Truthy(initialValue))
  }

  /**
   * With `new Store({ value: () => (state) => state }, 0)` the check as
   * written does not raise: the action is installed by assigning
   * `this.value`, which runs the `value` setter and replaces the state 0
   * by the action's closure.
   */
  lemma DefinedAsWrittenMissesFalsyValue(installed: set<string>)
    requires "value" !in installed && "_value" !in installed
    ensures !DefinedAsWritten(installed, Num(0), "value")
    ensures !DefinedAsWritten(installed, Num(0), "_value")
  {
  }

  /** "Already defined" as the error message means it: the name is a member, whatever its value. */
  predicate Defined(installed: set<string>, name: string) {
    name in installed || name in StoreMembers || name in ObjectPrototypeMembers
  }

  /**
   * The check as written catches only names that `Defined` also catches,
   * and with a truthy initial value the two agree.
   */
  lemma DefinedRefinesAsWritten(installed: set<string>, initialValue: Value, name: string)
    ensures DefinedAsWritten(installed, initialValue, name) ==> Defined(installed, name)
    ensures Truthy(initialValue) ==> (DefinedAsWritten(installed, initialValue, name) <==> Defined(installed, name))
    ensures Defined(installed, "value") && Defined(installed, "_value")
  {
  }

  /** `action "<name>" is already defined` */
  function AlreadyDefinedMessage(name: string): string {
    "action \"" + name + "\" is already defined"
  }

  /** ``action "<name>" must be a function of type `() => (state) => state` `` */
  function NotADispatcherMessage(name: string): string {
    "action \"" + name + "\" must be a function of type `() => (state) => state`"
  }

  // ---------------------------------------------------------------------
  // The constructor's loop

  /** Installing one entry on the actions installed so far. */
  function InstallOne(installed: map<string, Value>, e: ActionEntry, production: bool, call: (Value, Value) -> Result<Value>)
    : Result<map<string, Value>>
  {
    if production then Ok(installed[e.name := e.dispatcher])
    else if Defined(installed.Keys, e.name) then Throw(Exception(PlainError, AlreadyDefinedMessage(e.name)))
    else if !e.dispatcher.Fn? then Throw(Exception(PlainError, NotADispatcherMessage(e.name)))
    else
      match call(e.dispatcher, Undefined)
      case Throw(ex) => Throw(ex)
      case Ok(reducer) =>
        if !reducer.Fn? then Throw(Exception(PlainError, NotADispatcherMessage(e.name)))
        else Ok(installed[e.name := e.dispatcher])
  }

  /** The actions after the loop has visited `entries`, or the first error it raises. */
  function InstallOf(entries: seq<ActionEntry>, production: bool, call: (Value, Value) -> Result<Value>): Result<map<string, Value>>
    decreases |entries|
  {
    if entries == [] then Ok(map[])
    else
      match InstallOf(entries[..|entries| - 1], production, call)
      case Throw(ex) => Throw(ex)
      case Ok(installed) => InstallOne(installed, entries[|entries| - 1], production, call)
  }

  /** Once an entry raises, the constructor raises that error whatever follows. */
  lemma {:induction false} InstallStopsAtError(entries: seq<ActionEntry>, j: nat, production: bool, call: (Value, Value) -> Result<Value>)
    requires j <= |entries| && InstallOf(entries[..j], production, call).Throw?
    ensures InstallOf(entries, production, call) == InstallOf(entries[..j], production, call)
    decreases |entries|
  {
    if j < |entries| {
      var init := entries[..|entries| - 1];
      assert init[..j] == entries[..j];
      InstallStopsAtError(init, j, production, call);
    } else {
      assert entries[..j] == entries;
    }
  }

  /** The loop's step: the entry at `i` is installed on what the entries before it left. */
  lemma InstallStep(entries: seq<ActionEntry>, i: nat, production: bool, call: (Value, Value) -> Result<Value>)
    requires i < |entries| && InstallOf(entries[..i], production, call).Ok?
    ensures InstallOf(entries[..i + 1], production, call)
            == InstallOne(InstallOf(entries[..i], production, call).value, entries[i], production, call)
  {
    var step := entries[..i + 1];
    assert step[..i] == entries[..i] && step[i] == entries[i];
  }

  /** The loop of the constructor over `Object.entries(actions)`. */
  method InstallActions(entries: seq<ActionEntry>, production: bool, call: (Value, Value) -> Result<Value>)
    returns (r: Result<map<string, Value>>)
    ensures r == InstallOf(entries, production, call)
  {
    var installed: map<string, Value> := map[];
    for i := 0 to |entries|
      invariant InstallOf(entries[..i], production, call) == Ok(installed)
    {
      assert entries[..i + 1][..i] == entries[..i];
      var e := entries[i];
      if !production {
        if e.name in installed || e.name in StoreMembers || e.name in ObjectPrototypeMembers {
          InstallStopsAtError(entries, i + 1, production, call);
          return Throw(Exception(PlainError, AlreadyDefinedMessage(e.name)));
        }
        if TypeOf(e.dispatcher) != "function" {
          InstallStopsAtError(entries, i + 1, production, call);
          return Throw(Exception(PlainError, NotADispatcherMessage(e.name)));
        }
        var reducer := call(e.dispatcher, Undefined);
        if reducer.Throw? {
          InstallStopsAtError(entries, i + 1, production, call);
          return Throw(reducer.exception);
        }
        if TypeOf(reducer.value) != "function" {
          InstallStopsAtError(entries, i + 1, production, call);
          return Throw(Exception(PlainError, NotADispatcherMessage(e.name)));
        }
      }
      installed := installed[e.name := e.dispatcher];
    }
    assert entries[..|entries|] == entries;
    r := Ok(installed);
  }

  predicate DistinctNames(entries: seq<ActionEntry>) {
    forall i, j :: 0 <= i < j < |entries| ==> entries[i].name != entries[j].name
  }

  lemma NamesOfSnoc(init: seq<ActionEntry>, last: ActionEntry)
    ensures (set e | e in init + [last] :: e.name) == (set e | e in init :: e.name) + {last.name}
  {
    var l, r := set e | e in init + [last] :: e.name, (set e | e in init :: e.name) + {last.name};
    forall n | n in r ensures n in l {
      if n != last.name {
        var e :| e in init && e.name == n;
        assert e in init + [last];
      } else {
        assert last in init + [last];
      }
    }
  }

  /** A store that is built has one action per entry name. */
  lemma {:induction false} InstalledNames(entries: seq<ActionEntry>, production: bool, call: (Value, Value) -> Result<Value>)
    requires InstallOf(entries, production, call).Ok?
    ensures InstallOf(entries, production, call).value.Keys == set e | e in entries :: e.name
    decreases |entries|
  {
    if entries != [] {
      var init, last := entries[..|entries| - 1], entries[|entries| - 1];
      InstalledNames(init, production, call);
      assert InstallOf(entries, production, call).value.Keys == InstallOf(init, production, call).value.Keys + {last.name};
      NamesOfSnoc(init, last);
      assert entries == init + [last];
    }
  }

  /** Each action of a built store runs the dispatcher of its own entry. */
  lemma {:induction false} InstalledDispatchers(entries: seq<ActionEntry>, production: bool, call: (Value, Value) -> Result<Value>)
    requires DistinctNames(entries) && InstallOf(entries, production, call).Ok?
    ensures var m := InstallOf(entries, production, call).value;
      forall i :: 0 <= i < |entries| ==> entries[i].name in m && m[entries[i].name] == entries[i].dispatcher
    decreases |entries|
  {
    if entries != [] {
      var init, last := entries[..|entries| - 1], entries[|entries| - 1];
      assert DistinctNames(init);
      InstalledDispatchers(init, production, call);
      var m := InstallOf(entries, production, call).value;
      forall i | 0 <= i < |entries| ensures entries[i].name in m && m[entries[i].name] == entries[i].dispatcher {
        if i < |init| {
          assert entries[i] == init[i] && entries[i].name != last.name;
        }
      }
    }
  }

  /**
   * With the checks on, every installed dispatcher is a function that
   * returns a function when called with `undefined`, and no action hides a
   * member of the Store.
   */
  lemma {:induction false} InstalledChecked(entries: seq<ActionEntry>, call: (Value, Value) -> Result<Value>)
    requires InstallOf(entries, false, call).Ok?
    ensures var m := InstallOf(entries, false, call).value;
      forall n :: n in m ==> && m[n].Fn? && call(m[n], Undefined).Ok? && call(m[n], Undefined).value.Fn?
                             && n !in StoreMembers && n !in ObjectPrototypeMembers
    decreases |entries|
  {
    if entries != [] {
      InstalledChecked(entries[..|entries| - 1], call);
    }
  }

  /** In production mode nothing is checked and the constructor never raises. */
  lemma {:induction false} ProductionNeverThrows(entries: seq<ActionEntry>, call: (Value, Value) -> Result<Value>)
    ensures InstallOf(entries, true, call).Ok?
    decreases |entries|
  {
    if entries != [] {
      ProductionNeverThrows(entries[..|entries| - 1], call);
    }
  }

  /**
   * The first entry that fails the checks decides the error: a name that is
   * already a member raises `already defined`; otherwise a dispatcher that
   * throws when called with `undefined` raises its own error, and one that
   * is not a curried function raises `must be a function`.
   */
  lemma FirstRejectedEntry(entries: seq<ActionEntry>, i: nat, call: (Value, Value) -> Result<Value>)
    requires i < |entries| && InstallOf(entries[..i], false, call).Ok?
    ensures var installed := InstallOf(entries[..i], false, call).value;
      var e := entries[i];
      && (Defined(installed.Keys, e.name) ==>
            InstallOf(entries, false, call) == Throw(Exception(PlainError, AlreadyDefinedMessage(e.name))))
      && (!Defined(installed.Keys, e.name) && e.dispatcher.Fn? && call(e.dispatcher, Undefined).Throw? ==>
            InstallOf(entries, false, call) == Throw(call(e.dispatcher, Undefined).exception))
      && (!Defined(installed.Keys, e.name)
          && (!e.dispatcher.Fn? || (call(e.dispatcher, Undefined).Ok? && !call(e.dispatcher, Undefined).value.Fn?)) ==>
            InstallOf(entries, false, call) == Throw(Exception(PlainError, NotADispatcherMessage(e.name))))
  {
    var installed := InstallOf(entries[..i], false, call).value;
    var one := InstallOne(installed, entries[i], false, call);
    InstallStep(entries, i, false, call);
    if one.Throw? {
      InstallStopsAtError(entries, i + 1, false, call);
      assert InstallOf(entries, false, call) == one;
    }
  }

  /**
   * `new Store({ increment: (by) => by }, 0)` raises the `must be a
   * function` error for `increment`: its dispatcher returns `undefined`.
   */
  lemma NotCurriedExample(f: nat, call: (Value, Value) -> Result<Value>)
    requires call(Fn(f), Undefined) == Ok(Undefined)
    ensures InstallOf([ActionEntry("increment", Fn(f))], false, call)
            == Throw(Exception(PlainError, NotADispatcherMessage("increment")))
  {
    var es := [ActionEntry("increment", Fn(f))];
    assert es[..0] == [];
    assert !Defined({}, "increment");
  }

  /**
   * `new Store({ boom: () => { throw err } })` raises `err` itself: the check
   * calls the dispatcher, and nothing catches what it throws.
   */
  lemma ThrowingDispatcherExample(f: nat, ex: Exception, call: (Value, Value) -> Result<Value>)
    requires call(Fn(f), Undefined) == Throw(ex)
    ensures InstallOf([ActionEntry("boom", Fn(f))], false, call) == Throw(ex)
  {
    var es := [ActionEntry("boom", Fn(f))];
    assert es[..0] == [];
    assert !Defined({}, "boom");
  }

  /** An action named like a method of the Store, such as `subscribe`, raises `already defined`. */
  lemma MemberNameExample(d: Value, call: (Value, Value) -> Result<Value>)
    ensures InstallOf([ActionEntry("subscribe", d)], false, call)
            == Throw(Exception(PlainError, AlreadyDefinedMessage("subscribe")))
  {
    var es := [ActionEntry("subscribe", d)];
    assert es[..0] == [];
  }

  // ---------------------------------------------------------------------
  // Dispatching an action

  /**
   * What `dispatcher(data)(state)` evaluates to. Calling something that is
   * not a function raises the engine's TypeError, the texts being those of
   * V8; an error either call throws propagates.
   */
  function DispatchOutcome(dispatcher: Value, data: Value, state: Value, call: (Value, Value) -> Result<Value>): Result<Value> {
    if !dispatcher.Fn? then Throw(Exception(TypeError, "dispatcher is not a function"))
    else
      match call(dispatcher, data)
      case Throw(ex) => Throw(ex)
      case Ok(reducer) =>
        if !reducer.Fn? then Throw(Exception(TypeError, "dispatcher(...) is not a function"))
        else call(reducer, state)
  }

  /**
   * With the checks on, an installed action called without data always
   * reaches its reducer: the outcome is what the reducer returns or throws.
   */
  lemma CheckedActionsDispatch(entries: seq<ActionEntry>, call: (Value, Value) -> Result<Value>, state: Value)
    requires InstallOf(entries, false, call).Ok?
    ensures var m := InstallOf(entries, false, call).value;
      forall n :: n in m ==> call(m[n], Undefined).Ok?
                             && DispatchOutcome(m[n], Undefined, state, call) == call(call(m[n], Undefined).value, state)
  {
    InstalledChecked(entries, call);
  }

  class Store {
    /** The Signal a Store is. */
    const signal: Signal
    /** The installed actions, each with its dispatcher. */
    var actions: map<string, Value>
    /** Calling a function value. */
    const call: (Value, Value) -> Result<Value>

    ghost predicate Valid()
      reads this, signal
    {
      signal.Valid()
    }

    constructor (initialValue: Value, installed: map<string, Value>, call: (Value, Value) -> Result<Value>)
      ensures Valid()
      ensures signal.value == initialValue && signal.subscribers == []
      ensures fresh(signal)
      ensures actions == installed && this.call == call
    {
      signal := new Signal(initialValue);
      actions := installed;
      this.call := call;
    }

    /**
     * `new Store(actions, initialValue)`: the Store starts with the initial
     * value and no subscriber, and installs the actions or raises the first
     * error of its checks.
     */
    static method Create(entries: seq<ActionEntry>, initialValue: Value, production: bool, call: (Value, Value) -> Result<Value>)
      returns (r: Result<Store>)
      ensures r.Ok? <==> InstallOf(entries, production, call).Ok?
      ensures r.Throw? ==> r.exception == InstallOf(entries, production, call).exception
      ensures r.Ok? ==> && fresh(r.value) && fresh(r.value.signal) && r.value.Valid()
                        && r.value.signal.value == initialValue && r.value.signal.subscribers == []
                        && r.value.actions == InstallOf(entries, production, call).value
                        && r.value.call == call
    {
      var installed := InstallActions(entries, production, call);
      if installed.Throw? {
        return Throw(installed.exception);
      }
      var store := new Store(initialValue, installed.value, call);
      r := Ok(store);
    }

    /**
     * `store[name](data)`: `this.value = dispatcher(data)(this.value)`; the
     * subscribers are called only when the new state differs, and an error
     * thrown on the way leaves the state as it was.
     */
    method Dispatch(name: string, data: Value) returns (r: Result<seq<Call>>)
      requires Valid() && name in actions
      modifies signal
      ensures Valid() && signal.subscribers == old(signal.subscribers)
      ensures var out := DispatchOutcome(actions[name], data, old(signal.value), call);
        && (out.Throw? ==> r == Throw(out.exception) && signal.value == old(signal.value))
        && (out.Ok? && out.value == old(signal.value) ==> r == Ok([]) && signal.value == old(signal.value))
        && (out.Ok? && out.value != old(signal.value) ==>
              r == Ok(CallsFor(signal.subscribers, out.value)) && signal.value == out.value)
    {
      var dispatcher := actions[name];
      if !dispatcher.Fn? {
        return Throw(Exception(TypeError, "dispatcher is not a function"));
      }
      var reducer := call(dispatcher, data);
      if reducer.Throw? {
        return Throw(reducer.exception);
      }
      if !reducer.value.Fn? {
        return Throw(Exception(TypeError, "dispatcher(...) is not a function"));
      }
      var next := call(reducer.value, signal.value);
      if next.Throw? {
        return Throw(next.exception);
      }
      var calls := signal.SetValue(next.value);
      r := Ok(calls);
    }
  }

  // ---------------------------------------------------------------------
  // subscribeToStore: the target

  /**
   * The third argument of `subscribeToStore`: a Signal or signal-like
   * object, an array of property names, or a dotted path.
   */
  datatype Target = SignalTarget(signal: Value) | KeyList(keys: seq<string>) | Path(path: string)

  /** `.filter(Boolean)` on strings: the empty segments are dropped. */
  function NonEmpty(parts: seq<string>): (r: seq<string>)
    ensures forall p :: p in r <==> p in parts && p != ""
    ensures |r| <= |parts|
  {
    if parts == [] then []
    else (if parts[0] != "" then [parts[0]] else []) + NonEmpty(parts[1..])
  }

  /** `keys` before `pop()`: the array as given, or the path's non-empty segments. */
  function PathKeys(t: Target): seq<string>
    requires !t.SignalTarget?
  {
    if t.KeyList? then t.keys else NonEmpty(Split(t.path, '.'))
  }

  lemma {:induction false} NonEmptyOfNonEmpty(parts: seq<string>)
    requires forall k :: 0 <= k < |parts| ==> parts[k] != ""
    ensures NonEmpty(parts) == parts
  {
    if parts != [] {
      NonEmptyOfNonEmpty(parts[1..]);
      assert parts == [parts[0]] + parts[1..];
    }
  }

  /** A path made of non-empty names joined by '.' gives back exactly those names. */
  lemma PathKeysOfJoin(parts: seq<string>)
    requires |parts| >= 1
    requires forall k :: 0 <= k < |parts| ==> parts[k] != "" && '.' !in parts[k]
    ensures PathKeys(Path(Join(parts, "."))) == parts
  {
    SplitJoin(parts, '.');
    NonEmptyOfNonEmpty(parts);
  }

  /** No segment of a path is empty. */
  lemma PathSegments(path: string)
    ensures forall p :: p in PathKeys(Path(path)) ==> p != ""
  {
  }

  /** Where a property is read from: the element itself or a value reached from it. */
  datatype Holder = Host | Ref(ref: Value)

  /** What the subscription callback assigns the store's value to. */
  datatype Binding = ToSignal(target: Value) | ToProperty(holder: Holder, key: string)

  /**
   * The properties of the objects the path can reach, by reference; a
   * missing property reads as `undefined`.
   */
  type Heap = map<nat, map<string, Value>>

  /**
   * `element[key]`: a declared attribute's accessor returns the attribute,
   * otherwise an own property of the element, otherwise `undefined`.
   */
  function HostProperty(attr: map<string, Value>, expando: map<string, Value>, key: string): Value {
    if key in attr then attr[key] else if key in expando then expando[key] else Undefined
  }

  /** `tmp[key]`; reading a property of `null` raises V8's TypeError. */
  function Property(attr: map<string, Value>, expando: map<string, Value>, heap: Heap, h: Holder, key: string): Result<Value> {
    match h
    case Host => Ok(HostProperty(attr, expando, key))
    case Ref(v) =>
      if v.Null? then Throw(Exception(TypeError, "Cannot read properties of null (reading '" + key + "')"))
      else if (v.Obj? || v.Arr? || v.Fn?) && v.id in heap && key in heap[v.id] then Ok(heap[v.id][key])
      else Ok(Undefined)
  }

  /** `object expected for property "<key>"` */
  function ObjectExpectedMessage(key: string): string {
    "object expected for property \"" + key + "\""
  }

  /** One turn of the walk: read `tmp[key]` and insist that it is an object (`null` included). */
  function WalkStep(attr: map<string, Value>, expando: map<string, Value>, heap: Heap, h: Holder, key: string): Result<Holder> {
    match Property(attr, expando, heap, h, key)
    case Throw(ex) => Throw(ex)
    case Ok(v) =>
      if v.Null? || v.Obj? || v.Arr? then Ok(Ref(v))
      else Throw(Exception(TypeError, ObjectExpectedMessage(key)))
  }

  /** `tmp` after the loop has walked `keys` from the element, or the error it raised. */
  function Walk(attr: map<string, Value>, expando: map<string, Value>, heap: Heap, keys: seq<string>): Result<Holder>
    decreases |keys|
  {
    if keys == [] then Ok(Host)
    else
      match Walk(attr, expando, heap, keys[..|keys| - 1])
      case Throw(ex) => Throw(ex)
      case Ok(h) => WalkStep(attr, expando, heap, h, keys[|keys| - 1])
  }

  /** Once a key fails, the walk raises that error whatever follows. */
  lemma {:induction false} WalkStopsAtError(attr: map<string, Value>, expando: map<string, Value>, heap: Heap, keys: seq<string>, j: nat)
    requires j <= |keys| && Walk(attr, expando, heap, keys[..j]).Throw?
    ensures Walk(attr, expando, heap, keys) == Walk(attr, expando, heap, keys[..j])
    decreases |keys|
  {
    if j < |keys| {
      var init := keys[..|keys| - 1];
      assert init[..j] == keys[..j];
      WalkStopsAtError(attr, expando, heap, init, j);
    } else {
      assert keys[..j] == keys;
    }
  }

  /** What `subscribeToStore` binds the store to, or the error it raises before subscribing. */
  function BindingOf(t: Target, attr: map<string, Value>, expando: map<string, Value>, heap: Heap): Result<Binding> {
    if t.SignalTarget? then Ok(ToSignal(t.signal))
    else
      var keys := PathKeys(t);
      if keys == [] || keys[|keys| - 1] == "" then Throw(Exception(TypeError, "need prop"))
      else
        match Walk(attr, expando, heap, keys[..|keys| - 1])
        case Throw(ex) => Throw(ex)
        case Ok(h) => Ok(ToProperty(h, keys[|keys| - 1]))
  }

  /** The part of `subscribeToStore` before it subscribes: the target, the keys and the walk. */
  method ResolveTarget(t: Target, attr: map<string, Value>, expando: map<string, Value>, heap: Heap)
    returns (r: Result<Binding>)
    ensures r == BindingOf(t, attr, expando, heap)
  {
    if t.SignalTarget? {
      return Ok(ToSignal(t.signal));
    }
    var keys := PathKeys(t);
    if keys == [] {
      return Throw(Exception(TypeError, "need prop"));
    }
    var last := keys[|keys| - 1];
    var path := keys[..|keys| - 1];
    if last == "" {
      return Throw(Exception(TypeError, "need prop"));
    }
    var walked := WalkPath(attr, expando, heap, path);
    if walked.Throw? {
      return Throw(walked.exception);
    }
    r := Ok(ToProperty(walked.value, last));
  }

  /** The loop of `subscribeToStore` that walks `tmp` from the element along `keys`. */
  method WalkPath(attr: map<string, Value>, expando: map<string, Value>, heap: Heap, keys: seq<string>)
    returns (r: Result<Holder>)
    ensures r == Walk(attr, expando, heap, keys)
  {
    var tmp := Host;
    for i := 0 to |keys|
      invariant Walk(attr, expando, heap, keys[..i]) == Ok(tmp)
    {
      assert keys[..i + 1][..i] == keys[..i];
      var v := Property(attr, expando, heap, tmp, keys[i]);
      if v.Throw? {
        WalkStopsAtError(attr, expando, heap, keys, i + 1);
        return Throw(v.exception);
      }
      if TypeOf(v.value) != "object" {
        WalkStopsAtError(attr, expando, heap, keys, i + 1);
        return Throw(Exception(TypeError, ObjectExpectedMessage(keys[i])));
      }
      tmp := Ref(v.value);
    }
    assert keys[..|keys|] == keys;
    r := Ok(tmp);
  }

  /** A path without names, such as '' or '..', raises `need prop`. */
  lemma NeedProp(t: Target, attr: map<string, Value>, expando: map<string, Value>, heap: Heap)
    requires !t.SignalTarget? && (PathKeys(t) == [] || PathKeys(t)[|PathKeys(t)| - 1] == "")
    ensures BindingOf(t, attr, expando, heap) == Throw(Exception(TypeError, "need prop"))
  {
  }

  lemma EmptyPathExample(attr: map<string, Value>, expando: map<string, Value>, heap: Heap)
    ensures BindingOf(Path(""), attr, expando, heap) == Throw(Exception(TypeError, "need prop"))
    ensures BindingOf(KeyList([]), attr, expando, heap) == Throw(Exception(TypeError, "need prop"))
  {
    assert Split("", '.') == [""];
  }

  /** A single name binds the element's own property of that name, with nothing to walk. */
  lemma SingleKeyBindsHost(k: string, attr: map<string, Value>, expando: map<string, Value>, heap: Heap)
    requires k != "" && '.' !in k
    ensures BindingOf(Path(k), attr, expando, heap) == Ok(ToProperty(Host, k))
  {
    PathKeysOfJoin([k]);
    assert Join([k], ".") == k;
    assert [k][..0] == [];
  }

  /**
   * The walk raises at the first key whose value is neither an object nor
   * null, with that key in the message.
   */
  lemma WalkRejectsNonObject(attr: map<string, Value>, expando: map<string, Value>, heap: Heap, keys: seq<string>, i: nat)
    requires i < |keys| && Walk(attr, expando, heap, keys[..i]).Ok?
    requires var p := Property(attr, expando, heap, Walk(attr, expando, heap, keys[..i]).value, keys[i]);
      p.Ok? && !(p.value.Null? || p.value.Obj? || p.value.Arr?)
    ensures Walk(attr, expando, heap, keys) == Throw(Exception(TypeError, ObjectExpectedMessage(keys[i])))
  {
    assert keys[..i + 1][..i] == keys[..i];
    WalkStopsAtError(attr, expando, heap, keys, i + 1);
  }

  /**
   * The path 'a.b' walks to the object held by the element's property `a`
   * and binds its property `b`; a primitive under `a` raises instead.
   */
  lemma TwoKeyWalk(a: string, b: string, attr: map<string, Value>, expando: map<string, Value>, heap: Heap)
    requires a != "" && b != ""
    ensures var v := HostProperty(attr, expando, a);
      && ((v.Null? || v.Obj? || v.Arr?) ==> BindingOf(KeyList([a, b]), attr, expando, heap) == Ok(ToProperty(Ref(v), b)))
      && (!(v.Null? || v.Obj? || v.Arr?) ==>
            BindingOf(KeyList([a, b]), attr, expando, heap) == Throw(Exception(TypeError, ObjectExpectedMessage(a))))
  {
    assert [a, b][..1] == [a] && [a][..0] == [];
    assert Walk(attr, expando, heap, [a]) == WalkStep(attr, expando, heap, Host, a);
  }

  /**
   * `subscribeToStore(element, store, propOrSignal)`: resolves the target,
   * then subscribes the new callback `cb` to the store and registers the
   * unsubscriber that `store.subscribe` returns, the new function value
   * `Fn(unsubscribeRef)`, with `element.dispose`. `disposerRuns` records
   * which unsubscriber that function runs. An error leaves the store and the
   * element untouched. The store is not one of the element's own attribute
   * signals.
   */
  method SubscribeToStore(element: MiElement, store: Store, t: Target, heap: Heap, cb: Callback, unsubscribeRef: nat)
    returns (r: Result<Binding>)
    requires element.Valid() && store.Valid() && store.signal !in element.owners
    requires cb !in store.signal.subscribers && Fn(unsubscribeRef) !in element.disposers
    modifies element, store.signal
    ensures r == BindingOf(t, old(element.attr), old(element.expando), heap)
    ensures element.Valid() && store.Valid() && store.signal.value == old(store.signal.value)
    ensures r.Throw? ==> && store.signal.subscribers == old(store.signal.subscribers)
                         && element.disposers == old(element.disposers)
                         && element.disposerRuns == old(element.disposerRuns)
    ensures r.Ok? ==> && store.signal.subscribers == old(store.signal.subscribers) + [cb]
                      && element.disposers == old(element.disposers) + [Fn(unsubscribeRef)]
                      && multiset(element.disposers)[Fn(unsubscribeRef)] == 1
                      && element.disposerRuns == old(element.disposerRuns)[Fn(unsubscribeRef) := Unsubscriber(cb)]
                      && Removed(store.signal.subscribers, element.disposerRuns[Fn(unsubscribeRef)].callback)
                         == old(store.signal.subscribers)
    ensures element.attr == old(element.attr) && element.signals == old(element.signals) && element.owners == old(element.owners)
    ensures element.expando == old(element.expando) && element.frameRequests == old(element.frameRequests)
    ensures element.attrLc == old(element.attrLc) && element.types == old(element.types) && element.changedAttr == old(element.changedAttr)
    ensures element.dom == old(element.dom) && element.isConnected == old(element.isConnected)
  {
    r := ResolveTarget(t, element.attr, element.expando, heap);
    if r.Throw? {
      return;
    }
    ghost var subs := store.signal.subscribers;
    var unsubscribe := store.signal.Subscribe(cb);
    SubscribeThenUnsubscribe(subs, cb);
    element.disposerRuns := element.disposerRuns[Fn(unsubscribeRef) := unsubscribe];
    var listeners := [Fn(unsubscribeRef)];
    assert listeners[..1] == listeners && listeners[..0] == [];
    var _ := element.Dispose(listeners);
  }

}
