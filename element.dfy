/**
 * The attribute bookkeeping of `MiElement` in src/element.js, with the DOM
 * abstracted away: the host's attributes are a map from lower-cased name to
 * the value handed to the DOM, and `requestAnimationFrame` is a counter of
 * requested frames.
 */
module Elements {
  import opened Js
  import opened Signals

  // ---------------------------------------------------------------------
  // Pure helpers: initialType, toNumber, convertType

  /**
   * The built-in class tags 'Undefined', 'Null', 'Boolean', 'Number',
   * 'String', 'Object', 'Array' and 'Function' that `initialType` yields.
   */
  datatype TypeTag =
    | UndefinedType | NullType | BooleanType | NumberType | StringType
    | ObjectType | ArrayType | FunctionType

  /**
   * `toString.call(value).slice(8, -1)`: the built-in class tag. An object
   * is taken to be a plain object.
   */
  function InitialType(v: Value): (r: TypeTag)
    ensures r == BooleanType <==> v.Bool?
    ensures r == NumberType <==> v.Num?
    ensures r == StringType <==> v.Str?
  {
    match v
    case Undefined => UndefinedType
    case Null => NullType
    case Bool(_) => BooleanType
    case Num(_) => NumberType
    case Str(_) => StringType
    case Obj(_) => ObjectType
    case Arr(_) => ArrayType
    case Fn(_) => FunctionType
  }

  /**
   * `Number(any)` where it is not `NaN`. References are taken to convert to
   * `NaN`.
   */
  function NumberOf(any: Value): Option<int> {
    match any
    case Undefined => None
    case Null => Some(0)
    case Bool(b) => Some(if b then 1 else 0)
    case Num(n) => Some(n)
    case Str(s) => StringToNumber(s)
    case _ => None
  }

  /** `toNumber(any)`: the number, or the argument itself when it is `NaN`. */
  function ToNumber(any: Value): (r: Value)
    ensures r.Num? || r == any
  {
    if NumberOf(any).Some? then Num(NumberOf(any).value) else any
  }

  /** `convertType(any, type)`, where `type` is `None` for a name without a recorded type. */
  function ConvertType(any: Value, typ: Option<TypeTag>): (r: Value)
    ensures typ == Some(BooleanType) ==> r.Bool?
    ensures typ != Some(BooleanType) && typ != Some(NumberType) ==> r == any
  {
    if typ == Some(NumberType) then ToNumber(any)
    else if typ == Some(BooleanType) then
      if any == Str("false") then Bool(false) else Bool(any == Str("") || Truthy(any))
    else any
  }

  /**
   * For the values the DOM hands to `attributeChangedCallback` (a string, or
   * null once the attribute is removed), a Boolean attribute is true exactly
   * when it is present and not "false".
   */
  lemma ConvertBooleanAttribute(s: Option<string>)
    ensures ConvertType(if s.Some? then Str(s.value) else Null, Some(BooleanType)) == Bool(s.Some? && s.value != "false")
  {
  }

  /** The text of an integer converts back to that integer under the Number type. */
  lemma ConvertNumberOfText(n: int)
    ensures ConvertType(Str(IntToString(n)), Some(NumberType)) == Num(n)
  {
    StringToNumberOfIntToString(n);
  }

  /** A string that is not a number stays the string under the Number type. */
  lemma ConvertNumberKeepsText(s: string)
    requires StringToNumber(s).None?
    ensures ConvertType(Str(s), Some(NumberType)) == Str(s)
  {
  }

  // ---------------------------------------------------------------------
  // The lower-case name map, #getName and define

  /** One entry of the static `attributes` object. */
  datatype Attribute = Attribute(name: string, value: Value)

  /** `#attr` after the constructor's spread of the static attributes. */
  function AttrOf(entries: seq<Attribute>): map<string, Value>
    decreases |entries|
  {
    if entries == [] then map[]
    else AttrOf(entries[..|entries| - 1])[entries[|entries| - 1].name := entries[|entries| - 1].value]
  }

  /** `#types` after `#observedAttributes`. */
  function TypesOf(entries: seq<Attribute>): map<string, TypeTag>
    decreases |entries|
  {
    if entries == [] then map[]
    else TypesOf(entries[..|entries| - 1])[entries[|entries| - 1].name := InitialType(entries[|entries| - 1].value)]
  }

  /** `#attrLc` after `#observedAttributes` has visited the entries in order: later names win. */
  function LcMapOf(entries: seq<Attribute>): map<string, string>
    decreases |entries|
  {
    if entries == [] then map[]
    else LcMapOf(entries[..|entries| - 1])[LowerCase(entries[|entries| - 1].name) := entries[|entries| - 1].name]
  }

  /** `#getName(name)`: `this.#attrLc.get(name) || name`. */
  function ResolveName(lc: map<string, string>, name: string): string {
    if name in lc && lc[name] != "" then lc[name] else name
  }

  lemma {:induction false} AttrOfKeys(entries: seq<Attribute>)
    ensures AttrOf(entries).Keys == set e | e in entries :: e.name
    decreases |entries|
  {
    if entries != [] {
      var init, last := entries[..|entries| - 1], entries[|entries| - 1];
      AttrOfKeys(init);
      assert entries == init + [last];
    }
  }

  /** Every key of the lower-case map is the lower-case form of the name it holds, a declared one. */
  lemma {:induction false} LcMapOfSound(entries: seq<Attribute>, k: string)
    requires k in LcMapOf(entries)
    ensures LcMapOf(entries)[k] in AttrOf(entries) && LowerCase(LcMapOf(entries)[k]) == k
    decreases |entries|
  {
    var init, last := entries[..|entries| - 1], entries[|entries| - 1];
    if LowerCase(last.name) != k {
      LcMapOfSound(init, k);
    }
  }

  /** The keys of the lower-case map are exactly the lower-cased declared names. */
  lemma {:induction false} LcMapOfKeys(entries: seq<Attribute>)
    ensures LcMapOf(entries).Keys == set e | e in entries :: LowerCase(e.name)
    decreases |entries|
  {
    if entries != [] {
      var init, last := entries[..|entries| - 1], entries[|entries| - 1];
      LcMapOfKeys(init);
      assert entries == init + [last];
    }
  }

  /** When no two declared names share a lower-case form, each resolves from its lower-case form. */
  lemma {:induction false} LcMapOfDistinct(entries: seq<Attribute>, i: nat)
    requires i < |entries|
    requires forall a, b :: 0 <= a < b < |entries| ==> LowerCase(entries[a].name) != LowerCase(entries[b].name)
    ensures LowerCase(entries[i].name) in LcMapOf(entries) && LcMapOf(entries)[LowerCase(entries[i].name)] == entries[i].name
    decreases |entries|
  {
    if i < |entries| - 1 {
      var init := entries[..|entries| - 1];
      LcMapOfDistinct(init, i);
      assert LowerCase(entries[i].name) != LowerCase(entries[|entries| - 1].name);
    }
  }

  /**
   * `#getName` maps the lower-cased form of a declared camelCase name back
   * to it, and returns names it does not know unchanged.
   */
  lemma ResolveDeclaredName(entries: seq<Attribute>, i: nat, other: string)
    requires i < |entries| && entries[i].name != ""
    requires forall a, b :: 0 <= a < b < |entries| ==> LowerCase(entries[a].name) != LowerCase(entries[b].name)
    requires forall e :: e in entries ==> LowerCase(e.name) != other
    ensures ResolveName(LcMapOf(entries), LowerCase(entries[i].name)) == entries[i].name
    ensures ResolveName(LcMapOf(entries), other) == other
  {
    LcMapOfDistinct(entries, i);
    LcMapOfKeys(entries);
  }

  /** `Object.keys` of the static attributes. */
  function Names(entries: seq<Attribute>): (r: seq<string>)
    ensures |r| == |entries| && forall i :: 0 <= i < |entries| ==> r[i] == entries[i].name
  {
    if entries == [] then [] else [entries[0].name] + Names(entries[1..])
  }

  /** `attr.toLowerCase()` mapped over a list. */
  function LowerCaseAll(names: seq<string>): (r: seq<string>)
    ensures |r| == |names| && forall i :: 0 <= i < |names| ==> r[i] == LowerCase(names[i])
  {
    if names == [] then [] else [LowerCase(names[0])] + LowerCaseAll(names[1..])
  }

  /**
   * `define`'s `(element.observedAttributes || Object.keys(element.attributes || []))`
   * lower-cased; `observed` is `None` when the class sets no observedAttributes.
   */
  function ObservedAttributes(observed: Option<seq<string>>, entries: seq<Attribute>): seq<string> {
    LowerCaseAll(if observed.Some? then observed.value else Names(entries))
  }

  /**
   * `define` lower-cases every name, and with the default list every
   * observed attribute resolves through `#getName` to a declared name with
   * that lower-case form.
   */
  lemma DefineAgreesWithGetName(entries: seq<Attribute>, o: string)
    requires o in ObservedAttributes(None, entries)
    ensures NoUpper(o)
    ensures o in LcMapOf(entries)
    ensures LcMapOf(entries)[o] in AttrOf(entries) && LowerCase(LcMapOf(entries)[o]) == o
  {
    var i :| 0 <= i < |entries| && ObservedAttributes(None, entries)[i] == o;
    LcMapOfKeys(entries);
    assert o == LowerCase(entries[i].name) && entries[i] in entries;
    LcMapOfSound(entries, o);
  }

  // ---------------------------------------------------------------------
  // setAttribute's DOM decision

  /** What `setAttribute` does to the host's own attribute. */
  datatype DomWrite = Write(value: Value) | Remove | Untouched

  /** The branches of `setAttribute` after the property has been set. */
  function DomWriteFor(typ: TypeTag, v: Value): DomWrite {
    if typ == BooleanType then
      if v == Bool(true) || v == Str("") then Write(Str("")) else Remove
    else if typ == StringType || typ == NumberType || v == Bool(true) then Write(v)
    else Untouched
  }

  function ApplyDomWrite(dom: map<string, Value>, key: string, w: DomWrite): map<string, Value> {
    match w
    case Write(v) => dom[key := v]
    case Remove => dom - {key}
    case Untouched => dom
  }

  /**
   * A Boolean attribute is written as '' for `true` or '' and removed
   * otherwise; String and Number attributes, and the value `true` of any
   * other type, are written as given; anything else leaves the host alone.
   */
  lemma DomWriteBranches(typ: TypeTag, v: Value)
    ensures typ == BooleanType ==> (DomWriteFor(typ, v) == Write(Str("")) <==> v == Bool(true) || v == Str(""))
    ensures typ == BooleanType ==> (DomWriteFor(typ, v) == Remove <==> v != Bool(true) && v != Str(""))
    ensures typ != BooleanType ==> DomWriteFor(typ, v) != Remove
    ensures typ != BooleanType ==> (DomWriteFor(typ, v) == Write(v) <==> typ == StringType || typ == NumberType || v == Bool(true))
  {
  }

  /**
   * `setAttribute(name, value)` with each default of the attributes test
   * writes exactly what the test reads back: '' for '' and `true`, the
   * numbers and strings as given, and nothing for `false`, `undefined`,
   * arrays, objects and functions.
   */
  lemma SetAttributeDefaultsExample(arr: nat, obj: nat, fn: nat)
    ensures DomWriteFor(InitialType(Str("")), Str("")) == Write(Str(""))
    ensures DomWriteFor(InitialType(Str("hi")), Str("hi")) == Write(Str("hi"))
    ensures DomWriteFor(InitialType(Bool(true)), Bool(true)) == Write(Str(""))
    ensures DomWriteFor(InitialType(Bool(false)), Bool(false)) == Remove
    ensures DomWriteFor(InitialType(Undefined), Undefined) == Untouched
    ensures DomWriteFor(InitialType(Num(0)), Num(0)) == Write(Num(0))
    ensures DomWriteFor(InitialType(Num(1)), Num(1)) == Write(Num(1))
    ensures DomWriteFor(InitialType(Arr(arr)), Arr(arr)) == Untouched
    ensures DomWriteFor(InitialType(Obj(obj)), Obj(obj)) == Untouched
    ensures DomWriteFor(InitialType(Fn(fn)), Fn(fn)) == Untouched
  {
  }

  /**
   * The DOM answers a write with `attributeChangedCallback` and the text of
   * the value. For a String or Number attribute that text converts back to
   * the value just set, so the reaction leaves the property as it is; a
   * Boolean attribute written as '' converts to `true`.
   */
  lemma WrittenAttributeConvertsBack(typ: TypeTag, v: Value)
    requires DomWriteFor(typ, v).Write?
    requires typ == BooleanType || (typ == StringType && v.Str?) || (typ == NumberType && v.Num?)
    ensures var w := DomWriteFor(typ, v).value;
      w.Str? ==> ConvertType(w, Some(typ)) == (if typ == BooleanType then Bool(true) else v)
    ensures typ == NumberType ==> ConvertType(Str(IntToString(v.n)), Some(typ)) == v
  {
    if typ == NumberType {
      ConvertNumberOfText(v.n);
    }
  }

  // ---------------------------------------------------------------------
  // A defect of the source: the guard of setAttribute

  /**
   * The guard `attr in this.#attr` as written: `in` also finds every name
   * `#attr` inherits from `Object.prototype`.
   */
  predicate GuardAsWritten(declared: set<string>, attr: string) {
    attr in declared || attr in ObjectPrototypeMembers
  }

  /**
   * Whatever the declared attributes, an undeclared name such as
   * 'constructor' or '__proto__' gets past the guard as written, so
   * `setAttribute` records it in `#changedAttr` and assigns it as a property
   * of the element.
   */
  lemma GuardAsWrittenAdmitsUndeclared(declared: set<string>)
    requires "constructor" !in declared && "__proto__" !in declared
    ensures GuardAsWritten(declared, "constructor") && GuardAsWritten(declared, "__proto__")
  {
  }

  /** `Object.hasOwn(this.#attr, attr)`, the guard the comment describes; `MiElement.SetAttribute` uses it. */
  predicate Guard(declared: set<string>, attr: string) {
    attr in declared
  }

  // ---------------------------------------------------------------------
  // dispose

  /** The index of the first listener that is not a function, or the count of them all. */
  function FirstNonFunction(listeners: seq<Value>): (k: nat)
    ensures k <= |listeners|
    ensures forall i :: 0 <= i < k ==> listeners[i].Fn?
    ensures k < |listeners| ==> !listeners[k].Fn?
  {
    if listeners == [] then 0
    else if !listeners[0].Fn? then 0
    else 1 + FirstNonFunction(listeners[1..])
  }

  /** Adding each of `xs` in turn to the set `s`. */
  function AddedAll(s: seq<Value>, xs: seq<Value>): (r: seq<Value>)
    ensures NoDuplicates(s) ==> NoDuplicates(r)
    ensures forall y :: y in r <==> y in s || y in xs
    decreases |xs|
  {
    if xs == [] then s
    else
      var init := xs[..|xs| - 1];
      assert forall y :: y in init ==> y in xs;
      Added(AddedAll(s, init), xs[|xs| - 1])
  }

  lemma AddedAllFunctions(s: seq<Value>, xs: seq<Value>)
    requires forall y :: y in s ==> y.Fn?
    requires forall y :: y in xs ==> y.Fn?
    ensures forall y :: y in AddedAll(s, xs) ==> y.Fn?
  {
  }

  // ---------------------------------------------------------------------
  // The element

  /**
   * The locals of `#observedAttributes` after its loop has visited
   * `entries[..i]`: `at` is `#attr`, `ty` is `#types`, `lc` is `#attrLc`,
   * and each visited name has a signal without subscribers that holds its
   * value; `own` records which name each signal belongs to.
   */
  ghost predicate Observed(entries: seq<Attribute>, i: int, at: map<string, Value>, lc: map<string, string>,
                           ty: map<string, TypeTag>, sig: map<string, Signal>, own: map<Signal, string>)
    reads sig.Values
  {
    && 0 <= i <= |entries|
    && at == AttrOf(entries[..i]) && ty == TypesOf(entries[..i]) && lc == LcMapOf(entries[..i])
    && at.Keys == ty.Keys == sig.Keys
    && (forall k :: k in lc ==> lc[k] in at)
    && (forall n :: n in sig ==>
          sig[n].Valid() && sig[n].value == at[n] && sig[n].subscribers == [] && sig[n] in own && own[sig[n]] == n)
  }

  /** One pass of the loop of `#observedAttributes`. */
  method ObserveAttribute(entries: seq<Attribute>, i: nat, at: map<string, Value>, lc: map<string, string>,
                          ty: map<string, TypeTag>, sig: map<string, Signal>, ghost own: map<Signal, string>)
      returns (at': map<string, Value>, lc': map<string, string>, ty': map<string, TypeTag>,
               sig': map<string, Signal>, ghost own': map<Signal, string>)
    requires i < |entries| && Observed(entries, i, at, lc, ty, sig, own)
    ensures Observed(entries, i + 1, at', lc', ty', sig', own')
  {
    var e := entries[i];
    assert entries[..i + 1][..i] == entries[..i] && entries[..i + 1][i] == e;
    var s := new Signal(e.value);
    sig' := sig[e.name := s];
    own' := own[s := e.name];
    ty' := ty[e.name := InitialType(e.value)];
    lc' := lc[LowerCase(e.name) := e.name];
    at' := at[e.name := e.value];
  }

  class MiElement {
    /** `#attr`: the declared attributes and their current values. */
    var attr: map<string, Value>
    /** `#attrLc`: lower-cased name to declared name. */
    var attrLc: map<string, string>
    /** `#types`: the class tag of each declared attribute's default. */
    var types: map<string, TypeTag>
    /** `#disposers`, a Set in insertion order. */
    var disposers: seq<Value>
    /** `#changedAttr` */
    var changedAttr: map<string, Value>
    /** `#signals`: one Signal per declared attribute. */
    var signals: map<string, Signal>
    /** Own data properties written with `this[attr] = value` for a name without an accessor. */
    var expando: map<string, Value>
    /** The host's attributes, by lower-cased name, with the value passed to the DOM. */
    var dom: map<string, Value>
    /** `isConnected`, maintained by the DOM. */
    var isConnected: bool
    /** The frames `requestUpdate` has asked `requestAnimationFrame` for. */
    var frameRequests: nat

    /** The attribute each signal of `#signals` belongs to; its keys are the footprint of the signals. */
    ghost var owners: map<Signal, string>

    /** For a disposer that `subscribeToStore` registered, the store unsubscriber it runs. */
    ghost var disposerRuns: map<Value, Unsubscriber>

    /** Every declared name has a value, a type and a signal. */
    ghost predicate KeysAgree()
      reads this
    {
      attr.Keys == types.Keys == signals.Keys
    }

    /** Each signal holds the current value of its attribute. */
    ghost predicate SignalsHold()
      reads this, owners.Keys
    {
      forall n :: n in signals ==> n in attr && signals[n] in owners && owners[signals[n]] == n && signals[n].Valid() && signals[n].value == attr[n]
    }

    /** `#attrLc` maps lower-case names to declared names (`LcMapOfSound` gives the lower-case form). */
    ghost predicate NamesSound()
      reads this
    {
      forall k :: k in attrLc ==> attrLc[k] in attr
    }

    ghost predicate DisposersSound()
      reads this
    {
      NoDuplicates(disposers) && forall d :: d in disposers ==> d.Fn?
    }

    ghost predicate Valid()
      reads this, owners.Keys
    {
      KeysAgree() && SignalsHold() && NamesSound() && DisposersSound()
    }

    /**
     * `new MiElement()` for a class whose static `attributes` has the
     * entries `entries`: the loop is the one of `#observedAttributes`, which
     * gives each declared name a new signal holding its default, its type
     * and its lower-case form.
     */
    constructor (entries: seq<Attribute>, connected: bool)
      ensures Valid()
      ensures attr == AttrOf(entries) && types == TypesOf(entries) && attrLc == LcMapOf(entries)
      ensures forall n :: n in signals ==> signals[n].subscribers == []
      ensures disposers == [] && disposerRuns == map[] && changedAttr == map[] && expando == map[] && dom == map[]
      ensures isConnected == connected && frameRequests == 0
    {
      var at: map<string, Value> := map[];
      var lc: map<string, string> := map[];
      var ty: map<string, TypeTag> := map[];
      var sig: map<string, Signal> := map[];
      ghost var own: map<Signal, string> := map[];
      for i := 0 to |entries|
        invariant Observed(entries, i, at, lc, ty, sig, own)
      {
        at, lc, ty, sig, own := ObserveAttribute(entries, i, at, lc, ty, sig, own);
      }
      assert entries[..|entries|] == entries;
      attr, attrLc, types, signals, owners := at, lc, ty, sig, own;
      disposers, changedAttr, expando, dom := [], map[], map[], map[];
      disposerRuns := map[];
      isConnected, frameRequests := connected, 0;
    }

    /** `#getName(name)`: the declared name of a lower-case form, otherwise the name itself. */
    function GetName(name: string): (r: string)
      requires NamesSound()
      reads this
      ensures r == name || r in attr
    {
      ResolveName(attrLc, name)
    }

    /** `#getType(name)`: `None` for a name without a recorded type. */
    function GetType(name: string): (r: Option<TypeTag>)
      reads this
      ensures r.Some? <==> name in types
    {
      if name in types then Some(types[name]) else None
    }

    function SignalFor(name: string): set<object>
      reads this
    {
      if name in signals then {signals[name]} else {}
    }

    /** `requestUpdate()`: asks for a frame only while connected. */
    method RequestUpdate()
      requires Valid()
      modifies this
      ensures Valid()
      ensures frameRequests == old(frameRequests) + (if isConnected then 1 else 0)
      ensures attr == old(attr) && attrLc == old(attrLc) && types == old(types) && signals == old(signals) && owners == old(owners)
      ensures disposers == old(disposers) && disposerRuns == old(disposerRuns) && changedAttr == old(changedAttr) && expando == old(expando)
      ensures dom == old(dom) && isConnected == old(isConnected)
    {
      if isConnected {
        frameRequests := frameRequests + 1;
      }
    }

    /**
     * The setter `#observedAttributes` defines for a declared name. A value
     * `===` to the current one is ignored; otherwise `#changedAttr`, the
     * signal (which notifies its subscribers) and `#attr` are written, and
     * an update is requested.
     */
    method SetProperty(name: string, newValue: Value) returns (calls: seq<Call>)
      requires Valid() && name in attr
      modifies this, signals[name]
      ensures Valid()
      ensures attrLc == old(attrLc) && types == old(types) && signals == old(signals) && owners == old(owners)
      ensures disposers == old(disposers) && disposerRuns == old(disposerRuns) && expando == old(expando) && dom == old(dom)
      ensures isConnected == old(isConnected)
      ensures signals[name].subscribers == old(signals[name].subscribers)
      ensures old(attr[name]) == newValue ==>
        attr == old(attr) && changedAttr == old(changedAttr) && frameRequests == old(frameRequests) && calls == []
      ensures old(attr[name]) != newValue ==>
        && attr == old(attr)[name := newValue]
        && changedAttr == old(changedAttr)[name := newValue]
        && frameRequests == old(frameRequests) + (if isConnected then 1 else 0)
        && calls == CallsFor(signals[name].subscribers, newValue)
    {
      if attr[name] == newValue {
        return [];
      }
      var s := signals[name];
      changedAttr := changedAttr[name := newValue];
      calls := s.SetValue(newValue);
      attr := attr[name := newValue];
      assert SignalsHold() by {
        forall n | n in signals ensures n in attr && signals[n] in owners && owners[signals[n]] == n && signals[n].Valid() && signals[n].value == attr[n] {
          if n != name {
            assert signals[n] != s;
          }
        }
      }
      RequestUpdate();
    }

    /**
     * The statement `this[attr] = this.#changedAttr[attr] = value`: the
     * change is recorded, then assigned through the setter of a declared
     * attribute, or otherwise as an own data property of the element.
     */
    method AssignAttribute(a: string, v: Value) returns (calls: seq<Call>)
      requires Valid()
      modifies this, SignalFor(a)
      ensures Valid()
      ensures attrLc == old(attrLc) && types == old(types) && signals == old(signals) && owners == old(owners)
      ensures disposers == old(disposers) && disposerRuns == old(disposerRuns) && dom == old(dom) && isConnected == old(isConnected)
      ensures changedAttr == old(changedAttr)[a := v]
      ensures a !in old(attr) ==>
        attr == old(attr) && expando == old(expando)[a := v] && frameRequests == old(frameRequests) && calls == []
      ensures a in old(attr) ==>
        var changed := old(attr[a]) != v;
        && attr == old(attr)[a := v] && expando == old(expando)
        && frameRequests == old(frameRequests) + (if isConnected && changed then 1 else 0)
        && calls == (if changed then CallsFor(signals[a].subscribers, v) else [])
    {
      changedAttr := changedAttr[a := v];
      if a in attr {
        calls := SetProperty(a, v);
      } else {
        expando := expando[a := v];
        calls := [];
      }
    }

    /** `removeAttribute(name)` on the host. */
    method RemoveHostAttribute(name: string)
      requires Valid()
      modifies this
      ensures Valid()
      ensures dom == old(dom) - {LowerCase(name)}
      ensures attr == old(attr) && attrLc == old(attrLc) && types == old(types) && signals == old(signals) && owners == old(owners)
      ensures disposers == old(disposers) && disposerRuns == old(disposerRuns) && changedAttr == old(changedAttr) && expando == old(expando)
      ensures isConnected == old(isConnected) && frameRequests == old(frameRequests)
    {
      dom := dom - {LowerCase(name)};
    }

    /**
     * `attributeChangedCallback(name, _oldValue, newValue)`: converts the
     * value by the attribute's type, records it and assigns it as a
     * property; a Boolean attribute set to "false" is then removed from the
     * host, and an update is requested.
     */
    method AttributeChangedCallback(name: string, newValue: Value) returns (calls: seq<Call>)
      requires Valid()
      modifies this, SignalFor(GetName(name))
      ensures Valid()
      ensures attrLc == old(attrLc) && types == old(types) && signals == old(signals) && owners == old(owners)
      ensures disposers == old(disposers) && disposerRuns == old(disposerRuns) && isConnected == old(isConnected)
      ensures var a := old(GetName(name));
        var typ := old(GetType(a));
        var v := ConvertType(newValue, typ);
        var changed := a in old(attr) && old(attr[a]) != v;
        && (a in old(attr) ==> attr == old(attr)[a := v] && expando == old(expando))
        && (a !in old(attr) ==> attr == old(attr) && expando == old(expando)[a := v])
        && changedAttr == old(changedAttr)[a := v]
        && calls == (if changed then CallsFor(signals[a].subscribers, v) else [])
        && dom == (if typ == Some(BooleanType) && newValue == Str("false") then old(dom) - {LowerCase(name)} else old(dom))
        && frameRequests == old(frameRequests) + (if isConnected then (if changed then 2 else 1) else 0)
    {
      var a := GetName(name);
      var typ := GetType(a);
      var v := ConvertType(newValue, typ);
      calls := AssignAttribute(a, v);
      if typ == Some(BooleanType) && newValue == Str("false") {
        RemoveHostAttribute(name);
      }
      RequestUpdate();
    }

    /**
     * `setAttribute(name, newValue)`: only declared attributes change; the
     * property is set, and the host's attribute is written or removed as
     * `DomWriteFor` decides, or otherwise an update is requested.
     */
    method SetAttribute(name: string, newValue: Value) returns (calls: seq<Call>)
      requires Valid()
      modifies this, SignalFor(GetName(name))
      ensures Valid()
      ensures attrLc == old(attrLc) && types == old(types) && signals == old(signals) && owners == old(owners)
      ensures disposers == old(disposers) && disposerRuns == old(disposerRuns) && isConnected == old(isConnected) && expando == old(expando)
      ensures var a := old(GetName(name));
        !Guard(old(attr.Keys), a) ==>
          attr == old(attr) && changedAttr == old(changedAttr) && dom == old(dom)
          && frameRequests == old(frameRequests) && calls == []
      ensures var a := old(GetName(name));
        Guard(old(attr.Keys), a) ==>
          var w := DomWriteFor(types[a], newValue);
          var changed := old(attr[a]) != newValue;
          && attr == old(attr)[a := newValue]
          && changedAttr == old(changedAttr)[a := newValue]
          && dom == ApplyDomWrite(old(dom), LowerCase(name), w)
          && calls == (if changed then CallsFor(signals[a].subscribers, newValue) else [])
          && frameRequests == old(frameRequests)
               + (if isConnected then (if changed then 1 else 0) + (if w.Untouched? then 1 else 0) else 0)
    {
      var a := GetName(name);
      if !(a in attr) {
        return [];
      }
      var typ := types[a];
      calls := AssignAttribute(a, newValue);
      ReflectAttribute(name, typ, newValue);
    }

    /** The branches at the end of `setAttribute`, which write or remove the host's attribute. */
    method ReflectAttribute(name: string, typ: TypeTag, newValue: Value)
      requires Valid()
      modifies this
      ensures Valid()
      ensures dom == ApplyDomWrite(old(dom), LowerCase(name), DomWriteFor(typ, newValue))
      ensures frameRequests == old(frameRequests) + (if isConnected && DomWriteFor(typ, newValue).Untouched? then 1 else 0)
      ensures attr == old(attr) && attrLc == old(attrLc) && types == old(types) && signals == old(signals) && owners == old(owners)
      ensures disposers == old(disposers) && disposerRuns == old(disposerRuns) && changedAttr == old(changedAttr) && expando == old(expando)
      ensures isConnected == old(isConnected)
    {
      if typ == BooleanType {
        if newValue == Bool(true) || newValue == Str("") {
          dom := dom[LowerCase(name) := Str("")];
        } else {
          dom := dom - {LowerCase(name)};
        }
      } else if typ == StringType || typ == NumberType || newValue == Bool(true) {
        dom := dom[LowerCase(name) := newValue];
      } else {
        RequestUpdate();
      }
    }

    /**
     * `dispose(...listeners)`: adds each listener to `#disposers` until one
     * is not a function, which throws a TypeError; those before it stay added.
     */
    method Dispose(listeners: seq<Value>) returns (result: Result<()>)
      requires Valid()
      modifies this
      ensures Valid()
      ensures disposers == AddedAll(old(disposers), listeners[..FirstNonFunction(listeners)])
      ensures result == if FirstNonFunction(listeners) < |listeners|
        then Throw(Exception(TypeError, "listener must be a function")) else Ok(())
      ensures attr == old(attr) && attrLc == old(attrLc) && types == old(types) && signals == old(signals) && owners == old(owners)
      ensures changedAttr == old(changedAttr) && expando == old(expando) && dom == old(dom)
      ensures isConnected == old(isConnected) && frameRequests == old(frameRequests) && disposerRuns == old(disposerRuns)
    {
      ghost var k := FirstNonFunction(listeners);
      for i := 0 to |listeners|
        invariant i <= k
        invariant disposers == AddedAll(old(disposers), listeners[..i])
        invariant DisposersSound()
        invariant attr == old(attr) && attrLc == old(attrLc) && types == old(types) && signals == old(signals) && owners == old(owners)
        invariant changedAttr == old(changedAttr) && expando == old(expando) && dom == old(dom)
        invariant isConnected == old(isConnected) && frameRequests == old(frameRequests) && disposerRuns == old(disposerRuns)
      {
        if TypeOf(listeners[i]) != "function" {
          assert i == k;
          return Throw(Exception(TypeError, "listener must be a function"));
        }
        assert listeners[..i + 1][..i] == listeners[..i];
        disposers := Added(disposers, listeners[i]);
      }
      assert listeners[..|listeners|] == listeners;
      result := Ok(());
    }
  }

  /** A listener that is not a function stops `dispose` with the TypeError the test expects. */
  lemma DisposeRejectsNonFunction(s: string)
    ensures FirstNonFunction([Str(s)]) == 0
  {
  }
}
