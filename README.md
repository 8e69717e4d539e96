# mi-element, modelled in Dafny

This project models the reactive and rule-bearing core of `mi-element`, a small
library of custom HTML elements, with the DOM abstracted away:

- the `Signal` observable cell (`src/signal.js`): a value, a set of subscriber
  callbacks, a setter gated on `===`, `notify` and `subscribe`/unsubscribe;
- the Flux-style `Store` (`src/store.js`): installing and validating named
  actions, dispatching `value := dispatcher(data)(value)` through the signal
  gate, and `subscribeToStore`'s path parsing, property walk and errors;
- the context protocol (`src/context.js`): a provider that answers only
  requests for its own context, and a consumer whose `value` and
  `unsubscribe` fields change under the branches of `_callback` and
  `hostDisconnected`;
- the attribute bookkeeping of `MiElement` (`src/element.js`): the
  lower-case-to-camelCase name map, the per-attribute property setter,
  `setAttribute`, `attributeChangedCallback`'s Boolean fix-up, `dispose`,
  `define`'s lower-casing, and `convertType`/`toNumber`/`initialType`;
- the pure string helpers: HTML escaping (`src/escape.js`), camel/kebab case
  conversion (`src/case.js`; `src/refs.js` holds a copy of the same
  function), `classMap`/`styleMap` (`src/styling.js`), and the key rule of
  `refsById`/`refsBySelector` (`src/refs.js`).

JavaScript values are the datatype `Js.Value`:

- `Undefined`, `Null`, `Bool`, `Num` over integers and `Str`;
- objects, arrays and functions, known by identity.

`===` is equality of these values. Callbacks are opaque identifiers. A
notification is returned as the sequence of `(callback, value)` calls it
makes, and it does not run the callbacks.

A thrown error is the `Throw` arm of `Js.Result`, carrying its kind
(`Error` or `TypeError`) and its message. The errors the library and the
engine raise are written out.

User code is a parameter that gives what the function returns or the
error it throws:

- the store's `call`, used for `dispatcher(undefined)`, `dispatcher(data)`
  and `reducer(state)`;
- a consumer's `validate`.

Stateful parts are classes with the source's fields:

- `Signals.Signal`;
- `Stores.Store`, which holds a `Signal` rather than extending it;
- `Contexts.ContextProvider` and `Contexts.ContextConsumer`;
- `Elements.MiElement`.

The host node of an element is a map from lower-cased attribute names to
the value that was written. An element also keeps the count of animation
frames it requested. The pure helpers are functions, with lemmas about
them. Each loop of the source is a method proved equal to a fold function:
the store's action loop, `dispose`, the path walk, `classMap`, `styleMap`,
`refsById` and `refsBySelector`.

Modules:

| Module | File | Contents |
|---|---|---|
| `Js` | `js.dfy` | JavaScript value and string helpers |
| `Signals` | `signal.dfy` | the signal |
| `Case` | `case.dfy` | case conversion |
| `Escape` | `escape.dfy` | HTML escaping |
| `Styling` | `styling.dfy` | class and style strings |
| `Refs` | `refs.dfy` | reference lookup |
| `Elements` | `element.dfy` | the element |
| `Stores` | `store.dfy` | the store |
| `Contexts` | `context.dfy` | the context protocol |

The code is followed where it and the library's documentation disagree:

- `src/context.js` calls `state.get()`, `state.set()` and `effect`, which
  `src/signal.js` does not define. The model reads them as the signal's
  `value` getter and setter. `effect` becomes a subscription of the
  provider's signal whose first run makes no call (context.js:69-75), and
  whose later runs answer the request's callback (`Contexts.Forwarded`).
- `test/store.test.js:27-40` expects an action named `get` to be rejected as
  already defined. `src/signal.js` has no `get`, so the model follows the
  source: `get` is accepted, and the model rejects only the members the
  source defines.
- `dist/element.js` records old values in `#changedAttr`.
  `src/element.js` records the new values, and the model does the same.

## Model

| member | source | states |
|---|---|---|
| Signals.Signal.constructor | packages/mi-element/src/signal.js:5-14 | a new signal holds exactly the initial value and has no subscribers |
| Signals.CreateSignal | packages/mi-element/src/signal.js:66 | `createSignal` returns a fresh signal reading back its initial value, with no subscribers |
| Signals.Signal.SetValue | packages/mi-element/src/signal.js:29-36 | a value `===` to the current one changes nothing and calls nobody; a different value is stored and every subscriber is called with it, in subscription order; the subscribers are unchanged |
| Signals.Signal.Notify | packages/mi-element/src/signal.js:41-45 | `notify` changes nothing and makes exactly the calls `CallsFor(subscribers, value)` |
| Signals.CallsForAt | packages/mi-element/src/signal.js:41-45 | notification makes one call per subscriber, the k-th call going to the k-th subscriber with the value |
| Signals.CallsCarryValue | packages/mi-element/src/signal.js:41-45 | every call of a notification carries the current value |
| Signals.CalledOnce | packages/mi-element/src/signal.js:41-45 | with a duplicate-free subscriber set, a callback is called exactly once if subscribed, never otherwise |
| Signals.Signal.Subscribe | packages/mi-element/src/signal.js:52-58 | `subscribe` adds the callback to the set (a second subscription of the same callback changes nothing), keeps the value, and returns its unsubscriber |
| Signals.Signal.Unsubscribe | packages/mi-element/src/signal.js:54-56 | the unsubscriber removes exactly its own callback and keeps the value and the other subscribers |
| Signals.RemovedIdempotent | packages/mi-element/src/signal.js:54-56 | calling an unsubscriber a second time changes nothing |
| Signals.RemovedAbsent | packages/mi-element/src/signal.js:54-56 | removing a callback that is not subscribed changes nothing |
| Signals.NotCalledOnceRemoved | packages/mi-element/src/signal.js:41-56 | after unsubscribing, no later notification reaches the callback |
| Signals.SubscribeThenUnsubscribe | packages/mi-element/src/signal.js:52-58 | subscribing a new callback and then unsubscribing it restores the subscriber set exactly |
| Signals.SignalIsSignalLike | packages/mi-element/src/signal.js:73-76 | an object with the members of a `Signal` is signal-like |
| Signals.PrimitivesAreNotSignalLike | packages/mi-element/src/signal.js:73-76 | a primitive (undefined, null, boolean, number, string) is never signal-like |
| Js.Added | packages/mi-element/src/signal.js:53 | `Set.add`: membership is the old members plus the new one, adding a member changes nothing, and no duplicates arise |
| Js.Removed | packages/mi-element/src/signal.js:55 | `Set.delete`: membership is the old members except the removed one |
| Js.RemovedNoDuplicates | packages/mi-element/src/signal.js:55 | deleting keeps the set free of duplicates |
| Js.TypeOf | packages/mi-element/src/store.js:48-49 | `typeof` is "object" exactly for null, objects and arrays, and "function" exactly for functions |
| Js.LowerCase | packages/mi-element/src/case.js:15 | `toLowerCase` keeps the length and lowers each character |
| Js.SplitJoin | packages/mi-element/src/store.js:83 | splitting a join of separator-free parts on the separator gives the parts back |
| Js.SplitWithout | packages/mi-element/src/store.js:83 | `split` cuts at the first separator |
| Js.SplitUnseparated | packages/mi-element/src/store.js:83 | a string without the separator splits into itself |
| Js.StringToNumberOfIntToString | packages/mi-element/src/element.js:344-347 | `Number` of the decimal text of an integer is that integer |
| Js.NumberOfDigits | packages/mi-element/src/element.js:345 | `Number` of a digit string is its decimal value |
| Js.NumberOfNegativeDigits | packages/mi-element/src/element.js:345 | `Number` of '-' followed by digits is the negated value |
| Js.TrimUnspaced | packages/mi-element/src/element.js:345 | the surrounding-whitespace trim of `Number` leaves unspaced text alone |
| Case.CamelToKebabCase | packages/mi-element/src/case.js:6-7 | the result has no capital letters, and its length is the input length plus the number of capitals |
| Case.CamelToKebabKeepsOut | packages/mi-element/src/case.js:6-7 | the conversion adds no character other than '-' and lower-case letters |
| Case.CamelToKebabWithoutUpper | packages/mi-element/src/case.js:6-7 | a string without capitals is unchanged |
| Case.CamelToKebabConcat | packages/mi-element/src/case.js:7 | the global replace works character by character: converting a concatenation converts each part |
| Case.CapitalHead | packages/mi-element/src/case.js:7 | a capital is replaced by '-' and its lower-case form |
| Case.UpperAfterNoSeparators | packages/mi-element/src/case.js:15 | the replace callback does not fire on text without '-' or '_' |
| Case.KebabToCamelWithoutSeparators | packages/mi-element/src/case.js:14-15 | `kebabToCamelCase` of a string without '-' or '_' is its lower-case form |
| Case.LowerCaseWithoutUpper | packages/mi-element/src/case.js:15 | lower-casing a string without capitals changes nothing |
| Case.LowerCaseConcat | packages/mi-element/src/case.js:15 | lower-casing distributes over concatenation |
| Case.UpperAfterSeparatorsConcat | packages/mi-element/src/case.js:15 | the left-to-right, non-overlapping replace distributes over a concatenation whose first part does not end in a separator |
| Case.KebabToCamelCaseConcat | packages/mi-element/src/case.js:14-15 | `kebabToCamelCase` distributes over such a concatenation |
| Case.SeparatedChunk | packages/mi-element/src/case.js:15 | '-' followed by a word becomes the capitalised, lower-cased word |
| Case.UpperAfterSeparatorsOfKebab | packages/mi-element/src/case.js:6-15 | the separator replace undoes the kebab conversion of letters and digits |
| Case.KebabRoundTrip | packages/mi-element/src/case.js:6-15 | `kebabToCamelCase(camelToKebabCase(s)) == s` for every string of ASCII letters and digits |
| Case.EmptyExamples | packages/mi-element/test/case.test.js:6-18 | both conversions map '' (the default argument) to '' |
| Case.CamelToKebabExample | packages/mi-element/test/case.test.js:10-12 | 'lowerCamelCase' becomes 'lower-camel-case' |
| Case.KebabToCamelExample | packages/mi-element/test/case.test.js:20-22 | 'lower-camel-case' becomes 'lowerCamelCase' |
| Case.KebabToCamelMixedCaseExample | packages/mi-element/test/case.test.js:24-26 | 'lower-CaMel-case' becomes 'lowerCamelCase' |
| Escape.EscMap | packages/mi-element/src/escape.js:1-7 | each replacement of `escMap` is an entity of at least four characters, from '&' to ';' |
| Escape.EntityChars | packages/mi-element/src/escape.js:1-7 | after its leading '&', no entity contains markup characters or another '&' |
| Escape.PieceSafe | packages/mi-element/src/escape.js:18 | what one character is replaced by holds no markup character, and any '&' in it begins an entity |
| Escape.EscapeSpecialNoMarkup | packages/mi-element/src/escape.js:18 | after the second replace, none of `<`, `>`, `'`, `"` remains |
| Escape.EscapeSpecialAmpsBeginEntities | packages/mi-element/src/escape.js:18 | after the second replace, every '&' begins one of the five entities |
| Escape.EscHtmlSafe | packages/mi-element/src/escape.js:17-18 | `escHtml` output holds none of `<`, `>`, `'`, `"`, and each of its '&' begins an entity of `escMap` |
| Escape.UnescapeEscapeSpecial | packages/mi-element/src/escape.js:18 | decoding the five entities undoes the second replace |
| Escape.EscHtmlDecodes | packages/mi-element/src/escape.js:17-18 | decoding `escHtml(s)` gives `s` with each `&amp;` collapsed, so only that collapse loses information |
| Escape.CollapseAmpWithoutAmp | packages/mi-element/src/escape.js:18 | the `&amp;` collapse leaves text without '&' alone |
| Escape.EscapeSpecialWithoutSpecial | packages/mi-element/src/escape.js:18 | the second replace leaves text without special characters alone |
| Escape.EscHtmlWithoutSpecial | packages/mi-element/src/escape.js:17-18 | a string with none of `& < > ' "` passes through `escHtml` unchanged |
| Escape.EscHtmlKeepsAmp | packages/mi-element/src/escape.js:9-18 | an existing `&amp;` is not escaped twice |
| Escape.EscHtmlEscapesOtherEntities | packages/mi-element/src/escape.js:18 | only `&amp;` is protected: `&lt;` becomes `&amp;lt;` |
| Escape.EscapeSpecialConcat | packages/mi-element/src/escape.js:18 | the second replace distributes over concatenation |
| Escape.EscHtmlExample | packages/mi-element/test/escape.test.js:5-7 | `escHtml('<h1>works</h1>')` is `'&lt;h1&gt;works&lt;/h1&gt;'` |
| Escape.EscAttrConcat | packages/mi-element/src/escape.js:28-29 | `escAttr` distributes over concatenation |
| Escape.EscAttrKeeps | packages/mi-element/src/escape.js:28-29 | every character other than `'` and `"` is kept in place |
| Escape.EscAttrNoQuotes | packages/mi-element/src/escape.js:28-29 | `escAttr` output contains no quote of either kind |
| Escape.EscAttrWithoutQuotes | packages/mi-element/src/escape.js:28-29 | a string without quotes is unchanged |
| Escape.EscAttrAgreesWithEscapeSpecial | packages/mi-element/src/escape.js:17-29 | without `&`, `<` and `>`, `escAttr` and `escHtml` agree |
| Escape.EscAttrDecodes | packages/mi-element/src/escape.js:28-29 | on such strings, decoding undoes `escAttr` |
| Escape.EscAttrExample | packages/mi-element/test/escape.test.js:9-11 | the test's over-quoted string becomes `'&#39;&quot;overquoted&#39;'` |
| Escape.EscMarkupComesFromTemplate | packages/mi-element/src/escape.js:37-38 | every markup character in the output of `esc` comes from the literal parts: its count equals the count in their concatenation |
| Escape.EscWithoutValues | packages/mi-element/src/escape.js:37-38 | missing or nullish values contribute nothing |
| Escape.EscTwoParts | packages/mi-element/src/escape.js:37-38 | `esc` is literal, escaped value, literal, joined with '' |
| Styling.ClassMap | packages/mi-element/src/styling.js:8-15 | the loop's result is the truthy names, in entry order, joined by ' ' |
| Styling.TruthyNamesMembers | packages/mi-element/src/styling.js:11-13 | a name is in the class list exactly when some entry with that name has a truthy value |
| Styling.TruthyNamesConcat | packages/mi-element/src/styling.js:11-13 | the selection works entry by entry and keeps entry order |
| Styling.ClassMapOfNothing | packages/mi-element/src/styling.js:11 | a nullish map gives '' |
| Styling.ClassMapSplits | packages/mi-element/src/styling.js:14 | with space-free names, splitting the class string on ' ' gives back exactly the selected names |
| Styling.ClassMapExample | packages/mi-element/test/styling.test.js:6-14 | `{button: true, 'btn-primary': '', 'btn-secondary': 'ok'}` gives 'button btn-secondary' |
| Styling.StyleMap | packages/mi-element/src/styling.js:24-33 | the loop's result is the declarations of the entries, joined by ';' |
| Styling.PresentMembers | packages/mi-element/src/styling.js:28 | an entry is kept exactly when its value is neither null nor undefined |
| Styling.DeclarationsOfPresent | packages/mi-element/src/styling.js:27-31 | there is one declaration per kept entry, in entry order, and each is that entry's declaration |
| Styling.DeclarationsSkipNullish | packages/mi-element/src/styling.js:28 | inserting a null or undefined entry anywhere changes nothing |
| Styling.DeclarationsConcat | packages/mi-element/src/styling.js:27-31 | declarations are built entry by entry |
| Styling.DeclarationParts | packages/mi-element/src/styling.js:29-30 | a declaration splits on ':' into the kebab-case name, which converts back to the camelCase name, and the value, which carries the unit for numbers and none for strings |
| Styling.DefaultUnit | packages/mi-element/src/styling.js:25 | without options, or without `unit`, the unit is 'px' |
| Styling.StyleMapExample | packages/mi-element/test/styling.test.js:20-27 | `{backgroundColor: 'rgba(0,0,0,0.5)', minWidth: 16}` gives 'background-color:rgba(0,0,0,0.5);min-width:16px' |
| Refs.RefsById | packages/mi-element/src/refs.js:11-21 | the loop's result is `RefsOf` of the container's nodes, or `{}` without `querySelectorAll` |
| Refs.RefsKeys | packages/mi-element/src/refs.js:14-19 | the keys are exactly the keys derived from the nodes |
| Refs.RefsLastWins | packages/mi-element/src/refs.js:18 | the node stored under a key is the last node with that key, so a later node overwrites an earlier one |
| Refs.UnnamedKey | packages/mi-element/src/refs.js:15-17 | a node with an empty id is keyed by its lower-cased node name |
| Refs.NamedKeyExample | packages/mi-element/src/refs.js:3 | the id 'list-container' becomes the key 'listContainer' |
| Refs.RefsByIdExample | packages/mi-element/test/refs.test.js:5-15 | `<button id>` and `<span id="count">` give `{button, count}` |
| Refs.RefsOfNoContainer | packages/mi-element/src/refs.js:12 | a container without `querySelectorAll` yields `{}` |
| Refs.RefsBySelector | packages/mi-element/src/refs.js:41-47 | the loop's result is `SelectionsOf` the selector entries, with the lookup as a parameter |
| Refs.SelectionsKeys | packages/mi-element/src/refs.js:43-44 | the result has exactly the names of the selector map as keys |
| Refs.SelectionsByName | packages/mi-element/src/refs.js:43-44 | each name holds what its own selector yields |
| Elements.InitialType | packages/mi-element/src/element.js:342 | the type tag is Boolean, Number or String exactly for booleans, numbers and strings |
| Elements.ToNumber | packages/mi-element/src/element.js:344-347 | `toNumber` returns a number or its argument unchanged |
| Elements.ConvertType | packages/mi-element/src/element.js:349-362 | a Boolean attribute always converts to a boolean; types other than Number and Boolean return the input unchanged |
| Elements.ConvertBooleanAttribute | packages/mi-element/src/element.js:354-359 | for a Boolean attribute, 'false' gives false, an absent attribute gives false, and any other text (including '') gives true |
| Elements.ConvertNumberOfText | packages/mi-element/src/element.js:352-353 | a Number attribute holding an integer's text converts to that integer |
| Elements.ConvertNumberKeepsText | packages/mi-element/src/element.js:344-347 | text that `StringToNumber` does not read as an optionally signed run of decimal digits stays text |
| Elements.AttrOfKeys | packages/mi-element/src/element.js:68 | the copied `attributes` have exactly the declared names as keys |
| Elements.LcMapOfKeys | packages/mi-element/src/element.js:86 | the lower-case map's keys are the lower-cased declared names |
| Elements.LcMapOfSound | packages/mi-element/src/element.js:86 | each lower-case key maps to a declared name that lower-cases to it |
| Elements.LcMapOfDistinct | packages/mi-element/src/element.js:86 | with case-distinct names, the lower-cased name maps back to its own declared name |
| Elements.ResolveDeclaredName | packages/mi-element/src/element.js:111-113 | `#getName` turns a lower-cased declared name into its camelCase form and returns unknown names unchanged |
| Elements.Names | packages/mi-element/src/element.js:324 | `Object.keys(attributes)` lists the declared names in order |
| Elements.LowerCaseAll | packages/mi-element/src/element.js:324-326 | the `map` lower-cases every name and keeps the order |
| Elements.DefineAgreesWithGetName | packages/mi-element/src/element.js:321-326 | every name `define` observes has no capitals and is resolved by `#getName` to the declared name it came from |
| Elements.DomWriteBranches | packages/mi-element/src/element.js:189-200 | Boolean: '' for `true` or '', removed otherwise; String, Number or `true`: the value is written; anything else: no attribute is written |
| Elements.SetAttributeDefaultsExample | packages/mi-element/test/element.test.js:81-93 | the attribute each kind of default value leaves on the host, as the test expects: '' for '' and `true`, none for `false`, `undefined`, arrays, objects and functions, the value for strings and numbers |
| Elements.WrittenAttributeConvertsBack | packages/mi-element/src/element.js:189-200 | an attribute `setAttribute` writes converts back through `convertType` to the property's value |
| Elements.GuardAsWrittenAdmitsUndeclared | packages/mi-element/src/element.js:182-184 | the `in` test as written admits names such as 'constructor' and '__proto__' which no element declares |
| Elements.FirstNonFunction | packages/mi-element/src/element.js:276-283 | the index of the first listener that is not a function: all before it are functions |
| Elements.AddedAll | packages/mi-element/src/element.js:281 | adding listeners to the set keeps it duplicate-free, and its members are the old ones and the added ones |
| Elements.AddedAllFunctions | packages/mi-element/src/element.js:276-283 | `#disposers` only ever holds functions |
| Elements.ObserveAttribute | packages/mi-element/src/element.js:83-87 | one step of `#observedAttributes` keeps the maps built so far describing the first entries |
| Elements.MiElement.constructor | packages/mi-element/src/element.js:65-70 | a new element holds the declared attributes, their types, their lower-case names and one subscriber-free signal each; nothing is changed, disposed or written yet |
| Elements.MiElement.GetName | packages/mi-element/src/element.js:111-113 | `#getName` returns the name itself or a declared name |
| Elements.MiElement.GetType | packages/mi-element/src/element.js:115-117 | a type is found exactly for declared names |
| Elements.MiElement.RequestUpdate | packages/mi-element/src/element.js:206-215 | a connected element requests one animation frame; nothing else changes |
| Elements.MiElement.SetProperty | packages/mi-element/src/element.js:92-101 | the property setter ignores a value `===` to the current one; otherwise it writes `#attr`, `#changedAttr` and the signal, whose subscribers are called, and requests an update |
| Elements.MiElement.AssignAttribute | packages/mi-element/src/element.js:186 | `this[attr] = this.#changedAttr[attr] = value` records the change and goes through the setter for a declared name, or adds a plain own property otherwise |
| Elements.MiElement.RemoveHostAttribute | packages/mi-element/src/element.js:160-162 | `removeAttribute` removes the lower-cased name from the host and nothing else |
| Elements.MiElement.AttributeChangedCallback | packages/mi-element/src/element.js:153-171 | the new value is converted by the attribute's type and assigned; a Boolean attribute set to 'false' is removed from the host; an update is requested |
| Elements.MiElement.SetAttribute | packages/mi-element/src/element.js:179-201 | an undeclared name changes nothing; a declared one is assigned, and the host attribute is written, removed or left as `DomWriteFor` says |
| Elements.MiElement.ReflectAttribute | packages/mi-element/src/element.js:189-200 | the branches at the end of `setAttribute` on the host and the frame requests |
| Elements.MiElement.Dispose | packages/mi-element/src/element.js:276-283 | listeners are added until the first non-function, which throws TypeError 'listener must be a function'; those before it stay added |
| Elements.DisposeRejectsNonFunction | packages/mi-element/test/element.test.js:292-299 | `dispose('boo')` stops at its first argument |
| Stores.ActionNames | packages/mi-element/src/store.js:42 | the action names in `Object.entries` order |
| Stores.DefinedAsWrittenMissesFalsyValue | packages/mi-element/src/store.js:44-46 | with a falsy initial value, the truthiness test as written does not see the members `value` and `_value` |
| Stores.DefinedRefinesAsWritten | packages/mi-element/src/store.js:44-46 | the corrected test rejects everything the original rejects, agrees with it when the initial value is truthy, and always rejects `value` and `_value` |
| Stores.InstallActions | packages/mi-element/src/store.js:42-59 | the constructor's loop computes `InstallOf`: the installed actions, or the first error, which may be one a dispatcher throws when called with `undefined` |
| Stores.InstallStopsAtError | packages/mi-element/src/store.js:42-55 | the first error ends the construction; later entries do not matter |
| Stores.InstalledNames | packages/mi-element/src/store.js:56-58 | a successful construction installs exactly the entries' names |
| Stores.InstalledDispatchers | packages/mi-element/src/store.js:56-58 | with distinct names, each name is installed with its own dispatcher |
| Stores.InstalledChecked | packages/mi-element/src/store.js:43-54 | with checks on, every installed dispatcher is a function, `dispatcher(undefined)` is a function, and no name shadows a member |
| Stores.ProductionNeverThrows | packages/mi-element/src/store.js:43 | in production mode the constructor never throws |
| Stores.FirstRejectedEntry | packages/mi-element/src/store.js:43-54 | the first entry whose name is already a member throws 'action "<name>" is already defined'; otherwise an error `dispatcher(undefined)` throws propagates; a dispatcher that is not a function, or whose `dispatcher(undefined)` is not one, throws the 'must be a function of type' error |
| Stores.NotCurriedExample | packages/mi-element/test/store.test.js:13-25 | `increment: (by) => by` is rejected with the test's message |
| Stores.ThrowingDispatcherExample | packages/mi-element/src/store.js:47-50 | a dispatcher that throws when called with `undefined` makes `new Store` throw that same error |
| Stores.MemberNameExample | packages/mi-element/src/store.js:44-46 | an action named `subscribe` is rejected as already defined |
| Stores.CheckedActionsDispatch | packages/mi-element/src/store.js:47-57 | with checks on, calling an installed action with no data reaches its reducer: the outcome is what the reducer returns or throws, never an engine TypeError |
| Stores.Store.constructor | packages/mi-element/src/store.js:40-41 | the store's value starts as the initial value, with no subscribers |
| Stores.Store.Create | packages/mi-element/src/store.js:40-60 | `new Store` succeeds exactly when `InstallOf` does, and throws its error otherwise, including an error a dispatcher throws; a new store has the initial value, no subscribers and the installed actions |
| Stores.Store.Dispatch | packages/mi-element/src/store.js:56-58 | an action sets the value to `dispatcher(data)(value)` through the signal gate, so subscribers are called only when the result differs; an error thrown by the engine, by `dispatcher(data)` or by the reducer propagates and leaves the value alone |
| Stores.NonEmpty | packages/mi-element/src/store.js:83 | `filter(Boolean)` keeps exactly the non-empty segments |
| Stores.NonEmptyOfNonEmpty | packages/mi-element/src/store.js:83 | the filter keeps a list of non-empty segments as it is |
| Stores.PathKeysOfJoin | packages/mi-element/src/store.js:81-84 | a dotted path of non-empty, dot-free segments parses into exactly those segments |
| Stores.PathSegments | packages/mi-element/src/store.js:83 | a parsed path never holds an empty segment |
| Stores.WalkPath | packages/mi-element/src/store.js:86-92 | the walk loop computes `Walk` over the keys before the last |
| Stores.WalkStopsAtError | packages/mi-element/src/store.js:86-92 | the first failing property ends the walk |
| Stores.WalkRejectsNonObject | packages/mi-element/src/store.js:88-90 | a property whose `typeof` is not 'object' throws TypeError 'object expected for property "<key>"' |
| Stores.ResolveTarget | packages/mi-element/src/store.js:72-92 | the target is a signal, or a walk to the holder of the last key, as `BindingOf` says |
| Stores.NeedProp | packages/mi-element/src/store.js:84-85 | no keys, or an empty last key, throw TypeError 'need prop' |
| Stores.EmptyPathExample | packages/mi-element/src/store.js:85 | the path '' and the key list `[]` throw 'need prop' |
| Stores.SingleKeyBindsHost | packages/mi-element/src/store.js:81-85 | a one-segment path binds that property of the element itself |
| Stores.TwoKeyWalk | packages/mi-element/src/store.js:86-92 | a two-key list binds the second key of the first property's object, or throws when that property is not an object |
| Stores.SubscribeToStore | packages/mi-element/src/store.js:63-99 | on error nothing is subscribed or registered; on success the new callback is appended to the store's subscribers and the new unsubscriber function to `#disposers`, where it occurs exactly once and is recorded as running that callback's unsubscriber, which restores the store's old subscribers |
| Contexts.ForwardedAnswers | packages/mi-element/src/context.js:69-75 | after the first run, each change of the provider's value answers exactly the subscribed requests, with that value and their unsubscriber |
| Contexts.ContextProvider.constructor | packages/mi-element/src/context.js:25-31 | the provider's state holds the initial value, with no subscribers |
| Contexts.ContextProvider.Set | packages/mi-element/src/context.js:46-48 | `set` is the signal's setter, and its subscribers' calls become answers to the subscribed requests |
| Contexts.ContextProvider.OnContextRequest | packages/mi-element/src/context.js:61-78 | a request for another context is ignored and not stopped; a matching one is stopped and answered once with the current value; with `subscribe` it is subscribed, and the first run makes no call |
| Contexts.ContextProvider.RunUnsubscriber | packages/mi-element/src/context.js:68-75 | the effect's unsubscriber removes exactly that subscription |
| Contexts.ValidateOption | packages/mi-element/src/context.js:107 | without a validator every value is accepted; a given validator is used as it is |
| Contexts.DefaultOptions | packages/mi-element/src/context.js:107-115 | without options, or without `subscribe` and `validate`, a consumer does not subscribe and accepts every value |
| Contexts.ContextConsumer.constructor | packages/mi-element/src/context.js:106-120 | a consumer starts with `value` and `unsubscribe` undefined and the given or default options |
| Contexts.ContextConsumer.DispatchRequest | packages/mi-element/src/context.js:133-141 | the request carries the consumer's context, its bound callback and its `subscribe` flag |
| Contexts.HandleUnsubscribeBranches | packages/mi-element/src/context.js:145-156 | with the correction of "## Findings": a consumer that did not subscribe calls the given unsubscriber and keeps its own; a subscribing one stores the given one, calling the old one exactly when it is stored and differs |
| Contexts.NeverStored | packages/mi-element/src/context.js:149-155 | as written, starting from none, no sequence of answers ever stores an unsubscriber |
| Contexts.SubscribedAnswerKept | packages/mi-element/src/context.js:145-156 | as written, a subscribing consumer neither calls nor stores the first unsubscriber it is given |
| Contexts.SubscribedAnswerStored | packages/mi-element/src/context.js:145-156 | corrected, a subscribing consumer stores the first unsubscriber it is given and calls nothing |
| Contexts.StoredAfterHoldsLast | packages/mi-element/src/context.js:145-156 | corrected, a subscribing consumer holds the last unsubscriber it was handed, and holds one exactly when it started with one or was handed one; one that did not subscribe keeps what it holds |
| Contexts.UnsubscribedAnswerReleased | packages/mi-element/src/context.js:145-148 | a consumer that did not subscribe releases the provider's subscription at once |
| Contexts.ContextConsumer.Callback | packages/mi-element/src/context.js:143-163 | `_callback` updates `unsubscribe` by the corrected branches; an error `validate` throws propagates and changes nothing else; a value it rejects changes nothing else; an accepted one is stored and requests an update |
| Contexts.ContextConsumer.HostDisconnected | packages/mi-element/src/context.js:126-131 | the stored unsubscriber is called once and cleared, so a second call does nothing |
| Contexts.SubscribedLifecycle | packages/mi-element/src/context.js:126-163 | a subscribing consumer handed an unsubscriber calls exactly that unsubscriber when its host disconnects |

## Left out

- `dist/*.js` is generated from `src` and is not modelled. It also differs: it records old values in `#changedAttr` and adds kebab-case aliases.
- `types/*.d.ts` is not modelled. Its `State`, `Computed` and `equals` parts have no implementation in `src`, and neither do the tests that use them.
- The `kebabToCamelCase` of `src/refs.js` is textually that of `src/case.js`, so both are `Case.KebabToCamelCase`.
- The DOM is left out, each replaced by the decision it makes: connection, `connectedCallback`, `render`, templates, `on`/`once`, controllers, `customElements.define`, event dispatch and bubbling, and `querySelectorAll`/`querySelector`. The DOM's own reaction to an attribute write (`attributeChangedCallback` being called again) is not chained.
- Elements.MiElement.RequestUpdate: `requestAnimationFrame` is counted, not scheduled; the later `shouldUpdate`/`update` run and the reset of `#changedAttr` are not modelled.
- Callbacks are never executed. A notification is the list of calls it would make, and the store binding that `subscribeToStore` installs is described by a `Binding` value. Subscribers that change the subscriber set while it is being iterated are not modelled.
- Numbers are integers. `NaN`, `-0`, fractions and `Number.isFinite` are outside the model, and so is `Number` of an object or array: `ToNumber` leaves those unchanged.
- `toString.call(value).slice(8, -1)` distinguishes only booleans, numbers, strings, null, undefined, arrays, functions and objects. Class instances count as plain objects.
- Strings are ASCII-only for case mapping. The `'' + string` conversion of non-strings in `escHtml`/`escAttr` is not modelled, and `styleMap`'s `${value}` formats only strings and integers.
- `Object.entries` order is the order of the given entry list. Non-string keys are not modelled.
- A class element's `HTMLElement` own properties are not among the host properties that `subscribeToStore` can walk: only declared attributes, plain own properties and modelled objects are.
- Stores.SubscribeToStore: `keys.pop()` mutating an array the caller passed in is not modelled; the model takes the keys by value.
- In production mode an action may shadow a store member; the model installs it under its name, and does not model the member it overwrites.
- `dispatcher(undefined)`'s side effects during validation are not modelled. `call` is a function of its arguments, so the same call always returns, or throws, the same.
- A value that user code throws is an `Exception` with a kind and a message. A thrown value that is not an `Error` is not told apart.
- Elements.ToNumber: `Number`'s other numerals with an integer value are not read, and the model returns the text where the source returns the number. These are hexadecimal, octal and binary literals (`"0x10"`, `"0o7"`, `"0b11"`), exponents (`"1e3"`) and a decimal point (`"1.0"`, `"5."`).
- Elements.ConvertNumberKeepsText: its premise takes in the numerals that `ToNumber` does not read, so for those it asserts that the text stays text. That holds of the model, not of the source.
- Elements.MiElement.SetProperty: the model assumes a signal of `#signals` is written only through the property setter. The public `signals` getter (element.js:75-77) hands the signals out. A direct write to one leaves it differing from `#attr`, and a later setter write of the same value then calls no subscriber. `Valid()` excludes that state.
- The error texts of engine TypeErrors ("... is not a function", "Cannot read properties of null") are those of V8.
- The provider's `hostConnected`/`hostDisconnected` (adding and removing its event listener) and `addController` are DOM wiring, and are left out.
- `console.debug` output is left out.
- An element's constructor does not state that its signals are fresh objects: the signal map's frame is described by the ghost `owners` map instead.

## Findings

| source | as written | input that shows it | evidently intended | confidence | as-written member | corrected member |
|---|---|---|---|---|---|---|
| packages/mi-element/src/element.js:182-184 | `attr in this.#attr` also finds names inherited from `Object.prototype` | `el.setAttribute('constructor', x)` on an element declaring no such attribute passes the guard and assigns an undeclared property | only declared attributes are changed | not executed | Elements.GuardAsWrittenAdmitsUndeclared | Elements.MiElement.SetAttribute |
| packages/mi-element/src/store.js:44-46 | `if (this[action])` tests the member's value, not its presence | `new Store({ value: () => (s) => s }, 0)`: `this.value` is 0, so the action is installed and its assignment replaces the store's state with the action function | an action named after an existing member (`value`, `_value`) is rejected | not executed | Stores.DefinedAsWrittenMissesFalsyValue | Stores.DefinedRefinesAsWritten |
| packages/mi-element/src/context.js:149-155 | `this.unsubscribe = unsubscribe` sits inside `else if (this.unsubscribe)`, so a consumer that holds no unsubscriber never stores one | a subscribing consumer answered by a subscribing provider: `_callback(v, u)` leaves `this.unsubscribe` undefined, so `hostDisconnected()` calls nothing and the provider keeps answering the disconnected consumer | a subscribing consumer stores the unsubscriber it is handed and calls a previous provider's one when replacing it | not executed | Contexts.NeverStored | Contexts.SubscribedLifecycle |
