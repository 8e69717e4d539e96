/**
 * The class-name and style-string builders of src/styling.js. A map argument
 * is the list of its `Object.entries`, in that order, or `None` when it is
 * null or undefined.
 */
module Styling {
  import opened Js
  import opened Case

  datatype Entry = Entry(name: string, value: Value)

  /** `Object.entries(map ?? {})` */
  function EntriesOf(m: Option<seq<Entry>>): seq<Entry> {
    if m.Some? then m.value else []
  }

  // ---------------------------------------------------------------------
  // classMap

  /** The names whose values are truthy, in entry order. */
  function TruthyNames(es: seq<Entry>): seq<string>
    decreases |es|
  {
    if es == [] then []
    else
      var last := es[|es| - 1];
      TruthyNames(es[..|es| - 1]) + (if Truthy(last.value) then [last.name] else [])
  }

  /** `classMap(map)` */
  method ClassMap(m: Option<seq<Entry>>) returns (className: string)
    ensures className == Join(TruthyNames(EntriesOf(m)), " ")
  {
    var entries := EntriesOf(m);
    var acc: seq<string> := [];
    for i := 0 to |entries|
      invariant acc == TruthyNames(entries[..i])
    {
      assert entries[..i + 1][..i] == entries[..i];
      if Truthy(entries[i].value) {
        acc := acc + [entries[i].name];
      }
    }
    assert entries[..|entries|] == entries;
    className := Join(acc, " ");
  }

  /** Entry order is kept: the names of a concatenation are the names of each part, in turn. */
  lemma {:induction false} TruthyNamesConcat(a: seq<Entry>, b: seq<Entry>)
    ensures TruthyNames(a + b) == TruthyNames(a) + TruthyNames(b)
    decreases |b|
  {
    if b == [] {
      assert a + b == a;
    } else {
      var b' := b[..|b| - 1];
      TruthyNamesConcat(a, b');
      assert (a + b)[..|a + b| - 1] == a + b';
    }
  }

  /** A name is in the class list exactly when some entry gives it a truthy value. */
  lemma {:induction false} TruthyNamesMembers(es: seq<Entry>, n: string)
    ensures n in TruthyNames(es) <==> exists i :: 0 <= i < |es| && es[i].name == n && Truthy(es[i].value)
    decreases |es|
  {
    if es != [] {
      var init := es[..|es| - 1];
      TruthyNamesMembers(init, n);
      if exists i :: 0 <= i < |init| && init[i].name == n && Truthy(init[i].value) {
        var i :| 0 <= i < |init| && init[i].name == n && Truthy(init[i].value);
        assert es[i] == init[i];
      }
      if exists i :: 0 <= i < |es| && es[i].name == n && Truthy(es[i].value) {
        var i :| 0 <= i < |es| && es[i].name == n && Truthy(es[i].value);
        if i < |init| {
          assert init[i] == es[i];
        }
      }
    }
  }

  /** A null or undefined map gives the empty class name. */
  lemma ClassMapOfNothing()
    ensures Join(TruthyNames(EntriesOf(None)), " ") == ""
  {
  }

  /**
   * When there is a class and no name holds a space, splitting the class
   * attribute on ' ' recovers exactly the truthy names.
   */
  lemma ClassMapSplits(es: seq<Entry>)
    requires |TruthyNames(es)| >= 1
    requires forall i :: 0 <= i < |es| ==> ' ' !in es[i].name
    ensures Split(Join(TruthyNames(es), " "), ' ') == TruthyNames(es)
  {
    var names := TruthyNames(es);
    forall k | 0 <= k < |names| ensures ' ' !in names[k] {
      TruthyNamesMembers(es, names[k]);
    }
    SplitJoin(names, ' ');
  }

  lemma ClassExampleNames(a: string, b: string, c: string)
    requires a == "button" && b == "btn-primary" && c == "btn-secondary"
    ensures TruthyNames([Entry(a, Bool(true)), Entry(b, Str("")), Entry(c, Str("ok"))]) == [a, c]
  {
    var es := [Entry(a, Bool(true)), Entry(b, Str("")), Entry(c, Str("ok"))];
    assert es[..2][..1] == [Entry(a, Bool(true))];
    assert TruthyNames([Entry(a, Bool(true))]) == [a] by {
      assert [Entry(a, Bool(true))][..0] == [];
    }
    assert es[..2] == [Entry(a, Bool(true)), Entry(b, Str(""))];
    assert TruthyNames(es[..2]) == [a];
  }

  /** `classMap({button: true, 'btn-primary': '', 'btn-secondary': 'ok'})` is `'button btn-secondary'`. */
  lemma ClassMapExample()
    ensures Join(TruthyNames([Entry("button", Bool(true)), Entry("btn-primary", Str("")),
                              Entry("btn-secondary", Str("ok"))]), " ") == "button btn-secondary"
  {
    ClassExampleNames("button", "btn-primary", "btn-secondary");
  }

  // ---------------------------------------------------------------------
  // styleMap

  /** The documented value types: string, number, null or undefined. */
  predicate IsStyleValue(v: Value) {
    v.Str? || v.Num? || Nullish(v)
  }

  predicate StyleValues(es: seq<Entry>) {
    forall i :: 0 <= i < |es| ==> IsStyleValue(es[i].value)
  }

  lemma StyleValuesConcat(a: seq<Entry>, b: seq<Entry>)
    requires StyleValues(a) && StyleValues(b)
    ensures StyleValues(a + b)
  {
    forall i | 0 <= i < |a + b| ensures IsStyleValue((a + b)[i].value) {
      if i >= |a| {
        assert (a + b)[i] == b[i - |a|];
      }
    }
  }

  /** `{ unit }` of the options object; `unit: None` leaves it undefined. */
  datatype StyleOptions = StyleOptions(unit: Option<string>)

  /** `const { unit = 'px' } = options || {}` */
  function UnitOf(options: Option<StyleOptions>): string {
    if options.Some? && options.value.unit.Some? then options.value.unit.value else "px"
  }

  /** `Number.isFinite(value) ? unit : ''`: every number of the model is finite. */
  function UnitFor(v: Value, unit: string): string {
    if v.Num? then unit else ""
  }

  /** `${value}` for a string or a number. */
  function StyleText(v: Value): string
    requires v.Str? || v.Num?
  {
    if v.Str? then v.s else IntToString(v.n)
  }

  /** `${camelToKebabCase(name)}:${value}${_unit}` */
  function Declaration(e: Entry, unit: string): string
    requires e.value.Str? || e.value.Num?
  {
    CamelToKebabCase(e.name) + ":" + StyleText(e.value) + UnitFor(e.value, unit)
  }

  /** The declarations of the entries whose values are neither null nor undefined, in entry order. */
  function Declarations(es: seq<Entry>, unit: string): seq<string>
    requires StyleValues(es)
    decreases |es|
  {
    if es == [] then []
    else
      var init, last := es[..|es| - 1], es[|es| - 1];
      assert forall i :: 0 <= i < |init| ==> init[i] == es[i];
      assert IsStyleValue(es[|es| - 1].value);
      Declarations(init, unit) + (if Nullish(last.value) then [] else [Declaration(last, unit)])
  }

  /** `styleMap(map, options)` */
  method StyleMap(m: Option<seq<Entry>>, options: Option<StyleOptions>) returns (style: string)
    requires StyleValues(EntriesOf(m))
    ensures style == Join(Declarations(EntriesOf(m), UnitOf(options)), ";")
  {
    var unit := UnitOf(options);
    var entries := EntriesOf(m);
    var acc: seq<string> := [];
    for i := 0 to |entries|
      invariant acc == Declarations(entries[..i], unit)
    {
      assert entries[..i + 1][..i] == entries[..i];
      var value := entries[i].value;
      if value == Null || value == Undefined {
        continue;
      }
      var unitHere := if value.Num? then unit else "";
      acc := acc + [CamelToKebabCase(entries[i].name) + ":" + StyleText(value) + unitHere];
    }
    assert entries[..|entries|] == entries;
    style := Join(acc, ";");
  }

  /** The entries whose values are neither null nor undefined, in entry order. */
  function Present(es: seq<Entry>): seq<Entry>
    decreases |es|
  {
    if es == [] then []
    else Present(es[..|es| - 1]) + (if Nullish(es[|es| - 1].value) then [] else [es[|es| - 1]])
  }

  /** An entry is kept exactly when it occurs with a value that is neither null nor undefined. */
  lemma {:induction false} PresentMembers(es: seq<Entry>, e: Entry)
    ensures e in Present(es) <==> e in es && !Nullish(e.value)
    decreases |es|
  {
    if es != [] {
      PresentMembers(es[..|es| - 1], e);
      assert es == es[..|es| - 1] + [es[|es| - 1]];
    }
  }

  /** The declarations are those of the present entries, one each, in order. */
  lemma {:induction false} DeclarationsOfPresent(es: seq<Entry>, unit: string)
    requires StyleValues(es)
    ensures StyleValues(Present(es))
    ensures |Declarations(es, unit)| == |Present(es)|
    ensures forall k :: 0 <= k < |Present(es)| ==>
      !Nullish(Present(es)[k].value) && Declarations(es, unit)[k] == Declaration(Present(es)[k], unit)
    decreases |es|
  {
    if es != [] {
      var init := es[..|es| - 1];
      assert StyleValues(init);
      DeclarationsOfPresent(init, unit);
    }
  }

  /** Entry order is kept: the declarations of a concatenation are those of each part, in turn. */
  lemma {:induction false} DeclarationsConcat(a: seq<Entry>, b: seq<Entry>, unit: string)
    requires StyleValues(a)
    requires StyleValues(b)
    ensures StyleValues(a + b)
    ensures Declarations(a + b, unit) == Declarations(a, unit) + Declarations(b, unit)
    decreases |b|
  {
    StyleValuesConcat(a, b);
    if b == [] {
      assert a + b == a;
    } else {
      var b' := b[..|b| - 1];
      assert StyleValues(b');
      DeclarationsConcat(a, b', unit);
      assert (a + b)[..|a + b| - 1] == a + b';
    }
  }

  lemma DeclarationsOfNullish(name: string, v: Value, unit: string)
    requires Nullish(v)
    ensures StyleValues([Entry(name, v)]) && Declarations([Entry(name, v)], unit) == []
  {
    assert [Entry(name, v)][..0] == [];
  }

  /** An entry with a null or undefined value adds nothing, wherever it stands. */
  lemma DeclarationsSkipNullish(a: seq<Entry>, name: string, v: Value, b: seq<Entry>, unit: string)
    requires Nullish(v)
    requires StyleValues(a)
    requires StyleValues(b)
    ensures StyleValues(a + [Entry(name, v)] + b)
    ensures Declarations(a + [Entry(name, v)] + b, unit) == Declarations(a + b, unit)
  {
    var n := [Entry(name, v)];
    DeclarationsOfNullish(name, v, unit);
    DeclarationsConcat(a, n, unit);
    var an := a + n;
    assert Declarations(an, unit) == Declarations(a, unit);
    DeclarationsConcat(an, b, unit);
    DeclarationsConcat(a, b, unit);
  }

  /**
   * A declaration splits at ':' into the kebab-case property name and the
   * value text, and for a letters-and-digits name kebabToCamelCase recovers
   * the original name; a number carries the unit, a string does not.
   */
  lemma DeclarationParts(e: Entry, unit: string)
    requires e.value.Str? || e.value.Num?
    requires Alphanumeric(e.name)
    requires ':' !in StyleText(e.value) && ':' !in unit
    ensures Split(Declaration(e, unit), ':') == [CamelToKebabCase(e.name), StyleText(e.value) + UnitFor(e.value, unit)]
    ensures KebabToCamelCase(CamelToKebabCase(e.name)) == e.name
    ensures e.value.Num? ==> UnitFor(e.value, unit) == unit
    ensures e.value.Str? ==> UnitFor(e.value, unit) == ""
  {
    forall i | 0 <= i < |e.name| ensures e.name[i] != ':' {
      assert IsLetter(e.name[i]) || IsDigit(e.name[i]);
    }
    CamelToKebabKeepsOut(e.name, ':');
    var rest := StyleText(e.value) + UnitFor(e.value, unit);
    assert ':' !in rest;
    assert Declaration(e, unit) == CamelToKebabCase(e.name) + [':'] + rest;
    SplitWithout(CamelToKebabCase(e.name), ':', rest);
    SplitUnseparated(rest, ':');
    KebabRoundTrip(e.name);
  }

  /** Without options the unit is 'px', and an options object without `unit` keeps it. */
  lemma DefaultUnit()
    ensures UnitOf(None) == "px" && UnitOf(Some(StyleOptions(None))) == "px"
  {
  }

  lemma KebabOfTwoWords(w1: string, w2: string)
    requires NoUpper(w1) && w2 != [] && IsUpper(w2[0]) && NoUpper(w2[1..])
    ensures CamelToKebabCase(w1 + w2) == w1 + "-" + [ToLower(w2[0])] + w2[1..]
  {
    CamelToKebabConcat(w1, w2);
    CamelToKebabWithoutUpper(w1);
    CapitalHead(w2);
  }

  lemma DeclarationsOfTwo(e1: Entry, e2: Entry, unit: string)
    requires (e1.value.Str? || e1.value.Num?) && (e2.value.Str? || e2.value.Num?)
    ensures StyleValues([e1, e2])
    ensures Join(Declarations([e1, e2], unit), ";") == Declaration(e1, unit) + ";" + Declaration(e2, unit)
  {
    var es := [e1, e2];
    assert es[..1] == [e1] && [e1][..0] == [];
    assert Declarations([e1], unit) == [Declaration(e1, unit)];
    assert Declarations(es, unit) == Declarations([e1], unit) + [Declaration(e2, unit)];
  }

  lemma BackgroundColor(n: string)
    requires n == "backgroundColor"
    ensures CamelToKebabCase(n) == "background-color"
  {
    assert n == "background" + "Color";
    KebabOfTwoWords("background", "Color");
  }

  lemma MinWidth(n: string)
    requires n == "minWidth"
    ensures CamelToKebabCase(n) == "min-width"
  {
    assert n == "min" + "Width";
    KebabOfTwoWords("min", "Width");
  }

  lemma Sixteen()
    ensures IntToString(16) == "16"
  {
    assert NatToString(16) == NatToString(1) + [DigitChar(6)];
  }

  lemma BackgroundDeclaration(e: Entry)
    requires e == Entry("backgroundColor", Str("rgba(0,0,0,0.5)"))
    ensures Declaration(e, "px") == "background-color" + ":" + "rgba(0,0,0,0.5)" + ""
  {
    BackgroundColor(e.name);
  }

  lemma MinWidthDeclaration(e: Entry)
    requires e == Entry("minWidth", Num(16))
    ensures Declaration(e, "px") == "min-width" + ":" + "16" + "px"
  {
    MinWidth(e.name);
    Sixteen();
  }

  lemma StyleExampleText(d1: string, d2: string, v1: string)
    requires v1 == "rgba(0,0,0,0.5)"
    requires d1 == "background-color" + ":" + v1 + "" && d2 == "min-width" + ":" + "16" + "px"
    ensures d1 + ";" + d2 == "background-color:rgba(0,0,0,0.5);min-width:16px"
  {
    assert "background-color" + ":" == "background-color:";
    assert "background-color:" + v1 == "background-color:rgba(0,0,0,0.5)";
    assert d1 == "background-color:rgba(0,0,0,0.5)";
    assert d1 + ";" == "background-color:rgba(0,0,0,0.5);";
    assert d2 == "min-width:16px";
    assert "background-color:rgba(0,0,0,0.5);" + "min-width:16px" == "background-color:rgba(0,0,0,0.5);min-width:16px";
  }

  lemma StyleExampleParts(e1: Entry, e2: Entry)
    requires e1 == Entry("backgroundColor", Str("rgba(0,0,0,0.5)")) && e2 == Entry("minWidth", Num(16))
    ensures Join(Declarations([e1, e2], "px"), ";") == "background-color:rgba(0,0,0,0.5);min-width:16px"
  {
    DeclarationsOfTwo(e1, e2, "px");
    BackgroundDeclaration(e1);
    MinWidthDeclaration(e2);
    StyleExampleText(Declaration(e1, "px"), Declaration(e2, "px"), "rgba(0,0,0,0.5)");
  }

  /**
   * `styleMap({backgroundColor: 'rgba(0,0,0,0.5)', minWidth: 16})` is
   * `'background-color:rgba(0,0,0,0.5);min-width:16px'`.
   */
  lemma StyleMapExample()
    ensures Join(Declarations([Entry("backgroundColor", Str("rgba(0,0,0,0.5)")), Entry("minWidth", Num(16))], UnitOf(None)), ";")
            == "background-color:rgba(0,0,0,0.5);min-width:16px"
  {
    assert UnitOf(None) == "px";
    StyleExampleParts(Entry("backgroundColor", Str("rgba(0,0,0,0.5)")), Entry("minWidth", Num(16)));
  }
}
