/**
 * The slice of JavaScript's value semantics that the mi-element core relies
 * on: values and strict equality, truthiness, `typeof`, thrown exceptions,
 * ASCII case mapping, and the integer part of number/string conversion.
 */
module Js {

  /** A value or nothing (`undefined` where the source uses an optional). */
  datatype Option<T> = None | Some(value: T)

  /**
   * A JavaScript value. Objects, arrays and functions are references, known
   * only by an identity; two references are `===` exactly when their
   * identities are equal. Numbers are integers, so `NaN` and `-0` do not
   * arise, and `===` on every kind of value is plain datatype equality.
   */
  datatype Value =
    | Undefined
    | Null
    | Bool(b: bool)
    | Num(n: int)
    | Str(s: string)
    | Obj(id: nat)
    | Arr(id: nat)
    | Fn(id: nat)

  /** `!!v`: false, 0, '', null and undefined are falsy; every reference is truthy. */
  predicate Truthy(v: Value) {
    match v
    case Undefined => false
    case Null => false
    case Bool(b) => b
    case Num(n) => n != 0
    case Str(s) => s != ""
    case _ => true
  }

  /** `v === null || v === undefined`, the values `??` and `?.` skip. */
  predicate Nullish(v: Value) {
    v == Undefined || v == Null
  }

  /** The string `typeof v` yields; note that `typeof null` is 'object'. */
  function TypeOf(v: Value): (r: string)
    ensures r == "object" <==> v.Null? || v.Obj? || v.Arr?
    ensures r == "function" <==> v.Fn?
  {
    match v
    case Undefined => "undefined"
    case Null => "object"
    case Bool(_) => "boolean"
    case Num(_) => "number"
    case Str(_) => "string"
    case Obj(_) => "object"
    case Arr(_) => "object"
    case Fn(_) => "function"
  }

  /** The two constructors the core throws: `Error` and `TypeError`. */
  datatype ErrorKind = PlainError | TypeError

  datatype Exception = Exception(kind: ErrorKind, message: string)

  /** The outcome of an operation that may throw. */
  datatype Result<T> = Ok(value: T) | Throw(exception: Exception)

  // ---------------------------------------------------------------------
  // ASCII characters and case mapping (Unicode case mapping is not modelled)

  predicate IsUpper(c: char) { 'A' <= c <= 'Z' }

  predicate IsLower(c: char) { 'a' <= c <= 'z' }

  predicate IsDigit(c: char) { '0' <= c <= '9' }

  predicate IsLetter(c: char) { IsUpper(c) || IsLower(c) }

  /** The regular-expression class `\w`: letters, digits and `_`. */
  predicate IsWordChar(c: char) { IsLetter(c) || IsDigit(c) || c == '_' }

  function ToLower(c: char): (r: char)
    ensures !IsUpper(r)
    ensures IsUpper(c) ==> IsLower(r) && ToUpper(r) == c
    ensures !IsUpper(c) ==> r == c
  {
    if IsUpper(c) then (c as int + 32) as char else c
  }

  function ToUpper(c: char): (r: char)
    ensures !IsLower(r)
    ensures IsLower(c) ==> IsUpper(r) && (r as int + 32) as char == c
    ensures !IsLower(c) ==> r == c
  {
    if IsLower(c) then (c as int - 32) as char else c
  }

  /** `String.prototype.toLowerCase`, restricted to ASCII. */
  function LowerCase(s: string): (r: string)
    ensures |r| == |s|
    ensures forall i :: 0 <= i < |s| ==> r[i] == ToLower(s[i])
  {
    if s == [] then [] else [ToLower(s[0])] + LowerCase(s[1..])
  }

  predicate NoUpper(s: string) {
    forall i :: 0 <= i < |s| ==> !IsUpper(s[i])
  }

  /** `parts.join(sep)`: the empty array joins to ''. */
  function Join(parts: seq<string>, sep: string): string {
    if |parts| == 0 then ""
    else if |parts| == 1 then parts[0]
    else parts[0] + sep + Join(parts[1..], sep)
  }

  /** `s.split(c)` for a one-character separator: '' splits into `['']`. */
  function Split(s: string, c: char): (r: seq<string>)
    ensures |r| >= 1
  {
    if s == [] then [""]
    else if s[0] == c then [""] + Split(s[1..], c)
    else var rest := Split(s[1..], c); [[s[0]] + rest[0]] + rest[1..]
  }

  lemma {:induction false} SplitWithout(a: string, c: char, b: string)
    requires c !in a
    ensures Split(a + [c] + b, c) == [a] + Split(b, c)
  {
    if a == [] {
      assert a + [c] + b == [c] + b;
      assert ([c] + b)[1..] == b;
    } else {
      SplitWithout(a[1..], c, b);
      assert (a + [c] + b)[1..] == a[1..] + [c] + b;
      assert [a[0]] + a[1..] == a;
    }
  }

  lemma {:induction false} SplitUnseparated(a: string, c: char)
    requires c !in a
    ensures Split(a, c) == [a]
  {
    if a != [] {
      SplitUnseparated(a[1..], c);
      assert [a[0]] + a[1..] == a;
    }
  }

  /** Splitting a join on a separator no part contains gives back the parts. */
  lemma {:induction false} SplitJoin(parts: seq<string>, c: char)
    requires |parts| >= 1
    requires forall k :: 0 <= k < |parts| ==> c !in parts[k]
    ensures Split(Join(parts, [c]), c) == parts
  {
    if |parts| == 1 {
      SplitUnseparated(parts[0], c);
    } else {
      SplitJoin(parts[1..], c);
      SplitWithout(parts[0], c, Join(parts[1..], [c]));
      assert parts == [parts[0]] + parts[1..];
    }
  }

  // ---------------------------------------------------------------------
  // A `Set` is its members in insertion order, without duplicates

  predicate NoDuplicates<T(==)>(s: seq<T>) {
    forall i, j :: 0 <= i < j < |s| ==> s[i] != s[j]
  }

  /** `Set.prototype.add`: a new member goes last, a present one stays put. */
  function Added<T(==,!new)>(s: seq<T>, x: T): (r: seq<T>)
    ensures forall y :: y in r <==> y in s || y == x
    ensures x in s ==> r == s
    ensures NoDuplicates(s) ==> NoDuplicates(r)
  {
    if x in s then s else s + [x]
  }

  /** `Set.prototype.delete`: the other members keep their order. */
  function Removed<T(==,!new)>(s: seq<T>, x: T): (r: seq<T>)
    ensures forall y :: y in r <==> y in s && y != x
  {
    if s == [] then []
    else if s[0] == x then Removed(s[1..], x)
    else [s[0]] + Removed(s[1..], x)
  }

  lemma {:induction false} RemovedNoDuplicates<T(!new)>(s: seq<T>, x: T)
    requires NoDuplicates(s)
    ensures NoDuplicates(Removed(s, x))
  {
    if s != [] {
      assert NoDuplicates(s[1..]);
      RemovedNoDuplicates(s[1..], x);
      assert s[0] !in s[1..];
    }
  }

  /**
   * The names every plain object inherits from `Object.prototype`, which the
   * `in` operator finds on any object literal.
   */
  const ObjectPrototypeMembers: set<string> :=
    {"constructor", "__proto__", "hasOwnProperty", "isPrototypeOf", "propertyIsEnumerable",
     "toString", "toLocaleString", "valueOf", "__defineGetter__", "__defineSetter__",
     "__lookupGetter__", "__lookupSetter__"}

  // ---------------------------------------------------------------------
  // Integers as decimal strings: `${n}` and `Number(s)` for integer strings

  function DigitChar(d: nat): (c: char)
    requires d < 10
    ensures IsDigit(c)
  {
    ('0' as int + d) as char
  }

  predicate AllDigits(s: string) {
    forall i :: 0 <= i < |s| ==> IsDigit(s[i])
  }

  /** The decimal representation of a natural number, without leading zeros. */
  function NatToString(n: nat): (r: string)
    ensures |r| > 0 && AllDigits(r)
    decreases n
  {
    if n < 10 then [DigitChar(n)] else NatToString(n / 10) + [DigitChar(n % 10)]
  }

  /** `String(n)` for an integer. */
  function IntToString(n: int): (r: string)
    ensures |r| > 0
  {
    if n < 0 then "-" + NatToString(-n) else NatToString(n)
  }

  /** The number a non-empty run of decimal digits denotes. */
  function DigitsValue(s: string): nat
    requires AllDigits(s)
    decreases |s|
  {
    if s == [] then 0
    else DigitsValue(s[..|s| - 1]) * 10 + (s[|s| - 1] as int - '0' as int)
  }

  lemma {:induction false} DigitsValueOfNatToString(n: nat)
    ensures DigitsValue(NatToString(n)) == n
    decreases n
  {
    var s := NatToString(n);
    if n >= 10 {
      DigitsValueOfNatToString(n / 10);
      assert s[..|s| - 1] == NatToString(n / 10);
    }
  }

  /**
   * The white space and line terminators that `Number(s)` trims: the ASCII
   * ones, NBSP, BOM, the line and paragraph separators and the other space
   * separators of Unicode category Zs.
   */
  predicate IsSpace(c: char) {
    || c == ' ' || c == '\t' || c == '\n' || c == '\r' || c == '\U{000B}' || c == '\U{000C}'
    || c == '\U{00A0}' || c == '\U{FEFF}' || c == '\U{1680}' || '\U{2000}' <= c <= '\U{200A}'
    || c == '\U{2028}' || c == '\U{2029}' || c == '\U{202F}' || c == '\U{205F}' || c == '\U{3000}'
  }

  function TrimStart(s: string): string {
    if s != [] && IsSpace(s[0]) then TrimStart(s[1..]) else s
  }

  function TrimEnd(s: string): string {
    if s != [] && IsSpace(s[|s| - 1]) then TrimEnd(s[..|s| - 1]) else s
  }

  function Trim(s: string): string {
    TrimEnd(TrimStart(s))
  }

  /**
   * `Number(s)` for a string, where its result is an integer: after trimming
   * whitespace, '' is 0 and an optionally signed run of decimal digits is its
   * value. Everything else yields None, which stands for `NaN` and for the
   * fractional, exponent, hexadecimal and `Infinity` forms this model leaves out.
   */
  function StringToNumber(s: string): Option<int> {
    var t := Trim(s);
    if t == "" then Some(0)
    else if t[0] == '-' && |t| > 1 && AllDigits(t[1..]) then Some(-(DigitsValue(t[1..]) as int))
    else if t[0] == '+' && |t| > 1 && AllDigits(t[1..]) then Some(DigitsValue(t[1..]))
    else if AllDigits(t) then Some(DigitsValue(t))
    else None
  }

  lemma TrimUnspaced(s: string)
    requires s != [] && !IsSpace(s[0]) && !IsSpace(s[|s| - 1])
    ensures Trim(s) == s
  {
    assert TrimStart(s) == s;
  }

  lemma NumberOfDigits(t: string)
    requires t != [] && AllDigits(t)
    ensures StringToNumber(t) == Some(DigitsValue(t))
  {
    assert IsDigit(t[0]) && IsDigit(t[|t| - 1]);
    TrimUnspaced(t);
  }

  lemma NumberOfNegativeDigits(t: string)
    requires t != [] && AllDigits(t)
    ensures StringToNumber("-" + t) == Some(-(DigitsValue(t) as int))
  {
    var s := "-" + t;
    assert s[|s| - 1] == t[|t| - 1];
    TrimUnspaced(s);
    assert s[1..] == t;
  }

  /** Turning an integer into its string and back with `Number` is the identity. */
  lemma {:induction false} StringToNumberOfIntToString(n: int)
    ensures StringToNumber(IntToString(n)) == Some(n)
  {
    if n < 0 {
      var m: nat := -n;
      var t := NatToString(m);
      DigitsValueOfNatToString(m);
      NumberOfNegativeDigits(t);
      assert IntToString(n) == "-" + t;
    } else {
      var t := NatToString(n);
      assert IntToString(n) == t;
      DigitsValueOfNatToString(n);
      NumberOfDigits(t);
    }
  }
}
