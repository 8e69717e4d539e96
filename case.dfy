/**
 * The attribute-name case conversions of src/case.js. The identical copy of
 * `kebabToCamelCase` in src/refs.js is this same function.
 */
module Case {
  import opened Js

  function UpperCount(s: string): nat {
    if s == [] then 0 else (if IsUpper(s[0]) then 1 else 0) + UpperCount(s[1..])
  }

  /**
   * `camelToKebabCase(str = '')`: `str.replace(/([A-Z])/g, '-' + lowercase)`.
   * The default argument '' is the call with "".
   */
  function CamelToKebabCase(s: string): (r: string)
    ensures NoUpper(r)
    ensures |r| == |s| + UpperCount(s)
  {
    if s == [] then ""
    else (if IsUpper(s[0]) then ['-', ToLower(s[0])] else [s[0]]) + CamelToKebabCase(s[1..])
  }

  /**
   * `.replace(/[-_]\w/g, m => m[1].toUpperCase())`: scanning left to right,
   * a '-' or '_' followed by a word character is replaced by that character
   * in upper case; matches do not overlap.
   */
  function UpperAfterSeparators(s: string): string {
    if |s| >= 2 && (s[0] == '-' || s[0] == '_') && IsWordChar(s[1]) then
      [ToUpper(s[1])] + UpperAfterSeparators(s[2..])
    else if s == [] then ""
    else [s[0]] + UpperAfterSeparators(s[1..])
  }

  /** `kebabToCamelCase(str = '')`: lower-case everything, then capitalise after separators. */
  function KebabToCamelCase(s: string): string {
    UpperAfterSeparators(LowerCase(s))
  }

  predicate NoSeparators(s: string) {
    forall i :: 0 <= i < |s| ==> s[i] != '-' && s[i] != '_'
  }

  /** A character that is neither '-' nor a lower-case letter appears in the kebab form only if it was in the input. */
  lemma {:induction false} CamelToKebabKeepsOut(s: string, c: char)
    requires c !in s && c != '-' && !IsLower(c)
    ensures c !in CamelToKebabCase(s)
  {
    if s != [] {
      CamelToKebabKeepsOut(s[1..], c);
      assert s[0] != c;
    }
  }

  /** A string with no capital letter is its own kebab-case form. */
  lemma {:induction false} CamelToKebabWithoutUpper(s: string)
    requires NoUpper(s)
    ensures CamelToKebabCase(s) == s
  {
    if s != [] {
      CamelToKebabWithoutUpper(s[1..]);
      assert s == [s[0]] + s[1..];
    }
  }

  lemma {:induction false} UpperAfterNoSeparators(s: string)
    requires NoSeparators(s)
    ensures UpperAfterSeparators(s) == s
  {
    if s != [] {
      UpperAfterNoSeparators(s[1..]);
      assert s == [s[0]] + s[1..];
    }
  }

  /** Without '-' or '_', `kebabToCamelCase` only lower-cases. */
  lemma KebabToCamelWithoutSeparators(s: string)
    requires NoSeparators(s)
    ensures KebabToCamelCase(s) == LowerCase(s)
  {
    LowerCaseNoSeparators(s);
    UpperAfterNoSeparators(LowerCase(s));
  }

  lemma {:induction false} LowerCaseWithoutUpper(s: string)
    requires NoUpper(s)
    ensures LowerCase(s) == s
  {
    if s != [] {
      LowerCaseWithoutUpper(s[1..]);
      assert s == [s[0]] + s[1..];
    }
  }

  predicate Alphanumeric(s: string) {
    forall i :: 0 <= i < |s| ==> IsLetter(s[i]) || IsDigit(s[i])
  }

  lemma {:induction false} UpperAfterSeparatorsOfKebab(s: string)
    requires Alphanumeric(s)
    ensures UpperAfterSeparators(CamelToKebabCase(s)) == s
  {
    if s != [] {
      var rest := CamelToKebabCase(s[1..]);
      UpperAfterSeparatorsOfKebab(s[1..]);
      if IsUpper(s[0]) {
        var k := ['-', ToLower(s[0])] + rest;
        assert k == CamelToKebabCase(s);
        assert k[2..] == rest;
        assert IsWordChar(k[1]);
      } else {
        var k := [s[0]] + rest;
        assert k == CamelToKebabCase(s);
        assert k[1..] == rest;
      }
      assert s == [s[0]] + s[1..];
    }
  }

  /** Converting letters-and-digits to kebab case and back restores the camelCase name. */
  lemma KebabRoundTrip(s: string)
    requires Alphanumeric(s)
    ensures KebabToCamelCase(CamelToKebabCase(s)) == s
  {
    LowerCaseWithoutUpper(CamelToKebabCase(s));
    UpperAfterSeparatorsOfKebab(s);
  }

  /** '' (the default argument) converts to '' both ways. */
  lemma EmptyExamples()
    ensures CamelToKebabCase("") == "" && KebabToCamelCase("") == ""
  {
  }

  lemma {:induction false} CamelToKebabConcat(a: string, b: string)
    ensures CamelToKebabCase(a + b) == CamelToKebabCase(a) + CamelToKebabCase(b)
  {
    if a != [] {
      CamelToKebabConcat(a[1..], b);
      assert (a + b)[1..] == a[1..] + b;
    } else {
      assert a + b == b;
    }
  }

  lemma LowerCaseConcat(a: string, b: string)
    ensures LowerCase(a + b) == LowerCase(a) + LowerCase(b)
  {
    var l, r := LowerCase(a + b), LowerCase(a) + LowerCase(b);
    forall i | 0 <= i < |l| ensures l[i] == r[i] {
      if i < |a| {
        assert (a + b)[i] == a[i];
      } else {
        assert (a + b)[i] == b[i - |a|];
      }
    }
  }

  /** A separator and a word character at the head of `a` are still a match at the head of `a + b`. */
  lemma UpperAfterPairHead(a: string, b: string)
    requires |a| >= 2 && (a[0] == '-' || a[0] == '_') && IsWordChar(a[1])
    ensures UpperAfterSeparators(a + b) == [ToUpper(a[1])] + UpperAfterSeparators(a[2..] + b)
  {
    var ab := a + b;
    assert ab[0] == a[0] && ab[1] == a[1] && ab[2..] == a[2..] + b;
  }

  /** Without a match at the head of `a`, and with no separator ending it, none is at the head of `a + b`. */
  lemma UpperAfterPlainHead(a: string, b: string)
    requires a != [] && a[|a| - 1] != '-' && a[|a| - 1] != '_'
    requires !(|a| >= 2 && (a[0] == '-' || a[0] == '_') && IsWordChar(a[1]))
    ensures UpperAfterSeparators(a + b) == [a[0]] + UpperAfterSeparators(a[1..] + b)
  {
    var ab := a + b;
    assert ab[0] == a[0] && ab[1..] == a[1..] + b;
    if |a| >= 2 {
      assert ab[1] == a[1];
    }
  }

  lemma ConcatAssoc(x: string, y: string, z: string)
    ensures x + (y + z) == (x + y) + z
  {
  }

  lemma UpperAfterPairStep(a: string, b: string)
    requires |a| >= 2 && (a[0] == '-' || a[0] == '_') && IsWordChar(a[1])
    requires UpperAfterSeparators(a[2..] + b) == UpperAfterSeparators(a[2..]) + UpperAfterSeparators(b)
    ensures UpperAfterSeparators(a + b) == UpperAfterSeparators(a) + UpperAfterSeparators(b)
  {
    UpperAfterPairHead(a, b);
    UpperAfterPairHead(a, []);
    assert a + [] == a && a[2..] + [] == a[2..];
    ConcatAssoc([ToUpper(a[1])], UpperAfterSeparators(a[2..]), UpperAfterSeparators(b));
  }

  lemma UpperAfterPlainStep(a: string, b: string)
    requires a != [] && a[|a| - 1] != '-' && a[|a| - 1] != '_'
    requires !(|a| >= 2 && (a[0] == '-' || a[0] == '_') && IsWordChar(a[1]))
    requires UpperAfterSeparators(a[1..] + b) == UpperAfterSeparators(a[1..]) + UpperAfterSeparators(b)
    ensures UpperAfterSeparators(a + b) == UpperAfterSeparators(a) + UpperAfterSeparators(b)
  {
    UpperAfterPlainHead(a, b);
    UpperAfterPlainHead(a, []);
    assert a + [] == a && a[1..] + [] == a[1..];
    ConcatAssoc([a[0]], UpperAfterSeparators(a[1..]), UpperAfterSeparators(b));
  }

  lemma {:induction false} UpperAfterSeparatorsConcat(a: string, b: string)
    requires a == [] || (a[|a| - 1] != '-' && a[|a| - 1] != '_')
    ensures UpperAfterSeparators(a + b) == UpperAfterSeparators(a) + UpperAfterSeparators(b)
  {
    if a == [] {
      assert a + b == b;
    } else if |a| >= 2 && (a[0] == '-' || a[0] == '_') && IsWordChar(a[1]) {
      UpperAfterSeparatorsConcat(a[2..], b);
      UpperAfterPairStep(a, b);
    } else {
      UpperAfterSeparatorsConcat(a[1..], b);
      UpperAfterPlainStep(a, b);
    }
  }

  lemma KebabToCamelCaseConcat(a: string, b: string)
    requires a == [] || (a[|a| - 1] != '-' && a[|a| - 1] != '_')
    ensures KebabToCamelCase(a + b) == KebabToCamelCase(a) + KebabToCamelCase(b)
  {
    LowerCaseConcat(a, b);
    var la := LowerCase(a);
    assert la == [] || (la[|la| - 1] != '-' && la[|la| - 1] != '_');
    UpperAfterSeparatorsConcat(la, LowerCase(b));
  }

  /** A capital followed by no capitals becomes '-', the lowered capital, then the rest unchanged. */
  lemma CapitalHead(w: string)
    requires w != [] && IsUpper(w[0]) && NoUpper(w[1..])
    ensures CamelToKebabCase(w) == ['-', ToLower(w[0])] + w[1..]
  {
    CamelToKebabWithoutUpper(w[1..]);
  }

  lemma LowerWord(a: string)
    requires a == "lower"
    ensures CamelToKebabCase(a) == "lower"
  {
    assert NoUpper(a);
    CamelToKebabWithoutUpper(a);
  }

  lemma CamelWord(b: string)
    requires b == "Camel"
    ensures CamelToKebabCase(b) == "-camel"
  {
    assert b[1..] == "amel";
    CapitalHead(b);
  }

  lemma CamelToKebabOfChunks(a: string, b: string, c: string)
    requires a == "lower" && b == "Camel" && c == "Case"
    ensures CamelToKebabCase(a + b + c) == "lower-camel-case"
  {
    CamelToKebabConcat(a + b, c);
    CamelToKebabConcat(a, b);
    LowerWord(a);
    CamelWord(b);
    assert c[1..] == "ase";
    CapitalHead(c);
    assert "lower" + "-camel" + "-case" == "lower-camel-case";
  }

  /** The example of the source's tests: 'lowerCamelCase' becomes 'lower-camel-case'. */
  lemma CamelToKebabExample()
    ensures CamelToKebabCase("lowerCamelCase") == "lower-camel-case"
  {
    CamelToKebabOfChunks("lower", "Camel", "Case");
    assert "lower" + "Camel" + "Case" == "lowerCamelCase";
  }

  lemma LowerChunk()
    ensures KebabToCamelCase("lower") == "lower"
  {
    LowerCaseWithoutUpper("lower");
    UpperAfterNoSeparators("lower");
  }

  /** Lower-casing adds no separator. */
  lemma LowerCaseNoSeparators(s: string)
    requires NoSeparators(s)
    ensures NoSeparators(LowerCase(s))
  {
    var t := LowerCase(s);
    forall i | 0 <= i < |t| ensures t[i] != '-' && t[i] != '_' {
      assert t[i] == ToLower(s[i]);
    }
  }

  lemma SeparatedChunk(s: string, w: string)
    requires |s| == |w| + 1 && s[0] == '-' && w != [] && IsLetter(w[0])
    requires LowerCase(s[1..]) == [ToLower(w[0])] + LowerCase(w[1..])
    requires NoSeparators(w[1..]) && NoUpper(LowerCase(w[1..]))
    ensures KebabToCamelCase(s) == [ToUpper(ToLower(w[0]))] + LowerCase(w[1..])
  {
    var l, t := LowerCase(s), LowerCase(w[1..]);
    assert l == ['-', ToLower(w[0])] + t;
    LowerCaseNoSeparators(w[1..]);
    UpperAfterNoSeparators(t);
    UpperAfterPairHead(['-', ToLower(w[0])], t);
    assert ['-', ToLower(w[0])][2..] + t == t;
  }

  lemma CamelChunk(b: string, w: string)
    requires b == "-" + w && (w == "camel" || w == "CaMel")
    ensures KebabToCamelCase(b) == "Camel"
  {
    assert b[0] == '-' && b[1..] == w;
    assert LowerCase(w[1..]) == "amel";
    SeparatedChunk(b, w);
  }

  lemma CaseChunk(c: string)
    requires c == "-case"
    ensures KebabToCamelCase(c) == "Case"
  {
    SeparatedChunk(c, "case");
  }

  lemma LowerCamelChunks(a: string, b: string, w: string)
    requires a == "lower" && b == "-" + w && (w == "camel" || w == "CaMel")
    ensures KebabToCamelCase(a + b) == "lowerCamel"
  {
    LowerChunk();
    CamelChunk(b, w);
    KebabToCamelCaseConcat(a, b);
  }

  lemma KebabToCamelOfChunks(a: string, b: string, c: string, w: string)
    requires a == "lower" && c == "-case"
    requires b == "-" + w && (w == "camel" || w == "CaMel")
    ensures KebabToCamelCase(a + b + c) == "lowerCamelCase"
  {
    LowerCamelChunks(a, b, w);
    CaseChunk(c);
    var ab := a + b;
    assert ab[|ab| - 1] == 'l';
    KebabToCamelCaseConcat(ab, c);
  }

  /** 'lower-camel-case' becomes 'lowerCamelCase'. */
  lemma KebabToCamelExample()
    ensures KebabToCamelCase("lower-camel-case") == "lowerCamelCase"
  {
    KebabToCamelOfChunks("lower", "-camel", "-case", "camel");
    assert "lower" + "-camel" + "-case" == "lower-camel-case";
  }

  /** Letters that are already capital are lowered first: 'lower-CaMel-case' becomes 'lowerCamelCase'. */
  lemma KebabToCamelMixedCaseExample()
    ensures KebabToCamelCase("lower-CaMel-case") == "lowerCamelCase"
  {
    KebabToCamelOfChunks("lower", "-CaMel", "-case", "CaMel");
    assert "lower" + "-CaMel" + "-case" == "lower-CaMel-case";
  }
}
