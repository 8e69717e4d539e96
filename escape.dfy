/**
 * HTML escaping of src/escape.js: `escHtml`, `escAttr` and the `esc`
 * template tag. Arguments are strings; the `'' + string` conversion of other
 * values is not modelled.
 */
module Escape {
  import opened Js

  /** The characters `escMap` has an entry for. */
  predicate IsSpecial(c: char) {
    c == '&' || c == '<' || c == '>' || c == '\'' || c == '"'
  }

  /** The four characters that could open or close markup. */
  predicate IsMarkup(c: char) {
    c == '<' || c == '>' || c == '\'' || c == '"'
  }

  /** `escMap[tag]` */
  function EscMap(c: char): (r: string)
    requires IsSpecial(c)
    ensures |r| >= 4 && r[0] == '&' && r[|r| - 1] == ';'
  {
    if c == '&' then "&amp;"
    else if c == '<' then "&lt;"
    else if c == '>' then "&gt;"
    else if c == '\'' then "&#39;"
    else "&quot;"
  }

  /** `t` begins with one of the five entities of `escMap`. */
  predicate BeginsEntity(t: string) {
    "&amp;" <= t || "&lt;" <= t || "&gt;" <= t || "&#39;" <= t || "&quot;" <= t
  }

  predicate NoMarkup(s: string) {
    forall i :: 0 <= i < |s| ==> !IsMarkup(s[i])
  }

  predicate NoSpecial(s: string) {
    forall i :: 0 <= i < |s| ==> !IsSpecial(s[i])
  }

  /** Every '&' of `s` begins an entity. */
  predicate AmpsBeginEntities(s: string) {
    forall i :: 0 <= i < |s| && s[i] == '&' ==> BeginsEntity(s[i..])
  }

  /** `.replace(/&amp;/g, '&')`: left to right, non-overlapping. */
  function CollapseAmp(s: string): string
    decreases |s|
  {
    if "&amp;" <= s then "&" + CollapseAmp(s[5..])
    else if s == [] then ""
    else [s[0]] + CollapseAmp(s[1..])
  }

  /** What `.replace(/[&<>'"]/g, …)` puts in place of one character. */
  function HtmlPiece(c: char): string {
    if IsSpecial(c) then EscMap(c) else [c]
  }

  /** `.replace(/[&<>'"]/g, (tag) => escMap[tag])` */
  function EscapeSpecial(s: string): string {
    if s == [] then "" else HtmlPiece(s[0]) + EscapeSpecial(s[1..])
  }

  /** `escHtml(string)`: collapse existing `&amp;`, then escape all five characters. */
  function EscHtml(s: string): string {
    EscapeSpecial(CollapseAmp(s))
  }

  /** What `.replace(/['"]/g, …)` puts in place of one character. */
  function AttrPiece(c: char): string {
    if c == '\'' || c == '"' then EscMap(c) else [c]
  }

  /** `escAttr(string)` */
  function EscAttr(s: string): string {
    if s == [] then "" else AttrPiece(s[0]) + EscAttr(s[1..])
  }

  /** `vars[i] ?? ''`, where `None` stands for a missing, null or undefined value. */
  function VarText(vars: seq<Option<string>>, i: nat): string {
    if i < |vars| && vars[i].Some? then vars[i].value else ""
  }

  /**
   * `esc(strings, ...vars)`: each literal part followed by its escaped value,
   * joined with ''. Values beyond the literal parts are dropped.
   */
  function Esc(strings: seq<string>, vars: seq<Option<string>>): string
    decreases |strings|
  {
    if strings == [] then ""
    else strings[0] + EscHtml(VarText(vars, 0)) + Esc(strings[1..], if vars == [] then [] else vars[1..])
  }

  /** The concatenation of the literal parts alone. */
  function Concat(parts: seq<string>): string {
    if parts == [] then "" else parts[0] + Concat(parts[1..])
  }

  function Count(s: string, c: char): nat {
    if s == [] then 0 else (if s[0] == c then 1 else 0) + Count(s[1..], c)
  }

  /** Decodes the five entities of `escMap`, leaving everything else as it is. */
  function Unescape(t: string): string
    decreases |t|
  {
    if "&amp;" <= t then "&" + Unescape(t[5..])
    else if "&lt;" <= t then "<" + Unescape(t[4..])
    else if "&gt;" <= t then ">" + Unescape(t[4..])
    else if "&#39;" <= t then "'" + Unescape(t[5..])
    else if "&quot;" <= t then "\"" + Unescape(t[6..])
    else if t == [] then ""
    else [t[0]] + Unescape(t[1..])
  }

  // ---------------------------------------------------------------------
  // escHtml

  lemma EntityChars(c: char)
    requires IsSpecial(c)
    ensures forall i :: 1 <= i < |EscMap(c)| ==> !IsMarkup(EscMap(c)[i]) && EscMap(c)[i] != '&'
  {
    var e := EscMap(c);
    if c == '&' {
      assert e == "&amp;";
    } else if c == '<' {
      assert e == "&lt;";
    } else if c == '>' {
      assert e == "&gt;";
    } else if c == '\'' {
      assert e == "&#39;";
    } else {
      assert e == "&quot;";
    }
  }

  lemma PieceSafe(c: char)
    ensures NoMarkup(HtmlPiece(c))
    ensures AmpsBeginEntities(HtmlPiece(c))
    ensures forall i :: 1 <= i < |HtmlPiece(c)| ==> HtmlPiece(c)[i] != '&'
  {
    var p := HtmlPiece(c);
    if IsSpecial(c) {
      EntityChars(c);
      assert BeginsEntity(p[0..]) by {
        assert p[0..] == p;
      }
    }
  }

  lemma {:induction false} NoMarkupConcat(a: string, b: string)
    requires NoMarkup(a) && NoMarkup(b)
    ensures NoMarkup(a + b)
  {
    forall i | 0 <= i < |a + b| ensures !IsMarkup((a + b)[i]) {
      if i >= |a| {
        assert (a + b)[i] == b[i - |a|];
      }
    }
  }

  lemma {:induction false} AmpsBeginEntitiesConcat(a: string, b: string)
    requires AmpsBeginEntities(a) && AmpsBeginEntities(b)
    requires a == [] || BeginsEntity(a) || a[0] != '&'
    requires forall i :: 1 <= i < |a| ==> a[i] != '&'
    ensures AmpsBeginEntities(a + b)
  {
    forall i | 0 <= i < |a + b| && (a + b)[i] == '&' ensures BeginsEntity((a + b)[i..]) {
      if i >= |a| {
        assert (a + b)[i..] == b[i - |a|..];
      } else {
        assert i == 0 && BeginsEntity(a);
        assert a <= a + b;
      }
    }
  }

  /** `escHtml` output contains none of `<`, `>`, `'` and `"`. */
  lemma {:induction false} EscapeSpecialNoMarkup(s: string)
    ensures NoMarkup(EscapeSpecial(s))
  {
    if s != [] {
      EscapeSpecialNoMarkup(s[1..]);
      PieceSafe(s[0]);
      NoMarkupConcat(HtmlPiece(s[0]), EscapeSpecial(s[1..]));
    }
  }

  /** Every '&' in the output of the escaping step begins one of the five entities. */
  lemma {:induction false} EscapeSpecialAmpsBeginEntities(s: string)
    ensures AmpsBeginEntities(EscapeSpecial(s))
  {
    if s != [] {
      EscapeSpecialAmpsBeginEntities(s[1..]);
      var p := HtmlPiece(s[0]);
      PieceSafe(s[0]);
      assert p == [] || BeginsEntity(p) || p[0] != '&';
      AmpsBeginEntitiesConcat(p, EscapeSpecial(s[1..]));
    }
  }

  /** Whatever the input, `escHtml` output has no markup character and every '&' begins an entity. */
  lemma EscHtmlSafe(s: string)
    ensures NoMarkup(EscHtml(s))
    ensures AmpsBeginEntities(EscHtml(s))
  {
    EscapeSpecialNoMarkup(CollapseAmp(s));
    EscapeSpecialAmpsBeginEntities(CollapseAmp(s));
  }

  lemma {:induction false} UnescapePiece(c: char, t: string)
    ensures Unescape(HtmlPiece(c) + t) == [c] + Unescape(t)
  {
    var p := HtmlPiece(c);
    var u := p + t;
    assert u[..|p|] == p && u[|p|..] == t;
    if c == '&' {
      assert "&amp;" <= u;
    } else if c == '<' {
      assert u[1] == 'l' && "&lt;" <= u;
    } else if c == '>' {
      assert u[1] == 'g' && "&gt;" <= u;
    } else if c == '\'' {
      assert u[1] == '#' && "&#39;" <= u;
    } else if c == '"' {
      assert u[1] == 'q' && "&quot;" <= u;
    } else {
      assert u[0] == c && u[1..] == t;
    }
  }

  /** The escaping step loses nothing: decoding the entities restores its input. */
  lemma {:induction false} UnescapeEscapeSpecial(s: string)
    ensures Unescape(EscapeSpecial(s)) == s
  {
    if s != [] {
      UnescapeEscapeSpecial(s[1..]);
      UnescapePiece(s[0], EscapeSpecial(s[1..]));
      assert s == [s[0]] + s[1..];
    }
  }

  /** Decoding `escHtml(s)` yields `s` with every `&amp;` collapsed to '&'. */
  lemma EscHtmlDecodes(s: string)
    ensures Unescape(EscHtml(s)) == CollapseAmp(s)
  {
    UnescapeEscapeSpecial(CollapseAmp(s));
  }

  lemma {:induction false} CollapseAmpWithoutAmp(s: string)
    requires forall i :: 0 <= i < |s| ==> s[i] != '&'
    ensures CollapseAmp(s) == s
  {
    if s != [] {
      assert s[0] != '&';
      CollapseAmpWithoutAmp(s[1..]);
      assert s == [s[0]] + s[1..];
    }
  }

  lemma {:induction false} EscapeSpecialWithoutSpecial(s: string)
    requires NoSpecial(s)
    ensures EscapeSpecial(s) == s
  {
    if s != [] {
      EscapeSpecialWithoutSpecial(s[1..]);
      assert s == [s[0]] + s[1..];
    }
  }

  /** A string containing none of `& < > ' "` passes through `escHtml` unchanged. */
  lemma EscHtmlWithoutSpecial(s: string)
    requires NoSpecial(s)
    ensures EscHtml(s) == s
  {
    CollapseAmpWithoutAmp(s);
    EscapeSpecialWithoutSpecial(s);
  }

  /** An existing `&amp;` is not escaped a second time. */
  lemma EscHtmlKeepsAmp()
    ensures EscHtml("&amp;") == "&amp;"
  {
    assert CollapseAmp("&amp;") == "&" + CollapseAmp("");
  }

  /** Only `&amp;` is protected: any other entity is escaped again. */
  lemma EscHtmlEscapesOtherEntities()
    ensures EscHtml("&lt;") == "&amp;lt;"
  {
    CollapseAmpWithoutAmp("lt;");
    assert CollapseAmp("&lt;") == "&lt;";
    EscapeSpecialWithoutSpecial("lt;");
    assert EscapeSpecial("&lt;") == "&amp;" + EscapeSpecial("lt;");
  }

  lemma EscapeSpecialHead(a: string, b: string)
    requires a != []
    ensures EscapeSpecial(a + b) == HtmlPiece(a[0]) + EscapeSpecial(a[1..] + b)
  {
    assert (a + b)[0] == a[0] && (a + b)[1..] == a[1..] + b;
  }

  lemma {:induction false} EscapeSpecialConcat(a: string, b: string)
    ensures EscapeSpecial(a + b) == EscapeSpecial(a) + EscapeSpecial(b)
  {
    if a == [] {
      assert a + b == b;
    } else {
      EscapeSpecialConcat(a[1..], b);
      EscapeSpecialHead(a, b);
    }
  }

  lemma EscapeSpecialOfMarkup(lt: string, gt: string)
    requires lt == "<" && gt == ">"
    ensures EscapeSpecial(lt) == "&lt;" && EscapeSpecial(gt) == "&gt;"
  {
    assert lt == [lt[0]] + [];
    assert gt == [gt[0]] + [];
  }

  lemma HtmlExampleParts(lt: string, gt: string, h: string, w: string, sh: string)
    requires lt == "<" && gt == ">" && h == "h1" && w == "works" && sh == "/h1"
    ensures EscapeSpecial(lt + h + gt + w + lt + sh + gt) == "&lt;" + h + "&gt;" + w + "&lt;" + sh + "&gt;"
  {
    EscapeSpecialOfMarkup(lt, gt);
    EscapeSpecialWithoutSpecial(h);
    EscapeSpecialWithoutSpecial(w);
    EscapeSpecialWithoutSpecial(sh);
    EscapeSpecialConcat(lt + h + gt + w + lt + sh, gt);
    EscapeSpecialConcat(lt + h + gt + w + lt, sh);
    EscapeSpecialConcat(lt + h + gt + w, lt);
    EscapeSpecialConcat(lt + h + gt, w);
    EscapeSpecialConcat(lt + h, gt);
    EscapeSpecialConcat(lt, h);
  }

  lemma HtmlExampleHasNoAmp(s: string)
    requires s == "<h1>works</h1>"
    ensures CollapseAmp(s) == s
  {
    CollapseAmpWithoutAmp(s);
  }

  lemma HtmlExampleSource(s: string)
    requires s == "<h1>works</h1>"
    ensures "<" + "h1" + ">" + "works" + "<" + "/h1" + ">" == s
  {
  }

  lemma HtmlExampleTarget(t: string)
    requires t == "&lt;h1&gt;works&lt;/h1&gt;"
    ensures "&lt;" + "h1" + "&gt;" + "works" + "&lt;" + "/h1" + "&gt;" == t
  {
  }

  lemma HtmlExampleEscaped(s: string)
    requires s == "<h1>works</h1>"
    ensures EscapeSpecial(s) == "&lt;h1&gt;works&lt;/h1&gt;"
  {
    HtmlExampleParts("<", ">", "h1", "works", "/h1");
    HtmlExampleSource(s);
    HtmlExampleTarget("&lt;h1&gt;works&lt;/h1&gt;");
  }

  /** `escHtml('<h1>works</h1>')` is `'&lt;h1&gt;works&lt;/h1&gt;'`. */
  lemma EscHtmlExample()
    ensures EscHtml("<h1>works</h1>") == "&lt;h1&gt;works&lt;/h1&gt;"
  {
    HtmlExampleHasNoAmp("<h1>works</h1>");
    HtmlExampleEscaped("<h1>works</h1>");
  }

  // ---------------------------------------------------------------------
  // escAttr

  lemma EscAttrHead(a: string, b: string)
    requires a != []
    ensures EscAttr(a + b) == AttrPiece(a[0]) + EscAttr(a[1..] + b)
  {
    assert (a + b)[0] == a[0] && (a + b)[1..] == a[1..] + b;
  }

  lemma {:induction false} EscAttrConcat(a: string, b: string)
    ensures EscAttr(a + b) == EscAttr(a) + EscAttr(b)
  {
    if a == [] {
      assert a + b == b;
    } else {
      EscAttrConcat(a[1..], b);
      EscAttrHead(a, b);
    }
  }

  /** `escAttr` leaves every character other than `'` and `"` as it is. */
  lemma EscAttrKeeps(a: string, c: char, b: string)
    requires c != '\'' && c != '"'
    ensures EscAttr(a + [c] + b) == EscAttr(a) + [c] + EscAttr(b)
  {
    EscAttrConcat(a + [c], b);
    EscAttrConcat(a, [c]);
  }

  /** `escAttr` output contains no quote of either kind. */
  lemma {:induction false} EscAttrNoQuotes(s: string)
    ensures forall i :: 0 <= i < |EscAttr(s)| ==> EscAttr(s)[i] != '\'' && EscAttr(s)[i] != '"'
  {
    if s != [] {
      EscAttrNoQuotes(s[1..]);
      var p := AttrPiece(s[0]);
      var r := EscAttr(s);
      assert r == p + EscAttr(s[1..]);
      forall i | 0 <= i < |r| ensures r[i] != '\'' && r[i] != '"' {
        if i < |p| {
          if s[0] == '\'' { assert p == "&#39;"; } else if s[0] == '"' { assert p == "&quot;"; }
        } else {
          assert r[i] == EscAttr(s[1..])[i - |p|];
        }
      }
    }
  }

  /** On a string with neither `&`, `<` nor `>`, `escAttr` and `escHtml` agree. */
  lemma {:induction false} EscAttrAgreesWithEscapeSpecial(s: string)
    requires forall i :: 0 <= i < |s| ==> s[i] != '&' && s[i] != '<' && s[i] != '>'
    ensures EscAttr(s) == EscapeSpecial(s) == EscHtml(s)
  {
    CollapseAmpWithoutAmp(s);
    if s != [] {
      EscAttrAgreesWithEscapeSpecial(s[1..]);
    }
  }

  /** For a string without '&', decoding `escAttr`'s output restores it. */
  lemma EscAttrDecodes(s: string)
    requires forall i :: 0 <= i < |s| ==> s[i] != '&' && s[i] != '<' && s[i] != '>'
    ensures Unescape(EscAttr(s)) == s
  {
    EscAttrAgreesWithEscapeSpecial(s);
    UnescapeEscapeSpecial(s);
  }

  /** A string without quotes passes through `escAttr` unchanged. */
  lemma {:induction false} EscAttrWithoutQuotes(s: string)
    requires '\'' !in s && '"' !in s
    ensures EscAttr(s) == s
  {
    if s != [] {
      assert s == [s[0]] + s[1..];
      EscAttrWithoutQuotes(s[1..]);
    }
  }

  lemma AttrQuotes(a: string, c: string)
    requires a == "'\"" && c == "'"
    ensures EscAttr(a) == "&#39;&quot;" && EscAttr(c) == "&#39;"
  {
    var q := a[1..];
    assert q == "\"" && q[1..] == "" && c[1..] == "";
    assert EscAttr(q) == AttrPiece(q[0]) == "&quot;";
    assert EscAttr(c) == AttrPiece(c[0]) == "&#39;";
    assert EscAttr(a) == AttrPiece(a[0]) + EscAttr(q) == "&#39;" + "&quot;";
  }

  lemma AttrExampleParts(a: string, b: string, c: string)
    requires a == "'\"" && b == "overquoted" && c == "'"
    ensures EscAttr(a + b + c) == "&#39;&quot;overquoted&#39;"
  {
    EscAttrConcat(a + b, c);
    EscAttrConcat(a, b);
    AttrQuotes(a, c);
    EscAttrWithoutQuotes(b);
    AttrExampleTarget("&#39;&quot;", b, "&#39;");
  }

  lemma AttrExampleTarget(q: string, b: string, e: string)
    requires q == "&#39;&quot;" && b == "overquoted" && e == "&#39;"
    ensures q + b + e == "&#39;&quot;overquoted&#39;"
  {
  }

  /** ``escAttr(`'"overquoted'`)`` is `'&#39;&quot;overquoted&#39;'`. */
  lemma EscAttrExample()
    ensures EscAttr("'\"overquoted'") == "&#39;&quot;overquoted&#39;"
  {
    AttrExampleParts("'\"", "overquoted", "'");
    assert "'\"" + "overquoted" + "'" == "'\"overquoted'";
  }

  // ---------------------------------------------------------------------
  // esc

  lemma {:induction false} CountConcat(a: string, b: string, c: char)
    ensures Count(a + b, c) == Count(a, c) + Count(b, c)
  {
    if a == [] {
      assert a + b == b;
    } else {
      CountConcat(a[1..], b, c);
      assert (a + b)[1..] == a[1..] + b;
    }
  }

  lemma {:induction false} CountNoMarkup(s: string, c: char)
    requires NoMarkup(s) && IsMarkup(c)
    ensures Count(s, c) == 0
  {
    if s != [] {
      CountNoMarkup(s[1..], c);
    }
  }

  /**
   * The values interpolated by `esc` contribute no markup character: each of
   * `<`, `>`, `'` and `"` occurs in the result exactly as often as in the
   * literal parts of the template.
   */
  lemma {:induction false} EscMarkupComesFromTemplate(strings: seq<string>, vars: seq<Option<string>>, c: char)
    requires IsMarkup(c)
    ensures Count(Esc(strings, vars), c) == Count(Concat(strings), c)
    decreases |strings|
  {
    if strings != [] {
      var v := EscHtml(VarText(vars, 0));
      var rest := if vars == [] then [] else vars[1..];
      EscMarkupComesFromTemplate(strings[1..], rest, c);
      EscHtmlSafe(VarText(vars, 0));
      CountNoMarkup(v, c);
      CountConcat(strings[0] + v, Esc(strings[1..], rest), c);
      CountConcat(strings[0], v, c);
      CountConcat(strings[0], Concat(strings[1..]), c);
    }
  }

  /** Without values, or with only nullish ones, `esc` is the plain concatenation of the template. */
  lemma {:induction false} EscWithoutValues(strings: seq<string>, vars: seq<Option<string>>)
    requires forall i :: 0 <= i < |vars| ==> vars[i].None?
    ensures Esc(strings, vars) == Concat(strings)
    decreases |strings|
  {
    if strings != [] {
      assert VarText(vars, 0) == "";
      assert EscHtml("") == "";
      EscWithoutValues(strings[1..], if vars == [] then [] else vars[1..]);
    }
  }

  /** Each value lands right after its literal part, escaped with `escHtml`. */
  lemma EscTwoParts(s0: string, s1: string, v: string)
    ensures Esc([s0, s1], [Some(v)]) == s0 + EscHtml(v) + s1
  {
    assert [s0, s1][1..] == [s1];
    assert Esc([s1], []) == s1 + EscHtml("") + Esc([], []);
  }
}
