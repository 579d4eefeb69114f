/**
 * The string helpers the table and the edit row use to build markup
 * (app.js `escapeHtml`, `escapeAttr`, `categorySelect`).
 */
module Markup {

  /** The characters `escapeAttr` rewrites. */
  predicate IsAttrSpecial(c: char)
  {
    c == '"' || c == '\'' || c == '<' || c == '>' || c == '&'
  }

  /** The characters of `escapeHtml`'s character class `[&<>"]`. */
  predicate IsHtmlSpecial(c: char)
  {
    c == '&' || c == '<' || c == '>' || c == '"'
  }

  /** The entity `escapeAttr`'s lookup table gives each special character. */
  function Entity(c: char): (e: string)
    requires IsAttrSpecial(c)
  {
    match c
    case '"' => "&quot;"
    case '\'' => "&#39;"
    case '<' => "&lt;"
    case '>' => "&gt;"
    case '&' => "&amp;"
  }

  /** `escapeAttr`: every special character becomes its entity, everything else is copied. */
  function EscapeAttr(s: string): (r: string)
    ensures forall i :: 0 <= i < |r| ==> r[i] != '"' && r[i] != '\'' && r[i] != '<' && r[i] != '>'
    ensures |r| >= |s|
  {
    if s == [] then []
    else if IsAttrSpecial(s[0]) then Entity(s[0]) + EscapeAttr(s[1..])
    else [s[0]] + EscapeAttr(s[1..])
  }

  /** Decodes the five entities `escapeAttr` produces, copying every other character. */
  function Unescape(s: string): string
  {
    if s == [] then []
    else if s[0] != '&' then [s[0]] + Unescape(s[1..])
    else if "&quot;" <= s then ['"'] + Unescape(s[6..])
    else if "&#39;" <= s then ['\''] + Unescape(s[5..])
    else if "&lt;" <= s then ['<'] + Unescape(s[4..])
    else if "&gt;" <= s then ['>'] + Unescape(s[4..])
    else if "&amp;" <= s then ['&'] + Unescape(s[5..])
    else [s[0]] + Unescape(s[1..])
  }

  /** Decoding one entity (or one plain character) at the front of a string. */
  lemma {:induction false} UnescapeStep(c: char, rest: string)
    ensures IsAttrSpecial(c) ==> Unescape(Entity(c) + rest) == [c] + Unescape(rest)
    ensures !IsAttrSpecial(c) ==> Unescape([c] + rest) == [c] + Unescape(rest)
  {
    if c == '"' {
      var s := "&quot;" + rest;
      assert s[0] == '&' && s[..6] == "&quot;" && s[6..] == rest;
    } else if c == '\'' {
      var s := "&#39;" + rest;
      assert s[0] == '&' && s[1] == '#' && s[..5] == "&#39;" && s[5..] == rest;
    } else if c == '<' {
      var s := "&lt;" + rest;
      assert s[0] == '&' && s[1] == 'l' && s[..4] == "&lt;" && s[4..] == rest;
    } else if c == '>' {
      var s := "&gt;" + rest;
      assert s[0] == '&' && s[1] == 'g' && s[..4] == "&gt;" && s[4..] == rest;
    } else if c == '&' {
      var s := "&amp;" + rest;
      assert s[0] == '&' && s[1] == 'a' && s[..5] == "&amp;" && s[5..] == rest;
    } else {
      var s := [c] + rest;
      assert s[0] == c && s[1..] == rest;
    }
  }

  /** `escapeAttr` loses nothing: decoding its output gives back the input. */
  lemma {:induction false} EscapeAttrRoundTrip(s: string)
    ensures Unescape(EscapeAttr(s)) == s
  {
    if s != [] {
      UnescapeStep(s[0], EscapeAttr(s[1..]));
      EscapeAttrRoundTrip(s[1..]);
    }
  }

  /** `escapeAttr` works one character at a time, so it distributes over concatenation. */
  lemma {:induction false} EscapeAttrAppend(a: string, b: string)
    ensures EscapeAttr(a + b) == EscapeAttr(a) + EscapeAttr(b)
  {
    if a == [] {
      assert a + b == b;
    } else {
      assert (a + b)[0] == a[0] && (a + b)[1..] == a[1..] + b;
      EscapeAttrAppend(a[1..], b);
    }
  }

  /** A string without special characters passes through `escapeAttr` unchanged. */
  lemma {:induction false} EscapeAttrPlain(s: string)
    requires forall i :: 0 <= i < |s| ==> !IsAttrSpecial(s[i])
    ensures EscapeAttr(s) == s
  {
    if s != [] {
      EscapeAttrPlain(s[1..]);
    }
  }

  /** The length of the run of `[&<>"]` characters at the front of `s`. */
  function HtmlRun(s: string): (n: nat)
    ensures n <= |s|
    ensures forall i :: 0 <= i < n ==> IsHtmlSpecial(s[i])
    ensures n < |s| ==> !IsHtmlSpecial(s[n])
    ensures s != [] && IsHtmlSpecial(s[0]) ==> n >= 1
  {
    if s != [] && IsHtmlSpecial(s[0]) then 1 + HtmlRun(s[1..]) else 0
  }

  /**
   * `escapeHtml` as written: the global regex `/[&<>"]+/g` matches each maximal
   * run of special characters, and the callback looks the whole run up in a
   * table keyed by single characters. A run of one gets its entity; a longer
   * run is not a key, the lookup yields `undefined`, and `replace` inserts the
   * text "undefined".
   */
  function EscapeHtml(s: string): (r: string)
    ensures r == [] <==> s == []
    decreases |s|
  {
    if s == [] then [] else HtmlChunk(s) + EscapeHtml(s[HtmlStep(s)..])
  }

  /** How many characters one step of `escapeHtml` consumes: a whole run of specials, or one ordinary character. */
  function HtmlStep(s: string): (n: nat)
    requires s != []
    ensures 1 <= n <= |s|
  {
    if IsHtmlSpecial(s[0]) then HtmlRun(s) else 1
  }

  /** What one step of `escapeHtml` emits for the front of `s`. */
  function HtmlChunk(s: string): (r: string)
    requires s != []
    ensures r != []
  {
    if !IsHtmlSpecial(s[0]) then [s[0]]
    else if HtmlRun(s) == 1 then Entity(s[0])
    else "undefined"
  }

  /** Whatever the input, the output of `escapeHtml` holds no `<`, `>` or `"`. */
  lemma {:induction false} EscapeHtmlSafe(s: string)
    ensures forall i :: 0 <= i < |EscapeHtml(s)| ==> EscapeHtml(s)[i] != '<' && EscapeHtml(s)[i] != '>' && EscapeHtml(s)[i] != '"'
    decreases |s|
  {
    if s != [] {
      var n := if IsHtmlSpecial(s[0]) then HtmlRun(s) else 1;
      EscapeHtmlSafe(s[n..]);
    }
  }

  /** `escapeHtml` as intended: the table applied to each special character on its own. */
  function EscapeHtmlIntended(s: string): (r: string)
    ensures forall i :: 0 <= i < |r| ==> r[i] != '<' && r[i] != '>' && r[i] != '"'
  {
    if s == [] then []
    else if IsHtmlSpecial(s[0]) then Entity(s[0]) + EscapeHtmlIntended(s[1..])
    else [s[0]] + EscapeHtmlIntended(s[1..])
  }

  /** The intended escaping loses nothing: decoding its output gives back the input. */
  lemma {:induction false} EscapeHtmlIntendedRoundTrip(s: string)
    ensures Unescape(EscapeHtmlIntended(s)) == s
  {
    if s != [] {
      if IsHtmlSpecial(s[0]) {
        UnescapeStep(s[0], EscapeHtmlIntended(s[1..]));
      } else if s[0] == '\'' {
        var t := EscapeHtmlIntended(s[1..]);
        assert (['\''] + t)[0] == '\'' && "&quot;"[0] == '&' && "&#39;"[0] == '&';
        assert (['\''] + t)[1..] == t;
      } else {
        UnescapeStep(s[0], EscapeHtmlIntended(s[1..]));
      }
      EscapeHtmlIntendedRoundTrip(s[1..]);
    }
  }

  /** Text without `& < > "` passes through `escapeHtml` unchanged. */
  lemma {:induction false} EscapeHtmlPlain(s: string)
    requires forall i :: 0 <= i < |s| ==> !IsHtmlSpecial(s[i])
    ensures EscapeHtml(s) == s
  {
    if s != [] {
      EscapeHtmlPlain(s[1..]);
    }
  }

  /** As written, escaping splits at a boundary that does not fall inside a run of specials. */
  lemma {:induction false} EscapeHtmlAppend(a: string, b: string)
    requires a == [] || b == [] || !IsHtmlSpecial(a[|a| - 1]) || !IsHtmlSpecial(b[0])
    ensures EscapeHtml(a + b) == EscapeHtml(a) + EscapeHtml(b)
    decreases |a|
  {
    if a == [] {
      assert a + b == b;
    } else {
      var n := HtmlStep(a);
      HtmlStepAppend(a, b);
      assert a[n..] != [] ==> a[n..][|a[n..]| - 1] == a[|a| - 1];
      EscapeHtmlAppend(a[n..], b);
      EscapeHtmlAfterStep(a, b);
    }
  }

  /** One step of the induction behind `EscapeHtmlAppend`: the first chunk, then the rest. */
  lemma {:induction false} EscapeHtmlAfterStep(a: string, b: string)
    requires a != []
    requires HtmlStep(a + b) == HtmlStep(a) && HtmlChunk(a + b) == HtmlChunk(a)
    requires (a + b)[HtmlStep(a)..] == a[HtmlStep(a)..] + b
    requires EscapeHtml(a[HtmlStep(a)..] + b) == EscapeHtml(a[HtmlStep(a)..]) + EscapeHtml(b)
    ensures EscapeHtml(a + b) == EscapeHtml(a) + EscapeHtml(b)
  {
    var c, ea, eb := HtmlChunk(a), EscapeHtml(a[HtmlStep(a)..]), EscapeHtml(b);
    assert EscapeHtml(a + b) == c + (ea + eb);
    assert c + (ea + eb) == (c + ea) + eb;
  }

  /** The first step of escaping `a + b` is the first step of escaping `a`, when no run crosses the boundary. */
  lemma {:induction false} HtmlStepAppend(a: string, b: string)
    requires a != []
    requires b == [] || !IsHtmlSpecial(a[|a| - 1]) || !IsHtmlSpecial(b[0])
    ensures HtmlStep(a + b) == HtmlStep(a) && HtmlChunk(a + b) == HtmlChunk(a)
    ensures (a + b)[HtmlStep(a)..] == a[HtmlStep(a)..] + b
  {
    var ab := a + b;
    assert ab[0] == a[0];
    if IsHtmlSpecial(a[0]) {
      HtmlRunAppend(a, b);
      assert HtmlStep(ab) == HtmlRun(ab) == HtmlRun(a) == HtmlStep(a);
    } else {
      assert HtmlStep(ab) == 1 == HtmlStep(a);
    }
    var n := HtmlStep(a);
    assert ab[n..] == a[n..] + b;
  }

  /** The front run of `a + b` is the front run of `a` unless the run reaches across the boundary. */
  lemma {:induction false} HtmlRunAppend(a: string, b: string)
    requires b == [] || !IsHtmlSpecial(b[0]) || (a != [] && !IsHtmlSpecial(a[|a| - 1]))
    ensures HtmlRun(a + b) == HtmlRun(a)
    decreases |a|
  {
    if a != [] && IsHtmlSpecial(a[0]) {
      assert (a + b)[1..] == a[1..] + b;
      HtmlRunAppend(a[1..], b);
    } else if a == [] {
      assert a + b == b;
    }
  }

  /** A lone special character between ordinary ones is replaced by its entity. */
  lemma {:induction false} EscapeHtmlLone(a: string, c: char, b: string)
    requires IsHtmlSpecial(c)
    requires a == [] || !IsHtmlSpecial(a[|a| - 1])
    requires b == [] || !IsHtmlSpecial(b[0])
    ensures EscapeHtml(a + [c] + b) == EscapeHtml(a) + Entity(c) + EscapeHtml(b)
  {
    EscapeHtmlLoneFront(c, b);
    EscapeHtmlAround(a, [c], b, Entity(c));
  }

  /** What escaping does to a middle piece `m`, whatever it is, carries over to any ordinary-ended prefix `a`. */
  lemma {:induction false} EscapeHtmlAround(a: string, m: string, b: string, x: string)
    requires a == [] || !IsHtmlSpecial(a[|a| - 1])
    requires EscapeHtml(m + b) == x + EscapeHtml(b)
    ensures EscapeHtml(a + m + b) == EscapeHtml(a) + x + EscapeHtml(b)
  {
    var mb := m + b;
    assert a + m + b == a + mb;
    EscapeHtmlAppend(a, mb);
    var ea, eb := EscapeHtml(a), EscapeHtml(b);
    assert ea + (x + eb) == ea + x + eb;
  }

  /** A special character at the front, followed by an ordinary one or nothing, becomes its entity. */
  lemma {:induction false} EscapeHtmlLoneFront(c: char, b: string)
    requires IsHtmlSpecial(c)
    requires b == [] || !IsHtmlSpecial(b[0])
    ensures EscapeHtml([c] + b) == Entity(c) + EscapeHtml(b)
  {
    var s := [c] + b;
    HtmlRunOfSpecials([c], b);
    assert s[0] == c && s[1..] == b;
  }

  /** A run of two or more special characters between ordinary ones becomes the text "undefined". */
  lemma {:induction false} EscapeHtmlRun(a: string, run: string, b: string)
    requires |run| >= 2 && forall i :: 0 <= i < |run| ==> IsHtmlSpecial(run[i])
    requires a == [] || !IsHtmlSpecial(a[|a| - 1])
    requires b == [] || !IsHtmlSpecial(b[0])
    ensures EscapeHtml(a + run + b) == EscapeHtml(a) + "undefined" + EscapeHtml(b)
  {
    EscapeHtmlRunFront(run, b);
    EscapeHtmlAround(a, run, b, "undefined");
  }

  /** A run of two or more specials at the front becomes "undefined". */
  lemma {:induction false} EscapeHtmlRunFront(run: string, b: string)
    requires |run| >= 2 && forall i :: 0 <= i < |run| ==> IsHtmlSpecial(run[i])
    requires b == [] || !IsHtmlSpecial(b[0])
    ensures EscapeHtml(run + b) == "undefined" + EscapeHtml(b)
  {
    var s := run + b;
    HtmlRunOfSpecials(run, b);
    assert s[0] == run[0];
    assert s[|run|..] == b;
  }

  /** A string made of specials, followed by an ordinary character or nothing, is one run. */
  lemma {:induction false} HtmlRunOfSpecials(run: string, b: string)
    requires forall i :: 0 <= i < |run| ==> IsHtmlSpecial(run[i])
    requires b == [] || !IsHtmlSpecial(b[0])
    ensures HtmlRun(run + b) == |run|
  {
    if run == [] {
      assert run + b == b;
    } else {
      assert (run + b)[1..] == run[1..] + b;
      HtmlRunOfSpecials(run[1..], b);
    }
  }

  /** The apostrophe is not in the character class, so `escapeHtml` copies it. */
  lemma EscapeHtmlKeepsApostrophe()
    ensures EscapeHtml("'") == "'"
  {
  }

  /**
   * The discrepancy: two different inputs both escape to "undefined", so the
   * text shown for "<<" or "&&" is the word "undefined", and the corrected
   * function keeps them apart.
   */
  lemma EscapeHtmlRunCounterexample()
    ensures EscapeHtml("<<") == "undefined" && EscapeHtml("&&") == "undefined"
    ensures EscapeHtmlIntended("<<") == "&lt;&lt;" && EscapeHtmlIntended("&&") == "&amp;&amp;"
  {
    assert HtmlRun("<<") == 2;
    assert HtmlRun("&&") == 2;
  }

  /** The categories offered by the edit row's select, in order. */
  const Categories: seq<string> := ["Stocks", "Bonds", "Crypto", "Real Estate", "Mutual Fund", "ETF", "Other"]

  /** One `<option>`; a matching option carries `selected`, the others an empty attribute slot. */
  function OptionTag(o: string, sel: string): (r: string)
    ensures "<option selected>" <= r <==> o == sel
  {
    var r := "<option " + (if o == sel then "selected" else "") + ">" + o + "</option>";
    assert r[8] == (if o == sel then 's' else '>');
    r
  }

  /** The option tags for `opts`, concatenated. */
  function JoinOptions(opts: seq<string>, sel: string): (r: string)
    ensures r == "" <==> opts == []
  {
    if opts == [] then "" else OptionTag(opts[0], sel) + JoinOptions(opts[1..], sel)
  }

  /** `categorySelect(sel)`: the category select with `sel`'s option marked. */
  function CategorySelect(sel: string): (r: string)
    ensures "<select class=\"edt-category\">" <= r
  {
    "<select class=\"edt-category\">" + JoinOptions(Categories, sel) + "</select>"
  }

  /** The options are the categories in order, and an option is marked exactly when it equals `sel`. */
  lemma {:induction false} JoinOptionsSpec(opts: seq<string>, sel: string)
    ensures JoinOptions(opts, sel) == Concat(seq(|opts|, i requires 0 <= i < |opts| => OptionTag(opts[i], sel)))
  {
    if opts != [] {
      JoinOptionsSpec(opts[1..], sel);
      var tags := seq(|opts|, i requires 0 <= i < |opts| => OptionTag(opts[i], sel));
      assert tags[1..] == seq(|opts| - 1, i requires 0 <= i < |opts| - 1 => OptionTag(opts[1..][i], sel));
    }
  }

  /** The concatenation of the parts in order, as `join('')` gives it. */
  function Concat(parts: seq<string>): string
  {
    if parts == [] then "" else parts[0] + Concat(parts[1..])
  }

  /** A known category marks exactly its own option; anything else marks none. */
  lemma CategorySelectMarks(sel: string)
    ensures forall i :: 0 <= i < |Categories| ==>
      (OptionTag(Categories[i], sel) == "<option selected>" + Categories[i] + "</option>" <==> Categories[i] == sel)
    ensures sel !in Categories ==>
      forall i :: 0 <= i < |Categories| ==> OptionTag(Categories[i], sel) == "<option >" + Categories[i] + "</option>"
  {
    forall i | 0 <= i < |Categories|
      ensures OptionTag(Categories[i], sel) == "<option selected>" + Categories[i] + "</option>" <==> Categories[i] == sel
    {
      var o := Categories[i];
      if o != sel {
        assert OptionTag(o, sel)[8] == '>';
        assert ("<option selected>" + o + "</option>")[8] == 's';
      }
    }
  }
}
