/**
 * `escapeHtml` and `escapeAttr` of script.js: text is made safe for
 * interpolation into markup by a chain of `replaceAll` calls, `&` first.
 */
module HtmlEscape {

  /** `s.replaceAll(needle, rep)` for a one-character needle (the only kind the
      escaping chain uses): each occurrence of `needle` becomes `rep`, every
      other character is kept, in order. */
  function ReplaceAll(s: string, needle: char, rep: string): (r: string)
    ensures needle !in s ==> r == s
    ensures needle !in rep ==> needle !in r
    ensures |rep| >= 1 ==> |r| >= |s|
  {
    if s == [] then []
    else (if s[0] == needle then rep else [s[0]]) + ReplaceAll(s[1..], needle, rep)
  }

  /** A character in neither the text nor the replacement is not in the result. */
  lemma {:induction false} ReplaceAllKeepsAbsent(s: string, needle: char, rep: string, c: char)
    requires c !in s && c !in rep
    ensures c !in ReplaceAll(s, needle, rep)
  {
    if s != [] {
      assert c !in s[1..];
      ReplaceAllKeepsAbsent(s[1..], needle, rep, c);
    }
  }

  /** `escapeHtml(str)`: the five `replaceAll` calls, applied in source order.
      The result holds no character that opens a tag or ends an attribute
      value, and is never shorter than the input. */
  function EscapeHtml(s: string): (r: string)
    ensures '<' !in r && '>' !in r && '"' !in r && '\'' !in r
    ensures |r| >= |s|
  {
    ChainIsInert(s);
    ReplaceAll(ReplaceAll(ReplaceAll(ReplaceAll(ReplaceAll(s,
      '&', "&amp;"),
      '<', "&lt;"),
      '>', "&gt;"),
      '"', "&quot;"),
      '\'', "&#039;")
  }

  lemma ChainIsInert(s: string)
    ensures var r := ReplaceAll(ReplaceAll(ReplaceAll(ReplaceAll(ReplaceAll(s,
      '&', "&amp;"), '<', "&lt;"), '>', "&gt;"), '"', "&quot;"), '\'', "&#039;");
      '<' !in r && '>' !in r && '"' !in r && '\'' !in r
  {
    var lt := ReplaceAll(ReplaceAll(s, '&', "&amp;"), '<', "&lt;");
    assert '<' !in "&lt;";
    GtStage(lt);
    var gt := ReplaceAll(lt, '>', "&gt;");
    QuotStage(gt);
    AposStage(ReplaceAll(gt, '"', "&quot;"));
  }

  /** Escaping `>` keeps out a `<` that is already gone, and removes `>`. */
  lemma GtStage(t: string)
    requires '<' !in t
    ensures var r := ReplaceAll(t, '>', "&gt;"); '<' !in r && '>' !in r
  {
    assert '<' !in "&gt;" && '>' !in "&gt;";
    ReplaceAllKeepsAbsent(t, '>', "&gt;", '<');
  }

  /** Escaping `"` keeps out `<` and `>`, and removes `"`. */
  lemma QuotStage(t: string)
    requires '<' !in t && '>' !in t
    ensures var r := ReplaceAll(t, '"', "&quot;"); '<' !in r && '>' !in r && '"' !in r
  {
    assert '<' !in "&quot;" && '>' !in "&quot;" && '"' !in "&quot;";
    ReplaceAllKeepsAbsent(t, '"', "&quot;", '<');
    ReplaceAllKeepsAbsent(t, '"', "&quot;", '>');
  }

  /** Escaping `'` keeps out `<`, `>` and `"`, and removes `'`. */
  lemma AposStage(t: string)
    requires '<' !in t && '>' !in t && '"' !in t
    ensures var r := ReplaceAll(t, '\'', "&#039;"); '<' !in r && '>' !in r && '"' !in r && '\'' !in r
  {
    assert '<' !in "&#039;" && '>' !in "&#039;" && '"' !in "&#039;" && '\'' !in "&#039;";
    ReplaceAllKeepsAbsent(t, '\'', "&#039;", '<');
    ReplaceAllKeepsAbsent(t, '\'', "&#039;", '>');
    ReplaceAllKeepsAbsent(t, '\'', "&#039;", '"');
  }

  /** No inserted entity holds a character that a later step removes. */
  lemma EntitiesAreInert()
    ensures '<' !in "&gt;" && '<' !in "&quot;" && '>' !in "&quot;"
    ensures '<' !in "&#039;" && '>' !in "&#039;" && '"' !in "&#039;"
    ensures '<' !in "&#096;" && '>' !in "&#096;" && '"' !in "&#096;" && '\'' !in "&#096;"
    ensures '<' !in "&amp;" && '>' !in "&amp;" && '"' !in "&amp;" && '\'' !in "&amp;"
    ensures '>' !in "&lt;" && '"' !in "&lt;" && '\'' !in "&lt;"
    ensures '"' !in "&gt;" && '\'' !in "&gt;" && '\'' !in "&quot;"
    ensures '`' !in "&amp;" && '`' !in "&lt;" && '`' !in "&gt;" && '`' !in "&quot;" && '`' !in "&#039;"
  {
  }

  /** `escapeAttr(str)`: `escapeHtml` followed by escaping the backtick. */
  function EscapeAttr(s: string): (r: string)
    ensures '<' !in r && '>' !in r && '"' !in r && '\'' !in r && '`' !in r
    ensures |r| >= |s|
  {
    var h := EscapeHtml(s);
    EntitiesAreInert();
    ReplaceAllKeepsAbsent(h, '`', "&#096;", '<');
    ReplaceAllKeepsAbsent(h, '`', "&#096;", '>');
    ReplaceAllKeepsAbsent(h, '`', "&#096;", '"');
    ReplaceAllKeepsAbsent(h, '`', "&#096;", '\'');
    ReplaceAll(h, '`', "&#096;")
  }

  /** The characters `escapeHtml` rewrites; `escapeAttr` also rewrites the backtick. */
  predicate IsSpecial(c: char, inAttr: bool)
  {
    c == '&' || c == '<' || c == '>' || c == '"' || c == '\'' || (inAttr && c == '`')
  }

  /** Reference definition: the text one character stands for after escaping. */
  function Entity(c: char, inAttr: bool): (r: string)
    ensures |r| >= 1
    ensures |r| == 1 <==> !IsSpecial(c, inAttr)
  {
    match c
    case '&' => "&amp;"
    case '<' => "&lt;"
    case '>' => "&gt;"
    case '"' => "&quot;"
    case '\'' => "&#039;"
    case _ => if inAttr && c == '`' then "&#096;" else [c]
  }

  /** Reference definition: each character replaced by its entity, independently. */
  function EscapeEach(s: string, inAttr: bool): string
  {
    if s == [] then [] else Entity(s[0], inAttr) + EscapeEach(s[1..], inAttr)
  }

  /** The inverse an HTML parser applies: the six entities back to their characters. */
  function Unescape(s: string): string
    decreases |s|
  {
    if s == [] then []
    else if |s| >= 5 && s[..5] == "&amp;" then "&" + Unescape(s[5..])
    else if |s| >= 4 && s[..4] == "&lt;" then "<" + Unescape(s[4..])
    else if |s| >= 4 && s[..4] == "&gt;" then ">" + Unescape(s[4..])
    else if |s| >= 6 && s[..6] == "&quot;" then "\"" + Unescape(s[6..])
    else if |s| >= 6 && s[..6] == "&#039;" then "'" + Unescape(s[6..])
    else if |s| >= 6 && s[..6] == "&#096;" then "`" + Unescape(s[6..])
    else [s[0]] + Unescape(s[1..])
  }

  lemma {:induction false} ReplaceAllAppend(a: string, b: string, needle: char, rep: string)
    ensures ReplaceAll(a + b, needle, rep) == ReplaceAll(a, needle, rep) + ReplaceAll(b, needle, rep)
  {
    if a != [] {
      ReplaceAllAppend(a[1..], b, needle, rep);
      ReplaceAllHead(a, b, needle, rep);
      var head := if a[0] == needle then rep else [a[0]];
      var x, y := ReplaceAll(a[1..], needle, rep), ReplaceAll(b, needle, rep);
      assert head + (x + y) == (head + x) + y;
    } else {
      assert a + b == b;
    }
  }

  /** Both `a + b` and `a` start with the replacement of `a[0]`. */
  lemma ReplaceAllHead(a: string, b: string, needle: char, rep: string)
    requires a != []
    ensures var head := if a[0] == needle then rep else [a[0]];
      && ReplaceAll(a + b, needle, rep) == head + ReplaceAll(a[1..] + b, needle, rep)
      && ReplaceAll(a, needle, rep) == head + ReplaceAll(a[1..], needle, rep)
  {
    assert (a + b)[0] == a[0] && (a + b)[1..] == a[1..] + b;
  }

  lemma EscapeHtmlAppend(a: string, b: string)
    ensures EscapeHtml(a + b) == EscapeHtml(a) + EscapeHtml(b)
  {
    var a1, b1 := ReplaceAll(a, '&', "&amp;"), ReplaceAll(b, '&', "&amp;");
    ReplaceAllAppend(a, b, '&', "&amp;");
    var a2, b2 := ReplaceAll(a1, '<', "&lt;"), ReplaceAll(b1, '<', "&lt;");
    ReplaceAllAppend(a1, b1, '<', "&lt;");
    var a3, b3 := ReplaceAll(a2, '>', "&gt;"), ReplaceAll(b2, '>', "&gt;");
    ReplaceAllAppend(a2, b2, '>', "&gt;");
    var a4, b4 := ReplaceAll(a3, '"', "&quot;"), ReplaceAll(b3, '"', "&quot;");
    ReplaceAllAppend(a3, b3, '"', "&quot;");
    ReplaceAllAppend(a4, b4, '\'', "&#039;");
  }

  lemma EscapeHtmlChar(c: char)
    ensures EscapeHtml([c]) == Entity(c, false)
  {
    var amp := ReplaceAll([c], '&', "&amp;");
    var lt := ReplaceAll(amp, '<', "&lt;");
    var gt := ReplaceAll(lt, '>', "&gt;");
    var quot := ReplaceAll(gt, '"', "&quot;");
    assert EscapeHtml([c]) == ReplaceAll(quot, '\'', "&#039;");
    EntitiesAreInert();
    ReplaceAllOne(c, '&', "&amp;");
    if c == '&' {
      assert amp == "&amp;";
    } else {
      ReplaceAllOne(c, '<', "&lt;");
      if c == '<' {
        assert lt == "&lt;";
      } else {
        ReplaceAllOne(c, '>', "&gt;");
        if c == '>' {
          assert gt == "&gt;";
        } else {
          ReplaceAllOne(c, '"', "&quot;");
          if c == '"' {
            assert quot == "&quot;";
          } else {
            ReplaceAllOne(c, '\'', "&#039;");
          }
        }
      }
    }
  }

  lemma ReplaceAllOne(c: char, needle: char, rep: string)
    ensures ReplaceAll([c], needle, rep) == if c == needle then rep else [c]
  {
    assert [c][1..] == [];
  }

  lemma EscapeAttrAppend(a: string, b: string)
    ensures EscapeAttr(a + b) == EscapeAttr(a) + EscapeAttr(b)
  {
    EscapeHtmlAppend(a, b);
    ReplaceAllAppend(EscapeHtml(a), EscapeHtml(b), '`', "&#096;");
  }

  lemma EscapeAttrChar(c: char)
    ensures EscapeAttr([c]) == Entity(c, true)
  {
    EscapeHtmlChar(c);
    EntitiesAreInert();
    if IsSpecial(c, false) {
      assert EscapeAttr([c]) == ReplaceAll(Entity(c, false), '`', "&#096;");
    } else {
      ReplaceAllOne(c, '`', "&#096;");
    }
  }

  /** Escaping one character at a time, with `&` handled first, so the `&`
      of an inserted entity is never escaped again. */
  lemma {:induction false} EscapeHtmlIsPerCharacter(s: string)
    ensures EscapeHtml(s) == EscapeEach(s, false)
  {
    if s != [] {
      assert s == [s[0]] + s[1..];
      EscapeHtmlAppend([s[0]], s[1..]);
      EscapeHtmlChar(s[0]);
      EscapeHtmlIsPerCharacter(s[1..]);
    }
  }

  lemma {:induction false} EscapeAttrIsPerCharacter(s: string)
    ensures EscapeAttr(s) == EscapeEach(s, true)
  {
    if s != [] {
      assert s == [s[0]] + s[1..];
      EscapeAttrAppend([s[0]], s[1..]);
      EscapeAttrChar(s[0]);
      EscapeAttrIsPerCharacter(s[1..]);
    }
  }

  predicate NoSpecials(s: string, inAttr: bool)
  {
    forall i :: 0 <= i < |s| ==> !IsSpecial(s[i], inAttr)
  }

  /** Escaping never shortens, and keeps the length exactly when there is
      nothing to escape, in which case the text comes back unchanged. */
  lemma {:induction false} EscapeEachLength(s: string, inAttr: bool)
    ensures |EscapeEach(s, inAttr)| >= |s|
    ensures |EscapeEach(s, inAttr)| == |s| <==> NoSpecials(s, inAttr)
    ensures NoSpecials(s, inAttr) ==> EscapeEach(s, inAttr) == s
  {
    if s != [] {
      EscapeEachLength(s[1..], inAttr);
      assert NoSpecials(s, inAttr) <==> !IsSpecial(s[0], inAttr) && NoSpecials(s[1..], inAttr) by {
        if NoSpecials(s, inAttr) {
          forall i | 0 <= i < |s[1..]| ensures !IsSpecial(s[1..][i], inAttr) {
            assert s[1..][i] == s[i + 1];
          }
        }
        if !IsSpecial(s[0], inAttr) && NoSpecials(s[1..], inAttr) {
          forall i | 0 < i < |s| ensures !IsSpecial(s[i], inAttr) {
            assert s[i] == s[1..][i - 1];
          }
        }
      }
      if NoSpecials(s, inAttr) {
        assert s == [s[0]] + s[1..];
      }
    }
  }

  lemma EscapeHtmlFixedPoints(s: string)
    ensures |EscapeHtml(s)| >= |s|
    ensures EscapeHtml(s) == s <==> NoSpecials(s, false)
  {
    EscapeHtmlIsPerCharacter(s);
    EscapeEachLength(s, false);
  }

  lemma EscapeAttrFixedPoints(s: string)
    ensures |EscapeAttr(s)| >= |s|
    ensures EscapeAttr(s) == s <==> NoSpecials(s, true)
  {
    EscapeAttrIsPerCharacter(s);
    EscapeEachLength(s, true);
  }

  /** A text whose k-th character differs from that of `p` does not start with `p`. */
  lemma NotPrefix(s: string, p: string, k: nat)
    requires k < |p| && k < |s| && s[k] != p[k]
    ensures !(|s| >= |p| && s[..|p|] == p)
  {
  }

  lemma UnescapeEntity(c: char, inAttr: bool, t: string)
    ensures Unescape(Entity(c, inAttr) + t) == [c] + Unescape(t)
  {
    var e := Entity(c, inAttr);
    var s := e + t;
    assert s[..|e|] == e && s[|e|..] == t;
    if !IsSpecial(c, inAttr) {
      assert e == [c] && s[0] == c;
      NotPrefix(s, "&amp;", 0);
      NotPrefix(s, "&lt;", 0);
      NotPrefix(s, "&gt;", 0);
      NotPrefix(s, "&quot;", 0);
      NotPrefix(s, "&#039;", 0);
      NotPrefix(s, "&#096;", 0);
    } else if c == '&' {
    } else if c == '<' {
      NotPrefix(s, "&amp;", 1);
    } else if c == '>' {
      NotPrefix(s, "&amp;", 1);
      NotPrefix(s, "&lt;", 1);
    } else if c == '"' {
      NotPrefix(s, "&amp;", 1);
      NotPrefix(s, "&lt;", 1);
      NotPrefix(s, "&gt;", 1);
    } else if c == '\'' {
      NotPrefix(s, "&amp;", 1);
      NotPrefix(s, "&lt;", 1);
      NotPrefix(s, "&gt;", 1);
      NotPrefix(s, "&quot;", 1);
    } else {
      NotPrefix(s, "&amp;", 1);
      NotPrefix(s, "&lt;", 1);
      NotPrefix(s, "&gt;", 1);
      NotPrefix(s, "&quot;", 1);
      NotPrefix(s, "&#039;", 4);
    }
  }

  lemma {:induction false} UnescapeEscapeEach(s: string, inAttr: bool)
    ensures Unescape(EscapeEach(s, inAttr)) == s
  {
    if s != [] {
      UnescapeEntity(s[0], inAttr, EscapeEach(s[1..], inAttr));
      UnescapeEscapeEach(s[1..], inAttr);
    }
  }

  /** Escaping loses nothing: decoding the entities gives back the input. */
  lemma EscapeHtmlRoundTrip(s: string)
    ensures Unescape(EscapeHtml(s)) == s
  {
    EscapeHtmlIsPerCharacter(s);
    UnescapeEscapeEach(s, false);
  }

  lemma EscapeAttrRoundTrip(s: string)
    ensures Unescape(EscapeAttr(s)) == s
  {
    EscapeAttrIsPerCharacter(s);
    UnescapeEscapeEach(s, true);
  }
}
