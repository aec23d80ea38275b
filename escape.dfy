/**
  `escapeHtml`: five chained `replaceAll` calls that turn the HTML
  metacharacters `&`, `<`, `>`, `"` and `'` into character entities,
  `&` first so that no entity is escaped a second time.
 */
module Escape {
  import opened Strings

  /** The characters `escapeHtml` replaces. */
  predicate IsMeta(c: char)
  {
    c == '&' || c == '<' || c == '>' || c == '"' || c == '\''
  }

  /** The entity each metacharacter becomes. */
  function Entity(c: char): (e: string)
    requires IsMeta(c)
    ensures |e| >= 4 && e[0] == '&' && e[|e| - 1] == ';'
    ensures forall k :: 1 <= k < |e| ==> !IsMeta(e[k])
  {
    match c
    case '&' => "&amp;"
    case '<' => "&lt;"
    case '>' => "&gt;"
    case '"' => "&quot;"
    case _ => "&#39;"
  }

  /** `escapeHtml(value)`, replacement by replacement, in the source's order. */
  function EscapeHtml(value: string): (r: string)
  {
    var amp := ReplaceAll(value, "&", "&amp;");
    var lt := ReplaceAll(amp, "<", "&lt;");
    var gt := ReplaceAll(lt, ">", "&gt;");
    var quot := ReplaceAll(gt, "\"", "&quot;");
    ReplaceAll(quot, "'", "&#39;")
  }

  /** What one character of the input becomes in the output of `escapeHtml`. */
  function EscapeChar(c: char): (r: string)
  {
    if IsMeta(c) then Entity(c) else [c]
  }

  /** A one-pass, character-by-character escaper: the reference `escapeHtml`
      is proved equal to. */
  function EscapeEach(s: string): (r: string)
    ensures forall k :: 0 <= k < |r| ==> r[k] != '<' && r[k] != '>' && r[k] != '"' && r[k] != '\''
    ensures |r| >= |s|
  {
    if s == [] then [] else EscapeChar(s[0]) + EscapeEach(s[1..])
  }

  lemma {:induction false} EscapeEachAppend(a: string, b: string)
    ensures EscapeEach(a + b) == EscapeEach(a) + EscapeEach(b)
  {
    if a == [] {
      assert a + b == b;
    } else {
      assert (a + b)[0] == a[0];
      assert (a + b)[1..] == a[1..] + b;
      EscapeEachAppend(a[1..], b);
    }
  }

  /** Each of the five passes replaces a single character, so `escapeHtml`
      distributes over concatenation. */
  lemma EscapeHtmlAppend(a: string, b: string)
    ensures EscapeHtml(a + b) == EscapeHtml(a) + EscapeHtml(b)
  {
    var amp := ReplaceAll(a + b, "&", "&amp;");
    ReplaceCharAppend(a, b, '&', "&amp;");
    var ampA, ampB := ReplaceAll(a, "&", "&amp;"), ReplaceAll(b, "&", "&amp;");
    ReplaceCharAppend(ampA, ampB, '<', "&lt;");
    var ltA, ltB := ReplaceAll(ampA, "<", "&lt;"), ReplaceAll(ampB, "<", "&lt;");
    ReplaceCharAppend(ltA, ltB, '>', "&gt;");
    var gtA, gtB := ReplaceAll(ltA, ">", "&gt;"), ReplaceAll(ltB, ">", "&gt;");
    ReplaceCharAppend(gtA, gtB, '"', "&quot;");
    var quotA, quotB := ReplaceAll(gtA, "\"", "&quot;"), ReplaceAll(gtB, "\"", "&quot;");
    ReplaceCharAppend(quotA, quotB, '\'', "&#39;");
  }

  /** On a single character the five passes produce that character's entity:
      the `&amp;` made by the first pass is not touched by the later ones. */
  lemma EscapeHtmlChar(c: char)
    ensures EscapeHtml([c]) == EscapeChar(c)
  {
    var amp := ReplaceAll([c], "&", "&amp;");
    ReplaceSingle(c, '&', "&amp;");
    if c == '&' {
      LaterPasses(amp, 0);
    } else {
      var lt := ReplaceAll(amp, "<", "&lt;");
      ReplaceSingle(c, '<', "&lt;");
      if c == '<' {
        LaterPasses(lt, 1);
      } else {
        var gt := ReplaceAll(lt, ">", "&gt;");
        ReplaceSingle(c, '>', "&gt;");
        if c == '>' {
          LaterPasses(gt, 2);
        } else {
          var quot := ReplaceAll(gt, "\"", "&quot;");
          ReplaceSingle(c, '"', "&quot;");
          if c == '"' {
            LaterPasses(quot, 3);
          } else {
            ReplaceSingle(c, '\'', "&#39;");
          }
        }
      }
    }
  }

  /** The passes after the first `done` leave alone a string holding none of
      the characters they replace. */
  lemma LaterPasses(e: string, done: nat)
    requires done <= 3
    requires done < 1 ==> '<' !in e
    requires done < 2 ==> '>' !in e
    requires done < 3 ==> '"' !in e
    requires '\'' !in e
    ensures done == 0 ==> ReplaceAll(ReplaceAll(ReplaceAll(ReplaceAll(e, "<", "&lt;"), ">", "&gt;"), "\"", "&quot;"), "'", "&#39;") == e
    ensures done == 1 ==> ReplaceAll(ReplaceAll(ReplaceAll(e, ">", "&gt;"), "\"", "&quot;"), "'", "&#39;") == e
    ensures done == 2 ==> ReplaceAll(ReplaceAll(e, "\"", "&quot;"), "'", "&#39;") == e
    ensures done == 3 ==> ReplaceAll(e, "'", "&#39;") == e
  {
  }

  /** Replacing a one-character pattern in a one-character string. */
  lemma ReplaceSingle(c: char, pat: char, rep: string)
    ensures ReplaceAll([c], [pat], rep) == if c == pat then rep else [c]
  {
    if c == pat {
      assert [pat] <= [c];
      assert [c][1..] == [];
    }
  }

  /** The five chained replacements escape each character on its own, exactly
      once: replacing `&` first means no entity is escaped twice. */
  lemma {:induction false} EscapeHtmlIsPerChar(s: string)
    ensures EscapeHtml(s) == EscapeEach(s)
  {
    if s == [] {
    } else {
      assert s == [s[0]] + s[1..];
      EscapeHtmlAppend([s[0]], s[1..]);
      EscapeHtmlChar(s[0]);
      EscapeHtmlIsPerChar(s[1..]);
    }
  }

  /** The output of `escapeHtml` never contains `<`, `>`, `"` or `'`. */
  lemma EscapeHtmlHasNoMarkup(s: string)
    ensures forall k :: 0 <= k < |EscapeHtml(s)| ==>
      EscapeHtml(s)[k] !in {'<', '>', '"', '\''}
  {
    EscapeHtmlIsPerChar(s);
  }

  /** A string with no metacharacter in it is left as it is, and only such a
      string is. */
  lemma {:induction false} EscapeHtmlIdentity(s: string)
    ensures EscapeHtml(s) == s <==> forall k :: 0 <= k < |s| ==> !IsMeta(s[k])
  {
    EscapeHtmlIsPerChar(s);
    EscapeEachIdentity(s);
  }

  lemma {:induction false} EscapeEachIdentity(s: string)
    ensures EscapeEach(s) == s <==> forall k :: 0 <= k < |s| ==> !IsMeta(s[k])
  {
    if s != [] {
      EscapeEachIdentity(s[1..]);
      if IsMeta(s[0]) {
        assert |EscapeEach(s)| >= |s| + 3;
      } else if EscapeEach(s) == s {
        assert EscapeEach(s[1..]) == s[1..];
      }
    }
  }

  /** Decoding the five entities with `replaceAll`, `&amp;` last. */
  function UnescapeHtml(s: string): string
  {
    var lt := ReplaceAll(s, "&lt;", "<");
    var gt := ReplaceAll(lt, "&gt;", ">");
    var quot := ReplaceAll(gt, "&quot;", "\"");
    var apos := ReplaceAll(quot, "&#39;", "'");
    ReplaceAll(apos, "&amp;", "&")
  }

  /** What `c` looks like part way through decoding, once the metacharacters
      in `decoded` have been decoded again. */
  function EscapeCharExcept(c: char, decoded: set<char>): string
  {
    if c in decoded || !IsMeta(c) then [c] else Entity(c)
  }

  /** `s` escaped except for the metacharacters in `decoded`, which are kept
      as they are: an escaped string part way through decoding. */
  function EscapeExcept(s: string, decoded: set<char>): string
  {
    if s == [] then [] else EscapeCharExcept(s[0], decoded) + EscapeExcept(s[1..], decoded)
  }

  lemma {:induction false} EscapeEachIsEscapeExcept(s: string)
    ensures EscapeEach(s) == EscapeExcept(s, {})
  {
    if s != [] {
      EscapeEachIsEscapeExcept(s[1..]);
    }
  }

  lemma {:induction false} EscapeExceptAll(s: string)
    ensures EscapeExcept(s, {'&', '<', '>', '"', '\''}) == s
  {
    if s != [] {
      EscapeExceptAll(s[1..]);
    }
  }

  /** A decoding pass over the entity of the character it decodes. */
  lemma DecodeMatch(c: char, rest: string)
    requires IsMeta(c)
    ensures ReplaceAll(Entity(c) + rest, Entity(c), [c]) == [c] + ReplaceAll(rest, Entity(c), [c])
  {
    var pat := Entity(c);
    assert pat <= pat + rest;
    assert (pat + rest)[|pat|..] == rest;
  }

  /** No two entities share their second character. */
  lemma EntitiesDiffer(x: char, c: char)
    requires IsMeta(x) && IsMeta(c) && x != c
    ensures Entity(x)[1] != Entity(c)[1]
  {
    match x
    case '&' =>
    case '<' =>
    case '>' =>
    case '"' =>
    case _ =>
  }

  /** A decoding pass over another entity: entities differ in their second
      character, and `&` occurs only at the start of one. */
  lemma DecodeOtherEntity(x: char, c: char, rest: string)
    requires IsMeta(x) && IsMeta(c) && x != c
    ensures ReplaceAll(Entity(x) + rest, Entity(c), [c]) == Entity(x) + ReplaceAll(rest, Entity(c), [c])
  {
    var head, pat := Entity(x), Entity(c);
    EntitiesDiffer(x, c);
    assert pat[0] !in head[1..];
    ReplacePassesOver(head, rest, pat, [c]);
  }

  lemma DecodeChar(x: char, decoded: set<char>, c: char, rest: string)
    requires IsMeta(c) && c !in decoded
    requires c == '&' || '&' !in decoded
    requires c == '&' ==> decoded == {'<', '>', '"', '\''}
    ensures ReplaceAll(EscapeCharExcept(x, decoded) + rest, Entity(c), [c])
         == EscapeCharExcept(x, decoded + {c}) + ReplaceAll(rest, Entity(c), [c])
  {
    if x == c {
      DecodeMatch(c, rest);
    } else if x in decoded || !IsMeta(x) {
      ReplaceSkips([x], rest, Entity(c), [c]);
    } else {
      DecodeOtherEntity(x, c, rest);
    }
  }

  /** One decoding pass turns the entity of `c` back into `c` and leaves the
      other entities alone, provided `&` itself is still encoded. */
  lemma {:induction false} DecodePass(s: string, decoded: set<char>, c: char)
    requires IsMeta(c) && c !in decoded
    requires c == '&' || '&' !in decoded
    requires c == '&' ==> decoded == {'<', '>', '"', '\''}
    ensures ReplaceAll(EscapeExcept(s, decoded), Entity(c), [c]) == EscapeExcept(s, decoded + {c})
  {
    if s != [] {
      DecodeChar(s[0], decoded, c, EscapeExcept(s[1..], decoded));
      DecodePass(s[1..], decoded, c);
    }
  }

  /** Decoding the five entities, `&amp;` last, gives back what was escaped. */
  lemma UnescapeEscape(s: string)
    ensures UnescapeHtml(EscapeHtml(s)) == s
  {
    var d0: set<char> := {};
    var d1, d2, d3, d4 := d0 + {'<'}, d0 + {'<'} + {'>'}, d0 + {'<'} + {'>'} + {'"'}, d0 + {'<'} + {'>'} + {'"'} + {'\''};
    EscapeHtmlIsPerChar(s);
    EscapeEachIsEscapeExcept(s);
    var e := EscapeHtml(s);
    assert e == EscapeExcept(s, d0);
    var lt := ReplaceAll(e, "&lt;", "<");
    DecodePass(s, d0, '<');
    assert lt == EscapeExcept(s, d1);
    var gt := ReplaceAll(lt, "&gt;", ">");
    DecodePass(s, d1, '>');
    assert gt == EscapeExcept(s, d2);
    var quot := ReplaceAll(gt, "&quot;", "\"");
    DecodePass(s, d2, '"');
    assert quot == EscapeExcept(s, d3);
    var apos := ReplaceAll(quot, "&#39;", "'");
    DecodePass(s, d3, '\'');
    assert apos == EscapeExcept(s, d4);
    assert d4 == {'<', '>', '"', '\''};
    DecodePass(s, d4, '&');
    assert d4 + {'&'} == {'&', '<', '>', '"', '\''};
    EscapeExceptAll(s);
  }
}
