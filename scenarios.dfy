/**
  Whole documents and what `renderMarkdown` turns them into, each derived
  from the general lemmas about the state machine: the empty document,
  headings, a two-item list, a paragraph over two lines, fenced code, and a
  plain line written right after a list item.
 */
module Scenarios {
  import opened Wrappers
  import opened Strings
  import opened Escape
  import opened Inline
  import opened Block
  import opened BlockProperties

  /** Text with no `\s` at either end and no character that escaping,
      inline markup or line splitting would act on. */
  predicate IsPlainWord(s: string)
  {
    && s != [] && !IsSpace(s[0]) && !IsSpace(s[|s| - 1])
    && forall k :: 0 <= k < |s| ==>
         !IsMeta(s[k]) && s[k] != '[' && s[k] != '`' && s[k] != '*' && !IsLineTerminator(s[k])
  }

  /** A plain word is its own trim and `renderInline` leaves it as it is. */
  lemma PlainWordRendersAsItself(s: string)
    requires IsPlainWord(s)
    ensures Trim(s) == s && RenderInline(s) == s
  {
    TrimOfTrimmed(s);
    PlainTextIsEscaped(s);
    EscapeHtmlIdentity(s);
  }

  /** A plain word holds no line break. */
  lemma PlainWordHasNoBreak(s: string)
    requires IsPlainWord(s)
    ensures '\r' !in s && '\n' !in s
  {
  }

  /** Two plain words with a space between them make a plain word. */
  lemma PlainWordsJoin(a: string, b: string)
    requires IsPlainWord(a) && IsPlainWord(b)
    ensures IsPlainWord(a + " " + b)
  {
    var s := a + " " + b;
    forall k | 0 <= k < |s|
      ensures !IsMeta(s[k]) && s[k] != '[' && s[k] != '`' && s[k] != '*' && !IsLineTerminator(s[k])
    {
      if k < |a| {
        assert s[k] == a[k];
      } else if k > |a| {
        assert s[k] == b[k - |a| - 1];
      }
    }
    assert s[0] == a[0];
    assert s[|s| - 1] == b[|b| - 1];
  }

  /** One part joins to itself; proved apart so that callers do not unfold `Join`. */
  lemma JoinOne(a: string, sep: string)
    ensures Join([a], sep) == a
  {
  }

  lemma JoinTwo(a: string, b: string, sep: string)
    ensures Join([a, b], sep) == a + sep + b
  {
    assert [a, b][1..] == [b];
  }

  lemma JoinThree(a: string, b: string, c: string, sep: string)
    ensures Join([a, b, c], sep) == a + sep + b + sep + c
  {
    assert [a, b, c][1..] == [b, c];
    JoinTwo(b, c, sep);
  }

  lemma JoinFour(a: string, b: string, c: string, d: string, sep: string)
    ensures Join([a, b, c, d], sep) == a + sep + b + sep + c + sep + d
  {
    assert [a, b, c, d][1..] == [b, c, d];
    JoinThree(b, c, d, sep);
  }

  /** A document whose lines hold no line break renders as the blocks the
      loop and the end of input emit for those lines, joined by `\n`. */
  lemma RenderLines(lines: seq<string>)
    requires lines != []
    requires forall k :: 0 <= k < |lines| ==> '\r' !in lines[k] && '\n' !in lines[k]
    ensures Render(Join(lines, "\n")) == Join(Html(Finish(Run(Initial, lines)).blocks), "\n")
  {
    LinesOfJoin(lines);
  }

  /** A state with nothing pending is left as it is by the end of input. */
  lemma FinishSettled(st: State)
    requires st.paragraph == [] && !st.inList && !st.inCode
    ensures Finish(st) == st
  {
  }

  lemma HtmlOne(x: Block)
    ensures Html([x]) == [BlockHtml(x)]
  {
    HtmlPush([], x);
    assert [] + [x] == [x];
  }

  lemma HtmlFour(w: Block, x: Block, y: Block, z: Block)
    ensures Html([w, x, y, z]) == [BlockHtml(w), BlockHtml(x), BlockHtml(y), BlockHtml(z)]
  {
    HtmlOne(w);
    assert [w] + [x] == [w, x];
    HtmlPush([w], x);
    assert [w, x] + [y] == [w, x, y];
    HtmlPush([w, x], y);
    assert [w, x, y] + [z] == [w, x, y, z];
    HtmlPush([w, x, y], z);
    FourStrings(BlockHtml(w), BlockHtml(x), BlockHtml(y), BlockHtml(z));
  }

  lemma ListTagsHtml()
    ensures BlockHtml(ListOpen) == "<ul>" && BlockHtml(ListClose) == "</ul>"
  {
  }

  /** Four singletons concatenated; proved apart, away from the `Html` terms. */
  lemma FourStrings(p: string, q: string, r: string, t: string)
    ensures [p] + [q] + [r] + [t] == [p, q, r, t]
  {
  }

  /** An empty document renders to the empty string. */
  lemma EmptyDocument()
    ensures Render("") == ""
  {
    assert Lines("") == [""];
    assert MatchHeading("") == None;
    assert MatchListItem("") == None;
    RunOne(Initial, "");
  }

  /** A heading line alone: its `<hN>` block and nothing else. */
  lemma HeadingBlocks(line: string)
    requires !IsFence(line) && MatchHeading(line).Some?
    ensures var h := MatchHeading(line).value;
      Finish(Run(Initial, [line])).blocks == [Heading(h.level, h.text)]
  {
    RunOne(Initial, line);
    HeadingStep(Initial, line);
    FinishSettled(Run(Initial, [line]));
  }

  /** The heading block of a plain word puts the word between the tags. */
  lemma HeadingOfPlain(n: Level, text: string)
    requires IsPlainWord(text)
    ensures var d := "0123456789"[n];
      BlockHtml(Heading(n, text)) == "<h" + [d] + ">" + text + "</h" + [d] + ">"
  {
    PlainWordRendersAsItself(text);
  }

  /** `#` repeated 1 to 6 times, a space and a plain word render as a
      heading of that level around the word: `# Title` as `<h1>Title</h1>`. */
  lemma HeadingDocument(n: Level, text: string)
    requires IsPlainWord(text)
    ensures var d := "0123456789"[n];
      Render(Hashes(n) + " " + text) == "<h" + [d] + ">" + text + "</h" + [d] + ">"
  {
    var line := Hashes(n) + " " + text;
    HeadingLine(n, text);
    JoinOne(line, "\n");
    RenderLines([line]);
    HeadingBlocks(line);
    HtmlOne(Heading(n, text));
    JoinOne(BlockHtml(Heading(n, text)), "\n");
    HeadingOfPlain(n, text);
  }

  /** The heading line of a plain word is a heading, not a fence, and holds
      no line break. */
  lemma HeadingLine(n: nat, text: string)
    requires 1 <= n <= 6 && IsPlainWord(text)
    ensures var line := Hashes(n) + " " + text;
      && MatchHeading(line) == Some(HeadingMatch(n, text)) && !IsFence(line)
      && '\r' !in line && '\n' !in line
  {
    var line := Hashes(n) + " " + text;
    HeadingOfHashes(n, text);
    PlainWordHasNoBreak(text);
    assert '\r' !in Hashes(n) && '\n' !in Hashes(n);
    assert line[0] == '#';
  }

  /** `- ` and a plain word matches the list pattern with the word as its
      text. */
  lemma ItemMatch(line: string, text: string)
    requires IsPlainWord(text) && line == "- " + text
    ensures MatchListItem(line) == Some(text)
  {
    assert line[0] == '-';
    assert LeadingSpace(line) == 0;
    var tail := line[1..];
    assert tail == " " + text;
    assert LeadingSpace(tail) == 1;
    assert tail[1..] == text;
    assert line[2..] == text;
  }

  /** `- ` and a plain word is a list item whose text is the word. */
  lemma ItemOfWord(line: string, text: string)
    requires IsPlainWord(text) && line == "- " + text
    ensures IsItemLine(line) && MatchListItem(line) == Some(text)
  {
    ItemMatch(line, text);
    assert line[0] == '-';
    assert LeadingHashes(line) == 0;
  }

  /** The `<li>` of a plain word is the word between the tags. */
  lemma ItemOfPlain(text: string)
    requires IsPlainWord(text)
    ensures BlockHtml(ListItem(text)) == "<li>" + text + "</li>"
  {
    PlainWordRendersAsItself(text);
  }

  /** Two list items in a row: one `<ul>`, their two `<li>`, and the `</ul>`
      the end of input adds. */
  lemma TwoItemBlocks(l1: string, l2: string)
    requires IsItemLine(l1) && IsItemLine(l2)
    ensures Finish(Run(Initial, [l1, l2])).blocks
         == [ListOpen, ListItem(MatchListItem(l1).value), ListItem(MatchListItem(l2).value), ListClose]
  {
    var lines := [l1, l2];
    ItemsShareOneList(Initial, lines);
    assert lines[..1] == [l1];
    var li1, li2 := ListItem(MatchListItem(l1).value), ListItem(MatchListItem(l2).value);
    assert ItemBlocks(lines) == [li1, li2];
    assert FlushParagraph(Initial).blocks == [];
    assert Run(Initial, lines).blocks == [] + [ListOpen] + [li1, li2];
    ThreeBlocks(ListOpen, li1, li2);
  }

  /** The blocks of two consecutive items: one `<ul>`, two `<li>`, and the
      `</ul>` the end of input adds. */
  lemma ListBlocks(l1: string, a: string, l2: string, b: string)
    requires IsPlainWord(a) && l1 == "- " + a
    requires IsPlainWord(b) && l2 == "- " + b
    ensures Finish(Run(Initial, [l1, l2])).blocks == [ListOpen, ListItem(a), ListItem(b), ListClose]
  {
    ItemOfWord(l1, a);
    ItemOfWord(l2, b);
    TwoItemBlocks(l1, l2);
  }

  /** Three singletons concatenated; proved apart, away from the run of the loop. */
  lemma ThreeBlocks(x: Block, y: Block, z: Block)
    ensures [] + [x] + [y, z] == [x, y, z]
  {
  }

  /** Two consecutive items share one `<ul>`, closed at the end of input:
      `- a` and `- b` render as `<ul>`, two `<li>` and `</ul>`. */
  lemma ListDocument(a: string, b: string)
    requires IsPlainWord(a) && IsPlainWord(b)
    ensures Render("- " + a + "\n" + "- " + b) == "<ul>\n<li>" + a + "</li>\n<li>" + b + "</li>\n</ul>"
  {
    var l1, l2 := "- " + a, "- " + b;
    PlainWordHasNoBreak(a);
    PlainWordHasNoBreak(b);
    JoinTwo(l1, l2, "\n");
    RenderLines([l1, l2]);
    ListBlocks(l1, a, l2, b);
    ListHtml(a, b);
    var li1, li2 := "<li>" + a + "</li>", "<li>" + b + "</li>";
    JoinFour("<ul>", li1, li2, "</ul>", "\n");
    var doc := "- " + a + "\n" + "- " + b;
    assert doc == l1 + "\n" + l2;
    ListText(a, b);
  }

  lemma ListHtml(a: string, b: string)
    requires IsPlainWord(a) && IsPlainWord(b)
    ensures Html([ListOpen, ListItem(a), ListItem(b), ListClose]) == ["<ul>", "<li>" + a + "</li>", "<li>" + b + "</li>", "</ul>"]
  {
    ListTagsHtml();
    ItemOfPlain(a);
    ItemOfPlain(b);
    HtmlFour(ListOpen, ListItem(a), ListItem(b), ListClose);
  }

  /** The expected list output regrouped at its `\n` separators; proved
      apart, since merging literals next to the render terms is costly. */
  lemma ListText(a: string, b: string)
    ensures "<ul>\n<li>" + a + "</li>\n<li>" + b + "</li>\n</ul>"
         == "<ul>" + "\n" + ("<li>" + a + "</li>") + "\n" + ("<li>" + b + "</li>") + "\n" + "</ul>"
  {
    assert "<ul>\n<li>" == "<ul>" + "\n" + "<li>";
    assert "</li>\n<li>" == "</li>" + "\n" + "<li>";
    assert "</li>\n</ul>" == "</li>" + "\n" + "</ul>";
  }

  /** A plain word that begins with neither `#` nor `-` is a plain line. */
  lemma PlainOfWord(s: string)
    requires IsPlainWord(s) && s[0] != '#' && s[0] != '-'
    ensures IsPlainLine(s) && Trim(s) == s
    ensures '\r' !in s && '\n' !in s
  {
    assert LeadingSpace(s) == 0;
    assert LeadingHashes(s) == 0;
    TrimOfTrimmed(s);
    PlainWordHasNoBreak(s);
  }

  /** The blocks of two plain lines: one paragraph, emitted at the end of
      input, whose text is the two lines joined by a space. */
  lemma ParagraphBlocks(a: string, b: string)
    requires IsPlainWord(a) && a[0] != '#' && a[0] != '-'
    requires IsPlainWord(b) && b[0] != '#' && b[0] != '-'
    ensures Finish(Run(Initial, [a, b])).blocks == [Paragraph(a + " " + b)]
  {
    var lines := [a, b];
    PlainOfWord(a);
    PlainOfWord(b);
    InitialInv();
    PlainLinesCollect(Initial, lines);
    PlainLinesMakeOneParagraph(Initial, lines);
    assert TrimLines(lines) == lines;
    JoinTwo(a, b, " ");
    var after := Run(Initial, lines);
    assert !after.inList && !after.inCode;
    assert Finish(after) == FlushParagraph(after);
    assert FlushParagraph(after).blocks == [] + [Paragraph(a + " " + b)];
  }

  /** The expected paragraph output regrouped; proved apart like `ListText`. */
  lemma ParagraphText(a: string, b: string)
    ensures "<p>" + (a + " " + b) + "</p>" == "<p>" + a + " " + b + "</p>"
  {
  }

  lemma ParagraphOfPlain(t: string)
    requires IsPlainWord(t)
    ensures BlockHtml(Paragraph(t)) == "<p>" + t + "</p>"
  {
    PlainWordRendersAsItself(t);
  }

  /** Two plain lines make one paragraph, joined by a space: `line one` and
      `line two` render as `<p>line one line two</p>`. */
  lemma ParagraphDocument(a: string, b: string)
    requires IsPlainWord(a) && a[0] != '#' && a[0] != '-'
    requires IsPlainWord(b) && b[0] != '#' && b[0] != '-'
    ensures Render(a + "\n" + b) == "<p>" + a + " " + b + "</p>"
  {
    PlainOfWord(a);
    PlainOfWord(b);
    JoinTwo(a, b, "\n");
    RenderLines([a, b]);
    ParagraphBlocks(a, b);
    HtmlOne(Paragraph(a + " " + b));
    PlainWordsJoin(a, b);
    ParagraphOfPlain(a + " " + b);
    ParagraphText(a, b);
    JoinOne("<p>" + a + " " + b + "</p>", "\n");
  }

  /** The blocks of one line between two fences: one `<pre><code>`. */
  lemma FenceBlocks(code: string)
    requires !IsFence(code)
    ensures Finish(Run(Initial, ["```", code, "```"])).blocks == [Code([code])]
  {
    InitialInv();
    FencedBlock(Initial, "```", [code], "```");
    assert ["```"] + [code] + ["```"] == ["```", code, "```"];
  }

  /** One line between two fences comes out escaped and nothing else is
      done to it: `code <here>` as `code &lt;here&gt;`, and `**bold**`
      stays as it is. */
  lemma FenceDocument(code: string)
    requires !IsFence(code) && '\r' !in code && '\n' !in code
    ensures Render("```\n" + code + "\n```") == "<pre><code>" + EscapeHtml(code) + "</code></pre>"
  {
    JoinThree("```", code, "```", "\n");
    RenderLines(["```", code, "```"]);
    FenceBlocks(code);
    HtmlOne(Code([code]));
    CodeOfLine(code);
    JoinOne(BlockHtml(Code([code])), "\n");
    FenceText(code);
  }

  lemma CodeOfLine(code: string)
    ensures BlockHtml(Code([code])) == "<pre><code>" + EscapeHtml(code) + "</code></pre>"
  {
    assert EscapeLines([code]) == [EscapeHtml(code)];
    JoinOne(EscapeHtml(code), "\n");
  }

  /** The fenced document regrouped at its `\n` separators; proved apart like `ListText`. */
  lemma FenceText(code: string)
    ensures "```\n" + code + "\n```" == "```" + "\n" + code + "\n" + "```"
  {
    assert "```\n" == "```" + "\n";
    assert "\n```" == "\n" + "```";
  }

  /** The blocks of a list item followed by a plain line: the paragraph is
      emitted before the list is closed. */
  lemma ListThenTextBlocks(l1: string, a: string, b: string)
    requires IsPlainWord(a) && l1 == "- " + a
    requires IsPlainWord(b) && b[0] != '#' && b[0] != '-'
    ensures Finish(Run(Initial, [l1, b])).blocks == [ListOpen, ListItem(a), Paragraph(b), ListClose]
  {
    ItemOfWord(l1, a);
    PlainOfWord(b);
    ItemThenPlainBlocks(l1, b);
  }

  /** A list item and then a plain line: the list is still open when the
      paragraph is flushed at the end of input, so the `<p>` comes before
      the `</ul>`. */
  lemma ItemThenPlainBlocks(l1: string, line: string)
    requires IsItemLine(l1) && IsPlainLine(line)
    ensures Finish(Run(Initial, [l1, line])).blocks
         == [ListOpen, ListItem(MatchListItem(l1).value), Paragraph(Trim(line)), ListClose]
  {
    var lines := [l1, line];
    ItemsShareOneList(Initial, [l1]);
    var li := ListItem(MatchListItem(l1).value);
    var item := Run(Initial, [l1]);
    assert [l1][..0] == [];
    assert item.blocks == [ListOpen, li];
    assert lines[..1] == [l1];
    StepPlain(item, line);
    var after := Run(Initial, lines);
    assert after == item.(paragraph := [Trim(line)]);
    TrimIdempotent(line);
    assert FlushParagraph(after).blocks == [ListOpen, li, Paragraph(Trim(line))];
  }

  /** A plain line right after a list item does not close the list: its
      paragraph is emitted when the input ends, before the `</ul>`. */
  lemma ListThenText(a: string, b: string)
    requires IsPlainWord(a)
    requires IsPlainWord(b) && b[0] != '#' && b[0] != '-'
    ensures Render("- " + a + "\n" + b) == "<ul>\n<li>" + a + "</li>\n<p>" + b + "</p>\n</ul>"
  {
    var l1 := "- " + a;
    PlainWordHasNoBreak(a);
    PlainWordHasNoBreak(b);
    JoinTwo(l1, b, "\n");
    RenderLines([l1, b]);
    ListThenTextBlocks(l1, a, b);
    ListThenTextHtml(a, b);
    JoinFour("<ul>", "<li>" + a + "</li>", "<p>" + b + "</p>", "</ul>", "\n");
    assert "- " + a + "\n" + b == l1 + "\n" + b;
    ListThenTextText(a, b);
  }

  lemma ListThenTextHtml(a: string, b: string)
    requires IsPlainWord(a) && IsPlainWord(b)
    ensures Html([ListOpen, ListItem(a), Paragraph(b), ListClose]) == ["<ul>", "<li>" + a + "</li>", "<p>" + b + "</p>", "</ul>"]
  {
    ListTagsHtml();
    ItemOfPlain(a);
    ParagraphOfPlain(b);
    HtmlFour(ListOpen, ListItem(a), Paragraph(b), ListClose);
  }

  /** The expected output of `ListThenText` regrouped; proved apart like `ListText`. */
  lemma ListThenTextText(a: string, b: string)
    ensures "<ul>\n<li>" + a + "</li>\n<p>" + b + "</p>\n</ul>"
         == "<ul>" + "\n" + ("<li>" + a + "</li>") + "\n" + ("<p>" + b + "</p>") + "\n" + "</ul>"
  {
    assert "<ul>\n<li>" == "<ul>" + "\n" + "<li>";
    assert "</li>\n<p>" == "</li>" + "\n" + "<p>";
    assert "</p>\n</ul>" == "</p>" + "\n" + "</ul>";
  }

  // ----------------------------------------------------- inline markup

  /** A plain word holds none of the characters that start a link or a span. */
  lemma PlainWordHasNoMarker(s: string)
    requires IsPlainWord(s)
    ensures '[' !in s && '`' !in s && '*' !in s
  {
  }

  /** One link after text without `[`, and no `[` after it: the link
      substitution changes that link only. */
  lemma LinkAfter(p: string, x: string, y: string, rest: string)
    requires '[' !in p && x != [] && ']' !in x && y != [] && ')' !in y && '[' !in rest
    ensures SubstituteLinks(p + ("[" + x + "](" + y + ")" + rest)) == p + ("<a href=\"" + y + "\">" + x + "</a>" + rest)
  {
    var link := "[" + x + "](" + y + ")" + rest;
    SubstituteLinksPrefix(p, link);
    SubstituteLinksAt(link, x, y, rest);
    SubstituteLinksIdentity(rest);
  }

  /** One span after text without the delimiter's first character, followed
      by text the span substitution leaves alone: the substitution changes
      that span only. */
  lemma SpanAfter(p: string, delim: string, tag: string, content: string, rest: string)
    requires delim != [] && delim[0] !in p && content != [] && delim[0] !in content
    requires SubstituteSpans(rest, delim, tag) == rest
    ensures SubstituteSpans(p + (delim + content + delim + rest), delim, tag)
         == p + ("<" + tag + ">" + content + "</" + tag + ">" + rest)
  {
    var span := delim + content + delim + rest;
    SubstituteSpansPrefix(p, span, delim, tag);
    SubstituteSpansAt(span, delim, tag, content, rest);
  }

  /** `**` occurs nowhere in ` and *i*.`: the bold pattern leaves it alone. */
  lemma ItalicIsNotBold(i: string)
    requires i != [] && '*' !in i
    ensures SubstituteSpans(" and " + ("*" + i + "*" + "."), "**", "strong") == " and " + ("*" + i + "*" + ".")
  {
    var s4 := "*" + i + "*" + ".";
    SubstituteSpansPrefix(" and ", s4, "**", "strong");
    NoDoubleStar(s4);
    SubstituteSpansSkip(s4, "**", "strong");
    assert s4[1..] == i + ("*" + ".");
    SubstituteSpansPrefix(i, "*" + ".", "**", "strong");
    NoDoubleStar("*" + ".");
    SubstituteSpansSkip("*" + ".", "**", "strong");
    assert ("*" + ".")[1..] == ".";
    SubstituteSpansIdentity(".", "**", "strong");
  }

  /** A text whose second character is not `*` does not start with `**`. */
  lemma NoDoubleStar(s: string)
    requires |s| >= 2 && s[1] != '*'
    ensures MatchSpan(s, "**") == None
  {
    assert s[..2][1] == s[1];
  }

  /** The `<code>`, `<strong>` and `<em>` tags the span passes build. */
  lemma CodeTags(z: string)
    ensures "<" + "code" + ">" + z + "</" + "code" + ">" == "<code>" + z + "</code>"
  {
    assert "<" + "code" + ">" == "<code>";
    assert "</" + "code" + ">" == "</code>";
  }

  lemma StrongTags(b: string)
    ensures "<" + "strong" + ">" + b + "</" + "strong" + ">" == "<strong>" + b + "</strong>"
  {
    assert "<" + "strong" + ">" == "<strong>";
    assert "</" + "strong" + ">" == "</strong>";
  }

  lemma EmTags(i: string)
    ensures "<" + "em" + ">" + i + "</" + "em" + ">" == "<em>" + i + "</em>"
  {
    assert "<" + "em" + ">" == "<em>";
    assert "</" + "em" + ">" == "</em>";
  }

  /** No `&`, `<`, `>`, `"` or `'` in the line `See [x](y) and `z` and **b**
      and *i*.` when its words have none. */
  lemma SampleHasNoMeta(x: string, y: string, z: string, b: string, i: string)
    requires IsPlainWord(x) && IsPlainWord(y) && IsPlainWord(z) && IsPlainWord(b) && IsPlainWord(i)
    ensures var raw := "See " + "[" + x + "](" + y + ")" + " and " + "`" + z + "`" + " and " + "**" + b + "**" + " and " + "*" + i + "*" + ".";
      forall k :: 0 <= k < |raw| ==> !IsMeta(raw[k])
  {
    forall c | IsMeta(c)
      ensures c !in "See " + "[" + x + "](" + y + ")" + " and " + "`" + z + "`" + " and " + "**" + b + "**" + " and " + "*" + i + "*" + "."
    {
      assert c !in x && c !in y && c !in z && c !in b && c !in i;
    }
  }

  /** The text after the link, the code span and the bold span of the line
      `See [x](y) and `z` and **b** and *i*.`. */
  function AfterBold(i: string): string
  {
    " and " + ("*" + i + "*" + ".")
  }

  function AfterCode(b: string, i: string): string
  {
    " and " + ("**" + b + "**" + AfterBold(i))
  }

  function AfterLink(z: string, b: string, i: string): string
  {
    " and " + ("`" + z + "`" + AfterCode(b, i))
  }

  /** The anchor the link pass makes of `[x](y)`. */
  function AnchorText(x: string, y: string): string
  {
    "<a href=\"" + y + "\">" + x + "</a>"
  }

  lemma SampleEscaped(x: string, y: string, z: string, b: string, i: string)
    requires IsPlainWord(x) && IsPlainWord(y) && IsPlainWord(z) && IsPlainWord(b) && IsPlainWord(i)
    ensures var raw := "See " + "[" + x + "](" + y + ")" + " and " + "`" + z + "`" + " and " + "**" + b + "**" + " and " + "*" + i + "*" + ".";
      EscapeHtml(raw) == raw
  {
    SampleHasNoMeta(x, y, z, b, i);
    EscapeHtmlIdentity("See " + "[" + x + "](" + y + ")" + " and " + "`" + z + "`" + " and " + "**" + b + "**" + " and " + "*" + i + "*" + ".");
  }

  lemma SampleLinks(x: string, y: string, z: string, b: string, i: string)
    requires IsPlainWord(x) && ']' !in x && IsPlainWord(y) && ')' !in y
    requires IsPlainWord(z) && IsPlainWord(b) && IsPlainWord(i)
    ensures SubstituteLinks("See " + "[" + x + "](" + y + ")" + " and " + "`" + z + "`" + " and " + "**" + b + "**" + " and " + "*" + i + "*" + ".")
         == "See " + (AnchorText(x, y) + AfterLink(z, b, i))
  {
    PlainWordHasNoMarker(z);
    PlainWordHasNoMarker(b);
    PlainWordHasNoMarker(i);
    assert "See " + "[" + x + "](" + y + ")" + " and " + "`" + z + "`" + " and " + "**" + b + "**" + " and " + "*" + i + "*" + "."
        == "See " + ("[" + x + "](" + y + ")" + AfterLink(z, b, i));
    LinkAfter("See ", x, y, AfterLink(z, b, i));
  }

  lemma SampleCode(x: string, y: string, z: string, b: string, i: string)
    requires IsPlainWord(x) && IsPlainWord(y) && IsPlainWord(z) && IsPlainWord(b) && IsPlainWord(i)
    ensures SubstituteSpans("See " + (AnchorText(x, y) + AfterLink(z, b, i)), "`", "code")
         == ("See " + AnchorText(x, y) + " and ") + ("<" + "code" + ">" + z + "</" + "code" + ">" + AfterCode(b, i))
  {
    PlainWordHasNoMarker(x);
    PlainWordHasNoMarker(y);
    PlainWordHasNoMarker(z);
    PlainWordHasNoMarker(b);
    PlainWordHasNoMarker(i);
    var p1 := "See " + AnchorText(x, y) + " and ";
    assert "See " + (AnchorText(x, y) + AfterLink(z, b, i)) == p1 + ("`" + z + "`" + AfterCode(b, i));
    SubstituteSpansIdentity(AfterCode(b, i), "`", "code");
    SpanAfter(p1, "`", "code", z, AfterCode(b, i));
  }

  lemma SampleBold(p1: string, z: string, b: string, i: string)
    requires '*' !in p1 && IsPlainWord(z) && IsPlainWord(b) && IsPlainWord(i)
    ensures SubstituteSpans(p1 + ("<" + "code" + ">" + z + "</" + "code" + ">" + AfterCode(b, i)), "**", "strong")
         == (p1 + ("<" + "code" + ">" + z + "</" + "code" + ">") + " and ")
          + ("<" + "strong" + ">" + b + "</" + "strong" + ">" + AfterBold(i))
  {
    PlainWordHasNoMarker(z);
    PlainWordHasNoMarker(b);
    PlainWordHasNoMarker(i);
    var p2 := p1 + ("<" + "code" + ">" + z + "</" + "code" + ">") + " and ";
    assert p1 + ("<" + "code" + ">" + z + "</" + "code" + ">" + AfterCode(b, i)) == p2 + ("**" + b + "**" + AfterBold(i));
    ItalicIsNotBold(i);
    SpanAfter(p2, "**", "strong", b, AfterBold(i));
  }

  lemma SampleItalic(p2: string, b: string, i: string)
    requires '*' !in p2 && IsPlainWord(b) && IsPlainWord(i)
    ensures SubstituteSpans(p2 + ("<" + "strong" + ">" + b + "</" + "strong" + ">" + AfterBold(i)), "*", "em")
         == (p2 + ("<" + "strong" + ">" + b + "</" + "strong" + ">") + " and ") + ("<" + "em" + ">" + i + "</" + "em" + ">" + ".")
  {
    PlainWordHasNoMarker(b);
    PlainWordHasNoMarker(i);
    var p3 := p2 + ("<" + "strong" + ">" + b + "</" + "strong" + ">") + " and ";
    assert p2 + ("<" + "strong" + ">" + b + "</" + "strong" + ">" + AfterBold(i)) == p3 + ("*" + i + "*" + ".");
    SubstituteSpansIdentity(".", "*", "em");
    SpanAfter(p3, "*", "em", i, ".");
  }

  /** The rendered text before the bold span holds no `*`. */
  lemma NoStarBeforeBold(x: string, y: string, z: string)
    requires '*' !in x && '*' !in y && '*' !in z
    ensures var p1 := "See " + AnchorText(x, y) + " and ";
      && '*' !in p1
      && '*' !in p1 + ("<" + "code" + ">" + z + "</" + "code" + ">") + " and "
  {
  }

  /** The rendered line, cut where the passes left it, read as one string. */
  lemma RenderedSample(x: string, y: string, z: string, b: string, i: string)
    ensures "See " + AnchorText(x, y) + " and " + ("<" + "code" + ">" + z + "</" + "code" + ">") + " and "
          + ("<" + "strong" + ">" + b + "</" + "strong" + ">") + " and " + ("<" + "em" + ">" + i + "</" + "em" + ">" + ".")
         == "See " + "<a href=\"" + y + "\">" + x + "</a>" + " and " + "<code>" + z + "</code>" + " and "
          + "<strong>" + b + "</strong>" + " and " + "<em>" + i + "</em>" + "."
  {
    CodeTags(z);
    StrongTags(b);
    EmTags(i);
  }

  /** `renderInline` on the line `See [x](y) and `z` and **b** and *i*.`:
      escaping leaves it alone, then the link, code, bold and italic passes
      each take their one match, in that order. */
  lemma InlineCombination(x: string, y: string, z: string, b: string, i: string)
    requires IsPlainWord(x) && ']' !in x && IsPlainWord(y) && ')' !in y
    requires IsPlainWord(z) && IsPlainWord(b) && IsPlainWord(i)
    ensures RenderInline("See " + "[" + x + "](" + y + ")" + " and " + "`" + z + "`" + " and " + "**" + b + "**" + " and " + "*" + i + "*" + ".")
         == "See " + "<a href=\"" + y + "\">" + x + "</a>" + " and " + "<code>" + z + "</code>" + " and "
          + "<strong>" + b + "</strong>" + " and " + "<em>" + i + "</em>" + "."
  {
    SampleEscaped(x, y, z, b, i);
    SampleLinks(x, y, z, b, i);
    SampleCode(x, y, z, b, i);
    var p1 := "See " + AnchorText(x, y) + " and ";
    var p2 := p1 + ("<" + "code" + ">" + z + "</" + "code" + ">") + " and ";
    PlainWordHasNoMarker(x);
    PlainWordHasNoMarker(y);
    PlainWordHasNoMarker(z);
    NoStarBeforeBold(x, y, z);
    SampleBold(p1, z, b, i);
    SampleItalic(p2, b, i);
    RenderedSample(x, y, z, b, i);
  }

  /** A document of one plain line, already trimmed, is one paragraph: the
      line rendered inline between `<p>` and `</p>`. */
  lemma OneLineParagraph(line: string)
    requires IsPlainLine(line) && Trim(line) == line && '\r' !in line && '\n' !in line
    ensures Render(line) == "<p>" + RenderInline(line) + "</p>"
  {
    JoinOne(line, "\n");
    RenderLines([line]);
    RunOne(Initial, line);
    StepPlain(Initial, line);
    var after := Run(Initial, [line]);
    assert after == Initial.(paragraph := [line]);
    JoinOne(line, " ");
    assert Finish(after).blocks == [Paragraph(line)];
    HtmlOne(Paragraph(line));
    JoinOne(BlockHtml(Paragraph(line)), "\n");
  }

  /** A line that starts with a character other than `\s`, `#`, `-` and a
      backtick, and does not end in `\s`, is a plain line and its own trim. */
  lemma PlainLineOf(s: string)
    requires s != [] && !IsSpace(s[0]) && s[0] != '#' && s[0] != '-' && s[0] != '`'
    requires !IsSpace(s[|s| - 1])
    ensures IsPlainLine(s) && Trim(s) == s
  {
    TrimOfTrimmed(s);
    assert LeadingHashes(s) == 0;
    assert LeadingSpace(s) == 0;
  }

  /** The line `See [x](y) and `z` and **b** and *i*.` is a plain line
      without a line break: it starts with `S` and ends with `.`. */
  lemma SampleIsPlainLine(x: string, y: string, z: string, b: string, i: string)
    requires IsPlainWord(x) && IsPlainWord(y) && IsPlainWord(z) && IsPlainWord(b) && IsPlainWord(i)
    ensures var raw := "See " + "[" + x + "](" + y + ")" + " and " + "`" + z + "`" + " and " + "**" + b + "**" + " and " + "*" + i + "*" + ".";
      && IsPlainLine(raw) && Trim(raw) == raw && '\r' !in raw && '\n' !in raw
  {
    var raw := "See " + "[" + x + "](" + y + ")" + " and " + "`" + z + "`" + " and " + "**" + b + "**" + " and " + "*" + i + "*" + ".";
    assert raw[0] == 'S' && raw[|raw| - 1] == '.';
    PlainLineOf(raw);
    SampleHasNoBreak(x, y, z, b, i);
  }

  lemma SampleHasNoBreak(x: string, y: string, z: string, b: string, i: string)
    requires IsPlainWord(x) && IsPlainWord(y) && IsPlainWord(z) && IsPlainWord(b) && IsPlainWord(i)
    ensures var raw := "See " + "[" + x + "](" + y + ")" + " and " + "`" + z + "`" + " and " + "**" + b + "**" + " and " + "*" + i + "*" + ".";
      '\r' !in raw && '\n' !in raw
  {
    PlainWordHasNoBreak(x);
    PlainWordHasNoBreak(y);
    PlainWordHasNoBreak(z);
    PlainWordHasNoBreak(b);
    PlainWordHasNoBreak(i);
  }

  /** The document `See [x](y) and `z` and **b** and *i*.` renders as one
      paragraph holding an anchor, a `<code>`, a `<strong>` and an `<em>`. */
  lemma InlineDocument(x: string, y: string, z: string, b: string, i: string)
    requires IsPlainWord(x) && ']' !in x && IsPlainWord(y) && ')' !in y
    requires IsPlainWord(z) && IsPlainWord(b) && IsPlainWord(i)
    ensures Render("See " + "[" + x + "](" + y + ")" + " and " + "`" + z + "`" + " and " + "**" + b + "**" + " and " + "*" + i + "*" + ".")
         == "<p>" + ("See " + "<a href=\"" + y + "\">" + x + "</a>" + " and " + "<code>" + z + "</code>" + " and "
          + "<strong>" + b + "</strong>" + " and " + "<em>" + i + "</em>" + ".") + "</p>"
  {
    SampleIsPlainLine(x, y, z, b, i);
    OneLineParagraph("See " + "[" + x + "](" + y + ")" + " and " + "`" + z + "`" + " and " + "**" + b + "**" + " and " + "*" + i + "*" + ".");
    InlineCombination(x, y, z, b, i);
  }
}
