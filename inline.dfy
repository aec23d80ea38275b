/**
  `renderInline`: escape the text, then apply four global substitutions in a
  fixed order, each to the result of the one before: links, code spans, bold,
  italic. Each global `replace` is a left-to-right scan that either matches
  its pattern at the current position (and resumes after the match) or copies
  one character; the scan is made explicit as a list of pieces.
 */
module Inline {
  import opened Wrappers
  import opened Strings
  import opened Escape

  // ---------------------------------------------------------------- links

  /** `s` begins with a link as /\[([^\]]+)\]\(([^)]+)\)/ matches one: a
      non-empty text without `]`, a non-empty url without `)`. */
  ghost predicate IsLinkAt(s: string, text: string, url: string, rest: string)
  {
    && text != [] && ']' !in text
    && url != [] && ')' !in url
    && s == "[" + text + "](" + url + ")" + rest
  }

  datatype LinkMatch = LinkMatch(text: string, url: string, rest: string)

  /** The link pattern tried at the start of `s`. */
  function MatchLink(s: string): (m: Option<LinkMatch>)
    ensures m.Some? ==> IsLinkAt(s, m.value.text, m.value.url, m.value.rest)
  {
    if s == [] || s[0] != '[' then None
    else
      // s[1 + t] is the first `]` after the `[`
      var t := Until(s[1..], ']');
      if t == 0 || 2 + t >= |s| || s[2 + t] != '(' then None
      else
        // s[3 + t + u] is the first `)` after the `(`
        var u := Until(s[3 + t..], ')');
        if u == 0 || 3 + t + u >= |s| then None
        else
          LinkSplit(s, t, u);
          Some(LinkMatch(s[1..1 + t], s[3 + t..3 + t + u], s[4 + t + u..]))
  }

  /** `s` cut around the brackets and parentheses of a link. */
  lemma LinkSplit(s: string, t: nat, u: nat)
    requires 4 + t + u <= |s|
    requires s[0] == '[' && s[1 + t] == ']' && s[2 + t] == '(' && s[3 + t + u] == ')'
    ensures s == "[" + s[1..1 + t] + "](" + s[3 + t..3 + t + u] + ")" + s[4 + t + u..]
  {
    assert s[..1] == "[";
    assert s[1 + t..3 + t] == "](";
    assert s[3 + t + u..4 + t + u] == ")";
    assert s == s[..1] + s[1..1 + t] + s[1 + t..3 + t] + s[3 + t..3 + t + u] + s[3 + t + u..4 + t + u] + s[4 + t + u..];
  }

  /** Wherever the pattern matches, `MatchLink` finds that match: the text and
      the url are determined by the first `]` and the first `)`. */
  lemma MatchLinkComplete(s: string, text: string, url: string, rest: string)
    requires IsLinkAt(s, text, url, rest)
    ensures MatchLink(s) == Some(LinkMatch(text, url, rest))
  {
    LinkGuards(s, text, url, rest);
    MatchLinkAt(s, |text|, |url|);
    LinkCaptures(s, text, url, rest);
  }

  /** The tests `MatchLink` makes, with the first `]` at `1 + t` and the
      first `)` after it at `3 + t + u`. */
  ghost predicate LinkGuardsHold(s: string, t: nat, u: nat)
  {
    && s != [] && s[0] == '['
    && Until(s[1..], ']') == t && t != 0 && 2 + t < |s| && s[2 + t] == '('
    && Until(s[3 + t..], ')') == u && u != 0 && 3 + t + u < |s|
  }

  /** Where the first `]` and the first `)` of a link are. */
  lemma LinkGuards(s: string, text: string, url: string, rest: string)
    requires IsLinkAt(s, text, url, rest)
    ensures LinkGuardsHold(s, |text|, |url|)
  {
    var t := |text|;
    assert s[1..] == text + [']'] + ("(" + url + ")" + rest);
    UntilSeparator(text, ']', "(" + url + ")" + rest);
    assert s[3 + t..] == url + [')'] + rest;
    UntilSeparator(url, ')', rest);
  }

  /** The parts of a link the groups capture. */
  lemma LinkCaptures(s: string, text: string, url: string, rest: string)
    requires IsLinkAt(s, text, url, rest)
    ensures var t, u := |text|, |url|;
      s[1..1 + t] == text && s[3 + t..3 + t + u] == url && s[4 + t + u..] == rest
  {
    var t, u := |text|, |url|;
    assert s[1..1 + t] == text;
    assert s[3 + t..3 + t + u] == url;
  }

  /** `MatchLink` where the first `]` and the first `)` are at given places. */
  lemma MatchLinkAt(s: string, t: nat, u: nat)
    requires LinkGuardsHold(s, t, u)
    ensures MatchLink(s) == Some(LinkMatch(s[1..1 + t], s[3 + t..3 + t + u], s[4 + t + u..]))
  {
  }

  /** A piece of the scan for links: a copied character or a matched link. */
  datatype LinkPiece = Unlinked(c: char) | Anchor(text: string, url: string)

  /** The text a piece was scanned from. */
  function LinkSource(pieces: seq<LinkPiece>): string
  {
    if pieces == [] then []
    else
      (match pieces[0]
       case Unlinked(c) => [c]
       case Anchor(text, url) => "[" + text + "](" + url + ")")
      + LinkSource(pieces[1..])
  }

  /** The source of a piece followed by more pieces. */
  lemma LinkSourceCons(p: LinkPiece, more: seq<LinkPiece>)
    ensures LinkSource([p] + more) == LinkSource([p]) + LinkSource(more)
  {
    assert ([p] + more)[1..] == more;
    assert [p][1..] == [];
  }

  /** What the pieces are replaced by: `<a href="$2">$1</a>` for each link. */
  function LinkHtml(pieces: seq<LinkPiece>): (html: string)
  {
    if pieces == [] then []
    else
      (match pieces[0]
       case Unlinked(c) => [c]
       case Anchor(text, url) => "<a href=\"" + url + "\">" + text + "</a>")
      + LinkHtml(pieces[1..])
  }

  /** The global scan for links: the pieces cover `s` exactly, in order, and
      every link piece is one the pattern matches. `LinkScanTakesEveryLink`
      adds that a character is copied only where no link starts. */
  function LinkPieces(s: string): (r: seq<LinkPiece>)
    ensures LinkSource(r) == s
    ensures forall k :: 0 <= k < |r| && r[k].Anchor? ==>
      r[k].text != [] && ']' !in r[k].text && r[k].url != [] && ')' !in r[k].url
    decreases |s|
  {
    if s == [] then []
    else match MatchLink(s)
      case Some(m) =>
        var tail := LinkPieces(m.rest);
        LinkSourceCons(Anchor(m.text, m.url), tail);
        [Anchor(m.text, m.url)] + tail
      case None =>
        var tail := LinkPieces(s[1..]);
        LinkSourceCons(Unlinked(s[0]), tail);
        [Unlinked(s[0])] + tail
  }

  /** The link scan copies a character only where the pattern does not match
      the text from there on: with `MatchLinkComplete`, every link the scan
      reaches is taken. */
  lemma {:induction false} LinkScanTakesEveryLink(s: string)
    ensures var r := LinkPieces(s);
      forall k :: 0 <= k < |r| && r[k].Unlinked? ==> MatchLink(LinkSource(r[k..])) == None
    decreases |s|
  {
    if s != [] {
      var r := LinkPieces(s);
      match MatchLink(s)
      case Some(m) =>
        LinkScanTakesEveryLink(m.rest);
        assert forall k :: 1 <= k < |r| ==> r[k..] == LinkPieces(m.rest)[k - 1..];
      case None =>
        LinkScanTakesEveryLink(s[1..]);
        assert r[0..] == r;
        assert forall k :: 1 <= k < |r| ==> r[k..] == LinkPieces(s[1..])[k - 1..];
    }
  }

  /** The global link substitution: every link the scan finds becomes an
      anchor whose `href` is the url and whose content is the text. */
  function SubstituteLinks(s: string): (r: string)
  {
    LinkHtml(LinkPieces(s))
  }

  // ------------------------------------------------ code, bold and italic

  // `s` begins with `delim`, a non-empty content free of `delim[0]`, and
  // `delim` again: what /`([^`]+)`/, /\*\*([^*]+)\*\*/ and /\*([^*]+)\*/
  // match, for `delim` the backtick, `**` and `*`.
  ghost predicate IsSpanAt(s: string, delim: string, content: string, rest: string)
  {
    && delim != []
    && content != [] && delim[0] !in content
    && s == delim + content + delim + rest
  }

  datatype SpanMatch = SpanMatch(content: string, rest: string)

  /** The span pattern for `delim` tried at the start of `s`. */
  function MatchSpan(s: string, delim: string): (m: Option<SpanMatch>)
    requires delim != []
    ensures m.Some? ==> IsSpanAt(s, delim, m.value.content, m.value.rest)
  {
    if !(delim <= s) then None
    else
      var d := |delim|;
      // s[d + n] is the first occurrence of delim[0] after the opening delimiter
      var n := Until(s[d..], delim[0]);
      if n == 0 || !(delim <= s[d + n..]) then None
      else
        var m := SpanMatch(s[d..d + n], s[d + n + d..]);
        assert s == delim + m.content + delim + m.rest;
        Some(m)
  }

  /** Wherever the pattern matches, `MatchSpan` finds that match. */
  lemma MatchSpanComplete(s: string, delim: string, content: string, rest: string)
    requires IsSpanAt(s, delim, content, rest)
    ensures MatchSpan(s, delim) == Some(SpanMatch(content, rest))
  {
    SpanGuards(s, delim, content, rest);
    SpanCaptures(s, delim, content, rest);
    MatchSpanAt(s, delim, content, rest);
  }

  /** The tests `MatchSpan` makes, with the first `delim[0]` after the
      opening delimiter at `|delim| + n`. */
  ghost predicate SpanGuardsHold(s: string, delim: string, n: nat)
    requires delim != []
  {
    && delim <= s
    && Until(s[|delim|..], delim[0]) == n && n != 0
    && delim <= s[|delim| + n..]
  }

  /** Where the closing delimiter of a span is. */
  lemma SpanGuards(s: string, delim: string, content: string, rest: string)
    requires IsSpanAt(s, delim, content, rest)
    ensures SpanGuardsHold(s, delim, |content|)
  {
    var d, n := |delim|, |content|;
    assert s[..d] == delim;
    assert s[d..] == content + [delim[0]] + (delim[1..] + rest);
    UntilSeparator(content, delim[0], delim[1..] + rest);
    assert s[d + n..] == delim + rest;
  }

  /** `MatchSpan` where the closing delimiter is at a given place, with the
      content and the rest it then reports. */
  lemma MatchSpanAt(s: string, delim: string, content: string, rest: string)
    requires delim != [] && SpanGuardsHold(s, delim, |content|)
    requires s[|delim|..|delim| + |content|] == content
    requires s[|delim| + |content| + |delim|..] == rest
    ensures MatchSpan(s, delim) == Some(SpanMatch(content, rest))
  {
    var m := MatchSpan(s, delim);
    assert m == Some(SpanMatch(s[|delim|..|delim| + |content|], s[|delim| + |content| + |delim|..]));
  }

  /** The parts of a span the group captures. */
  lemma SpanCaptures(s: string, delim: string, content: string, rest: string)
    requires IsSpanAt(s, delim, content, rest)
    ensures s[|delim|..|delim| + |content|] == content
    ensures s[|delim| + |content| + |delim|..] == rest
  {
    var d, n := |delim|, |content|;
    assert s[d..d + n] == content;
  }

  /** A piece of the scan for one span pattern. */
  datatype SpanPiece = Unmarked(c: char) | Marked(content: string)

  function SpanSource(pieces: seq<SpanPiece>, delim: string): string
  {
    if pieces == [] then []
    else
      (match pieces[0]
       case Unmarked(c) => [c]
       case Marked(content) => delim + content + delim)
      + SpanSource(pieces[1..], delim)
  }

  /** What the pieces are replaced by: `<tag>$1</tag>` for each span. */
  function SpanHtml(pieces: seq<SpanPiece>, tag: string): (html: string)
  {
    if pieces == [] then []
    else
      (match pieces[0]
       case Unmarked(c) => [c]
       case Marked(content) => "<" + tag + ">" + content + "</" + tag + ">")
      + SpanHtml(pieces[1..], tag)
  }

  /** The global scan for one span pattern: the pieces cover `s` exactly, in
      order, and every marked piece is one the pattern matches.
      `SpanScanTakesEverySpan` adds that a character is copied only where no
      span starts. */
  function SpanPieces(s: string, delim: string): (r: seq<SpanPiece>)
    requires delim != []
    ensures SpanSource(r, delim) == s
    ensures forall k :: 0 <= k < |r| && r[k].Marked? ==>
      r[k].content != [] && delim[0] !in r[k].content
    decreases |s|
  {
    if s == [] then []
    else match MatchSpan(s, delim)
      case Some(m) => [Marked(m.content)] + SpanPieces(m.rest, delim)
      case None => [Unmarked(s[0])] + SpanPieces(s[1..], delim)
  }

  /** The span scan copies a character only where the pattern does not match
      the text from there on: with `MatchSpanComplete`, every span the scan
      reaches is taken. */
  lemma {:induction false} SpanScanTakesEverySpan(s: string, delim: string)
    requires delim != []
    ensures var r := SpanPieces(s, delim);
      forall k :: 0 <= k < |r| && r[k].Unmarked? ==> MatchSpan(SpanSource(r[k..], delim), delim) == None
    decreases |s|
  {
    if s != [] {
      var r := SpanPieces(s, delim);
      match MatchSpan(s, delim)
      case Some(m) =>
        SpanScanTakesEverySpan(m.rest, delim);
        assert forall k :: 1 <= k < |r| ==> r[k..] == SpanPieces(m.rest, delim)[k - 1..];
      case None =>
        SpanScanTakesEverySpan(s[1..], delim);
        assert r[0..] == r;
        assert forall k :: 1 <= k < |r| ==> r[k..] == SpanPieces(s[1..], delim)[k - 1..];
    }
  }

  /** The global span substitution for the delimiter `delim`: every span the
      scan finds becomes its content between `<tag>` and `</tag>`. */
  function SubstituteSpans(s: string, delim: string, tag: string): (r: string)
    requires delim != []
  {
    SpanHtml(SpanPieces(s, delim), tag)
  }

  // ------------------------------------------------------------ renderInline

  /** `renderInline(raw)`: escape, then links, code spans, bold, italic. */
  function RenderInline(raw: string): (r: string)
  {
    var value := EscapeHtml(raw);
    var linked := SubstituteLinks(value);
    var coded := SubstituteSpans(linked, "`", "code");
    var bold := SubstituteSpans(coded, "**", "strong");
    SubstituteSpans(bold, "*", "em")
  }

  // ------------------------------------------------------------ properties

  /** A character that occurs in no entity and not in `s` does not occur in
      `escapeHtml(s)` either. */
  lemma {:induction false} EscapeAddsOnlyEntityChars(s: string, c: char)
    requires c !in s && c !in "&amp;&lt;&gt;&quot;&#39;"
    ensures c !in EscapeHtml(s)
  {
    EscapeHtmlIsPerChar(s);
    EscapeEachAvoids(s, c);
  }

  lemma {:induction false} EscapeEachAvoids(s: string, c: char)
    requires c !in s && c !in "&amp;&lt;&gt;&quot;&#39;"
    ensures c !in EscapeEach(s)
  {
    if s != [] {
      EscapeEachAvoids(s[1..], c);
      assert c !in EscapeChar(s[0]);
    }
  }

  /** Without a `[` there is nothing for the link pattern to match. */
  lemma {:induction false} SubstituteLinksIdentity(s: string)
    requires '[' !in s
    ensures SubstituteLinks(s) == s
  {
    if s != [] {
      assert MatchLink(s) == None;
      assert LinkPieces(s) == [Unlinked(s[0])] + LinkPieces(s[1..]);
      assert LinkPieces(s)[1..] == LinkPieces(s[1..]);
      SubstituteLinksIdentity(s[1..]);
    }
  }

  /** Without the delimiter's first character there is nothing for a span
      pattern to match. */
  lemma {:induction false} SubstituteSpansIdentity(s: string, delim: string, tag: string)
    requires delim != [] && delim[0] !in s
    ensures SubstituteSpans(s, delim, tag) == s
  {
    if s != [] {
      assert !(delim <= s);
      assert SpanPieces(s, delim) == [Unmarked(s[0])] + SpanPieces(s[1..], delim);
      assert SpanPieces(s, delim)[1..] == SpanPieces(s[1..], delim);
      SubstituteSpansIdentity(s[1..], delim, tag);
    }
  }

  /** Where the link pattern matches, the link substitution replaces the
      link by its anchor and carries on after it. */
  lemma SubstituteLinksAt(s: string, text: string, url: string, rest: string)
    requires IsLinkAt(s, text, url, rest)
    ensures SubstituteLinks(s) == "<a href=\"" + url + "\">" + text + "</a>" + SubstituteLinks(rest)
  {
    MatchLinkComplete(s, text, url, rest);
    var p := LinkPieces(s);
    assert p == [Anchor(text, url)] + LinkPieces(rest);
    assert p[1..] == LinkPieces(rest);
  }

  /** Where the link pattern does not match, the link substitution keeps the
      first character and carries on after it. */
  lemma SubstituteLinksSkip(s: string)
    requires s != [] && MatchLink(s) == None
    ensures SubstituteLinks(s) == [s[0]] + SubstituteLinks(s[1..])
  {
    var p := LinkPieces(s);
    assert p == [Unlinked(s[0])] + LinkPieces(s[1..]);
    assert p[1..] == LinkPieces(s[1..]);
  }

  /** A prefix without `[` is copied through and the scan resumes after it. */
  lemma {:induction false} SubstituteLinksPrefix(a: string, b: string)
    requires '[' !in a
    ensures SubstituteLinks(a + b) == a + SubstituteLinks(b)
    decreases |a|
  {
    if a == [] {
      assert a + b == b;
    } else {
      var s, c, a1 := a + b, a[0], a[1..];
      assert s == [c] + (a1 + b);
      SubstituteLinksCons(s, c, a1 + b);
      SubstituteLinksPrefix(a1, b);
      Regroup(a, SubstituteLinks(b));
    }
  }

  /** Putting the first character back in front of the rest. */
  lemma Regroup(a: string, x: string)
    requires a != []
    ensures [a[0]] + (a[1..] + x) == a + x
  {
    assert [a[0]] + a[1..] == a;
  }

  /** `SubstituteLinksSkip` for a text given as its first character and the
      rest. */
  lemma SubstituteLinksCons(s: string, c: char, rest: string)
    requires s == [c] + rest && c != '['
    ensures SubstituteLinks(s) == [c] + SubstituteLinks(rest)
  {
    assert s[1..] == rest;
    SubstituteLinksSkip(s);
  }

  /** Where a span pattern matches, its substitution replaces the span by
      its content between the tags and carries on after it. */
  lemma SubstituteSpansAt(s: string, delim: string, tag: string, content: string, rest: string)
    requires IsSpanAt(s, delim, content, rest)
    ensures SubstituteSpans(s, delim, tag) == "<" + tag + ">" + content + "</" + tag + ">" + SubstituteSpans(rest, delim, tag)
  {
    MatchSpanComplete(s, delim, content, rest);
    var p := SpanPieces(s, delim);
    assert p == [Marked(content)] + SpanPieces(rest, delim);
    assert p[1..] == SpanPieces(rest, delim);
  }

  /** Where a span pattern does not match, its substitution keeps the first
      character and carries on after it. */
  lemma SubstituteSpansSkip(s: string, delim: string, tag: string)
    requires delim != [] && s != [] && MatchSpan(s, delim) == None
    ensures SubstituteSpans(s, delim, tag) == [s[0]] + SubstituteSpans(s[1..], delim, tag)
  {
    var p := SpanPieces(s, delim);
    assert p == [Unmarked(s[0])] + SpanPieces(s[1..], delim);
    assert p[1..] == SpanPieces(s[1..], delim);
  }

  /** A prefix without the delimiter's first character is copied through and
      the scan resumes after it. */
  lemma {:induction false} SubstituteSpansPrefix(a: string, b: string, delim: string, tag: string)
    requires delim != [] && delim[0] !in a
    ensures SubstituteSpans(a + b, delim, tag) == a + SubstituteSpans(b, delim, tag)
  {
    if a == [] {
      assert a + b == b;
    } else {
      assert (a + b)[0] == a[0];
      assert !(delim <= a + b);
      SubstituteSpansSkip(a + b, delim, tag);
      assert (a + b)[1..] == a[1..] + b;
      SubstituteSpansPrefix(a[1..], b, delim, tag);
      Regroup(a, SubstituteSpans(b, delim, tag));
    }
  }

  /** Text with no `[`, backtick or `*` comes out of `renderInline` exactly as
      `escapeHtml` leaves it: no substitution applies. */
  lemma PlainTextIsEscaped(raw: string)
    requires '[' !in raw && '`' !in raw && '*' !in raw
    ensures RenderInline(raw) == EscapeHtml(raw)
  {
    var value := EscapeHtml(raw);
    EscapeAddsOnlyEntityChars(raw, '[');
    EscapeAddsOnlyEntityChars(raw, '`');
    EscapeAddsOnlyEntityChars(raw, '*');
    SubstituteLinksIdentity(value);
    SubstituteSpansIdentity(value, "`", "code");
    SubstituteSpansIdentity(value, "**", "strong");
    SubstituteSpansIdentity(value, "*", "em");
  }

  /** A character absent from the scanned text is absent from every link's
      text and url. */
  lemma {:induction false} LinkPartsAvoid(pieces: seq<LinkPiece>, c: char)
    requires c !in LinkSource(pieces)
    ensures forall k :: 0 <= k < |pieces| && pieces[k].Anchor? ==>
      c !in pieces[k].text && c !in pieces[k].url
  {
    if pieces != [] {
      LinkPartsAvoid(pieces[1..], c);
      forall k | 1 <= k < |pieces| && pieces[k].Anchor?
        ensures c !in pieces[k].text && c !in pieces[k].url
      {
        assert pieces[k] == pieces[1..][k - 1];
      }
    }
  }

  /** Escaping runs before the link substitution, so no link found in
      `renderInline`'s input has `"`, `<` or `>` in its url or its text:
      the generated `href="..."` cannot be closed early. */
  lemma LinksOfEscapedTextAreSafe(raw: string)
    ensures forall k :: 0 <= k < |LinkPieces(EscapeHtml(raw))| && LinkPieces(EscapeHtml(raw))[k].Anchor? ==>
      var a := LinkPieces(EscapeHtml(raw))[k];
      && a.url != [] && '"' !in a.url && '<' !in a.url && '>' !in a.url && ')' !in a.url
      && a.text != [] && '"' !in a.text && '<' !in a.text && '>' !in a.text && ']' !in a.text
  {
    var value := EscapeHtml(raw);
    EscapeHtmlHasNoMarkup(raw);
    var pieces := LinkPieces(value);
    LinkPartsAvoid(pieces, '"');
    LinkPartsAvoid(pieces, '<');
    LinkPartsAvoid(pieces, '>');
  }

  /** Number of links the scan found. */
  function AnchorCount(pieces: seq<LinkPiece>): nat
  {
    if pieces == [] then 0 else (if pieces[0].Anchor? then 1 else 0) + AnchorCount(pieces[1..])
  }

  /** Each link substitution adds exactly two `"`, around the url. */
  lemma {:induction false} LinkHtmlQuotes(pieces: seq<LinkPiece>)
    ensures Count(LinkHtml(pieces), '"') == Count(LinkSource(pieces), '"') + 2 * AnchorCount(pieces)
  {
    if pieces != [] {
      LinkHtmlQuotes(pieces[1..]);
      match pieces[0]
      case Unlinked(c) =>
        CountAppend([c], LinkHtml(pieces[1..]), '"');
        CountAppend([c], LinkSource(pieces[1..]), '"');
      case Anchor(text, url) =>
        CountAppend("<a href=\"" + url + "\">" + text + "</a>", LinkHtml(pieces[1..]), '"');
        CountAppend("[" + text + "](" + url + ")", LinkSource(pieces[1..]), '"');
        AnchorQuotes(text, url);
    }
  }

  /** One anchor holds two `"` more than the link it replaces. */
  lemma AnchorQuotes(text: string, url: string)
    ensures Count("<a href=\"" + url + "\">" + text + "</a>", '"') == Count("[" + text + "](" + url + ")", '"') + 2
  {
    AnchorTagQuotes(text, url);
    LinkSyntaxQuotes(text, url);
  }

  lemma AnchorTagQuotes(text: string, url: string)
    ensures Count("<a href=\"" + url + "\">" + text + "</a>", '"') == Count(url, '"') + Count(text, '"') + 2
  {
    CountAppend("<a href=\"" + url + "\">" + text, "</a>", '"');
    CountAppend("<a href=\"" + url + "\">", text, '"');
    CountAppend("<a href=\"" + url, "\">", '"');
    CountAppend("<a href=\"", url, '"');
  }

  lemma LinkSyntaxQuotes(text: string, url: string)
    ensures Count("[" + text + "](" + url + ")", '"') == Count(text, '"') + Count(url, '"')
  {
    CountAppend("[" + text + "](" + url, ")", '"');
    CountAppend("[" + text + "](", url, '"');
    CountAppend("[" + text, "](", '"');
    CountAppend("[", text, '"');
  }

  /** A span substitution neither adds nor removes `"` when neither its
      delimiter nor its tag contains one. */
  lemma {:induction false} SpanHtmlQuotes(pieces: seq<SpanPiece>, delim: string, tag: string)
    requires '"' !in delim && '"' !in tag
    ensures Count(SpanHtml(pieces, tag), '"') == Count(SpanSource(pieces, delim), '"')
  {
    if pieces != [] {
      SpanHtmlQuotes(pieces[1..], delim, tag);
      match pieces[0]
      case Unmarked(c) =>
        CountAppend([c], SpanHtml(pieces[1..], tag), '"');
        CountAppend([c], SpanSource(pieces[1..], delim), '"');
      case Marked(content) =>
        CountAppend("<" + tag + ">" + content + "</" + tag + ">", SpanHtml(pieces[1..], tag), '"');
        CountAppend(delim + content + delim, SpanSource(pieces[1..], delim), '"');
        CountAppend("<" + tag + ">" + content + "</" + tag, ">", '"');
        CountAppend("<" + tag + ">" + content + "</", tag, '"');
        CountAppend("<" + tag + ">" + content, "</", '"');
        CountAppend("<" + tag + ">", content, '"');
        CountAppend("<" + tag, ">", '"');
        CountAppend("<", tag, '"');
        CountAppend(delim + content, delim, '"');
        CountAppend(delim, content, '"');
    }
  }

  lemma SubstituteSpansQuotes(s: string, delim: string, tag: string)
    requires delim != [] && '"' !in delim && '"' !in tag
    ensures Count(SubstituteSpans(s, delim, tag), '"') == Count(s, '"')
  {
    SpanHtmlQuotes(SpanPieces(s, delim), delim, tag);
  }

  /** No `"` in the output of `escapeHtml`. */
  lemma EscapedHasNoQuote(raw: string)
    ensures Count(EscapeHtml(raw), '"') == 0
  {
    EscapeHtmlIsPerChar(raw);
  }

  /** The code, bold and italic substitutions together keep the `"` count. */
  lemma SpansKeepQuotes(linked: string)
    ensures Count(SubstituteSpans(SubstituteSpans(SubstituteSpans(linked, "`", "code"), "**", "strong"), "*", "em"), '"')
         == Count(linked, '"')
  {
    var coded := SubstituteSpans(linked, "`", "code");
    SubstituteSpansQuotes(linked, "`", "code");
    var bold := SubstituteSpans(coded, "**", "strong");
    SubstituteSpansQuotes(coded, "**", "strong");
    SubstituteSpansQuotes(bold, "*", "em");
  }

  /** The only `"` characters in a rendered line are the two around each
      generated `href` value. */
  lemma QuotesOnlyDelimitHrefs(raw: string)
    ensures Count(RenderInline(raw), '"') == 2 * AnchorCount(LinkPieces(EscapeHtml(raw)))
  {
    var value := EscapeHtml(raw);
    EscapedHasNoQuote(raw);
    LinkHtmlQuotes(LinkPieces(value));
    SpansKeepQuotes(SubstituteLinks(value));
  }
}
