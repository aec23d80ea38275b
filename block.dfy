/**
  `renderMarkdown` as a state machine: the state its closures share (`html`,
  `paragraph`, `inList`, `inCode`, `codeLines`), what each closure and each
  line does to it, and the whole render as a fold over the lines. The
  imperative renderer in module Renderer is proved to compute `Render`.
 */
module Block {
  import opened Wrappers
  import opened Strings
  import opened Escape
  import opened Inline

  // ------------------------------------------------------ line patterns

  /** A fence: the line starts with three backticks, whatever follows. */
  predicate IsFence(line: string)
  {
    "```" <= line
  }

  /** A blank line: nothing is left of it once trimmed. */
  predicate IsBlank(line: string)
  {
    Trim(line) == []
  }

  /** Number of leading `#` characters of `s`. */
  function LeadingHashes(s: string): (n: nat)
    ensures n <= |s|
    ensures forall k :: 0 <= k < n ==> s[k] == '#'
    ensures n < |s| ==> s[n] != '#'
  {
    if s != [] && s[0] == '#' then 1 + LeadingHashes(s[1..]) else 0
  }

  predicate NoLineTerminator(s: string)
  {
    forall k :: 0 <= k < |s| ==> !IsLineTerminator(s[k])
  }

  /** `s` matches /\s+(.+)$/ with the `\s+` part `s[..w]` and the group `s[w..]`. */
  ghost predicate IsTailSplit(s: string, w: nat)
  {
    && 1 <= w < |s|
    && (forall k :: 0 <= k < w ==> IsSpace(s[k]))
    && NoLineTerminator(s[w..])
  }

  /** Where the group of /\s+(.+)$/ starts in `s`, matched against all of `s`.
      The greedy `\s+` takes the longest run of `\s` it can: when that run
      reaches the end of `s`, it gives its last character back to `(.+)`. */
  function TailStart(s: string): (r: Option<nat>)
    ensures r.Some? ==> IsTailSplit(s, r.value)
    ensures r.Some? ==> forall w: nat :: IsTailSplit(s, w) ==> w <= r.value
    ensures r.None? ==> forall w: nat :: !IsTailSplit(s, w)
  {
    var m := LeadingSpace(s);
    TailWithinSpace(s);
    if m == 0 then None
    else if m < |s| then
      if NoLineTerminator(s[m..]) then Some(m)
      else
        TailMeetsTerminator(s);
        None
    else if m >= 2 && !IsLineTerminator(s[m - 1]) then Some(m - 1)
    else
      TailAllSpace(s);
      None
  }

  /** The `\s+` part of a split never goes past the leading `\s` run. */
  lemma TailWithinSpace(s: string)
    ensures forall w: nat :: IsTailSplit(s, w) ==> w <= LeadingSpace(s)
  {
  }

  /** A line terminator after the leading `\s` run leaves no split. */
  lemma TailMeetsTerminator(s: string)
    requires LeadingSpace(s) < |s| && !NoLineTerminator(s[LeadingSpace(s)..])
    ensures forall w: nat :: !IsTailSplit(s, w)
  {
    TailWithinSpace(s);
  }

  /** A string of `\s` only has a split only when its last character can be
      the group, which needs at least two characters. */
  lemma TailAllSpace(s: string)
    requires LeadingSpace(s) == |s|
    requires !(|s| >= 2 && !IsLineTerminator(s[|s| - 1]))
    ensures forall w: nat :: !IsTailSplit(s, w)
  {
  }

  datatype HeadingMatch = HeadingMatch(level: nat, text: string)

  /** `line` matches /^(#{1,6})\s+(.+)$/ with `k` hashes and `w` characters of
      `\s+`. */
  ghost predicate IsHeadingSplit(line: string, k: nat, w: nat)
  {
    && 1 <= k <= 6 && k <= |line|
    && (forall i :: 0 <= i < k ==> line[i] == '#')
    && IsTailSplit(line[k..], w)
  }

  /** The heading pattern applied to `line`: the number of hashes and the
      captured text. The `#{1,6}` must take every leading `#`, since `\s`
      cannot match a `#`. */
  function MatchHeading(line: string): (r: Option<HeadingMatch>)
    ensures r.Some? ==> 1 <= r.value.level <= 6
    ensures r.Some? ==> exists w :: IsHeadingSplit(line, r.value.level, w) && r.value.text == line[r.value.level + w..]
  {
    var n := LeadingHashes(line);
    if n < 1 || n > 6 then None
    else match TailStart(line[n..])
      case Some(w) =>
        assert IsHeadingSplit(line, n, w);
        Some(HeadingMatch(n, line[n + w..]))
      case None => None
  }

  /** Every way the heading pattern can match `line` has the level
      `MatchHeading` reports, and `MatchHeading` takes the longest `\s+`. */
  lemma MatchHeadingComplete(line: string, k: nat, w: nat)
    requires IsHeadingSplit(line, k, w)
    ensures MatchHeading(line).Some?
    ensures MatchHeading(line).value.level == k
    ensures |MatchHeading(line).value.text| <= |line| - k - w
  {
    assert line[k] == line[k..][0];
    assert IsSpace(line[k]);
    assert LeadingHashes(line) == k;
  }

  /** Seven leading `#` never make a heading. */
  lemma SevenHashesNoHeading(line: string)
    requires |line| >= 7 && forall i :: 0 <= i < 7 ==> line[i] == '#'
    ensures MatchHeading(line) == None
  {
    assert LeadingHashes(line) >= 7;
  }

  /** `line` matches /^\s*-\s+(.+)$/ with `p` characters of `\s*` and `w` of `\s+`. */
  ghost predicate IsListItemSplit(line: string, p: nat, w: nat)
  {
    && p < |line|
    && (forall i :: 0 <= i < p ==> IsSpace(line[i]))
    && line[p] == '-'
    && IsTailSplit(line[p + 1..], w)
  }

  /** The list-item pattern applied to `line`: the captured text. The `\s*`
      must take all the leading `\s`, since `-` is not one. */
  function MatchListItem(line: string): (r: Option<string>)
    ensures r.Some? ==> exists w :: IsListItemSplit(line, LeadingSpace(line), w) && r.value == line[LeadingSpace(line) + 1 + w..]
  {
    var p := LeadingSpace(line);
    if p < |line| && line[p] == '-' then
      match TailStart(line[p + 1..])
      case Some(w) =>
        assert IsListItemSplit(line, p, w);
        Some(line[p + 1 + w..])
      case None => None
    else None
  }

  /** Every way the list pattern can match `line` is found by `MatchListItem`. */
  lemma MatchListItemComplete(line: string, p: nat, w: nat)
    requires IsListItemSplit(line, p, w)
    ensures MatchListItem(line).Some?
  {
    assert !IsSpace(line[p]);
    assert LeadingSpace(line) == p;
  }

  // -------------------------------------------------------------- blocks

  /** A heading level: the number of leading `#`. */
  type Level = n: nat | 1 <= n <= 6 witness 1

  /** What one `html.push` pushes, before it is spelled out as HTML. */
  datatype Block =
    | Paragraph(text: string)
    | Heading(level: Level, text: string)
    | ListOpen
    | ListItem(text: string)
    | ListClose
    | Code(lines: seq<string>)

  /** `escapeHtml` applied to each line: no escaped line holds markup, and
      decoding it gives the line back. */
  function EscapeLines(lines: seq<string>): (r: seq<string>)
    ensures |r| == |lines|
    ensures forall k :: 0 <= k < |lines| ==> r[k] == EscapeHtml(lines[k]) && EscapedLineDecodes(lines[k])
  {
    EscapedLinesDecode(lines);
    seq(|lines|, k requires 0 <= k < |lines| => EscapeHtml(lines[k]))
  }

  lemma EscapedLinesDecode(lines: seq<string>)
    ensures forall k :: 0 <= k < |lines| ==> EscapedLineDecodes(lines[k])
  {
    forall k | 0 <= k < |lines|
      ensures EscapedLineDecodes(lines[k])
    {
      EscapeHtmlHasNoMarkup(lines[k]);
      UnescapeEscape(lines[k]);
    }
  }

  /** The escape of `s` holds no markup and decodes back to `s`. */
  predicate EscapedLineDecodes(s: string)
  {
    var e := EscapeHtml(s);
    '<' !in e && '>' !in e && '"' !in e && '\'' !in e && UnescapeHtml(e) == s
  }

  /** The string `html.push` pushes for each block: the paragraph text, the
      trimmed heading and item texts rendered inline, the code lines escaped
      and joined by newlines. */
  function BlockHtml(b: Block): (h: string)
  {
    match b
    case Paragraph(text) => "<p>" + RenderInline(text) + "</p>"
    case Heading(level, text) =>
      var n := "0123456789"[level];
      "<h" + [n] + ">" + RenderInline(Trim(text)) + "</h" + [n] + ">"
    case ListOpen => "<ul>"
    case ListItem(text) => "<li>" + RenderInline(Trim(text)) + "</li>"
    case ListClose => "</ul>"
    case Code(lines) => "<pre><code>" + Join(EscapeLines(lines), "\n") + "</code></pre>"
  }

  /** The strings pushed for `blocks`, in order. */
  function Html(blocks: seq<Block>): (r: seq<string>)
    ensures |r| == |blocks|
  {
    if blocks == [] then [] else Html(blocks[..|blocks| - 1]) + [BlockHtml(blocks[|blocks| - 1])]
  }

  /** The `k`th string pushed is the `k`th block's element. */
  lemma {:induction false} HtmlAt(blocks: seq<Block>, k: int)
    requires 0 <= k < |blocks|
    ensures Html(blocks)[k] == BlockHtml(blocks[k])
    decreases |blocks|
  {
    var init := blocks[..|blocks| - 1];
    if k < |blocks| - 1 {
      HtmlAt(init, k);
      assert init[k] == blocks[k];
    }
  }

  /** Pushing one more block pushes its string. */
  lemma HtmlPush(blocks: seq<Block>, b: Block)
    ensures Html(blocks + [b]) == Html(blocks) + [BlockHtml(b)]
  {
    assert (blocks + [b])[..|blocks|] == blocks;
  }

  // -------------------------------------------------------------- state

  /** The variables `renderMarkdown`'s closures share, with `html` recorded
      as the blocks whose strings were pushed. */
  datatype State = State(
    blocks: seq<Block>,
    paragraph: seq<string>,
    inList: bool,
    inCode: bool,
    codeLines: seq<string>)

  const Initial := State([], [], false, false, [])

  /** `trim` applied to each line. */
  function TrimLines(lines: seq<string>): (r: seq<string>)
    ensures |r| == |lines|
    ensures forall k :: 0 <= k < |lines| ==> r[k] == Trim(lines[k])
  {
    if lines == [] then [] else TrimLines(lines[..|lines| - 1]) + [Trim(lines[|lines| - 1])]
  }

  /** `flushParagraph`. */
  function FlushParagraph(st: State): (r: State)
    ensures r.paragraph == []
    ensures r.inList == st.inList && r.inCode == st.inCode && r.codeLines == st.codeLines
  {
    if st.paragraph == [] then st
    else
      var text := Trim(Join(st.paragraph, " "));
      st.(blocks := if text != [] then st.blocks + [Paragraph(text)] else st.blocks, paragraph := [])
  }

  /** `closeList`. */
  function CloseList(st: State): (r: State)
    ensures !r.inList
    ensures r.paragraph == st.paragraph && r.inCode == st.inCode && r.codeLines == st.codeLines
  {
    if !st.inList then st else st.(blocks := st.blocks + [ListClose], inList := false)
  }

  /** `closeCode`. */
  function CloseCode(st: State): (r: State)
    ensures !r.inCode
    ensures r.paragraph == st.paragraph && r.inList == st.inList
  {
    if !st.inCode then st
    else st.(blocks := st.blocks + [Code(st.codeLines)], inCode := false, codeLines := [])
  }

  /** What a list item does before its `<li>`: open a list unless one is
      open. */
  function OpenList(st: State): (r: State)
    ensures r.inList
    ensures r.paragraph == st.paragraph && r.inCode == st.inCode && r.codeLines == st.codeLines
  {
    if st.inList then st else st.(blocks := st.blocks + [ListOpen], inList := true)
  }

  /** One pass of the `for` loop: the line is tested as a fence, a line inside
      code, a heading, a list item, a blank line and plain text, in that order. */
  function Step(st: State, line: string): (r: State)
    ensures r.inCode == (st.inCode != IsFence(line))
  {
    if IsFence(line) then
      var st1 := CloseList(FlushParagraph(st));
      if st1.inCode then CloseCode(st1) else st1.(inCode := true)
    else if st.inCode then
      st.(codeLines := st.codeLines + [line])
    else match MatchHeading(line)
      case Some(h) =>
        var st1 := CloseList(FlushParagraph(st));
        st1.(blocks := st1.blocks + [Heading(h.level, h.text)])
      case None =>
        match MatchListItem(line)
        case Some(item) =>
          var st1 := OpenList(FlushParagraph(st));
          st1.(blocks := st1.blocks + [ListItem(item)])
        case None =>
          if IsBlank(line) then CloseList(FlushParagraph(st))
          else st.(paragraph := st.paragraph + [Trim(line)])
  }

  /** The loop run over `lines`, one after the other. */
  function Run(st: State, lines: seq<string>): (r: State)
  {
    if lines == [] then st else Step(Run(st, lines[..|lines| - 1]), lines[|lines| - 1])
  }

  /** What `renderMarkdown` does after the loop. */
  function Finish(st: State): (r: State)
    ensures !r.inList && !r.inCode && r.paragraph == []
  {
    CloseCode(CloseList(FlushParagraph(st)))
  }

  /** The lines of the document: every CRLF becomes LF, then the text is
      split at each LF. */
  function Lines(markdown: string): (lines: seq<string>)
    ensures lines != []
    ensures forall k :: 0 <= k < |lines| ==> '\n' !in lines[k]
  {
    Split(ReplaceAll(markdown, "\r\n", "\n"), '\n')
  }

  /** `renderMarkdown(markdown)`. */
  function Render(markdown: string): (html: string)
  {
    Join(Html(Finish(Run(Initial, Lines(markdown))).blocks), "\n")
  }
}
