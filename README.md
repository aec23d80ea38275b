# Markdown renderer of `build-statement`

This project models the hand-written Markdown-to-HTML renderer in
`scripts/build-statement.mjs` and proves what it does. The renderer has three
layers:

- `escapeHtml` escapes the five HTML metacharacters, `&` first.
- `renderInline` escapes a piece of text, then applies four global,
  left-to-right substitutions in a fixed order: links, code spans, bold,
  italic.
- `renderMarkdown` is a line-driven state machine. It normalises CRLF to LF
  and splits the document into lines. It classifies each line, in order, as a
  fence, a line inside code, a heading, a list item, a blank line or plain
  text. It pushes HTML blocks onto an array and joins them with newlines. Its
  state is a paragraph buffer, an `inList` flag, an `inCode` flag and a
  buffer of code lines.

## Layout

- `strings.dfy` (module `Strings`) defines the JavaScript string operations
  used: `\s` and `trim`, `replaceAll` with a string pattern, `split` on one
  character, and `join`.
- `escape.dfy` (module `Escape`) models `escapeHtml` as the five chained
  replacements. It proves that the chain escapes each character on its own.
  It proves the output has no raw markup, and that decoding the entities with
  `&amp;` last restores the input.
- `inline.dfy` (module `Inline`) models each global substitution as a
  scanner. The scanner cuts the text into pieces: a match or one unmatched
  character. The matcher is proved sound and complete against the pattern.
  `RenderInline` chains the substitutions in the source's order.
- `block.dfy` (module `Block`) defines the line patterns and the state
  machine as pure functions: `Step` for one pass of the loop, `Run` for the
  loop, `Finish` for the end of input, and `Render` for the whole function.
  In the state, each pushed string is recorded as the `Block` it spells out.
  `BlockHtml` turns a block into its string; `Html` does this for a sequence.
- `block_properties.dfy` (module `BlockProperties`) proves:
  - the loop invariant;
  - list balance, both on the blocks and on the pushed strings;
  - that output order follows input order;
  - what runs of plain lines, list items, headings and fenced code produce.
- `renderer.dfy` (module `Renderer`) is `renderMarkdown` as the program
  writes it:
  - the shared variables are fields of a class;
  - the closures and the branches of the loop are methods that update them;
  - the `for` loop is proved to compute `Block.Render`.

  Beside the real `html` array, the class keeps a ghost sequence of the
  blocks that array spells out.
- `scenarios.dfy` (module `Scenarios`) derives whole documents from the
  general lemmas: the empty document, headings, a two-item list, a
  two-line paragraph, fenced code, a plain line right after a list item, and
  a line that combines a link, a code span, bold and italic.

The regular expressions were analysed by hand, backtracking included:

- The heading pattern's `#{1,6}` must take every leading `#`.
- `\s+(.+)$` takes the longest whitespace run. When that run reaches the end
  of the line, it can give its last character back to `(.+)` only if the run
  has at least two characters and that last one is not a line terminator.
  So `#` followed by two spaces is a heading whose text is one space, which
  trims to nothing, while `# ` and `# \r` are not headings at all
  (`Block.TailStart`).
- `\s` and `trim` use the exact ECMAScript whitespace and line-terminator
  set. `.` excludes `\n`, `\r`, U+2028 and U+2029.

A plain-text line does not close an open list: the code at
`scripts/build-statement.mjs:102` only buffers the line. A paragraph that
follows a list item is therefore flushed later, before the `</ul>` (see
`Scenarios.ListThenText`). Among lines, only a fence, a heading or a blank
line closes a list (`BlockProperties.ClosersOnly`); the end of input closes
it too (`Block.Finish`, `scripts/build-statement.mjs:106`).

## Model

| member | source | states |
|---|---|---|
| Strings.IsSpace | scripts/build-statement.mjs:96 | `\s` and the set `trim` strips: tab, LF, VT, FF, CR, space, U+00A0, U+1680, U+2000 to U+200A, U+2028, U+2029, U+202F, U+205F, U+3000 and U+FEFF (ECMAScript WhiteSpace and LineTerminator); the heading and list patterns at lines 76 and 85 use it as `\s` |
| Strings.IsLineTerminator | scripts/build-statement.mjs:76 | the characters `.` does not match in the heading and list patterns (lines 76 and 85): LF, CR, U+2028 and U+2029 |
| Strings.Trim | scripts/build-statement.mjs:96 | the trimmed string is empty exactly when every character is `\s`; otherwise it starts and ends with a non-space and is the middle of the input between its leading and trailing `\s` runs |
| Strings.TrimIdempotent | scripts/build-statement.mjs:102 | trimming a trimmed line changes nothing |
| Strings.ReplaceAll | scripts/build-statement.mjs:14-18 | `replaceAll` with a string pattern replaces occurrences left to right without overlap; a text in which the pattern's first character does not occur comes back unchanged |
| Strings.ReplaceSkips | scripts/build-statement.mjs:14-18 | a prefix in which the pattern's first character does not occur is copied through and the scan resumes right after it |
| Strings.Split | scripts/build-statement.mjs:31 | splitting at a character gives one more piece than there are separators, no piece holds the separator, and joining the pieces with it gives the input back |
| Strings.SplitJoin | scripts/build-statement.mjs:31 | splitting the join of separator-free pieces gives the pieces back |
| Strings.Join | scripts/build-statement.mjs:109 | `join` puts the separator between consecutive parts; `Split` and `SplitJoin` prove that splitting at a one-character separator and joining with it undo each other |
| Strings.ReplaceCharAppend | scripts/build-statement.mjs:14-18 | replacing a one-character pattern distributes over concatenation |
| Escape.EscapeHtml | scripts/build-statement.mjs:12-19 | `escapeHtml` as the five chained replacements in the source's order, `&` first; the rows below state what the chain means |
| Escape.EscapeHtmlIsPerChar | scripts/build-statement.mjs:12-19 | the five chained replacements, `&` first, escape every character independently, so no entity is escaped twice |
| Escape.EscapeHtmlAppend | scripts/build-statement.mjs:12-19 | escaping distributes over concatenation |
| Escape.EscapeEach | scripts/build-statement.mjs:12-19 | the per-character escape contains no `<`, `>`, `"` or `'` and is never shorter than its input |
| Escape.EscapeHtmlHasNoMarkup | scripts/build-statement.mjs:12-19 | the output of `escapeHtml` contains no `<`, `>`, `"` or `'` |
| Escape.EscapeHtmlIdentity | scripts/build-statement.mjs:12-19 | escaping leaves a string unchanged exactly when it holds none of the five metacharacters |
| Escape.DecodePass | scripts/build-statement.mjs:12-19 | one decoding pass turns one entity back into its character and leaves the other entities alone, provided `&amp;` is decoded last |
| Escape.UnescapeEscape | scripts/build-statement.mjs:12-19 | decoding the five entities, `&amp;` last, gives back the original string |
| Inline.MatchLink | scripts/build-statement.mjs:23 | a reported link is `[text](url)` at the start of the text, with the text non-empty and free of `]` and the url non-empty and free of `)` |
| Inline.MatchLinkComplete | scripts/build-statement.mjs:23 | whenever the link pattern matches at the start of the text, the matcher reports exactly that text, url and remainder |
| Inline.LinkPieces | scripts/build-statement.mjs:23 | the global link scan cuts the text into pieces that spell it out exactly, in order, and every link piece is one the pattern matches; `LinkScanTakesEveryLink` adds that it takes every link it reaches |
| Inline.LinkScanTakesEveryLink | scripts/build-statement.mjs:23 | a character is copied through only where the link pattern does not match the text from there on, so with `MatchLinkComplete` the global replacement takes every link it reaches |
| Inline.SubstituteLinks | scripts/build-statement.mjs:23 | the link replacement: each link piece becomes `<a href="url">text</a>` and every other character is copied |
| Inline.SubstituteLinksAt | scripts/build-statement.mjs:23 | where the link pattern matches, the replacement emits that anchor and resumes right after the link |
| Inline.SubstituteLinksSkip | scripts/build-statement.mjs:23 | where the link pattern does not match, the replacement copies one character and resumes at the next |
| Inline.SubstituteLinksPrefix | scripts/build-statement.mjs:23 | a prefix without `[` is copied unchanged and the replacement resumes after it |
| Inline.MatchSpan | scripts/build-statement.mjs:24-26 | a reported span is the delimiter, non-empty content free of the delimiter's first character, and the delimiter again |
| Inline.MatchSpanComplete | scripts/build-statement.mjs:24-26 | whenever a span pattern matches at the start of the text, the matcher reports exactly that content and remainder |
| Inline.SpanPieces | scripts/build-statement.mjs:24-26 | the global span scan cuts the text into pieces that spell it out exactly, and every span piece has non-empty content free of the delimiter's first character; `SpanScanTakesEverySpan` adds that it takes every span it reaches |
| Inline.SpanScanTakesEverySpan | scripts/build-statement.mjs:24-26 | a character is copied through only where the span pattern does not match the text from there on, so with `MatchSpanComplete` each global replacement takes every span it reaches |
| Inline.SubstituteSpans | scripts/build-statement.mjs:24-26 | a span replacement: each span piece becomes `<tag>content</tag>` and every other character is copied |
| Inline.SubstituteSpansAt | scripts/build-statement.mjs:24-26 | where a span pattern matches, the replacement emits the tagged content and resumes right after the closing delimiter |
| Inline.SubstituteSpansSkip | scripts/build-statement.mjs:24-26 | where a span pattern does not match, the replacement copies one character and resumes at the next |
| Inline.SubstituteSpansPrefix | scripts/build-statement.mjs:24-26 | a prefix without the delimiter's first character is copied unchanged and the replacement resumes after it |
| Inline.SubstituteLinksIdentity | scripts/build-statement.mjs:23 | text without `[` is left unchanged by the link substitution |
| Inline.SubstituteSpansIdentity | scripts/build-statement.mjs:24-26 | text without the delimiter's first character is left unchanged by a span substitution |
| Inline.RenderInline | scripts/build-statement.mjs:21-27 | `renderInline`: escape, then links, code spans, bold and italic, in that order; the rows around it state what that order yields |
| Inline.PlainTextIsEscaped | scripts/build-statement.mjs:21-27 | raw text with no `[`, backtick or `*` renders to exactly its escaped form |
| Inline.LinksOfEscapedTextAreSafe | scripts/build-statement.mjs:22-23 | every link found after escaping has a non-empty url free of `"`, `<`, `>` and `)`, and non-empty text free of `"`, `<`, `>` and `]` |
| Inline.LinkHtmlQuotes | scripts/build-statement.mjs:23 | the link substitution adds exactly two `"` per link |
| Inline.SpanHtmlQuotes | scripts/build-statement.mjs:24-26 | a span substitution neither adds nor removes `"` |
| Inline.QuotesOnlyDelimitHrefs | scripts/build-statement.mjs:21-27 | the rendered inline text holds exactly two `"` per link and none elsewhere: every `"` delimits an `href` value |
| Block.TailStart | scripts/build-statement.mjs:76 | the returned position splits a string into a `\s+` run and a group free of line terminators, and it is the longest such split; none means no split exists |
| Block.MatchHeading | scripts/build-statement.mjs:76-80 | a reported heading has 1 to 6 leading `#`, then whitespace, and the captured text is the rest of the line |
| Block.MatchHeadingComplete | scripts/build-statement.mjs:76 | whenever the heading pattern matches, the matcher reports a heading of that level, taking the longest whitespace run |
| Block.SevenHashesNoHeading | scripts/build-statement.mjs:76 | a line that starts with seven `#` is never a heading |
| Block.MatchListItem | scripts/build-statement.mjs:85 | a reported item is leading `\s`, a `-`, whitespace, and the captured text is the rest of the line |
| Block.MatchListItemComplete | scripts/build-statement.mjs:85 | whenever the list-item pattern matches, the matcher reports an item |
| Block.EscapeLines | scripts/build-statement.mjs:53 | `codeLines.map(escapeHtml)`: no line is added or dropped, and every escaped line holds no `<`, `>`, `"` or `'` and decodes back to its code line |
| BlockProperties.CodeBodyHasNoMarkup | scripts/build-statement.mjs:53-54 | the body of every `<pre><code>` block, the escaped lines joined by `\n`, holds no `<`, `>`, `"` or `'` |
| BlockProperties.CodeBodyDecodes | scripts/build-statement.mjs:53-54 | split at its line breaks and decoded, the body of a non-empty code block gives back its code lines, one for one, since no line of the split document holds `\n` |
| Block.IsFence | scripts/build-statement.mjs:60 | a fence is any line that starts with three backticks, whatever follows |
| Block.IsBlank | scripts/build-statement.mjs:96 | a line is blank when trimming leaves nothing, which by the contract of `Strings.Trim` is exactly when every character is `\s` |
| Block.BlockHtml | scripts/build-statement.mjs:41-92 | the string each push spells out: `<p>` and the inline text, `<hN>` and the trimmed inline text, `<ul>`, `<li>` and the trimmed inline text, `</ul>`, and `<pre><code>` around the escaped code lines joined by `\n` |
| Block.HtmlAt | scripts/build-statement.mjs:32 | the `k`th string pushed is the string of the `k`th block |
| Block.HtmlPush | scripts/build-statement.mjs:32 | pushing one more block pushes exactly its string after the earlier ones |
| Block.FlushParagraph | scripts/build-statement.mjs:38-43 | afterwards the paragraph buffer is empty, and the list flag, the code flag and the code buffer are untouched |
| Block.CloseList | scripts/build-statement.mjs:45-49 | afterwards no list is open, and the paragraph and the code state are untouched |
| Block.CloseCode | scripts/build-statement.mjs:51-57 | afterwards the renderer is out of code mode, and the paragraph and the list flag are untouched |
| Block.OpenList | scripts/build-statement.mjs:88-91 | afterwards a list is open, and the paragraph and the code state are untouched |
| Block.Step | scripts/build-statement.mjs:59-103 | one pass of the loop: a fence toggles code mode and no other line changes it |
| Block.Run | scripts/build-statement.mjs:59 | the `for` loop as `Step` applied to the lines in order; `RunAppends`, `RunConcat` and `RunInv` state its properties |
| Block.Finish | scripts/build-statement.mjs:105-107 | after the end of input no list is open, code mode is off and the paragraph buffer is empty |
| Block.Lines | scripts/build-statement.mjs:31 | the document has at least one line and no line holds `\n`; `LinesOfJoin` and `LinesOfCrlfJoin` give lines back from their LF and CRLF joins |
| Block.Render | scripts/build-statement.mjs:30-110 | `renderMarkdown` as the fold of `Step`, then `Finish`, with the pushed strings joined by `\n`; the imperative `Renderer.RenderMarkdown` is proved to compute it |
| BlockProperties.InitialInv | scripts/build-statement.mjs:32-36 | the initial state satisfies the loop invariant |
| BlockProperties.FlushParagraphInv | scripts/build-statement.mjs:38-43 | `flushParagraph` keeps the invariant, empties the buffer and leaves both flags alone |
| BlockProperties.CloseListInv | scripts/build-statement.mjs:45-49 | `closeList` keeps the invariant and leaves no list open |
| BlockProperties.CloseCodeInv | scripts/build-statement.mjs:51-57 | `closeCode` keeps the invariant and leaves code mode |
| BlockProperties.StepBlank | scripts/build-statement.mjs:96-99 | a blank line outside code flushes the paragraph and closes the list: afterwards no list is open and the buffer is empty |
| BlockProperties.ClosersOnly | scripts/build-statement.mjs:59-103 | a pass only appends, and it appends a `</ul>` only for a fence, or outside code for a heading or a blank line: list items and plain lines never close a list |
| BlockProperties.StepInv | scripts/build-statement.mjs:59-103 | each pass of the loop keeps the invariant. In code mode the paragraph is empty and no list is open. Outside it no code line is buffered. Buffered lines are trimmed and non-empty. Lists never nest, every item is inside a list, and `inList` says whether a `<ul>` is open |
| BlockProperties.RunInv | scripts/build-statement.mjs:59-103 | the whole loop keeps the invariant |
| BlockProperties.RenderClosesEverything | scripts/build-statement.mjs:105-107 | at the end every buffer is empty, both flags are off, every `<ul>` is matched by exactly one later `</ul>`, lists never nest, and every `<li>` is inside a list |
| BlockProperties.ListTags | scripts/build-statement.mjs:47-92 | a block's string is `<ul>` exactly for a list opening, `</ul>` exactly for a list closing, and starts with `<li>` exactly for an item |
| BlockProperties.OpenTagsOfHtml | scripts/build-statement.mjs:41-92 | counted on the pushed strings, `<ul>` minus `</ul>` equals the open lists counted on the blocks |
| BlockProperties.RenderBalancesListTags | scripts/build-statement.mjs:45-106 | in the strings `renderMarkdown` joins, the `<ul>` and `</ul>` counts are equal |
| BlockProperties.StepAppends | scripts/build-statement.mjs:59-103 | a pass of the loop only appends to the output |
| BlockProperties.RunAppends | scripts/build-statement.mjs:59-103 | the blocks of earlier lines are a prefix of the blocks of later lines, so output order follows input order |
| BlockProperties.RunConcat | scripts/build-statement.mjs:59 | running two runs of lines one after the other is running their concatenation |
| BlockProperties.LinesOfJoin | scripts/build-statement.mjs:31 | lines without line breaks, joined by `\n`, are split back into the same lines |
| BlockProperties.CrlfJoin | scripts/build-statement.mjs:31 | replacing every CRLF in the CRLF join of lines without `\r` gives their LF join |
| BlockProperties.LinesOfCrlfJoin | scripts/build-statement.mjs:31 | lines without line breaks, joined by CRLF, are split back into the same lines |
| BlockProperties.StepPlain | scripts/build-statement.mjs:102 | a plain line outside code only adds its trimmed text to the paragraph buffer: it emits nothing and leaves the list open |
| BlockProperties.PlainLinesCollect | scripts/build-statement.mjs:102 | a run of plain lines buffers their trimmed texts, in order, and changes nothing else |
| BlockProperties.JoinTrimmed | scripts/build-statement.mjs:40 | trimmed non-empty lines joined by spaces neither start nor end with whitespace |
| BlockProperties.FlushEmitsParagraph | scripts/build-statement.mjs:38-43 | flushing a non-empty buffer of trimmed lines emits one paragraph whose text is the lines joined by single spaces |
| BlockProperties.PlainLinesMakeOneParagraph | scripts/build-statement.mjs:38-102 | a run of plain lines, once flushed, is one paragraph of the trimmed lines joined by single spaces, and the list flag is unchanged |
| BlockProperties.StepItem | scripts/build-statement.mjs:85-94 | a list item flushes the paragraph, pushes `<ul>` only when no list is open, then pushes its item |
| BlockProperties.ItemsShareOneList | scripts/build-statement.mjs:85-94 | consecutive list items share one `<ul>`, pushed only if no list was open, and each adds one item |
| BlockProperties.StepCode | scripts/build-statement.mjs:71-74 | in code mode, a line that is not a fence is buffered verbatim and nothing else changes |
| BlockProperties.CodeLinesVerbatim | scripts/build-statement.mjs:71-74 | in code mode, every non-fence line is kept verbatim, unclassified, and nothing is emitted |
| BlockProperties.StepOpenFence | scripts/build-statement.mjs:60-69 | a fence outside code flushes the paragraph, closes the list and enters code mode |
| BlockProperties.StepCloseFence | scripts/build-statement.mjs:60-69 | a fence in code mode emits the code block |
| BlockProperties.FencedBlock | scripts/build-statement.mjs:51-74 | an opening fence, with or without a language tag, starts a block that its closing fence ends: the body lines come out as one code block and nothing is left open |
| BlockProperties.UnterminatedFence | scripts/build-statement.mjs:51-107 | a fence never closed is still emitted at the end of input, holding every line after it |
| BlockProperties.HeadingStep | scripts/build-statement.mjs:76-82 | a heading flushes the paragraph and closes the list before its heading block, whose level is the number of `#` |
| BlockProperties.HeadingOfHashes | scripts/build-statement.mjs:76-80 | 1 to 6 `#`, a space and text with no leading space or line break match the heading pattern with that level and text |
| Renderer.Renderer.constructor | scripts/build-statement.mjs:32-36 | the variables start as the initial state |
| Renderer.Renderer.Push | scripts/build-statement.mjs:41-92 | pushing a block's string records that block and changes nothing else |
| Renderer.Renderer.FlushParagraph | scripts/build-statement.mjs:38-43 | the closure updates the fields as `FlushParagraph` says |
| Renderer.Renderer.CloseList | scripts/build-statement.mjs:45-49 | the closure updates the fields as `CloseList` says |
| Renderer.Renderer.CloseCode | scripts/build-statement.mjs:51-57 | the closure updates the fields as `CloseCode` says |
| Renderer.Renderer.Fence | scripts/build-statement.mjs:60-69 | the fence branch updates the fields as `Step` says for a fence |
| Renderer.Renderer.Heading | scripts/build-statement.mjs:76-82 | the heading branch flushes, closes the list and pushes the heading |
| Renderer.Renderer.Item | scripts/build-statement.mjs:85-94 | the list branch flushes, opens a list if none is open and pushes the item |
| Renderer.Renderer.OpenList | scripts/build-statement.mjs:88-91 | `<ul>` is pushed and `inList` set exactly when no list is open, as `OpenList` says |
| Renderer.Renderer.Line | scripts/build-statement.mjs:59-103 | one pass of the loop updates the fields as `Step` says, and the pushed strings stay those of the recorded blocks |
| Renderer.RenderMarkdown | scripts/build-statement.mjs:30-110 | the imperative renderer returns exactly `Render(markdown)`, the string of which all the properties above are proved |
| Scenarios.PlainWordRendersAsItself | scripts/build-statement.mjs:21-27 | a word with no markup, metacharacter or surrounding space is its own trim and renders as itself |
| Scenarios.EmptyDocument | scripts/build-statement.mjs:30-110 | the empty document renders to the empty string |
| Scenarios.HeadingDocument | scripts/build-statement.mjs:76-82 | 1 to 6 `#`, a space and a plain word render as `<hN>word</hN>` with N the number of `#` |
| Scenarios.ListDocument | scripts/build-statement.mjs:85-106 | two items `- a` and `- b` render as one `<ul>`, two `<li>` and one `</ul>`, on separate lines |
| Scenarios.ParagraphDocument | scripts/build-statement.mjs:96-105 | two plain lines render as one `<p>` holding the two lines joined by a space |
| Scenarios.FenceDocument | scripts/build-statement.mjs:51-74 | one line between fences comes out escaped in `<pre><code>`, with no inline substitution |
| Scenarios.ItemThenPlainBlocks | scripts/build-statement.mjs:102-106 | after a list item, a plain line's paragraph is emitted at the end of input before the `</ul>` |
| Scenarios.ListThenText | scripts/build-statement.mjs:102-106 | `- a` then a plain line `b` renders as `<ul>`, `<li>a</li>`, `<p>b</p>`, `</ul>`: a plain line does not close the list |
| Scenarios.InlineCombination | scripts/build-statement.mjs:21-27 | ``See [x](y) and `z` and **b** and *i*.`` renders as an anchor, a `<code>`, a `<strong>` and an `<em>` in one line: the four replacements do not interfere |
| Scenarios.OneLineParagraph | scripts/build-statement.mjs:96-105 | a one-line document holding a plain trimmed line renders as one `<p>` around its inline rendering |
| Scenarios.InlineDocument | scripts/build-statement.mjs:30-110 | that line as a whole document renders as one paragraph holding the combined inline markup |

## Left out

- `buildHtml` is not part of this model. It is a fixed page template that
  only splices in the rendered string.
- `main`, its error handler and the path setup are not part of this model.
  They read and write files, create directories, write to stdout and stderr,
  and exit the process.
- JavaScript strings are sequences of UTF-16 code units. Here a string is a
  sequence of Unicode scalar values, so surrogate pairs are not modelled.
- A full regular-expression engine is not modelled. Only the five patterns
  the renderer uses are modelled, as scanners proved against the patterns.
- The property "`escapeHtml` contains no `&` that does not start an entity"
  is not stated separately. The round trip `Escape.UnescapeEscape` and the
  per-character form `Escape.EscapeHtmlIsPerChar` imply it.
- Concrete documents are proved for every word of the given shape rather
  than for one literal string, for example `# Title` as `HeadingDocument`.
