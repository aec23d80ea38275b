/**
  What `renderMarkdown` promises, proved of the state machine in module
  Block: the state invariant its loop keeps, the balance of `<ul>` and
  `</ul>`, the order of the emitted blocks, and what runs of paragraph
  lines, list items and fenced code turn into.
 */
module BlockProperties {
  import opened Wrappers
  import opened Strings
  import opened Escape
  import opened Inline
  import opened Block

  // ------------------------------------------------------ list structure

  /** How a block changes the number of open lists. */
  function Delta(b: Block): int
  {
    match b
    case ListOpen => 1
    case ListClose => -1
    case _ => 0
  }

  /** `<ul>` blocks minus `</ul>` blocks. */
  function OpenLists(blocks: seq<Block>): int
  {
    if blocks == [] then 0 else OpenLists(blocks[..|blocks| - 1]) + Delta(blocks[|blocks| - 1])
  }

  /** Read left to right, the blocks never close a list that is not open and
      never open a second one inside the first; every `<li>` is inside a
      list, and every `<ul>` is followed by an `<li>`. */
  ghost predicate ListsNest(blocks: seq<Block>)
    decreases |blocks|
  {
    blocks == [] ||
    var init, last := blocks[..|blocks| - 1], blocks[|blocks| - 1];
    && ListsNest(init)
    && 0 <= OpenLists(blocks) <= 1
    && (last.ListItem? ==> OpenLists(init) == 1)
    && (init != [] && init[|init| - 1] == ListOpen ==> last.ListItem?)
  }

  /** What holds between two passes of the loop. */
  ghost predicate Inv(st: State)
  {
    && (st.inCode ==> st.paragraph == [] && !st.inList)
    && (!st.inCode ==> st.codeLines == [])
    && (forall k :: 0 <= k < |st.paragraph| ==> st.paragraph[k] != [] && Trim(st.paragraph[k]) == st.paragraph[k])
    && ListsNest(st.blocks)
    && OpenLists(st.blocks) == (if st.inList then 1 else 0)
    && (st.blocks != [] ==> st.blocks[|st.blocks| - 1] != ListOpen)
  }

  lemma InitialInv()
    ensures Inv(Initial)
  {
  }

  /** Appending a block that is not `<ul>`, `</ul>` or an item keeps the
      structure. */
  lemma PushNeutral(blocks: seq<Block>, b: Block)
    requires ListsNest(blocks) && 0 <= OpenLists(blocks) <= 1
    requires blocks != [] ==> blocks[|blocks| - 1] != ListOpen
    requires Delta(b) == 0 && !b.ListItem?
    ensures ListsNest(blocks + [b]) && OpenLists(blocks + [b]) == OpenLists(blocks)
  {
    assert (blocks + [b])[..|blocks|] == blocks;
  }

  lemma PushOpen(blocks: seq<Block>)
    requires ListsNest(blocks) && OpenLists(blocks) == 0
    requires blocks != [] ==> blocks[|blocks| - 1] != ListOpen
    ensures ListsNest(blocks + [ListOpen]) && OpenLists(blocks + [ListOpen]) == 1
  {
    assert (blocks + [ListOpen])[..|blocks|] == blocks;
  }

  lemma PushClose(blocks: seq<Block>)
    requires ListsNest(blocks) && OpenLists(blocks) == 1
    requires blocks != [] ==> blocks[|blocks| - 1] != ListOpen
    ensures ListsNest(blocks + [ListClose]) && OpenLists(blocks + [ListClose]) == 0
  {
    assert (blocks + [ListClose])[..|blocks|] == blocks;
  }

  lemma PushItem(blocks: seq<Block>, text: string)
    requires ListsNest(blocks) && OpenLists(blocks) == 1
    ensures ListsNest(blocks + [ListItem(text)]) && OpenLists(blocks + [ListItem(text)]) == 1
  {
    assert (blocks + [ListItem(text)])[..|blocks|] == blocks;
  }

  // ------------------------------------------------- the loop invariant

  lemma FlushParagraphInv(st: State)
    requires Inv(st)
    ensures Inv(FlushParagraph(st))
    ensures FlushParagraph(st).paragraph == []
    ensures FlushParagraph(st).inList == st.inList && FlushParagraph(st).inCode == st.inCode
  {
    if st.paragraph != [] {
      var text := Trim(Join(st.paragraph, " "));
      if text != [] {
        PushNeutral(st.blocks, Paragraph(text));
      }
    }
  }

  lemma CloseListInv(st: State)
    requires Inv(st)
    ensures Inv(CloseList(st)) && !CloseList(st).inList
  {
    if st.inList {
      PushClose(st.blocks);
    }
  }

  lemma CloseCodeInv(st: State)
    requires Inv(st)
    ensures Inv(CloseCode(st)) && !CloseCode(st).inCode
  {
    if st.inCode {
      PushNeutral(st.blocks, Code(st.codeLines));
    }
  }

  lemma FenceInv(st: State, line: string)
    requires Inv(st) && IsFence(line)
    ensures Inv(Step(st, line))
  {
    FlushParagraphInv(st);
    CloseListInv(FlushParagraph(st));
    var st1 := CloseList(FlushParagraph(st));
    if st1.inCode {
      CloseCodeInv(st1);
    }
  }

  lemma HeadingInv(st: State, line: string)
    requires Inv(st) && !IsFence(line) && !st.inCode && MatchHeading(line).Some?
    ensures Inv(Step(st, line))
  {
    var h := MatchHeading(line).value;
    FlushParagraphInv(st);
    CloseListInv(FlushParagraph(st));
    var st1 := CloseList(FlushParagraph(st));
    PushNeutral(st1.blocks, Heading(h.level, h.text));
  }

  lemma ItemInv(st: State, line: string)
    requires Inv(st) && !st.inCode && IsItemLine(line)
    ensures Inv(Step(st, line))
  {
    var item := MatchListItem(line).value;
    FlushParagraphInv(st);
    var st1 := FlushParagraph(st);
    if !st1.inList {
      PushOpen(st1.blocks);
    }
    var st2 := if st1.inList then st1 else st1.(blocks := st1.blocks + [ListOpen], inList := true);
    PushItem(st2.blocks, item);
    StepItem(st, line);
    assert Step(st, line) == st2.(blocks := st2.blocks + [ListItem(item)]);
  }

  /** A blank line outside code flushes the paragraph and closes the list. */
  lemma StepBlank(st: State, line: string)
    requires !st.inCode && IsBlankLine(line)
    ensures Step(st, line) == CloseList(FlushParagraph(st))
    ensures !Step(st, line).inList && Step(st, line).paragraph == []
  {
  }

  /** `</ul>` is pushed by a fence, and outside code by a heading or a blank
      line, and by nothing else the loop meets: a list item or a plain line
      never closes a list. */
  lemma ClosersOnly(st: State, line: string)
    ensures st.blocks <= Step(st, line).blocks
    ensures ListClose in Step(st, line).blocks[|st.blocks|..] ==>
      IsFence(line) || (!st.inCode && (MatchHeading(line).Some? || IsBlankLine(line)))
  {
    StepAppends(st, line);
    if IsFence(line) || (!st.inCode && (MatchHeading(line).Some? || IsBlankLine(line))) {
    } else if st.inCode {
      StepCode(st, line);
      assert Step(st, line).blocks[|st.blocks|..] == [];
    } else if MatchListItem(line).Some? {
      ItemAddsNoClose(st, line);
    } else {
      assert IsPlainLine(line);
      StepPlain(st, line);
      assert Step(st, line).blocks[|st.blocks|..] == [];
    }
  }

  /** Flushing the paragraph pushes at most a `<p>`. */
  lemma FlushAddsNoClose(st: State)
    ensures st.blocks <= FlushParagraph(st).blocks
    ensures ListClose !in FlushParagraph(st).blocks[|st.blocks|..]
  {
    var added := FlushParagraph(st).blocks[|st.blocks|..];
    assert added == [] || added == [Paragraph(Trim(Join(st.paragraph, " ")))];
  }

  /** A list item pushes at most a `<p>`, a `<ul>` and its `<li>`. */
  lemma ItemAddsNoClose(st: State, line: string)
    requires !st.inCode && IsItemLine(line)
    ensures st.blocks <= Step(st, line).blocks
    ensures ListClose !in Step(st, line).blocks[|st.blocks|..]
  {
    StepItem(st, line);
    FlushAddsNoClose(st);
    var st1 := FlushParagraph(st);
    AppendNoClose(st.blocks, st1.blocks, (if st1.inList then [] else [ListOpen]) + [ListItem(MatchListItem(line).value)]);
  }

  lemma AppendNoClose(base: seq<Block>, b1: seq<Block>, more: seq<Block>)
    requires base <= b1 && ListClose !in b1[|base|..] && ListClose !in more
    ensures base <= b1 + more && ListClose !in (b1 + more)[|base|..]
  {
    assert (b1 + more)[|base|..] == b1[|base|..] + more;
  }

  lemma BlankInv(st: State, line: string)
    requires Inv(st) && !st.inCode && IsBlankLine(line)
    ensures Inv(Step(st, line))
  {
    FlushParagraphInv(st);
    CloseListInv(FlushParagraph(st));
  }

  lemma PlainInv(st: State, line: string)
    requires Inv(st) && !st.inCode && IsPlainLine(line)
    ensures Inv(Step(st, line))
  {
    TrimIdempotent(line);
    StepPlain(st, line);
  }

  /** Each pass of the loop keeps the invariant: in particular, whenever
      `inCode` holds the paragraph is empty and no list is open. */
  lemma StepInv(st: State, line: string)
    requires Inv(st)
    ensures Inv(Step(st, line))
  {
    if IsFence(line) {
      FenceInv(st, line);
    } else if st.inCode {
      StepCode(st, line);
    } else if MatchHeading(line).Some? {
      HeadingInv(st, line);
    } else if MatchListItem(line).Some? {
      ItemInv(st, line);
    } else if IsBlank(line) {
      BlankInv(st, line);
    } else {
      PlainInv(st, line);
    }
  }

  lemma {:induction false} RunInv(st: State, lines: seq<string>)
    requires Inv(st)
    ensures Inv(Run(st, lines))
  {
    if lines != [] {
      RunInv(st, lines[..|lines| - 1]);
      StepInv(Run(st, lines[..|lines| - 1]), lines[|lines| - 1]);
    }
  }

  /** At the end of `renderMarkdown` every buffer is empty and every block is
      closed: each `<ul>` is matched by exactly one later `</ul>`, lists never
      nest, and every `<li>` is inside a list. */
  lemma RenderClosesEverything(markdown: string)
    ensures var final := Finish(Run(Initial, Lines(markdown)));
      && ListsNest(final.blocks) && OpenLists(final.blocks) == 0
      && !final.inList && !final.inCode && final.paragraph == [] && final.codeLines == []
  {
    var st := Run(Initial, Lines(markdown));
    RunInv(Initial, Lines(markdown));
    FlushParagraphInv(st);
    CloseListInv(FlushParagraph(st));
    CloseCodeInv(CloseList(FlushParagraph(st)));
  }

  // ------------------------------------------------------ the HTML strings

  /** A block that starts with `<` and a letter other than `l` and `u`: it
      is neither `<ul>` nor `</ul>` and does not start with `<li>`. */
  lemma NeutralString(open: string, x: string, close: string)
    requires |open| >= 2 && open[0] == '<' && open[1] != 'l' && open[1] != 'u' && open[1] != '/'
    ensures var h := open + x + close; h != "<ul>" && h != "</ul>" && !("<li>" <= h)
  {
    var h := open + x + close;
    assert h[1] == open[1];
    assert "<ul>"[1] == 'u' && "</ul>"[1] == '/' && "<li>"[1] == 'l';
  }

  /** A block other than the three list blocks has a string that is
      neither `<ul>` nor `</ul>` and does not start with `<li>`. */
  lemma OtherTag(b: Block)
    requires b.Paragraph? || b.Heading? || b.Code?
    ensures var h := BlockHtml(b); h != "<ul>" && h != "</ul>" && !("<li>" <= h)
  {
    match b
    case Paragraph(text) =>
      NeutralString("<p>", RenderInline(text), "</p>");
    case Heading(level, text) =>
      var n := "0123456789"[level];
      NeutralString("<h" + [n] + ">", RenderInline(Trim(text)), "</h" + [n] + ">");
    case Code(lines) =>
      NeutralString("<pre><code>", Join(EscapeLines(lines), "\n"), "</code></pre>");
  }

  lemma ItemString(x: string)
    ensures var h := "<li>" + x + "</li>"; h != "<ul>" && h != "</ul>" && "<li>" <= h
  {
    var h := "<li>" + x + "</li>";
    assert h[..4] == "<li>";
    assert h[1] == 'l' && "<ul>"[1] == 'u' && "</ul>"[1] == '/';
  }

  lemma ItemTag(text: string)
    ensures var h := BlockHtml(ListItem(text)); h != "<ul>" && h != "</ul>" && "<li>" <= h
  {
    ItemString(RenderInline(Trim(text)));
  }

  /** The string of a block is `<ul>` exactly for the list opening, `</ul>`
      exactly for the list closing, and starts with `<li>` exactly for an
      item: the list tags in the output are the list blocks. */
  lemma ListTags(b: Block)
    ensures BlockHtml(b) == "<ul>" <==> b == ListOpen
    ensures BlockHtml(b) == "</ul>" <==> b == ListClose
    ensures "<li>" <= BlockHtml(b) <==> b.ListItem?
  {
    if b.ListOpen? {
      assert "<ul>"[1] != "<li>"[1];
    } else if b.ListClose? {
      assert "</ul>"[1] != "<li>"[1];
    } else if b.ListItem? {
      ItemTag(b.text);
    } else {
      OtherTag(b);
    }
  }

  /** How a pushed string changes the number of open `<ul>` tags. */
  function TagDelta(h: string): int
  {
    if h == "<ul>" then 1 else if h == "</ul>" then -1 else 0
  }

  /** `<ul>` strings minus `</ul>` strings. */
  function OpenTags(html: seq<string>): int
  {
    if html == [] then 0 else OpenTags(html[..|html| - 1]) + TagDelta(html[|html| - 1])
  }

  /** Counted on the pushed strings, the lists open and close exactly as
      they do on the blocks. */
  lemma {:induction false} OpenTagsOfHtml(blocks: seq<Block>)
    ensures OpenTags(Html(blocks)) == OpenLists(blocks)
  {
    if blocks != [] {
      var init, last := blocks[..|blocks| - 1], blocks[|blocks| - 1];
      OpenTagsOfHtml(init);
      ListTags(last);
      assert Html(blocks)[..|blocks| - 1] == Html(init);
    }
  }

  /** `renderMarkdown` leaves no `<ul>` unclosed in the strings it joins. */
  lemma RenderBalancesListTags(markdown: string)
    ensures OpenTags(Html(Finish(Run(Initial, Lines(markdown))).blocks)) == 0
  {
    RenderClosesEverything(markdown);
    OpenTagsOfHtml(Finish(Run(Initial, Lines(markdown))).blocks);
  }

  // ------------------------------------------------------- block order

  /** A pass of the loop only appends to `html`. */
  lemma StepAppends(st: State, line: string)
    ensures st.blocks <= Step(st, line).blocks
  {
  }

  /** Blocks are emitted in the order of the lines: running more lines only
      appends to what the earlier lines emitted. */
  lemma {:induction false} RunAppends(st: State, lines: seq<string>)
    ensures st.blocks <= Run(st, lines).blocks
  {
    if lines != [] {
      RunAppends(st, lines[..|lines| - 1]);
      StepAppends(Run(st, lines[..|lines| - 1]), lines[|lines| - 1]);
    }
  }

  /** Running `a` and then `b` is running `a + b`. */
  lemma {:induction false} RunConcat(st: State, a: seq<string>, b: seq<string>)
    ensures Run(st, a + b) == Run(Run(st, a), b)
  {
    if b == [] {
      assert a + b == a;
    } else {
      assert (a + b)[..|a + b| - 1] == a + b[..|b| - 1];
      RunConcat(st, a, b[..|b| - 1]);
    }
  }

  // --------------------------------------------------------------- lines

  /** Lines that hold no `\r` and no `\n`, joined by `\n`, are split back into
      the same lines. */
  lemma LinesOfJoin(lines: seq<string>)
    requires lines != []
    requires forall k :: 0 <= k < |lines| ==> '\r' !in lines[k] && '\n' !in lines[k]
    ensures Lines(Join(lines, "\n")) == lines
  {
    JoinAvoids(lines, "\n", '\r');
    SplitJoin(lines, '\n');
  }

  /** Replacing each CRLF by LF turns lines without `\r` joined by CRLF into
      the same lines joined by LF. */
  lemma {:induction false} CrlfJoin(parts: seq<string>)
    requires parts != []
    requires forall k :: 0 <= k < |parts| ==> '\r' !in parts[k]
    ensures ReplaceAll(Join(parts, "\r\n"), "\r\n", "\n") == Join(parts, "\n")
  {
    if |parts| > 1 {
      var tail := Join(parts[1..], "\r\n");
      assert Join(parts, "\r\n") == parts[0] + ("\r\n" + tail);
      ReplaceSkips(parts[0], "\r\n" + tail, "\r\n", "\n");
      assert ("\r\n" + tail)[2..] == tail;
      CrlfJoin(parts[1..]);
    }
  }

  /** Lines that hold no `\r` and no `\n`, joined by CRLF, are split back into
      the same lines: the CRLF normalisation undoes the join. */
  lemma LinesOfCrlfJoin(lines: seq<string>)
    requires lines != []
    requires forall k :: 0 <= k < |lines| ==> '\r' !in lines[k] && '\n' !in lines[k]
    ensures Lines(Join(lines, "\r\n")) == lines
  {
    CrlfJoin(lines);
    SplitJoin(lines, '\n');
  }

  // ---------------------------------------------------------- paragraphs

  /** A blank line that is not a fence, a heading or a list item. */
  predicate IsBlankLine(line: string)
  {
    !IsFence(line) && MatchHeading(line) == None && MatchListItem(line) == None && IsBlank(line)
  }

  /** A line that is not a fence, a heading, a list item or blank. */
  predicate IsPlainLine(line: string)
  {
    !IsFence(line) && MatchHeading(line) == None && MatchListItem(line) == None && !IsBlank(line)
  }

  lemma StepPlain(st: State, line: string)
    requires !st.inCode && IsPlainLine(line)
    ensures Step(st, line) == st.(paragraph := st.paragraph + [Trim(line)])
  {
  }

  /** Outside code, plain lines are trimmed and collected in the paragraph
      buffer; nothing is emitted and an open list stays open. */
  lemma {:induction false} PlainLinesCollect(st: State, lines: seq<string>)
    requires !st.inCode
    requires forall k :: 0 <= k < |lines| ==> IsPlainLine(lines[k])
    ensures Run(st, lines) == st.(paragraph := st.paragraph + TrimLines(lines))
  {
    if lines == [] {
      assert st.paragraph + TrimLines(lines) == st.paragraph;
    } else {
      var init := lines[..|lines| - 1];
      PlainLinesCollect(st, init);
      StepPlain(Run(st, init), lines[|lines| - 1]);
    }
  }

  /** Joining trimmed, non-empty pieces with spaces gives a string that is its
      own trim. */
  lemma {:induction false} JoinTrimmed(parts: seq<string>)
    requires parts != []
    requires forall k :: 0 <= k < |parts| ==> parts[k] != [] && Trim(parts[k]) == parts[k]
    ensures var j := Join(parts, " "); j != [] && !IsSpace(j[0]) && !IsSpace(j[|j| - 1])
  {
    if |parts| > 1 {
      JoinTrimmed(parts[1..]);
      var j := Join(parts, " ");
      assert j == parts[0] + " " + Join(parts[1..], " ");
      assert j[0] == parts[0][0];
    }
  }

  /** Flushing a non-empty paragraph buffer always emits one `<p>`: its lines
      joined by single spaces and rendered inline. */
  lemma FlushEmitsParagraph(st: State)
    requires Inv(st) && st.paragraph != []
    ensures FlushParagraph(st).blocks == st.blocks + [Paragraph(Join(st.paragraph, " "))]
  {
    JoinTrimmed(st.paragraph);
    TrimOfTrimmed(Join(st.paragraph, " "));
  }

  /** A run of plain lines after a flushed paragraph ends up as one `<p>`,
      emitted when the paragraph is next flushed. */
  lemma PlainLinesMakeOneParagraph(st: State, lines: seq<string>)
    requires Inv(st) && !st.inCode && st.paragraph == [] && lines != []
    requires forall k :: 0 <= k < |lines| ==> IsPlainLine(lines[k])
    ensures Run(st, lines).inList == st.inList
    ensures FlushParagraph(Run(st, lines)).blocks == st.blocks + [Paragraph(Join(TrimLines(lines), " "))]
  {
    PlainLinesCollect(st, lines);
    RunInv(st, lines);
    assert st.paragraph + TrimLines(lines) == TrimLines(lines);
    FlushEmitsParagraph(Run(st, lines));
  }

  // --------------------------------------------------------------- lists

  /** A line that is a list item and nothing before it in the order of tests. */
  predicate IsItemLine(line: string)
  {
    !IsFence(line) && MatchHeading(line) == None && MatchListItem(line).Some?
  }

  /** The `<li>` block of each list-item line. */
  function ItemBlocks(lines: seq<string>): (r: seq<Block>)
    requires forall k :: 0 <= k < |lines| ==> IsItemLine(lines[k])
    ensures |r| == |lines|
  {
    if lines == [] then []
    else
      var last := lines[|lines| - 1];
      assert IsItemLine(last);
      ItemBlocks(lines[..|lines| - 1]) + [ListItem(MatchListItem(last).value)]
  }

  lemma StepItem(st: State, line: string)
    requires !st.inCode && IsItemLine(line)
    ensures var st1 := FlushParagraph(st);
      Step(st, line) == st1.(blocks := st1.blocks + (if st1.inList then [] else [ListOpen]) + [ListItem(MatchListItem(line).value)],
                             inList := true)
  {
    var st1 := FlushParagraph(st);
    if !st1.inList {
      assert st1.blocks + [ListOpen] + [ListItem(MatchListItem(line).value)]
          == st1.blocks + [ListOpen, ListItem(MatchListItem(line).value)];
    }
  }

  /** Consecutive list items share one `<ul>`, pushed only if no list was
      open; each item adds one `<li>`. */
  lemma {:induction false} ItemsShareOneList(st: State, lines: seq<string>)
    requires !st.inCode && lines != []
    requires forall k :: 0 <= k < |lines| ==> IsItemLine(lines[k])
    ensures Run(st, lines).inList && Run(st, lines).paragraph == [] && !Run(st, lines).inCode
    ensures Run(st, lines).blocks
         == FlushParagraph(st).blocks + (if st.inList then [] else [ListOpen]) + ItemBlocks(lines)
  {
    var init := lines[..|lines| - 1];
    var last := lines[|lines| - 1];
    var prev := Run(st, init);
    assert Run(st, lines) == Step(prev, last);
    var item := ListItem(MatchListItem(last).value);
    assert ItemBlocks(lines) == ItemBlocks(init) + [item];
    if init == [] {
      assert prev == st;
      StepItem(st, last);
    } else {
      ItemsShareOneList(st, init);
      assert FlushParagraph(prev) == prev;
      assert IsItemLine(last);
      StepItem(prev, last);
      assert Step(prev, last).blocks == prev.blocks + [item];
    }
  }

  // ---------------------------------------------------------- fenced code

  lemma StepCode(st: State, line: string)
    requires st.inCode && !IsFence(line)
    ensures Step(st, line) == st.(codeLines := st.codeLines + [line])
  {
  }

  /** Inside a code block, every line that is not a fence is kept verbatim and
      nothing is emitted. */
  lemma {:induction false} CodeLinesVerbatim(st: State, lines: seq<string>)
    requires st.inCode
    requires forall k :: 0 <= k < |lines| ==> !IsFence(lines[k])
    ensures Run(st, lines) == st.(codeLines := st.codeLines + lines)
  {
    if lines == [] {
      assert st.codeLines + lines == st.codeLines;
    } else {
      CodeLinesVerbatim(st, lines[..|lines| - 1]);
      StepCode(Run(st, lines[..|lines| - 1]), lines[|lines| - 1]);
      assert st.codeLines + lines[..|lines| - 1] + [lines[|lines| - 1]] == st.codeLines + lines;
    }
  }

  lemma StepOpenFence(st: State, line: string)
    requires !st.inCode && IsFence(line)
    ensures Step(st, line) == CloseList(FlushParagraph(st)).(inCode := true)
  {
  }

  lemma StepCloseFence(st: State, line: string)
    requires st.inCode && st.paragraph == [] && !st.inList && IsFence(line)
    ensures Step(st, line) == CloseCode(st)
  {
  }

  lemma RunOne(st: State, line: string)
    ensures Run(st, [line]) == Step(st, line)
  {
    assert [line][..0] == [];
  }

  /** An opening fence (with or without a language after the backticks)
      flushes the paragraph and closes the list; the lines up to the closing
      fence come out escaped, joined by newlines, in one `<pre><code>` block. */
  lemma FencedBlock(st: State, open: string, body: seq<string>, close: string)
    requires Inv(st) && !st.inCode
    requires IsFence(open) && IsFence(close)
    requires forall k :: 0 <= k < |body| ==> !IsFence(body[k])
    ensures var after := Run(st, [open] + body + [close]);
      && after.blocks == CloseList(FlushParagraph(st)).blocks + [Code(body)]
      && !after.inCode && !after.inList && after.paragraph == [] && after.codeLines == []
  {
    var started := OpenFence(st, open);
    RunConcat(st, [open], body);
    CodeLinesVerbatim(started, body);
    var inside := Run(st, [open] + body);
    assert inside == started.(codeLines := body);
    RunConcat(st, [open] + body, [close]);
    RunOne(inside, close);
    StepCloseFence(inside, close);
  }

  /** The state right after an opening fence outside code. */
  lemma OpenFence(st: State, open: string) returns (started: State)
    requires Inv(st) && !st.inCode && IsFence(open)
    ensures started == Run(st, [open])
    ensures started == CloseList(FlushParagraph(st)).(inCode := true)
    ensures started.paragraph == [] && !started.inList && started.codeLines == []
  {
    FlushParagraphInv(st);
    CloseListInv(FlushParagraph(st));
    RunOne(st, open);
    StepOpenFence(st, open);
    started := Run(st, [open]);
  }

  /** A fence that is never closed is closed at the end of the input, with
      every line after it. */
  lemma UnterminatedFence(st: State, open: string, body: seq<string>)
    requires Inv(st) && !st.inCode
    requires IsFence(open)
    requires forall k :: 0 <= k < |body| ==> !IsFence(body[k])
    ensures var final := Finish(Run(st, [open] + body));
      && final.blocks == CloseList(FlushParagraph(st)).blocks + [Code(body)]
      && !final.inCode
  {
    var started := OpenFence(st, open);
    RunConcat(st, [open], body);
    CodeLinesVerbatim(started, body);
    var inside := Run(st, [open] + body);
    assert inside == started.(codeLines := body);
    assert FlushParagraph(inside) == inside;
    assert CloseList(inside) == inside;
  }

  /** The body of a `<pre><code>` block holds no markup: `<`, `>`, `"` and
      `'` occur in it only as entities. */
  lemma CodeBodyHasNoMarkup(lines: seq<string>)
    ensures var body := Join(EscapeLines(lines), "\n");
      '<' !in body && '>' !in body && '"' !in body && '\'' !in body
  {
    var parts := EscapeLines(lines);
    JoinAvoids(parts, "\n", '<');
    JoinAvoids(parts, "\n", '>');
    JoinAvoids(parts, "\n", '"');
    JoinAvoids(parts, "\n", '\'');
  }

  /** Split at its line breaks and decoded, the body of a code block gives
      back the code lines, none of which holds a line break once the document
      is split. */
  lemma CodeBodyDecodes(lines: seq<string>)
    requires lines != []
    requires forall k :: 0 <= k < |lines| ==> '\n' !in lines[k]
    ensures var pieces := Split(Join(EscapeLines(lines), "\n"), '\n');
      && |pieces| == |lines|
      && forall k :: 0 <= k < |lines| ==> UnescapeHtml(pieces[k]) == lines[k]
  {
    var parts := EscapeLines(lines);
    forall k | 0 <= k < |parts|
      ensures '\n' !in parts[k]
    {
      EscapeAddsOnlyEntityChars(lines[k], '\n');
    }
    assert "\n" == ['\n'];
    SplitJoin(parts, '\n');
  }

  // ------------------------------------------------------------- headings

  /** A heading line flushes the paragraph and closes the list before its
      `<hN>` block, whose N is the number of `#`. */
  lemma HeadingStep(st: State, line: string)
    requires !st.inCode && !IsFence(line) && MatchHeading(line).Some?
    ensures var h := MatchHeading(line).value;
      && Step(st, line).blocks == CloseList(FlushParagraph(st)).blocks + [Heading(h.level, h.text)]
      && !Step(st, line).inList && Step(st, line).paragraph == []
      && !Step(st, line).inCode && Step(st, line).codeLines == st.codeLines
  {
  }

  function Hashes(n: nat): (r: string)
    ensures |r| == n && forall k :: 0 <= k < n ==> r[k] == '#'
  {
    if n == 0 then [] else "#" + Hashes(n - 1)
  }

  /** One to six `#`, a space and text that starts with no `\s` make a heading
      of that level with that text. */
  lemma HeadingOfHashes(n: nat, text: string)
    requires 1 <= n <= 6
    requires text != [] && !IsSpace(text[0]) && NoLineTerminator(text)
    ensures MatchHeading(Hashes(n) + " " + text) == Some(HeadingMatch(n, text))
  {
    var line := Hashes(n) + " " + text;
    assert line[n] == ' ';
    assert LeadingHashes(line) == n;
    var tail := line[n..];
    assert tail == " " + text;
    assert LeadingSpace(tail) == 1;
    assert tail[1..] == text;
    assert line[n + 1..] == text;
  }
}
