/**
  `renderMarkdown` as the program writes it: the variables its closures
  share become the fields of a `Renderer`, the closures become methods that
  update them, and the `for` loop over the lines becomes a loop proved to
  compute `Block.Render`. Next to the pushed strings the renderer keeps, as
  a ghost record, the blocks they spell out.
 */
module Renderer {
  import opened Strings
  import opened Inline
  import Block

  class Renderer {
    var html: seq<string>
    ghost var blocks: seq<Block.Block>
    var paragraph: seq<string>
    var inList: bool
    var inCode: bool
    var codeLines: seq<string>

    /** Every pushed string is the string of the recorded block. */
    ghost predicate Valid()
      reads this
    {
      html == Block.Html(blocks)
    }

    /** The fields as a value of the state machine in module Block. */
    ghost function State(): Block.State
      reads this
    {
      Block.State(blocks, paragraph, inList, inCode, codeLines)
    }

    /** The variables as `renderMarkdown` declares them. */
    constructor ()
      ensures Valid()
      ensures State() == Block.Initial
    {
      html := [];
      blocks := [];
      paragraph := [];
      inList := false;
      inCode := false;
      codeLines := [];
    }

    /** `html.push` of the string of `b`. */
    method Push(b: Block.Block, s: string)
      requires Valid()
      requires s == Block.BlockHtml(b)
      modifies this
      ensures Valid()
      ensures State() == old(State()).(blocks := old(blocks) + [b])
    {
      Block.HtmlPush(blocks, b);
      html := html + [s];
      blocks := blocks + [b];
    }

    /** `flushParagraph`: emit the buffered lines as one `<p>` unless they trim
        to nothing, then empty the buffer. */
    method FlushParagraph()
      requires Valid()
      modifies this
      ensures Valid()
      ensures State() == Block.FlushParagraph(old(State()))
    {
      if |paragraph| == 0 {
        return;
      }
      var text := Trim(Join(paragraph, " "));
      if text != [] {
        Push(Block.Paragraph(text), "<p>" + RenderInline(text) + "</p>");
      }
      paragraph := [];
    }

    /** `closeList`: emit `</ul>` if a list is open. */
    method CloseList()
      requires Valid()
      modifies this
      ensures Valid()
      ensures State() == Block.CloseList(old(State()))
    {
      if !inList {
        return;
      }
      Push(Block.ListClose, "</ul>");
      inList := false;
    }

    /** `closeCode`: emit the buffered code lines, escaped and joined by
        newlines, if a code block is open. */
    method CloseCode()
      requires Valid()
      modifies this
      ensures Valid()
      ensures State() == Block.CloseCode(old(State()))
    {
      if !inCode {
        return;
      }
      var code := Join(Block.EscapeLines(codeLines), "\n");
      Push(Block.Code(codeLines), "<pre><code>" + code + "</code></pre>");
      inCode := false;
      codeLines := [];
    }

    /** A fence line: close the paragraph and the list, then close the open
        code block or open one. */
    method Fence()
      requires Valid()
      modifies this
      ensures Valid()
      ensures State() == Block.Step(old(State()), "```")
    {
      FlushParagraph();
      CloseList();
      if inCode {
        CloseCode();
      } else {
        inCode := true;
      }
    }

    /** A heading line with `level` hashes and group 2 `text`. */
    method Heading(level: Block.Level, text: string)
      requires Valid() && !inCode
      modifies this
      ensures Valid()
      ensures State() == Block.CloseList(Block.FlushParagraph(old(State()))).(
        blocks := Block.CloseList(Block.FlushParagraph(old(State()))).blocks + [Block.Heading(level, text)])
    {
      FlushParagraph();
      CloseList();
      var n := "0123456789"[level];
      Push(Block.Heading(level, text), "<h" + [n] + ">" + RenderInline(Trim(text)) + "</h" + [n] + ">");
    }

    /** A list item line with captured text `item`. */
    method Item(item: string)
      requires Valid() && !inCode
      modifies this
      ensures Valid()
      ensures State() == Block.OpenList(Block.FlushParagraph(old(State()))).(
        blocks := Block.OpenList(Block.FlushParagraph(old(State()))).blocks + [Block.ListItem(item)])
    {
      FlushParagraph();
      OpenList();
      Push(Block.ListItem(item), "<li>" + RenderInline(Trim(item)) + "</li>");
    }

    /** Push `<ul>` unless a list is open. */
    method OpenList()
      requires Valid()
      modifies this
      ensures Valid()
      ensures State() == Block.OpenList(old(State()))
    {
      if !inList {
        Push(Block.ListOpen, "<ul>");
        inList := true;
      }
    }

    /** The body of the `for` loop, for one line. */
    method Line(line: string)
      requires Valid()
      modifies this
      ensures Valid()
      ensures State() == Block.Step(old(State()), line)
    {
      if Block.IsFence(line) {
        Fence();
        return;
      }
      if inCode {
        codeLines := codeLines + [line];
        return;
      }
      var heading := Block.MatchHeading(line);
      if heading.Some? {
        Heading(heading.value.level, heading.value.text);
        return;
      }
      var listItem := Block.MatchListItem(line);
      if listItem.Some? {
        Item(listItem.value);
        return;
      }
      if Block.IsBlank(line) {
        FlushParagraph();
        CloseList();
        return;
      }
      paragraph := paragraph + [Trim(line)];
    }
  }

  /** `renderMarkdown(markdown)`: split into lines, run the loop, flush what is
      still open and join the pushed strings with newlines. */
  method RenderMarkdown(markdown: string) returns (out: string)
    ensures out == Block.Render(markdown)
  {
    var lines := Block.Lines(markdown);
    var r := new Renderer();
    for i := 0 to |lines|
      invariant r.Valid()
      invariant r.State() == Block.Run(Block.Initial, lines[..i])
    {
      assert lines[..i + 1][..i] == lines[..i];
      r.Line(lines[i]);
    }
    assert lines[..|lines|] == lines;
    r.FlushParagraph();
    r.CloseList();
    r.CloseCode();
    out := Join(r.html, "\n");
  }
}
