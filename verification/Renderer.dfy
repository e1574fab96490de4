/** The one-pass Markdown renderer, a scanner over the lines with a paragraph buffer, and the proof
    that it computes the two-phase specification. */
module Renderer {
  import opened Options
  import opened Text
  import opened Inline
  import opened Blocks
  import opened Printing

  // ---------------------------------------------------------------- printed texts, one step at a time

  lemma ShowWrapped(e: Element, html: string)
    ensures ShowAll(Wrapped(e, html)) == OpenTag(e) + html + CloseTag(e)
  {
    hide OpenTag, CloseTag, ShowAll;
    assert Wrapped(e, html) == [Open(e)] + ([Content(html)] + ([Close(e)] + []));
    ShowFront(Open(e), [Content(html)] + ([Close(e)] + []));
    ShowFront(Content(html), [Close(e)] + []);
    ShowFront(Close(e), []);
    ShowNothing();
  }

  lemma TextsOne(c: Chunk)
    ensures Texts([c]) == [ShowAll(c)]
  {
    hide ShowAll;
    assert [c][1..] == [];
  }

  lemma {:induction false} EscapeAllAppend(lines: seq<string>, line: string)
    ensures EscapeAll(lines + [line]) == EscapeAll(lines) + [Escape(line)]
  {
    hide Escape;
    if lines == [] {
      assert [] + [line] == [line] && [line][1..] == [];
    } else {
      EscapeAllAppend(lines[1..], line);
      assert (lines + [line])[1..] == lines[1..] + [line];
    }
  }

  lemma {:induction false} ParagraphTextsAppend(lines: seq<string>, line: string)
    ensures ParagraphTexts(lines + [line]) == ParagraphTexts(lines) + [Escape(Strip(line))]
  {
    hide Escape, Strip;
    if lines == [] {
      assert [] + [line] == [line] && [line][1..] == [];
    } else {
      ParagraphTextsAppend(lines[1..], line);
      assert (lines + [line])[1..] == lines[1..] + [line];
    }
  }

  lemma {:induction false} QuoteTextsAppend(lines: seq<string>, line: string)
    ensures QuoteTexts(lines + [line]) == QuoteTexts(lines) + [Escape(QuoteText(line))]
  {
    hide Escape, QuoteText;
    if lines == [] {
      assert [] + [line] == [line] && [line][1..] == [];
    } else {
      QuoteTextsAppend(lines[1..], line);
      assert (lines + [line])[1..] == lines[1..] + [line];
    }
  }

  lemma {:induction false} CellChunksAppend(e: Element, cells: seq<string>, cell: string)
    ensures CellChunks(e, cells + [cell]) == CellChunks(e, cells) + [Wrapped(e, Formatted(cell))]
  {
    hide Formatted, Wrapped;
    if cells == [] {
      assert [] + [cell] == [cell] && [cell][1..] == [];
    } else {
      CellChunksAppend(e, cells[1..], cell);
      assert (cells + [cell])[1..] == cells[1..] + [cell];
    }
  }

  lemma {:induction false} ItemChunksAppend(ordered: bool, lines: seq<string>, line: string)
    ensures ItemChunks(ordered, lines + [line]) == ItemChunks(ordered, lines) + [Wrapped(Li, Formatted(ItemText(ordered, line)))]
  {
    hide Formatted, Wrapped, ItemText;
    if lines == [] {
      assert [] + [line] == [line] && [line][1..] == [];
    } else {
      ItemChunksAppend(ordered, lines[1..], line);
      assert (lines + [line])[1..] == lines[1..] + [line];
    }
  }

  function RowChunk(row: string): seq<Chunk> {
    [[Open(Tr)]] + CellChunks(Td, TableCells(row)) + [[Close(Tr)]]
  }

  lemma {:induction false} RowChunksAppend(rows: seq<string>, row: string)
    ensures RowChunks(rows + [row]) == RowChunks(rows) + RowChunk(row)
  {
    hide CellChunks, TableCells;
    if rows == [] {
      assert [] + [row] == [row] && [row][1..] == [];
    } else {
      RowChunksAppend(rows[1..], row);
      assert (rows + [row])[1..] == rows[1..] + [row];
      assert RowChunks(rows) == RowChunk(rows[0]) + RowChunks(rows[1..]);
    }
  }

  lemma ShowOne(e: Event)
    ensures ShowAll([e]) == Show(e)
  {
    hide Show, ShowAll;
    assert [e] + [] == [e];
    ShowFront(e, []);
    ShowNothing();
  }

  lemma ShowTwo(e: Event, f: Event)
    ensures ShowAll([e, f]) == Show(e) + Show(f)
  {
    hide Show, ShowAll;
    assert [e] + [f] == [e, f];
    ShowFront(e, [f]);
    ShowOne(f);
  }

  lemma NoTexts()
    ensures EscapeAll([]) == [] && QuoteTexts([]) == [] && ParagraphTexts([]) == []
    ensures Texts([]) == [] && RowChunks([]) == []
    ensures forall e :: CellChunks(e, []) == []
    ensures forall ordered :: ItemChunks(ordered, []) == []
  {
  }

  // ---------------------------------------------------------------- the block loops

  /** A fenced code block that opens at `at`: everything up to the closing fence, or to the end. */
  method FencedBlock(lines: seq<string>, at: nat) returns (printed: seq<string>, next: nat)
    requires at < |lines| && KindOf(lines[at..]) == FenceKind
    ensures printed == Texts(Chunks(First(lines[at..])))
    ensures next > at && Rest(lines, next) == Rest(lines, at + |First(lines[at..]).Source()|)
  {
    hide KindOf, Escape, EscapeAll, Strip, Join, Texts, First, Chunks, Rest, Continues, Block.Source;
    NoTexts();
    assert lines[at + 1..at + 1] == [];
    var i := at + 1;
    var code: seq<string> := [];
    while i < |lines| && !("```" <= Strip(lines[i]))
      invariant at + 1 <= i <= |lines|
      invariant code == EscapeAll(lines[at + 1..i])
      invariant forall k :: at + 1 <= k < i ==> Continues(FenceKind, lines[k])
    {
      FenceTest(lines[i]);
      EscapeAllAppend(lines[at + 1..i], lines[i]);
      assert lines[at + 1..i + 1] == lines[at + 1..i] + [lines[i]];
      code := code + [Escape(lines[i])];
      i := i + 1;
    }
    if i < |lines| {
      FenceTest(lines[i]);
    }
    FencedIsFirst(lines, at, i);
    FencedRest(lines, at, i);
    FencedPrinted(First(lines[at..]));
    next := i + 1;
    printed := ["<pre><code>" + Join(code, "\n") + "</code></pre>"];
  }

  lemma FenceTest(line: string)
    ensures "```" <= Strip(line) <==> !Continues(FenceKind, line)
  {
    hide Strip;
  }

  lemma FencedPrinted(b: Block)
    requires b.Fenced?
    ensures Texts(Chunks(b)) == ["<pre><code>" + Join(EscapeAll(b.body), "\n") + "</code></pre>"]
  {
    hide Texts, Join, EscapeAll;
    FencedText(Join(EscapeAll(b.body), "\n"));
  }

  lemma FencedText(html: string)
    ensures Texts([[Open(Pre), Open(CodeElement), Content(html), Close(CodeElement), Close(Pre)]])
         == ["<pre><code>" + html + "</code></pre>"]
  {
    hide ShowAll, Texts;
    var code := Wrapped(CodeElement, html);
    assert [Open(Pre), Open(CodeElement), Content(html), Close(CodeElement), Close(Pre)] == [Open(Pre)] + (code + [Close(Pre)]);
    TextsOne([Open(Pre)] + (code + [Close(Pre)]));
    ShowFront(Open(Pre), code + [Close(Pre)]);
    ShowConcat(code, [Close(Pre)]);
    ShowWrapped(CodeElement, html);
    ShowOne(Close(Pre));
    assert "<pre>" + ("<code>" + html + "</code>" + "</pre>") == "<pre><code>" + html + "</code></pre>";
  }

  lemma FencedIsFirst(lines: seq<string>, at: nat, end: nat)
    requires at < |lines| && KindOf(lines[at..]) == FenceKind && at + 1 <= end <= |lines|
    requires forall k :: at + 1 <= k < end ==> Continues(FenceKind, lines[k])
    requires end < |lines| ==> !Continues(FenceKind, lines[end])
    ensures First(lines[at..])
         == Fenced(lines[at], lines[at + 1..end], if end < |lines| then Some(lines[end]) else None)
  {
    hide KindOf, Continues, RunLength;
    var body, rest := lines[at + 1..end], lines[end..];
    assert lines[at..][1..] == body + rest;
    RunLengthExact(FenceKind, body, rest);
    assert (body + rest)[..|body|] == body;
  }

  /** The line after the closing fence, or after the end, is where the block stops. */
  lemma FencedRest(lines: seq<string>, at: nat, end: nat)
    requires at + 1 <= end <= |lines|
    requires First(lines[at..])
          == Fenced(lines[at], lines[at + 1..end], if end < |lines| then Some(lines[end]) else None)
    ensures Rest(lines, end + 1) == Rest(lines, at + |First(lines[at..]).Source()|)
  {
    hide First, Texts, Parse, AllChunks;
  }

  /** A quotation: all consecutive quoted lines. */
  method QuoteBlock(lines: seq<string>, at: nat) returns (printed: seq<string>, next: nat)
    requires at < |lines| && KindOf(lines[at..]) == QuoteKind
    ensures printed == Texts(Chunks(First(lines[at..])))
    ensures next > at && next == at + |First(lines[at..]).Source()|
  {
    hide KindOf, Escape, QuoteTexts, Strip, TrimLeft, Continues, Join, Texts, InlineHtml, First, Chunks, Block.Source;
    NoTexts();
    assert lines[at..at] == [];
    var i := at;
    var quoted: seq<string> := [];
    while i < |lines| && ">" <= Strip(lines[i])
      invariant at <= i <= |lines|
      invariant quoted == QuoteTexts(lines[at..i])
      invariant forall k :: at <= k < i ==> Continues(QuoteKind, lines[k])
    {
      QuoteTest(lines[i]);
      QuoteTextsAppend(lines[at..i], lines[i]);
      assert lines[at..i + 1] == lines[at..i] + [lines[i]];
      quoted := quoted + [Escape(Strip(TrimLeft(Strip(lines[i]), '>')))];
      i := i + 1;
    }
    if i < |lines| {
      QuoteTest(lines[i]);
    }
    RunIsFirst(QuoteKind, lines, at, i);
    QuotePrinted(lines[at..i]);
    next := i;
    printed := ["<blockquote>" + InlineHtml(Join(quoted, " ")) + "</blockquote>"];
  }

  lemma QuotePrinted(quote: seq<string>)
    ensures Texts(Chunks(Quote(quote))) == ["<blockquote>" + InlineHtml(Join(QuoteTexts(quote), " ")) + "</blockquote>"]
  {
    hide Texts, InlineHtml, Join, QuoteTexts, Wrapped;
    ShowWrapped(Blockquote, InlineHtml(Join(QuoteTexts(quote), " ")));
    TextsOne(Wrapped(Blockquote, InlineHtml(Join(QuoteTexts(quote), " "))));
  }

  lemma QuoteTest(line: string)
    ensures ">" <= Strip(line) <==> Continues(QuoteKind, line)
  {
    hide Strip;
  }

  function RunBlock(kind: Kind, run: seq<string>): Block
    requires kind in {QuoteKind, BulletKind, NumberedKind}
  {
    if kind == QuoteKind then Quote(run) else if kind == BulletKind then Bullets(run) else Numbered(run)
  }

  lemma RunIsFirst(kind: Kind, lines: seq<string>, at: nat, end: nat)
    requires at < |lines| && KindOf(lines[at..]) == kind && kind in {QuoteKind, BulletKind, NumberedKind}
    requires at <= end <= |lines| && forall k :: at <= k < end ==> Continues(kind, lines[k])
    requires end < |lines| ==> !Continues(kind, lines[end])
    ensures First(lines[at..]) == RunBlock(kind, lines[at..end])
    ensures end > at && end == at + |First(lines[at..]).Source()|
  {
    hide KindOf, Continues, RunLength;
    var run, rest := lines[at..end], lines[end..];
    assert lines[at..] == run + rest;
    KindFacts(lines[at..]);
    RunLengthExact(kind, run, rest);
    assert (run + rest)[..|run|] == run;
  }

  /** A list: all consecutive lines with a bullet, or with a number. */
  method ListBlock(ordered: bool, lines: seq<string>, at: nat) returns (printed: seq<string>, next: nat)
    requires at < |lines| && KindOf(lines[at..]) == if ordered then NumberedKind else BulletKind
    ensures printed == Texts(Chunks(First(lines[at..])))
    ensures next > at && next == at + |First(lines[at..]).Source()|
  {
    hide KindOf, BulletOf, NumberedOf, Texts, Formatted, ItemChunks, First, Chunks, Block.Source;
    ghost var kind := if ordered then NumberedKind else BulletKind;
    NoTexts();
    assert lines[at..at] == [];
    var i := at;
    printed := [if ordered then "<ol>" else "<ul>"];
    while i < |lines| && (if ordered then NumberedOf(lines[i]) else BulletOf(lines[i])).Some?
      invariant at <= i <= |lines|
      invariant printed == [if ordered then "<ol>" else "<ul>"] + Texts(ItemChunks(ordered, lines[at..i]))
      invariant forall k :: at <= k < i ==> Continues(kind, lines[k])
    {
      var item := (if ordered then NumberedOf(lines[i]) else BulletOf(lines[i])).value;
      assert lines[at..i + 1] == lines[at..i] + [lines[i]];
      ItemAppended(ordered, lines[at..i], lines[i]);
      printed := printed + ["<li>" + Formatted(item) + "</li>"];
      i := i + 1;
    }
    RunIsFirst(kind, lines, at, i);
    next := i;
    printed := printed + [if ordered then "</ol>" else "</ul>"];
    ListText(ordered, lines[at..i]);
  }

  lemma ItemAppended(ordered: bool, lines: seq<string>, line: string)
    ensures Texts(ItemChunks(ordered, lines + [line]))
         == Texts(ItemChunks(ordered, lines)) + ["<li>" + Formatted(ItemText(ordered, line)) + "</li>"]
  {
    hide Texts, Formatted, ItemText, Wrapped;
    ItemChunksAppend(ordered, lines, line);
    TextsConcat(ItemChunks(ordered, lines), [Wrapped(Li, Formatted(ItemText(ordered, line)))]);
    TextsOne(Wrapped(Li, Formatted(ItemText(ordered, line))));
    ShowWrapped(Li, Formatted(ItemText(ordered, line)));
  }

  lemma ListText(ordered: bool, lines: seq<string>)
    ensures Texts(Chunks(if ordered then Numbered(lines) else Bullets(lines)))
         == [if ordered then "<ol>" else "<ul>"] + Texts(ItemChunks(ordered, lines)) + [if ordered then "</ol>" else "</ul>"]
  {
    hide Texts, ItemChunks, ShowAll;
    var e := if ordered then Ol else Ul;
    var items := ItemChunks(ordered, lines);
    TextsConcat([[Open(e)]] + items, [[Close(e)]]);
    TextsConcat([[Open(e)]], items);
    TextsOne([Open(e)]);
    TextsOne([Close(e)]);
    ShowOne(Open(e));
    ShowOne(Close(e));
  }

  /** The cells of one table row. */
  method Cells(e: Element, cells: seq<string>) returns (printed: seq<string>)
    requires e == Th || e == Td
    ensures printed == Texts(CellChunks(e, cells))
  {
    hide Texts, Formatted, CellChunks, Wrapped;
    printed := [];
    NoTexts();
    assert cells[..0] == [];
    for k := 0 to |cells|
      invariant printed == Texts(CellChunks(e, cells[..k]))
    {
      CellChunksAppend(e, cells[..k], cells[k]);
      assert cells[..k + 1] == cells[..k] + [cells[k]];
      TextsConcat(CellChunks(e, cells[..k]), [Wrapped(e, Formatted(cells[k]))]);
      TextsOne(Wrapped(e, Formatted(cells[k])));
      ShowWrapped(e, Formatted(cells[k]));
      if e == Th {
        printed := printed + ["<th scope=\"col\">" + Formatted(cells[k]) + "</th>"];
      } else {
        printed := printed + ["<td>" + Formatted(cells[k]) + "</td>"];
      }
    }
    assert cells[..|cells|] == cells;
  }

  /** A table: a header row, a separator row, and all consecutive rows that start with a bar. */
  method TableBlock(lines: seq<string>, at: nat) returns (printed: seq<string>, next: nat)
    requires at < |lines| && KindOf(lines[at..]) == TableKind
    ensures printed == Texts(Chunks(First(lines[at..])))
    ensures next > at && next == at + |First(lines[at..]).Source()|
  {
    hide KindOf, Texts, TableCells, Strip, Continues, CellChunks, RowChunks, First, Chunks, Block.Source;
    KindFacts(lines[at..]);
    assert |lines[at..]| > 1;
    var headers := Cells(Th, TableCells(lines[at]));
    printed := ["<table class=\"usa-table usa-table--borderless\">", "<thead><tr>"] + headers + ["</tr></thead><tbody>"];
    ghost var opening := printed;
    var i := at + 2;
    NoTexts();
    assert lines[at + 2..at + 2] == [];
    while i < |lines| && "|" <= Strip(lines[i])
      invariant at + 2 <= i <= |lines|
      invariant printed == opening + Texts(RowChunks(lines[at + 2..i]))
      invariant forall k :: at + 2 <= k < i ==> Continues(TableKind, lines[k])
    {
      BarTest(lines[i]);
      var cells := Cells(Td, TableCells(lines[i]));
      RowAppended(lines[at + 2..i], lines[i]);
      assert lines[at + 2..i + 1] == lines[at + 2..i] + [lines[i]];
      printed := printed + (["<tr>"] + cells + ["</tr>"]);
      i := i + 1;
    }
    if i < |lines| {
      BarTest(lines[i]);
    }
    TableIsFirst(lines, at, i);
    next := i;
    printed := printed + ["</tbody></table>"];
    TableText(lines[at], lines[at + 1], lines[at + 2..i]);
  }

  lemma BarTest(line: string)
    ensures "|" <= Strip(line) <==> Continues(TableKind, line)
  {
    hide Strip;
  }

  lemma RowAppended(rows: seq<string>, row: string)
    ensures Texts(RowChunks(rows + [row]))
         == Texts(RowChunks(rows)) + (["<tr>"] + Texts(CellChunks(Td, TableCells(row))) + ["</tr>"])
  {
    hide Texts, RowChunks, CellChunks, TableCells, ShowAll;
    var cells := CellChunks(Td, TableCells(row));
    RowChunksAppend(rows, row);
    TextsConcat(RowChunks(rows), RowChunk(row));
    TextsConcat([[Open(Tr)]] + cells, [[Close(Tr)]]);
    TextsConcat([[Open(Tr)]], cells);
    TextsOne([Open(Tr)]);
    TextsOne([Close(Tr)]);
    ShowOne(Open(Tr));
    ShowOne(Close(Tr));
  }

  lemma TableIsFirst(lines: seq<string>, at: nat, end: nat)
    requires at + 2 <= end <= |lines| && KindOf(lines[at..]) == TableKind
    requires forall k :: at + 2 <= k < end ==> Continues(TableKind, lines[k])
    requires end < |lines| ==> !Continues(TableKind, lines[end])
    ensures First(lines[at..]) == Table(lines[at], lines[at + 1], lines[at + 2..end])
    ensures end == at + |First(lines[at..]).Source()|
  {
    hide KindOf, Continues;
    var rows, rest := lines[at + 2..end], lines[end..];
    assert lines[at..][2..] == rows + rest;
    RunLengthExact(TableKind, rows, rest);
    assert (rows + rest)[..|rows|] == rows;
  }

  lemma TableText(header: string, separator: string, rows: seq<string>)
    ensures Texts(Chunks(Table(header, separator, rows)))
         == ["<table class=\"usa-table usa-table--borderless\">", "<thead><tr>"] + Texts(CellChunks(Th, TableCells(header)))
            + ["</tr></thead><tbody>"] + Texts(RowChunks(rows)) + ["</tbody></table>"]
  {
    hide Texts, RowChunks, CellChunks, TableCells, ShowAll;
    var cells := CellChunks(Th, TableCells(header));
    var open := [[Open(TableElement)], [Open(Thead), Open(Tr)]];
    var mid := [[Close(Tr), Close(Thead), Open(Tbody)]];
    var last := [[Close(Tbody), Close(TableElement)]];
    TextsConcat(open + cells + mid + RowChunks(rows), last);
    TextsConcat(open + cells + mid, RowChunks(rows));
    TextsConcat(open + cells, mid);
    TextsConcat(open, cells);
    TableFrame();
  }

  lemma TableFrame()
    ensures Texts([[Open(TableElement)], [Open(Thead), Open(Tr)]])
         == ["<table class=\"usa-table usa-table--borderless\">", "<thead><tr>"]
    ensures Texts([[Close(Tr), Close(Thead), Open(Tbody)]]) == ["</tr></thead><tbody>"]
    ensures Texts([[Close(Tbody), Close(TableElement)]]) == ["</tbody></table>"]
  {
    hide Texts, ShowAll;
    assert [[Open(TableElement)]] + [[Open(Thead), Open(Tr)]] == [[Open(TableElement)], [Open(Thead), Open(Tr)]];
    TextsConcat([[Open(TableElement)]], [[Open(Thead), Open(Tr)]]);
    TextsOne([Open(TableElement)]);
    ShowOne(Open(TableElement));
    TextsOne([Open(Thead), Open(Tr)]);
    TextsOne([Close(Tr), Close(Thead), Open(Tbody)]);
    TextsOne([Close(Tbody), Close(TableElement)]);
    TableTags();
  }

  lemma TableTags()
    ensures ShowAll([Open(Thead), Open(Tr)]) == "<thead><tr>"
    ensures ShowAll([Close(Tr), Close(Thead), Open(Tbody)]) == "</tr></thead><tbody>"
    ensures ShowAll([Close(Tbody), Close(TableElement)]) == "</tbody></table>"
  {
    hide ShowAll;
    ShowTwo(Open(Thead), Open(Tr));
    assert [Close(Tr), Close(Thead), Open(Tbody)] == [Close(Tr)] + [Close(Thead), Open(Tbody)];
    ShowFront(Close(Tr), [Close(Thead), Open(Tbody)]);
    ShowTwo(Close(Thead), Open(Tbody));
    ShowTwo(Close(Tbody), Close(TableElement));
  }

  // ---------------------------------------------------------------- the main loop

  /** What the specification still has to print from line `i` on. */
  function Rest(lines: seq<string>, i: nat): seq<string> {
    if i >= |lines| then [] else Texts(AllChunks(Parse(lines[i..])))
  }

  lemma RestStep(lines: seq<string>, i: nat)
    requires i < |lines|
    ensures Rest(lines, i) == Texts(Chunks(First(lines[i..]))) + Rest(lines, i + |First(lines[i..]).Source()|)
  {
    hide Texts, First, Chunks, Block.Source;
    var here := lines[i..];
    var b := First(here);
    FirstTakesLines(here);
    var after := here[|b.Source()|..];
    assert after == lines[i + |b.Source()|..];
    assert Parse(here) == [b] + Parse(after) && Parse(here)[1..] == Parse(after);
    TextsConcat(Chunks(b), AllChunks(Parse(after)));
    if after == [] {
      NoTexts();
    }
  }

  /** The output so far together with the buffered paragraph lines agrees with the specification:
      buffering started at line `start`, and every line since is paragraph text. */
  predicate OnTrack(lines: seq<string>, start: nat, i: nat, out: seq<string>, para: seq<string>) {
    && start <= i && (start < i ==> i <= |lines|)
    && (forall k :: start <= k < i && k < |lines| ==> KindOf(lines[k..]) == TextKind)
    && para == (if start < i then ParagraphTexts(lines[start..i]) else [])
    && out + Rest(lines, start) == Rest(lines, 0)
  }

  method FlushPara(out: seq<string>, para: seq<string>) returns (out': seq<string>, para': seq<string>)
    ensures para' == []
    ensures out' == out + if para == [] then [] else ["<p>" + InlineHtml(Join(para, " ")) + "</p>"]
  {
    out', para' := out, para;
    if para != [] {
      var joined := Join(para, " ");
      out' := out' + ["<p>" + InlineHtml(joined) + "</p>"];
      para' := [];
    }
  }

  lemma {:induction false} ParagraphTextsSize(lines: seq<string>)
    ensures |ParagraphTexts(lines)| == |lines|
  {
    hide Escape, Strip;
    if lines != [] {
      ParagraphTextsSize(lines[1..]);
    }
  }

  lemma ParagraphIsFirst(lines: seq<string>, start: nat, i: nat)
    requires start < i <= |lines| && forall k :: start <= k < i ==> KindOf(lines[k..]) == TextKind
    requires i < |lines| ==> KindOf(lines[i..]) != TextKind
    ensures First(lines[start..]) == Paragraph(lines[start..i])
    ensures |First(lines[start..]).Source()| == i - start
  {
    hide KindOf, TextLength;
    var text, rest := lines[start..i], lines[i..];
    assert lines[start..] == text + rest;
    forall k | 0 <= k < |text| ensures KindOf(text[k..] + rest) == TextKind {
      assert text[k..] + rest == lines[start + k..];
    }
    TextLengthExact(text, rest);
    assert lines[start..][..|text|] == text;
  }

  lemma ParagraphPrinted(lines: seq<string>)
    ensures Texts(Chunks(Paragraph(lines))) == ["<p>" + InlineHtml(Join(ParagraphTexts(lines), " ")) + "</p>"]
  {
    hide Texts, InlineHtml, Join, ParagraphTexts, Wrapped;
    var html := InlineHtml(Join(ParagraphTexts(lines), " "));
    TextsOne(Wrapped(P, html));
    ShowWrapped(P, html);
  }

  /** At a line that is not paragraph text, flushing prints exactly the paragraph block. */
  lemma Flushed(lines: seq<string>, start: nat, i: nat, out: seq<string>, para: seq<string>)
    requires OnTrack(lines, start, i, out, para)
    requires i < |lines| ==> KindOf(lines[i..]) != TextKind
    ensures OnTrack(lines, i, i, out + if para == [] then [] else ["<p>" + InlineHtml(Join(para, " ")) + "</p>"], [])
  {
    hide KindOf, InlineHtml, Join, Rest, ParagraphTexts, Texts, First, Chunks, Block.Source;
    if start < i {
      var html := InlineHtml(Join(para, " "));
      ParagraphIsFirst(lines, start, i);
      ParagraphPrinted(lines[start..i]);
      ParagraphTextsSize(lines[start..i]);
      RestStep(lines, start);
      assert out + ["<p>" + html + "</p>"] + Rest(lines, i) == out + (["<p>" + html + "</p>"] + Rest(lines, i));
    }
  }

  /** One more block printed behind a flushed buffer. */
  lemma BlockPrinted(lines: seq<string>, i: nat, out: seq<string>, printed: seq<string>, next: nat)
    requires i < |lines| && OnTrack(lines, i, i, out, []) && next > i
    requires printed == Texts(Chunks(First(lines[i..])))
    requires Rest(lines, next) == Rest(lines, i + |First(lines[i..]).Source()|)
    ensures OnTrack(lines, next, next, out + printed, [])
  {
    hide KindOf, Rest, Texts, First, Chunks, Block.Source;
    RestStep(lines, i);
    assert out + printed + Rest(lines, next) == out + (printed + Rest(lines, next));
  }

  lemma LineBuffered(lines: seq<string>, start: nat, i: nat, out: seq<string>, para: seq<string>)
    requires i < |lines| && OnTrack(lines, start, i, out, para) && KindOf(lines[i..]) == TextKind
    ensures OnTrack(lines, start, i + 1, out, para + [Escape(Strip(lines[i]))])
  {
    hide KindOf, Rest, Escape, Strip, ParagraphTexts;
    ParagraphTextsAppend(lines[start..i], lines[i]);
    assert lines[start..i + 1] == lines[start..i] + [lines[i]];
    NoTexts();
  }

  lemma BlankPrinted(lines: seq<string>)
    requires lines != [] && KindOf(lines) == BlankKind
    ensures Texts(Chunks(First(lines))) == [] && |First(lines).Source()| == 1
  {
    hide KindOf;
  }

  lemma RulePrinted(lines: seq<string>)
    requires lines != [] && KindOf(lines) == RuleKind
    ensures Texts(Chunks(First(lines))) == ["<hr>"] && |First(lines).Source()| == 1
  {
    hide KindOf, Texts, ShowAll;
    TextsOne([RuleTag]);
    ShowOne(RuleTag);
  }

  lemma HeadingPrinted(lines: seq<string>)
    requires lines != [] && KindOf(lines) == HeadingKind && HeadingOf(lines[0]).Some?
    ensures var h := HeadingOf(lines[0]).value;
            && h.0 < 10
            && Texts(Chunks(First(lines))) == ["<h" + [Digit(h.0)] + ">" + Formatted(h.1) + "</h" + [Digit(h.0)] + ">"]
            && |First(lines).Source()| == 1
  {
    hide KindOf, Texts, ShowAll, HeadingOf, Formatted, Digit, Wrapped;
    HeadingLevel(lines[0]);
    var h := HeadingOf(lines[0]).value;
    TextsOne(Wrapped(H(Digit(h.0)), Formatted(h.1)));
    ShowWrapped(H(Digit(h.0)), Formatted(h.1));
    assert "<h" + [Digit(h.0)] + ">" + Formatted(h.1) + ("</h" + [Digit(h.0)] + ">")
        == "<h" + [Digit(h.0)] + ">" + Formatted(h.1) + "</h" + [Digit(h.0)] + ">";
  }

  /** The tests of the scanner, in its order, decide the kind. */
  lemma KindDecided(lines: seq<string>, i: nat)
    requires i < |lines|
    ensures KindOf(lines[i..]) ==
            if IsFence(lines[i]) then FenceKind
            else if IsBlank(lines[i]) then BlankKind
            else if IsRule(lines[i]) then RuleKind
            else if HeadingOf(lines[i]).Some? then HeadingKind
            else if StartsWithBar(lines[i]) && i + 1 < |lines| && IsSeparator(lines[i + 1]) then TableKind
            else if IsQuote(lines[i]) then QuoteKind
            else if BulletOf(lines[i]).Some? then BulletKind
            else if NumberedOf(lines[i]).Some? then NumberedKind
            else TextKind
  {
    hide IsFence, IsBlank, IsRule, HeadingOf, StartsWithBar, IsSeparator, IsQuote, BulletOf, NumberedOf;
    assert lines[i..][0] == lines[i];
    if i + 1 < |lines| {
      assert lines[i..][1] == lines[i + 1];
    }
  }

  /** The renderer computes the two-phase specification, on every source text. */
  method RenderMarkdown(src: string) returns (html: string)
    ensures html == Render(src)
  {
    hide KindOf, Rest, OnTrack, Texts, First, Chunks, InlineHtml, Formatted, Parse, Digit, Join,
         IsFence, IsBlank, IsRule, HeadingOf, StartsWithBar, IsSeparator, IsQuote, BulletOf, NumberedOf;
    var lines := Split(UnixNewlines(src), '\n');
    var out: seq<string> := [];
    var i := 0;
    var n := |lines|;
    var para: seq<string> := [];
    ghost var start := 0;
    Start(lines);
    while i < n
      invariant OnTrack(lines, start, i, out, para)
      decreases n - i
    {
      KindDecided(lines, i);
      if KindOf(lines[i..]) != TextKind {
        Flushed(lines, start, i, out, para);
      }
      var printed: seq<string>;
      var next: nat;
      if IsFence(lines[i]) {
        out, para := FlushPara(out, para);
        printed, next := FencedBlock(lines, i);
      } else if IsBlank(lines[i]) {
        out, para := FlushPara(out, para);
        BlankPrinted(lines[i..]);
        printed, next := [], i + 1;
      } else if IsRule(lines[i]) {
        out, para := FlushPara(out, para);
        RulePrinted(lines[i..]);
        printed, next := ["<hr>"], i + 1;
      } else if HeadingOf(lines[i]).Some? {
        out, para := FlushPara(out, para);
        HeadingPrinted(lines[i..]);
        var h := HeadingOf(lines[i]).value;
        printed, next := ["<h" + [Digit(h.0)] + ">" + Formatted(h.1) + "</h" + [Digit(h.0)] + ">"], i + 1;
      } else if StartsWithBar(lines[i]) && i + 1 < n && IsSeparator(lines[i + 1]) {
        out, para := FlushPara(out, para);
        printed, next := TableBlock(lines, i);
      } else if IsQuote(lines[i]) {
        out, para := FlushPara(out, para);
        printed, next := QuoteBlock(lines, i);
      } else if BulletOf(lines[i]).Some? {
        out, para := FlushPara(out, para);
        printed, next := ListBlock(false, lines, i);
      } else if NumberedOf(lines[i]).Some? {
        out, para := FlushPara(out, para);
        printed, next := ListBlock(true, lines, i);
      } else {
        LineBuffered(lines, start, i, out, para);
        para := para + [Escape(Strip(lines[i]))];
        i := i + 1;
        continue;
      }
      BlockPrinted(lines, i, out, printed, next);
      out := out + printed;
      i := next;
      start := next;
    }
    Flushed(lines, start, i, out, para);
    out, para := FlushPara(out, para);
    Finished(lines, i, out);
    html := Join(out, "\n");
  }

  lemma Start(lines: seq<string>)
    ensures OnTrack(lines, 0, 0, [], [])
  {
    hide Rest;
  }

  lemma Finished(lines: seq<string>, i: nat, out: seq<string>)
    requires OnTrack(lines, i, i, out, []) && i >= |lines|
    ensures out == Texts(AllChunks(Parse(lines)))
  {
    hide KindOf, Texts;
    assert lines[0..] == lines;
    if lines == [] {
      NoTexts();
    }
  }
}
