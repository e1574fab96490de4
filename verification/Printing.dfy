/** How the documentation renderer prints a block, and what is true of everything it prints. */
module Printing {
  import opened Options
  import opened Text
  import opened Inline
  import opened Blocks

  // ---------------------------------------------------------------- markup as events

  datatype Element =
    | P | H(digit: char) | Pre | CodeElement | Blockquote | Ul | Ol | Li
    | TableElement | Thead | Tbody | Tr | Th | Td

  function OpenTag(e: Element): string {
    match e
    case P => "<p>"
    case H(d) => "<h" + [d] + ">"
    case Pre => "<pre>"
    case CodeElement => "<code>"
    case Blockquote => "<blockquote>"
    case Ul => "<ul>"
    case Ol => "<ol>"
    case Li => "<li>"
    case TableElement => "<table class=\"usa-table usa-table--borderless\">"
    case Thead => "<thead>"
    case Tbody => "<tbody>"
    case Tr => "<tr>"
    case Th => "<th scope=\"col\">"
    case Td => "<td>"
  }

  function CloseTag(e: Element): string {
    match e
    case P => "</p>"
    case H(d) => "</h" + [d] + ">"
    case Pre => "</pre>"
    case CodeElement => "</code>"
    case Blockquote => "</blockquote>"
    case Ul => "</ul>"
    case Ol => "</ol>"
    case Li => "</li>"
    case TableElement => "</table>"
    case Thead => "</thead>"
    case Tbody => "</tbody>"
    case Tr => "</tr>"
    case Th => "</th>"
    case Td => "</td>"
  }

  datatype Event = Open(element: Element) | Close(element: Element) | Content(html: string) | RuleTag | NewLine

  function Show(e: Event): string {
    match e
    case Open(element) => OpenTag(element)
    case Close(element) => CloseTag(element)
    case Content(html) => html
    case RuleTag => "<hr>"
    case NewLine => "\n"
  }

  function ShowAll(events: seq<Event>): string {
    if events == [] then "" else Show(events[0]) + ShowAll(events[1..])
  }

  // ---------------------------------------------------------------- phase two: printing a block

  /** The pieces of output a block appends, each a short run of events. */
  type Chunk = seq<Event>

  function Wrapped(e: Element, html: string): Chunk {
    [Open(e), Content(html), Close(e)]
  }

  function Formatted(text: string): string {
    InlineHtml(Escape(text))
  }

  function EscapeAll(lines: seq<string>): seq<string>
    decreases |lines|
  {
    if lines == [] then [] else [Escape(lines[0])] + EscapeAll(lines[1..])
  }

  function ParagraphTexts(lines: seq<string>): seq<string>
    decreases |lines|
  {
    if lines == [] then [] else [Escape(Strip(lines[0]))] + ParagraphTexts(lines[1..])
  }

  function QuoteText(line: string): string {
    Strip(TrimLeft(Strip(line), '>'))
  }

  function QuoteTexts(lines: seq<string>): seq<string>
    decreases |lines|
  {
    if lines == [] then [] else [Escape(QuoteText(lines[0]))] + QuoteTexts(lines[1..])
  }

  /** `_split_table_row` */
  function StripAll(cells: seq<string>): seq<string>
    decreases |cells|
  {
    if cells == [] then [] else [Strip(cells[0])] + StripAll(cells[1..])
  }

  function TableCells(line: string): seq<string> {
    StripAll(Split(TrimRight(TrimLeft(Strip(line), '|'), '|'), '|'))
  }

  function CellChunks(e: Element, cells: seq<string>): seq<Chunk>
    decreases |cells|
  {
    if cells == [] then [] else [Wrapped(e, Formatted(cells[0]))] + CellChunks(e, cells[1..])
  }

  function RowChunks(rows: seq<string>): seq<Chunk>
    decreases |rows|
  {
    if rows == [] then []
    else [[Open(Tr)]] + CellChunks(Td, TableCells(rows[0])) + [[Close(Tr)]] + RowChunks(rows[1..])
  }

  /** The text of a list line; every line of a list block has one. */
  function ItemText(ordered: bool, line: string): string {
    var item := if ordered then NumberedOf(line) else BulletOf(line);
    if item.Some? then item.value else ""
  }

  function ItemChunks(ordered: bool, lines: seq<string>): seq<Chunk>
    decreases |lines|
  {
    if lines == [] then []
    else [Wrapped(Li, Formatted(ItemText(ordered, lines[0])))] + ItemChunks(ordered, lines[1..])
  }

  function HeadingChunk(line: string): Chunk {
    var h := HeadingOf(line);
    if h.Some? then
      HeadingLevel(line);
      Wrapped(H(Digit(h.value.0)), Formatted(h.value.1))
    else []
  }

  function Chunks(b: Block): seq<Chunk> {
    match b
    case Fenced(_, body, _) =>
      [[Open(Pre), Open(CodeElement), Content(Join(EscapeAll(body), "\n")), Close(CodeElement), Close(Pre)]]
    case Blank(_) => []
    case Rule(_) => [[RuleTag]]
    case Heading(line) => [HeadingChunk(line)]
    case Table(header, _, rows) =>
      [[Open(TableElement)], [Open(Thead), Open(Tr)]] + CellChunks(Th, TableCells(header))
      + [[Close(Tr), Close(Thead), Open(Tbody)]] + RowChunks(rows) + [[Close(Tbody), Close(TableElement)]]
    case Quote(lines) => [Wrapped(Blockquote, InlineHtml(Join(QuoteTexts(lines), " ")))]
    case Bullets(lines) => [[Open(Ul)]] + ItemChunks(false, lines) + [[Close(Ul)]]
    case Numbered(lines) => [[Open(Ol)]] + ItemChunks(true, lines) + [[Close(Ol)]]
    case Paragraph(lines) => [Wrapped(P, InlineHtml(Join(ParagraphTexts(lines), " ")))]
  }

  function AllChunks(blocks: seq<Block>): seq<Chunk> {
    if blocks == [] then [] else Chunks(blocks[0]) + AllChunks(blocks[1..])
  }

  function Texts(chunks: seq<Chunk>): seq<string> {
    if chunks == [] then [] else [ShowAll(chunks[0])] + Texts(chunks[1..])
  }

  function LinesOf(src: string): seq<string> {
    Split(UnixNewlines(src), '\n')
  }

  /** The lines the blocks are made of, put back together, are the source text: not a character of it
      is dropped, repeated or moved. */
  lemma SourceConsumedOnce(src: string)
    ensures Join(Unparse(Parse(LinesOf(src))), "\n") == UnixNewlines(src)
  {
    hide Parse, Unparse, Join, Split;
    ParseLossless(LinesOf(src));
    JoinSplit(UnixNewlines(src), '\n');
  }

  /** The two-phase specification of the renderer: lines to blocks, blocks to text. */
  function Render(src: string): string {
    Join(Texts(AllChunks(Parse(LinesOf(src)))), "\n")
  }

  /** The tags as they are written. */
  lemma TagsExact(d: char)
    ensures OpenTag(P) == "<p>" && OpenTag(H(d)) == "<h" + [d] + ">"
    ensures OpenTag(Pre) == "<pre>" && OpenTag(CodeElement) == "<code>"
    ensures OpenTag(Blockquote) == "<blockquote>" && OpenTag(Ul) == "<ul>" && OpenTag(Ol) == "<ol>" && OpenTag(Li) == "<li>"
    ensures OpenTag(TableElement) == "<table class=\"usa-table usa-table--borderless\">"
    ensures OpenTag(Thead) == "<thead>" && OpenTag(Tbody) == "<tbody>" && OpenTag(Tr) == "<tr>"
    ensures OpenTag(Th) == "<th scope=\"col\">" && OpenTag(Td) == "<td>"
    ensures CloseTag(P) == "</p>" && CloseTag(H(d)) == "</h" + [d] + ">" && CloseTag(Pre) == "</pre>"
    ensures CloseTag(CodeElement) == "</code>" && CloseTag(Blockquote) == "</blockquote>" && CloseTag(Ul) == "</ul>"
    ensures CloseTag(Ol) == "</ol>" && CloseTag(Li) == "</li>" && CloseTag(TableElement) == "</table>"
    ensures CloseTag(Thead) == "</thead>" && CloseTag(Tbody) == "</tbody>" && CloseTag(Tr) == "</tr>"
    ensures CloseTag(Th) == "</th>" && CloseTag(Td) == "</td>"
  {
  }

  lemma {:induction false} TextsConcat(a: seq<Chunk>, b: seq<Chunk>)
    ensures Texts(a + b) == Texts(a) + Texts(b)
  {
    hide ShowAll;
    if a == [] {
      assert a + b == b;
    } else {
      TextsConcat(a[1..], b);
      assert (a + b)[1..] == a[1..] + b;
    }
  }

  lemma ShowFront(e: Event, rest: seq<Event>)
    ensures ShowAll([e] + rest) == Show(e) + ShowAll(rest)
  {
    hide Show;
    assert ([e] + rest)[1..] == rest;
  }

  lemma {:induction false} ShowConcat(a: seq<Event>, b: seq<Event>)
    ensures ShowAll(a + b) == ShowAll(a) + ShowAll(b)
  {
    hide Show, ShowAll;
    if a == [] {
      assert a + b == b;
      ShowNothing();
    } else {
      ShowConcat(a[1..], b);
      ShowFront(a[0], a[1..] + b);
      ShowFront(a[0], a[1..]);
      assert a + b == [a[0]] + (a[1..] + b) && a == [a[0]] + a[1..];
    }
  }

  lemma ShowNothing()
    ensures ShowAll([]) == ""
  {
  }

  // ---------------------------------------------------------------- the whole document as events

  /** The chunks in order, a new line between any two. */
  function Lined(chunks: seq<Chunk>): seq<Event> {
    if chunks == [] then []
    else if |chunks| == 1 then chunks[0]
    else chunks[0] + ([NewLine] + Lined(chunks[1..]))
  }

  function DocumentEvents(src: string): seq<Event> {
    Lined(AllChunks(Parse(LinesOf(src))))
  }

  lemma ShowNewLine(rest: seq<Event>)
    ensures ShowAll([NewLine] + rest) == "\n" + ShowAll(rest)
  {
    assert ([NewLine] + rest)[1..] == rest;
  }

  lemma {:induction false} LinedShows(chunks: seq<Chunk>)
    ensures ShowAll(Lined(chunks)) == Join(Texts(chunks), "\n")
  {
    hide Show;
    if |chunks| > 1 {
      LinedShows(chunks[1..]);
      ShowConcat(chunks[0], [NewLine] + Lined(chunks[1..]));
      ShowNewLine(Lined(chunks[1..]));
    }
  }

  // ---------------------------------------------------------------- nesting

  /** Which element may stand directly inside which; no parent means the top of the document. */
  predicate MayHold(stack: seq<Element>, child: Element) {
    if stack == [] then child.P? || child.H? || child in {Pre, Blockquote, Ul, Ol, TableElement}
    else
      match stack[|stack| - 1]
      case Pre => child == CodeElement
      case Ul => child == Li
      case Ol => child == Li
      case TableElement => child == Thead || child == Tbody
      case Thead => child == Tr
      case Tbody => child == Tr
      case Tr => child == Th || child == Td
      case _ => false
  }

  predicate HoldsText(stack: seq<Element>) {
    stack != [] && match stack[|stack| - 1]
                   case P => true case H(_) => true case CodeElement => true case Blockquote => true
                   case Li => true case Th => true case Td => true
                   case _ => false
  }

  /** One event over the stack of open elements; None when a tag or text stands where it must not. */
  function Apply(e: Event, stack: seq<Element>): Option<seq<Element>> {
    match e
    case Open(element) => if MayHold(stack, element) then Some(stack + [element]) else None
    case Close(element) =>
      if stack != [] && stack[|stack| - 1] == element then Some(stack[..|stack| - 1]) else None
    case Content(_) => if HoldsText(stack) then Some(stack) else None
    case RuleTag => if stack == [] then Some(stack) else None
    case NewLine => Some(stack)
  }

  /** What the nesting rules refuse: text at the top of the document, or directly in an element that holds
      other elements only; an end tag that is not that of the innermost element; a rule inside one. */
  lemma NestingRefuses(html: string, e: Element, stack: seq<Element>)
    ensures Apply(Content(html), stack).None? <==>
            stack == [] || stack[|stack| - 1] in {Pre, Ul, Ol, TableElement, Thead, Tbody, Tr}
    ensures Apply(Close(e), stack).None? <==> stack == [] || stack[|stack| - 1] != e
    ensures Apply(RuleTag, stack).None? <==> stack != []
    ensures stack != [] && stack[|stack| - 1] !in {Pre, Ul, Ol, TableElement, Thead, Tbody, Tr} ==>
              Apply(Open(e), stack).None?
  {
  }

  function Nest(events: seq<Event>, stack: seq<Element>): Option<seq<Element>>
    decreases |events|
  {
    if events == [] then Some(stack)
    else
      var next := Apply(events[0], stack);
      if next.None? then None else Nest(events[1..], next.value)
  }

  function NestChunks(chunks: seq<Chunk>, stack: seq<Element>): Option<seq<Element>> {
    if chunks == [] then Some(stack)
    else
      var next := Nest(chunks[0], stack);
      if next.None? then None else NestChunks(chunks[1..], next.value)
  }

  lemma {:induction false} NestConcat(a: seq<Event>, b: seq<Event>, stack: seq<Element>)
    ensures Nest(a + b, stack) == var mid := Nest(a, stack); if mid.None? then None else Nest(b, mid.value)
    decreases |a|
  {
    hide Apply;
    if a == [] {
      assert a + b == b;
    } else {
      assert (a + b)[1..] == a[1..] + b;
      if Apply(a[0], stack).Some? {
        NestConcat(a[1..], b, Apply(a[0], stack).value);
      }
    }
  }

  lemma NestOne(e: Event, stack: seq<Element>)
    ensures Nest([e], stack) == Apply(e, stack)
  {
    hide Apply;
    assert [e][1..] == [];
  }

  lemma NestSingle(chunk: Chunk, stack: seq<Element>)
    ensures NestChunks([chunk], stack) == Nest(chunk, stack)
  {
    hide Nest;
    assert [chunk][1..] == [];
  }

  lemma NestTwo(e: Event, f: Event, stack: seq<Element>)
    ensures Nest([e, f], stack) == var mid := Apply(e, stack); if mid.None? then None else Apply(f, mid.value)
  {
    hide Apply, Nest;
    assert [e] + [f] == [e, f];
    NestConcat([e], [f], stack);
    NestOne(e, stack);
    if Apply(e, stack).Some? {
      NestOne(f, Apply(e, stack).value);
    }
  }

  lemma NestNewLine(rest: seq<Event>, stack: seq<Element>)
    ensures Nest([NewLine] + rest, stack) == Nest(rest, stack)
  {
    assert ([NewLine] + rest)[1..] == rest;
  }

  lemma {:induction false} NestLined(chunks: seq<Chunk>, stack: seq<Element>)
    ensures Nest(Lined(chunks), stack) == NestChunks(chunks, stack)
    decreases |chunks|
  {
    hide Nest;
    if chunks == [] {
      NestNothing(stack);
    } else if |chunks| == 1 {
      assert chunks[1..] == [];
    } else {
      NestConcat(chunks[0], [NewLine] + Lined(chunks[1..]), stack);
      var next := Nest(chunks[0], stack);
      if next.Some? {
        NestNewLine(Lined(chunks[1..]), next.value);
        NestLined(chunks[1..], next.value);
      }
    }
  }

  lemma NestNothing(stack: seq<Element>)
    ensures Nest([], stack) == Some(stack)
  {
  }

  lemma {:induction false} NestChunksConcat(a: seq<Chunk>, b: seq<Chunk>, stack: seq<Element>)
    ensures NestChunks(a + b, stack) ==
            var mid := NestChunks(a, stack); if mid.None? then None else NestChunks(b, mid.value)
    decreases |a|
  {
    hide Nest;
    if a == [] {
      assert a + b == b;
    } else {
      assert (a + b)[1..] == a[1..] + b;
      if Nest(a[0], stack).Some? {
        NestChunksConcat(a[1..], b, Nest(a[0], stack).value);
      }
    }
  }

  /** A run of chunks that leaves the stack as it found it. */
  predicate Closed(chunks: seq<Chunk>, stack: seq<Element>) {
    NestChunks(chunks, stack) == Some(stack)
  }

  lemma ClosedConcat(a: seq<Chunk>, b: seq<Chunk>, stack: seq<Element>)
    requires Closed(a, stack) && Closed(b, stack)
    ensures Closed(a + b, stack)
  {
    hide NestChunks;
    NestChunksConcat(a, b, stack);
  }

  lemma NestWrapped(e: Element, html: string, stack: seq<Element>)
    requires MayHold(stack, e) && HoldsText([e])
    ensures Nest(Wrapped(e, html), stack) == Some(stack)
  {
    hide Nest, MayHold;
    var s := stack + [e];
    assert [Open(e)] + [Content(html), Close(e)] == Wrapped(e, html);
    NestConcat([Open(e)], [Content(html), Close(e)], stack);
    NestOne(Open(e), stack);
    NestTwo(Content(html), Close(e), s);
    assert s[..|s| - 1] == stack;
  }

  lemma ClosedWrapped(e: Element, html: string, stack: seq<Element>)
    requires MayHold(stack, e) && HoldsText([e])
    ensures Closed([Wrapped(e, html)], stack)
  {
    hide Nest, NestChunks, MayHold, HoldsText, Wrapped;
    NestWrapped(e, html, stack);
    NestSingle(Wrapped(e, html), stack);
  }

  lemma {:induction false} ClosedCells(e: Element, cells: seq<string>, stack: seq<Element>)
    requires MayHold(stack, e) && HoldsText([e])
    ensures Closed(CellChunks(e, cells), stack)
  {
    hide Nest, MayHold, HoldsText, Formatted;
    if cells != [] {
      ClosedCells(e, cells[1..], stack);
      NestWrapped(e, Formatted(cells[0]), stack);
    }
  }

  lemma {:induction false} ClosedItems(ordered: bool, lines: seq<string>, stack: seq<Element>)
    requires MayHold(stack, Li)
    ensures Closed(ItemChunks(ordered, lines), stack)
  {
    hide Nest, MayHold, Formatted, ItemText;
    if lines != [] {
      ClosedItems(ordered, lines[1..], stack);
      NestWrapped(Li, Formatted(ItemText(ordered, lines[0])), stack);
    }
  }

  lemma NestOpen(e: Element, stack: seq<Element>)
    requires MayHold(stack, e)
    ensures NestChunks([[Open(e)]], stack) == Some(stack + [e])
  {
    hide Nest, NestChunks, MayHold;
    NestSingle([Open(e)], stack);
    NestOne(Open(e), stack);
  }

  lemma NestClose(e: Element, stack: seq<Element>)
    ensures NestChunks([[Close(e)]], stack + [e]) == Some(stack)
  {
    hide Nest, NestChunks, MayHold;
    var s := stack + [e];
    assert s[..|s| - 1] == stack;
    NestSingle([Close(e)], s);
    NestOne(Close(e), s);
  }

  /** Chunks inside an element that is opened before and closed after them. */
  lemma ClosedInside(e: Element, inner: seq<Chunk>, stack: seq<Element>)
    requires MayHold(stack, e) && Closed(inner, stack + [e])
    ensures Closed([[Open(e)]] + inner + [[Close(e)]], stack)
  {
    hide NestChunks, MayHold;
    NestOpen(e, stack);
    NestClose(e, stack);
    NestChunksConcat([[Open(e)]], inner, stack);
    NestChunksConcat([[Open(e)]] + inner, [[Close(e)]], stack);
  }

  lemma {:induction false} ClosedRows(rows: seq<string>)
    ensures Closed(RowChunks(rows), [TableElement, Tbody])
  {
    hide Closed, TableCells, CellChunks;
    var stack := [TableElement, Tbody];
    if rows == [] {
      ClosedNothing(stack);
    } else {
      var cells := TableCells(rows[0]);
      ClosedRows(rows[1..]);
      ClosedCells(Td, cells, stack + [Tr]);
      ClosedInside(Tr, CellChunks(Td, cells), stack);
      ClosedConcat([[Open(Tr)]] + CellChunks(Td, cells) + [[Close(Tr)]], RowChunks(rows[1..]), stack);
    }
  }

  lemma ClosedNothing(stack: seq<Element>)
    ensures Closed([], stack)
  {
  }

  lemma TableOpens()
    ensures NestChunks([[Open(TableElement)], [Open(Thead), Open(Tr)]], []) == Some([TableElement, Thead, Tr])
  {
    hide Nest, NestChunks;
    assert [[Open(TableElement)]] + [[Open(Thead), Open(Tr)]] == [[Open(TableElement)], [Open(Thead), Open(Tr)]];
    NestOpen(TableElement, []);
    NestChunksConcat([[Open(TableElement)]], [[Open(Thead), Open(Tr)]], []);
    NestSingle([Open(Thead), Open(Tr)], [TableElement]);
    NestTwo(Open(Thead), Open(Tr), [TableElement]);
    assert [] + [TableElement] == [TableElement];
    assert [TableElement] + [Thead] == [TableElement, Thead] && [TableElement, Thead] + [Tr] == [TableElement, Thead, Tr];
  }

  lemma TableTurns()
    ensures NestChunks([[Close(Tr), Close(Thead), Open(Tbody)]], [TableElement, Thead, Tr]) == Some([TableElement, Tbody])
  {
    hide Nest, NestChunks;
    assert [Close(Tr), Close(Thead)] + [Open(Tbody)] == [Close(Tr), Close(Thead), Open(Tbody)];
    NestSingle([Close(Tr), Close(Thead), Open(Tbody)], [TableElement, Thead, Tr]);
    NestConcat([Close(Tr), Close(Thead)], [Open(Tbody)], [TableElement, Thead, Tr]);
    NestTwo(Close(Tr), Close(Thead), [TableElement, Thead, Tr]);
    assert [TableElement, Thead, Tr][..2] == [TableElement, Thead];
    assert [TableElement, Thead][..1] == [TableElement];
    NestOne(Open(Tbody), [TableElement]);
    assert [TableElement] + [Tbody] == [TableElement, Tbody];
  }

  lemma TableCloses()
    ensures NestChunks([[Close(Tbody), Close(TableElement)]], [TableElement, Tbody]) == Some([])
  {
    hide Nest, NestChunks;
    NestSingle([Close(Tbody), Close(TableElement)], [TableElement, Tbody]);
    NestTwo(Close(Tbody), Close(TableElement), [TableElement, Tbody]);
    assert [TableElement, Tbody][..1] == [TableElement] && [TableElement][..0] == [];
  }

  lemma TableNests(cells: seq<Chunk>, body: seq<Chunk>)
    requires Closed(cells, [TableElement, Thead, Tr]) && Closed(body, [TableElement, Tbody])
    ensures Closed([[Open(TableElement)], [Open(Thead), Open(Tr)]] + cells + [[Close(Tr), Close(Thead), Open(Tbody)]]
                   + body + [[Close(Tbody), Close(TableElement)]], [])
  {
    hide NestChunks;
    var open := [[Open(TableElement)], [Open(Thead), Open(Tr)]];
    var mid := [[Close(Tr), Close(Thead), Open(Tbody)]];
    TableOpens();
    TableTurns();
    TableCloses();
    NestChunksConcat(open, cells, []);
    NestChunksConcat(open + cells, mid, []);
    NestChunksConcat(open + cells + mid, body, []);
    NestChunksConcat(open + cells + mid + body, [[Close(Tbody), Close(TableElement)]], []);
  }

  lemma ClosedTable(header: string, separator: string, rows: seq<string>)
    ensures Closed(Chunks(Table(header, separator, rows)), [])
  {
    hide Closed, TableCells, CellChunks, RowChunks;
    ClosedCells(Th, TableCells(header), [TableElement, Thead, Tr]);
    ClosedRows(rows);
    TableNests(CellChunks(Th, TableCells(header)), RowChunks(rows));
  }

  lemma ClosedFence(html: string)
    ensures Closed([[Open(Pre), Open(CodeElement), Content(html), Close(CodeElement), Close(Pre)]], [])
  {
    hide Nest, NestChunks;
    var code := Wrapped(CodeElement, html);
    assert [Open(Pre), Open(CodeElement), Content(html), Close(CodeElement), Close(Pre)] == [Open(Pre)] + code + [Close(Pre)];
    NestSingle([Open(Pre)] + code + [Close(Pre)], []);
    NestConcat([Open(Pre)], code, []);
    NestConcat([Open(Pre)] + code, [Close(Pre)], []);
    NestOne(Open(Pre), []);
    NestWrapped(CodeElement, html, [Pre]);
    NestOne(Close(Pre), [Pre]);
    assert [] + [Pre] == [Pre] && [Pre][..0] == [];
  }

  lemma ClosedHeading(line: string)
    ensures Closed([HeadingChunk(line)], [])
  {
    hide HeadingOf, Formatted, Nest, NestChunks, Wrapped;
    HeadingLevel(line);
    NestSingle([], []);
    NestNothing([]);
    if HeadingOf(line).Some? {
      ClosedWrapped(H(Digit(HeadingOf(line).value.0)), Formatted(HeadingOf(line).value.1), []);
    }
  }

  lemma ClosedBlock(b: Block)
    ensures Closed(Chunks(b), [])
  {
    hide NestChunks, Nest, HeadingChunk, InlineHtml, Join, RowChunks, CellChunks;
    match b
    case Fenced(_, body, _) => ClosedFence(Join(EscapeAll(body), "\n"));
    case Blank(_) => ClosedNothing([]);
    case Rule(_) => ClosedRule();
    case Heading(line) => ClosedHeading(line);
    case Table(header, separator, rows) => ClosedTable(header, separator, rows);
    case Quote(lines) => ClosedWrapped(Blockquote, InlineHtml(Join(QuoteTexts(lines), " ")), []);
    case Bullets(lines) =>
      assert [] + [Ul] == [Ul];
      ClosedItems(false, lines, [Ul]);
      ClosedInside(Ul, ItemChunks(false, lines), []);
    case Numbered(lines) =>
      assert [] + [Ol] == [Ol];
      ClosedItems(true, lines, [Ol]);
      ClosedInside(Ol, ItemChunks(true, lines), []);
    case Paragraph(lines) => ClosedWrapped(P, InlineHtml(Join(ParagraphTexts(lines), " ")), []);
  }

  lemma ClosedRule()
    ensures Closed([[RuleTag]], [])
  {
    NestSingle([RuleTag], []);
    NestOne(RuleTag, []);
  }

  lemma {:induction false} ClosedBlocks(blocks: seq<Block>)
    ensures Closed(AllChunks(blocks), [])
  {
    hide NestChunks, Chunks;
    if blocks == [] {
      ClosedNothing([]);
    } else {
      ClosedBlock(blocks[0]);
      ClosedBlocks(blocks[1..]);
      ClosedConcat(Chunks(blocks[0]), AllChunks(blocks[1..]), []);
    }
  }

  /** Whatever the source, the rendered document is the text of an event sequence in which every tag
      that is opened is closed again, in order, each element stands only where its parent allows it,
      and inside a paragraph, heading, cell, item or quote there is inline text and nothing else. */
  lemma DocumentWellNested(src: string)
    ensures ShowAll(DocumentEvents(src)) == Render(src)
    ensures Nest(DocumentEvents(src), []) == Some([])
  {
    hide Parse, AllChunks, LinesOf, ShowAll, Nest, Lined, Texts;
    var chunks := AllChunks(Parse(LinesOf(src)));
    LinedShows(chunks);
    NestLined(chunks, []);
    ClosedBlocks(Parse(LinesOf(src)));
  }

  // ---------------------------------------------------------------- escaping of the whole document

  const ELEMENTS := {P, H('1'), H('2'), H('3'), H('4'), H('5'), H('6'), Pre, CodeElement, Blockquote, Ul, Ol, Li,
                     TableElement, Thead, Tbody, Tr, Th, Td}

  /** Every tag and entity the renderer ever writes. */
  ghost const DOCUMENT_ATOMS :=
    INLINE_ATOMS + (iset e | e in ELEMENTS :: OpenTag(e)) + (iset e | e in ELEMENTS :: CloseTag(e)) + iset{"<hr>"}

  ghost predicate EventClean(e: Event) {
    match e
    case Open(element) => element in ELEMENTS
    case Close(element) => element in ELEMENTS
    case Content(html) => Clean(DOCUMENT_ATOMS, html)
    case RuleTag => true
    case NewLine => true
  }

  ghost predicate ChunksClean(chunks: seq<Chunk>) {
    forall c, i :: c in chunks && 0 <= i < |c| ==> EventClean(c[i])
  }

  lemma TagsKnown(e: Element)
    requires e in ELEMENTS
    ensures OpenTag(e) in DOCUMENT_ATOMS && CloseTag(e) in DOCUMENT_ATOMS
  {
    hide INLINE_ATOMS, ELEMENTS, OpenTag, CloseTag;
  }

  lemma RuleTagKnown()
    ensures "<hr>" in DOCUMENT_ATOMS
  {
    hide INLINE_ATOMS, ELEMENTS, OpenTag, CloseTag;
  }

  lemma InlineAtomsKnown()
    ensures INLINE_ATOMS <= DOCUMENT_ATOMS
  {
    hide INLINE_ATOMS, ELEMENTS, OpenTag, CloseTag;
  }

  lemma EntitiesKnown()
    ensures ENTITIES <= DOCUMENT_ATOMS
  {
    hide ELEMENTS, OpenTag, CloseTag, DOCUMENT_ATOMS;
    InlineAtomsKnown();
  }

  lemma ShowClean(e: Event)
    requires EventClean(e)
    ensures Clean(DOCUMENT_ATOMS, Show(e))
  {
    hide Clean, DOCUMENT_ATOMS, OpenTag, CloseTag, ELEMENTS;
    match e
    case Open(element) =>
      TagsKnown(element);
      CleanAtom(DOCUMENT_ATOMS, OpenTag(element));
    case Close(element) =>
      TagsKnown(element);
      CleanAtom(DOCUMENT_ATOMS, CloseTag(element));
    case Content(_) =>
    case RuleTag =>
      RuleTagKnown();
      CleanAtom(DOCUMENT_ATOMS, "<hr>");
    case NewLine => CleanPlain(DOCUMENT_ATOMS, '\n');
  }

  lemma {:induction false} ShowAllClean(events: seq<Event>)
    requires forall i :: 0 <= i < |events| ==> EventClean(events[i])
    ensures Clean(DOCUMENT_ATOMS, ShowAll(events))
  {
    hide Clean, DOCUMENT_ATOMS, Show, EventClean;
    if events == [] {
      CleanEmpty(DOCUMENT_ATOMS);
    } else {
      ShowClean(events[0]);
      ShowAllClean(events[1..]);
      CleanConcat(DOCUMENT_ATOMS, Show(events[0]), ShowAll(events[1..]));
    }
  }

  lemma {:induction false} JoinClean(atoms: iset<string>, parts: seq<string>, sep: string)
    requires Clean(atoms, sep) && forall i :: 0 <= i < |parts| ==> Clean(atoms, parts[i])
    ensures Clean(atoms, Join(parts, sep))
  {
    hide Clean;
    if parts == [] {
      CleanEmpty(atoms);
    } else if |parts| > 1 {
      JoinClean(atoms, parts[1..], sep);
      CleanConcat(atoms, parts[0], sep);
      CleanConcat(atoms, parts[0] + sep, Join(parts[1..], sep));
    }
  }

  lemma {:induction false} EscapedTextsClean(lines: seq<string>)
    ensures forall i :: 0 <= i < |EscapeAll(lines)| ==> Clean(ENTITIES, EscapeAll(lines)[i])
    ensures forall i :: 0 <= i < |ParagraphTexts(lines)| ==> Clean(ENTITIES, ParagraphTexts(lines)[i])
    ensures forall i :: 0 <= i < |QuoteTexts(lines)| ==> Clean(ENTITIES, QuoteTexts(lines)[i])
  {
    hide Clean, Escape, Strip, QuoteText, ENTITIES;
    if lines != [] {
      EscapedTextsClean(lines[1..]);
      EscapeClean(lines[0]);
      EscapeClean(Strip(lines[0]));
      EscapeClean(QuoteText(lines[0]));
    }
  }

  lemma InlineKnown(text: string)
    requires Clean(ENTITIES, text)
    ensures Clean(DOCUMENT_ATOMS, InlineHtml(text))
  {
    hide Clean, InlineHtml, ENTITIES, INLINE_ATOMS, DOCUMENT_ATOMS;
    InlineClean(text);
    InlineAtomsKnown();
    CleanMore(INLINE_ATOMS, DOCUMENT_ATOMS, InlineHtml(text));
  }

  lemma FormattedClean(text: string)
    ensures Clean(DOCUMENT_ATOMS, Formatted(text))
  {
    hide Clean, InlineHtml, Escape, ENTITIES, DOCUMENT_ATOMS;
    EscapeClean(text);
    InlineKnown(Escape(text));
  }

  lemma WrappedClean(e: Element, html: string)
    requires e in ELEMENTS && Clean(DOCUMENT_ATOMS, html)
    ensures ChunksClean([Wrapped(e, html)])
  {
    hide Clean, DOCUMENT_ATOMS, ELEMENTS;
  }

  lemma ChunksCleanConcat(a: seq<Chunk>, b: seq<Chunk>)
    requires ChunksClean(a) && ChunksClean(b)
    ensures ChunksClean(a + b)
  {
    hide EventClean;
  }

  lemma {:induction false} CellsClean(e: Element, cells: seq<string>)
    requires e in ELEMENTS
    ensures ChunksClean(CellChunks(e, cells))
  {
    hide ChunksClean, Wrapped, Formatted, Clean, ELEMENTS, DOCUMENT_ATOMS;
    if cells == [] {
      NothingClean();
    } else {
      CellsClean(e, cells[1..]);
      FormattedClean(cells[0]);
      WrappedClean(e, Formatted(cells[0]));
      ChunksCleanConcat([Wrapped(e, Formatted(cells[0]))], CellChunks(e, cells[1..]));
    }
  }

  lemma NothingClean()
    ensures ChunksClean([])
  {
  }

  lemma LiKnown()
    ensures Li in ELEMENTS && Th in ELEMENTS && Td in ELEMENTS && P in ELEMENTS && Blockquote in ELEMENTS
  {
  }

  lemma {:induction false} ItemsClean(ordered: bool, lines: seq<string>)
    ensures ChunksClean(ItemChunks(ordered, lines))
  {
    hide ChunksClean, Wrapped, Formatted, ItemText, Clean, ELEMENTS, DOCUMENT_ATOMS;
    if lines == [] {
      NothingClean();
    } else {
      ItemsClean(ordered, lines[1..]);
      FormattedClean(ItemText(ordered, lines[0]));
      LiKnown();
      WrappedClean(Li, Formatted(ItemText(ordered, lines[0])));
      ChunksCleanConcat([Wrapped(Li, Formatted(ItemText(ordered, lines[0])))], ItemChunks(ordered, lines[1..]));
    }
  }

  lemma FixedChunksClean()
    ensures ChunksClean([[Open(Tr)]]) && ChunksClean([[Close(Tr)]])
    ensures ChunksClean([[Open(Ul)]]) && ChunksClean([[Close(Ul)]]) && ChunksClean([[Open(Ol)]]) && ChunksClean([[Close(Ol)]])
    ensures ChunksClean([[RuleTag]])
    ensures ChunksClean([[Open(TableElement)], [Open(Thead), Open(Tr)]])
    ensures ChunksClean([[Close(Tr), Close(Thead), Open(Tbody)]]) && ChunksClean([[Close(Tbody), Close(TableElement)]])
  {
    hide Clean, DOCUMENT_ATOMS;
  }

  lemma {:induction false} RowsClean(rows: seq<string>)
    ensures ChunksClean(RowChunks(rows))
  {
    hide ChunksClean, TableCells, ELEMENTS;
    if rows == [] {
      NothingClean();
    } else {
      var cells := CellChunks(Td, TableCells(rows[0]));
      RowsClean(rows[1..]);
      LiKnown();
      CellsClean(Td, TableCells(rows[0]));
      FixedChunksClean();
      ChunksCleanConcat([[Open(Tr)]], cells);
      ChunksCleanConcat([[Open(Tr)]] + cells, [[Close(Tr)]]);
      ChunksCleanConcat([[Open(Tr)]] + cells + [[Close(Tr)]], RowChunks(rows[1..]));
    }
  }

  lemma TableClean(header: string, separator: string, rows: seq<string>)
    ensures ChunksClean(Chunks(Table(header, separator, rows)))
  {
    hide ChunksClean, TableCells, ELEMENTS, RowChunks, CellChunks;
    var open := [[Open(TableElement)], [Open(Thead), Open(Tr)]];
    var cells := CellChunks(Th, TableCells(header));
    var mid := [[Close(Tr), Close(Thead), Open(Tbody)]];
    var body := RowChunks(rows);
    LiKnown();
    FixedChunksClean();
    CellsClean(Th, TableCells(header));
    RowsClean(rows);
    ChunksCleanConcat(open, cells);
    ChunksCleanConcat(open + cells, mid);
    ChunksCleanConcat(open + cells + mid, body);
    ChunksCleanConcat(open + cells + mid + body, [[Close(Tbody), Close(TableElement)]]);
  }

  lemma FenceClean(body: seq<string>)
    ensures Clean(DOCUMENT_ATOMS, Join(EscapeAll(body), "\n"))
  {
    hide Clean, ENTITIES, DOCUMENT_ATOMS, EscapeAll, Join;
    EscapedTextsClean(body);
    CleanPlain(ENTITIES, '\n');
    JoinClean(ENTITIES, EscapeAll(body), "\n");
    EntitiesKnown();
    CleanMore(ENTITIES, DOCUMENT_ATOMS, Join(EscapeAll(body), "\n"));
  }

  lemma ParagraphClean(lines: seq<string>)
    ensures Clean(DOCUMENT_ATOMS, InlineHtml(Join(ParagraphTexts(lines), " ")))
    ensures Clean(DOCUMENT_ATOMS, InlineHtml(Join(QuoteTexts(lines), " ")))
  {
    hide Clean, ENTITIES, DOCUMENT_ATOMS, ParagraphTexts, QuoteTexts, Join, InlineHtml;
    EscapedTextsClean(lines);
    CleanPlain(ENTITIES, ' ');
    JoinClean(ENTITIES, ParagraphTexts(lines), " ");
    JoinClean(ENTITIES, QuoteTexts(lines), " ");
    InlineKnown(Join(ParagraphTexts(lines), " "));
    InlineKnown(Join(QuoteTexts(lines), " "));
  }

  lemma FencedChunkClean(html: string)
    requires Clean(DOCUMENT_ATOMS, html)
    ensures ChunksClean([[Open(Pre), Open(CodeElement), Content(html), Close(CodeElement), Close(Pre)]])
  {
    hide Clean, DOCUMENT_ATOMS;
  }

  lemma HeadingDigit(level: nat)
    requires 1 <= level <= 6
    ensures H(Digit(level)) in ELEMENTS
  {
  }

  lemma HeadingClean(line: string)
    ensures ChunksClean([HeadingChunk(line)])
  {
    hide HeadingOf, Formatted, Clean, DOCUMENT_ATOMS, ELEMENTS, Digit, Wrapped;
    HeadingLevel(line);
    if HeadingOf(line).Some? {
      HeadingDigit(HeadingOf(line).value.0);
      FormattedClean(HeadingOf(line).value.1);
      WrappedClean(H(Digit(HeadingOf(line).value.0)), Formatted(HeadingOf(line).value.1));
    }
  }

  lemma BlockClean(b: Block)
    ensures ChunksClean(Chunks(b))
  {
    hide ChunksClean, Clean, DOCUMENT_ATOMS, ELEMENTS, HeadingChunk, InlineHtml, Join, RowChunks, CellChunks, ItemChunks, Wrapped;
    FixedChunksClean();
    LiKnown();
    match b
    case Fenced(_, body, _) =>
      FenceClean(body);
      FencedChunkClean(Join(EscapeAll(body), "\n"));
    case Blank(_) => NothingClean();
    case Rule(_) =>
    case Heading(line) => HeadingClean(line);
    case Table(header, separator, rows) => TableClean(header, separator, rows);
    case Quote(lines) =>
      ParagraphClean(lines);
      WrappedClean(Blockquote, InlineHtml(Join(QuoteTexts(lines), " ")));
    case Bullets(lines) =>
      ItemsClean(false, lines);
      ChunksCleanConcat([[Open(Ul)]], ItemChunks(false, lines));
      ChunksCleanConcat([[Open(Ul)]] + ItemChunks(false, lines), [[Close(Ul)]]);
    case Numbered(lines) =>
      ItemsClean(true, lines);
      ChunksCleanConcat([[Open(Ol)]], ItemChunks(true, lines));
      ChunksCleanConcat([[Open(Ol)]] + ItemChunks(true, lines), [[Close(Ol)]]);
    case Paragraph(lines) =>
      ParagraphClean(lines);
      WrappedClean(P, InlineHtml(Join(ParagraphTexts(lines), " ")));
  }

  lemma {:induction false} BlocksClean(blocks: seq<Block>)
    ensures ChunksClean(AllChunks(blocks))
  {
    hide ChunksClean, Chunks;
    if blocks == [] {
      NothingClean();
    } else {
      BlockClean(blocks[0]);
      BlocksClean(blocks[1..]);
      ChunksCleanConcat(Chunks(blocks[0]), AllChunks(blocks[1..]));
    }
  }

  lemma {:induction false} TextsClean(chunks: seq<Chunk>)
    requires ChunksClean(chunks)
    ensures forall i :: 0 <= i < |Texts(chunks)| ==> Clean(DOCUMENT_ATOMS, Texts(chunks)[i])
  {
    hide EventClean, Clean, DOCUMENT_ATOMS, ShowAll;
    if chunks != [] {
      ShowAllClean(chunks[0]);
      TextsClean(chunks[1..]);
    }
  }

  /** Whatever the source, the rendered document is made of the renderer's own tags, whole links, the
      five entities, and characters other than angle brackets, quotes and ampersands: no source
      character contributes markup. */
  lemma DocumentClean(src: string)
    ensures Clean(DOCUMENT_ATOMS, Render(src))
  {
    hide Parse, AllChunks, LinesOf, Texts, Clean, DOCUMENT_ATOMS, ChunksClean, Join;
    var chunks := AllChunks(Parse(LinesOf(src)));
    BlocksClean(Parse(LinesOf(src)));
    TextsClean(chunks);
    CleanPlain(DOCUMENT_ATOMS, '\n');
    JoinClean(DOCUMENT_ATOMS, Texts(chunks), "\n");
  }

  lemma ElementTagsBare(e: Element)
    requires e in ELEMENTS
    ensures Bare(OpenTag(e)) && Bare(CloseTag(e))
  {
    hide ELEMENTS, Bare;
    match e
    case H(d) => HeadingTagsBare(d);
    case TableElement => TableTagBare();
    case _ => ShortTagsBare(e);
  }

  lemma HeadingTagsBare(d: char)
    requires H(d) in ELEMENTS
    ensures Bare("<h" + [d] + ">") && Bare("</h" + [d] + ">")
  {
  }

  lemma ShortTagsBare(e: Element)
    requires !e.H? && !e.TableElement?
    ensures Bare(OpenTag(e)) && Bare(CloseTag(e))
  {
  }

  lemma TableTagBare()
    ensures Bare("<table class=\"usa-table usa-table--borderless\">") && Bare("</table>")
  {
    hide Bare;
    TableTagHalves();
    BareConcat("<table class=\"usa-table", " usa-table--borderless\">");
  }

  lemma TableTagHalves()
    ensures "<table class=\"usa-table" + " usa-table--borderless\">" == "<table class=\"usa-table usa-table--borderless\">"
    ensures Bare("<table class=\"usa-table") && Bare("</table>")
  {
  }

  /** Every tag the renderer writes besides the start of an anchor. */
  ghost const TAGS :=
    FORMAT_TAGS + (iset e | e in ELEMENTS :: OpenTag(e)) + (iset e | e in ELEMENTS :: CloseTag(e)) + iset{"<hr>", "</a>"}

  lemma TagBare(t: string)
    requires t in TAGS
    ensures Bare(t)
  {
    hide ELEMENTS, FORMAT_TAGS, OpenTag, CloseTag, Bare;
    FormatTagsBare();
    RuleBare();
    if e :| e in ELEMENTS && (t == OpenTag(e) || t == CloseTag(e)) {
      ElementTagsBare(e);
    }
  }

  lemma RuleBare()
    ensures Bare("<hr>") && Bare("</a>")
  {
  }

  lemma DocumentAtomTagged(a: string)
    requires a in DOCUMENT_ATOMS
    ensures Tagged(TAGS, a)
  {
    hide ELEMENTS, FORMAT_TAGS, ENTITIES, OpenTag, CloseTag, IsLink, Bare, Tagged;
    FormatTagsBare();
    if IsLink(a) {
      LinkTagged(TAGS, a);
    } else {
      if a in TAGS {
        TagBare(a);
      }
      BareTagged(TAGS, a);
    }
  }

  /** Every `<` in the rendered document starts one of the renderer's fixed tags, or an anchor whose
      target is an allowed one without a quote, the attribute and the tag ending right behind it. */
  lemma DocumentTags(src: string, i: nat)
    requires i < |Render(src)| && Render(src)[i] == '<'
    ensures StartsTag(TAGS, Render(src), i)
  {
    hide Render, Clean, DOCUMENT_ATOMS, TAGS, StartsTag;
    DocumentClean(src);
    forall a | a in DOCUMENT_ATOMS ensures Tagged(TAGS, a) {
      DocumentAtomTagged(a);
    }
    CleanTagged(TAGS, DOCUMENT_ATOMS, Render(src));
  }

  /** Wherever an anchor starts in the rendered document, its target is an allowed one without a quote
      and the attribute and the tag end right behind it. */
  lemma DocumentAnchors(src: string, i: nat)
    requires i + 1 < |Render(src)| && Render(src)[i] == '<' && Render(src)[i + 1] == 'a'
    ensures exists href :: AnchorAt(Render(src), i, href)
  {
    hide Render, TAGS, At, AnchorAt;
    DocumentTags(src, i);
    if t :| t in TAGS && At(Render(src), i, t) {
      TagBare(t);
      AtIndex(Render(src), i, t, 0);
      AtIndex(Render(src), i, t, 1);
    }
  }
}
