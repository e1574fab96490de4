/** Block structure of the documentation renderer: how lines group into blocks, and how a block prints. */
module Blocks {
  import opened Options
  import opened Text

  // ---------------------------------------------------------------- what a line looks like

  predicate IsFence(line: string) {
    "```" <= Strip(line)
  }

  predicate IsBlank(line: string) {
    Strip(line) == ""
  }

  /** Three or more dashes, or three or more asterisks. */
  predicate IsRule(line: string) {
    var t := Strip(line);
    |t| >= 3 && ((forall i :: 0 <= i < |t| ==> t[i] == '-') || (forall i :: 0 <= i < |t| ==> t[i] == '*'))
  }

  function CountHashes(s: string): (n: nat)
    ensures n <= |s|
  {
    if s == "" || s[0] != '#' then 0 else 1 + CountHashes(s[1..])
  }

  /** `^(#{1,6})\s+(.*)$`: the level and the title. */
  function HeadingOf(line: string): Option<(nat, string)> {
    var t := Strip(line);
    var level := CountHashes(t);
    if 1 <= level <= 6 && level < |t| && IsSpace(t[level]) then Some((level, StripLeft(t[level..]))) else None
  }

  lemma HeadingLevel(line: string)
    ensures HeadingOf(line).Some? ==> 1 <= HeadingOf(line).value.0 <= 6
  {
    hide Strip, StripLeft, IsSpace, CountHashes;
  }

  predicate StartsWithBar(line: string) {
    "|" <= Strip(line)
  }

  /** Without one `c` at either end. */
  function EndsOff(t: string, c: char): string {
    var u := if t != "" && t[0] == c then t[1..] else t;
    if u != "" && u[|u| - 1] == c then u[..|u| - 1] else u
  }

  /** One cell of a separator row: dashes, with a colon allowed at either end. */
  predicate IsSeparatorCell(cell: string) {
    var v := EndsOff(Strip(cell), ':');
    v != "" && forall i :: 0 <= i < |v| ==> v[i] == '-'
  }

  /** A row of at least two such cells between bars; the outer bars are optional. */
  predicate IsSeparator(line: string) {
    var cells := Split(EndsOff(Strip(line), '|'), '|');
    |cells| >= 2 && forall i :: 0 <= i < |cells| ==> IsSeparatorCell(cells[i])
  }

  predicate IsQuote(line: string) {
    ">" <= Strip(line)
  }

  /** `^[-*]\s+(.*)$` */
  function BulletOf(line: string): Option<string> {
    var t := Strip(line);
    if |t| >= 2 && (t[0] == '-' || t[0] == '*') && IsSpace(t[1]) then Some(StripLeft(t[1..])) else None
  }

  function CountDigits(s: string): (n: nat)
    ensures n <= |s|
  {
    if s == "" || !IsDigit(s[0]) then 0 else 1 + CountDigits(s[1..])
  }

  /** `^\d+\.\s+(.*)$` */
  function NumberedOf(line: string): Option<string> {
    var t := Strip(line);
    var n := CountDigits(t);
    if n >= 1 && n + 1 < |t| && t[n] == '.' && IsSpace(t[n + 1]) then Some(StripLeft(t[n + 1..])) else None
  }

  // ---------------------------------------------------------------- kinds and blocks

  datatype Kind =
    FenceKind | BlankKind | RuleKind | HeadingKind | TableKind | QuoteKind | BulletKind | NumberedKind | TextKind

  /** What the first of the remaining lines starts. Only a table needs to look one line further. */
  function KindOf(lines: seq<string>): Kind
    requires lines != []
  {
    var line := lines[0];
    if IsFence(line) then FenceKind
    else if IsBlank(line) then BlankKind
    else if IsRule(line) then RuleKind
    else if HeadingOf(line).Some? then HeadingKind
    else if StartsWithBar(line) && |lines| > 1 && IsSeparator(lines[1]) then TableKind
    else if IsQuote(line) then QuoteKind
    else if BulletOf(line).Some? then BulletKind
    else if NumberedOf(line).Some? then NumberedKind
    else TextKind
  }

  /** Blocks keep their source lines. An unclosed fence has no closing line. */
  datatype Block =
    | Fenced(open: string, body: seq<string>, close: Option<string>)
    | Blank(line: string)
    | Rule(line: string)
    | Heading(line: string)
    | Table(header: string, separator: string, rows: seq<string>)
    | Quote(lines: seq<string>)
    | Bullets(lines: seq<string>)
    | Numbered(lines: seq<string>)
    | Paragraph(lines: seq<string>)
  {
    function Source(): seq<string> {
      match this
      case Fenced(open, body, close) => [open] + body + if close.Some? then [close.value] else []
      case Blank(line) => [line]
      case Rule(line) => [line]
      case Heading(line) => [line]
      case Table(header, separator, rows) => [header, separator] + rows
      case Quote(ls) => ls
      case Bullets(ls) => ls
      case Numbered(ls) => ls
      case Paragraph(ls) => ls
    }
  }

  /** Whether a line continues a block that runs over like lines. */
  predicate Continues(kind: Kind, line: string) {
    match kind
    case FenceKind => !IsFence(line)
    case TableKind => StartsWithBar(line)
    case QuoteKind => IsQuote(line)
    case BulletKind => BulletOf(line).Some?
    case NumberedKind => NumberedOf(line).Some?
    case _ => false
  }

  /** How many of the first lines continue a block of this kind. */
  function RunLength(kind: Kind, lines: seq<string>): nat {
    if lines == [] || !Continues(kind, lines[0]) then 0 else 1 + RunLength(kind, lines[1..])
  }

  /** How many of the first lines are paragraph text, each judged with what follows it. */
  function TextLength(lines: seq<string>): nat {
    if lines == [] || KindOf(lines) != TextKind then 0 else 1 + TextLength(lines[1..])
  }

  lemma {:induction false} RunLengthBounds(kind: Kind, lines: seq<string>)
    ensures RunLength(kind, lines) <= |lines|
    ensures Maximal(kind, lines[..RunLength(kind, lines)], lines[RunLength(kind, lines)..])
  {
    hide Continues;
    if lines != [] && Continues(kind, lines[0]) {
      RunLengthBounds(kind, lines[1..]);
      var n := RunLength(kind, lines[1..]);
      assert lines[..1 + n] == [lines[0]] + lines[1..][..n];
      assert lines[1 + n..] == lines[1..][n..];
    }
  }

  lemma {:induction false} TextLengthBounds(lines: seq<string>)
    ensures TextLength(lines) <= |lines|
    ensures forall i :: 0 <= i < TextLength(lines) ==> KindOf(lines[i..]) == TextKind
    ensures TextLength(lines) < |lines| ==> KindOf(lines[TextLength(lines)..]) != TextKind
  {
    hide KindOf;
    if lines != [] && KindOf(lines) == TextKind {
      TextLengthBounds(lines[1..]);
      var n := TextLength(lines[1..]);
      forall i | 0 <= i < 1 + n ensures KindOf(lines[i..]) == TextKind {
        if i > 0 {
          assert lines[i..] == lines[1..][i - 1..];
        }
      }
      assert lines[1 + n..] == lines[1..][n..];
    }
  }

  predicate Maximal(kind: Kind, run: seq<string>, rest: seq<string>) {
    && (forall i :: 0 <= i < |run| ==> Continues(kind, run[i]))
    && (rest != [] ==> !Continues(kind, rest[0]))
  }

  lemma KindFacts(lines: seq<string>)
    requires lines != []
    ensures match KindOf(lines)
            case FenceKind => IsFence(lines[0])
            case TableKind => |lines| > 1
            case QuoteKind => Continues(QuoteKind, lines[0])
            case BulletKind => Continues(BulletKind, lines[0])
            case NumberedKind => Continues(NumberedKind, lines[0])
            case _ => true
  {
    hide IsFence, IsBlank, IsRule, HeadingOf, StartsWithBar, IsSeparator, IsQuote, BulletOf, NumberedOf;
  }

  /** The block at the front of the remaining lines. */
  function First(lines: seq<string>): Block
    requires lines != []
  {
    KindFacts(lines);
    match KindOf(lines)
    case FenceKind =>
      var body := lines[1..];
      RunLengthBounds(FenceKind, body);
      var n := RunLength(FenceKind, body);
      Fenced(lines[0], body[..n], if n < |body| then Some(body[n]) else None)
    case BlankKind => Blank(lines[0])
    case RuleKind => Rule(lines[0])
    case HeadingKind => Heading(lines[0])
    case TableKind =>
      RunLengthBounds(TableKind, lines[2..]);
      Table(lines[0], lines[1], lines[2..][..RunLength(TableKind, lines[2..])])
    case QuoteKind => RunLengthBounds(QuoteKind, lines); Quote(lines[..RunLength(QuoteKind, lines)])
    case BulletKind => RunLengthBounds(BulletKind, lines); Bullets(lines[..RunLength(BulletKind, lines)])
    case NumberedKind => RunLengthBounds(NumberedKind, lines); Numbered(lines[..RunLength(NumberedKind, lines)])
    case TextKind => TextLengthBounds(lines); Paragraph(lines[..TextLength(lines)])
  }

  lemma FirstTakesLines(lines: seq<string>)
    requires lines != []
    ensures 1 <= |First(lines).Source()| <= |lines|
    ensures First(lines).Source() == lines[..|First(lines).Source()|]
  {
    hide KindOf, Continues, IsFence;
    KindFacts(lines);
    match KindOf(lines)
    case FenceKind =>
      var body := lines[1..];
      RunLengthBounds(FenceKind, body);
      var n := RunLength(FenceKind, body);
      assert lines[..n + 1] == [lines[0]] + body[..n];
      if n < |body| {
        assert lines[..n + 2] == [lines[0]] + body[..n] + [body[n]];
      }
    case TableKind =>
      RunLengthBounds(TableKind, lines[2..]);
      var n := RunLength(TableKind, lines[2..]);
      assert lines[..2 + n] == [lines[0], lines[1]] + lines[2..][..n];
    case QuoteKind => RunLengthBounds(QuoteKind, lines);
    case BulletKind => RunLengthBounds(BulletKind, lines);
    case NumberedKind => RunLengthBounds(NumberedKind, lines);
    case TextKind => TextLengthBounds(lines);
    case _ =>
  }

  /** Phase one: all lines into blocks. */
  function Parse(lines: seq<string>): seq<Block>
    decreases |lines|
  {
    if lines == [] then []
    else
      FirstTakesLines(lines);
      [First(lines)] + Parse(lines[|First(lines).Source()|..])
  }

  /** Back from blocks to lines. */
  function Unparse(blocks: seq<Block>): seq<string> {
    if blocks == [] then [] else blocks[0].Source() + Unparse(blocks[1..])
  }

  // ---------------------------------------------------------------- the grouping is lossless and unique

  /** A block stands correctly in front of the lines `rest`: its lines have its kind, and it takes as
      many of them as it can. */
  predicate Stands(b: Block, rest: seq<string>) {
    match b
    case Fenced(open, body, close) =>
      && IsFence(open) && (forall i :: 0 <= i < |body| ==> !IsFence(body[i]))
      && (if close.Some? then IsFence(close.value) else rest == [])
    case Blank(_) => KindOf(b.Source() + rest) == BlankKind
    case Rule(_) => KindOf(b.Source() + rest) == RuleKind
    case Heading(_) => KindOf(b.Source() + rest) == HeadingKind
    case Table(header, separator, rows) =>
      && KindOf(b.Source() + rest) == TableKind
      && (forall i :: 0 <= i < |rows| ==> StartsWithBar(rows[i])) && (rest != [] ==> !StartsWithBar(rest[0]))
    case Quote(ls) => ls != [] && KindOf(ls + rest) == QuoteKind && Maximal(QuoteKind, ls, rest)
    case Bullets(ls) => ls != [] && KindOf(ls + rest) == BulletKind && Maximal(BulletKind, ls, rest)
    case Numbered(ls) => ls != [] && KindOf(ls + rest) == NumberedKind && Maximal(NumberedKind, ls, rest)
    case Paragraph(ls) =>
      && ls != []
      && (forall i :: 0 <= i < |ls| ==> KindOf(ls[i..] + rest) == TextKind)
      && (rest != [] ==> KindOf(rest) != TextKind)
  }

  predicate Canonical(blocks: seq<Block>) {
    blocks == [] || (Stands(blocks[0], Unparse(blocks[1..])) && Canonical(blocks[1..]))
  }

  lemma RunLengthExact(kind: Kind, run: seq<string>, rest: seq<string>)
    requires Maximal(kind, run, rest)
    ensures RunLength(kind, run + rest) == |run|
  {
    hide Continues, RunLength;
    var n := RunLength(kind, run + rest);
    if n < |run| {
      assert (run + rest)[n..][0] == run[n];
    }
    if |run| < n <= |run + rest| {
      assert (run + rest)[..n][|run|] == rest[0];
    }
    RunLengthBounds(kind, run + rest);
  }

  lemma TextLengthExact(run: seq<string>, rest: seq<string>)
    requires forall i :: 0 <= i < |run| ==> KindOf(run[i..] + rest) == TextKind
    requires rest != [] ==> KindOf(rest) != TextKind
    ensures TextLength(run + rest) == |run|
  {
    hide KindOf, TextLength;
    var n := TextLength(run + rest);
    if n < |run| {
      assert (run + rest)[n..] == run[n..] + rest;
    }
    assert (run + rest)[|run|..] == rest;
    TextLengthBounds(run + rest);
  }

  lemma FirstStands(lines: seq<string>)
    requires lines != []
    ensures 1 <= |First(lines).Source()| <= |lines|
    ensures Stands(First(lines), lines[|First(lines).Source()|..])
  {
    hide KindOf, IsFence, StartsWithBar, Continues;
    KindFacts(lines);
    FirstTakesLines(lines);
    var b := First(lines);
    var rest := lines[|b.Source()|..];
    assert b.Source() + rest == lines;
    match KindOf(lines)
    case FenceKind => FenceStands(lines);
    case TableKind => TableStands(lines);
    case TextKind =>
      TextLengthBounds(lines);
      var n := TextLength(lines);
      forall i | 0 <= i < n ensures KindOf(lines[..n][i..] + rest) == TextKind {
        assert lines[..n][i..] + rest == lines[i..];
      }
    case QuoteKind => RunLengthBounds(QuoteKind, lines);
    case BulletKind => RunLengthBounds(BulletKind, lines);
    case NumberedKind => RunLengthBounds(NumberedKind, lines);
    case _ =>
  }

  lemma FenceStands(lines: seq<string>)
    requires lines != [] && KindOf(lines) == FenceKind && 1 <= |First(lines).Source()| <= |lines|
    ensures Stands(First(lines), lines[|First(lines).Source()|..])
  {
    hide KindOf, IsFence;
    KindFacts(lines);
    RunLengthBounds(FenceKind, lines[1..]);
  }

  lemma TableStands(lines: seq<string>)
    requires lines != [] && KindOf(lines) == TableKind && 1 <= |First(lines).Source()| <= |lines|
    requires First(lines).Source() + lines[|First(lines).Source()|..] == lines
    ensures Stands(First(lines), lines[|First(lines).Source()|..])
  {
    hide KindOf, StartsWithBar;
    KindFacts(lines);
    RunLengthBounds(TableKind, lines[2..]);
    var n := RunLength(TableKind, lines[2..]);
    assert lines[2..][n..] == lines[2 + n..];
  }

  /** Every line is consumed exactly once, in order: the blocks are the lines, regrouped; and each
      block has the kind of its first line and takes as many lines as it can. */
  lemma {:induction false} ParseLossless(lines: seq<string>)
    ensures Unparse(Parse(lines)) == lines
    ensures Canonical(Parse(lines))
    decreases |lines|
  {
    hide First, Stands, Block.Source;
    if lines != [] {
      FirstTakesLines(lines);
      FirstStands(lines);
      ParseLossless(lines[|First(lines).Source()|..]);
    }
  }

  lemma StandsIsFirst(b: Block, rest: seq<string>)
    requires Stands(b, rest)
    ensures b.Source() + rest != [] && First(b.Source() + rest) == b
  {
    hide KindOf, IsFence, StartsWithBar, Continues;
    match b
    case Fenced(open, body, close) => FenceIsFirst(b, rest);
    case Table(header, separator, rows) =>
      var lines := b.Source() + rest;
      assert lines[2..] == rows + rest;
      TableRows(rows, rest);
      RunLengthExact(TableKind, rows, rest);
    case Quote(ls) => RunLengthExact(QuoteKind, ls, rest);
    case Bullets(ls) => RunLengthExact(BulletKind, ls, rest);
    case Numbered(ls) => RunLengthExact(NumberedKind, ls, rest);
    case Paragraph(ls) =>
      assert ls[0..] == ls;
      TextLengthExact(ls, rest);
    case _ =>
  }

  lemma TableRows(rows: seq<string>, rest: seq<string>)
    requires forall i :: 0 <= i < |rows| ==> StartsWithBar(rows[i])
    requires rest != [] ==> !StartsWithBar(rest[0])
    ensures Maximal(TableKind, rows, rest)
  {
    hide StartsWithBar;
  }

  lemma FenceIsFirst(b: Block, rest: seq<string>)
    requires b.Fenced? && Stands(b, rest)
    ensures First(b.Source() + rest) == b
  {
    hide IsFence, IsBlank, IsRule, HeadingOf, StartsWithBar, IsSeparator, IsQuote, BulletOf, NumberedOf;
    var lines := b.Source() + rest;
    var after := (if b.close.Some? then [b.close.value] else []) + rest;
    assert lines[1..] == b.body + after;
    RunLengthExact(FenceKind, b.body, after);
  }

  /** No other grouping is canonical: whatever blocks stand correctly in sequence are found again
      from their lines. */
  lemma {:induction false} ParseUnique(blocks: seq<Block>)
    requires Canonical(blocks)
    ensures Parse(Unparse(blocks)) == blocks
  {
    hide First, Stands, Block.Source;
    if blocks != [] {
      var rest := Unparse(blocks[1..]);
      StandsIsFirst(blocks[0], rest);
      ParseUnique(blocks[1..]);
      FirstTakesLines(blocks[0].Source() + rest);
      assert (blocks[0].Source() + rest)[|blocks[0].Source()|..] == rest;
    }
  }
}
