/** What the line readers of the documentation renderer read, each stated as the pattern its lines fit,
    and that no line fits the patterns of two kinds. */
module LineLaws {
  import opened Options
  import opened Text
  import opened TextLaws
  import opened Blocks
  import opened Printing

  // ---------------------------------------------------------------- a mark, a gap and a text

  /** The line without the white space at its ends is a mark, then white space, then a text. */
  ghost predicate Marked(line: string, mark: string, gap: string, text: string) {
    && Trims(line, mark + gap + text)
    && gap != "" && AllSpace(gap) && text != "" && !IsSpace(text[0])
  }

  /** Behind a mark of `k` characters: white space up to the text. */
  predicate MarkEnds(t: string, k: nat) {
    k < |t| && IsSpace(t[k])
  }

  lemma TextBehind(line: string, k: nat)
    requires MarkEnds(Strip(line), k)
    ensures var t := Strip(line);
            var text := StripLeft(t[k..]);
            Marked(line, t[..k], t[k..|t| - |text|], text)
  {
    hide IsSpace, Strip, StripLeft, Trims;
    var t := Strip(line);
    var text := StripLeft(t[k..]);
    var gap := t[k..|t| - |text|];
    StripExact(line, t);
    assert forall i :: 0 <= i < |gap| ==> gap[i] == t[k..][i];
    assert t[k..][0] == t[k] && t[k..][|t| - 1 - k] == t[|t| - 1];
    assert t[..k] + gap + text == t;
  }

  lemma TextIsBehind(line: string, mark: string, gap: string, text: string)
    requires Marked(line, mark, gap, text)
    ensures var t := Strip(line);
            && t == mark + gap + text && MarkEnds(t, |mark|) && t[..|mark|] == mark
            && StripLeft(t[|mark|..]) == text
  {
    hide IsSpace, Strip, StripLeft, Trims;
    var t := mark + gap + text;
    StripExact(line, t);
    assert t[|mark|] == gap[0] && t[|mark|..] == gap + text;
    StripLeftPadded(gap, text);
  }

  /** `^[-*]\s+(.*)$` */
  lemma BulletExact(line: string, text: string)
    ensures BulletOf(line) == Some(text) <==> exists mark, gap :: (mark == "-" || mark == "*") && Marked(line, mark, gap, text)
  {
    hide IsSpace, Strip, StripLeft, Marked;
    var t := Strip(line);
    if BulletOf(line) == Some(text) {
      TextBehind(line, 1);
      assert t[..1] == [t[0]];
    }
    if mark, gap :| (mark == "-" || mark == "*") && Marked(line, mark, gap, text) {
      TextIsBehind(line, mark, gap, text);
      assert t[0] == t[..1][0];
    }
  }

  lemma {:induction false} HashesExact(s: string)
    ensures forall i :: 0 <= i < CountHashes(s) ==> s[i] == '#'
    ensures CountHashes(s) < |s| ==> s[CountHashes(s)] != '#'
  {
    if s != "" && s[0] == '#' {
      HashesExact(s[1..]);
      assert forall i :: 0 < i < |s| ==> s[i] == s[1..][i - 1];
    }
  }

  lemma CountOfHashes(t: string, n: nat)
    requires n < |t| && (forall i :: 0 <= i < n ==> t[i] == '#') && IsSpace(t[n])
    ensures CountHashes(t) == n
  {
    hide CountHashes;
    HashesExact(t);
  }

  /** `^(#{1,6})\s+(.*)$`: the level is the number of hashes. */
  lemma HeadingExact(line: string, level: nat, title: string)
    ensures HeadingOf(line) == Some((level, title)) <==>
            1 <= level <= 6 && exists mark, gap :: |mark| == level && AllOf(mark, '#') && Marked(line, mark, gap, title)
  {
    hide HeadingOf, Marked, AllOf;
    if HeadingOf(line) == Some((level, title)) {
      var mark, gap := HeadingFits(line, level, title);
    }
    if mark, gap :| 1 <= level <= 6 && |mark| == level && AllOf(mark, '#') && Marked(line, mark, gap, title) {
      HeadingFound(line, mark, gap, title);
    }
  }

  lemma HeadingFits(line: string, level: nat, title: string) returns (mark: string, gap: string)
    requires HeadingOf(line) == Some((level, title))
    ensures 1 <= level <= 6 && |mark| == level && AllOf(mark, '#') && Marked(line, mark, gap, title)
  {
    hide IsSpace, Strip, StripLeft, Marked, CountHashes;
    var t := Strip(line);
    HashesExact(t);
    TextBehind(line, level);
    mark, gap := t[..level], t[level..|t| - |title|];
  }

  lemma HeadingFound(line: string, mark: string, gap: string, title: string)
    requires 1 <= |mark| <= 6 && AllOf(mark, '#') && Marked(line, mark, gap, title)
    ensures HeadingOf(line) == Some((|mark|, title))
  {
    hide IsSpace, Strip, StripLeft, Marked, CountHashes;
    TextIsBehind(line, mark, gap, title);
    var t := Strip(line);
    assert forall i :: 0 <= i < |mark| ==> t[i] == t[..|mark|][i];
    CountOfHashes(t, |mark|);
  }

  predicate AllDigits(s: string) {
    forall i :: 0 <= i < |s| ==> IsDigit(s[i])
  }

  lemma {:induction false} DigitsExact(s: string)
    ensures forall i :: 0 <= i < CountDigits(s) ==> IsDigit(s[i])
    ensures CountDigits(s) < |s| ==> !IsDigit(s[CountDigits(s)])
  {
    if s != "" && IsDigit(s[0]) {
      DigitsExact(s[1..]);
      assert forall i :: 0 < i < |s| ==> s[i] == s[1..][i - 1];
    }
  }

  lemma CountOfDigits(t: string, n: nat)
    requires n < |t| && (forall i :: 0 <= i < n ==> IsDigit(t[i])) && !IsDigit(t[n])
    ensures CountDigits(t) == n
  {
    hide CountDigits, IsDigit;
    DigitsExact(t);
  }

  /** `^\d+\.\s+(.*)$` */
  lemma NumberedExact(line: string, text: string)
    ensures NumberedOf(line) == Some(text) <==>
            exists digits, gap :: digits != "" && AllDigits(digits) && Marked(line, digits + ".", gap, text)
  {
    hide NumberedOf, Marked, AllDigits;
    if NumberedOf(line) == Some(text) {
      var digits, gap := NumberedFits(line, text);
    }
    if digits, gap :| digits != "" && AllDigits(digits) && Marked(line, digits + ".", gap, text) {
      NumberedFound(line, digits, gap, text);
    }
  }

  lemma NumberedShape(line: string, text: string)
    requires NumberedOf(line) == Some(text)
    ensures var t := Strip(line);
            var n := CountDigits(t);
            n >= 1 && MarkEnds(t, n + 1) && t[n] == '.' && StripLeft(t[n + 1..]) == text
  {
    hide IsSpace, Strip, StripLeft, CountDigits;
  }

  lemma NumberedFits(line: string, text: string) returns (digits: string, gap: string)
    requires NumberedOf(line) == Some(text)
    ensures digits != "" && AllDigits(digits) && Marked(line, digits + ".", gap, text)
  {
    hide IsSpace, Strip, StripLeft, Marked, CountDigits, IsDigit, NumberedOf;
    var t := Strip(line);
    var n := CountDigits(t);
    NumberedShape(line, text);
    DigitsExact(t);
    TextBehind(line, n + 1);
    digits, gap := t[..n], t[n + 1..|t| - |text|];
    assert t[..n + 1] == digits + ".";
  }

  lemma DigitsBeforeDot(t: string, digits: string)
    requires |digits| < |t| && t[..|digits| + 1] == digits + "." && AllDigits(digits)
    ensures CountDigits(t) == |digits| && t[|digits|] == '.'
  {
    hide CountDigits;
    var n := |digits|;
    assert forall i :: 0 <= i <= n ==> t[i] == (digits + ".")[i];
    CountOfDigits(t, n);
  }

  lemma NumberedFound(line: string, digits: string, gap: string, text: string)
    requires digits != "" && AllDigits(digits) && Marked(line, digits + ".", gap, text)
    ensures NumberedOf(line) == Some(text)
  {
    hide IsSpace, Strip, StripLeft, Marked, CountDigits, AllDigits;
    TextIsBehind(line, digits + ".", gap, text);
    DigitsBeforeDot(Strip(line), digits);
  }

  // ---------------------------------------------------------------- the tests

  /** Behind its white space the line begins with the mark. */
  ghost predicate Begins(line: string, mark: string) {
    exists text :: Trims(line, mark + text)
  }

  lemma BeginsExact(line: string, mark: string)
    ensures mark <= Strip(line) <==> Begins(line, mark)
  {
    hide Strip, Trims;
    var t := Strip(line);
    StripExact(line, t);
    if mark <= t {
      assert t == mark + t[|mark|..];
    }
    if text :| Trims(line, mark + text) {
      StripExact(line, mark + text);
    }
  }

  /** A fence begins with three backticks, a quotation with `>`, a table row with a bar; a blank line is
      white space; a rule is three or more dashes, or three or more asterisks. */
  lemma TestsExact(line: string)
    ensures IsFence(line) <==> Begins(line, "```")
    ensures IsQuote(line) <==> Begins(line, ">")
    ensures StartsWithBar(line) <==> Begins(line, "|")
    ensures IsBlank(line) <==> AllSpace(line)
    ensures IsRule(line) <==> exists rule :: Trims(line, rule) && |rule| >= 3 && (AllOf(rule, '-') || AllOf(rule, '*'))
  {
    hide Strip, Trims, Begins, IsSpace;
    BeginsExact(line, "```");
    BeginsExact(line, ">");
    BeginsExact(line, "|");
    BlankExact(line);
    StripExact(line, Strip(line));
    if rule :| Trims(line, rule) && |rule| >= 3 && (AllOf(rule, '-') || AllOf(rule, '*')) {
      StripExact(line, rule);
    }
  }

  lemma BlankExact(line: string)
    ensures Strip(line) == "" <==> AllSpace(line)
  {
    hide Strip, IsSpace;
    if AllSpace(line) {
      StripBlank(line);
    }
    if Strip(line) == "" {
      StripExact(line, "");
    }
  }

  /** A cell of a separator row: dashes with a colon allowed at either end. */
  ghost predicate SeparatorCell(cell: string) {
    exists left, dashes, right ::
      Colon(left) && Colon(right) && dashes != "" && AllOf(dashes, '-') && Trims(cell, left + dashes + right)
  }

  predicate Colon(s: string) {
    s == "" || s == ":"
  }

  lemma EndsOffExact(left: string, core: string, right: string, c: char)
    requires (left == "" || left == [c]) && (right == "" || right == [c])
    requires core != "" && core[0] != c && core[|core| - 1] != c
    ensures EndsOff(left + core + right, c) == core
  {
    var t := left + core + right;
    assert t[|left|] == core[0] && t[|left|..] == core + right && (core + right)[..|core|] == core;
    assert (core + right)[|core| - 1] == core[|core| - 1];
  }

  lemma EndsOn(t: string, c: char) returns (left: string, right: string)
    ensures (left == "" || left == [c]) && (right == "" || right == [c])
    ensures t == left + EndsOff(t, c) + right
  {
    left := if t != "" && t[0] == c then [c] else "";
    right := if |left| + |EndsOff(t, c)| < |t| then [c] else "";
  }

  lemma CellExact(cell: string)
    ensures IsSeparatorCell(cell) <==> SeparatorCell(cell)
  {
    hide Strip, Trims, EndsOff;
    if IsSeparatorCell(cell) {
      var left, right := EndsOn(Strip(cell), ':');
      StripExact(cell, left + EndsOff(Strip(cell), ':') + right);
    }
    if left, dashes, right :|
      Colon(left) && Colon(right) && dashes != "" && AllOf(dashes, '-') && Trims(cell, left + dashes + right)
    {
      StripExact(cell, left + dashes + right);
      EndsOffExact(left, dashes, right, ':');
    }
  }

  predicate Bar(s: string) {
    s == "" || s == "|"
  }

  /** At least two such cells with bars between them; a bar before the first and one behind the last are
      allowed. */
  ghost predicate SeparatorRow(line: string, open: string, cells: seq<string>, close: string) {
    && Bar(open) && Bar(close) && |cells| >= 2
    && (forall k :: 0 <= k < |cells| ==> SeparatorCell(cells[k]))
    && Trims(line, open + Join(cells, "|") + close)
  }

  lemma {:induction false} JoinEnds(cells: seq<string>)
    requires cells != [] && forall k :: 0 <= k < |cells| ==> cells[k] != ""
    ensures var j, last := Join(cells, "|"), cells[|cells| - 1];
            j != "" && j[0] == cells[0][0] && j[|j| - 1] == last[|last| - 1]
  {
    hide Join;
    assert cells == [cells[0]] + cells[1..];
    if |cells| == 1 {
      assert cells == [cells[0]];
      WholeJoin(cells[0]);
    } else {
      JoinEnds(cells[1..]);
      JoinFront(cells[0], cells[1..], "|");
    }
  }

  lemma WholeJoin(cell: string)
    ensures Join([cell], "|") == cell
  {
  }

  /** A separator cell is not empty, and no bar is in it. */
  lemma CellFacts(cell: string)
    requires SeparatorCell(cell)
    ensures cell != "" && '|' !in cell
  {
    hide IsSpace;
    var left, dashes, right :|
      Colon(left) && Colon(right) && dashes != "" && AllOf(dashes, '-') && Trims(cell, left + dashes + right);
    var core := left + dashes + right;
    assert '|' !in core;
    var before, behind :| Padded(cell, before, core, behind);
    BarIsNoSpace();
    assert '|' !in before && '|' !in behind;
  }

  lemma BarIsNoSpace()
    ensures !IsSpace('|')
  {
  }

  lemma SeparatorFound(line: string, open: string, cells: seq<string>, close: string)
    requires SeparatorRow(line, open, cells, close)
    ensures IsSeparator(line)
  {
    hide Strip, Trims, Join, Split, SeparatorCell, IsSeparatorCell, EndsOff;
    var j := Join(cells, "|");
    forall k | 0 <= k < |cells| ensures cells[k] != "" && '|' !in cells[k] && IsSeparatorCell(cells[k]) {
      CellFacts(cells[k]);
      CellExact(cells[k]);
    }
    JoinEnds(cells);
    EndsOffExact(open, j, close, '|');
    StripExact(line, open + j + close);
    SplitJoin(cells, '|');
  }

  lemma SeparatorExact(line: string)
    ensures IsSeparator(line) <==> exists open, cells, close :: SeparatorRow(line, open, cells, close)
  {
    hide SeparatorRow, IsSeparator;
    if open, cells, close :| SeparatorRow(line, open, cells, close) {
      SeparatorFound(line, open, cells, close);
    }
    if IsSeparator(line) {
      var open, cells, close := SeparatorFits(line);
    }
  }

  lemma SeparatorFits(line: string) returns (open: string, cells: seq<string>, close: string)
    requires IsSeparator(line)
    ensures SeparatorRow(line, open, cells, close)
  {
    hide Strip, Trims, Join, Split, SeparatorCell, IsSeparatorCell, EndsOff;
    var t := Strip(line);
    open, close := EndsOn(t, '|');
    cells := Split(EndsOff(t, '|'), '|');
    JoinSplit(EndsOff(t, '|'), '|');
    StripExact(line, t);
    forall k | 0 <= k < |cells| ensures SeparatorCell(cells[k]) {
      CellExact(cells[k]);
    }
  }

  // ---------------------------------------------------------------- list items

  /** What is printed for a list line is the text its pattern reads. */
  lemma ItemExact(line: string, text: string)
    ensures BulletOf(line) == Some(text) ==> ItemText(false, line) == text
    ensures NumberedOf(line) == Some(text) ==> ItemText(true, line) == text
  {
    hide BulletOf, NumberedOf;
  }

  // ---------------------------------------------------------------- quotations and table rows

  /** The text of a quoted line: what follows its marks, without the white space at its ends. */
  ghost predicate QuotedLine(line: string, marks: string, rest: string, text: string) {
    && Trims(line, marks + rest) && AllOf(marks, '>') && (rest != "" ==> rest[0] != '>') && Trims(rest, text)
  }

  lemma QuoteExact(line: string, text: string)
    ensures QuoteText(line) == text <==> exists marks, rest :: QuotedLine(line, marks, rest, text)
  {
    hide Strip, Trims, TrimLeft;
    var t := Strip(line);
    var rest := TrimLeft(t, '>');
    StripExact(line, t);
    TrimLeftCuts(t, '>');
    StripExact(rest, text);
    if QuoteText(line) == text {
      var marks := t[..|t| - |rest|];
      assert t == marks + rest;
      assert QuotedLine(line, marks, rest, text);
    }
    if marks, rest' :| QuotedLine(line, marks, rest', text) {
      StripExact(line, marks + rest');
      TrimLeftExact(marks, rest', '>');
    }
  }

  lemma {:induction false} StripAllAt(cells: seq<string>)
    ensures |StripAll(cells)| == |cells| && forall k :: 0 <= k < |cells| ==> StripAll(cells)[k] == Strip(cells[k])
  {
    hide Strip;
    if cells != [] {
      StripAllAt(cells[1..]);
    }
  }

  /** A table row: inside its outer bars, the raw cells with a bar between any two; the cells are these
      without the white space at their ends. */
  ghost predicate RowOf(line: string, row: string, inner: string, raw: seq<string>, cells: seq<string>) {
    && Trims(line, row) && TrimsOff(row, inner, '|')
    && raw != [] && Join(raw, "|") == inner && (forall k :: 0 <= k < |raw| ==> '|' !in raw[k])
    && |cells| == |raw| && forall k :: 0 <= k < |raw| ==> Trims(raw[k], cells[k])
  }

  lemma CellsExact(line: string, cells: seq<string>)
    ensures TableCells(line) == cells <==> exists row, inner, raw :: RowOf(line, row, inner, raw, cells)
  {
    hide Strip, Trims, TrimsOff, TrimLeft, TrimRight, Split, Join, StripAll, RowOf;
    var row := Strip(line);
    var inner := TrimRight(TrimLeft(row, '|'), '|');
    var raw := Split(inner, '|');
    if TableCells(line) == cells {
      CellsFit(line, row, inner, raw, cells);
    }
    if row', inner', raw' :| RowOf(line, row', inner', raw', cells) {
      CellsFit(line, row', inner', raw', cells);
    }
  }

  lemma CellsFit(line: string, row: string, inner: string, raw: seq<string>, cells: seq<string>)
    ensures RowOf(line, row, inner, raw, cells) <==>
            && Strip(line) == row && TrimRight(TrimLeft(row, '|'), '|') == inner
            && Split(inner, '|') == raw && StripAll(raw) == cells
  {
    hide Strip, Trims, TrimsOff, TrimLeft, TrimRight, Split, Join, StripAll;
    StripExact(line, row);
    TrimExact(row, inner, '|');
    SplitExact(inner, '|', raw);
    StripAllAt(raw);
    if |cells| == |raw| {
      forall k | 0 <= k < |raw| ensures Trims(raw[k], cells[k]) <==> StripAll(raw)[k] == cells[k] {
        StripExact(raw[k], cells[k]);
      }
    }
  }

  // ---------------------------------------------------------------- kinds

  /** No line fits the patterns of two kinds, so the order of the tests does not matter: what the first of
      the remaining lines starts is the one kind whose pattern it fits, and text if it fits none. */
  lemma KindExact(lines: seq<string>)
    requires lines != []
    ensures var kind, line := KindOf(lines), lines[0];
            var table := StartsWithBar(line) && |lines| > 1 && IsSeparator(lines[1]);
            && (kind == FenceKind <==> IsFence(line)) && (kind == BlankKind <==> IsBlank(line))
            && (kind == RuleKind <==> IsRule(line)) && (kind == HeadingKind <==> HeadingOf(line).Some?)
            && (kind == TableKind <==> table) && (kind == QuoteKind <==> IsQuote(line))
            && (kind == BulletKind <==> BulletOf(line).Some?) && (kind == NumberedKind <==> NumberedOf(line).Some?)
            && (kind == TextKind <==> !IsFence(line) && !IsBlank(line) && !IsRule(line) && HeadingOf(line).None? && !table
                                      && !IsQuote(line) && BulletOf(line).None? && NumberedOf(line).None?)
  {
    hide Strip, StripLeft, IsSeparator, CountHashes, CountDigits;
    var t := Strip(lines[0]);
    HashesExact(t);
    DigitsExact(t);
  }
}
