/** HTML escaping and the four inline rewrites of the documentation renderer. */
module Inline {
  import opened Options
  import opened Text

  // ---------------------------------------------------------------- escaping

  function EscapeChar(c: char): string {
    if c == '&' then "&amp;"
    else if c == '<' then "&lt;"
    else if c == '>' then "&gt;"
    else if c == '"' then "&quot;"
    else if c == '\'' then "&#x27;"
    else [c]
  }

  function Escape(s: string): string {
    if s == "" then "" else EscapeChar(s[0]) + Escape(s[1..])
  }

  /** Reads one escaped character off the front: the character and how much of the text it took. */
  function UnescapeChar(s: string): (r: (char, nat))
    requires s != ""
    ensures 1 <= r.1 <= |s|
  {
    if "&amp;" <= s then ('&', 5)
    else if "&lt;" <= s then ('<', 4)
    else if "&gt;" <= s then ('>', 4)
    else if "&quot;" <= s then ('"', 6)
    else if "&#x27;" <= s then ('\'', 6)
    else (s[0], 1)
  }

  function Unescape(s: string): string {
    if s == "" then "" else [UnescapeChar(s).0] + Unescape(s[UnescapeChar(s).1..])
  }

  lemma UnescapeFront(c: char, rest: string)
    ensures UnescapeChar(EscapeChar(c) + rest) == (c, |EscapeChar(c)|)
  {
    var s := EscapeChar(c) + rest;
    if c == '&' {
      assert s[..5] == "&amp;";
    } else if c == '<' {
      assert s[1] == 'l';
    } else if c == '>' {
      assert s[1] == 'g';
    } else if c == '"' {
      assert s[1] == 'q';
    } else if c == '\'' {
      assert s[1] == '#';
    } else {
      assert s[0] == c;
    }
  }

  /** Escaping loses nothing: the source text can be read back from it. */
  lemma {:induction false} EscapeRoundTrip(s: string)
    ensures Unescape(Escape(s)) == s
  {
    if s != "" {
      UnescapeFront(s[0], Escape(s[1..]));
      EscapeRoundTrip(s[1..]);
      assert Escape(s)[|EscapeChar(s[0])|..] == Escape(s[1..]);
    }
  }

  // ---------------------------------------------------------------- clean text

  /** A character that cannot start a tag or an entity, nor end an attribute. */
  predicate Plain(c: char) {
    c != '<' && c != '>' && c != '"' && c != '\'' && c != '&'
  }

  /** The text is made of plain characters and whole atoms and of nothing else. */
  ghost predicate Clean(atoms: iset<string>, s: string)
    decreases |s|
  {
    || s == ""
    || (Plain(s[0]) && Clean(atoms, s[1..]))
    || exists a {:trigger AtomFront(atoms, a, s)} :: AtomFront(atoms, a, s) && Clean(atoms, s[|a|..])
  }

  ghost predicate AtomFront(atoms: iset<string>, a: string, s: string) {
    a in atoms && a != "" && a <= s
  }

  ghost const ENTITIES := iset{"&amp;", "&lt;", "&gt;", "&quot;", "&#x27;"}

  ghost const FORMAT_TAGS := iset{"<code>", "</code>", "<strong>", "</strong>", "<em>", "</em>"}

  ghost const FORMAT_ATOMS := ENTITIES + FORMAT_TAGS

  lemma {:induction false} CleanConcat(atoms: iset<string>, s: string, t: string)
    requires Clean(atoms, s) && Clean(atoms, t)
    ensures Clean(atoms, s + t)
    decreases |s|
  {
    if s == "" {
      assert s + t == t;
    } else if Plain(s[0]) && Clean(atoms, s[1..]) {
      CleanConcat(atoms, s[1..], t);
      assert (s + t)[1..] == s[1..] + t;
    } else {
      var a :| AtomFront(atoms, a, s) && Clean(atoms, s[|a|..]);
      CleanConcat(atoms, s[|a|..], t);
      assert AtomFront(atoms, a, s + t) && (s + t)[|a|..] == s[|a|..] + t;
    }
  }

  lemma CleanAtom(atoms: iset<string>, a: string)
    requires a in atoms
    ensures Clean(atoms, a)
  {
    if a != "" {
      assert AtomFront(atoms, a, a) && a[|a|..] == "";
    }
  }

  lemma {:induction false} CleanMore(atoms: iset<string>, more: iset<string>, s: string)
    requires Clean(atoms, s) && atoms <= more
    ensures Clean(more, s)
    decreases |s|
  {
    if s == "" {
    } else if Plain(s[0]) && Clean(atoms, s[1..]) {
      CleanMore(atoms, more, s[1..]);
    } else {
      var a :| AtomFront(atoms, a, s) && Clean(atoms, s[|a|..]);
      CleanMore(atoms, more, s[|a|..]);
      assert AtomFront(more, a, s);
    }
  }

  ghost predicate Outside(atoms: iset<string>, c: char) {
    forall a :: a in atoms ==> c !in a
  }

  lemma PrefixHolds(a: string, s: string, i: nat)
    requires a <= s && i < |a|
    ensures s[i] in a
  {
    assert a[i] == s[i];
  }

  /** Text can be cut at a character that occurs in no atom: the cut never splits one. */
  lemma {:induction false} CleanCut(atoms: iset<string>, s: string, i: nat)
    requires Clean(atoms, s) && i < |s| && Outside(atoms, s[i])
    ensures Clean(atoms, s[..i]) && Clean(atoms, s[i + 1..])
    decreases |s|
  {
    if Plain(s[0]) && Clean(atoms, s[1..]) {
      if i > 0 {
        CleanCut(atoms, s[1..], i - 1);
        assert s[1..][..i - 1] == s[..i][1..] && s[1..][i..] == s[i + 1..];
      }
    } else {
      var a :| AtomFront(atoms, a, s) && Clean(atoms, s[|a|..]);
      if i < |a| {
        PrefixHolds(a, s, i);
        assert false;
      }
      var rest := s[|a|..];
      CleanCut(atoms, rest, i - |a|);
      assert rest[..i - |a|] == s[..i][|a|..] && rest[i - |a| + 1..] == s[i + 1..];
      assert AtomFront(atoms, a, s[..i]);
    }
  }

  lemma {:induction false} CleanLacks(atoms: iset<string>, s: string, c: char)
    requires Clean(atoms, s) && !Plain(c) && Outside(atoms, c)
    ensures c !in s
    decreases |s|
  {
    if s == "" {
    } else if Plain(s[0]) && Clean(atoms, s[1..]) {
      CleanLacks(atoms, s[1..], c);
      assert s == [s[0]] + s[1..];
    } else {
      var a :| AtomFront(atoms, a, s) && Clean(atoms, s[|a|..]);
      CleanLacks(atoms, s[|a|..], c);
      assert s == a + s[|a|..];
    }
  }

  /** Escaped text consists of plain characters and the five entities. */
  lemma {:induction false} EscapeClean(s: string)
    ensures Clean(ENTITIES, Escape(s))
  {
    if s != "" {
      EscapeClean(s[1..]);
      var e := EscapeChar(s[0]);
      if Plain(s[0]) {
        assert e[1..] == "";
      } else {
        CleanAtom(ENTITIES, e);
      }
      CleanConcat(ENTITIES, e, Escape(s[1..]));
    }
  }

  // ---------------------------------------------------------------- the four rewrites

  datatype Pass = CodePass | BoldPass | ItalicPass | LinkPass

  /** What a rewrite makes of a stretch of text. */
  datatype Piece =
    | Raw(c: char)
    | Code(text: string)
    | Bold(text: string)
    | Italic(text: string)
    | Link(caption: string, href: string)
  {
    /** The stretch itself. */
    function Source(): string {
      match this
      case Raw(c) => [c]
      case Code(t) => "`" + t + "`"
      case Bold(t) => "**" + t + "**"
      case Italic(t) => "*" + t + "*"
      case Link(caption, href) => "[" + caption + "](" + href + ")"
    }

    function Html(): string {
      match this
      case Raw(c) => [c]
      case Code(t) => "<code>" + t + "</code>"
      case Bold(t) => "<strong>" + t + "</strong>"
      case Italic(t) => "<em>" + t + "</em>"
      case Link(caption, href) =>
        if SafeTarget(href) then "<a href=\"" + href + "\">" + caption + "</a>" else caption
    }
  }

  predicate SafeTarget(href: string) {
    "http://" <= href || "https://" <= href || "/" <= href || "#" <= href || "mailto:" <= href
  }

  const SAFE_PREFIXES := ["http://", "https://", "/", "#", "mailto:"]

  /** A target is allowed exactly if it begins with one of these. */
  lemma SafeTargetExact(href: string)
    ensures SafeTarget(href) <==> exists k :: 0 <= k < 5 && SAFE_PREFIXES[k] <= href
  {
    var p := SAFE_PREFIXES;
    assert p[0] == "http://" && p[1] == "https://" && p[2] == "/" && p[3] == "#" && p[4] == "mailto:";
    assert SafeTarget(href) <==> p[0] <= href || p[1] <= href || p[2] <= href || p[3] <= href || p[4] <= href;
  }

  /** A whole link: an allowed target without a quote, in its own attribute, and the caption, closed. */
  ghost predicate LinkMarkup(a: string, caption: string, href: string) {
    && a == Link(caption, href).Html() && SafeTarget(href) && '"' !in href
    && Clean(FORMAT_ATOMS, caption) && Clean(FORMAT_ATOMS, href)
  }

  ghost predicate IsLink(a: string) {
    exists caption, href :: LinkMarkup(a, caption, href)
  }

  /** What inline formatting may write besides plain characters. A link counts only as a whole. */
  ghost const INLINE_ATOMS := FORMAT_ATOMS + iset a | IsLink(a)

  /** The index of the first `c` in `s` at or after `from`, or the length of `s`. */
  function Find(s: string, c: char, from: nat): (i: nat)
    requires from <= |s|
    ensures from <= i <= |s| && (i < |s| ==> s[i] == c)
    ensures forall k :: from <= k < i ==> s[k] != c
  {
    from + IndexOf(s[from..], c)
  }

  /** The index of the first closing parenthesis or white space, or the length of `s`. */
  function FindTargetEnd(s: string, from: nat): (i: nat)
    requires from <= |s|
    ensures from <= i <= |s| && (i < |s| ==> s[i] == ')' || IsSpace(s[i]))
    ensures forall k :: from <= k < i ==> s[k] != ')' && !IsSpace(s[k])
    decreases |s| - from
  {
    if from == |s| || s[from] == ')' || IsSpace(s[from]) then from else FindTargetEnd(s, from + 1)
  }

  /** `text` stands in `s` at `i`. */
  predicate At(s: string, i: nat, text: string) {
    i + |text| <= |s| && s[i..i + |text|] == text
  }

  lemma AtConcat(s: string, i: nat, a: string, b: string)
    ensures At(s, i, a + b) <==> At(s, i, a) && At(s, i + |a|, b)
  {
    if At(s, i, a + b) {
      assert s[i..i + |a|] == s[i..i + |a + b|][..|a|] && s[i + |a|..i + |a| + |b|] == s[i..i + |a + b|][|a|..];
    }
    if At(s, i, a) && At(s, i + |a|, b) {
      assert s[i..i + |a| + |b|] == s[i..i + |a|] + s[i + |a|..i + |a| + |b|];
    }
  }

  lemma AtWrapped(s: string, i: nat, open: string, text: string, close: string)
    ensures At(s, i, open + text + close) <==>
            At(s, i, open) && At(s, i + |open|, text) && At(s, i + |open| + |text|, close)
  {
    AtConcat(s, i, open + text, close);
    AtConcat(s, i, open, text);
  }

  lemma AtOne(s: string, i: nat, c: char)
    ensures At(s, i, [c]) <==> i < |s| && s[i] == c
  {
    if i < |s| {
      assert s[i..i + 1] == [s[i]];
    }
  }

  lemma AtTwo(s: string, i: nat, c: char, d: char)
    ensures At(s, i, [c, d]) <==> i + 1 < |s| && s[i] == c && s[i + 1] == d
  {
    if i + 1 < |s| {
      assert s[i..i + 2] == [s[i], s[i + 1]];
    }
  }

  lemma AtSlice(s: string, low: nat, high: nat)
    requires low <= high <= |s|
    ensures At(s, low, s[low..high])
  {
  }

  /** What stands at a position is the slice there. */
  lemma AtIsSlice(s: string, i: nat, text: string)
    requires At(s, i, text)
    ensures i + |text| <= |s| && text == s[i..i + |text|]
  {
  }

  lemma AtIndex(s: string, i: nat, text: string, k: nat)
    requires At(s, i, text) && k < |text|
    ensures i + |text| <= |s| && s[i + k] == text[k]
  {
    assert s[i..i + |text|][k] == s[i + k];
  }

  /** Each of these is the match of one pattern that starts at `i`, if there is one. */
  function CodeAt(s: string, i: nat): Option<Piece>
    requires i < |s|
  {
    if s[i] != '`' then None
    else
      var j := Find(s, '`', i + 1);
      if j < |s| && j > i + 1 then Some(Code(s[i + 1..j])) else None
  }

  function BoldAt(s: string, i: nat): Option<Piece>
    requires i < |s|
  {
    if i + 1 == |s| || s[i] != '*' || s[i + 1] != '*' then None
    else
      var j := Find(s, '*', i + 2);
      if j + 1 < |s| && j > i + 2 && s[j + 1] == '*' then Some(Bold(s[i + 2..j])) else None
  }

  function ItalicAt(s: string, i: nat): Option<Piece>
    requires i < |s|
  {
    if i + 1 == |s| || s[i] != '*' || (i > 0 && s[i - 1] == '*') || IsSpace(s[i + 1]) then None
    else
      var j := Find(s, '*', i + 1);
      if j < |s| && j > i + 1 && (j + 1 == |s| || s[j + 1] != '*') then Some(Italic(s[i + 1..j])) else None
  }

  function LinkAt(s: string, i: nat): Option<Piece>
    requires i < |s|
  {
    if s[i] != '[' then None
    else
      var j := Find(s, ']', i + 1);
      if j + 1 < |s| && j > i + 1 && s[j + 1] == '(' then
        var k := FindTargetEnd(s, j + 2);
        if k < |s| && k > j + 2 && s[k] == ')' then Some(Link(s[i + 1..j], s[j + 2..k])) else None
      else None
  }

  lemma AtLink(s: string, i: nat, caption: string, href: string)
    ensures At(s, i, "[" + caption + "](" + href + ")") <==>
            && At(s, i, "[") && At(s, i + 1, caption) && At(s, i + 1 + |caption|, "](")
            && At(s, i + 3 + |caption|, href) && At(s, i + 3 + |caption| + |href|, ")")
  {
    hide At;
    AtConcat(s, i, "[" + caption + "](" + href, ")");
    AtConcat(s, i, "[" + caption + "](", href);
    AtConcat(s, i, "[" + caption, "](");
    AtConcat(s, i, "[", caption);
  }

  /** The pattern of a rewrite, read as a condition on a piece standing at `i`. */
  predicate Fits(pass: Pass, s: string, i: nat, p: Piece) {
    && At(s, i, p.Source())
    && match pass
       case CodePass => p.Code? && p.text != "" && '`' !in p.text
       case BoldPass => p.Bold? && p.text != "" && '*' !in p.text
       case ItalicPass =>
         && p.Italic? && p.text != "" && '*' !in p.text && !IsSpace(p.text[0])
         && (0 < i <= |s| ==> s[i - 1] != '*')
         && (i + |p.text| + 2 < |s| ==> s[i + |p.text| + 2] != '*')
       case LinkPass =>
         && p.Link? && p.caption != "" && ']' !in p.caption
         && p.href != "" && ')' !in p.href && forall k :: 0 <= k < |p.href| ==> !IsSpace(p.href[k])
  }

  lemma FindUnique(s: string, c: char, from: nat, text: string)
    requires At(s, from, text) && At(s, from + |text|, [c]) && c !in text
    ensures Find(s, c, from) == from + |text|
  {
    hide At;
    AtOne(s, from + |text|, c);
    var i := Find(s, c, from);
    if i < from + |text| {
      AtIndex(s, from, text, i - from);
    }
  }

  lemma {:induction false} FindTargetEndUnique(s: string, from: nat, text: string)
    requires At(s, from, text) && At(s, from + |text|, ")")
    requires ')' !in text && forall k :: 0 <= k < |text| ==> !IsSpace(text[k])
    ensures FindTargetEnd(s, from) == from + |text|
  {
    hide At, IsSpace;
    AtOne(s, from + |text|, ')');
    var i := FindTargetEnd(s, from);
    if i < from + |text| {
      AtIndex(s, from, text, i - from);
    }
  }

  lemma SliceLacks(s: string, low: nat, high: nat, c: char)
    requires low <= high <= |s| && forall k :: low <= k < high ==> s[k] != c
    ensures c !in s[low..high]
  {
  }

  lemma SliceUnspaced(s: string, low: nat, high: nat)
    requires low <= high <= |s| && forall k :: low <= k < high ==> !IsSpace(s[k])
    ensures forall k :: 0 <= k < |s[low..high]| ==> !IsSpace(s[low..high][k])
  {
    hide IsSpace;
  }

  lemma WrappedSlice(s: string, i: nat, open: string, j: nat, close: string)
    requires At(s, i, open) && i + |open| <= j <= |s| && At(s, j, close)
    ensures At(s, i, open + s[i + |open|..j] + close)
  {
    hide At;
    AtSlice(s, i + |open|, j);
    AtWrapped(s, i, open, s[i + |open|..j], close);
  }

  lemma CodeFits(s: string, i: nat)
    requires i < |s| && CodeAt(s, i).Some?
    ensures Fits(CodePass, s, i, CodeAt(s, i).value)
  {
    hide At, Find, IndexOf;
    var j := Find(s, '`', i + 1);
    AtOne(s, i, '`');
    AtOne(s, j, '`');
    WrappedSlice(s, i, "`", j, "`");
    SliceLacks(s, i + 1, j, '`');
  }

  lemma CodeComplete(s: string, i: nat, p: Piece)
    requires i < |s| && Fits(CodePass, s, i, p)
    ensures CodeAt(s, i) == Some(p)
  {
    hide At, Find, IndexOf;
    AtOne(s, i, '`');
    AtWrapped(s, i, "`", p.text, "`");
    FindUnique(s, '`', i + 1, p.text);
    AtIsSlice(s, i + 1, p.text);
    AtOne(s, i + 1 + |p.text|, '`');
  }

  lemma BoldFits(s: string, i: nat)
    requires i < |s| && BoldAt(s, i).Some?
    ensures Fits(BoldPass, s, i, BoldAt(s, i).value)
  {
    hide At, Find, IndexOf;
    var j := Find(s, '*', i + 2);
    AtTwo(s, i, '*', '*');
    AtTwo(s, j, '*', '*');
    WrappedSlice(s, i, "**", j, "**");
    SliceLacks(s, i + 2, j, '*');
  }

  lemma BoldShape(s: string, i: nat, text: string)
    requires At(s, i, "**" + text + "**") && '*' !in text
    ensures i + |text| + 4 <= |s| && s[i] == '*' && s[i + 1] == '*' && s[i + |text| + 3] == '*'
    ensures Find(s, '*', i + 2) == i + 2 + |text| && s[i + 2..i + 2 + |text|] == text
  {
    hide At, Find, IndexOf;
    AtTwo(s, i, '*', '*');
    AtWrapped(s, i, "**", text, "**");
    AtTwo(s, i + 2 + |text|, '*', '*');
    AtOne(s, i + 2 + |text|, '*');
    FindUnique(s, '*', i + 2, text);
    AtIsSlice(s, i + 2, text);
  }

  lemma BoldComplete(s: string, i: nat, p: Piece)
    requires i < |s| && Fits(BoldPass, s, i, p)
    ensures BoldAt(s, i) == Some(p)
  {
    hide At, Find, IndexOf;
    BoldShape(s, i, p.text);
  }

  lemma ItalicFits(s: string, i: nat)
    requires i < |s| && ItalicAt(s, i).Some?
    ensures Fits(ItalicPass, s, i, ItalicAt(s, i).value)
  {
    hide At, IsSpace, Find, IndexOf, ItalicAt;
    var j := Find(s, '*', i + 1);
    ItalicFound(s, i);
    AtOne(s, i, '*');
    AtOne(s, j, '*');
    WrappedSlice(s, i, "*", j, "*");
    SliceLacks(s, i + 1, j, '*');
  }

  lemma ItalicFound(s: string, i: nat)
    requires i < |s| && ItalicAt(s, i).Some?
    ensures var j := Find(s, '*', i + 1);
            && i + 1 < j < |s| && ItalicAt(s, i) == Some(Italic(s[i + 1..j])) && s[i] == '*' && !IsSpace(s[i + 1])
            && (i > 0 ==> s[i - 1] != '*') && (j + 1 < |s| ==> s[j + 1] != '*')
  {
    hide IsSpace, Find, IndexOf;
  }

  lemma ItalicShape(s: string, i: nat, text: string)
    requires At(s, i, "*" + text + "*") && text != ""
    ensures i + |text| + 2 <= |s| && s[i] == '*' && s[i + 1] == text[0] && s[i + 1 + |text|] == '*'
    ensures At(s, i + 1, text) && At(s, i + 1 + |text|, "*") && s[i + 1..i + 1 + |text|] == text
  {
    hide At;
    AtWrapped(s, i, "*", text, "*");
    AtOne(s, i, '*');
    AtOne(s, i + 1 + |text|, '*');
    AtIndex(s, i + 1, text, 0);
    AtIsSlice(s, i + 1, text);
  }

  lemma ItalicComplete(s: string, i: nat, p: Piece)
    requires i < |s| && Fits(ItalicPass, s, i, p)
    ensures ItalicAt(s, i) == Some(p)
  {
    hide At, IsSpace, Find, IndexOf, ItalicAt, Piece.Source;
    ItalicSource(p.text);
    ItalicShape(s, i, p.text);
    FindUnique(s, '*', i + 1, p.text);
    ItalicIs(s, i, i + 1 + |p.text|);
  }

  lemma ItalicSource(text: string)
    ensures Italic(text).Source() == "*" + text + "*"
  {
  }

  lemma ItalicIs(s: string, i: nat, j: nat)
    requires i + 1 < j < |s| && s[i] == '*' && !IsSpace(s[i + 1]) && Find(s, '*', i + 1) == j
    requires (i > 0 ==> s[i - 1] != '*') && (j + 1 < |s| ==> s[j + 1] != '*')
    ensures ItalicAt(s, i) == Some(Italic(s[i + 1..j]))
  {
    hide IsSpace, Find;
  }

  lemma LinkShape(s: string, i: nat, j: nat, k: nat)
    requires i < j && j + 2 <= k < |s| && s[i] == '[' && s[j] == ']' && s[j + 1] == '(' && s[k] == ')'
    ensures At(s, i, "[" + s[i + 1..j] + "](" + s[j + 2..k] + ")")
  {
    hide At;
    AtOne(s, i, '[');
    AtSlice(s, i + 1, j);
    AtTwo(s, j, ']', '(');
    AtSlice(s, j + 2, k);
    AtOne(s, k, ')');
    AtLink(s, i, s[i + 1..j], s[j + 2..k]);
  }

  lemma LinkFits(s: string, i: nat)
    requires i < |s| && LinkAt(s, i).Some?
    ensures Fits(LinkPass, s, i, LinkAt(s, i).value)
  {
    hide At, IsSpace, Find, IndexOf, FindTargetEnd;
    var j := Find(s, ']', i + 1);
    var k := FindTargetEnd(s, j + 2);
    LinkShape(s, i, j, k);
    SliceLacks(s, i + 1, j, ']');
    SliceLacks(s, j + 2, k, ')');
    SliceUnspaced(s, j + 2, k);
  }

  lemma LinkFound(s: string, i: nat, caption: string, href: string)
    requires At(s, i, "[" + caption + "](" + href + ")") && ']' !in caption
    requires ')' !in href && forall k :: 0 <= k < |href| ==> !IsSpace(href[k])
    ensures var j, k := i + 1 + |caption|, i + 3 + |caption| + |href|;
            && k < |s| && s[i] == '[' && s[j + 1] == '(' && s[k] == ')'
            && Find(s, ']', i + 1) == j && FindTargetEnd(s, j + 2) == k
            && s[i + 1..j] == caption && s[j + 2..k] == href
  {
    hide At, IsSpace, Find, IndexOf, FindTargetEnd;
    var j := i + 1 + |caption|;
    AtLink(s, i, caption, href);
    AtOne(s, i, '[');
    AtTwo(s, j, ']', '(');
    AtOne(s, j, ']');
    AtIsSlice(s, i + 1, caption);
    AtIsSlice(s, j + 2, href);
    AtOne(s, j + 2 + |href|, ')');
    FindUnique(s, ']', i + 1, caption);
    FindTargetEndUnique(s, j + 2, href);
  }

  lemma LinkComplete(s: string, i: nat, p: Piece)
    requires i < |s| && Fits(LinkPass, s, i, p)
    ensures LinkAt(s, i) == Some(p)
  {
    hide At, IsSpace, Find, IndexOf, FindTargetEnd, LinkAt, Piece.Source;
    LinkSource(p.caption, p.href);
    LinkFound(s, i, p.caption, p.href);
    LinkIs(s, i, i + 1 + |p.caption|, i + 3 + |p.caption| + |p.href|);
  }

  lemma LinkSource(caption: string, href: string)
    ensures Link(caption, href).Source() == "[" + caption + "](" + href + ")"
  {
  }

  lemma LinkIs(s: string, i: nat, j: nat, k: nat)
    requires i + 1 < j && j + 2 < k < |s| && s[i] == '[' && s[j + 1] == '(' && s[k] == ')'
    requires Find(s, ']', i + 1) == j && FindTargetEnd(s, j + 2) == k
    ensures LinkAt(s, i) == Some(Link(s[i + 1..j], s[j + 2..k]))
  {
    hide IsSpace, Find, FindTargetEnd;
  }

  predicate Marker(c: char) {
    c == '`' || c == '*' || c == '[' || c == ']' || c == '(' || c == ')'
  }

  function MatchAt(pass: Pass, s: string, i: nat): Option<Piece>
    requires i < |s|
  {
    match pass
    case CodePass => CodeAt(s, i)
    case BoldPass => BoldAt(s, i)
    case ItalicPass => ItalicAt(s, i)
    case LinkPass => LinkAt(s, i)
  }

  /** The scan finds a match exactly where the pattern fits, and no pattern fits in two ways. */
  lemma MatchExact(pass: Pass, s: string, i: nat, p: Piece)
    requires i < |s|
    ensures MatchAt(pass, s, i) == Some(p) <==> Fits(pass, s, i, p)
  {
    hide Fits, CodeAt, BoldAt, ItalicAt, LinkAt;
    if MatchAt(pass, s, i) == Some(p) {
      match pass
      case CodePass => CodeFits(s, i);
      case BoldPass => BoldFits(s, i);
      case ItalicPass => ItalicFits(s, i);
      case LinkPass => LinkFits(s, i);
    } else if Fits(pass, s, i, p) {
      match pass
      case CodePass => CodeComplete(s, i, p);
      case BoldPass => BoldComplete(s, i, p);
      case ItalicPass => ItalicComplete(s, i, p);
      case LinkPass => LinkComplete(s, i, p);
    }
  }

  lemma MatchAtMarker(pass: Pass, s: string, i: nat)
    requires i < |s| && MatchAt(pass, s, i).Some?
    ensures Marker(s[i]) && MatchAt(pass, s, i).value.Source() != ""
  {
  }

  lemma RawAt(s: string, i: nat)
    requires i < |s|
    ensures At(s, i, Raw(s[i]).Source())
  {
  }

  lemma FitsAt(pass: Pass, s: string, i: nat)
    requires i < |s| && MatchAt(pass, s, i).Some?
    ensures Fits(pass, s, i, MatchAt(pass, s, i).value) && At(s, i, MatchAt(pass, s, i).value.Source())
  {
    hide MatchAt, At, Piece.Source;
    MatchExact(pass, s, i, MatchAt(pass, s, i).value);
  }

  function PieceAt(pass: Pass, s: string, i: nat): (p: Piece)
    requires i < |s|
    ensures p.Source() != "" && At(s, i, p.Source())
    ensures !Marker(s[i]) ==> p == Raw(s[i])
  {
    hide MatchAt, At, Marker, Piece.Source, Fits;
    var m := MatchAt(pass, s, i);
    if m.Some? then
      MatchAtMarker(pass, s, i);
      FitsAt(pass, s, i);
      m.value
    else
      RawAt(s, i);
      Raw(s[i])
  }

  /** All non-overlapping matches from `i` on, leftmost first, with the characters between them. */
  function Pieces(pass: Pass, s: string, i: nat): seq<Piece>
    requires i <= |s|
    decreases |s| - i
  {
    if i == |s| then []
    else
      var p := PieceAt(pass, s, i);
      [p] + Pieces(pass, s, i + |p.Source()|)
  }

  function SourceOf(pieces: seq<Piece>): string {
    if pieces == [] then "" else pieces[0].Source() + SourceOf(pieces[1..])
  }

  function HtmlOf(pieces: seq<Piece>): string {
    if pieces == [] then "" else pieces[0].Html() + HtmlOf(pieces[1..])
  }

  /** `pattern.sub(...)` over the whole text. */
  function Rewrite(pass: Pass, s: string): string {
    HtmlOf(Pieces(pass, s, 0))
  }

  /** What the link pass receives: code, then bold, then italic. */
  function BeforeLinks(s: string): string {
    Rewrite(ItalicPass, Rewrite(BoldPass, Rewrite(CodePass, s)))
  }

  /** `_inline` */
  function InlineHtml(s: string): string {
    Rewrite(LinkPass, BeforeLinks(s))
  }

  /** A rewrite takes the text apart without losing, reordering or inventing a character. */
  lemma {:induction false} PiecesLossless(pass: Pass, s: string, i: nat)
    requires i <= |s|
    ensures SourceOf(Pieces(pass, s, i)) == s[i..]
    decreases |s| - i
  {
    hide MatchAt, Piece.Source;
    if i < |s| {
      var p := PieceAt(pass, s, i);
      PiecesLossless(pass, s, i + |p.Source()|);
      assert s[i..] == s[i..i + |p.Source()|] + s[i + |p.Source()|..];
    }
  }

  lemma MatchGrows(pass: Pass, s: string, i: nat)
    requires i < |s| && MatchAt(pass, s, i).Some? && !pass.LinkPass?
    ensures PieceAt(pass, s, i) == MatchAt(pass, s, i).value
    ensures |PieceAt(pass, s, i).Html()| > |PieceAt(pass, s, i).Source()|
  {
    hide MatchAt, At, Marker;
    FitsAt(pass, s, i);
  }

  /** The positions from `i` on where a pass finds no match. */
  predicate Unmatched(pass: Pass, s: string, i: nat) {
    forall j :: i <= j < |s| ==> MatchAt(pass, s, j).None?
  }

  /** A format pass never shortens the text, and keeps its length exactly if it finds no match. */
  lemma {:induction false} FormatGrows(pass: Pass, s: string, i: nat)
    requires i <= |s| && !pass.LinkPass?
    ensures |HtmlOf(Pieces(pass, s, i))| >= |s| - i
    ensures Unmatched(pass, s, i) ==> HtmlOf(Pieces(pass, s, i)) == s[i..]
    ensures |HtmlOf(Pieces(pass, s, i))| == |s| - i ==> Unmatched(pass, s, i)
    decreases |s| - i
  {
    hide MatchAt, PieceAt, Pieces, HtmlOf, Piece.Source, Piece.Html, Marker;
    if i == |s| {
      NoPieces(pass, s);
    } else if MatchAt(pass, s, i).Some? {
      var p := PieceAt(pass, s, i);
      MatchGrows(pass, s, i);
      PiecesStep(pass, s, i);
      FormatGrows(pass, s, i + |p.Source()|);
    } else {
      RawFront(pass, s, i);
      FormatGrows(pass, s, i + 1);
      assert s[i..] == [s[i]] + s[i + 1..];
    }
  }

  /** The link pass receives the escaped text itself, targets and all, exactly if no code, bold or
      italic match lies in it. */
  lemma FormattingLeavesAlone(s: string)
    ensures BeforeLinks(s) == s <==> Unmatched(CodePass, s, 0) && Unmatched(BoldPass, s, 0) && Unmatched(ItalicPass, s, 0)
  {
    hide Unmatched, Pieces, HtmlOf;
    var code := Rewrite(CodePass, s);
    var bold := Rewrite(BoldPass, code);
    assert s[0..] == s;
    FormatGrows(CodePass, s, 0);
    FormatGrows(BoldPass, code, 0);
    FormatGrows(ItalicPass, bold, 0);
    if BeforeLinks(s) == s {
      assert |code| == |s| && code == s;
      assert bold == s;
    }
  }

  // ---------------------------------------------------------------- escaping survives the rewrites

  /** No marker occurs in an atom, so cutting at markers never splits one. */
  ghost predicate Unmarked(atoms: iset<string>) {
    forall c :: Marker(c) ==> Outside(atoms, c)
  }

  /** Neither a marker nor a quote. */
  predicate Inert(a: string) {
    forall k :: 0 <= k < |a| ==> !Marker(a[k]) && a[k] != '"'
  }

  lemma EntitiesInert(a: string)
    requires a in ENTITIES
    ensures Inert(a)
  {
  }

  lemma TagsInert(a: string)
    requires a in FORMAT_TAGS
    ensures Inert(a)
  {
  }

  lemma FormatAtomsUnmarked()
    ensures Unmarked(FORMAT_ATOMS) && Outside(FORMAT_ATOMS, '"')
  {
    hide ENTITIES, FORMAT_TAGS;
    forall c, a | (Marker(c) || c == '"') && a in FORMAT_ATOMS ensures c !in a {
      if a in ENTITIES {
        EntitiesInert(a);
      } else {
        TagsInert(a);
      }
    }
  }

  lemma RawShape(c: char)
    ensures Raw(c).Source() == [c] && Raw(c).Html() == [c]
  {
  }

  lemma PiecesStep(pass: Pass, s: string, i: nat)
    requires i < |s|
    ensures var p := PieceAt(pass, s, i);
            && i + |p.Source()| <= |s|
            && Pieces(pass, s, i) == [p] + Pieces(pass, s, i + |p.Source()|)
            && HtmlOf(Pieces(pass, s, i)) == p.Html() + HtmlOf(Pieces(pass, s, i + |p.Source()|))
  {
    hide PieceAt, Marker, Piece.Source, Piece.Html;
    var p := PieceAt(pass, s, i);
    HtmlStep(p, Pieces(pass, s, i + |p.Source()|));
  }

  lemma HtmlStep(p: Piece, rest: seq<Piece>)
    ensures HtmlOf([p] + rest) == p.Html() + HtmlOf(rest)
  {
    assert ([p] + rest)[1..] == rest;
  }

  lemma RawStep(pass: Pass, s: string, i: nat)
    requires i < |s| && !Marker(s[i])
    ensures Pieces(pass, s, i) == [Raw(s[i])] + Pieces(pass, s, i + 1)
    ensures HtmlOf(Pieces(pass, s, i)) == [s[i]] + HtmlOf(Pieces(pass, s, i + 1))
  {
    hide PieceAt, At, Marker, Pieces, HtmlOf, Piece.Source, Piece.Html;
    RawShape(s[i]);
    PiecesStep(pass, s, i);
  }

  /** Positions without a marker are copied, one raw piece each. */
  lemma {:induction false} CopyThrough(pass: Pass, s: string, i: nat, n: nat)
    requires i + n <= |s| && forall k :: i <= k < i + n ==> !Marker(s[k])
    ensures HtmlOf(Pieces(pass, s, i)) == s[i..i + n] + HtmlOf(Pieces(pass, s, i + n))
    decreases n
  {
    hide Pieces, HtmlOf, Marker;
    if n > 0 {
      RawStep(pass, s, i);
      CopyThrough(pass, s, i + 1, n - 1);
      assert s[i..i + n] == [s[i]] + s[i + 1..i + n];
    }
  }

  /** The text between two markers, and the text behind the second, are clean if the whole is. */
  lemma CutAt(atoms: iset<string>, s: string, low: nat, high: nat)
    requires low <= high < |s| && Clean(atoms, s[low..]) && Unmarked(atoms) && Marker(s[high])
    ensures Clean(atoms, s[low..high]) && Clean(atoms, s[high + 1..])
  {
    hide Clean, Outside, Marker;
    var t := s[low..];
    CleanCut(atoms, t, high - low);
    assert t[..high - low] == s[low..high] && t[high - low + 1..] == s[high + 1..];
  }

  /** Cutting one or two markers off the front. */
  lemma CutFront(atoms: iset<string>, s: string, i: nat, marks: string)
    requires At(s, i, marks) && Clean(atoms, s[i..]) && Unmarked(atoms)
    requires 1 <= |marks| <= 2 && forall k :: 0 <= k < |marks| ==> Marker(marks[k])
    ensures i + |marks| <= |s| && Clean(atoms, s[i + |marks|..])
  {
    hide Clean, Marker, Unmarked, At;
    AtIndex(s, i, marks, 0);
    CutAt(atoms, s, i, i);
    if |marks| == 2 {
      AtIndex(s, i, marks, 1);
      CutAt(atoms, s, i + 1, i + 1);
    }
  }

  /** Cutting a text off that a marker follows. */
  lemma CutText(atoms: iset<string>, s: string, i: nat, text: string, marks: string)
    requires At(s, i, text) && At(s, i + |text|, marks) && Clean(atoms, s[i..]) && Unmarked(atoms)
    requires 1 <= |marks| <= 2 && forall k :: 0 <= k < |marks| ==> Marker(marks[k])
    ensures Clean(atoms, text)
    ensures i + |text| + |marks| <= |s| && Clean(atoms, s[i + |text| + |marks|..])
  {
    hide Clean, Marker, Unmarked, At;
    var j := i + |text|;
    AtIsSlice(s, i, text);
    AtIndex(s, j, marks, 0);
    CutAt(atoms, s, i, j);
    if |marks| == 2 {
      AtIndex(s, j, marks, 1);
      CutAt(atoms, s, j + 1, j + 1);
    }
  }

  lemma WrapClean(atoms: iset<string>, open: string, text: string, close: string)
    requires open in atoms && close in atoms && Clean(atoms, text)
    ensures Clean(atoms, open + text + close)
  {
    hide Clean;
    CleanAtom(atoms, open);
    CleanAtom(atoms, close);
    CleanConcat(atoms, open, text);
    CleanConcat(atoms, open + text, close);
  }

  /** What a rewrite of text made of `atoms` may write. */
  ghost predicate HasTags(pass: Pass, atoms: iset<string>, out: iset<string>) {
    match pass
    case CodePass => "<code>" in out && "</code>" in out
    case BoldPass => "<strong>" in out && "</strong>" in out
    case ItalicPass => "<em>" in out && "</em>" in out
    case LinkPass => atoms == FORMAT_ATOMS && forall a :: IsLink(a) ==> a in out
  }

  lemma WrappedMatch(atoms: iset<string>, s: string, i: nat, open: string, text: string, close: string)
    requires At(s, i, open + text + close) && Clean(atoms, s[i..]) && Unmarked(atoms)
    requires 1 <= |open| <= 2 && forall k :: 0 <= k < |open| ==> Marker(open[k])
    requires 1 <= |close| <= 2 && forall k :: 0 <= k < |close| ==> Marker(close[k])
    ensures Clean(atoms, text)
    ensures i + |open + text + close| <= |s| && Clean(atoms, s[i + |open + text + close|..])
  {
    hide Clean, Marker, Unmarked, At;
    AtWrapped(s, i, open, text, close);
    CutFront(atoms, s, i, open);
    CutText(atoms, s, i + |open|, text, close);
  }

  lemma LinkMatch(atoms: iset<string>, s: string, i: nat, caption: string, href: string)
    requires At(s, i, "[" + caption + "](" + href + ")") && Clean(atoms, s[i..]) && Unmarked(atoms)
    ensures Clean(atoms, caption) && Clean(atoms, href)
    ensures i + |"[" + caption + "](" + href + ")"| <= |s|
    ensures Clean(atoms, s[i + |"[" + caption + "](" + href + ")"|..])
  {
    hide Clean, Unmarked, At;
    AtLink(s, i, caption, href);
    CutFront(atoms, s, i, "[");
    CutText(atoms, s, i + 1, caption, "](");
    CutText(atoms, s, i + 3 + |caption|, href, ")");
  }

  /** A match in clean text leaves clean text behind it. */
  lemma MatchCut(atoms: iset<string>, pass: Pass, s: string, i: nat, p: Piece)
    requires Fits(pass, s, i, p) && i < |s| && Clean(atoms, s[i..]) && Unmarked(atoms)
    ensures i + |p.Source()| <= |s| && Clean(atoms, s[i + |p.Source()|..])
    ensures if p.Link? then Clean(atoms, p.caption) && Clean(atoms, p.href) else !p.Raw? && Clean(atoms, p.text)
  {
    hide Clean, Unmarked, At;
    match p
    case Code(t) => WrappedMatch(atoms, s, i, "`", t, "`");
    case Bold(t) => WrappedMatch(atoms, s, i, "**", t, "**");
    case Italic(t) => WrappedMatch(atoms, s, i, "*", t, "*");
    case Link(caption, href) => LinkMatch(atoms, s, i, caption, href);
  }

  /** Clean parts turn into clean markup. */
  lemma MarkupClean(atoms: iset<string>, out: iset<string>, pass: Pass, s: string, i: nat, p: Piece)
    requires Fits(pass, s, i, p) && HasTags(pass, atoms, out) && atoms <= out
    requires if p.Link? then Clean(atoms, p.caption) && Clean(atoms, p.href) else !p.Raw? && Clean(atoms, p.text)
    ensures Clean(out, p.Html())
  {
    hide Clean, At, IsLink, FORMAT_ATOMS, SafeTarget;
    if p.Link? {
      CleanMore(atoms, out, p.caption);
      LinkClean(out, p.caption, p.href);
    } else {
      CleanMore(atoms, out, p.text);
      match p
      case Code(t) => WrapClean(out, "<code>", t, "</code>");
      case Bold(t) => WrapClean(out, "<strong>", t, "</strong>");
      case Italic(t) => WrapClean(out, "<em>", t, "</em>");
    }
  }

  lemma LinkClean(out: iset<string>, caption: string, href: string)
    requires Clean(FORMAT_ATOMS, caption) && Clean(FORMAT_ATOMS, href) && Clean(out, caption)
    requires forall a :: IsLink(a) ==> a in out
    ensures Clean(out, Link(caption, href).Html())
  {
    hide Clean, FORMAT_ATOMS;
    var html := Link(caption, href).Html();
    if SafeTarget(href) {
      FormatAtomsUnmarked();
      NoQuote(FORMAT_ATOMS, href);
      assert LinkMarkup(html, caption, href);
      CleanAtom(out, html);
    }
  }

  /** An atom stands at `i`, and no marker is in it. */
  ghost predicate Solid(atoms: iset<string>, s: string, i: nat, n: nat) {
    i + n <= |s| && s[i..i + n] in atoms && forall k :: i <= k < i + n ==> !Marker(s[k])
  }

  /** A clean text starts with a plain character, or with an atom, which holds no marker. */
  lemma CleanFront(atoms: iset<string>, s: string, i: nat) returns (n: nat)
    requires i < |s| && Clean(atoms, s[i..]) && Unmarked(atoms)
    ensures 1 <= n <= |s| - i && Clean(atoms, s[i + n..])
    ensures Solid(atoms, s, i, n) || (n == 1 && Plain(s[i]))
  {
    hide Marker, Plain;
    var t := s[i..];
    if Plain(t[0]) && Clean(atoms, t[1..]) {
      n := 1;
      assert t[1..] == s[i + 1..];
    } else {
      var a :| AtomFront(atoms, a, t) && Clean(atoms, t[|a|..]);
      n := |a|;
      assert t[|a|..] == s[i + |a|..] && s[i..i + n] == a;
      forall k | i <= k < i + n ensures !Marker(s[k]) {
        assert s[k] == a[k - i] && a[k - i] in a;
      }
    }
  }

  lemma RewriteMatch(atoms: iset<string>, out: iset<string>, pass: Pass, s: string, i: nat)
    requires i < |s| && MatchAt(pass, s, i).Some? && Clean(atoms, s[i..]) && Unmarked(atoms)
    requires HasTags(pass, atoms, out) && atoms <= out
    ensures var p := PieceAt(pass, s, i);
            && i + |p.Source()| <= |s| && Clean(atoms, s[i + |p.Source()|..])
            && Clean(out, p.Html())
            && HtmlOf(Pieces(pass, s, i)) == p.Html() + HtmlOf(Pieces(pass, s, i + |p.Source()|))
  {
    hide Clean, Unmarked, MatchAt, Fits, At, HasTags, Pieces, HtmlOf, Piece.Source, Piece.Html;
    var p := PieceAt(pass, s, i);
    FitsAt(pass, s, i);
    MatchCut(atoms, pass, s, i, p);
    MarkupClean(atoms, out, pass, s, i, p);
    PiecesStep(pass, s, i);
  }

  lemma CleanPlain(atoms: iset<string>, c: char)
    requires Plain(c)
    ensures Clean(atoms, [c])
  {
    assert [c][1..] == "";
  }

  lemma RawFront(pass: Pass, s: string, i: nat)
    requires i < |s| && MatchAt(pass, s, i).None?
    ensures Pieces(pass, s, i) == [Raw(s[i])] + Pieces(pass, s, i + 1)
    ensures HtmlOf(Pieces(pass, s, i)) == [s[i]] + HtmlOf(Pieces(pass, s, i + 1))
  {
    hide MatchAt, At, Marker, Pieces, HtmlOf, Piece.Source, Piece.Html;
    assert PieceAt(pass, s, i) == Raw(s[i]);
    RawShape(s[i]);
    PiecesStep(pass, s, i);
  }

  lemma SolidMore(atoms: iset<string>, more: iset<string>, s: string, i: nat, n: nat)
    requires Solid(atoms, s, i, n) && atoms <= more
    ensures Solid(more, s, i, n)
  {
  }

  lemma NoPieces(pass: Pass, s: string)
    ensures Pieces(pass, s, |s|) == [] && HtmlOf(Pieces(pass, s, |s|)) == ""
  {
  }

  lemma CleanEmpty(atoms: iset<string>)
    ensures Clean(atoms, "")
  {
  }

  lemma RewriteAtom(out: iset<string>, pass: Pass, s: string, i: nat, n: nat)
    requires Solid(out, s, i, n) && Clean(out, HtmlOf(Pieces(pass, s, i + n)))
    ensures Clean(out, HtmlOf(Pieces(pass, s, i)))
  {
    hide Clean, Marker, HtmlOf, Pieces;
    CopyThrough(pass, s, i, n);
    CleanAtom(out, s[i..i + n]);
    CleanConcat(out, s[i..i + n], HtmlOf(Pieces(pass, s, i + n)));
  }

  lemma RewriteRaw(out: iset<string>, pass: Pass, s: string, i: nat)
    requires i < |s| && Plain(s[i]) && MatchAt(pass, s, i).None? && Clean(out, HtmlOf(Pieces(pass, s, i + 1)))
    ensures Clean(out, HtmlOf(Pieces(pass, s, i)))
  {
    hide Clean, MatchAt, HtmlOf, Pieces;
    RawFront(pass, s, i);
    CleanPlain(out, s[i]);
    CleanConcat(out, [s[i]], HtmlOf(Pieces(pass, s, i + 1)));
  }

  /** A rewrite never splits a tag or an entity that is already there. */
  lemma {:induction false} RewriteClean(atoms: iset<string>, out: iset<string>, pass: Pass, s: string, i: nat)
    requires i <= |s| && Clean(atoms, s[i..]) && Unmarked(atoms) && HasTags(pass, atoms, out) && atoms <= out
    ensures Clean(out, HtmlOf(Pieces(pass, s, i)))
    decreases |s| - i
  {
    hide *;
    if i == |s| {
      NoPieces(pass, s);
      CleanEmpty(out);
    } else {
      if MatchAt(pass, s, i).Some? {
        var p := PieceAt(pass, s, i);
        RewriteMatch(atoms, out, pass, s, i);
        RewriteClean(atoms, out, pass, s, i + |p.Source()|);
        CleanConcat(out, p.Html(), HtmlOf(Pieces(pass, s, i + |p.Source()|)));
      } else {
        var n := CleanFront(atoms, s, i);
        RewriteClean(atoms, out, pass, s, i + n);
        if Solid(atoms, s, i, n) {
          SolidMore(atoms, out, s, i, n);
          RewriteAtom(out, pass, s, i, n);
        } else {
          RewriteRaw(out, pass, s, i);
        }
      }
    }
  }

  lemma BeforeLinksClean(s: string)
    requires Clean(ENTITIES, s)
    ensures Clean(FORMAT_ATOMS, BeforeLinks(s))
  {
    hide Clean, HtmlOf, Pieces, Unmarked, IsLink;
    FormatAtomsUnmarked();
    CleanMore(ENTITIES, FORMAT_ATOMS, s);
    var code := Rewrite(CodePass, s);
    var bold := Rewrite(BoldPass, code);
    assert s[0..] == s && code[0..] == code && bold[0..] == bold;
    RewriteClean(FORMAT_ATOMS, FORMAT_ATOMS, CodePass, s, 0);
    RewriteClean(FORMAT_ATOMS, FORMAT_ATOMS, BoldPass, code, 0);
    RewriteClean(FORMAT_ATOMS, FORMAT_ATOMS, ItalicPass, bold, 0);
  }

  /** The inline formatting of any escaped text is made of plain characters, the five entities, the
      format tags and whole links: every `<` and every quote in it comes from one of those. */
  lemma InlineClean(s: string)
    requires Clean(ENTITIES, s)
    ensures Clean(INLINE_ATOMS, InlineHtml(s))
  {
    hide Clean, HtmlOf, Pieces, Unmarked, BeforeLinks, IsLink;
    FormatAtomsUnmarked();
    BeforeLinksClean(s);
    var before := BeforeLinks(s);
    assert before[0..] == before;
    RewriteClean(FORMAT_ATOMS, INLINE_ATOMS, LinkPass, before, 0);
  }

  lemma NoQuote(atoms: iset<string>, s: string)
    requires Clean(atoms, s) && Outside(atoms, '"')
    ensures '"' !in s
  {
    hide Clean, Outside;
    CleanLacks(atoms, s, '"');
  }

  /** A link is shown as one exactly when its target has an allowed scheme. */
  lemma LinkShown(p: Piece)
    requires p.Link?
    ensures SafeTarget(p.href) <==> p.Html() != p.caption
  {
    if SafeTarget(p.href) {
      assert |p.Html()| > |p.caption|;
    }
  }

  lemma MatchedPiece(pass: Pass, s: string, i: nat)
    requires i < |s| && MatchAt(pass, s, i).Some?
    ensures Fits(pass, s, i, PieceAt(pass, s, i))
  {
    hide MatchAt, Fits, At, Marker, Piece.Source;
    FitsAt(pass, s, i);
  }

  lemma SolidUnmarked(atoms: iset<string>, s: string, i: nat, n: nat)
    requires Solid(atoms, s, i, n)
    ensures i + n <= |s| && forall k :: i <= k < i + n ==> !Marker(s[k])
  {
  }

  lemma {:induction false} LinksInCleanText(atoms: iset<string>, s: string, i: nat, p: Piece)
    requires i <= |s| && Clean(atoms, s[i..]) && Unmarked(atoms) && Outside(atoms, '"')
    requires p in Pieces(LinkPass, s, i) && p.Link?
    ensures '"' !in p.href && (SafeTarget(p.href) <==> p.Html() != p.caption)
    decreases |s| - i
  {
    hide *;
    LinkShown(p);
    if i == |s| {
      NoPieces(LinkPass, s);
    }
    PiecesStep(LinkPass, s, i);
    var q := PieceAt(LinkPass, s, i);
    if MatchAt(LinkPass, s, i).Some? {
      MatchedPiece(LinkPass, s, i);
      MatchCut(atoms, LinkPass, s, i, q);
      if p == q {
        NoQuote(atoms, p.href);
      } else {
        LinksInCleanText(atoms, s, i + |q.Source()|, p);
      }
    } else {
      var n := CleanFront(atoms, s, i);
      if Solid(atoms, s, i, n) {
        SolidUnmarked(atoms, s, i, n);
        RawThrough(s, i, n, p);
        LinksInCleanText(atoms, s, i + n, p);
      } else {
        RawFront(LinkPass, s, i);
        LinksInCleanText(atoms, s, i + 1, p);
      }
    }
  }

  lemma {:induction false} RawThrough(s: string, i: nat, n: nat, p: Piece)
    requires i + n <= |s| && forall j :: i <= j < i + n ==> !Marker(s[j])
    requires p in Pieces(LinkPass, s, i) && p.Link?
    ensures p in Pieces(LinkPass, s, i + n)
    decreases n
  {
    hide Pieces, HtmlOf, Marker;
    if n > 0 {
      RawStep(LinkPass, s, i);
      RawThrough(s, i + 1, n - 1, p);
    }
  }

  /** Whatever text is escaped and formatted, every link the link pass finds has a target without
      quotes; it is written as a link exactly when the target has an allowed scheme, and as its bare
      caption otherwise. */
  lemma LinkTargetsSafe(text: string, p: Piece)
    requires p in Pieces(LinkPass, BeforeLinks(Escape(text)), 0) && p.Link?
    ensures '"' !in p.href && (SafeTarget(p.href) <==> p.Html() != p.caption)
  {
    hide *;
    var before := BeforeLinks(Escape(text));
    EscapeClean(text);
    BeforeLinksClean(Escape(text));
    FormatAtomsUnmarked();
    assert before[0..] == before;
    LinksInCleanText(FORMAT_ATOMS, before, 0, p);
  }

  // ---------------------------------------------------------------- tags and anchors in the output

  predicate AnchorAt(s: string, i: nat, href: string) {
    SafeTarget(href) && '"' !in href && At(s, i, "<a href=\"" + href + "\">")
  }

  /** A tag that starts no anchor, or an entity: there is no angle bracket behind its first character. */
  predicate Bare(a: string) {
    |a| >= 2 && (a[0] == '<' ==> a[1] != 'a') && forall k :: 0 < k < |a| ==> a[k] != '<'
  }

  lemma BareConcat(a: string, b: string)
    requires Bare(a) && forall k :: 0 <= k < |b| ==> b[k] != '<'
    ensures Bare(a + b)
  {
  }

  lemma FormatTagsBare()
    ensures (forall a :: a in ENTITIES ==> Bare(a) && a[0] == '&') && forall a :: a in FORMAT_TAGS ==> Bare(a)
  {
  }

  /** One of `tags`, or an anchor whose target is an allowed one without a quote, starts at `i`. */
  ghost predicate StartsTag(tags: iset<string>, s: string, i: nat) {
    (exists t :: t in tags && At(s, i, t)) || exists href :: AnchorAt(s, i, href)
  }

  /** Every `<` starts a tag. */
  ghost predicate Tagged(tags: iset<string>, s: string) {
    forall i :: 0 <= i < |s| && s[i] == '<' ==> StartsTag(tags, s, i)
  }

  lemma AtInside(front: string, s: string, rest: string, i: nat, text: string)
    requires At(s, i, text)
    ensures At(front + s + rest, |front| + i, text)
  {
    assert (front + s + rest)[|front| + i..|front| + i + |text|] == s[i..i + |text|];
  }

  lemma StartsInside(tags: iset<string>, front: string, s: string, rest: string, i: nat)
    requires StartsTag(tags, s, i)
    ensures StartsTag(tags, front + s + rest, |front| + i)
  {
    hide At, SafeTarget;
    if t :| t in tags && At(s, i, t) {
      AtInside(front, s, rest, i, t);
    } else {
      var href :| AnchorAt(s, i, href);
      AtInside(front, s, rest, i, "<a href=\"" + href + "\">");
      assert AnchorAt(front + s + rest, |front| + i, href);
    }
  }

  lemma TaggedConcat(tags: iset<string>, a: string, b: string)
    requires Tagged(tags, a) && Tagged(tags, b)
    ensures Tagged(tags, a + b)
  {
    hide StartsTag;
    assert "" + a + b == a + b && a + b + "" == a + b;
    forall i | 0 <= i < |a + b| && (a + b)[i] == '<' ensures StartsTag(tags, a + b, i) {
      if i < |a| {
        StartsInside(tags, "", a, b, i);
      } else {
        StartsInside(tags, a, b, "", i - |a|);
      }
    }
  }

  lemma {:induction false} CleanTagged(tags: iset<string>, atoms: iset<string>, s: string)
    requires Clean(atoms, s) && forall a :: a in atoms ==> Tagged(tags, a)
    ensures Tagged(tags, s)
    decreases |s|
  {
    hide Tagged;
    if s == "" {
      PlainTagged(tags, s);
    } else if Plain(s[0]) && Clean(atoms, s[1..]) {
      CleanTagged(tags, atoms, s[1..]);
      PlainTagged(tags, [s[0]]);
      TaggedConcat(tags, [s[0]], s[1..]);
      assert s == [s[0]] + s[1..];
    } else {
      var a :| AtomFront(atoms, a, s) && Clean(atoms, s[|a|..]);
      CleanTagged(tags, atoms, s[|a|..]);
      TaggedConcat(tags, a, s[|a|..]);
      assert s == a + s[|a|..];
    }
  }

  lemma PlainTagged(tags: iset<string>, s: string)
    requires '<' !in s
    ensures Tagged(tags, s)
  {
  }

  lemma BareTagged(tags: iset<string>, a: string)
    requires Bare(a) && (a[0] == '<' ==> a in tags)
    ensures Tagged(tags, a)
  {
    assert At(a, 0, a);
  }

  lemma FormatTagged(tags: iset<string>, s: string)
    requires Clean(FORMAT_ATOMS, s) && FORMAT_TAGS <= tags
    ensures Tagged(tags, s)
  {
    hide ENTITIES, FORMAT_TAGS, Clean, Tagged, Bare;
    FormatTagsBare();
    forall a | a in FORMAT_ATOMS ensures Tagged(tags, a) {
      BareTagged(tags, a);
    }
    CleanTagged(tags, FORMAT_ATOMS, s);
  }

  /** In a whole link every `<` starts its own anchor, its end tag, or a format tag. */
  lemma LinkTagged(tags: iset<string>, a: string)
    requires IsLink(a) && FORMAT_TAGS <= tags && "</a>" in tags
    ensures Tagged(tags, a)
  {
    hide FORMAT_TAGS, FORMAT_ATOMS, Clean, SafeTarget;
    var caption, href :| LinkMarkup(a, caption, href);
    LinkTail(tags, caption, href);
    var open, tail := "<a href=\"", href + "\">" + caption + "</a>";
    LinkParts(a, caption, href);
    assert AnchorAt(a, 0, href);
    forall i | 0 <= i < |a| && a[i] == '<' ensures StartsTag(tags, a, i) {
      if i >= |open| {
        StartsInside(tags, open, tail, "", i - |open|);
      }
    }
  }

  lemma LinkTail(tags: iset<string>, caption: string, href: string)
    requires Clean(FORMAT_ATOMS, caption) && Clean(FORMAT_ATOMS, href) && FORMAT_TAGS <= tags && "</a>" in tags
    ensures Tagged(tags, href + "\">" + caption + "</a>")
  {
    hide FORMAT_TAGS, FORMAT_ATOMS, Clean, Tagged;
    FormatTagged(tags, href);
    FormatTagged(tags, caption);
    PlainTagged(tags, "\">");
    BareTagged(tags, "</a>");
    TaggedConcat(tags, href, "\">");
    TaggedConcat(tags, href + "\">", caption);
    TaggedConcat(tags, href + "\">" + caption, "</a>");
  }

  lemma LinkParts(a: string, caption: string, href: string)
    requires SafeTarget(href) && a == Link(caption, href).Html()
    ensures a == "<a href=\"" + (href + "\">" + caption + "</a>") + ""
    ensures At(a, 0, "<a href=\"" + href + "\">")
  {
    hide SafeTarget;
    assert a == "<a href=\"" + href + "\">" + caption + "</a>";
  }
}
