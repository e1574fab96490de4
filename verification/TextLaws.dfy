/** What the string operations mean, stated without them: each is the only result that fits a pattern. */
module TextLaws {
  import opened Text

  // ---------------------------------------------------------------- trimming

  /** The white space of Python's `str.strip`, character by character. */
  const WHITE_SPACE :=
    "\t\n\U{0B}\U{0C}\r\U{1C}\U{1D}\U{1E}\U{1F} \U{85}\U{A0}\U{1680}"
    + "\U{2000}\U{2001}\U{2002}\U{2003}\U{2004}\U{2005}\U{2006}\U{2007}\U{2008}\U{2009}\U{200A}"
    + "\U{2028}\U{2029}\U{202F}\U{205F}\U{3000}"

  lemma SpaceExact(c: char)
    ensures IsSpace(c) <==> c in WHITE_SPACE
  {
  }

  predicate AllSpace(s: string) {
    forall i :: 0 <= i < |s| ==> IsSpace(s[i])
  }

  predicate Padded(s: string, left: string, core: string, right: string) {
    AllSpace(left) && AllSpace(right) && s == left + core + right
  }

  /** `core` is what is left of `s` without the white space at its ends. */
  ghost predicate Trims(s: string, core: string) {
    && (core != "" ==> !IsSpace(core[0]) && !IsSpace(core[|core| - 1]))
    && exists left, right :: Padded(s, left, core, right)
  }

  lemma StripExact(s: string, core: string)
    ensures Strip(s) == core <==> Trims(s, core)
  {
    hide IsSpace, Strip, Padded;
    StripTrims(s);
    if Trims(s, core) {
      var left, right :| Padded(s, left, core, right);
      StripPadded(s, left, core, right);
    }
  }

  lemma StripPadded(s: string, left: string, core: string, right: string)
    requires Padded(s, left, core, right) && (core != "" ==> !IsSpace(core[0]) && !IsSpace(core[|core| - 1]))
    ensures Strip(s) == core
  {
    hide IsSpace, StripLeft, StripRight;
    if core == "" {
      assert AllSpace(s);
      StripBlank(s);
    } else {
      StripLeftPadded(left, core + right);
      StripRightPadded(core, right);
      assert s == left + (core + right);
    }
  }

  lemma StripTrims(s: string)
    ensures Trims(s, Strip(s))
  {
    hide IsSpace, StripLeft, StripRight;
    var t := StripLeft(s);
    var r := StripRight(t);
    assert Padded(s, s[..|s| - |t|], r, t[|r|..]);
  }

  lemma StripBlank(s: string)
    requires AllSpace(s)
    ensures StripLeft(s) == "" && Strip(s) == ""
  {
    hide IsSpace, StripLeft;
    var t := StripLeft(s);
    Suffix(s, |s| - |t|);
  }

  lemma Suffix(s: string, n: nat)
    requires n <= |s|
    ensures forall k :: 0 <= k < |s| - n ==> s[n..][k] == s[n + k]
  {
  }

  lemma StripLeftPadded(left: string, rest: string)
    requires AllSpace(left) && rest != "" && !IsSpace(rest[0])
    ensures StripLeft(left + rest) == rest
  {
    hide IsSpace, StripLeft;
    var s := left + rest;
    assert s[|left|] == rest[0] && forall k :: 0 <= k < |left| ==> s[k] == left[k];
    assert |s| - |StripLeft(s)| == |left|;
  }

  lemma StripRightPadded(core: string, right: string)
    requires AllSpace(right) && core != "" && !IsSpace(core[|core| - 1])
    ensures StripRight(core + right) == core
  {
    hide IsSpace, StripRight;
    var s := core + right;
    assert s[|core| - 1] == core[|core| - 1] && forall k :: |core| <= k < |s| ==> s[k] == right[k - |core|];
    assert |StripRight(s)| == |core|;
  }

  predicate AllOf(s: string, c: char) {
    forall i :: 0 <= i < |s| ==> s[i] == c
  }

  predicate Fenced(s: string, left: string, core: string, right: string, c: char) {
    AllOf(left, c) && AllOf(right, c) && s == left + core + right
  }

  /** The same for one character in place of white space. */
  ghost predicate TrimsOff(s: string, core: string, c: char) {
    && (core != "" ==> core[0] != c && core[|core| - 1] != c)
    && exists left, right :: Fenced(s, left, core, right, c)
  }

  lemma {:induction false} TrimLeftCuts(s: string, c: char)
    ensures TrimLeft(s, c) == s[|s| - |TrimLeft(s, c)|..]
    ensures forall k :: 0 <= k < |s| - |TrimLeft(s, c)| ==> s[k] == c
    ensures TrimLeft(s, c) != "" ==> TrimLeft(s, c)[0] != c
  {
    if s != "" && s[0] == c {
      TrimLeftCuts(s[1..], c);
    }
  }

  lemma {:induction false} TrimRightCuts(s: string, c: char)
    ensures TrimRight(s, c) == s[..|TrimRight(s, c)|]
    ensures forall k :: |TrimRight(s, c)| <= k < |s| ==> s[k] == c
    ensures TrimRight(s, c) != "" ==> TrimRight(s, c)[|TrimRight(s, c)| - 1] != c
  {
    if s != "" && s[|s| - 1] == c {
      TrimRightCuts(s[..|s| - 1], c);
    }
  }

  lemma TrimLeftExact(left: string, rest: string, c: char)
    requires AllOf(left, c) && (rest != "" ==> rest[0] != c)
    ensures TrimLeft(left + rest, c) == rest
  {
    hide TrimLeft;
    var s := left + rest;
    TrimLeftCuts(s, c);
    assert forall k :: 0 <= k < |s| ==> s[k] == if k < |left| then left[k] else rest[k - |left|];
    assert rest != "" ==> s[|left|] == rest[0];
    assert |s| - |TrimLeft(s, c)| == |left|;
  }

  lemma TrimRightExact(core: string, right: string, c: char)
    requires AllOf(right, c) && (core != "" ==> core[|core| - 1] != c)
    ensures TrimRight(core + right, c) == core
  {
    hide TrimRight;
    var s := core + right;
    TrimRightCuts(s, c);
    assert forall k :: 0 <= k < |s| ==> s[k] == if k < |core| then core[k] else right[k - |core|];
    assert core != "" ==> s[|core| - 1] == core[|core| - 1];
    assert |TrimRight(s, c)| == |core|;
  }

  lemma TrimExact(s: string, core: string, c: char)
    ensures TrimRight(TrimLeft(s, c), c) == core <==> TrimsOff(s, core, c)
  {
    hide TrimLeft, TrimRight;
    var t := TrimLeft(s, c);
    var r := TrimRight(t, c);
    TrimLeftCuts(s, c);
    TrimRightCuts(t, c);
    assert Fenced(s, s[..|s| - |t|], r, t[|r|..], c);
    if TrimsOff(s, core, c) {
      var left, right :| Fenced(s, left, core, right, c);
      if core == "" {
        assert AllOf(s, c);
        Suffix(s, |s| - |t|);
      } else {
        TrimLeftExact(left, core + right, c);
        TrimRightExact(core, right, c);
        assert s == left + (core + right);
      }
    }
  }

  // ---------------------------------------------------------------- splitting

  /** The parts are the only ones without the separator that it joins to the text. */
  lemma SplitExact(s: string, sep: char, parts: seq<string>)
    ensures Split(s, sep) == parts <==>
            parts != [] && Join(parts, [sep]) == s && forall k :: 0 <= k < |parts| ==> sep !in parts[k]
  {
    hide Split, Join;
    JoinSplit(s, sep);
    if parts != [] && Join(parts, [sep]) == s && forall k :: 0 <= k < |parts| ==> sep !in parts[k] {
      SplitJoin(parts, sep);
    }
  }

  lemma {:induction false} SplitJoin(parts: seq<string>, sep: char)
    requires parts != [] && forall k :: 0 <= k < |parts| ==> sep !in parts[k]
    ensures Split(Join(parts, [sep]), sep) == parts
  {
    hide Split, Join;
    if |parts| == 1 {
      assert parts == [parts[0]];
      WholeSplit(parts[0], sep);
    } else {
      var rest := Join(parts[1..], [sep]);
      SplitJoin(parts[1..], sep);
      JoinFront(parts[0], parts[1..], [sep]);
      assert parts == [parts[0]] + parts[1..];
      FrontSplit(parts[0], rest, sep);
    }
  }

  lemma WholeSplit(s: string, sep: char)
    requires sep !in s
    ensures Split(s, sep) == [s] && Join([s], [sep]) == s
  {
    hide IndexOf;
    assert IndexOf(s, sep) == |s|;
  }

  lemma FrontSplit(first: string, rest: string, sep: char)
    requires sep !in first
    ensures Split(first + [sep] + rest, sep) == [first] + Split(rest, sep)
  {
    hide Split, IndexOf;
    var s := first + [sep] + rest;
    var i := IndexOf(s, sep);
    assert s[|first|] == sep && forall k :: 0 <= k < |first| ==> s[k] == first[k];
    assert s[..i] == first && s[i + 1..] == rest;
    SplitFront(s, sep);
  }

  // ---------------------------------------------------------------- new lines

  predicate PairAt(s: string, i: nat) {
    i + 1 < |s| && s[i] == '\r' && s[i + 1] == '\n'
  }

  /** Only the pairs of `\r` and `\n` are replaced, each by one `\n`: up to the first pair nothing changes,
      and behind it the same holds again. */
  lemma {:induction false} UnixNewlinesExact(a: string, rest: string)
    requires forall i :: 0 <= i < |a| ==> !PairAt(a, i)
    ensures UnixNewlines(a) == a
    ensures UnixNewlines(a + "\r\n" + rest) == a + "\n" + UnixNewlines(rest)
  {
    var s := a + "\r\n" + rest;
    if a == "" {
      assert s[2..] == rest;
    } else {
      assert s[1..] == a[1..] + "\r\n" + rest;
      forall i | 0 <= i < |a[1..]| ensures !PairAt(a[1..], i) {
        assert !PairAt(a, i + 1);
      }
      UnixNewlinesExact(a[1..], rest);
      assert !PairAt(a, 0) && !PairAt(s, 0);
      assert a == [a[0]] + a[1..];
    }
  }

  /** Without a `\r` nothing changes. Up to the first one nothing changes, it becomes `\n`, together with
      a `\n` behind it, and behind that the same holds again. */
  lemma {:induction false} UniversalNewlinesExact(a: string, rest: string)
    requires '\r' !in a
    ensures UniversalNewlines(a) == a
    ensures UniversalNewlines(a + "\r\n" + rest) == a + "\n" + UniversalNewlines(rest)
    ensures rest == "" || rest[0] != '\n' ==> UniversalNewlines(a + "\r" + rest) == a + "\n" + UniversalNewlines(rest)
  {
    var s, t := a + "\r\n" + rest, a + "\r" + rest;
    if a == "" {
      assert s[2..] == rest && t[1..] == rest;
    } else {
      assert s[1..] == a[1..] + "\r\n" + rest && t[1..] == a[1..] + "\r" + rest;
      UniversalNewlinesExact(a[1..], rest);
      assert a == [a[0]] + a[1..];
    }
  }

  lemma {:induction false} NoReturnLeft(s: string)
    ensures '\r' !in UniversalNewlines(s)
    decreases |s|
  {
    if s == "" {
    } else if s[0] != '\r' {
      NoReturnLeft(s[1..]);
    } else if |s| >= 2 && s[1] == '\n' {
      NoReturnLeft(s[2..]);
    } else {
      NoReturnLeft(s[1..]);
    }
  }

  // ---------------------------------------------------------------- numbers and letters

  function Value(digits: string): nat
    requires forall i :: 0 <= i < |digits| ==> IsDigit(digits[i])
  {
    if digits == "" then 0
    else
      var last := digits[|digits| - 1];
      assert IsDigit(last);
      10 * Value(digits[..|digits| - 1]) + (last as int - '0' as int)
  }

  /** The decimal numeral has the value of the number and no leading zero. */
  lemma {:induction false} DecimalExact(n: nat)
    ensures Value(Decimal(n)) == n && (Decimal(n)[0] == '0' ==> n == 0)
  {
    var d := Decimal(n);
    if n >= 10 {
      DecimalExact(n / 10);
      assert d[..|d| - 1] == Decimal(n / 10);
    }
  }

  /** `t` has a small letter where `s` has that letter as a capital, and is `s` everywhere else. */
  predicate SmallLetters(s: string, t: string) {
    |s| == |t| && forall i :: 0 <= i < |s| ==> SmallLetter(s[i], t[i])
  }

  predicate SmallLetter(c: char, d: char) {
    if 'A' <= c <= 'Z' then d as int == c as int + 32 else d == c
  }

  lemma SmallLettersExact(s: string, t: string)
    ensures Lower(s) == t <==> SmallLetters(s, t)
  {
  }
}
