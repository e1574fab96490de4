/** Deterministic FAQ lookup: the three tiers of the assistant and the older match within a category. */
module FaqMatch {
  import opened Options
  import opened Text
  import opened TextLaws

  datatype Faq = Faq(question: string, matchPattern: Option<string>)

  datatype Kind = ExactSlug | KeywordSet | Regex

  // ---------------------------------------------------------------- slugs and words

  predicate IsSlugChar(c: char) {
    'a' <= c <= 'z' || '0' <= c <= '9'
  }

  function KeepSlugChars(s: string): (r: string)
    ensures forall i :: 0 <= i < |r| ==> IsSlugChar(r[i])
  {
    if s == "" then "" else (if IsSlugChar(s[0]) then [s[0]] else "") + KeepSlugChars(s[1..])
  }

  /** Lower case, letters and digits only. */
  function Slug(text: string): string {
    KeepSlugChars(Lower(text))
  }

  function WordLength(s: string): (n: nat)
    ensures n <= |s|
    ensures forall i :: 0 <= i < n ==> !IsSpace(s[i])
    ensures n < |s| ==> IsSpace(s[n])
  {
    if s == "" || IsSpace(s[0]) then 0 else 1 + WordLength(s[1..])
  }

  /** `set(s.split())`: the maximal runs without white space. */
  function Words(s: string): set<string>
    decreases |s|
  {
    if s == "" then {}
    else if IsSpace(s[0]) then Words(s[1..])
    else {s[..WordLength(s)]} + Words(s[WordLength(s)..])
  }

  function Overlap(faq: Faq, question: string): nat {
    |Words(Lower(faq.question)) * Words(Lower(question))|
  }

  /** `search(pattern, text)` is the regular-expression search, None for a pattern that does not compile. */
  predicate PatternHits(faq: Faq, question: string, search: (string, string) -> Option<bool>) {
    faq.matchPattern.Some? && faq.matchPattern.value != "" && search(faq.matchPattern.value, question) == Some(true)
  }

  /** A pattern hits exactly if there is one, it is not empty, and the search for it in the question finds
      something; one that does not compile never hits. */
  lemma PatternHitsExact(faq: Faq, question: string, search: (string, string) -> Option<bool>)
    ensures PatternHits(faq, question, search) <==>
            exists p :: faq.matchPattern == Some(p) && p != "" && search(p, question) == Some(true)
  {
  }

  // ---------------------------------------------------------------- what the right answer is

  predicate EarliestSlug(faqs: seq<Faq>, question: string, i: nat) {
    && i < |faqs| && Slug(faqs[i].question) == Slug(question)
    && forall j :: 0 <= j < i ==> Slug(faqs[j].question) != Slug(question)
  }

  /** The earliest of the FAQs with the largest overlap, which must be positive. */
  predicate EarliestBest(faqs: seq<Faq>, question: string, i: nat) {
    && i < |faqs| && Overlap(faqs[i], question) > 0
    && (forall j :: 0 <= j < |faqs| ==> Overlap(faqs[j], question) <= Overlap(faqs[i], question))
    && (forall j :: 0 <= j < i ==> Overlap(faqs[j], question) < Overlap(faqs[i], question))
  }

  predicate EarliestPattern(faqs: seq<Faq>, question: string, search: (string, string) -> Option<bool>, i: nat) {
    && i < |faqs| && PatternHits(faqs[i], question, search)
    && forall j :: 0 <= j < i ==> !PatternHits(faqs[j], question, search)
  }

  /** `_faq_match_tiered`: a tier is consulted only when the ones before it have nothing, and each names
      its own earliest or best FAQ; no answer means none of the three has one. */
  method FaqMatchTiered(faqs: seq<Faq>, question: string, search: (string, string) -> Option<bool>)
    returns (found: Option<(nat, Kind)>)
    ensures found.Some? && found.value.1 == ExactSlug ==> EarliestSlug(faqs, question, found.value.0)
    ensures found.Some? && found.value.1 == KeywordSet ==> EarliestBest(faqs, question, found.value.0)
    ensures found.Some? && found.value.1 == Regex ==> EarliestPattern(faqs, question, search, found.value.0)
    ensures found.Some? && found.value.1 == ExactSlug <==> exists i :: 0 <= i < |faqs| && Slug(faqs[i].question) == Slug(question)
    ensures found.Some? && found.value.1 != Regex <==>
              exists i :: 0 <= i < |faqs| && (Slug(faqs[i].question) == Slug(question) || Overlap(faqs[i], question) > 0)
    ensures found.Some? <==>
              exists i :: 0 <= i < |faqs|
                && (Slug(faqs[i].question) == Slug(question) || Overlap(faqs[i], question) > 0
                    || PatternHits(faqs[i], question, search))
  {
    hide Overlap, Slug;
    for k := 0 to |faqs|
      invariant forall j :: 0 <= j < k ==> Slug(faqs[j].question) != Slug(question)
    {
      if Slug(faqs[k].question) == Slug(question) {
        return Some((k, ExactSlug));
      }
    }
    var best: Option<nat> := None;
    var bestScore := 0;
    for k := 0 to |faqs|
      invariant best.None? ==> bestScore == 0
      invariant best.Some? ==> best.value < k && bestScore == Overlap(faqs[best.value], question) > 0
      invariant best.Some? ==> forall j :: 0 <= j < best.value ==> Overlap(faqs[j], question) < bestScore
      invariant forall j :: 0 <= j < k ==> Overlap(faqs[j], question) <= bestScore
    {
      var score := Overlap(faqs[k], question);
      if score > bestScore {
        bestScore := score;
        best := Some(k);
      }
    }
    if best.Some? && bestScore > 0 {
      return Some((best.value, KeywordSet));
    }
    for k := 0 to |faqs|
      invariant forall j :: 0 <= j < k ==> !PatternHits(faqs[j], question, search)
    {
      if faqs[k].matchPattern.Some? && faqs[k].matchPattern.value != "" {
        var hit := search(faqs[k].matchPattern.value, question);
        if hit.Some? && hit.value {
          return Some((k, Regex));
        }
      }
    }
    found := None;
  }

  /** The match inside the selected category, written separately for the first release. */
  method MatchInCategory(faqs: seq<Faq>, question: string) returns (best: Option<nat>)
    ensures best.Some? ==> EarliestBest(faqs, question, best.value)
    ensures best.None? <==> forall i :: 0 <= i < |faqs| ==> Overlap(faqs[i], question) == 0
  {
    hide Overlap;
    best := None;
    var bestScore := 0;
    for k := 0 to |faqs|
      invariant best.None? ==> bestScore == 0
      invariant best.Some? ==> best.value < k && bestScore == Overlap(faqs[best.value], question) > 0
      invariant best.Some? ==> forall j :: 0 <= j < best.value ==> Overlap(faqs[j], question) < bestScore
      invariant forall j :: 0 <= j < k ==> Overlap(faqs[j], question) <= bestScore
    {
      var score := Overlap(faqs[k], question);
      if score > bestScore {
        bestScore := score;
        best := Some(k);
      }
    }
  }

  /** There is only one right answer per tier, so two matchers that meet these conditions agree. */
  lemma RightAnswersAreUnique(faqs: seq<Faq>, question: string, search: (string, string) -> Option<bool>, i: nat, j: nat)
    ensures EarliestSlug(faqs, question, i) && EarliestSlug(faqs, question, j) ==> i == j
    ensures EarliestBest(faqs, question, i) && EarliestBest(faqs, question, j) ==> i == j
    ensures EarliestPattern(faqs, question, search, i) && EarliestPattern(faqs, question, search, j) ==> i == j
  {
    hide Slug, Overlap, PatternHits;
  }

  // ---------------------------------------------------------------- what slugs and words mean

  lemma {:induction false} KeepKept(s: string)
    requires forall i :: 0 <= i < |s| ==> IsSlugChar(s[i])
    ensures KeepSlugChars(s) == s
  {
    if s != "" {
      KeepKept(s[1..]);
    }
  }

  lemma LowerSlug(s: string)
    requires forall i :: 0 <= i < |s| ==> IsSlugChar(s[i])
    ensures Lower(s) == s
  {
  }

  /** A letter or a digit of ASCII. */
  predicate Counts(c: char) {
    'a' <= c <= 'z' || 'A' <= c <= 'Z' || '0' <= c <= '9'
  }

  /** How many of the first `n` characters count. */
  function Rank(s: string, n: nat): nat
    requires n <= |s|
  {
    if n == 0 then 0 else Rank(s, n - 1) + if Counts(s[n - 1]) then 1 else 0
  }

  /** The letters and digits of the text in order, the letters small, and nothing else. */
  ghost predicate IsSlug(text: string, slug: string) {
    && |slug| == Rank(text, |text|)
    && forall i :: 0 <= i < |text| && Counts(text[i]) ==> Rank(text, i) < |slug| && SmallLetter(text[i], slug[Rank(text, i)])
  }

  /** Every number below the last rank is the rank of a character that counts. */
  lemma {:induction false} RankOf(s: string, n: nat, r: nat) returns (i: nat)
    requires n <= |s| && r < Rank(s, n)
    ensures i < n && Counts(s[i]) && Rank(s, i) == r
    decreases n
  {
    if r == Rank(s, n - 1) {
      i := n - 1;
    } else {
      i := RankOf(s, n - 1, r);
    }
  }

  lemma {:induction false} RankPrefix(s: string, c: char, n: nat)
    requires n <= |s|
    ensures Rank(s + [c], n) == Rank(s, n)
    decreases n
  {
    if n > 0 {
      RankPrefix(s, c, n - 1);
    }
  }

  lemma SlugAppend(s: string, c: char)
    ensures Slug(s + [c]) == Slug(s) + if Counts(c) then [LowerChar(c)] else ""
  {
    hide Lower, KeepSlugChars, LowerChar;
    LowerConcat(s, [c]);
    LowerOne(c);
    KeepConcat(Lower(s), [LowerChar(c)]);
    KeepOne(c);
  }

  lemma KeepOne(c: char)
    ensures KeepSlugChars([LowerChar(c)]) == if Counts(c) then [LowerChar(c)] else ""
  {
    assert [LowerChar(c)][1..] == [];
  }

  lemma {:induction false} SlugFits(text: string)
    ensures IsSlug(text, Slug(text))
    decreases |text|
  {
    hide Slug;
    if text == "" {
      NoSlug();
    } else {
      var n := |text| - 1;
      var before, c := text[..n], text[n];
      assert text == before + [c];
      SlugFits(before);
      SlugAppend(before, c);
      RankPrefix(before, c, n);
      forall i | 0 <= i < |text| && Counts(text[i])
        ensures Rank(text, i) < |Slug(text)| && SmallLetter(text[i], Slug(text)[Rank(text, i)])
      {
        RankPrefix(before, c, i);
      }
    }
  }

  lemma NoSlug()
    ensures Slug("") == ""
  {
  }

  /** A slug is the letters and digits of its text, and no other text is. */
  lemma SlugExact(text: string, slug: string)
    ensures Slug(text) == slug <==> IsSlug(text, slug)
  {
    hide Slug, Rank, Counts;
    SlugFits(text);
    if IsSlug(text, slug) {
      forall r | 0 <= r < |slug| ensures slug[r] == Slug(text)[r] {
        var i := RankOf(text, |text|, r);
        assert SmallLetter(text[i], slug[r]) && SmallLetter(text[i], Slug(text)[r]);
      }
    }
  }

  /** The same letter or digit, a capital letter counting as its small one. */
  predicate SameLetter(c: char, d: char) {
    exists e :: SmallLetter(c, e) && SmallLetter(d, e)
  }

  ghost predicate AgreeInOrder(a: string, b: string) {
    && Rank(a, |a|) == Rank(b, |b|)
    && forall i, j :: 0 <= i < |a| && 0 <= j < |b| && Counts(a[i]) && Counts(b[j]) && Rank(a, i) == Rank(b, j) ==>
         SameLetter(a[i], b[j])
  }

  /** Two questions share a slug exactly if they have equally many letters and digits and these agree in
      order, without regard to case. */
  lemma SharedSlug(a: string, b: string)
    ensures Slug(a) == Slug(b) <==> AgreeInOrder(a, b)
  {
    hide Slug, AgreeInOrder;
    if AgreeInOrder(a, b) {
      AgreeingShare(a, b);
    }
    if Slug(a) == Slug(b) {
      SharingAgree(a, b);
    }
  }

  lemma SharingAgree(a: string, b: string)
    requires Slug(a) == Slug(b)
    ensures AgreeInOrder(a, b)
  {
    hide Slug, Rank, Counts, SmallLetter;
    SlugFits(a);
    SlugFits(b);
  }

  lemma AgreeingShare(a: string, b: string)
    requires AgreeInOrder(a, b)
    ensures Slug(a) == Slug(b)
  {
    hide Slug, Rank, Counts, SmallLetter, SameLetter;
    SlugFits(a);
    SlugFits(b);
    forall r | 0 <= r < |Slug(a)| ensures Slug(a)[r] == Slug(b)[r] {
      var i := RankOf(a, |a|, r);
      var j := RankOf(b, |b|, r);
      OneSmallLetter(a[i], b[j], Slug(a)[r], Slug(b)[r]);
    }
  }

  lemma OneSmallLetter(c: char, d: char, e: char, f: char)
    requires SmallLetter(c, e) && SmallLetter(d, f) && SameLetter(c, d)
    ensures e == f
  {
  }

  /** The overlap is the number of words that stand both in the FAQ's question and in the user's, without
      regard to case. */
  lemma OverlapExact(faq: Faq, question: string, a: string, b: string, shared: set<string>)
    requires SmallLetters(faq.question, a) && SmallLetters(question, b)
    requires forall w :: w in shared <==> (exists i :: StandsAt(a, w, i)) && exists i :: StandsAt(b, w, i)
    ensures Overlap(faq, question) == |shared|
  {
    hide StandsAt, SmallLetters, Words, Lower;
    SmallLettersExact(faq.question, a);
    SmallLettersExact(question, b);
    forall w ensures w in Words(a) * Words(b) <==> w in shared {
      WordsExact(a, w);
      WordsExact(b, w);
    }
    assert Words(a) * Words(b) == shared;
  }

  /** A slug is its own slug. */
  lemma SlugTwice(text: string)
    ensures Slug(Slug(text)) == Slug(text)
  {
    hide Lower, KeepSlugChars;
    LowerSlug(Slug(text));
    KeepKept(Slug(text));
  }

  lemma LowerConcat(a: string, b: string)
    ensures Lower(a + b) == Lower(a) + Lower(b)
  {
  }

  lemma DropsOne(c: char)
    requires !IsSlugChar(c)
    ensures KeepSlugChars([c]) == ""
  {
    assert [c][1..] == [];
  }

  lemma LowerOne(c: char)
    ensures Lower([c]) == [LowerChar(c)]
  {
  }

  /** Two questions that differ only in what a slug drops, anywhere between them, have the same slug. */
  lemma SlugIgnores(a: string, c: char, b: string)
    requires !IsSlugChar(LowerChar(c))
    ensures Slug(a + [c] + b) == Slug(a + b)
  {
    hide IsSlugChar, LowerChar, Lower, KeepSlugChars;
    LowerConcat(a + [c], b);
    LowerConcat(a, [c]);
    LowerConcat(a, b);
    LowerOne(c);
    KeepConcat(Lower(a) + [LowerChar(c)], Lower(b));
    KeepConcat(Lower(a), [LowerChar(c)]);
    KeepConcat(Lower(a), Lower(b));
    DropsOne(LowerChar(c));
  }

  lemma {:induction false} KeepConcat(a: string, b: string)
    ensures KeepSlugChars(a + b) == KeepSlugChars(a) + KeepSlugChars(b)
  {
    hide IsSlugChar;
    if a == "" {
      assert a + b == b;
    } else {
      KeepConcat(a[1..], b);
      assert (a + b)[1..] == a[1..] + b;
    }
  }

  /** A word of `s` stands somewhere in `s`, is not empty, has no white space inside and none could be
      added on either side. */
  predicate StandsAt(s: string, w: string, i: nat) {
    && 0 < |w| && i + |w| <= |s| && s[i..i + |w|] == w
    && (forall k :: 0 <= k < |w| ==> !IsSpace(w[k]))
    && (i > 0 ==> IsSpace(s[i - 1])) && (i + |w| < |s| ==> IsSpace(s[i + |w|]))
  }

  /** Splitting a text finds exactly its words. */
  lemma {:induction false} WordsExact(s: string, w: string)
    ensures w in Words(s) <==> exists i :: StandsAt(s, w, i)
    decreases |s|
  {
    hide IsSpace, StandsAt;
    if s == "" {
      NoWordIn(w);
    } else if IsSpace(s[0]) {
      WordsExact(s[1..], w);
      ShiftWord(s, 1, w);
      FirstWord(s, w);
    } else {
      var n := WordLength(s);
      WordsExact(s[n..], w);
      ShiftWord(s, n, w);
      FirstWord(s, w);
    }
  }

  lemma NoWordIn(w: string)
    ensures forall i :: !StandsAt("", w, i)
  {
  }

  /** A word at the very front is everything up to the first white space. */
  lemma FirstWord(s: string, w: string)
    requires s != ""
    ensures StandsAt(s, w, 0) <==> !IsSpace(s[0]) && w == s[..WordLength(s)]
  {
    hide IsSpace;
    var n := WordLength(s);
    if StandsAt(s, w, 0) {
      assert forall k :: 0 <= k < |w| ==> s[k] == w[k];
    }
  }

  lemma ShiftOne(s: string, n: nat, w: string, j: nat)
    requires 0 < n <= |s| && (n < |s| && !IsSpace(s[0]) ==> IsSpace(s[n])) && (IsSpace(s[0]) ==> n == 1)
    requires StandsAt(s[n..], w, j)
    ensures StandsAt(s, w, j + n)
  {
    hide IsSpace;
    assert s[j + n..j + n + |w|] == s[n..][j..j + |w|];
    assert w[0] == s[n..][j];
  }

  lemma ShiftBack(s: string, n: nat, w: string, i: nat)
    requires 0 < n <= |s| && (IsSpace(s[0]) ==> n == 1) && (!IsSpace(s[0]) ==> forall k :: 0 <= k < n ==> !IsSpace(s[k]))
    requires i > 0 && StandsAt(s, w, i)
    ensures i >= n && StandsAt(s[n..], w, i - n)
  {
    hide IsSpace;
    assert s[i..i + |w|] == s[n..][i - n..i - n + |w|];
  }

  /** Behind a first word, or a first white space, of length `n` the words are those of the rest. */
  lemma ShiftWord(s: string, n: nat, w: string)
    requires 0 < n <= |s| && (n < |s| && !IsSpace(s[0]) ==> IsSpace(s[n])) && (IsSpace(s[0]) ==> n == 1)
    requires !IsSpace(s[0]) ==> forall k :: 0 <= k < n ==> !IsSpace(s[k])
    ensures (exists i :: StandsAt(s[n..], w, i)) <==> exists i :: i > 0 && StandsAt(s, w, i)
  {
    hide IsSpace, StandsAt;
    forall j: nat | StandsAt(s[n..], w, j) ensures StandsAt(s, w, j + n) {
      ShiftOne(s, n, w, j);
    }
    forall i: nat | i > 0 && StandsAt(s, w, i) ensures i >= n && StandsAt(s[n..], w, i - n) {
      ShiftBack(s, n, w, i);
    }
  }
}
