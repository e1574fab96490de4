/** Bounded reading of a connected folder. Files are bytes; they are decoded as UTF-8, ignoring what does
    not decode. The limit, called `max_bytes` in the source, counts characters of decoded text. */
module FolderText {
  import opened Options
  import opened Text
  import opened Utf8

  const MAX_FILES := 20

  /** One path below the folder, in sorted order. `bytes` is None when reading raises. */
  datatype Entry = Entry(name: string, isFile: bool, bytes: Option<seq<Byte>>)

  datatype File = File(name: string, text: string)

  /** `read_text(errors="ignore")` */
  function TextOf(bytes: seq<Byte>): string {
    UniversalNewlines(Decode(bytes))
  }

  /** The readable, non-empty files. */
  function Readable(entries: seq<Entry>): seq<File> {
    if entries == [] then []
    else
      var e := entries[0];
      (if e.isFile && e.bytes.Some? && TextOf(e.bytes.value) != "" then [File(e.name, TextOf(e.bytes.value))] else [])
      + Readable(entries[1..])
  }

  function Take<T>(s: seq<T>, n: nat): seq<T> {
    if |s| <= n then s else s[..n]
  }

  /** What is taken from each file while the budget lasts. */
  function Snippets(files: seq<File>, budget: int): seq<string> {
    if files == [] || budget <= 0 then []
    else [Take(files[0].text, budget)] + Snippets(files[1..], budget - |Take(files[0].text, budget)|)
  }

  function Headed(files: seq<File>, snippets: seq<string>): seq<string>
    requires |snippets| <= |files|
  {
    if snippets == [] then []
    else ["--- " + files[0].name + " ---\n" + snippets[0]] + Headed(files[1..], snippets[1..])
  }

  function Concat(texts: seq<string>): string {
    if texts == [] then "" else texts[0] + Concat(texts[1..])
  }

  function TextsOf(files: seq<File>): seq<string> {
    if files == [] then [] else [files[0].text] + TextsOf(files[1..])
  }

  lemma {:induction false} SnippetsFit(files: seq<File>, budget: int)
    ensures |Snippets(files, budget)| <= |files|
  {
    if files != [] && budget > 0 {
      SnippetsFit(files[1..], budget - |Take(files[0].text, budget)|);
    }
  }

  function Chunks(files: seq<File>, budget: int): seq<string> {
    SnippetsFit(files, budget);
    Headed(files, Snippets(files, budget))
  }

  lemma ChunksFront(files: seq<File>, budget: int)
    requires files != [] && budget > 0
    ensures Chunks(files, budget)
         == ["--- " + files[0].name + " ---\n" + Take(files[0].text, budget)]
            + Chunks(files[1..], budget - |Take(files[0].text, budget)|)
  {
    hide Take;
    SnippetsFit(files[1..], budget - |Take(files[0].text, budget)|);
    assert Snippets(files, budget)[1..] == Snippets(files[1..], budget - |Take(files[0].text, budget)|);
  }

  lemma NoChunks(files: seq<File>, budget: int)
    requires files == [] || budget <= 0
    ensures Chunks(files, budget) == []
  {
  }

  lemma ReadableFront(entries: seq<Entry>, n: nat)
    requires entries != [] && n > 0
    ensures Take(Readable(entries), n)
         == if entries[0].isFile && entries[0].bytes.Some? && TextOf(entries[0].bytes.value) != ""
            then [File(entries[0].name, TextOf(entries[0].bytes.value))] + Take(Readable(entries[1..]), n - 1)
            else Take(Readable(entries[1..]), n)
  {
    hide TextOf;
    assert [] + Readable(entries[1..]) == Readable(entries[1..]);
  }

  /** The first twenty readable files, as far as the limit goes, each under a heading with its name. */
  method ReadFolderTextReadonly(isDir: bool, entries: seq<Entry>, maxBytes: int) returns (text: string)
    ensures text == if isDir then Join(Chunks(Take(Readable(entries), 20), maxBytes), "\n\n") else ""
  {
    hide Chunks, Readable, Take, Join, TextOf;
    if !isDir {
      return "";
    }
    var chunks: seq<string> := [];
    var total := 0;
    var fileCount := 0;
    ghost var all := Chunks(Take(Readable(entries), MAX_FILES), maxBytes);
    var k := 0;
    assert entries[0..] == entries;
    while k < |entries| && !(fileCount >= MAX_FILES || total >= maxBytes)
      invariant 0 <= k <= |entries| && 0 <= fileCount <= MAX_FILES
      invariant chunks + Chunks(Take(Readable(entries[k..]), MAX_FILES - fileCount), maxBytes - total) == all
    {
      var e := entries[k];
      ReadableFront(entries[k..], MAX_FILES - fileCount);
      assert entries[k..][1..] == entries[k + 1..];
      k := k + 1;
      if !e.isFile || e.bytes.None? {
        continue;
      }
      var decoded := TextOf(e.bytes.value);
      if decoded == "" {
        continue;
      }
      var remaining := maxBytes - total;
      var snippet := Take(decoded, remaining);
      var rest := Take(Readable(entries[k..]), MAX_FILES - fileCount - 1);
      ChunksFront([File(e.name, decoded)] + rest, remaining);
      assert ([File(e.name, decoded)] + rest)[1..] == rest;
      chunks := chunks + ["--- " + e.name + " ---\n" + snippet];
      total := total + |snippet|;
      fileCount := fileCount + 1;
    }
    NothingLeft(entries[k..], MAX_FILES - fileCount, maxBytes - total);
    assert chunks + [] == chunks;
    text := Join(chunks, "\n\n");
  }

  lemma NothingLeft(entries: seq<Entry>, slots: nat, budget: int)
    requires entries == [] || slots == 0 || budget <= 0
    ensures Chunks(Take(Readable(entries), slots), budget) == []
  {
    NoChunks(Take(Readable(entries), slots), budget);
  }

  // ---------------------------------------------------------------- what is read

  function Limit(budget: int, size: nat): nat {
    if budget <= 0 then 0 else if budget <= size then budget else size
  }

  /** The snippets, one after the other, are exactly the beginning of the files' texts, one after the
      other, up to the limit; only the last one can be cut short, and none is empty. */
  lemma {:induction false} SnippetsAreThePrefix(files: seq<File>, budget: int)
    requires forall i :: 0 <= i < |files| ==> files[i].text != ""
    ensures Concat(Snippets(files, budget)) == Concat(TextsOf(files))[..Limit(budget, |Concat(TextsOf(files))|)]
    ensures |Snippets(files, budget)| <= |files|
    ensures forall i :: 0 <= i < |Snippets(files, budget)| ==>
              Snippets(files, budget)[i] != "" && Snippets(files, budget)[i] <= files[i].text
    ensures forall i :: 0 <= i < |Snippets(files, budget)| - 1 ==> Snippets(files, budget)[i] == files[i].text
  {
    hide Take, Limit;
    if files != [] && budget > 0 {
      var first := Take(files[0].text, budget);
      var rest := Snippets(files[1..], budget - |first|);
      TakePrefix(files[0].text, budget);
      SnippetsAreThePrefix(files[1..], budget - |first|);
      assert Snippets(files, budget)[1..] == rest && TextsOf(files)[1..] == TextsOf(files[1..]);
      PrefixOfBoth(files[0].text, Concat(TextsOf(files[1..])), budget);
    } else {
      NoLimit(budget);
    }
  }

  lemma TakePrefix(text: string, budget: nat)
    requires text != "" && budget > 0
    ensures Take(text, budget) <= text && Take(text, budget) != ""
    ensures Take(text, budget) == text || budget - |Take(text, budget)| == 0
  {
  }

  lemma NoLimit(budget: int)
    ensures budget <= 0 ==> forall size :: Limit(budget, size) == 0
    ensures Limit(budget, 0) == 0
  {
  }

  lemma PrefixOfBoth(a: string, b: string, budget: nat)
    requires budget > 0
    ensures Limit(budget - |Take(a, budget)|, |b|) <= |b| && Limit(budget, |a + b|) <= |a + b|
    ensures Take(a, budget) + b[..Limit(budget - |Take(a, budget)|, |b|)] == (a + b)[..Limit(budget, |a + b|)]
  {
  }

  lemma {:induction false} ReadableFiles(entries: seq<Entry>)
    ensures forall i :: 0 <= i < |Readable(entries)| ==> Readable(entries)[i].text != ""
  {
    hide TextOf;
    if entries != [] {
      ReadableFiles(entries[1..]);
    }
  }

  /** Of a folder at most the first twenty readable non-empty files are read, and of those together at
      most the limit, without a gap. */
  lemma FolderReadIsBounded(entries: seq<Entry>, maxBytes: int)
    ensures var files := Take(Readable(entries), MAX_FILES);
            var snippets := Snippets(files, maxBytes);
            && |snippets| <= |files| <= 20 && files <= Readable(entries)
            && Concat(snippets) == Concat(TextsOf(files))[..Limit(maxBytes, |Concat(TextsOf(files))|)]
            && Chunks(files, maxBytes) == Headed(files, snippets)
  {
    hide Readable, Snippets, Concat, TextsOf, Headed;
    ReadableFiles(entries);
    SnippetsAreThePrefix(Take(Readable(entries), MAX_FILES), maxBytes);
  }

  // ---------------------------------------------------------------- which files are skipped

  /** A file is skipped exactly if no well-formed character starts anywhere in it; what does not decode
      is dropped from the others. */
  lemma SkippedExactly(e: Entry)
    requires e.isFile && e.bytes.Some?
    ensures Readable([e]) == [] <==> forall i :: !CharAt(e.bytes.value, i)
    ensures (!Decodable(e.bytes.value) ==> Readable([e]) == []) <==>
              Decodable(e.bytes.value) || forall i :: !CharAt(e.bytes.value, i)
  {
    hide CharAt, Decode, UniversalNewlines, Decodable;
    DecodesToNothing(e.bytes.value);
    assert [e][1..] == [];
  }

  /** A file that decodes strictly is read in full, up to its new lines. */
  lemma DecodableReadInFull(bytes: seq<Byte>)
    requires Decodable(bytes)
    ensures exists text :: Encode(text) == bytes && TextOf(bytes) == UniversalNewlines(text)
  {
    hide Decode, Encode, Decodable, UniversalNewlines;
    DecodableRoundTrip(bytes);
    assert TextOf(bytes) == UniversalNewlines(Decode(bytes));
  }

  /** A stray byte before a letter: the file does not decode, and is read as the letter all the same. */
  lemma UndecodableFileIsRead(name: string)
    ensures var bytes := [0xFF, 0x61]; !Decodable(bytes) && Readable([Entry(name, true, Some(bytes))]) == [File(name, "a")]
  {
    var bytes: seq<Byte> := [0xFF, 0x61];
    assert bytes[1..] == [0x61] && bytes[1..][1..] == [];
    assert EncodeChar('a') == [0x61];
    assert Decode([0x61]) == "a" && Decode(bytes) == "a";
    assert "a"[1..] == "" && UniversalNewlines("a") == "a";
    assert [Entry(name, true, Some(bytes))][1..] == [];
  }

  // ---------------------------------------------------------------- what the limit counts

  /** All that is taken from the folder. */
  function Taken(entries: seq<Entry>, maxBytes: int): string {
    Concat(Snippets(Take(Readable(entries), MAX_FILES), maxBytes))
  }

  /** All there is to take. */
  function Available(entries: seq<Entry>): string {
    Concat(TextsOf(Take(Readable(entries), MAX_FILES)))
  }

  lemma TakenIsPrefix(entries: seq<Entry>, maxBytes: int)
    ensures Taken(entries, maxBytes) == Available(entries)[..Limit(maxBytes, |Available(entries)|)]
  {
    hide Readable, Snippets, Concat, TextsOf;
    ReadableFiles(entries);
    SnippetsAreThePrefix(Take(Readable(entries), MAX_FILES), maxBytes);
  }

  /** What is taken stays within the limit in bytes exactly if: where the limit cuts, all that is taken
      is ASCII; where it does not, the files' text as a whole is small enough. A negative limit is one
      of zero. */
  lemma LimitInBytesExactly(entries: seq<Entry>, maxBytes: int)
    ensures var all := Available(entries);
            var limit := if maxBytes < 0 then 0 else maxBytes;
            |Encode(Taken(entries, maxBytes))| <= limit <==>
              if limit <= |all| then IsAscii(all[..limit]) else |Encode(all)| <= limit
  {
    hide Encode, IsAscii, Taken, Available;
    TakenIsPrefix(entries, maxBytes);
    EncodedSize(Taken(entries, maxBytes));
    assert maxBytes > |Available(entries)| ==> Taken(entries, maxBytes) == Available(entries);
  }

  /** One accented letter exceeds a limit of one byte. */
  lemma LimitCountsCharacters(name: string)
    ensures var entries := [Entry(name, true, Some([0xC3, 0xA9]))];
            Taken(entries, 1) == Available(entries) && |Taken(entries, 1)| == 1 && |Encode(Taken(entries, 1))| == 2
  {
    var text := [233 as char];
    var bytes: seq<Byte> := [0xC3, 0xA9];
    var entries := [Entry(name, true, Some(bytes))];
    assert text[1..] == "" && Encode(text) == EncodeChar(text[0]) == bytes;
    RoundTrip(text);
    assert UniversalNewlines(text) == text;
    assert entries[1..] == [];
    assert Readable(entries) == [File(name, text)];
    var files := [File(name, text)];
    assert files[1..] == [];
    assert TextsOf(files) == [text] && [text][1..] == [];
    assert Take(files, MAX_FILES) == files && Concat([text]) == text;
    TakenIsPrefix(entries, 1);
    assert text[..1] == text;
  }
}
