/** UTF-8 (section 4 of RFC 3629), decoded as `errors="ignore"` does it: bytes that start no
    well-formed character are dropped. */
module Utf8 {
  import opened Options

  type Byte = b: int | 0 <= b < 256

  /** The low six bits of a number, as a continuation byte. */
  function TailOf(n: nat): (t: Byte)
    ensures 0x80 <= t < 0xC0
  {
    0x80 + n % 64
  }

  function EncodeChar(c: char): (b: seq<Byte>)
    ensures 1 <= |b| <= 4
  {
    var n := c as int;
    if n < 0x80 then [n]
    else if n < 0x800 then [0xC0 + n / 64, TailOf(n)]
    else if n < 0x10000 then [0xE0 + n / 64 / 64, TailOf(n / 64), TailOf(n)]
    else [0xF0 + n / 64 / 64 / 64, TailOf(n / 64 / 64), TailOf(n / 64), TailOf(n)]
  }

  function Encode(s: string): seq<Byte> {
    if s == "" then [] else EncodeChar(s[0]) + Encode(s[1..])
  }

  predicate IsTail(b: seq<Byte>, i: nat) {
    i < |b| && 0x80 <= b[i] < 0xC0
  }

  /** A number extended by the six bits of a continuation byte. */
  function Extended(high: nat, tail: Byte): nat
    requires 0x80 <= tail < 0xC0
  {
    var low: int := tail;
    64 * high + (low - 0x80)
  }

  function Lead(b: Byte, base: int): int {
    var lead: int := b;
    lead - base
  }

  predicate IsScalar(n: nat) {
    n < 0xD800 || 0xE000 <= n < 0x110000
  }

  /** The well-formed character at the front, in its shortest form only, without surrogates. */
  function CharFront(b: seq<Byte>): Option<char> {
    if b == [] then None
    else if b[0] < 0x80 then Some(b[0] as char)
    else if 0xC2 <= b[0] < 0xE0 && IsTail(b, 1) then Some(Extended(Lead(b[0], 0xC0), b[1]) as char)
    else if 0xE0 <= b[0] < 0xF0 && IsTail(b, 1) && IsTail(b, 2) then
      var n := Extended(Extended(Lead(b[0], 0xE0), b[1]), b[2]);
      if 0x800 <= n && IsScalar(n) then Some(n as char) else None
    else if 0xF0 <= b[0] < 0xF5 && IsTail(b, 1) && IsTail(b, 2) && IsTail(b, 3) then
      var n := Extended(Extended(Extended(Lead(b[0], 0xF0), b[1]), b[2]), b[3]);
      if 0x10000 <= n && IsScalar(n) then Some(n as char) else None
    else None
  }

  lemma ExtendedTail(n: nat)
    ensures Extended(n / 64, TailOf(n)) == n
  {
  }

  lemma TailExtended(high: nat, tail: Byte)
    requires 0x80 <= tail < 0xC0
    ensures Extended(high, tail) / 64 == high && TailOf(Extended(high, tail)) == tail
  {
  }

  /** `decode("utf-8", errors="ignore")` */
  function Decode(b: seq<Byte>): string
    decreases |b|
  {
    if b == [] then ""
    else
      var c := CharFront(b);
      if c.Some? then
        FrontEncoded(b);
        [c.value] + Decode(b[|EncodeChar(c.value)|..])
      else Decode(b[1..])
  }

  /** Whether strict decoding succeeds. */
  predicate Decodable(b: seq<Byte>)
    decreases |b|
  {
    b == []
    || (CharFront(b).Some?
        && (FrontEncoded(b); Decodable(b[|EncodeChar(CharFront(b).value)|..])))
  }

  /** The front of encoded text is its first character, and a well-formed front is that character's
      encoding. */
  lemma FrontRoundTrip(c: char, rest: seq<Byte>)
    ensures CharFront(EncodeChar(c) + rest) == Some(c)
  {
    hide Extended, TailOf;
    var n := c as int;
    var b := EncodeChar(c) + rest;
    ExtendedTail(n);
    ExtendedTail(n / 64);
    ExtendedTail(n / 64 / 64);
    assert forall i :: 0 <= i < |EncodeChar(c)| ==> b[i] == EncodeChar(c)[i];
  }

  lemma FrontEncoded(b: seq<Byte>)
    requires CharFront(b).Some?
    ensures var n := |EncodeChar(CharFront(b).value)|; n <= |b| && b[..n] == EncodeChar(CharFront(b).value)
  {
    hide Extended, TailOf;
    if 0xC2 <= b[0] < 0xE0 {
      TwoBytes(b);
    } else if 0xE0 <= b[0] < 0xF0 {
      ThreeBytes(b);
    } else if 0xF0 <= b[0] {
      FourBytes(b);
    }
  }

  lemma TwoBytes(b: seq<Byte>)
    requires b != [] && 0xC2 <= b[0] < 0xE0 && CharFront(b).Some?
    ensures 2 <= |b| && EncodeChar(CharFront(b).value) == b[..2]
  {
    TailExtended(Lead(b[0], 0xC0), b[1]);
  }

  lemma ThreeBytes(b: seq<Byte>)
    requires b != [] && 0xE0 <= b[0] < 0xF0 && CharFront(b).Some?
    ensures 3 <= |b| && EncodeChar(CharFront(b).value) == b[..3]
  {
    var n := Extended(Lead(b[0], 0xE0), b[1]);
    TailExtended(Lead(b[0], 0xE0), b[1]);
    TailExtended(n, b[2]);
  }

  lemma FourBytes(b: seq<Byte>)
    requires b != [] && 0xF0 <= b[0] && CharFront(b).Some?
    ensures 4 <= |b| && EncodeChar(CharFront(b).value) == b[..4]
  {
    var n := Extended(Lead(b[0], 0xF0), b[1]);
    TailExtended(Lead(b[0], 0xF0), b[1]);
    TailExtended(n, b[2]);
    TailExtended(Extended(n, b[2]), b[3]);
  }

  /** Decoding undoes encoding, and on decodable bytes encoding undoes decoding. */
  lemma {:induction false} RoundTrip(s: string)
    ensures Decodable(Encode(s)) && Decode(Encode(s)) == s
  {
    hide EncodeChar, CharFront;
    if s != "" {
      RoundTrip(s[1..]);
      FrontRoundTrip(s[0], Encode(s[1..]));
      assert Encode(s)[|EncodeChar(s[0])|..] == Encode(s[1..]);
    }
  }

  lemma {:induction false} DecodableRoundTrip(b: seq<Byte>)
    requires Decodable(b)
    ensures Encode(Decode(b)) == b
    decreases |b|
  {
    hide EncodeChar, CharFront;
    if b != [] {
      var c := CharFront(b).value;
      FrontEncoded(b);
      DecodableRoundTrip(b[|EncodeChar(c)|..]);
      assert Decode(b)[1..] == Decode(b[|EncodeChar(c)|..]);
      assert b == b[..|EncodeChar(c)|] + b[|EncodeChar(c)|..];
    }
  }

  /** A well-formed character starts at `i`. */
  predicate CharAt(b: seq<Byte>, i: nat) {
    i < |b| && CharFront(b[i..]).Some?
  }

  /** Nothing is left exactly if nowhere a well-formed character starts. */
  lemma {:induction false} DecodesToNothing(b: seq<Byte>)
    ensures Decode(b) == "" <==> forall i :: !CharAt(b, i)
    decreases |b|
  {
    hide CharFront, EncodeChar;
    if b != [] {
      assert b[0..] == b;
      if CharFront(b).Some? {
        assert CharAt(b, 0);
      } else {
        DecodesToNothing(b[1..]);
        forall i: nat | i < |b[1..]| ensures CharAt(b[1..], i) <==> CharAt(b, i + 1) {
          assert b[1..][i..] == b[i + 1..];
        }
        forall i: nat | CharAt(b, i) ensures CharAt(b[1..], i - 1) {
          assert b[1..][i - 1..] == b[i..];
        }
      }
    }
  }

  predicate IsAscii(s: string) {
    forall i :: 0 <= i < |s| ==> s[i] as int < 0x80
  }

  /** Text takes at least one byte a character, and just one exactly if it is ASCII. */
  lemma {:induction false} EncodedSize(s: string)
    ensures |Encode(s)| >= |s|
    ensures |Encode(s)| == |s| <==> IsAscii(s)
  {
    if s != "" {
      EncodedSize(s[1..]);
      assert |EncodeChar(s[0])| >= 1 && (|EncodeChar(s[0])| == 1 <==> s[0] as int < 0x80);
      assert IsAscii(s) <==> s[0] as int < 0x80 && IsAscii(s[1..]) by {
        assert forall i :: 0 < i < |s| ==> s[i] == s[1..][i - 1];
      }
    }
  }
}
