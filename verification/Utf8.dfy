/** Text as UTF-8 bytes (section 3 of RFC 3629), read back as Go reads it: a byte that starts no
    well-formed sequence stands for U+FFFD on its own. */
module Utf8 {
  import opened Base64

  const REPLACEMENT: char := '\U{fffd}'

  predicate Continues(b: Byte) {
    0x80 <= b < 0xc0
  }

  /** The number of bytes the first character takes when it is well formed, else 0. */
  function Width(b: seq<Byte>): (n: nat)
    requires b != []
    ensures n <= |b|
  {
    if b[0] < 0x80 then 1
    else if 0xc2 <= b[0] < 0xe0 && |b| >= 2 && Continues(b[1]) then 2
    else if 0xe0 <= b[0] < 0xf0 && |b| >= 3 && Continues(b[1]) && Continues(b[2])
            && (b[0] == 0xe0 ==> b[1] >= 0xa0) && (b[0] == 0xed ==> b[1] < 0xa0) then 3
    else if 0xf0 <= b[0] < 0xf5 && |b| >= 4 && Continues(b[1]) && Continues(b[2]) && Continues(b[3])
            && (b[0] == 0xf0 ==> b[1] >= 0x90) && (b[0] == 0xf4 ==> b[1] < 0x90) then 4
    else 0
  }

  /** The value so far, with the six bits of a continuation byte after it. */
  function Then(value: nat, b: Byte): (v: nat)
    ensures v == value * 0x40 + b % 0x40
  {
    var low: int := b;
    value * 0x40 + low % 0x40
  }

  function FirstChar(b: seq<Byte>): char
    requires b != []
  {
    var n, lead: int := Width(b), b[0];
    if n == 1 then lead as char
    else if n == 2 then Then(lead - 0xc0, b[1]) as char
    else if n == 3 then Then(Then(lead - 0xe0, b[1]), b[2]) as char
    else if n == 4 then Then(Then(Then(lead - 0xf0, b[1]), b[2]), b[3]) as char
    else REPLACEMENT
  }

  function AsText(b: seq<Byte>): string
    decreases |b|
  {
    if b == [] then "" else [FirstChar(b)] + AsText(b[if Width(b) == 0 then 1 else Width(b)..])
  }

  function Tail(value: nat): Byte {
    0x80 + value % 0x40
  }

  function CharBytes(c: char): seq<Byte> {
    var v := c as int;
    if v < 0x80 then [v]
    else if v < 0x800 then [0xc0 + v / 0x40, Tail(v)]
    else if v < 0x10000 then [0xe0 + v / 0x1000, Tail(v / 0x40), Tail(v)]
    else [0xf0 + v / 0x40000, Tail(v / 0x1000), Tail(v / 0x40), Tail(v)]
  }

  function Bytes(s: string): seq<Byte> {
    if s == "" then [] else CharBytes(s[0]) + Bytes(s[1..])
  }

  lemma ShortReads(c: char, rest: seq<Byte>)
    requires c as int < 0x800
    ensures var b := CharBytes(c) + rest; Width(b) == |CharBytes(c)| > 0 && FirstChar(b) == c
  {
  }

  lemma ThreeReads(c: char, rest: seq<Byte>)
    requires 0x800 <= c as int < 0x10000
    ensures var b := CharBytes(c) + rest; Width(b) == |CharBytes(c)| > 0 && FirstChar(b) == c
  {
    var v := c as int;
    var b := CharBytes(c) + rest;
    assert v == v / 0x1000 * 0x1000 + v / 0x40 % 0x40 * 0x40 + v % 0x40;
    assert Then(Then(v / 0x1000, b[1]), b[2]) == v;
  }

  lemma LowSix(v: nat)
    ensures v == Then(v / 0x40, Tail(v))
  {
  }

  lemma Sextets(v: nat)
    ensures v == Then(Then(Then(v / 0x40000, Tail(v / 0x1000)), Tail(v / 0x40)), Tail(v))
  {
    Quarters(v);
    LowSix(v);
    LowSix(v / 0x40);
    LowSix(v / 0x40 / 0x40);
  }

  /** The first two of four bytes stay within the limits that keep a value from having a shorter
      form or passing the last code point. */
  lemma FourStart(v: nat)
    requires 0x10000 <= v < 0x110000
    ensures v / 0x40000 <= 4
    ensures v / 0x40000 == 0 ==> Tail(v / 0x1000) >= 0x90
    ensures v / 0x40000 == 4 ==> Tail(v / 0x1000) < 0x90
  {
    assert v / 0x40000 == v / 0x1000 / 0x40;
  }

  lemma FourReads(c: char, rest: seq<Byte>)
    requires c as int >= 0x10000
    ensures var b := CharBytes(c) + rest; Width(b) == |CharBytes(c)| > 0 && FirstChar(b) == c
  {
    var v := c as int;
    var b := CharBytes(c) + rest;
    FourStart(v);
    assert b[0] == 0xf0 + v / 0x40000 && b[1] == Tail(v / 0x1000) && b[2] == Tail(v / 0x40) && b[3] == Tail(v);
    assert Width(b) == 4;
    Sextets(v);
  }

  lemma CharReads(c: char, rest: seq<Byte>)
    ensures AsText(CharBytes(c) + rest) == [c] + AsText(rest)
  {
    if c as int < 0x800 {
      ShortReads(c, rest);
    } else if c as int < 0x10000 {
      ThreeReads(c, rest);
    } else {
      FourReads(c, rest);
    }
    FirstReads(CharBytes(c), rest, c);
  }

  lemma FirstReads(first: seq<Byte>, rest: seq<Byte>, c: char)
    requires first != [] && Width(first + rest) == |first| && FirstChar(first + rest) == c
    ensures AsText(first + rest) == [c] + AsText(rest)
  {
    assert (first + rest)[|first|..] == rest;
  }

  /** Whatever bytes follow a text's own, the text reads back in front of them. */
  lemma {:induction false} TextReads(s: string, rest: seq<Byte>)
    ensures AsText(Bytes(s) + rest) == s + AsText(rest)
  {
    if s == "" {
      assert Bytes(s) + rest == rest;
    } else {
      assert Bytes(s) + rest == CharBytes(s[0]) + (Bytes(s[1..]) + rest);
      CharReads(s[0], Bytes(s[1..]) + rest);
      TextReads(s[1..], rest);
      assert s + AsText(rest) == [s[0]] + (s[1..] + AsText(rest));
    }
  }

  /** Reading undoes writing, for every text. */
  lemma RoundTrip(s: string)
    ensures AsText(Bytes(s)) == s
  {
    TextReads(s, []);
    assert Bytes(s) + [] == Bytes(s);
  }

  /** A continuation byte on its own is the replacement character, not the character of its value. */
  lemma StrayByte(s: string, b: Byte)
    requires Continues(b)
    ensures AsText(Bytes(s) + [b]) == s + [REPLACEMENT]
  {
    TextReads(s, [b]);
    assert AsText([b]) == [REPLACEMENT];
  }

  lemma TwoEncode(b: seq<Byte>)
    requires b != [] && 1 <= Width(b) <= 2
    ensures CharBytes(FirstChar(b)) == b[..Width(b)]
  {
  }

  lemma ThenBack(value: nat, b: Byte)
    requires Continues(b)
    ensures Then(value, b) / 0x40 == value && Tail(Then(value, b)) == b
  {
  }

  lemma Quarters(v: nat)
    ensures v / 0x1000 == v / 0x40 / 0x40 && v / 0x40000 == v / 0x40 / 0x40 / 0x40
  {
  }

  lemma ThreeEncode(b: seq<Byte>)
    requires b != [] && Width(b) == 3
    ensures CharBytes(FirstChar(b)) == b[..3]
  {
    var lead: int := b[0];
    var two := Then(lead - 0xe0, b[1]);
    ThenBack(lead - 0xe0, b[1]);
    ThenBack(two, b[2]);
    Quarters(Then(two, b[2]));
  }

  lemma FourEncode(b: seq<Byte>)
    requires b != [] && Width(b) == 4
    ensures CharBytes(FirstChar(b)) == b[..4]
  {
    var lead: int := b[0];
    var two := Then(lead - 0xf0, b[1]);
    var three := Then(two, b[2]);
    ThenBack(lead - 0xf0, b[1]);
    ThenBack(two, b[2]);
    ThenBack(three, b[3]);
    Quarters(Then(three, b[3]));
    FourBytes(Then(three, b[3]), b);
  }

  lemma FourBytes(v: nat, b: seq<Byte>)
    requires 0x10000 <= v < 0x110000 && |b| >= 4
    requires 0xf0 + v / 0x40000 == b[0] && Tail(v / 0x1000) == b[1] && Tail(v / 0x40) == b[2] && Tail(v) == b[3]
    ensures CharBytes(v as char) == b[..4]
  {
  }

  lemma FirstEncodes(b: seq<Byte>)
    requires b != [] && Width(b) > 0
    ensures CharBytes(FirstChar(b)) == b[..Width(b)]
  {
    if Width(b) <= 2 {
      TwoEncode(b);
    } else if Width(b) == 3 {
      ThreeEncode(b);
    } else {
      FourEncode(b);
    }
  }

  /** Where the reading has no replacement character, it starts with a well-formed sequence, and
      the text of the bytes behind it follows. */
  lemma FirstShows(b: seq<Byte>)
    requires b != [] && REPLACEMENT !in AsText(b)
    ensures Width(b) > 0 && AsText(b) == [FirstChar(b)] + AsText(b[Width(b)..])
    ensures REPLACEMENT !in AsText(b[Width(b)..])
  {
    assert FirstChar(b) == AsText(b)[0] && AsText(b)[0] in AsText(b);
    var rest := AsText(b[Width(b)..]);
    assert forall k :: 0 <= k < |rest| ==> rest[k] == AsText(b)[k + 1];
  }

  /** Bytes that read without a replacement character are those of the text they read as: every
      ill-formed byte shows. */
  lemma {:induction false} ReadsBack(b: seq<Byte>)
    requires REPLACEMENT !in AsText(b)
    ensures Bytes(AsText(b)) == b
    decreases |b|
  {
    if b != [] {
      FirstShows(b);
      ReadsBack(b[Width(b)..]);
      BytesBehind(b, AsText(b[Width(b)..]));
    }
  }

  /** Text whose bytes are those behind the first sequence, with that sequence's character before it. */
  lemma BytesBehind(b: seq<Byte>, text: string)
    requires b != [] && Width(b) > 0 && Bytes(text) == b[Width(b)..]
    ensures Bytes([FirstChar(b)] + text) == b
  {
    var c := FirstChar(b);
    FirstEncodes(b);
    assert ([c] + text)[1..] == text;
    assert b == b[..Width(b)] + b[Width(b)..];
  }
}
