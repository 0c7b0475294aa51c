/** The version 4 UUID printer: two masked bytes, then hex written in place around four dashes. */
module Uuid {
  import opened Wrappers

  type Byte = bv8

  const HEX := "0123456789abcdef"

  function HexDigit(n: Byte): char
    requires n < 16
  {
    HEX[n as int]
  }

  function Hex(bytes: seq<Byte>): (s: string)
    ensures |s| == 2 * |bytes|
  {
    if bytes == [] then ""
    else
      var last := bytes[|bytes| - 1];
      Hex(bytes[..|bytes| - 1]) + [HexDigit(last >> 4), HexDigit(last & 0x0f)]
  }

  function Masked(b: seq<Byte>): seq<Byte>
    requires |b| == 16
  {
    b[6 := (b[6] & 0x0f) | 0x40][8 := (b[8] & 0x3f) | 0x80]
  }

  function Format(b: seq<Byte>): (s: string)
    requires |b| == 16
    ensures |s| == 36
  {
    Hex(b[0..4]) + "-" + Hex(b[4..6]) + "-" + Hex(b[6..8]) + "-" + Hex(b[8..10]) + "-" + Hex(b[10..16])
  }

  /** hex.Encode: writes the digits of src over buf from index at. */
  method Encode(buf: array<char>, at: nat, src: seq<Byte>)
    requires at + 2 * |src| <= buf.Length
    modifies buf
    ensures buf[..] == old(buf[..at]) + Hex(src) + old(buf[at + 2 * |src|..])
  {
    ghost var was, digits := buf[..], Hex(src);
    for i := 0 to |src|
      invariant forall k :: 0 <= k < 2 * i ==> buf[at + k] == digits[k]
      invariant forall p :: 0 <= p < buf.Length && !(at <= p < at + 2 * i) ==> buf[p] == was[p]
    {
      HexAt(src, i);
      buf[at + 2 * i] := HexDigit(src[i] >> 4);
      buf[at + 2 * i + 1] := HexDigit(src[i] & 0x0f);
    }
  }

  /** One run of digits and the dash after it, extending the part of the buffer already written. */
  method EncodeRun(buf: array<char>, at: nat, src: seq<Byte>)
    requires at + 2 * |src| < buf.Length
    modifies buf
    ensures buf[..at + 2 * |src| + 1] == old(buf[..at]) + Hex(src) + "-"
  {
    Encode(buf, at, src);
    assert buf[..at + 2 * |src|] == old(buf[..at]) + Hex(src);
    buf[at + 2 * |src|] := '-';
    assert buf[..at + 2 * |src| + 1] == buf[..at + 2 * |src|] + "-";
  }

  method Mask(b: array<Byte>)
    requires b.Length == 16
    modifies b
    ensures b[..] == Masked(old(b[..]))
  {
    b[6] := (b[6] & 0x0f) | 0x40;
    b[8] := (b[8] & 0x3f) | 0x80;
  }

  /** Whatever the new buffer held, the five runs and four dashes cover all of it. */
  method Print(b: seq<Byte>) returns (text: string)
    requires |b| == 16
    ensures text == Format(b)
  {
    var buf := new char[36];
    EncodeRun(buf, 0, b[0..4]);
    assert buf[..9] == Hex(b[0..4]) + "-";
    EncodeRun(buf, 9, b[4..6]);
    assert buf[..14] == Hex(b[0..4]) + "-" + Hex(b[4..6]) + "-";
    EncodeRun(buf, 14, b[6..8]);
    EncodeRun(buf, 19, b[8..10]);
    Encode(buf, 24, b[10..16]);
    assert buf[..] == buf[..24] + Hex(b[10..16]);
    return buf[..];
  }

  /** None stands for the random source failing, and for the error then returned. */
  method UuidV4(random: Option<seq<Byte>>) returns (text: Option<string>)
    requires random.Some? ==> |random.value| == 16
    ensures text == if random.None? then None else Some(Format(Masked(random.value)))
  {
    if random.None? {
      return None;
    }
    var b := new Byte[16](i requires 0 <= i < 16 => random.value[i]);
    assert b[..] == random.value;
    Mask(b);
    var printed := Print(b[..]);
    return Some(printed);
  }

  // ---- What the text says ----

  predicate IsHexDigit(c: char) {
    c in HEX
  }

  function DigitValue(c: char): Byte
    requires IsHexDigit(c)
  {
    if c <= '9' then (c as int - '0' as int) as Byte else (c as int - 'a' as int + 10) as Byte
  }

  function ByteFrom(high: char, low: char): Byte
    requires IsHexDigit(high) && IsHexDigit(low)
  {
    (DigitValue(high) << 4) | DigitValue(low)
  }

  const DASHES := {8, 13, 18, 23}

  /** Where the first digit of byte i stands. */
  function Position(i: nat): nat {
    2 * i + if i < 4 then 0 else if i < 6 then 1 else if i < 8 then 2 else if i < 10 then 3 else 4
  }

  /** Which byte has a digit at p. */
  function ByteAt(p: nat): (i: nat)
    requires p < 36 && p !in DASHES
    ensures i < 16 && p in {Position(i), Position(i) + 1}
  {
    (p - if p < 8 then 0 else if p < 13 then 1 else if p < 18 then 2 else if p < 23 then 3 else 4) / 2
  }

  predicate Readable(s: string) {
    |s| == 36 && forall p :: 0 <= p < 36 && p !in DASHES ==> IsHexDigit(s[p])
  }

  /** Reading a UUID text back, byte by byte. */
  function Decode(s: string): (b: seq<Byte>)
    requires Readable(s)
    ensures |b| == 16
  {
    seq(16, i requires 0 <= i < 16 => ByteFrom(s[Position(i)], s[Position(i) + 1]))
  }

  lemma ByteRoundTrip(v: Byte)
    ensures IsHexDigit(HexDigit(v >> 4)) && IsHexDigit(HexDigit(v & 0x0f))
    ensures ByteFrom(HexDigit(v >> 4), HexDigit(v & 0x0f)) == v
  {
    DigitRoundTrip(v >> 4);
    DigitRoundTrip(v & 0x0f);
  }

  lemma DigitRoundTrip(n: Byte)
    requires n < 16
    ensures IsHexDigit(HexDigit(n)) && DigitValue(HexDigit(n)) == n
  {
  }

  lemma {:induction false} HexAt(b: seq<Byte>, i: nat)
    requires i < |b|
    ensures Hex(b)[2 * i] == HexDigit(b[i] >> 4) && Hex(b)[2 * i + 1] == HexDigit(b[i] & 0x0f)
  {
    if i < |b| - 1 { HexAt(b[..|b| - 1], i); }
  }

  predicate HasRuns(s: string, b: seq<Byte>)
    requires |b| == 16
  {
    |s| == 36
    && s[0..8] == Hex(b[0..4]) && s[9..13] == Hex(b[4..6]) && s[14..18] == Hex(b[6..8])
    && s[19..23] == Hex(b[8..10]) && s[24..36] == Hex(b[10..16])
  }

  lemma FormatRuns(b: seq<Byte>)
    requires |b| == 16
    ensures HasRuns(Format(b), b) && forall p :: p in DASHES ==> Format(b)[p] == '-'
  {
  }

  /** Digits 2k and 2k+1 of a run are those of its byte k. */
  lemma RunAt(s: string, from: nat, bytes: seq<Byte>, k: nat)
    requires from + 2 * |bytes| <= |s| && s[from..from + 2 * |bytes|] == Hex(bytes) && k < |bytes|
    ensures s[from + 2 * k] == HexDigit(bytes[k] >> 4) && s[from + 2 * k + 1] == HexDigit(bytes[k] & 0x0f)
  {
    HexAt(bytes, k);
    assert s[from..from + 2 * |bytes|][2 * k] == s[from + 2 * k];
    assert s[from..from + 2 * |bytes|][2 * k + 1] == s[from + 2 * k + 1];
  }

  lemma TextInRun(s: string, b: seq<Byte>, i: nat, from: nat, lo: nat, hi: nat)
    requires |b| == 16 && |s| == 36 && lo <= i < hi <= 16 && from + 2 * (hi - lo) <= 36
    requires s[from..from + 2 * (hi - lo)] == Hex(b[lo..hi])
    ensures s[from + 2 * (i - lo)] == HexDigit(b[i] >> 4) && s[from + 2 * (i - lo) + 1] == HexDigit(b[i] & 0x0f)
  {
    assert b[lo..hi][i - lo] == b[i];
    RunAt(s, from, b[lo..hi], i - lo);
  }

  lemma TextAt(s: string, b: seq<Byte>, i: nat)
    requires |b| == 16 && i < 16 && HasRuns(s, b)
    ensures s[Position(i)] == HexDigit(b[i] >> 4) && s[Position(i) + 1] == HexDigit(b[i] & 0x0f)
  {
    if i < 4 {
      TextInRun(s, b, i, 0, 0, 4);
    } else if i < 6 {
      TextInRun(s, b, i, 9, 4, 6);
    } else if i < 8 {
      TextInRun(s, b, i, 14, 6, 8);
    } else if i < 10 {
      TextInRun(s, b, i, 19, 8, 10);
    } else {
      TextInRun(s, b, i, 24, 10, 16);
    }
  }

  lemma FormatAt(b: seq<Byte>, i: nat)
    requires |b| == 16 && i < 16
    ensures Format(b)[Position(i)] == HexDigit(b[i] >> 4) && Format(b)[Position(i) + 1] == HexDigit(b[i] & 0x0f)
  {
    FormatRuns(b);
    TextAt(Format(b), b, i);
  }

  /** Dashes stand at four fixed places and hex digits everywhere else. */
  lemma Layout(b: seq<Byte>)
    requires |b| == 16
    ensures Readable(Format(b))
    ensures forall p :: p in DASHES ==> Format(b)[p] == '-'
  {
    forall p | 0 <= p < 36 && p !in DASHES ensures IsHexDigit(Format(b)[p]) {
      FormatAt(b, ByteAt(p));
      ByteRoundTrip(b[ByteAt(p)]);
    }
  }

  /** Decoding recovers every byte. */
  lemma RoundTrip(b: seq<Byte>)
    requires |b| == 16
    ensures Readable(Format(b)) && Decode(Format(b)) == b
  {
    Layout(b);
    forall i | 0 <= i < 16 ensures Decode(Format(b))[i] == b[i] {
      FormatAt(b, i);
      ByteRoundTrip(b[i]);
    }
  }

  lemma MaskedNibbles(v: Byte)
    ensures ((v & 0x0f) | 0x40) >> 4 == 4
    ensures ((v & 0x3f) | 0x80) >> 4 in {8, 9, 10, 11}
  {
  }

  /** The version digit is 4 and the variant digit is 8, 9, a or b, for all random bytes. */
  lemma VersionAndVariant(random: seq<Byte>)
    requires |random| == 16
    ensures Format(Masked(random))[14] == '4'
    ensures Format(Masked(random))[19] in "89ab"
  {
    MaskedNibbles(random[6]);
    MaskedNibbles(random[8]);
    FormatAt(Masked(random), 6);
    FormatAt(Masked(random), 8);
  }

  /** Agreement on the 122 bits the masks leave free. */
  predicate SameFreeBits(x: seq<Byte>, y: seq<Byte>)
    requires |x| == |y| == 16
  {
    && x[6] & 0x0f == y[6] & 0x0f
    && x[8] & 0x3f == y[8] & 0x3f
    && forall i :: 0 <= i < 16 && i != 6 && i != 8 ==> x[i] == y[i]
  }

  lemma MaskKeepsLow(v: Byte, w: Byte)
    ensures (v & 0x0f) | 0x40 == (w & 0x0f) | 0x40 <==> v & 0x0f == w & 0x0f
    ensures (v & 0x3f) | 0x80 == (w & 0x3f) | 0x80 <==> v & 0x3f == w & 0x3f
  {
  }

  /** Two outputs are equal exactly when the inputs agree on the free bits. */
  lemma EqualOutputs(x: seq<Byte>, y: seq<Byte>)
    requires |x| == |y| == 16
    ensures Format(Masked(x)) == Format(Masked(y)) <==> SameFreeBits(x, y)
  {
    MaskedEqual(x, y);
    RoundTrip(Masked(x));
    RoundTrip(Masked(y));
  }

  lemma MaskedEqual(x: seq<Byte>, y: seq<Byte>)
    requires |x| == |y| == 16
    ensures Masked(x) == Masked(y) <==> SameFreeBits(x, y)
  {
    if Masked(x) == Masked(y) { EqualMasked(x, y); }
    MaskKeepsLow(x[6], y[6]);
    MaskKeepsLow(x[8], y[8]);
  }

  lemma EqualMasked(x: seq<Byte>, y: seq<Byte>)
    requires |x| == |y| == 16 && Masked(x) == Masked(y)
    ensures SameFreeBits(x, y)
  {
    MaskKeepsLow(x[6], y[6]);
    MaskKeepsLow(x[8], y[8]);
    assert Masked(x)[6] == Masked(y)[6] && Masked(x)[8] == Masked(y)[8];
    forall i | 0 <= i < 16 && i != 6 && i != 8 ensures x[i] == y[i] { MaskedAt(x, y, i); }
  }

  lemma MaskedAt(x: seq<Byte>, y: seq<Byte>, i: nat)
    requires |x| == |y| == 16 && Masked(x) == Masked(y) && i < 16 && i != 6 && i != 8
    ensures x[i] == y[i]
  {
    assert Masked(x)[i] == x[i] && Masked(y)[i] == y[i];
  }

  /** Masking changes only bytes 6 and 8, and of those only the upper four and two bits. */
  lemma MaskedElsewhere(random: seq<Byte>, i: nat)
    requires |random| == 16 && i < 16
    ensures |Masked(random)| == 16
    ensures i != 6 && i != 8 ==> Masked(random)[i] == random[i]
    ensures Masked(random)[6] & 0x0f == random[6] & 0x0f && Masked(random)[8] & 0x3f == random[8] & 0x3f
  {
    MaskedLow(random[6]);
    MaskedLow(random[8]);
  }

  lemma MaskedLow(v: Byte)
    ensures ((v & 0x0f) | 0x40) & 0x0f == v & 0x0f
    ensures ((v & 0x3f) | 0x80) & 0x3f == v & 0x3f
  {
  }

  /** Digits stand in the order of the bytes, the high digit first. */
  lemma DigitsInOrder(b: seq<Byte>, i: nat)
    requires |b| == 16 && i < 16
    ensures i > 0 ==> Position(i - 1) + 1 < Position(i)
    ensures Format(b)[Position(i)] == "0123456789abcdef"[(b[i] >> 4) as int]
    ensures Format(b)[Position(i) + 1] == "0123456789abcdef"[(b[i] & 0x0f) as int]
  {
    FormatAt(b, i);
  }
}
