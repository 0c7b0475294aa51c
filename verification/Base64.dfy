/** Standard base64 with padding (section 4 of RFC 4648), decoded as Go does: line breaks are skipped. */
module Base64 {
  import opened Wrappers

  type Byte = b: int | 0 <= b < 256

  type Sextet = x: int | 0 <= x < 64

  function Symbol(x: Sextet): char {
    if x < 26 then ('A' as int + x) as char
    else if x < 52 then ('a' as int + x - 26) as char
    else if x < 62 then ('0' as int + x - 52) as char
    else if x == 62 then '+' else '/'
  }

  function SymbolValue(c: char): Option<Sextet> {
    if 'A' <= c <= 'Z' then Some(c as int - 'A' as int)
    else if 'a' <= c <= 'z' then Some(c as int - 'a' as int + 26)
    else if '0' <= c <= '9' then Some(c as int - '0' as int + 52)
    else if c == '+' then Some(62) else if c == '/' then Some(63) else None
  }

  predicate InAlphabet(c: char) {
    SymbolValue(c).Some?
  }

  // Three bytes are four sextets.

  function Sextet1(a: Byte): Sextet { a / 4 }

  function Sextet2(a: Byte, b: Byte): Sextet { a % 4 * 16 + b / 16 }

  function Sextet3(b: Byte, c: Byte): Sextet { b % 16 * 4 + c / 64 }

  function Sextet4(c: Byte): Sextet { c % 64 }

  function Byte1(w: Sextet, x: Sextet): Byte {
    var high, low: int := w, x;
    high * 4 + low / 16
  }

  function Byte2(x: Sextet, y: Sextet): Byte {
    var high, low: int := x, y;
    high % 16 * 16 + low / 4
  }

  function Byte3(y: Sextet, z: Sextet): Byte {
    var high, low: int := y, z;
    high % 4 * 64 + low
  }

  lemma BytesBack(a: Byte, b: Byte, c: Byte)
    ensures Byte1(Sextet1(a), Sextet2(a, b)) == a
    ensures Byte2(Sextet2(a, b), Sextet3(b, c)) == b
    ensures Byte3(Sextet3(b, c), Sextet4(c)) == c
  {
  }

  /** Four symbols for three bytes; the last group of one or two bytes is padded. */
  function Encode(b: seq<Byte>): string
    decreases |b|
  {
    if b == [] then "" else Group(b[..if |b| < 3 then |b| else 3]) + Encode(if |b| < 3 then [] else b[3..])
  }

  function Group(b: seq<Byte>): (g: string)
    requires 1 <= |b| <= 3
    ensures |g| == 4
  {
    var b1, b2 := if |b| > 1 then b[1] else 0, if |b| > 2 then b[2] else 0;
    [Symbol(Sextet1(b[0])), Symbol(Sextet2(b[0], b1)),
     if |b| > 1 then Symbol(Sextet3(b1, b2)) else '=',
     if |b| > 2 then Symbol(Sextet4(b2)) else '=']
  }

  /** One group of four symbols, or none when it is malformed. */
  function Ungroup(g: string): (bytes: Option<seq<Byte>>)
    requires |g| == 4
    ensures bytes.Some? ==> 1 <= |bytes.value| <= 3
  {
    var w, x, y, z := SymbolValue(g[0]), SymbolValue(g[1]), SymbolValue(g[2]), SymbolValue(g[3]);
    if w.None? || x.None? then None
    else if g[2] == '=' && g[3] == '=' then Some([Byte1(w.value, x.value)])
    else if y.None? then None
    else if g[3] == '=' then Some([Byte1(w.value, x.value), Byte2(x.value, y.value)])
    else if z.None? then None
    else Some([Byte1(w.value, x.value), Byte2(x.value, y.value), Byte3(y.value, z.value)])
  }

  predicate IsBreak(c: char) {
    c == '\n' || c == '\r'
  }

  function WithoutBreaks(s: string): string {
    if s == "" then ""
    else (if IsBreak(s[0]) then "" else [s[0]]) + WithoutBreaks(s[1..])
  }

  function Decode(s: string): Option<seq<Byte>> {
    DecodeGroups(WithoutBreaks(s))
  }

  /** Groups in order; a padded one must be the last. */
  function DecodeGroups(s: string): Option<seq<Byte>> {
    if s == "" then Some([])
    else if |s| < 4 then None
    else match Ungroup(s[..4])
      case None => None
      case Some(bytes) =>
        if |bytes| < 3 && |s| > 4 then None
        else match DecodeGroups(s[4..])
          case None => None
          case Some(rest) => Some(bytes + rest)
  }

  lemma SymbolRoundTrip(x: Sextet)
    ensures SymbolValue(Symbol(x)) == Some(x)
  {
  }

  predicate IsText(s: string) {
    forall c :: c in s ==> InAlphabet(c) || c == '='
  }

  lemma GroupText(b: seq<Byte>)
    requires 1 <= |b| <= 3
    ensures IsText(Group(b)) && Ungroup(Group(b)) == Some(b)
  {
    var b1, b2 := if |b| > 1 then b[1] else 0, if |b| > 2 then b[2] else 0;
    SymbolRoundTrip(Sextet1(b[0]));
    SymbolRoundTrip(Sextet2(b[0], b1));
    SymbolRoundTrip(Sextet3(b1, b2));
    SymbolRoundTrip(Sextet4(b2));
    BytesBack(b[0], b1, b2);
    var g := Group(b);
    assert SymbolValue('=').None?;
    if |b| == 1 {
      assert g[2] == '=' && g[3] == '=' && b == [b[0]];
    } else if |b| == 2 {
      assert g[2] != '=' && g[3] == '=' && b == [b[0], b1];
    } else {
      assert g[2] != '=' && g[3] != '=' && b == [b[0], b1, b2];
    }
  }

  lemma {:induction false} EncodedText(b: seq<Byte>)
    ensures IsText(Encode(b)) && (Encode(b) == "" <==> b == [])
    decreases |b|
  {
    if b != [] {
      GroupText(b[..if |b| < 3 then |b| else 3]);
      EncodedText(if |b| < 3 then [] else b[3..]);
    }
  }

  lemma {:induction false} NoBreaks(s: string)
    requires forall c :: c in s ==> !IsBreak(c)
    ensures WithoutBreaks(s) == s
  {
    if s != "" {
      NoBreaks(s[1..]);
      assert s == [s[0]] + s[1..];
    }
  }

  /** The first group of an encoding, and the rest. */
  lemma FirstEncoded(b: seq<Byte>)
    requires b != []
    ensures var group, rest := b[..if |b| < 3 then |b| else 3], if |b| < 3 then [] else b[3..];
      && Encode(b) == Group(group) + Encode(rest) && group + rest == b
      && Encode(b)[..4] == Group(group) && Encode(b)[4..] == Encode(rest)
  {
  }

  lemma {:induction false} GroupsRoundTrip(b: seq<Byte>)
    ensures DecodeGroups(Encode(b)) == Some(b)
    decreases |b|
  {
    if b != [] {
      var group, rest := b[..if |b| < 3 then |b| else 3], if |b| < 3 then [] else b[3..];
      GroupText(group);
      GroupsRoundTrip(rest);
      FirstEncoded(b);
      DecodesNext(Encode(b), group, rest);
    }
  }

  lemma DecodesNext(s: string, group: seq<Byte>, rest: seq<Byte>)
    requires |s| >= 4 && Ungroup(s[..4]) == Some(group) && DecodeGroups(s[4..]) == Some(rest)
    requires |group| == 3 || |s| == 4
    ensures DecodeGroups(s) == Some(group + rest)
  {
  }

  lemma TextDecodes(s: string)
    requires IsText(s)
    ensures Decode(s) == DecodeGroups(s)
  {
    NoBreaks(s);
  }

  /** Decoding undoes encoding, for every byte sequence. */
  lemma RoundTrip(b: seq<Byte>)
    ensures Decode(Encode(b)) == Some(b)
  {
    EncodedText(b);
    TextDecodes(Encode(b));
    GroupsRoundTrip(b);
  }

  lemma EncodeInjective(a: seq<Byte>, b: seq<Byte>)
    requires Encode(a) == Encode(b)
    ensures a == b
  {
    RoundTrip(a);
    RoundTrip(b);
  }

  lemma {:induction false} GroupsInAlphabet(s: string)
    ensures DecodeGroups(s).Some? ==> IsText(s)
    decreases |s|
  {
    if |s| >= 4 && DecodeGroups(s).Some? {
      GroupsInAlphabet(s[4..]);
      assert IsText(s[..4]);
      assert s == s[..4] + s[4..];
    }
  }

  lemma {:induction false} GroupsFit(s: string)
    ensures DecodeGroups(s).Some? ==> |DecodeGroups(s).value| <= |s| / 4 * 3
    decreases |s|
  {
    if |s| >= 4 {
      GroupsFit(s[4..]);
      assert |s| / 4 == |s[4..]| / 4 + 1;
      if DecodeGroups(s).Some? { FirstGroup(s); }
    }
  }

  lemma FirstGroup(s: string)
    requires |s| >= 4 && DecodeGroups(s).Some?
    ensures Ungroup(s[..4]).Some? && DecodeGroups(s[4..]).Some?
    ensures DecodeGroups(s).value == Ungroup(s[..4]).value + DecodeGroups(s[4..]).value
  {
  }

  lemma {:induction false} BreaksShorten(s: string)
    ensures |WithoutBreaks(s)| <= |s|
  {
    if s != "" { BreaksShorten(s[1..]); }
  }

  /** Three bytes for four characters are room enough for what a text decodes to. */
  lemma DecodedFits(s: string)
    ensures Decode(s).Some? ==> |Decode(s).value| <= |s| / 4 * 3
  {
    GroupsFit(WithoutBreaks(s));
    BreaksShorten(s);
    MoreRoom(|WithoutBreaks(s)|, |s|);
  }

  lemma MoreRoom(less: nat, more: nat)
    requires less <= more
    ensures less / 4 * 3 <= more / 4 * 3
  {
  }

  lemma {:induction false} EncodedLength(b: seq<Byte>)
    ensures |Encode(b)| == (|b| + 2) / 3 * 4
    decreases |b|
  {
    if b != [] {
      FirstEncoded(b);
      EncodedLength(if |b| < 3 then [] else b[3..]);
      assert |b| >= 3 ==> (|b| + 2) / 3 == (|b[3..]| + 2) / 3 + 1;
    }
  }

  lemma {:induction false} OnlyBreaksGo(s: string)
    ensures forall c :: c in s ==> IsBreak(c) || c in WithoutBreaks(s)
  {
    if s != "" { OnlyBreaksGo(s[1..]); }
  }

  /** A text with any character outside the alphabet, padding and line breaks does not decode. */
  lemma DecodesInAlphabet(s: string)
    ensures Decode(s).Some? ==> forall c :: c in s ==> InAlphabet(c) || c == '=' || IsBreak(c)
  {
    GroupsInAlphabet(WithoutBreaks(s));
    OnlyBreaksGo(s);
  }

  // ---- The encoding itself ----

  /** The standard alphabet: capitals, small letters and digits in order, then plus and slash. */
  lemma StandardAlphabet(x: Sextet)
    ensures Symbol(0) == 'A' && Symbol(25) == 'Z' && Symbol(26) == 'a' && Symbol(51) == 'z'
    ensures Symbol(52) == '0' && Symbol(61) == '9' && Symbol(62) == '+' && Symbol(63) == '/'
    ensures x !in {25, 51, 61, 62, 63} ==> Symbol(x + 1) as int == Symbol(x) as int + 1
  {
  }

  /** Three bytes and their four sextets are the same 24-bit number. */
  lemma GroupNumber(a: Byte, b: Byte, c: Byte)
    ensures var n: int := a * 0x10000 + b * 0x100 + c;
      n == ((Sextet1(a) * 64 + Sextet2(a, b)) * 64 + Sextet3(b, c)) * 64 + Sextet4(c)
  {
  }

  /** Full groups, and groups of one and two bytes with their padding, where b stands in for the bytes
      that are missing. */
  lemma GroupSymbols(b: seq<Byte>)
    requires 1 <= |b| <= 3
    ensures var whole := b + seq(3 - |b|, _ => 0);
      && Group(b)[0] == Symbol(Sextet1(whole[0])) && Group(b)[1] == Symbol(Sextet2(whole[0], whole[1]))
      && Group(b)[2] == (if |b| == 1 then '=' else Symbol(Sextet3(whole[1], whole[2])))
      && Group(b)[3] == (if |b| < 3 then '=' else Symbol(Sextet4(whole[2])))
  {
  }

  lemma {:induction false} BreakDrops(a: string, c: char, b: string)
    requires IsBreak(c)
    ensures WithoutBreaks(a + [c] + b) == WithoutBreaks(a + b)
  {
    if a == "" {
      assert a + [c] + b == [c] + b && a + b == b;
    } else {
      assert (a + [c] + b)[1..] == a[1..] + [c] + b && (a + b)[1..] == a[1..] + b;
      BreakDrops(a[1..], c, b);
    }
  }

  /** A line break anywhere makes no difference to decoding. */
  lemma BreaksIgnored(a: string, c: char, b: string)
    requires c == '\n' || c == '\r'
    ensures Decode(a + [c] + b) == Decode(a + b)
  {
    BreakDrops(a, c, b);
  }
}
