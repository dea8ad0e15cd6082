/** Encoders: the obfuscated base64 codec with its hand-written decoder, and URL encoding. */
module Base64Obf {
  import opened Bytes
  import opened SafeInt

  // ----- section 4 of RFC 4648 -----

  const PAD: byte := 0x3D

  /** m_b64Chars[s]: A-Z, a-z, 0-9, + and /. */
  function Symbol(s: byte): byte {
    if s < 26 then s + 0x41
    else if s < 52 then s + 71
    else if s < 62 then s - 4
    else if s == 62 then 0x2B
    else 0x2F
  }

  /** m_b64Chars.find(c) cast to unsigned char: the index, or npos cut to 255. */
  function Index(c: byte): byte {
    if 0x41 <= c <= 0x5A then c - 0x41
    else if 0x61 <= c <= 0x7A then c - 71
    else if 0x30 <= c <= 0x39 then c + 4
    else if c == 0x2B then 62
    else if c == 0x2F then 63
    else 255
  }

  /** The alphabet of RFC 4648: 26 capitals, 26 small letters, ten digits, plus and slash. */
  lemma SymbolSpells(s: byte)
    requires s < 64
    ensures var c, i := Symbol(s) as int, s as int;
            if i < 26 then c == 'A' as int + i
            else if i < 52 then c == 'a' as int + (i - 26)
            else if i < 62 then c == '0' as int + (i - 52)
            else c == (if i == 62 then '+' else '/') as int
  {
  }

  /** Looking a character up gives its place in the alphabet; any other one is not found, and only those are. */
  lemma IndexMeans(c: byte)
    ensures IsSymbol(c) <==> Index(c) < 64
    ensures Index(c) < 64 ==> Symbol(Index(c)) == c
    ensures Index(c) >= 64 ==> Index(c) == 255
    ensures IsSymbol(c) <==> exists s: byte :: s < 64 && Symbol(s) == c
  {
    forall s: byte | s < 64
      ensures Symbol(s) == c ==> IsSymbol(c)
    {
      IndexOfSymbol(s);
    }
    assert Index(c) < 64 ==> Symbol(Index(c)) == c;
  }

  predicate IsSymbol(c: byte) {
    0x41 <= c <= 0x5A || 0x61 <= c <= 0x7A || 0x30 <= c <= 0x39 || c == 0x2F || c == 0x2B
  }

  lemma IndexOfSymbol(s: byte)
    requires s < 64
    ensures Index(Symbol(s)) == s && IsSymbol(Symbol(s)) && Symbol(s) != PAD
  {
  }

  function Sextets(b0: byte, b1: byte, b2: byte): (q: (byte, byte, byte, byte))
    ensures q.0 < 64 && q.1 < 64 && q.2 < 64 && q.3 < 64
  {
    (b0 >> 2, ((b0 & 0x03) << 4) | (b1 >> 4), ((b1 & 0x0F) << 2) | (b2 >> 6), b2 & 0x3F)
  }

  /** Four groups of six bits are the same 24 bits, in the same order, as three bytes. */
  lemma SextetsAreBits(b0: byte, b1: byte, b2: byte)
    ensures var q := Sextets(b0, b1, b2);
            ((b0 as bv24) << 16) | ((b1 as bv24) << 8) | (b2 as bv24)
            == ((q.0 as bv24) << 18) | ((q.1 as bv24) << 12) | ((q.2 as bv24) << 6) | (q.3 as bv24)
  {
  }

  /** The text without its padding. */
  function Unpadded(b: seq<byte>): seq<byte> {
    if |b| >= 3 then
      var q := Sextets(b[0], b[1], b[2]);
      [Symbol(q.0), Symbol(q.1), Symbol(q.2), Symbol(q.3)] + Unpadded(b[3..])
    else if |b| == 2 then
      var q := Sextets(b[0], b[1], 0);
      [Symbol(q.0), Symbol(q.1), Symbol(q.2)]
    else if |b| == 1 then
      var q := Sextets(b[0], 0, 0);
      [Symbol(q.0), Symbol(q.1)]
    else []
  }

  function Padding(n: nat): seq<byte> {
    if n % 3 == 0 then [] else if n % 3 == 1 then [PAD, PAD] else [PAD]
  }

  function Base64(b: seq<byte>): seq<byte> {
    Unpadded(b) + Padding(|b|)
  }

  /** Section 10 of RFC 4648: "f", "fo", "foo" and "foob". */
  lemma TestVectors()
    ensures Base64([0x66]) == [0x5A, 0x67, 0x3D, 0x3D]
    ensures Base64([0x66, 0x6F]) == [0x5A, 0x6D, 0x38, 0x3D]
    ensures Base64([0x66, 0x6F, 0x6F]) == [0x5A, 0x6D, 0x39, 0x76]
    ensures Base64([0x66, 0x6F, 0x6F, 0x62]) == [0x5A, 0x6D, 0x39, 0x76, 0x59, 0x67, 0x3D, 0x3D]
  {
    var b: seq<byte> := [0x66, 0x6F, 0x6F, 0x62];
    assert b[3..] == [0x62];
    assert [0x66, 0x6F, 0x6F][3..] == [];
    assert Unpadded([0x62]) == [0x59, 0x67];
  }

  // ----- the decoder -----

  function Group(c0: byte, c1: byte, c2: byte, c3: byte): seq<byte> {
    [(c0 << 2) + ((c1 & 0x30) >> 4),
     ((c1 & 0x0F) << 4) + ((c2 & 0x3C) >> 2),
     ((c2 & 0x03) << 6) + c3]
  }

  /** Whole groups of four symbols, then what a shorter last group still holds; missing symbols read as npos. */
  function Decoded(v: seq<byte>): seq<byte> {
    if |v| >= 4 then
      Group(Index(v[0]), Index(v[1]), Index(v[2]), Index(v[3])) + Decoded(v[4..])
    else if |v| == 3 then Group(Index(v[0]), Index(v[1]), Index(v[2]), 255)[..2]
    else if |v| == 2 then Group(Index(v[0]), Index(v[1]), 255, 255)[..1]
    else []
  }

  /** The leading symbols: the loop stops at the first other character. */
  function Symbols(s: seq<byte>): seq<byte> {
    if s == [] || !IsSymbol(s[0]) then [] else [s[0]] + Symbols(s[1..])
  }

  /** The longest run of alphabet characters the text begins with. */
  lemma {:induction false} SymbolsMeans(s: seq<byte>)
    ensures var v := Symbols(s);
            && v <= s && (forall i :: 0 <= i < |v| ==> IsSymbol(v[i]))
            && (|v| < |s| ==> !IsSymbol(s[|v|]))
  {
    hide IsSymbol;
    if s != [] && IsSymbol(s[0]) {
      SymbolsMeans(s[1..]);
      var v, w := Symbols(s), Symbols(s[1..]);
      assert v[1..] == w && s == [s[0]] + s[1..];
      assert forall i :: 0 < i < |v| ==> v[i] == w[i - 1];
    }
  }

  /** Three bytes for every four symbols, and one less than the symbols of a short last group. */
  lemma {:induction false} DecodedLength(v: seq<byte>)
    ensures |Decoded(v)| == |v| / 4 * 3 + (if |v| % 4 == 0 then 0 else |v| % 4 - 1)
    decreases |v|
  {
    if |v| >= 4 {
      DecodedLength(v[4..]);
      hide Group, Index;
      assert |v| / 4 == |v[4..]| / 4 + 1 && |v| % 4 == |v[4..]| % 4;
    }
  }

  lemma GroupInverts(b0: byte, b1: byte, b2: byte)
    ensures var q := Sextets(b0, b1, b2); Group(q.0, q.1, q.2, q.3) == [b0, b1, b2]
  {
    assert ((b0 >> 2) << 2) + (((((b0 & 0x03) << 4) | (b1 >> 4)) & 0x30) >> 4) == b0;
    assert (((((b0 & 0x03) << 4) | (b1 >> 4)) & 0x0F) << 4)
         + (((((b1 & 0x0F) << 2) | (b2 >> 6)) & 0x3C) >> 2) == b1;
    assert (((((b1 & 0x0F) << 2) | (b2 >> 6)) & 0x03) << 6) + (b2 & 0x3F) == b2;
  }

  lemma LastGroupInverts(b0: byte, b1: byte)
    ensures var q := Sextets(b0, b1, 0); Group(q.0, q.1, q.2, 255)[..2] == [b0, b1]
    ensures var q := Sextets(b0, 0, 0); Group(q.0, q.1, 255, 255)[..1] == [b0]
  {
    assert ((b0 >> 2) << 2) + (((((b0 & 0x03) << 4) | (b1 >> 4)) & 0x30) >> 4) == b0;
    var z: byte := 0;
    assert (((((b0 & 0x03) << 4) | (b1 >> 4)) & 0x0F) << 4)
         + (((((b1 & 0x0F) << 2) | (z >> 6)) & 0x3C) >> 2) == b1;
    assert ((b0 >> 2) << 2) + (((((b0 & 0x03) << 4) | (z >> 4)) & 0x30) >> 4) == b0;
  }

  lemma {:induction false} DecodedInverts(b: seq<byte>)
    ensures Decoded(Unpadded(b)) == b
    decreases |b|
  {
    if |b| >= 3 {
      var q := Sextets(b[0], b[1], b[2]);
      IndexOfSymbol(q.0); IndexOfSymbol(q.1); IndexOfSymbol(q.2); IndexOfSymbol(q.3);
      GroupInverts(b[0], b[1], b[2]);
      hide Symbol, Index, Group, Sextets;
      DecodedInverts(b[3..]);
      assert Unpadded(b)[4..] == Unpadded(b[3..]);
      assert b == [b[0], b[1], b[2]] + b[3..];
    } else if |b| == 2 {
      var q := Sextets(b[0], b[1], 0);
      IndexOfSymbol(q.0); IndexOfSymbol(q.1); IndexOfSymbol(q.2);
      LastGroupInverts(b[0], b[1]);
    } else if |b| == 1 {
      var q := Sextets(b[0], 0, 0);
      IndexOfSymbol(q.0); IndexOfSymbol(q.1);
      LastGroupInverts(b[0], 0);
    }
  }

  ghost predicate AllSymbols(s: seq<byte>) {
    forall i :: 0 <= i < |s| ==> IsSymbol(s[i])
  }

  lemma {:induction false} UnpaddedIsSymbols(b: seq<byte>)
    ensures AllSymbols(Unpadded(b))
    decreases |b|
  {
    if |b| >= 3 {
      var q := Sextets(b[0], b[1], b[2]);
      IndexOfSymbol(q.0); IndexOfSymbol(q.1); IndexOfSymbol(q.2); IndexOfSymbol(q.3);
      UnpaddedIsSymbols(b[3..]);
    } else if |b| == 2 {
      var q := Sextets(b[0], b[1], 0);
      IndexOfSymbol(q.0); IndexOfSymbol(q.1); IndexOfSymbol(q.2);
    } else if |b| == 1 {
      var q := Sextets(b[0], 0, 0);
      IndexOfSymbol(q.0); IndexOfSymbol(q.1);
    }
  }

  lemma {:induction false} SymbolsStopAtPadding(v: seq<byte>, pad: seq<byte>)
    requires AllSymbols(v) && (pad == [] || pad[0] == PAD)
    ensures Symbols(v + pad) == v
  {
    if v == [] {
      assert v + pad == pad;
    } else {
      assert (v + pad)[1..] == v[1..] + pad;
      SymbolsStopAtPadding(v[1..], pad);
    }
  }

  // ----- the obfuscation -----

  /** XOR with the keystream of a seed, one draw a byte, from its n-th draw on. */
  function Obf(b: seq<byte>, draw: nat -> byte, n: nat): (r: seq<byte>)
    ensures |r| == |b|
  {
    seq(|b|, i requires 0 <= i < |b| => b[i] ^ draw(n + i))
  }

  lemma ObfTwice(b: seq<byte>, draw: nat -> byte, n: nat)
    ensures Obf(Obf(b, draw, n), draw, n) == b
  {
    forall i | 0 <= i < |b|
      ensures Obf(Obf(b, draw, n), draw, n)[i] == b[i]
    {
      XorCancels(b[i], draw(n + i));
    }
  }

  lemma ObfConcat(a: seq<byte>, b: seq<byte>, draw: nat -> byte, n: nat)
    ensures Obf(a + b, draw, n) == Obf(a, draw, n) + Obf(b, draw, n + |a|)
  {
  }

  const SIZE_T_TYPE := IntType(false, 64)
  const INT_TYPE := IntType(true, 31)

  /** encodeToBase64: the library gets safe_cast_or(count, 0) bytes, and an empty write yields the empty text. */
  function Encode(b: seq<byte>): seq<byte>
    requires Fits(SIZE_T_TYPE, |b|)
  {
    var count := SafeCastOr(INT_TYPE, SIZE_T_TYPE, |b|, 0);
    if count == 0 then [] else Base64(b[..count])
  }

  function EncodeObf(b: seq<byte>, draw: nat -> byte): seq<byte>
    requires Fits(SIZE_T_TYPE, |b|)
  {
    Encode(Obf(b, draw, 0))
  }

  const INT_MAX := 0x7FFF_FFFF

  /** None when the decoder's int index would pass INT_MAX, one step for each leading symbol. */
  function DecodeObf(text: seq<byte>, draw: nat -> byte): Option<seq<byte>> {
    if |Symbols(text)| > INT_MAX then None else Some(Obf(Decoded(Symbols(text)), draw, 0))
  }

  lemma IntMax()
    ensures MaxOf(INT_TYPE) == INT_MAX
  {
    assert Pow2(7) == 128;
    assert Pow2(15) == 256 * Pow2(7);
    assert Pow2(23) == 256 * Pow2(15);
    assert Pow2(31) == 256 * Pow2(23);
  }

  /** Four symbols for every three bytes, and one more than the bytes of a short last group. */
  lemma {:induction false} UnpaddedLength(b: seq<byte>)
    ensures |Unpadded(b)| == |b| + (|b| + 2) / 3
    decreases |b|
  {
    if |b| >= 3 {
      UnpaddedLength(b[3..]);
    }
  }

  /** What the decoder makes of an encoded text: the encoded bytes, unless there are too many symbols to index. */
  lemma DecodeOfBase64(o: seq<byte>, draw: nat -> byte)
    ensures DecodeObf(Base64(o), draw) == if |o| < 0x6000_0000 then Some(Obf(o, draw, 0)) else None
  {
    UnpaddedIsSymbols(o);
    SymbolsStopAtPadding(Unpadded(o), Padding(|o|));
    DecodedInverts(o);
    UnpaddedLength(o);
  }

  /** The same seed gives the bytes back exactly for strings shorter than 0x6000_0000 bytes: from there on the
      text has 2^31 or more symbols, and from 2^31 bytes on there is no text. */
  lemma RoundTripIff(b: seq<byte>, draw: nat -> byte)
    requires Fits(SIZE_T_TYPE, |b|)
    ensures DecodeObf(EncodeObf(b, draw), draw) == Some(b) <==> |b| < 0x6000_0000
  {
    IntMax();
    var o := Obf(b, draw, 0);
    assert o[..|o|] == o;
    DecodeOfBase64(o, draw);
    ObfTwice(b, draw, 0);
    NothingDecoded();
  }

  /** The i-th byte that the text stands for is the i-th byte of the input under the i-th draw. */
  lemma ObfuscatedByte(b: seq<byte>, draw: nat -> byte, i: nat)
    requires i < |b| < 0x8000_0000
    ensures Fits(SIZE_T_TYPE, |b|)
    ensures var raw := Decoded(Symbols(EncodeObf(b, draw))); |raw| == |b| && raw[i] == b[i] ^ draw(i)
  {
    IntMax();
    SizeTMax();
    var o := Obf(b, draw, 0);
    assert o[..|o|] == o;
    UnpaddedIsSymbols(o);
    SymbolsStopAtPadding(Unpadded(o), Padding(|o|));
    DecodedInverts(o);
    hide Decoded, Symbols, Unpadded, Padding;
  }

  lemma SizeTMax()
    ensures forall n: nat :: n < 0x8000_0000 ==> Fits(SIZE_T_TYPE, n)
  {
    IntMax();
    Pow2Grows(31, 64);
  }

  /** With another seed the decoder gives back the bytes under both draws. */
  lemma OtherSeed(b: seq<byte>, ours: nat -> byte, theirs: nat -> byte, i: nat)
    requires i < |b| < 0x6000_0000 && Fits(SIZE_T_TYPE, |b|)
    ensures var r := DecodeObf(EncodeObf(b, ours), theirs);
            r.Some? && |r.value| == |b| && r.value[i] == (b[i] ^ ours(i)) ^ theirs(i)
  {
    IntMax();
    var o := Obf(b, ours, 0);
    assert o[..|o|] == o;
    DecodeOfBase64(o, theirs);
    hide DecodeObf, Base64;
  }

  /** From 2^31 bytes on there is no text at all. */
  lemma TooLongIsEmpty(b: seq<byte>, draw: nat -> byte)
    requires Fits(SIZE_T_TYPE, |b|) && |b| >= 0x8000_0000
    ensures EncodeObf(b, draw) == []
  {
    IntMax();
  }

  /** encodeToBase64Obf as written: the obfuscated copy, then the library encoder. */
  method EncodeToBase64Obf(b: seq<byte>, draw: nat -> byte) returns (text: seq<byte>)
    requires Fits(SIZE_T_TYPE, |b|)
    ensures text == EncodeObf(b, draw)
  {
    var obf := new byte[|b|](_ => 0);
    var i := 0;
    while i < |b|
      invariant 0 <= i <= |b|
      invariant forall k :: 0 <= k < i ==> obf[k] == b[k] ^ draw(k)
    {
      obf[i] := b[i] ^ draw(i);
      i := i + 1;
    }
    assert obf[..] == Obf(b, draw, 0);
    text := Encode(obf[..]);
  }

  function GroupOf(c: seq<byte>): (g: seq<byte>)
    requires |c| == 4
    ensures |g| == 3
  {
    Group(Index(c[0]), Index(c[1]), Index(c[2]), Index(c[3]))
  }

  lemma DecodedGroup(c: seq<byte>, tail: seq<byte>)
    requires |c| == 4
    ensures Decoded(c + tail) == GroupOf(c) + Decoded(tail)
  {
    assert (c + tail)[4..] == tail;
  }

  lemma DecodedRemainder(c: seq<byte>)
    requires 0 < |c| < 4
    ensures Decoded(c) == GroupOf(c + seq(4 - |c|, _ => 0))[..|c| - 1]
  {
    var full := c + seq(4 - |c|, _ => 0);
    assert Index(0) == 255;
  }

  lemma SymbolsStep(text: seq<byte>, pos: nat)
    requires pos < |text|
    ensures Symbols(text[pos..]) == if IsSymbol(text[pos]) then [text[pos]] + Symbols(text[pos + 1..]) else []
  {
    assert text[pos..][1..] == text[pos + 1..];
  }

  /** decodeFromBase64Obf as written: symbols collected four at a time, then the remainder. The index is a
      signed int; None stands for its overflow. */
  method DecodeFromBase64Obf(text: seq<byte>, draw: nat -> byte) returns (r: Option<seq<byte>>)
    ensures r == DecodeObf(text, draw)
  {
    hide Decoded, GroupOf, Obf, IsSymbol, Symbols;
    var cont4: seq<byte> := [];
    var pos := 0;
    var out: seq<byte> := [];
    ghost var raw: seq<byte> := [];
    ghost var all := Decoded(Symbols(text));
    assert text[0..] == text && cont4 + Symbols(text) == Symbols(text) && Obf(raw, draw, 0) == [];
    while pos < |text| && IsSymbol(text[pos])
      invariant 0 <= pos <= |text| && pos <= INT_MAX && |cont4| < 4
      invariant |Symbols(text)| == pos + |Symbols(text[pos..])|
      invariant raw + Decoded(cont4 + Symbols(text[pos..])) == all
      invariant out == Obf(raw, draw, 0)
    {
      ghost var tail := Symbols(text[pos + 1..]);
      SymbolsStep(text, pos);
      ConcatAssoc(cont4, [text[pos]], tail);
      if pos == INT_MAX {
        return None;
      }
      cont4 := cont4 + [text[pos]];
      pos := pos + 1;
      if |cont4| == 4 {
        var cont3 := GroupOf(cont4);
        DecodedGroup(cont4, tail);
        ConcatAssoc(raw, cont3, Decoded(tail));
        ObfConcat(raw, cont3, draw, 0);
        out := out + Obf(cont3, draw, |out|);
        raw := raw + cont3;
        cont4 := [];
        assert cont4 + tail == tail;
      }
    }
    NoSymbolsLeft(text, pos);
    assert cont4 + Symbols(text[pos..]) == cont4;
    if cont4 != [] {
      var cont3 := GroupOf(cont4 + seq(4 - |cont4|, _ => 0))[..|cont4| - 1];
      DecodedRemainder(cont4);
      ObfConcat(raw, cont3, draw, 0);
      out := out + Obf(cont3, draw, |out|);
    } else {
      NothingDecoded();
      assert raw + [] == raw;
    }
    return Some(out);
  }

  lemma NoSymbolsLeft(text: seq<byte>, pos: nat)
    requires pos <= |text| && (pos < |text| ==> !IsSymbol(text[pos]))
    ensures Symbols(text[pos..]) == []
  {
  }

  lemma NothingDecoded()
    ensures Decoded([]) == []
  {
  }
}

module UrlEncoding {
  import opened Bytes
  import SafeInt

  type uchar = n: int | 0 <= n < 256

  /** The value of the byte as a (signed) char. */
  function Signed(c: uchar): int { if c < 128 then c else c - 256 }

  function Digit(nibble: int): uchar {
    if 0 <= nibble <= 9 then 0x30 + nibble
    else if 10 <= nibble <= 15 then 0x41 + nibble - 10
    else 0x30
  }

  /** toHexFrom4bitChar at positions 1 and 2. */
  function HighDigit(c: uchar): uchar { Digit(SafeInt.Div(Signed(c), 16)) }
  function LowDigit(c: uchar): uchar { Digit(c % 16) }

  predicate IsAlnum(c: uchar) {
    0x30 <= c <= 0x39 || 0x41 <= c <= 0x5A || 0x61 <= c <= 0x7A
  }

  predicate IsXDigit(c: uchar) {
    0x30 <= c <= 0x39 || 0x41 <= c <= 0x46 || 0x61 <= c <= 0x66
  }

  function HexToValue(v: uchar): int {
    if 0x30 <= v <= 0x39 then v - 0x30
    else if 0x41 <= v <= 0x46 then v - 0x41 + 10
    else if 0x61 <= v <= 0x66 then v - 0x61 + 10
    else 0
  }

  datatype Type = StrictEncoding | QuotePrintEncoding

  predicate MustBeEncoded(c: uchar, t: Type) {
    match t
    case QuotePrintEncoding => c == 0x22 || !(32 <= Signed(c) <= 126)
    case StrictEncoding => !IsAlnum(c)
  }

  function EncodedChar(c: uchar, t: Type): seq<uchar> {
    if MustBeEncoded(c, t) then [0x25, HighDigit(c), LowDigit(c)] else [c]
  }

  function Encoded(s: seq<uchar>, t: Type): seq<uchar> {
    if s == [] then [] else EncodedChar(s[0], t) + Encoded(s[1..], t)
  }

  function Decoded(s: seq<uchar>): seq<uchar> {
    if s == [] then []
    else if s[0] == 0x25 && 3 <= |s| && IsXDigit(s[1]) && IsXDigit(s[2]) then
      [(HexToValue(s[1]) * 16 + HexToValue(s[2])) % 256] + Decoded(s[3..])
    else [s[0]] + Decoded(s[1..])
  }

  /** x is the hexadecimal digit of value d, a capital from ten on. */
  predicate Spells(x: uchar, d: nat) {
    x == if d < 10 then '0' as int + d else 'A' as int + (d - 10)
  }

  /** What stands for a byte: itself, for letters and digits when strict and for printable characters but the
      double quote when not; or else a percent sign and two hexadecimal digits, the first of them zero from
      0x80 on. */
  lemma EncodedCharMeans(c: uchar, t: Type)
    ensures var plain := match t
                         case StrictEncoding =>
                           || '0' as int <= c <= '9' as int || 'A' as int <= c <= 'Z' as int
                           || 'a' as int <= c <= 'z' as int
                         case QuotePrintEncoding => ' ' as int <= c <= '~' as int && c != '"' as int;
            var e := EncodedChar(c, t);
            if plain then e == [c]
            else
              && |e| == 3 && e[0] == '%' as int
              && Spells(e[1], if c < 128 then c / 16 else 0) && Spells(e[2], c % 16)
  {
  }

  /** The value of a hexadecimal digit of either case. */
  function HexValue(x: uchar): Option<nat> {
    if '0' as int <= x <= '9' as int then Some(x - '0' as int)
    else if 'A' as int <= x <= 'F' as int then Some(x - 'A' as int + 10)
    else if 'a' as int <= x <= 'f' as int then Some(x - 'a' as int + 10)
    else None
  }

  /** A percent sign with two hexadecimal digits behind it is the byte they stand for; all else is itself. */
  lemma DecodedMeans(s: seq<uchar>)
    requires s != []
    ensures Decoded(s) != []
    ensures var d := Decoded(s);
            if s[0] == '%' as int && |s| >= 3 && HexValue(s[1]).Some? && HexValue(s[2]).Some? then
              d[0] == HexValue(s[1]).value * 16 + HexValue(s[2]).value && d[1..] == Decoded(s[3..])
            else d[0] == s[0] && d[1..] == Decoded(s[1..])
  {
    hide HexValue, Decoded, EscapeAt, EscapeValue;
    DecodedStep(s, 0);
    assert s[0..] == s;
    EscapeMeans(s);
  }

  lemma EscapeMeans(s: seq<uchar>)
    ensures EscapeAt(s, 0) <==> |s| >= 3 && s[0] == '%' as int && HexValue(s[1]).Some? && HexValue(s[2]).Some?
    ensures EscapeAt(s, 0) ==> EscapeValue(s, 0) == HexValue(s[1]).value * 16 + HexValue(s[2]).value
  {
    hide HexValue, HexToValue, IsXDigit;
    if |s| >= 3 {
      HexAgrees(s[1]);
      HexAgrees(s[2]);
    }
  }

  lemma HexAgrees(x: uchar)
    ensures IsXDigit(x) <==> HexValue(x).Some?
    ensures IsXDigit(x) ==> HexToValue(x) == HexValue(x).value < 16
  {
  }

  /** What a byte comes back as: the sign of a byte from 0x80 on costs it its high nibble. */
  function ComesBackAs(c: uchar): uchar {
    if c < 128 then c else c % 16
  }

  lemma DecodeOneEncoded(c: uchar, rest: seq<uchar>)
    ensures Decoded(EncodedChar(c, StrictEncoding) + rest) == [ComesBackAs(c)] + Decoded(rest)
  {
    var e := EncodedChar(c, StrictEncoding);
    EncodedCharMeans(c, StrictEncoding);
    DecodedMeans(e + rest);
    hide EncodedChar, Decoded, Spells, HexValue;
    if |e| == 3 {
      SpelledReads(e[1], if c < 128 then c / 16 else 0);
      SpelledReads(e[2], c % 16);
      assert (e + rest)[3..] == rest;
    } else {
      assert (e + rest)[1..] == rest;
    }
    var d := Decoded(e + rest);
    assert d == [d[0]] + d[1..];
  }

  lemma SpelledReads(x: uchar, d: nat)
    requires Spells(x, d) && d < 16
    ensures HexValue(x) == Some(d)
  {
  }

  lemma {:induction false} DecodeEncoded(s: seq<uchar>)
    ensures Decoded(Encoded(s, StrictEncoding)) == seq(|s|, i requires 0 <= i < |s| => ComesBackAs(s[i]))
  {
    if s != [] {
      DecodeOneEncoded(s[0], Encoded(s[1..], StrictEncoding));
      DecodeEncoded(s[1..]);
    }
  }

  /** fromURL inverts strict toURL exactly on strings of bytes below 0x80. */
  lemma RoundTripIff(s: seq<uchar>)
    ensures Decoded(Encoded(s, StrictEncoding)) == s <==> forall i :: 0 <= i < |s| ==> s[i] < 128
  {
    DecodeEncoded(s);
    var back := seq(|s|, i requires 0 <= i < |s| => ComesBackAs(s[i]));
    assert back == s <==> forall i :: 0 <= i < |s| ==> back[i] == s[i];
  }

  // ----- the loops -----

  method CalcEncodedSize(s: seq<uchar>, t: Type) returns (x: nat)
    ensures x == |Encoded(s, t)|
  {
    x := 0;
    var i := 0;
    assert s[0..] == s;
    while i < |s|
      invariant 0 <= i <= |s|
      invariant x + |Encoded(s[i..], t)| == |Encoded(s, t)|
    {
      assert s[i..][1..] == s[i + 1..];
      x := x + if MustBeEncoded(s[i], t) then 3 else 1;
      i := i + 1;
    }
  }

  /** toURL writes exactly the precomputed size: every cell of the buffer, and none outside it. */
  method ToURL(s: seq<uchar>, t: Type) returns (r: seq<uchar>)
    ensures r == Encoded(s, t)
  {
    hide Encoded, HighDigit, LowDigit, MustBeEncoded;
    NothingEncoded(t);
    if s == [] {
      return [];
    }
    var size := CalcEncodedSize(s, t);
    var out: seq<uchar> := seq(size, _ => 32);
    var x, i := 0, 0;
    assert s[0..] == s;
    while i < |s|
      invariant 0 <= i <= |s| && 0 <= x && x + |Encoded(s[i..], t)| == size == |out|
      invariant out[..x] + Encoded(s[i..], t) == Encoded(s, t)
    {
      ghost var done, e := out[..x], EncodedChar(s[i], t);
      EncodedStep(s, i, t);
      ConcatAssoc(done, e, Encoded(s[i + 1..], t));
      if MustBeEncoded(s[i], t) {
        out := out[x := 0x25][x + 1 := HighDigit(s[i])][x + 2 := LowDigit(s[i])];
        x := x + 3;
      } else {
        out := out[x := s[i]];
        x := x + 1;
      }
      assert out[..x] == done + e;
      i := i + 1;
    }
    assert s[i..] == [] && out[..x] == out;
    return out;
  }

  lemma EncodedStep(s: seq<uchar>, i: nat, t: Type)
    requires i < |s|
    ensures Encoded(s[i..], t) == EncodedChar(s[i], t) + Encoded(s[i + 1..], t)
  {
    assert s[i..][1..] == s[i + 1..];
  }

  lemma NothingEncoded(t: Type)
    ensures Encoded([], t) == []
  {
  }

  predicate EscapeAt(s: seq<uchar>, i: nat) {
    i + 3 <= |s| && s[i] == 0x25 && IsXDigit(s[i + 1]) && IsXDigit(s[i + 2])
  }

  function EscapeValue(s: seq<uchar>, i: nat): uchar
    requires i + 3 <= |s|
  {
    (HexToValue(s[i + 1]) * 16 + HexToValue(s[i + 2])) % 256
  }

  lemma DecodedStep(s: seq<uchar>, i: nat)
    requires i < |s|
    ensures Decoded(s[i..]) == if EscapeAt(s, i) then [EscapeValue(s, i)] + Decoded(s[i + 3..])
                               else [s[i]] + Decoded(s[i + 1..])
  {
    var t := s[i..];
    if EscapeAt(s, i) {
      assert t[3..] == s[i + 3..];
    } else {
      assert t[1..] == s[i + 1..];
    }
  }

  method FromURL(s: seq<uchar>) returns (r: seq<uchar>)
    ensures r == Decoded(s)
  {
    r := [];
    var i := 0;
    assert s[0..] == s;
    while i < |s|
      invariant 0 <= i <= |s|
      invariant r + Decoded(s[i..]) == Decoded(s)
    {
      DecodedStep(s, i);
      hide Decoded, EscapeValue;
      if EscapeAt(s, i) {
        ConcatAssoc(r, [EscapeValue(s, i)], Decoded(s[i + 3..]));
        r := r + [EscapeValue(s, i)];
        i := i + 3;
      } else {
        ConcatAssoc(r, [s[i]], Decoded(s[i + 1..]));
        r := r + [s[i]];
        i := i + 1;
      }
    }
    NothingDecoded(s[i..]);
  }

  lemma NothingDecoded(s: seq<uchar>)
    ensures s == [] ==> Decoded(s) == []
  {
  }
}
