/** Info-hash formats: 40 hex digits, 32 base32 characters or 20 raw bytes, all turned into hex by
    `convert_hash_to_hex`, and the hex-to-bytes loop of `send_smart_queries`. */
module HashFormat {
  import opened Wrappers
  import opened Machine
  import opened Digits
  import opened Strings

  /** A C++ `char` read as an unsigned byte. */
  type Octet = c: char | c < '\U{100}' witness 'a'

  type Text = seq<Octet>

  // ----- Characters -----

  predicate IsHexDigit(c: char) {
    '0' <= c <= '9' || 'a' <= c <= 'f' || 'A' <= c <= 'F'
  }

  function HexValue(c: char): (v: nat)
    ensures v < 16
  {
    if '0' <= c <= '9' then c as int - '0' as int
    else if 'a' <= c <= 'f' then c as int - 'a' as int + 10
    else if 'A' <= c <= 'F' then c as int - 'A' as int + 10
    else 0
  }

  /** The table "0123456789abcdef". */
  function HexDigit(v: nat): (c: Octet)
    requires v < 16
    ensures IsHexDigit(c) && HexValue(c) == v && !('A' <= c <= 'F')
  {
    if v < 10 then ('0' as int + v) as char else ('a' as int + v - 10) as char
  }

  function ToUpper(c: char): char {
    if 'a' <= c <= 'z' then (c as int - 32) as char else c
  }

  function ToLower(c: Octet): Octet {
    if 'A' <= c <= 'Z' then (c as int + 32) as char else c
  }

  const BASE32 := "ABCDEFGHIJKLMNOPQRSTUVWXYZ234567"

  /** Position of an upper- or lower-case character in the base32 alphabet, or -1. */
  function Base32Digit(c: char): (d: int)
    ensures -1 <= d < 32
  {
    Find(BASE32, ToUpper(c))
  }

  // ----- The conversion, stage by stage -----

  predicate AllHex(s: Text) {
    forall i :: 0 <= i < |s| ==> IsHexDigit(s[i])
  }

  predicate AllBase32(s: Text) {
    forall i :: 0 <= i < |s| ==> Base32Digit(s[i]) >= 0
  }

  /** Bit `k` of a five-bit digit, from the most significant. */
  function Bit5(d: int, k: nat): nat
    requires k < 5
  {
    d / Pow2(4 - k) % 2
  }

  function Five(d: int): (bits: seq<nat>)
    ensures |bits| == 5 && AllBelow(bits, 2)
  {
    seq(5, k requires 0 <= k < 5 => Bit5(d, k))
  }

  function Bits(s: Text): (bits: seq<nat>)
    ensures |bits| == 5 * |s| && AllBelow(bits, 2)
  {
    if s == [] then [] else Bits(s[..|s| - 1]) + Five(Base32Digit(s[|s| - 1]))
  }

  function Nibble(b: seq<nat>): nat
    requires |b| == 4
  {
    8 * b[0] + 4 * b[1] + 2 * b[2] + b[3]
  }

  function Nibbles(bits: seq<nat>): (ns: seq<nat>)
    requires |bits| % 4 == 0 && AllBelow(bits, 2)
    ensures |ns| == |bits| / 4 && AllBelow(ns, 16)
  {
    if bits == [] then []
    else
      var n := |bits| - 4;
      assert forall i :: n <= i < |bits| ==> bits[i] < 2;
      Nibbles(bits[..n]) + [Nibble(bits[n..])]
  }

  function HexText(ns: seq<nat>): (s: Text)
    requires AllBelow(ns, 16)
    ensures |s| == |ns|
  {
    seq(|ns|, i requires 0 <= i < |ns| => HexDigit(ns[i]))
  }

  /** "%02x" of every byte. */
  function ByteNibbles(s: Text): (ns: seq<nat>)
    ensures |ns| == 2 * |s| && AllBelow(ns, 16)
  {
    seq(2 * |s|, i requires 0 <= i < 2 * |s| =>
      if i % 2 == 0 then s[i / 2] as int / 16 else s[i / 2] as int % 16)
  }

  function Base32Hex(hash: Text): (hex: Text)
    requires |hash| == 32
    ensures |hex| == 40
  {
    HexText(Nibbles(Bits(hash)))
  }

  predicate Convertible(hash: Text) {
    (|hash| == 40 && AllHex(hash)) || (|hash| == 32 && AllBase32(hash)) || |hash| == 20
  }

  /** What `convert_hash_to_hex` computes. */
  function HexOf(hash: Text): Text {
    if |hash| == 40 && AllHex(hash) then hash
    else if |hash| == 32 && AllBase32(hash) then Base32Hex(hash)
    else if |hash| == 20 then HexText(ByteNibbles(hash))
    else ""
  }

  // ----- The loops -----

  method ConvertHashToHex(hash: Text) returns (r: Text)
    ensures r == HexOf(hash)
  {
    if |hash| == 40 {
      var isHex := true;
      var i := 0;
      while i < |hash|
        invariant 0 <= i <= |hash|
        invariant isHex ==> forall j :: 0 <= j < i ==> IsHexDigit(hash[j])
        invariant !isHex ==> !AllHex(hash)
      {
        if !IsHexDigit(hash[i]) {
          isHex := false;
          break;
        }
        i := i + 1;
      }
      if isHex {
        return hash;
      }
    }
    if |hash| == 32 {
      r := ConvertBase32(hash);
      return;
    }
    if |hash| == 20 {
      r := [];
      var i := 0;
      while i < |hash|
        invariant 0 <= i <= |hash|
        invariant r == HexText(ByteNibbles(hash))[..2 * i]
      {
        var c := hash[i] as int;
        r := r + [HexDigit(c / 16), HexDigit(c % 16)];
        i := i + 1;
      }
      return;
    }
    return "";
  }

  method ConvertBase32(hash: Text) returns (r: Text)
    requires |hash| == 32
    ensures r == HexOf(hash)
  {
    var ok, binary := Base32ToBinary(hash);
    if !ok {
      return "";
    }
    r := BinaryToHex(binary);
  }

  method Base32ToBinary(hash: Text) returns (ok: bool, binary: seq<nat>)
    ensures ok <==> AllBase32(hash)
    ensures ok ==> binary == Bits(hash)
  {
    binary := [];
    var k := 0;
    while k < |hash|
      invariant 0 <= k <= |hash|
      invariant AllBase32(hash[..k])
      invariant binary == Bits(hash[..k])
    {
      var pos := Base32Digit(hash[k]);
      BitsExtend(hash, k);
      DigitsExtend(hash, k);
      if pos < 0 {
        return false, [];
      }
      var five := FiveBits(pos);
      binary := binary + five;
      k := k + 1;
    }
    assert hash[..k] == hash;
    ok := true;
  }

  lemma BitsExtend(hash: Text, k: nat)
    requires k < |hash|
    ensures Bits(hash[..k + 1]) == Bits(hash[..k]) + Five(Base32Digit(hash[k]))
  {
    assert hash[..k + 1][..k] == hash[..k];
  }

  lemma DigitsExtend(hash: Text, k: nat)
    requires k < |hash|
    ensures AllBase32(hash[..k]) && Base32Digit(hash[k]) >= 0 ==> AllBase32(hash[..k + 1])
    ensures AllBase32(hash) ==> Base32Digit(hash[k]) >= 0
  {
    if AllBase32(hash[..k]) && Base32Digit(hash[k]) >= 0 {
      var front := hash[..k + 1];
      forall i | 0 <= i < |front| ensures Base32Digit(front[i]) >= 0 {
        if i < k { assert front[i] == hash[..k][i]; }
      }
    }
  }

  method FiveBits(pos: nat) returns (five: seq<nat>)
    ensures five == Five(pos)
  {
    five := [];
    var i := 4;
    while i >= 0
      invariant -1 <= i <= 4
      invariant five == Five(pos)[..4 - i]
    {
      five := five + [pos / Pow2(i) % 2];
      i := i - 1;
    }
  }

  method BinaryToHex(binary: seq<nat>) returns (r: Text)
    requires |binary| % 4 == 0 && AllBelow(binary, 2)
    ensures r == HexText(Nibbles(binary))
  {
    r := [];
    var i := 0;
    while i < |binary|
      invariant 0 <= i <= |binary| && i % 4 == 0
      invariant r == HexText(Nibbles(binary[..i]))
    {
      var nibble := binary[i..i + 4];
      var value := NibbleValue(nibble);
      assert binary[..i + 4][..i] == binary[..i] && binary[..i + 4][i..] == nibble;
      r := r + [HexDigit(value)];
      i := i + 4;
    }
    assert binary[..i] == binary;
  }

  /** Setting bit `3 - j` of a value whose low bits are clear is adding it. */
  method NibbleValue(nibble: seq<nat>) returns (value: nat)
    requires |nibble| == 4 && AllBelow(nibble, 2)
    ensures value == Nibble(nibble)
  {
    value := 0;
    var j := 0;
    while j < 4
      invariant 0 <= j <= 4
      invariant value == (if j > 0 then 8 * nibble[0] else 0) + (if j > 1 then 4 * nibble[1] else 0)
                       + (if j > 2 then 2 * nibble[2] else 0) + (if j > 3 then nibble[3] else 0)
    {
      assert Pow2(0) == 1 && Pow2(1) == 2 && Pow2(2) == 4 && Pow2(3) == 8;
      if nibble[j] == 1 {
        value := value + Pow2(3 - j);
      }
      j := j + 1;
    }
  }

  // ----- What the conversion means -----

  /** RFC 4648, section 6: A-Z stand for 0-25 and 2-7 for 26-31; lower case is accepted too. */
  ghost function Rfc4648Digit(c: char): Option<nat> {
    if 'A' <= c <= 'Z' then Some(c as int - 'A' as int)
    else if 'a' <= c <= 'z' then Some(c as int - 'a' as int)
    else if '2' <= c <= '7' then Some(c as int - '2' as int + 26)
    else None
  }

  lemma AlphabetTable(i: nat)
    requires i < 32
    ensures BASE32[i] as int == (if i < 26 then 65 + i else 24 + i)
  {
  }

  lemma DigitAgreesWithRfc(c: char)
    ensures Base32Digit(c) == if Rfc4648Digit(c).Some? then Rfc4648Digit(c).value else -1
  {
    var d := Base32Digit(c);
    if Rfc4648Digit(c).Some? {
      RfcDigitIsInAlphabet(c);
    }
    if d >= 0 {
      AlphabetTable(d);
    }
  }

  lemma RfcDigitIsInAlphabet(c: char)
    requires Rfc4648Digit(c).Some?
    ensures ToUpper(c) in BASE32
  {
    AlphabetTable(Rfc4648Digit(c).value);
    assert BASE32[Rfc4648Digit(c).value] == ToUpper(c);
  }

  ghost function RfcDigits(s: Text): seq<nat> {
    seq(|s|, i requires 0 <= i < |s| => if Rfc4648Digit(s[i]).Some? then Rfc4648Digit(s[i]).value else 0)
  }

  ghost function HexDigits(s: Text): seq<nat> {
    seq(|s|, i requires 0 <= i < |s| => HexValue(s[i]))
  }

  ghost function ByteDigits(s: Text): seq<nat> {
    seq(|s|, i requires 0 <= i < |s| => s[i] as int)
  }

  /** The three formats that name a 160-bit hash. */
  ghost predicate Accepted(hash: Text) {
    || (|hash| == 40 && AllHex(hash))
    || (|hash| == 32 && forall i :: 0 <= i < |hash| ==> Rfc4648Digit(hash[i]).Some?)
    || |hash| == 20
  }

  /** The 160-bit number a hash names, each format read by its own rules. */
  ghost function Denoted(hash: Text): nat {
    if |hash| == 40 then Val(16, HexDigits(hash))
    else if |hash| == 32 then Val(32, RfcDigits(hash))
    else Val(256, ByteDigits(hash))
  }

  lemma FiveAppend(bits: seq<nat>, f: seq<nat>)
    requires |f| == 5
    ensures Val(2, bits + f) == Val(2, bits) * 32 + 16 * f[0] + 8 * f[1] + 4 * f[2] + 2 * f[3] + f[4]
  {
    NibbleAppend(bits, f[..4]);
    ValAppend(2, bits + f[..4], f[4]);
    assert bits + f == bits + f[..4] + [f[4]];
  }

  lemma FiveSum(d: nat)
    requires d < 32
    ensures var f := Five(d); 16 * f[0] + 8 * f[1] + 4 * f[2] + 2 * f[3] + f[4] == d
  {
    assert Pow2(0) == 1 && Pow2(1) == 2 && Pow2(2) == 4 && Pow2(3) == 8 && Pow2(4) == 16;
    var f := Five(d);
    assert f[0] == d / 16 % 2 && f[1] == d / 8 % 2 && f[2] == d / 4 % 2 && f[3] == d / 2 % 2 && f[4] == d % 2;
    BinarySum(d);
  }

  lemma BinarySum(d: nat)
    requires d < 32
    ensures 16 * (d / 16 % 2) + 8 * (d / 8 % 2) + 4 * (d / 4 % 2) + 2 * (d / 2 % 2) + d % 2 == d
  {
    var a := d / 2;
    var b := a / 2;
    var c := b / 2;
    assert d / 4 == b && d / 8 == c && d / 16 == c / 2;
  }

  lemma NibbleAppend(bits: seq<nat>, b: seq<nat>)
    requires |b| == 4
    ensures Val(2, bits + b) == Val(2, bits) * 16 + Nibble(b)
  {
    ValAppend(2, bits, b[0]);
    ValAppend(2, bits + [b[0]], b[1]);
    ValAppend(2, bits + [b[0]] + [b[1]], b[2]);
    ValAppend(2, bits + [b[0]] + [b[1]] + [b[2]], b[3]);
    assert bits + b == bits + [b[0]] + [b[1]] + [b[2]] + [b[3]];
  }

  lemma {:induction false} BitsValue(s: Text)
    requires AllBase32(s)
    ensures Val(2, Bits(s)) == Val(32, RfcDigits(s))
  {
    if s != [] {
      var n := |s| - 1;
      BitsValue(s[..n]);
      DigitAgreesWithRfc(s[n]);
      FiveAppend(Bits(s[..n]), Five(Base32Digit(s[n])));
      FiveSum(Base32Digit(s[n]));
      assert RfcDigits(s)[..n] == RfcDigits(s[..n]);
    }
  }

  lemma {:induction false} NibblesValue(bits: seq<nat>)
    requires |bits| % 4 == 0 && AllBelow(bits, 2)
    ensures Val(16, Nibbles(bits)) == Val(2, bits)
  {
    if bits != [] {
      var n := |bits| - 4;
      NibblesValue(bits[..n]);
      ValAppend(16, Nibbles(bits[..n]), Nibble(bits[n..]));
      NibbleAppend(bits[..n], bits[n..]);
      assert bits == bits[..n] + bits[n..];
    }
  }

  lemma {:induction false} ByteNibblesValue(s: Text)
    ensures Val(16, ByteNibbles(s)) == Val(256, ByteDigits(s))
  {
    if s != [] {
      var n := |s| - 1;
      var c := s[n] as int;
      var front := ByteNibbles(s[..n]);
      ByteNibblesValue(s[..n]);
      ValAppend(16, front, c / 16);
      ValAppend(16, front + [c / 16], c % 16);
      assert ByteNibbles(s) == front + [c / 16] + [c % 16];
      assert ByteDigits(s)[..n] == ByteDigits(s[..n]);
    }
  }

  lemma HexTextReadsBack(ns: seq<nat>)
    requires AllBelow(ns, 16)
    ensures HexDigits(HexText(ns)) == ns && AllHex(HexText(ns))
  {
  }

  lemma ConvertibleIffConverted(hash: Text)
    ensures Convertible(hash) <==> HexOf(hash) != ""
  {
  }

  lemma AcceptedBase32(hash: Text)
    ensures AllBase32(hash) <==> forall i :: 0 <= i < |hash| ==> Rfc4648Digit(hash[i]).Some?
  {
    forall i | 0 <= i < |hash| ensures Base32Digit(hash[i]) >= 0 <==> Rfc4648Digit(hash[i]).Some? {
      DigitAgreesWithRfc(hash[i]);
    }
  }

  /** The result is 40 hex digits naming the same number, or empty exactly when the input is in none of
      the three formats. */
  lemma ConversionKeepsValue(hash: Text)
    ensures !Accepted(hash) <==> HexOf(hash) == ""
    ensures Accepted(hash) ==>
      |HexOf(hash)| == 40 && AllHex(HexOf(hash)) && Denoted(HexOf(hash)) == Denoted(hash)
  {
    AcceptedBase32(hash);
    if |hash| == 32 && AllBase32(hash) {
      Base32KeepsValue(hash);
    } else if |hash| == 20 {
      BytesKeepValue(hash);
    }
  }

  lemma Base32KeepsValue(hash: Text)
    requires |hash| == 32 && AllBase32(hash)
    ensures AllHex(Base32Hex(hash)) && Val(16, HexDigits(Base32Hex(hash))) == Val(32, RfcDigits(hash))
  {
    BitsValue(hash);
    NibblesValue(Bits(hash));
    HexTextReadsBack(Nibbles(Bits(hash)));
  }

  lemma BytesKeepValue(hash: Text)
    ensures AllHex(HexText(ByteNibbles(hash)))
    ensures Val(16, HexDigits(HexText(ByteNibbles(hash)))) == Val(256, ByteDigits(hash))
  {
    ByteNibblesValue(hash);
    HexTextReadsBack(ByteNibbles(hash));
  }

  /** Converting twice is converting once, for every string. */
  lemma ConversionIdempotent(hash: Text)
    ensures HexOf(HexOf(hash)) == HexOf(hash)
  {
    ConversionKeepsValue(hash);
  }

  ghost function Lower(s: Text): Text {
    seq(|s|, i requires 0 <= i < |s| => ToLower(s[i]))
  }

  /** Two accepted hashes, in whatever formats, name the same number exactly when their hex forms agree up
      to letter case. */
  lemma SameHexIffSameHash(a: Text, b: Text)
    requires Accepted(a) && Accepted(b)
    ensures Lower(HexOf(a)) == Lower(HexOf(b)) <==> Denoted(a) == Denoted(b)
  {
    ConversionKeepsValue(a);
    ConversionKeepsValue(b);
    var x, y := HexOf(a), HexOf(b);
    if Denoted(a) == Denoted(b) {
      ValInjective(16, HexDigits(x), HexDigits(y));
      forall i | 0 <= i < 40 ensures ToLower(x[i]) == ToLower(y[i]) {
        assert HexDigits(x)[i] == HexDigits(y)[i];
        LowerIsValue(x[i]);
        LowerIsValue(y[i]);
      }
    }
    if Lower(x) == Lower(y) {
      forall i | 0 <= i < 40 ensures HexValue(x[i]) == HexValue(y[i]) {
        assert Lower(x)[i] == Lower(y)[i];
        LowerIsValue(x[i]);
        LowerIsValue(y[i]);
      }
      assert HexDigits(x) == HexDigits(y);
    }
  }

  lemma LowerIsValue(c: Octet)
    requires IsHexDigit(c)
    ensures ToLower(c) == HexDigit(HexValue(c))
  {
  }

  // ----- Hex back to bytes -----

  predicate IsSpace(c: char) {
    c == ' ' || '\t' <= c <= '\r'
  }

  /** `static_cast<unsigned char>(std::stoi({a, b}, nullptr, 16))`; None where `stoi` throws. Leading blanks
      and a sign are skipped and parsing stops at the first other character, so "0x" reads as 0. */
  function HexByte(a: char, b: char): Option<Byte> {
    if IsHexDigit(a) then Some(if IsHexDigit(b) then HexValue(a) * 16 + HexValue(b) else HexValue(a))
    else if !IsHexDigit(b) then None
    else if IsSpace(a) || a == '+' then Some(HexValue(b))
    else if a == '-' then Some((256 - HexValue(b)) % 256)
    else None
  }

  /** The byte loop over a 40-character string; None when a pair makes `stoi` throw. */
  function DecodeHex(s: Text, n: nat): (r: Option<Text>)
    requires 2 * n <= |s|
    ensures r.Some? ==> |r.value| == n
  {
    if n == 0 then Some([])
    else
      var front := DecodeHex(s, n - 1);
      var last := HexByte(s[2 * n - 2], s[2 * n - 1]);
      if front.Some? && last.Some? then Some(front.value + [last.value as char]) else None
  }

  method DecodeTarget(s: Text) returns (r: Option<Text>)
    requires |s| == 40
    ensures r == DecodeHex(s, 20)
  {
    var target: Text := [];
    var i := 0;
    while i < 20
      invariant 0 <= i <= 20
      invariant DecodeHex(s, i) == Some(target)
    {
      var byte := HexByte(s[2 * i], s[2 * i + 1]);
      if byte.None? {
        NoDecodePastError(s, i + 1, 20);
        return None;
      }
      target := target + [byte.value as char];
      i := i + 1;
    }
    r := Some(target);
  }

  lemma {:induction false} NoDecodePastError(s: Text, i: nat, n: nat)
    requires i <= n && 2 * n <= |s| && DecodeHex(s, i).None?
    ensures DecodeHex(s, n).None?
  {
    if i < n { NoDecodePastError(s, i, n - 1); }
  }

  lemma HexPairAppend(s: Text, a: Octet, b: Octet)
    ensures Val(16, HexDigits(s + [a, b])) == Val(16, HexDigits(s)) * 256 + HexValue(a) * 16 + HexValue(b)
  {
    ValAppend(16, HexDigits(s), HexValue(a));
    ValAppend(16, HexDigits(s) + [HexValue(a)], HexValue(b));
    assert HexDigits(s + [a, b]) == HexDigits(s) + [HexValue(a)] + [HexValue(b)];
  }

  lemma ByteAppend(s: Text, c: Octet)
    ensures Val(256, ByteDigits(s + [c])) == Val(256, ByteDigits(s)) * 256 + c as int
  {
    ValAppend(256, ByteDigits(s), c as int);
    assert ByteDigits(s + [c]) == ByteDigits(s) + [c as int];
  }

  lemma {:induction false} DecodeKeepsValue(s: Text, n: nat)
    requires 2 * n <= |s| && AllHex(s)
    ensures DecodeHex(s, n).Some? && Val(256, ByteDigits(DecodeHex(s, n).value)) == Val(16, HexDigits(s[..2 * n]))
  {
    if n > 0 {
      DecodeKeepsValue(s, n - 1);
      var front := s[..2 * (n - 1)];
      var a, b := s[2 * n - 2], s[2 * n - 1];
      assert s[..2 * n] == front + [a, b];
      HexPairAppend(front, a, b);
      ByteAppend(DecodeHex(s, n - 1).value, HexByte(a, b).value as char);
    }
  }

  /** The target a query is sent for is the 160-bit number the accepted hash named. */
  lemma DecodedTargetIsHash(hash: Text)
    requires Accepted(hash)
    ensures
      var hex := HexOf(hash);
      |hex| == 40 && DecodeHex(hex, 20).Some? && Denoted(DecodeHex(hex, 20).value) == Denoted(hash) &&
      (|hash| == 20 ==> DecodeHex(hex, 20).value == hash)
  {
    ConversionKeepsValue(hash);
    var hex := HexOf(hash);
    DecodeKeepsValue(hex, 20);
    assert hex[..40] == hex;
    var bytes := DecodeHex(hex, 20).value;
    if |hash| == 20 {
      ValInjective(256, ByteDigits(bytes), ByteDigits(hash));
      forall i | 0 <= i < 20 ensures bytes[i] == hash[i] {
        assert bytes[i] as int == ByteDigits(bytes)[i] == ByteDigits(hash)[i] == hash[i] as int;
      }
      assert bytes == hash;
    }
  }
}
