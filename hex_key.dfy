/** The hexadecimal private-key text `setPrivateKey` accepts and decodes into
    32 bytes, and the zero-padded lowercase hexadecimal text `generateNewKey`
    and `getKeyInfo` produce from those bytes. */
module HexKey {
  import opened Basics

  /** An element of a `Uint8Array`. */
  newtype byte = x: int | 0 <= x < 256

  /** The length of a secp256k1 secret key, in bytes. */
  const KeyBytes: nat := 32

  /** `[0-9a-fA-F]` */
  predicate IsHexDigit(c: char) {
    '0' <= c <= '9' || 'a' <= c <= 'f' || 'A' <= c <= 'F'
  }

  /** `[0-9a-f]`: the digits `toString(16)` writes. */
  predicate IsLowerHexDigit(c: char) {
    '0' <= c <= '9' || 'a' <= c <= 'f'
  }

  /** `/^[0-9a-fA-F]{64}$/.test(hexKey)`: exactly 64 hexadecimal characters,
      nothing before or after them. */
  predicate IsHexKey(s: string) {
    |s| == 2 * KeyBytes && forall k :: 0 <= k < |s| ==> IsHexDigit(s[k])
  }

  /** The value of one hexadecimal digit, either case. */
  function HexValue(c: char): (v: nat)
    requires IsHexDigit(c)
    ensures v < 16
  {
    if '0' <= c <= '9' then c as int - '0' as int
    else if 'a' <= c <= 'f' then c as int - 'a' as int + 10
    else c as int - 'A' as int + 10
  }

  /** `parseInt(hexKey.substr(2 * i, 2), 16)` for two hexadecimal digits. */
  function PairValue(hi: char, lo: char): byte
    requires IsHexDigit(hi) && IsHexDigit(lo)
  {
    (16 * HexValue(hi) + HexValue(lo)) as byte
  }

  /** The bytes `setPrivateKey` stores for a valid key text. */
  function HexKeyBytes(k: string): seq<byte>
    requires IsHexKey(k)
  {
    seq(KeyBytes, i requires 0 <= i < KeyBytes => PairValue(k[2 * i], k[2 * i + 1]))
  }

  /** The lowercase digit `Number.prototype.toString(16)` writes for `d < 16`. */
  function HexDigitChar(d: nat): char
    requires d < 16
  {
    if d < 10 then (d + '0' as int) as char else (d - 10 + 'a' as int) as char
  }

  /** `n.toString(16)` for a non-negative integer: lowercase digits, no leading zero. */
  function Radix16(n: nat): string
    decreases n
  {
    if n < 16 then [HexDigitChar(n)] else Radix16(n / 16) + [HexDigitChar(n % 16)]
  }

  /** `s.padStart(2, "0")` */
  function PadStart2(s: string): string {
    if |s| >= 2 then s else Zeros(2 - |s|) + s
  }

  /** `b.toString(16).padStart(2, "0")` */
  function ByteToHex(b: byte): string {
    PadStart2(Radix16(b as nat))
  }

  /** `Array.from(bytes).map(b => b.toString(16).padStart(2, "0")).join("")` */
  function EncodeHex(bytes: seq<byte>): string
    decreases |bytes|
  {
    if |bytes| == 0 then [] else ByteToHex(bytes[0]) + EncodeHex(bytes[1..])
  }

  // ---------------------------------------------------------------------------
  // Digits
  // ---------------------------------------------------------------------------

  /** A written digit reads back as its value. */
  lemma HexDigitRoundTrip(d: nat)
    requires d < 16
    ensures IsHexDigit(HexDigitChar(d)) && HexValue(HexDigitChar(d)) == d
    ensures '0' <= HexDigitChar(d) <= '9' || 'a' <= HexDigitChar(d) <= 'f'
  {
  }

  /** Reading a digit and writing it back gives the digit in lower case. */
  lemma HexValueRoundTrip(c: char)
    requires IsHexDigit(c)
    ensures HexDigitChar(HexValue(c)) == AsciiLowerChar(c)
  {
  }

  /** Every byte is written as exactly two lowercase digits, high nibble first:
      the padding supplies the leading zero that `toString(16)` omits below 16. */
  lemma ByteToHexDigits(b: byte)
    ensures ByteToHex(b) == [HexDigitChar(b as nat / 16), HexDigitChar(b as nat % 16)]
  {
    var n := b as nat;
    if n >= 16 {
      assert Radix16(n / 16) == [HexDigitChar(n / 16)];
    } else {
      assert Zeros(1) == ['0'];
      assert HexDigitChar(0) == '0';
    }
  }

  /** Character `2i` and `2i + 1` of the encoding are the digits of byte `i`. */
  lemma {:induction false} EncodeHexAt(bytes: seq<byte>)
    ensures |EncodeHex(bytes)| == 2 * |bytes|
    ensures forall i :: 0 <= i < |bytes| ==>
              EncodeHex(bytes)[2 * i] == HexDigitChar(bytes[i] as nat / 16)
              && EncodeHex(bytes)[2 * i + 1] == HexDigitChar(bytes[i] as nat % 16)
    decreases |bytes|
  {
    if |bytes| > 0 {
      EncodeHexAt(bytes[1..]);
      ByteToHexDigits(bytes[0]);
      var e := EncodeHex(bytes);
      var t := EncodeHex(bytes[1..]);
      assert e == ByteToHex(bytes[0]) + t;
      forall i | 1 <= i < |bytes|
        ensures e[2 * i] == HexDigitChar(bytes[i] as nat / 16)
                && e[2 * i + 1] == HexDigitChar(bytes[i] as nat % 16)
      {
        assert bytes[1..][i - 1] == bytes[i];
        assert e[2 * i] == t[2 * (i - 1)];
        assert e[2 * i + 1] == t[2 * (i - 1) + 1];
      }
    }
  }

  // ---------------------------------------------------------------------------
  // Round trips
  // ---------------------------------------------------------------------------

  /** Byte `i` holds the value of key characters `2i` and `2i + 1`. */
  lemma HexKeyBytesAt(k: string)
    requires IsHexKey(k)
    ensures |HexKeyBytes(k)| == KeyBytes
    ensures forall i :: 0 <= i < KeyBytes ==>
              HexKeyBytes(k)[i] as int == 16 * HexValue(k[2 * i]) + HexValue(k[2 * i + 1])
  {
  }

  /** Re-encoding the decoded bytes gives the key text back, lowercased:
      upper- and lowercase digits decode alike, and the encoding writes lowercase. */
  lemma EncodeDecodedKey(k: string)
    requires IsHexKey(k)
    ensures EncodeHex(HexKeyBytes(k)) == AsciiLower(k)
  {
    var b := HexKeyBytes(k);
    var e := EncodeHex(b);
    EncodeHexAt(b);
    forall j | 0 <= j < |k|
      ensures e[j] == AsciiLower(k)[j]
    {
      var i := j / 2;
      var hi := HexValue(k[2 * i]);
      var lo := HexValue(k[2 * i + 1]);
      assert b[i] as nat / 16 == hi && b[i] as nat % 16 == lo;
      HexValueRoundTrip(k[2 * i]);
      HexValueRoundTrip(k[2 * i + 1]);
      if j % 2 == 0 {
        assert j == 2 * i;
      } else {
        assert j == 2 * i + 1;
      }
    }
  }

  /** Every character of an encoding is a lowercase hexadecimal digit. */
  lemma EncodeHexDigits(b: seq<byte>)
    ensures forall j :: 0 <= j < |EncodeHex(b)| ==> IsHexDigit(EncodeHex(b)[j])
    ensures forall j :: 0 <= j < |EncodeHex(b)| ==> IsLowerHexDigit(EncodeHex(b)[j])
  {
    var e := EncodeHex(b);
    EncodeHexAt(b);
    forall j | 0 <= j < |e|
      ensures IsHexDigit(e[j]) && IsLowerHexDigit(e[j])
    {
      var i := j / 2;
      HexDigitRoundTrip(b[i] as nat / 16);
      HexDigitRoundTrip(b[i] as nat % 16);
      if j % 2 == 0 {
        assert j == 2 * i;
      } else {
        assert j == 2 * i + 1;
      }
    }
  }

  lemma ByteDigitsRoundTrip(v: byte)
    ensures HexValue(HexDigitChar(v as nat / 16)) * 16 + HexValue(HexDigitChar(v as nat % 16)) == v as int
  {
    HexDigitRoundTrip(v as nat / 16);
    HexDigitRoundTrip(v as nat % 16);
  }

  /** The encoding of 32 bytes is a key text `setPrivateKey` accepts, and it
      decodes to the same bytes. */
  lemma DecodeEncodedKey(b: seq<byte>)
    requires |b| == KeyBytes
    ensures IsHexKey(EncodeHex(b))
    ensures HexKeyBytes(EncodeHex(b)) == b
  {
    var e := EncodeHex(b);
    EncodeHexAt(b);
    EncodeHexDigits(b);
    assert IsHexKey(e);
    forall i | 0 <= i < KeyBytes
      ensures HexKeyBytes(e)[i] == b[i]
    {
      DecodedByteAt(b, e, i);
    }
  }

  /** Byte `i` is read back from the two digits written for it. */
  lemma DecodedByteAt(b: seq<byte>, e: string, i: nat)
    requires |b| == KeyBytes && IsHexKey(e) && i < KeyBytes
    requires e[2 * i] == HexDigitChar(b[i] as nat / 16) && e[2 * i + 1] == HexDigitChar(b[i] as nat % 16)
    ensures HexKeyBytes(e)[i] == b[i]
  {
    ByteDigitsRoundTrip(b[i]);
  }

  /** Two key texts that differ only in letter case decode to the same key. */
  lemma CaseInsensitiveKey(k: string)
    requires IsHexKey(k)
    ensures IsHexKey(AsciiLower(k))
    ensures HexKeyBytes(AsciiLower(k)) == HexKeyBytes(k)
  {
    EncodeDecodedKey(k);
    DecodeEncodedKey(HexKeyBytes(k));
  }

  // ---------------------------------------------------------------------------
  // The decoding loop
  // ---------------------------------------------------------------------------

  /** The validation and the `for` loop of `setPrivateKey` that fills a
      32-byte `Uint8Array`; `None` where it throws "Invalid private key format". */
  method DecodeHexKey(hexKey: string) returns (r: Option<seq<byte>>)
    ensures r.Some? <==> IsHexKey(hexKey)
    ensures r.Some? ==> |r.value| == KeyBytes && r.value == HexKeyBytes(hexKey)
  {
    if !IsHexKey(hexKey) {
      return None;
    }
    var bytes := new byte[KeyBytes];
    for i := 0 to KeyBytes
      invariant forall j :: 0 <= j < i ==> bytes[j] == PairValue(hexKey[2 * j], hexKey[2 * j + 1])
    {
      bytes[i] := PairValue(hexKey[2 * i], hexKey[2 * i + 1]);
    }
    return Some(bytes[..]);
  }
}
