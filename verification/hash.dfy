/**
 * The 32-byte consensus hash: the difficulty measure (leading zero bits),
 * its numeric reading as a big-endian 256-bit number, the target mask used by
 * the miner, and the lowercase base16 text form (section 8 of RFC 4648) used
 * on the wire.
 */
module Hash {
  import opened Types

  const HashLength: nat := 32
  /** Bits in a hash. */
  const HashBits: nat := 8 * HashLength

  /** `n` zero bytes. */
  function ZeroBytes(n: nat): (r: seq<Byte>)
    ensures |r| == n && forall i :: 0 <= i < n ==> r[i] == 0
  {
    if n == 0 then [] else [0] + ZeroBytes(n - 1)
  }

  /** Exactly 32 bytes. */
  type Bytes32 = s: seq<Byte> | |s| == 32 witness ZeroBytes(32)

  datatype ConsensusHash = ConsensusHash(bytes: Bytes32)

  datatype ConsensusHashError = InvalidFormat | InvalidLength

  /** `ConsensusHash::default()`: all bytes zero. */
  const DefaultHash: ConsensusHash := ConsensusHash(ZeroBytes(32))

  /**
   * SHA3-256 over an encoded value. Deterministic (it is a function) and
   * otherwise uninterpreted: nothing about collisions is assumed.
   */
  const Digest: seq<Byte> -> ConsensusHash

  // ---------------------------------------------------------------------
  // Powers of two and the big-endian reading of a byte string
  // ---------------------------------------------------------------------

  function Pow2(n: nat): (r: nat)
    ensures r >= 1
  {
    if n == 0 then 1 else 2 * Pow2(n - 1)
  }

  lemma {:induction false} Pow2Add(a: nat, b: nat)
    ensures Pow2(a + b) == Pow2(a) * Pow2(b)
    decreases a
  {
    if a > 0 {
      Pow2Add(a - 1, b);
      assert Pow2(a + b) == 2 * Pow2(a - 1 + b);
    }
  }

  lemma {:induction false} Pow2Monotone(a: nat, b: nat)
    requires a <= b
    ensures Pow2(a) <= Pow2(b)
    decreases b - a
  {
    if a < b {
      Pow2Monotone(a, b - 1);
    }
  }

  lemma MulMonotone(a: nat, b: nat, c: nat)
    requires a <= b
    ensures a * c <= b * c
  {
  }

  /** The value of `s` read as a big-endian unsigned number. */
  function BigEndian(s: seq<Byte>): nat
  {
    if |s| == 0 then 0 else s[0] * Pow2(8 * (|s| - 1)) + BigEndian(s[1..])
  }

  /** A byte followed by a number below p reads below 256 p. */
  lemma LeadingDigitBound(b: nat, rest: nat, p: nat)
    requires b < 256 && rest < p
    ensures b * p + rest < 256 * p
  {
    MulMonotone(b + 1, 256, p);
  }

  /** A string of n bytes reads as a number below 2^(8n). */
  lemma {:induction false} BigEndianBound(s: seq<Byte>)
    ensures BigEndian(s) < Pow2(8 * |s|)
  {
    if |s| > 0 {
      var k := 8 * (|s| - 1);
      BigEndianBound(s[1..]);
      Pow2Add(8, k);
      assert 8 + k == 8 * |s|;
      assert Pow2(8) == 256;
      LeadingDigitBound(s[0], BigEndian(s[1..]), Pow2(k));
    }
  }

  /** The hash as the unsigned 256-bit number the older revision compares with `<`. */
  function HashValue(h: ConsensusHash): (v: nat)
    ensures v < Pow2(HashBits)
  {
    BigEndianBound(h.bytes);
    BigEndian(h.bytes)
  }

  /** `BlockHash::MAX`: 2^256 - 1. */
  function MaxHashValue(): nat
  {
    Pow2(HashBits) - 1
  }

  /** Unsigned right shift by `d` bits: `d` halvings. */
  function ShiftRight(x: nat, d: nat): nat
  {
    if d == 0 then x else ShiftRight(x / 2, d - 1)
  }

  /** Shifting an n-bit all-ones value right by d bits leaves n - d ones, or nothing. */
  lemma {:induction false} ShiftRightAllOnes(n: nat, d: nat)
    ensures d <= n ==> ShiftRight(Pow2(n) - 1, d) == Pow2(n - d) - 1
    ensures d > n ==> ShiftRight(Pow2(n) - 1, d) == 0
    decreases d
  {
    if d > 0 {
      if n > 0 {
        assert (Pow2(n) - 1) / 2 == Pow2(n - 1) - 1;
        ShiftRightAllOnes(n - 1, d - 1);
      } else {
        ShiftRightOfZero(d - 1);
      }
    }
  }

  lemma {:induction false} ShiftRightOfZero(d: nat)
    ensures ShiftRight(0, d) == 0
  {
    if d > 0 {
      ShiftRightOfZero(d - 1);
    }
  }

  // ---------------------------------------------------------------------
  // Leading zero bits
  // ---------------------------------------------------------------------

  /** `u8::leading_zeros`: the number of zero bits above the highest one bit. */
  function ByteLeadingZeros(b: Byte): (r: nat)
    ensures r <= 8
    ensures b < Pow2(8 - r)
    ensures r < 8 ==> Pow2(7 - r) <= b
  {
    if b >= 128 then 0
    else if b >= 64 then 1
    else if b >= 32 then 2
    else if b >= 16 then 3
    else if b >= 8 then 4
    else if b >= 4 then 5
    else if b >= 2 then 6
    else if b >= 1 then 7
    else 8
  }

  /**
   * Leading zero bits of a byte string: every leading zero byte adds 8, the
   * first non-zero byte adds its own leading zeros, and counting stops there.
   */
  function LeadingZeroBits(s: seq<Byte>): nat
  {
    if |s| == 0 then 0
    else if ByteLeadingZeros(s[0]) < 8 then ByteLeadingZeros(s[0])
    else 8 + LeadingZeroBits(s[1..])
  }

  /**
   * `ConsensusHash::leading_zeros`: the byte loop that accumulates `count`
   * and breaks at the first byte that is not zero.
   */
  method LeadingZeros(h: ConsensusHash) returns (count: nat)
    ensures count == LeadingZeroBits(h.bytes)
    ensures count <= 256
  {
    var bytes := h.bytes;
    count := 0;
    var i := 0;
    while i < |bytes|
      invariant 0 <= i <= |bytes|
      invariant count == 8 * i
      invariant LeadingZeroBits(bytes) == count + LeadingZeroBits(bytes[i..])
    {
      var byteLeadingZeros := ByteLeadingZeros(bytes[i]);
      count := count + byteLeadingZeros;
      if byteLeadingZeros < 8 {
        break;
      }
      assert bytes[i..][1..] == bytes[i + 1..];
      i := i + 1;
    }
  }

  /**
   * The closed form: with k leading zero bytes, the count is 8k plus the
   * leading zeros of the byte at position k (if there is one).
   */
  lemma {:induction false} LeadingZeroBitsClosedForm(s: seq<Byte>, k: nat)
    requires k <= |s|
    requires forall j :: 0 <= j < k ==> s[j] == 0
    requires k < |s| ==> s[k] != 0
    ensures LeadingZeroBits(s) == 8 * k + (if k < |s| then ByteLeadingZeros(s[k]) else 0)
    ensures LeadingZeroBits(s) <= 8 * |s|
    decreases k
  {
    if k > 0 {
      LeadingZeroBitsClosedForm(s[1..], k - 1);
    }
  }

  /** The all-zero default hash has 256 leading zero bits, the maximum. */
  lemma DefaultHashLeadingZeros()
    ensures LeadingZeroBits(DefaultHash.bytes) == 256
  {
    LeadingZeroBitsClosedForm(DefaultHash.bytes, 32);
  }

  /** No hash has more than 256 leading zero bits. */
  lemma {:induction false} LeadingZeroBitsAtMost(s: seq<Byte>)
    ensures LeadingZeroBits(s) <= 8 * |s|
  {
    if |s| > 0 && ByteLeadingZeros(s[0]) == 8 {
      LeadingZeroBitsAtMost(s[1..]);
    }
  }

  /**
   * Counting leading zero bits and comparing numerically agree: a string of
   * n bytes has at least d leading zero bits exactly when its big-endian
   * value is below 2^(8n - d).
   */
  lemma {:induction false} LeadingZeroBitsBelow(s: seq<Byte>, d: nat)
    requires d <= 8 * |s|
    ensures LeadingZeroBits(s) >= d <==> BigEndian(s) < Pow2(8 * |s| - d)
    decreases |s|
  {
    if |s| > 0 {
      BigEndianBound(s[1..]);
      if s[0] == 0 {
        if d <= 8 {
          Pow2Monotone(8 * (|s| - 1), 8 * |s| - d);
        } else {
          LeadingZeroBitsBelow(s[1..], d - 8);
        }
      } else {
        LeadingByteDecides(s, d);
      }
    }
  }

  /** When the first byte is not zero, it alone decides the comparison. */
  lemma LeadingByteDecides(s: seq<Byte>, d: nat)
    requires 0 < |s| && s[0] != 0 && d <= 8 * |s|
    requires BigEndian(s[1..]) < Pow2(8 * (|s| - 1))
    ensures LeadingZeroBits(s) >= d <==> BigEndian(s) < Pow2(8 * |s| - d)
  {
    var k := 8 * (|s| - 1);
    var z := ByteLeadingZeros(s[0]);
    assert LeadingZeroBits(s) == z;
    assert BigEndian(s) == s[0] * Pow2(k) + BigEndian(s[1..]);
    assert 8 * |s| - d == 8 + k - d;
    if d <= z {
      TopByteSmall(s[0], z, k, BigEndian(s[1..]), d);
    } else {
      TopByteLarge(s[0], z, k, BigEndian(s[1..]), d);
    }
  }

  /** A top byte below 2^(8 - d) keeps the whole value below 2^(8 + k - d). */
  lemma TopByteSmall(b: nat, z: nat, k: nat, rest: nat, d: nat)
    requires z <= 8 && b < Pow2(8 - z) && rest < Pow2(k) && d <= z
    ensures b * Pow2(k) + rest < Pow2(8 + k - d)
  {
    var pk := Pow2(k);
    var top := Pow2(8 - d);
    Pow2Monotone(8 - z, 8 - d);
    assert b + 1 <= top;
    MulMonotone(b + 1, top, pk);
    assert (b + 1) * pk == b * pk + pk;
    Pow2Add(8 - d, k);
    assert 8 - d + k == 8 + k - d;
  }

  /** A top byte at least 2^(7 - z) lifts the value to 2^(8 + k - d) for any d > z. */
  lemma TopByteLarge(b: nat, z: nat, k: nat, rest: nat, d: nat)
    requires z < 8 && Pow2(7 - z) <= b && z < d <= 8 + k
    ensures Pow2(8 + k - d) <= b * Pow2(k) + rest
  {
    if d <= 8 {
      Pow2Monotone(8 - d, 7 - z);
      MulMonotone(Pow2(8 - d), b, Pow2(k));
      Pow2Add(8 - d, k);
    } else {
      MulMonotone(1, b, Pow2(k));
      Pow2Monotone(8 + k - d, k);
    }
  }

  /**
   * The mask equivalence the miner relies on: for d <= 256, a hash has at
   * least d leading zero bits exactly when its value is at most
   * `MAX >> d` = 2^(256 - d) - 1.
   */
  lemma LeadingZerosMatchMask(h: ConsensusHash, d: nat)
    requires d <= HashBits
    ensures LeadingZeroBits(h.bytes) >= d <==> HashValue(h) <= ShiftRight(MaxHashValue(), d)
  {
    LeadingZeroBitsBelow(h.bytes, d);
    ShiftRightAllOnes(HashBits, d);
  }

  // ---------------------------------------------------------------------
  // Conversions and the text form
  // ---------------------------------------------------------------------

  /** `TryFrom<Vec<u8>>`: exactly 32 bytes are kept as they are. */
  function FromBytes(v: seq<Byte>): (r: Result<ConsensusHash, ConsensusHashError>)
    ensures r.Ok? <==> |v| == HashLength
    ensures r.Ok? ==> r.value.bytes == v
    ensures r.Err? ==> r.error == InvalidLength
  {
    if |v| == HashLength then Ok(ConsensusHash(v)) else Err(InvalidLength)
  }

  /** The digit a value below 16 is written as (lowercase). */
  function LowerHexDigit(v: nat): (c: char)
    requires v < 16
    ensures IsLowerHexDigit(c)
  {
    if v < 10 then ('0' as int + v) as char else ('a' as int + v - 10) as char
  }

  /** One of `0`-`9`, `a`-`f`. */
  predicate IsLowerHexDigit(c: char)
  {
    '0' <= c <= '9' || 'a' <= c <= 'f'
  }

  /** The value of a base16 digit; both letter cases are accepted when decoding. */
  function HexDigitValue(c: char): (r: Option<nat>)
    ensures r.Some? ==> r.value < 16
  {
    if '0' <= c <= '9' then Some(c as int - '0' as int)
    else if 'a' <= c <= 'f' then Some(c as int - 'a' as int + 10)
    else if 'A' <= c <= 'F' then Some(c as int - 'A' as int + 10)
    else None
  }

  predicate IsHexDigit(c: char)
  {
    HexDigitValue(c).Some?
  }

  /** Well-formed base16 text: even length and only digits. */
  predicate IsHex(s: string)
  {
    |s| % 2 == 0 && forall i :: 0 <= i < |s| ==> IsHexDigit(s[i])
  }

  /** Decodes pairs of digits, high nibble first. */
  function DecodePairs(s: string): (r: Option<seq<Byte>>)
    requires |s| % 2 == 0
    ensures r.Some? ==> 2 * |r.value| == |s|
  {
    if |s| == 0 then Some([])
    else
      var hi := HexDigitValue(s[0]);
      var lo := HexDigitValue(s[1]);
      var rest := DecodePairs(s[2..]);
      if hi.Some? && lo.Some? && rest.Some? then
        Some([16 * hi.value + lo.value] + rest.value)
      else
        None
  }

  /** Pairs decode exactly when every character is a digit. */
  lemma {:induction false} DecodePairsDefined(s: string)
    requires |s| % 2 == 0
    ensures DecodePairs(s).Some? <==> forall i :: 0 <= i < |s| ==> IsHexDigit(s[i])
    decreases |s|
  {
    if |s| > 0 {
      DecodePairsDefined(s[2..]);
      assert forall i :: 2 <= i < |s| ==> s[i] == s[2..][i - 2];
    }
  }

  /** `hex::decode`: refuses text of odd length or with a character that is not a digit. */
  function HexDecode(s: string): (r: Option<seq<Byte>>)
    ensures r.Some? <==> IsHex(s)
    ensures r.Some? ==> 2 * |r.value| == |s|
  {
    if |s| % 2 != 0 then None else DecodePairsDefined(s); DecodePairs(s)
  }

  /** `hex::encode`: two lowercase digits per byte, in byte order. */
  function HexEncode(bytes: seq<Byte>): (s: string)
    ensures |s| == 2 * |bytes|
  {
    if |bytes| == 0 then ""
    else [LowerHexDigit(bytes[0] / 16), LowerHexDigit(bytes[0] % 16)] + HexEncode(bytes[1..])
  }

  /** Byte i is written as the two digits at positions 2i and 2i + 1, high nibble first. */
  lemma {:induction false} HexEncodeDigits(bytes: seq<Byte>)
    ensures forall i :: 0 <= i < |bytes| ==>
      HexEncode(bytes)[2 * i] == LowerHexDigit(bytes[i] / 16) &&
      HexEncode(bytes)[2 * i + 1] == LowerHexDigit(bytes[i] % 16)
  {
    if |bytes| > 0 {
      HexEncodeDigits(bytes[1..]);
      var s := HexEncode(bytes);
      var rest := HexEncode(bytes[1..]);
      assert s == [LowerHexDigit(bytes[0] / 16), LowerHexDigit(bytes[0] % 16)] + rest;
      forall i | 1 <= i < |bytes|
        ensures s[2 * i] == LowerHexDigit(bytes[i] / 16) && s[2 * i + 1] == LowerHexDigit(bytes[i] % 16)
      {
        assert bytes[i] == bytes[1..][i - 1];
        assert s[2 * i] == rest[2 * (i - 1)] && s[2 * i + 1] == rest[2 * (i - 1) + 1];
      }
    }
  }

  /** `Display` (and `From<ConsensusHash> for String`, which serde uses). */
  function ToString(h: ConsensusHash): string
  {
    HexEncode(h.bytes)
  }

  /** `TryFrom<String>` and `FromStr`: base16 first, then the length check. */
  function FromString(s: string): (r: Result<ConsensusHash, ConsensusHashError>)
  {
    match HexDecode(s)
    case None => Err(InvalidFormat)
    case Some(decoded) => FromBytes(decoded)
  }

  /** The text form is 64 lowercase digits, two per byte in byte order. */
  lemma ToStringShape(h: ConsensusHash)
    ensures |ToString(h)| == 64
    ensures forall i :: 0 <= i < 64 ==> IsLowerHexDigit(ToString(h)[i])
    ensures forall i :: 0 <= i < 32 ==>
      ToString(h)[2 * i] == LowerHexDigit(h.bytes[i] / 16) &&
      ToString(h)[2 * i + 1] == LowerHexDigit(h.bytes[i] % 16)
  {
    var s := ToString(h);
    HexEncodeDigits(h.bytes);
    forall i | 0 <= i < 64
      ensures IsLowerHexDigit(s[i])
    {
      var j := i / 2;
      if i == 2 * j {
        assert s[2 * j] == LowerHexDigit(h.bytes[j] / 16);
      } else {
        assert s[2 * j + 1] == LowerHexDigit(h.bytes[j] % 16);
      }
    }
  }

  /** What `FromString` answers, case by case. */
  lemma FromStringOutcome(s: string)
    ensures FromString(s) == Err(InvalidFormat) <==> !IsHex(s)
    ensures FromString(s) == Err(InvalidLength) <==> IsHex(s) && |s| != 2 * HashLength
    ensures FromString(s).Ok? <==> IsHex(s) && |s| == 2 * HashLength
    ensures FromString(s).Ok? ==> FromString(s).value.bytes == HexDecode(s).value
  {
  }

  /** Decoding undoes encoding. */
  lemma {:induction false} DecodeEncode(bytes: seq<Byte>)
    ensures HexDecode(HexEncode(bytes)) == Some(bytes)
  {
    if |bytes| > 0 {
      var b := bytes[0];
      var rest := HexEncode(bytes[1..]);
      assert HexEncode(bytes) == [LowerHexDigit(b / 16), LowerHexDigit(b % 16)] + rest;
      DecodeEncode(bytes[1..]);
      ByteRoundTrip(b);
      DecodePairsCons(LowerHexDigit(b / 16), LowerHexDigit(b % 16), rest);
      var decoded := HexDecode(HexEncode(bytes)).value;
      assert decoded == [decoded[0]] + decoded[1..];
      assert bytes == [b] + bytes[1..];
    }
  }

  /** Decoding text that starts with two digits: their byte, then the rest decoded. */
  lemma DecodePairsCons(x: char, y: char, rest: string)
    requires |rest| % 2 == 0
    requires HexDigitValue(x).Some? && HexDigitValue(y).Some? && DecodePairs(rest).Some?
    ensures DecodePairs([x, y] + rest).Some?
    ensures DecodePairs([x, y] + rest).value[0] == 16 * HexDigitValue(x).value + HexDigitValue(y).value
    ensures DecodePairs([x, y] + rest).value[1..] == DecodePairs(rest).value
  {
    var s := [x, y] + rest;
    assert s[0] == x && s[1] == y && s[2..] == rest;
  }


  lemma DigitRoundTrip(v: nat)
    requires v < 16
    ensures HexDigitValue(LowerHexDigit(v)) == Some(v)
  {
  }

  /** A lowercase digit is the one written for its own value. */
  lemma DigitCanonical(c: char)
    requires IsLowerHexDigit(c)
    ensures HexDigitValue(c).Some? && LowerHexDigit(HexDigitValue(c).value) == c
  {
  }

  /** The two digits written for a byte read back as that byte. */
  lemma ByteRoundTrip(b: Byte)
    ensures HexDigitValue(LowerHexDigit(b / 16)) == Some(b / 16)
    ensures HexDigitValue(LowerHexDigit(b % 16)) == Some(b % 16)
    ensures 16 * (b / 16) + b % 16 == b
  {
    DigitRoundTrip(b / 16);
    DigitRoundTrip(b % 16);
  }

  /** Lowercase base16 text of even length. */
  predicate IsLowerHex(s: string)
  {
    |s| % 2 == 0 && forall i :: 0 <= i < |s| ==> IsLowerHexDigit(s[i])
  }

  /** Encoding undoes decoding for lowercase text: the lowercase form is canonical. */
  lemma {:induction false} EncodeDecode(s: string)
    requires IsLowerHex(s)
    ensures HexDecode(s).Some? && HexEncode(HexDecode(s).value) == s
    decreases |s|
  {
    if |s| > 0 {
      assert IsLowerHex(s[2..]) by {
        forall i | 0 <= i < |s[2..]| ensures IsLowerHexDigit(s[2..][i]) {
          assert s[2..][i] == s[i + 2];
        }
      }
      EncodeDecode(s[2..]);
      DigitCanonical(s[0]);
      DigitCanonical(s[1]);
      var hi := HexDigitValue(s[0]).value;
      var lo := HexDigitValue(s[1]).value;
      assert (16 * hi + lo) / 16 == hi && (16 * hi + lo) % 16 == lo;
      assert s == [s[0], s[1]] + s[2..];
    }
  }

  /** `from_str(h.to_string()) == Ok(h)`; serde's string form is this same text. */
  lemma RoundTrip(h: ConsensusHash)
    ensures FromString(ToString(h)) == Ok(h)
  {
    DecodeEncode(h.bytes);
  }

  /** And in the other direction, 64 lowercase digits survive parsing and printing. */
  lemma RoundTripText(s: string)
    requires IsLowerHex(s) && |s| == 2 * HashLength
    ensures FromString(s).Ok? && ToString(FromString(s).value) == s
  {
    EncodeDecode(s);
  }
}
