/** The wire form of a signer bitmap (monad-bls/src/aggregation_tree.rs:279-333): a bit count
    and big-endian bytes, the last signer in the lowest bit of the last byte.  The RLP framing
    around the two fields belongs to the alloy_rlp library and is not modelled. */
module SignerMaps {
  import opened BlsTree

  datatype Wire = Wire(numBits: nat, bytes: seq<bv8>)

  datatype Decoded = Bits(bits: seq<bool>) | TooManySigners | WrongByteCount

  function DivCeil8(n: nat): nat { (n + 7) / 8 }

  /** Bit `m` of a byte, counted from the lowest. */
  predicate Bit(b: bv8, m: nat)
    requires m < 8
  {
    (b >> m) & 1 == 1
  }

  lemma SetOneBit(b: bv8, m: nat, j: nat)
    requires m < 8 && j < 8
    ensures Bit(b | (1 << m), j) == (Bit(b, j) || j == m)
  {
    var one: bv8 := 1;
    assert one << 0 == 1 && one << 1 == 2 && one << 2 == 4 && one << 3 == 8;
    assert one << 4 == 16 && one << 5 == 32 && one << 6 == 64 && one << 7 == 128;
  }

  lemma SameBitsSameByte(a: bv8, b: bv8)
    requires forall m :: 0 <= m < 8 ==> Bit(a, m) == Bit(b, m)
    ensures a == b
  {
    assert Bit(a, 0) == Bit(b, 0) && Bit(a, 1) == Bit(b, 1) && Bit(a, 2) == Bit(b, 2) && Bit(a, 3) == Bit(b, 3);
    assert Bit(a, 4) == Bit(b, 4) && Bit(a, 5) == Bit(b, 5) && Bit(a, 6) == Bit(b, 6) && Bit(a, 7) == Bit(b, 7);
  }

  /** Bit `k` of the byte string, counted from the lowest bit of the last byte. */
  predicate BitFromBack(bytes: seq<bv8>, k: nat)
    requires k < 8 * |bytes|
  {
    Bit(bytes[|bytes| - 1 - k / 8], k % 8)
  }

  /** The bits of `bits` from the back, then zero padding. */
  ghost predicate Holds(bytes: seq<bv8>, bits: seq<bool>) {
    && |bytes| == DivCeil8(|bits|)
    && forall k :: 0 <= k < 8 * |bytes| ==> BitFromBack(bytes, k) == (k < |bits| && bits[|bits| - 1 - k])
  }

  lemma SetBitFromBack(bytes: seq<bv8>, k: nat, j: nat)
    requires k < 8 * |bytes| && j < 8 * |bytes|
    ensures var at := |bytes| - 1 - k / 8;
            BitFromBack(bytes[at := bytes[at] | (1 << (k % 8))], j) == (BitFromBack(bytes, j) || j == k)
  {
    if j / 8 == k / 8 {
      SetOneBit(bytes[|bytes| - 1 - k / 8], k % 8, j % 8);
    }
  }

  /** The bit count is cast to 32 bits; the bytes hold the bitmap from the back. */
  method Encode(bits: seq<bool>) returns (w: Wire)
    ensures w.numBits == |bits| % 0x1_0000_0000
    ensures Holds(w.bytes, bits)
  {
    var numBytes := DivCeil8(|bits|);
    var buf: seq<bv8> := seq(numBytes, _ => 0);
    for k := 0 to |bits|
      invariant |buf| == numBytes
      invariant forall j :: 0 <= j < 8 * numBytes ==> BitFromBack(buf, j) == (j < k && bits[|bits| - 1 - j])
    {
      if bits[|bits| - 1 - k] {
        var at := numBytes - 1 - k / 8;
        ghost var before := buf;
        buf := buf[at := buf[at] | (1 << (k % 8))];
        forall j | 0 <= j < 8 * numBytes
          ensures BitFromBack(buf, j) == (j < k + 1 && bits[|bits| - 1 - j])
        {
          SetBitFromBack(before, k, j);
        }
      }
    }
    w := Wire(|bits| % 0x1_0000_0000, buf);
  }

  function DecodeBits(w: Wire): Decoded {
    if w.numBits > MAX_SIGNERS_LEN then TooManySigners
    else if |w.bytes| != DivCeil8(w.numBits) then WrongByteCount
    else Bits(seq(w.numBits, i requires 0 <= i < w.numBits => BitFromBack(w.bytes, w.numBits - 1 - i)))
  }

  /** Pushes the bits from the back and reverses at the end. */
  method Decode(w: Wire) returns (r: Decoded)
    ensures r == DecodeBits(w)
  {
    if w.numBits > MAX_SIGNERS_LEN {
      return TooManySigners;
    }
    if |w.bytes| != DivCeil8(w.numBits) {
      return WrongByteCount;
    }
    var bitvec: seq<bool> := [];
    while |bitvec| < w.numBits
      invariant |bitvec| <= w.numBits
      invariant forall k :: 0 <= k < |bitvec| ==> bitvec[k] == BitFromBack(w.bytes, k)
      decreases w.numBits - |bitvec|
    {
      var byte := w.bytes[|w.bytes| - 1 - |bitvec| / 8];
      bitvec := bitvec + [(byte >> (|bitvec| % 8)) & 1 == 1];
    }
    r := Bits(seq(|bitvec|, i requires 0 <= i < |bitvec| => bitvec[|bitvec| - 1 - i]));
    assert r.bits == DecodeBits(w).bits;
  }

  /** Every bitmap within the signer limit is read back unchanged, whatever its length modulo
      eight, and a longer one is refused. */
  lemma DecodeOfEncode(bits: seq<bool>, w: Wire)
    requires w.numBits == |bits| % 0x1_0000_0000 && Holds(w.bytes, bits)
    ensures if |bits| <= MAX_SIGNERS_LEN then DecodeBits(w) == Bits(bits)
            else DecodeBits(w) == TooManySigners || DecodeBits(w) == WrongByteCount
  {
    if |bits| <= MAX_SIGNERS_LEN {
      assert DecodeBits(w).bits == bits;
    }
  }

  /** Accepted bytes are the encoding of what they decode to exactly when the padding is zero. */
  lemma EncodeOfDecodeIff(w: Wire)
    requires DecodeBits(w).Bits?
    ensures Holds(w.bytes, DecodeBits(w).bits) <==>
            forall k :: w.numBits <= k < 8 * |w.bytes| ==> !BitFromBack(w.bytes, k)
  {
    var bits := DecodeBits(w).bits;
    forall k | 0 <= k < w.numBits
      ensures BitFromBack(w.bytes, k) == bits[|bits| - 1 - k]
    {
    }
  }

  /** Two wire forms of the one-signer bitmap with nobody set: the first has a padding bit, is
      accepted all the same, and is not what encoding gives back. */
  lemma PaddingIsIgnored()
    ensures DecodeBits(Wire(1, [2])) == DecodeBits(Wire(1, [0])) == Bits([false])
    ensures !Holds([2], [false]) && Holds([0], [false])
  {
    var padded: bv8, clear: bv8 := 2, 0;
    assert !Bit(padded, 0) && Bit(padded, 1);
    assert forall m :: 0 <= m < 8 ==> !Bit(clear, m);
    assert BitFromBack([padded], 1) && !BitFromBack([padded], 0) && !BitFromBack([clear], 0);
    assert DecodeBits(Wire(1, [2])).bits == [false] && DecodeBits(Wire(1, [0])).bits == [false];
  }

  /** The bytes of a bitmap are unique. */
  lemma EncodingIsUnique(a: seq<bv8>, b: seq<bv8>, bits: seq<bool>)
    requires Holds(a, bits) && Holds(b, bits)
    ensures a == b
  {
    forall i | 0 <= i < |a|
      ensures a[i] == b[i]
    {
      forall m | 0 <= m < 8
        ensures Bit(a[i], m) == Bit(b[i], m)
      {
        var k := 8 * (|a| - 1 - i) + m;
        assert k / 8 == |a| - 1 - i && k % 8 == m;
        assert BitFromBack(a, k) == BitFromBack(b, k);
      }
      SameBitsSameByte(a[i], b[i]);
    }
  }

  // ----- The format as a number -----

  /** The bits read as a binary number, the first signer the highest digit. */
  function BinaryNumber(bits: seq<bool>): nat {
    if bits == [] then 0
    else 2 * BinaryNumber(bits[..|bits| - 1]) + if bits[|bits| - 1] then 1 else 0
  }

  /** The bytes read as a big-endian number. */
  function BigEndianNumber(bytes: seq<bv8>): nat {
    if bytes == [] then 0
    else 256 * BigEndianNumber(bytes[..|bytes| - 1]) + bytes[|bytes| - 1] as nat
  }

  function OneIf(b: bool): nat { if b then 1 else 0 }

  /** Eight binary digits, the lowest first. */
  function EightDigits(d0: bool, d1: bool, d2: bool, d3: bool, d4: bool, d5: bool, d6: bool, d7: bool): nat {
    OneIf(d0) + 2 * OneIf(d1) + 4 * OneIf(d2) + 8 * OneIf(d3)
    + 16 * OneIf(d4) + 32 * OneIf(d5) + 64 * OneIf(d6) + 128 * OneIf(d7)
  }

  lemma ByteIsItsBits(b: bv8)
    ensures b as nat == EightDigits(Bit(b, 0), Bit(b, 1), Bit(b, 2), Bit(b, 3), Bit(b, 4), Bit(b, 5), Bit(b, 6), Bit(b, 7))
  {
  }

  /** Digit `m` of the bitmap from the back, zero beyond its length. */
  predicate Digit(bits: seq<bool>, m: nat) {
    m < |bits| && bits[|bits| - 1 - m]
  }

  function WithoutLast(bits: seq<bool>, m: nat): seq<bool> {
    if m <= |bits| then bits[..|bits| - m] else []
  }

  lemma LastDigit(bits: seq<bool>, m: nat)
    ensures BinaryNumber(WithoutLast(bits, m)) == 2 * BinaryNumber(WithoutLast(bits, m + 1)) + OneIf(Digit(bits, m))
  {
    var front := WithoutLast(bits, m);
    if m < |bits| {
      assert front[..|front| - 1] == WithoutLast(bits, m + 1);
    }
  }

  lemma TwoDigits(bits: seq<bool>, m: nat)
    ensures BinaryNumber(WithoutLast(bits, m)) ==
            4 * BinaryNumber(WithoutLast(bits, m + 2)) + 2 * OneIf(Digit(bits, m + 1)) + OneIf(Digit(bits, m))
  {
    LastDigit(bits, m);
    LastDigit(bits, m + 1);
  }

  lemma FourDigits(bits: seq<bool>, m: nat)
    ensures BinaryNumber(WithoutLast(bits, m)) ==
            16 * BinaryNumber(WithoutLast(bits, m + 4)) + 8 * OneIf(Digit(bits, m + 3)) + 4 * OneIf(Digit(bits, m + 2))
            + 2 * OneIf(Digit(bits, m + 1)) + OneIf(Digit(bits, m))
  {
    TwoDigits(bits, m);
    TwoDigits(bits, m + 2);
  }

  function LowDigits(bits: seq<bool>): nat {
    EightDigits(Digit(bits, 0), Digit(bits, 1), Digit(bits, 2), Digit(bits, 3),
                Digit(bits, 4), Digit(bits, 5), Digit(bits, 6), Digit(bits, 7))
  }

  lemma LastEightDigits(bits: seq<bool>)
    ensures BinaryNumber(bits) == 256 * BinaryNumber(WithoutLast(bits, 8)) + LowDigits(bits)
  {
    assert WithoutLast(bits, 0) == bits;
    FourDigits(bits, 0);
    FourDigits(bits, 4);
  }

  lemma LastByteHolds(bytes: seq<bv8>, bits: seq<bool>)
    requires Holds(bytes, bits) && bits != []
    ensures |bytes| > 0 && Holds(bytes[..|bytes| - 1], WithoutLast(bits, 8))
    ensures forall m :: 0 <= m < 8 ==> Bit(bytes[|bytes| - 1], m) == Digit(bits, m)
  {
    var n := |bytes| - 1;
    var front, less := bytes[..n], WithoutLast(bits, 8);
    forall k | 0 <= k < 8 * n
      ensures BitFromBack(front, k) == (k < |less| && less[|less| - 1 - k])
    {
      assert BitFromBack(front, k) == BitFromBack(bytes, k + 8);
    }
    forall m | 0 <= m < 8
      ensures Bit(bytes[n], m) == Digit(bits, m)
    {
      assert Bit(bytes[n], m) == BitFromBack(bytes, m);
    }
  }

  lemma LastByteIsLowDigits(bytes: seq<bv8>, bits: seq<bool>)
    requires Holds(bytes, bits) && bits != []
    ensures |bytes| > 0 && bytes[|bytes| - 1] as nat == LowDigits(bits)
  {
    LastByteHolds(bytes, bits);
    ByteIsItsBits(bytes[|bytes| - 1]);
  }

  /** The encoding is the bitmap as a big-endian number: the first signer is the highest bit. */
  lemma {:induction false} EncodingIsTheNumber(bytes: seq<bv8>, bits: seq<bool>)
    requires Holds(bytes, bits)
    ensures BigEndianNumber(bytes) == BinaryNumber(bits)
    decreases |bits|
  {
    if bits != [] {
      LastByteHolds(bytes, bits);
      EncodingIsTheNumber(bytes[..|bytes| - 1], WithoutLast(bits, 8));
      LastEightDigits(bits);
      LastByteIsLowDigits(bytes, bits);
    }
  }
}
