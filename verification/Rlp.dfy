/** Recursive length prefix encoding, as in Appendix B of the Ethereum Yellow Paper. */
module Rlp {

  type byte = x: int | 0 <= x < 256

  const USIZE_LIMIT: nat := 0x1_0000_0000_0000_0000

  datatype Item = Str(bytes: seq<byte>) | Lst(items: seq<Item>)

  // ----- Big-endian lengths -----

  /** The shortest big-endian form of a positive number. */
  function BigEndian(n: nat): (r: seq<byte>)
    ensures |r| > 0
  {
    if n < 256 then [n] else BigEndian(n / 256) + [n % 256]
  }

  function Uint(bytes: seq<byte>): nat {
    if bytes == [] then 0 else Uint(bytes[..|bytes| - 1]) * 256 + bytes[|bytes| - 1]
  }

  function Pow256(k: nat): nat {
    if k == 0 then 1 else 256 * Pow256(k - 1)
  }

  lemma {:induction false} UintOfBigEndian(n: nat)
    ensures Uint(BigEndian(n)) == n
    ensures n > 0 ==> BigEndian(n)[0] != 0
  {
    var r := BigEndian(n);
    if n < 256 {
      assert r[..0] == [];
      assert Uint(r[..0]) == 0;
    } else {
      UintOfBigEndian(n / 256);
      assert r[..|r| - 1] == BigEndian(n / 256);
    }
  }

  lemma {:induction false} BigEndianIsShort(n: nat, k: nat)
    requires k > 0 && n < Pow256(k)
    ensures |BigEndian(n)| <= k
    decreases k
  {
    if n >= 256 {
      assert Pow256(1) == 256;
      BigEndianIsShort(n / 256, k - 1);
    }
  }

  lemma LengthFitsEightBytes(n: nat)
    requires n < USIZE_LIMIT
    ensures |BigEndian(n)| <= 8
  {
    assert Pow256(8) == USIZE_LIMIT by {
      assert Pow256(2) == 65536;
      assert Pow256(4) == 256 * (256 * Pow256(2));
      assert Pow256(6) == 256 * (256 * Pow256(4));
      assert Pow256(8) == 256 * (256 * Pow256(6));
    }
    BigEndianIsShort(n, 8);
  }

  // ----- Encoding -----

  function PrefixLength(n: nat): nat {
    if n < 56 then 1 else 1 + |BigEndian(n)|
  }

  /** `offset` is 0x80 for strings and 0xc0 for lists. */
  function Prefix(offset: int, n: nat): (r: seq<byte>)
    requires (offset == 0x80 || offset == 0xc0) && n < USIZE_LIMIT
    ensures |r| == PrefixLength(n)
  {
    LengthFitsEightBytes(n);
    if n < 56 then [offset + n] else [offset + 55 + |BigEndian(n)|] + BigEndian(n)
  }

  predicate SelfEncoded(s: seq<byte>) {
    |s| == 1 && s[0] < 0x80
  }

  /** The length of an encoding. */
  function Length(x: Item): nat
    decreases x, 0, 0
  {
    match x
    case Str(s) => if SelfEncoded(s) then 1 else PrefixLength(|s|) + |s|
    case Lst(items) => PrefixLength(TotalLength(items)) + TotalLength(items)
  }

  /** Where item `i` starts when the items are laid end to end. */
  function Offset(items: seq<Item>, i: nat): nat
    requires i <= |items|
    decreases items, 1, i
  {
    if i == 0 then 0 else Offset(items, i - 1) + Length(items[i - 1])
  }

  function TotalLength(items: seq<Item>): nat
    decreases items, 2, 0
  {
    Offset(items, |items|)
  }

  /** What the prefix counts: the bytes after it, or the byte itself. */
  function ContentLength(x: Item): nat {
    match x case Str(s) => |s| case Lst(items) => TotalLength(items)
  }

  predicate Encodable(x: Item) {
    match x
    case Str(s) => |s| < USIZE_LIMIT
    case Lst(items) => TotalLength(items) < USIZE_LIMIT && forall i :: 0 <= i < |items| ==> Encodable(items[i])
  }

  predicate AllEncodable(items: seq<Item>) {
    forall i :: 0 <= i < |items| ==> Encodable(items[i])
  }

  function Encode(x: Item): (r: seq<byte>)
    requires Encodable(x)
    ensures |r| == Length(x)
    decreases x, 0, 0
  {
    match x
    case Str(s) => if SelfEncoded(s) then s else Prefix(0x80, |s|) + s
    case Lst(items) => Prefix(0xc0, TotalLength(items)) + EncodeUpTo(items, |items|)
  }

  /** The first `n` items laid end to end. */
  function EncodeUpTo(items: seq<Item>, n: nat): (r: seq<byte>)
    requires n <= |items| && AllEncodable(items)
    ensures |r| == Offset(items, n)
    decreases items, 1, n
  {
    if n == 0 then [] else EncodeUpTo(items, n - 1) + Encode(items[n - 1])
  }

  lemma PositiveLength(x: Item)
    ensures Length(x) > 0 && Length(x) >= ContentLength(x)
  {
  }

  lemma {:induction false} OffsetsGrow(items: seq<Item>, i: nat, n: nat)
    requires i <= n <= |items|
    ensures Offset(items, i) <= Offset(items, n)
    ensures i < n ==> Offset(items, i) < Offset(items, n)
    decreases n
  {
    if i < n {
      OffsetsGrow(items, i, n - 1);
      PositiveLength(items[n - 1]);
    }
  }

  lemma SliceOfConcat(x: seq<byte>, y: seq<byte>, a: nat, b: nat)
    requires a <= b <= |x|
    ensures (x + y)[a..b] == x[a..b]
  {
  }

  /** Item `i` sits right after the items before it. */
  lemma {:induction false} ItemAt(items: seq<Item>, i: nat, n: nat)
    requires AllEncodable(items) && i < n <= |items|
    ensures Offset(items, i) <= Offset(items, i + 1) <= Offset(items, n)
    ensures EncodeUpTo(items, n)[Offset(items, i)..Offset(items, i + 1)] == Encode(items[i])
    decreases n
  {
    OffsetsGrow(items, i + 1, n);
    var x, y := EncodeUpTo(items, n - 1), Encode(items[n - 1]);
    if i == n - 1 {
      assert (x + y)[|x|..|x| + |y|] == y;
    } else {
      ItemAt(items, i, n - 1);
      SliceOfConcat(x, y, Offset(items, i), Offset(items, i + 1));
    }
  }
}
