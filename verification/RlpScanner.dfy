/** Locating items inside RLP data without decoding them
    (monad-archive/src/rlp_offset_scanner.rs).  Inputs are well-formed encodings; on anything
    else the source may index out of bounds. */
module RlpScanner {
  import opened Collections
  import opened Rlp

  /** The content length announced by a prefix and the length of the whole item. */
  datatype Lengths = Lengths(content: nat, total: nat)

  datatype Range = Range(start: nat, end: nat)

  // ----- decode_uint -----

  function UintResult(bytes: seq<byte>): Option<nat> {
    if bytes == [] || (bytes[0] == 0 && |bytes| > 1) || Uint(bytes) >= USIZE_LIMIT then None else Some(Uint(bytes))
  }

  lemma {:induction false} UintGrows(bytes: seq<byte>, i: nat)
    requires i <= |bytes|
    ensures Uint(bytes[..i]) <= Uint(bytes)
    decreases |bytes|
  {
    if i == |bytes| {
      assert bytes[..i] == bytes;
    } else {
      UintGrows(bytes[..|bytes| - 1], i);
      assert bytes[..|bytes| - 1][..i] == bytes[..i];
    }
  }

  /** Checking every partial product and sum refuses exactly the numbers that do not fit. */
  method DecodeUint(bytes: seq<byte>) returns (r: Option<nat>)
    ensures r == UintResult(bytes)
  {
    if bytes == [] {
      return None;
    }
    if bytes[0] == 0 && |bytes| > 1 {
      return None;
    }
    var result := 0;
    for i := 0 to |bytes|
      invariant result == Uint(bytes[..i]) < USIZE_LIMIT
    {
      assert bytes[..i + 1][..i] == bytes[..i];
      UintGrows(bytes, i + 1);
      if result * 256 >= USIZE_LIMIT {
        return None;
      }
      result := result * 256;
      if result + bytes[i] >= USIZE_LIMIT {
        return None;
      }
      result := result + bytes[i];
    }
    assert bytes[..|bytes|] == bytes;
    r := Some(result);
  }

  // ----- decode_length -----

  function LongLengths(rest: seq<byte>, lengthOfLength: nat): Option<Lengths> {
    if |rest| < 1 + lengthOfLength then None
    else
      var length := UintResult(rest[1..1 + lengthOfLength]);
      if length.None? then None else Some(Lengths(length.value, 1 + lengthOfLength + length.value))
  }

  function LengthsAt(data: seq<byte>, position: nat): Option<Lengths>
    requires position <= |data|
  {
    var rest := data[position..];
    if rest == [] then None
    else
      var first := rest[0];
      if first <= 0x7f then Some(Lengths(1, 1))
      else if first <= 0xb7 then Some(Lengths(first - 0x80, first - 0x80 + 1))
      else if first <= 0xbf then LongLengths(rest, first - 0xb7)
      else if first <= 0xf7 then Some(Lengths(first - 0xc0, first - 0xc0 + 1))
      else LongLengths(rest, first - 0xf7)
  }

  method DecodeLength(data: seq<byte>, position: nat) returns (r: Option<Lengths>)
    requires position <= |data|
    ensures r == LengthsAt(data, position)
  {
    var remaining := data[position..];
    if remaining == [] {
      return None;
    }
    var first := remaining[0];
    if first <= 0x7f {
      r := Some(Lengths(1, 1));
    } else if first <= 0xb7 {
      var length := first - 0x80;
      r := Some(Lengths(length, length + 1));
    } else if first <= 0xbf {
      r := DecodeLongLength(remaining, first - 0xb7);
    } else if first <= 0xf7 {
      var length := first - 0xc0;
      r := Some(Lengths(length, length + 1));
    } else {
      r := DecodeLongLength(remaining, first - 0xf7);
    }
  }

  method DecodeLongLength(remaining: seq<byte>, lengthOfLength: nat) returns (r: Option<Lengths>)
    ensures r == LongLengths(remaining, lengthOfLength)
  {
    if |remaining| < 1 + lengthOfLength {
      return None;
    }
    var length := DecodeUint(remaining[1..1 + lengthOfLength]);
    if length.None? {
      return None;
    }
    r := Some(Lengths(length.value, 1 + lengthOfLength + length.value));
  }

  /** `x` is encoded at `position`. */
  ghost predicate EncodedAt(data: seq<byte>, position: nat, x: Item) {
    Encodable(x) && position + Length(x) <= |data| && data[position..position + Length(x)] == Encode(x)
  }

  ghost predicate AllEncodedAt(data: seq<byte>, position: nat, items: seq<Item>) {
    && AllEncodable(items) && position + TotalLength(items) <= |data|
    && data[position..position + TotalLength(items)] == EncodeUpTo(items, |items|)
  }

  lemma SubSlice(data: seq<byte>, position: nat, n: nat, a: nat, b: nat)
    requires a <= b <= n && position + n <= |data|
    ensures data[position + a..position + b] == data[position..position + n][a..b]
  {
    var part := data[position..position + n];
    assert forall k :: 0 <= k < b - a ==> data[position + a..position + b][k] == part[a..b][k];
  }

  lemma LongPrefixRead(rest: seq<byte>, offset: int, n: nat)
    requires (offset == 0x80 || offset == 0xc0) && 56 <= n < USIZE_LIMIT
    requires |rest| >= PrefixLength(n) && rest[..PrefixLength(n)] == Prefix(offset, n)
    ensures LongLengths(rest, |BigEndian(n)|) == Some(Lengths(n, PrefixLength(n) + n))
    ensures rest[0] == offset + 55 + |BigEndian(n)| && |BigEndian(n)| <= 8
  {
    LengthFitsEightBytes(n);
    var k := |BigEndian(n)|;
    assert rest[0] == Prefix(offset, n)[0];
    assert rest[1..1 + k] == rest[..1 + k][1..] == BigEndian(n);
    UintOfBigEndian(n);
  }

  lemma ShortPrefixRead(rest: seq<byte>, offset: int, n: nat)
    requires (offset == 0x80 || offset == 0xc0) && n < 56
    requires |rest| >= 1 && rest[..1] == Prefix(offset, n)
    ensures rest[0] == offset + n
  {
    assert rest[0] == rest[..1][0];
  }

  /** A prefix followed by that many bytes is read back as the two lengths. */
  lemma PrefixRead(data: seq<byte>, position: nat, offset: int, n: nat)
    requires (offset == 0x80 || offset == 0xc0) && n < USIZE_LIMIT
    requires position + PrefixLength(n) <= |data|
    requires data[position..position + PrefixLength(n)] == Prefix(offset, n)
    ensures LengthsAt(data, position) == Some(Lengths(n, PrefixLength(n) + n))
  {
    var rest := data[position..];
    assert rest[..PrefixLength(n)] == data[position..position + PrefixLength(n)];
    if n < 56 {
      ShortPrefixRead(rest, offset, n);
    } else {
      LongPrefixRead(rest, offset, n);
    }
  }

  lemma TakeOfConcat(data: seq<byte>, position: nat, a: seq<byte>, b: seq<byte>)
    requires position + |a| + |b| <= |data| && data[position..position + |a| + |b|] == a + b
    ensures data[position..position + |a|] == a && data[position + |a|..position + |a| + |b|] == b
  {
    SubSlice(data, position, |a| + |b|, 0, |a|);
    SubSlice(data, position, |a| + |b|, |a|, |a| + |b|);
    assert (a + b)[0..|a|] == a && (a + b)[|a|..|a| + |b|] == b;
  }

  lemma LengthsOfStr(data: seq<byte>, position: nat, s: seq<byte>)
    requires EncodedAt(data, position, Str(s))
    ensures LengthsAt(data, position) == Some(Lengths(|s|, Length(Str(s))))
  {
    if SelfEncoded(s) {
      assert data[position] == data[position..position + 1][0] == s[0];
    } else {
      TakeOfConcat(data, position, Prefix(0x80, |s|), s);
      PrefixRead(data, position, 0x80, |s|);
    }
  }

  lemma LengthsOfList(data: seq<byte>, position: nat, items: seq<Item>)
    requires EncodedAt(data, position, Lst(items))
    ensures LengthsAt(data, position) == Some(Lengths(TotalLength(items), PrefixLength(TotalLength(items)) + TotalLength(items)))
  {
    TakeOfConcat(data, position, Prefix(0xc0, TotalLength(items)), EncodeUpTo(items, |items|));
    PrefixRead(data, position, 0xc0, TotalLength(items));
  }

  /** At the start of any item the scanner reads its true lengths. */
  lemma LengthsOfItem(data: seq<byte>, position: nat, x: Item)
    requires EncodedAt(data, position, x)
    ensures LengthsAt(data, position) == Some(Lengths(ContentLength(x), Length(x)))
  {
    match x
    case Str(s) => LengthsOfStr(data, position, s);
    case Lst(items) => LengthsOfList(data, position, items);
  }

  /** The content of a list is its items laid end to end. */
  lemma ListContent(data: seq<byte>, position: nat, items: seq<Item>)
    requires EncodedAt(data, position, Lst(items))
    ensures AllEncodedAt(data, position + PrefixLength(TotalLength(items)), items)
  {
    TakeOfConcat(data, position, Prefix(0xc0, TotalLength(items)), EncodeUpTo(items, |items|));
  }

  lemma ItemInside(data: seq<byte>, position: nat, items: seq<Item>, i: nat)
    requires AllEncodedAt(data, position, items) && i < |items|
    ensures EncodedAt(data, position + Offset(items, i), items[i])
    ensures Offset(items, i + 1) == Offset(items, i) + Length(items[i]) <= TotalLength(items)
  {
    ItemAt(items, i, |items|);
    SubSlice(data, position, TotalLength(items), Offset(items, i), Offset(items, i + 1));
  }

  // ----- Ranges of list items -----

  /** Where the items of a list lie, if the first starts at `start`. */
  function ItemRanges(start: nat, items: seq<Item>): (r: seq<Range>)
    ensures |r| == |items|
    ensures forall i :: 0 <= i < |r| ==> r[i] == Range(start + Offset(items, i), start + Offset(items, i + 1))
  {
    seq(|items|, i requires 0 <= i < |items| => Range(start + Offset(items, i), start + Offset(items, i + 1)))
  }

  /** The range slices to exactly the item's encoding. */
  ghost predicate Locates(data: seq<byte>, r: Range, x: Item) {
    Encodable(x) && r.start < r.end <= |data| && data[r.start..r.end] == Encode(x)
  }

  predicate Adjoins(r: seq<Range>, i: nat)
    requires 0 < i < |r|
  {
    r[i].start == r[i - 1].end
  }

  predicate Spans(r: seq<Range>, start: nat, end: nat) {
    r != [] ==> r[0].start == start && r[|r| - 1].end == end
  }

  lemma LocatesItem(data: seq<byte>, start: nat, items: seq<Item>, i: nat)
    requires AllEncodedAt(data, start, items) && i < |items|
    ensures Locates(data, ItemRanges(start, items)[i], items[i])
  {
    ItemInside(data, start, items, i);
    PositiveLength(items[i]);
  }

  lemma RangesAdjoin(start: nat, items: seq<Item>, i: nat)
    requires 0 < i < |items|
    ensures Adjoins(ItemRanges(start, items), i)
  {
  }

  lemma RangesSpan(start: nat, items: seq<Item>)
    ensures Spans(ItemRanges(start, items), start, start + TotalLength(items))
  {
  }

  /** One range per item, each slicing to exactly that item's encoding, end to end from the start
      of the content to its end. */
  lemma RangesCoverContent(data: seq<byte>, start: nat, items: seq<Item>)
    requires AllEncodedAt(data, start, items)
    ensures var r := ItemRanges(start, items);
            && |r| == |items|
            && (forall i :: 0 <= i < |r| ==> Locates(data, r[i], items[i]))
            && (forall i :: 0 < i < |r| ==> Adjoins(r, i))
            && Spans(r, start, start + TotalLength(items))
  {
    var r := ItemRanges(start, items);
    forall i | 0 <= i < |r|
      ensures Locates(data, r[i], items[i])
    {
      LocatesItem(data, start, items, i);
    }
    forall i | 0 < i < |r|
      ensures Adjoins(r, i)
    {
      RangesAdjoin(start, items, i);
    }
    RangesSpan(start, items);
  }

  /** The loop shared by both entry points: step from item to item up to the end of the list. */
  method ScanItems(data: seq<byte>, start: nat, end: nat, ghost items: seq<Item>) returns (r: Option<seq<Range>>)
    requires AllEncodedAt(data, start, items) && end == start + TotalLength(items)
    ensures r == Some(ItemRanges(start, items))
  {
    var ranges: seq<Range> := [];
    var position := start;
    while position < end
      invariant Scanned(start, items, ranges, position)
      decreases end - position
    {
      ghost var i := |ranges|;
      NextItem(data, start, items, i);
      var lengths := DecodeLength(data, position);
      if lengths.None? {
        return None;
      }
      ScanOneMore(start, items, ranges, position, lengths.value.total);
      ranges := ranges + [Range(position, position + lengths.value.total)];
      position := position + lengths.value.total;
    }
    ScannedAll(start, items, ranges, position);
    r := Some(ranges);
  }

  /** The ranges of the first items, up to `position`. */
  ghost predicate Scanned(start: nat, items: seq<Item>, ranges: seq<Range>, position: nat) {
    && |ranges| <= |items| && position == start + Offset(items, |ranges|)
    && ranges == ItemRanges(start, items)[..|ranges|]
  }

  lemma ScanOneMore(start: nat, items: seq<Item>, ranges: seq<Range>, position: nat, length: nat)
    requires Scanned(start, items, ranges, position) && |ranges| < |items| && length == Length(items[|ranges|])
    ensures Scanned(start, items, ranges + [Range(position, position + length)], position + length)
  {
  }

  lemma ScannedAll(start: nat, items: seq<Item>, ranges: seq<Range>, position: nat)
    requires Scanned(start, items, ranges, position) && position >= start + TotalLength(items)
    ensures ranges == ItemRanges(start, items)
  {
    NoItemsLeft(items, |ranges|);
  }

  /** Before the end of the content there is another item, and the scanner reads its length. */
  lemma NextItem(data: seq<byte>, start: nat, items: seq<Item>, i: nat)
    requires AllEncodedAt(data, start, items) && i <= |items| && Offset(items, i) < TotalLength(items)
    ensures i < |items|
    ensures var position := start + Offset(items, i);
            && position <= |data| && Length(items[i]) > 0
            && LengthsAt(data, position) == Some(Lengths(ContentLength(items[i]), Length(items[i])))
            && position + Length(items[i]) == start + Offset(items, i + 1) <= start + TotalLength(items)
  {
    ItemInside(data, start, items, i);
    LengthsOfItem(data, start + Offset(items, i), items[i]);
    PositiveLength(items[i]);
  }

  lemma NoItemsLeft(items: seq<Item>, i: nat)
    requires i <= |items| && Offset(items, i) >= TotalLength(items)
    ensures i == |items|
  {
    OffsetsGrow(items, i, |items|);
  }

  /** Reads the prefix of a list and scans its items. */
  method ScanList(data: seq<byte>, position: nat, ghost items: seq<Item>) returns (r: Option<seq<Range>>)
    requires EncodedAt(data, position, Lst(items))
    ensures r == Some(ItemRanges(position + PrefixLength(TotalLength(items)), items))
  {
    LengthsOfList(data, position, items);
    ListContent(data, position, items);
    var lengths := DecodeLength(data, position);
    if lengths.None? {
      return None;
    }
    var itemsStart := position + (lengths.value.total - lengths.value.content);
    r := ScanItems(data, itemsStart, itemsStart + lengths.value.content, items);
  }

  /** `get_rlp_list_ranges` on the encoding of a list. */
  method GetRlpListRanges(data: seq<byte>, ghost items: seq<Item>) returns (r: Option<seq<Range>>)
    requires EncodedAt(data, 0, Lst(items))
    ensures r == Some(ItemRanges(PrefixLength(TotalLength(items)), items))
  {
    r := ScanList(data, 0, items);
  }

  // ----- Blocks -----

  /** A block is a list whose first two items are the header and the list of transactions. */
  ghost predicate IsBlock(data: seq<byte>, header: Item, txs: seq<Item>, rest: seq<Item>) {
    EncodedAt(data, 0, Lst([header, Lst(txs)] + rest))
  }

  /** Where the transaction list starts. */
  ghost function TxListStart(header: Item, txs: seq<Item>, rest: seq<Item>): nat {
    PrefixLength(TotalLength([header, Lst(txs)] + rest)) + Length(header)
  }

  lemma BlockLayout(data: seq<byte>, header: Item, txs: seq<Item>, rest: seq<Item>)
    requires IsBlock(data, header, txs, rest)
    ensures var all := [header, Lst(txs)] + rest;
            && LengthsAt(data, 0) == Some(Lengths(TotalLength(all), Length(Lst(all))))
            && EncodedAt(data, PrefixLength(TotalLength(all)), header)
            && EncodedAt(data, TxListStart(header, txs, rest), Lst(txs))
  {
    var all := [header, Lst(txs)] + rest;
    LengthsOfItem(data, 0, Lst(all));
    ListContent(data, 0, all);
    ItemInside(data, PrefixLength(TotalLength(all)), all, 0);
    ItemInside(data, PrefixLength(TotalLength(all)), all, 1);
    assert Offset(all, 1) == Offset(all, 0) + Length(all[0]);
  }

  /** Skips the block prefix and the header. */
  method SkipToTransactions(block: seq<byte>, ghost header: Item, ghost txs: seq<Item>, ghost rest: seq<Item>)
    returns (r: Option<nat>)
    requires IsBlock(block, header, txs, rest)
    ensures r == Some(TxListStart(header, txs, rest))
  {
    BlockLayout(block, header, txs, rest);
    var blockLengths := DecodeLength(block, 0);
    if blockLengths.None? {
      return None;
    }
    var position := blockLengths.value.total - blockLengths.value.content;
    LengthsOfItem(block, position, header);
    var headerLengths := DecodeLength(block, position);
    if headerLengths.None? {
      return None;
    }
    r := Some(position + headerLengths.value.total);
  }

  method GetTransactionRanges(block: seq<byte>, ghost header: Item, ghost txs: seq<Item>, ghost rest: seq<Item>)
    returns (r: Option<seq<Range>>)
    requires IsBlock(block, header, txs, rest)
    ensures r == Some(ItemRanges(TxListStart(header, txs, rest) + PrefixLength(TotalLength(txs)), txs))
  {
    BlockLayout(block, header, txs, rest);
    var position := SkipToTransactions(block, header, txs, rest);
    if position.None? {
      return None;
    }
    r := ScanList(block, position.value, txs);
  }

  datatype TxByteOffsets = TxByteOffsets(tx: Range, receipt: Range, trace: Range)

  function Shift(ranges: seq<Range>, offset: nat): (r: seq<Range>)
    ensures |r| == |ranges|
    ensures forall i :: 0 <= i < |r| ==> r[i] == Range(ranges[i].start + offset, ranges[i].end + offset)
  {
    seq(|ranges|, i requires 0 <= i < |ranges| => Range(ranges[i].start + offset, ranges[i].end + offset))
  }

  lemma ShiftedRanges(start: nat, items: seq<Item>, offset: nat)
    ensures Shift(ItemRanges(start, items), offset) == ItemRanges(offset + start, items)
  {
  }

  function Zip(txs: seq<Range>, receipts: seq<Range>, traces: seq<Range>): (r: seq<TxByteOffsets>)
    requires |txs| == |receipts| == |traces|
    ensures |r| == |txs|
    ensures forall i :: 0 <= i < |r| ==> r[i] == TxByteOffsets(txs[i], receipts[i], traces[i])
  {
    seq(|txs|, i requires 0 <= i < |txs| => TxByteOffsets(txs[i], receipts[i], traces[i]))
  }

  /** The bytes of the transaction list. */
  method TxListSlice(block: seq<byte>, txsStart: nat, ghost header: Item, ghost txs: seq<Item>, ghost rest: seq<Item>)
    returns (txsRlp: seq<byte>)
    requires IsBlock(block, header, txs, rest) && txsStart == TxListStart(header, txs, rest)
    ensures EncodedAt(txsRlp, 0, Lst(txs))
  {
    BlockLayout(block, header, txs, rest);
    LengthsOfItem(block, txsStart, Lst(txs));
    var lengths := DecodeLength(block, txsStart);
    txsRlp := block[txsStart..txsStart + lengths.value.total];
    assert txsRlp[0..0 + Length(Lst(txs))] == txsRlp;
  }

  /** The transaction ranges, found in the slice that holds the transaction list and shifted back,
      are those of GetTransactionRanges; the counts must agree or the call is refused. */
  method GetAllTxOffsets(block: seq<byte>, receiptsRlp: seq<byte>, tracesRlp: seq<byte>,
                         ghost header: Item, ghost txs: seq<Item>, ghost rest: seq<Item>,
                         ghost receipts: seq<Item>, ghost traces: seq<Item>)
    returns (r: Option<seq<TxByteOffsets>>)
    requires IsBlock(block, header, txs, rest)
    requires EncodedAt(receiptsRlp, 0, Lst(receipts)) && EncodedAt(tracesRlp, 0, Lst(traces))
    ensures r.Some? <==> |txs| == |receipts| == |traces|
    ensures r.Some? ==> r.value == Zip(
                ItemRanges(TxListStart(header, txs, rest) + PrefixLength(TotalLength(txs)), txs),
                ItemRanges(PrefixLength(TotalLength(receipts)), receipts),
                ItemRanges(PrefixLength(TotalLength(traces)), traces))
  {
    var position := SkipToTransactions(block, header, txs, rest);
    if position.None? {
      return None;
    }
    var txsStart := position.value;
    var txsRlp := TxListSlice(block, txsStart, header, txs, rest);
    var txRanges := GetRlpListRanges(txsRlp, txs);
    var receiptRanges := GetRlpListRanges(receiptsRlp, receipts);
    var traceRanges := GetRlpListRanges(tracesRlp, traces);
    var shifted := Shift(txRanges.value, txsStart);
    ShiftedRanges(PrefixLength(TotalLength(txs)), txs, txsStart);
    if |shifted| != |receiptRanges.value| || |shifted| != |traceRanges.value| {
      return None;
    }
    r := Some(Zip(shifted, receiptRanges.value, traceRanges.value));
  }
}
