/** Recursive length prefix: the encoding of Appendix B of the Ethereum Yellow Paper and the script's decoder. */
module Rlp {
  import opened Bytes
  import opened BigEndian

  datatype Item = Str(bytes: seq<byte>) | List(items: seq<Item>)

  // ----- Encoding -----

  /** The shortest big-endian spelling of a number; 0 is spelled by nothing. */
  function Shortest(n: nat): (s: seq<byte>)
    ensures n > 0 ==> s != []
  {
    if n == 0 then [] else Shortest(n / 256) + [n % 256]
  }

  lemma {:induction false} ShortestWidth(n: nat, width: nat)
    requires n < Pow256(width)
    ensures |Shortest(n)| <= width
  {
    if n > 0 {
      ShortestWidth(n / 256, width - 1);
    }
  }

  /** The length prefix of a payload of `n` bytes; `offset` tells strings from lists. */
  function Header(n: nat, offset: byte): (s: seq<byte>)
    requires offset == 0x80 || offset == 0xc0
    requires n < Pow256(8)
    ensures 1 <= |s| <= 9
  {
    ShortestWidth(n, 8);
    if n < 56 then [offset + n] else [offset + 55 + |Shortest(n)|] + Shortest(n)
  }

  /** Every payload, at any depth, is shorter than 2^64 bytes; longer ones have no encoding. */
  predicate Encodable(item: Item)
    decreases item, 0
  {
    match item
    case Str(bytes) => |bytes| < Pow256(8)
    case List(items) => AllEncodable(items) && |EncodeAll(items)| < Pow256(8)
  }

  predicate AllEncodable(items: seq<Item>)
    decreases items, 0
  {
    items == [] || (Encodable(items[0]) && AllEncodable(items[1..]))
  }

  function Encode(item: Item): (s: seq<byte>)
    requires Encodable(item)
    ensures s != []
    decreases item, 1
  {
    match item
    case Str(bytes) =>
      if |bytes| == 1 && bytes[0] < 0x80 then bytes else Header(|bytes|, 0x80) + bytes
    case List(items) => Header(|EncodeAll(items)|, 0xc0) + EncodeAll(items)
  }

  function EncodeAll(items: seq<Item>): seq<byte>
    requires AllEncodable(items)
    decreases items, 1
  {
    if items == [] then [] else Encode(items[0]) + EncodeAll(items[1..])
  }

  lemma {:induction false} ShortestSpells(n: nat)
    ensures FromBytes(Shortest(n)) == n
  {
    if n > 0 {
      ShortestSpells(n / 256);
      assert Shortest(n)[..|Shortest(n)| - 1] == Shortest(n / 256);
    }
  }

  // ----- Decoding -----

  datatype Error = IndexOutOfRange

  /** A slice whose bounds are clipped to the data. */
  function Slice(data: seq<byte>, from: nat, next: nat): seq<byte> {
    var end := if next < |data| then next else |data|;
    if from < end then data[from..end] else []
  }

  function LongStart(data: seq<byte>, i: nat, base: byte): nat
    requires i < |data| && data[i] > base
  {
    i + 1 + (data[i] - base)
  }

  function LongLength(data: seq<byte>, i: nat, base: byte): nat
    requires i < |data| && data[i] > base
  {
    FromBytes(Slice(data, i + 1, LongStart(data, i, base)))
  }

  /** The item at offset `i` and the offset just past it. */
  function Decode(data: seq<byte>, i: nat): (r: Result<(Item, nat), Error>)
    ensures r.Ok? ==> i < |data| && r.value.1 > i
    decreases |data| - i, 0
  {
    if i >= |data| then Err(IndexOutOfRange)
    else if data[i] < 0x80 then Ok((Str(Slice(data, i, i + 1)), i + 1))
    else if data[i] < 0xb8 then
      var n := data[i] - 0x80;
      Ok((Str(Slice(data, i + 1, i + 1 + n)), i + 1 + n))
    else if data[i] < 0xc0 then
      var start, n := LongStart(data, i, 0xb7), LongLength(data, i, 0xb7);
      Ok((Str(Slice(data, start, start + n)), start + n))
    else if data[i] < 0xf8 then DecodeList(data, i, i + 1, data[i] - 0xc0)
    else DecodeList(data, i, LongStart(data, i, 0xf7), LongLength(data, i, 0xf7))
  }

  function DecodeList(data: seq<byte>, ghost i: nat, start: nat, n: nat): (r: Result<(Item, nat), Error>)
    requires i < |data| && i < start
    ensures r.Ok? ==> r.value.1 > i
    decreases |data| - i, 0, 0
  {
    var items := DecodeItems(data, start, start + n);
    if items.Err? then Err(items.error) else Ok((List(items.value), start + n))
  }

  /** The items from offset `j` until `end` is reached or passed. */
  function DecodeItems(data: seq<byte>, j: nat, end: nat): Result<seq<Item>, Error>
    decreases |data| - j, 1
  {
    if j >= end then Ok([])
    else
      var first := Decode(data, j);
      if first.Err? then Err(first.error)
      else
        var rest := DecodeItems(data, first.value.1, end);
        if rest.Err? then rest else Ok([first.value.0] + rest.value)
  }

  // ----- Decoding inverts encoding -----

  lemma SplitSlice(data: seq<byte>, i: nat, a: seq<byte>, b: seq<byte>)
    requires i + |a| + |b| <= |data| && data[i..i + |a| + |b|] == a + b
    ensures data[i..i + |a|] == a && data[i + |a|..i + |a| + |b|] == b
  {
    assert data[i..i + |a|] == data[i..i + |a| + |b|][..|a|];
    assert data[i + |a|..i + |a| + |b|] == data[i..i + |a| + |b|][|a|..];
  }

  /** A long header gives back the width and the length it was made from. */
  lemma LongHeaderReads(n: nat, offset: byte, data: seq<byte>, i: nat)
    requires offset == 0x80 || offset == 0xc0
    requires 56 <= n < Pow256(8) && i + |Header(n, offset)| <= |data|
    requires data[i..i + |Header(n, offset)|] == Header(n, offset)
    ensures offset + 55 < data[i] <= offset + 63
    ensures LongStart(data, i, offset + 55) == i + |Header(n, offset)| && LongLength(data, i, offset + 55) == n
  {
    hide Pow256, FromBytes, Shortest;
    ShortestWidth(n, 8);
    ShortestSpells(n);
    var h := Header(n, offset);
    assert data[i] == data[i..i + |h|][0] == h[0];
    assert Slice(data, i + 1, i + |h|) == data[i..i + |h|][1..] == h[1..] == Shortest(n);
  }

  lemma ShortHeaderReads(n: nat, offset: byte, data: seq<byte>, i: nat)
    requires offset == 0x80 || offset == 0xc0
    requires n < 56 && n < Pow256(8) && i + |Header(n, offset)| <= |data|
    requires data[i..i + |Header(n, offset)|] == Header(n, offset)
    ensures |Header(n, offset)| == 1 && data[i] == offset + n
  {
    assert data[i] == data[i..i + 1][0];
  }

  lemma StringReads(bytes: seq<byte>, data: seq<byte>, i: nat)
    requires Encodable(Str(bytes)) && i + |Encode(Str(bytes))| <= |data|
    requires data[i..i + |Encode(Str(bytes))|] == Encode(Str(bytes))
    ensures Decode(data, i) == Ok((Str(bytes), i + |Encode(Str(bytes))|))
  {
    hide Pow256, FromBytes, Shortest, Header, LongStart, LongLength;
    if |bytes| == 1 && bytes[0] < 0x80 {
      assert data[i] == data[i..i + 1][0];
    } else {
      var h := Header(|bytes|, 0x80);
      SplitSlice(data, i, h, bytes);
      if |bytes| < 56 {
        ShortHeaderReads(|bytes|, 0x80, data, i);
      } else {
        LongHeaderReads(|bytes|, 0x80, data, i);
      }
    }
  }

  /** Decoding at an item's offset gives the item and the offset just past it, whatever surrounds it. */
  lemma {:induction false} DecodeInvertsEncode(item: Item, data: seq<byte>, i: nat)
    requires Encodable(item) && i + |Encode(item)| <= |data| && data[i..i + |Encode(item)|] == Encode(item)
    ensures Decode(data, i) == Ok((item, i + |Encode(item)|))
    decreases item
  {
    hide Pow256, FromBytes, Shortest, Header, LongStart, LongLength, DecodeItems;
    match item
    case Str(bytes) => StringReads(bytes, data, i);
    case List(items) =>
      var payload := EncodeAll(items);
      var h := Header(|payload|, 0xc0);
      SplitSlice(data, i, h, payload);
      DecodeItemsInvertsEncodeAll(items, data, i + |h|);
      if |payload| < 56 {
        ShortHeaderReads(|payload|, 0xc0, data, i);
      } else {
        LongHeaderReads(|payload|, 0xc0, data, i);
      }
  }

  lemma {:induction false} DecodeItemsInvertsEncodeAll(items: seq<Item>, data: seq<byte>, j: nat)
    requires AllEncodable(items) && j + |EncodeAll(items)| <= |data|
    requires data[j..j + |EncodeAll(items)|] == EncodeAll(items)
    ensures DecodeItems(data, j, j + |EncodeAll(items)|) == Ok(items)
    decreases items
  {
    hide Decode, Encode, Encodable;
    if items != [] {
      var first, rest := Encode(items[0]), EncodeAll(items[1..]);
      SplitSlice(data, j, first, rest);
      DecodeInvertsEncode(items[0], data, j);
      DecodeItemsInvertsEncodeAll(items[1..], data, j + |first|);
      assert items == [items[0]] + items[1..];
    }
  }

  /** So no encoding is the start of another: a stream of encodings can be cut in only one way. */
  lemma EncodingsArePrefixFree(a: Item, b: Item, x: seq<byte>, y: seq<byte>)
    requires Encodable(a) && Encodable(b) && Encode(a) + x == Encode(b) + y
    ensures a == b && x == y
  {
    hide Encode, Encodable, Decode;
    var data := Encode(a) + x;
    assert data[0..|Encode(a)|] == Encode(a) && data[0..|Encode(b)|] == Encode(b);
    DecodeInvertsEncode(a, data, 0);
    DecodeInvertsEncode(b, data, 0);
    assert x == data[|Encode(a)|..] && y == data[|Encode(b)|..];
  }

  // ----- The decoder's loop -----

  method RlpDecode(data: seq<byte>, i: nat) returns (r: Result<(Item, nat), Error>)
    ensures r == Decode(data, i)
    decreases |data| - i
  {
    hide Slice, FromBytes, DecodeItems;
    if i >= |data| {
      return Err(IndexOutOfRange);
    }
    var prefix := data[i];
    if prefix < 0x80 {
      return Ok((Str(Slice(data, i, i + 1)), i + 1));
    }
    if prefix < 0xb8 {
      var n := prefix - 0x80;
      return Ok((Str(Slice(data, i + 1, i + 1 + n)), i + 1 + n));
    }
    if prefix < 0xc0 {
      var width := prefix - 0xb7;
      var n := FromBytes(Slice(data, i + 1, i + 1 + width));
      var start := i + 1 + width;
      return Ok((Str(Slice(data, start, start + n)), start + n));
    }
    var start, n;
    if prefix < 0xf8 {
      n, start := prefix - 0xc0, i + 1;
    } else {
      var width := prefix - 0xf7;
      n := FromBytes(Slice(data, i + 1, i + 1 + width));
      start := i + 1 + width;
    }
    var items := DecodeListItems(data, i, start, n);
    return if items.Err? then Err(items.error) else Ok((List(items.value), start + n));
  }

  function After(items: seq<Item>, rest: Result<seq<Item>, Error>): Result<seq<Item>, Error> {
    if rest.Err? then rest else Ok(items + rest.value)
  }

  lemma AfterJoins(a: seq<Item>, b: seq<Item>, rest: Result<seq<Item>, Error>)
    ensures After(a, After(b, rest)) == After(a + b, rest)
    ensures After([], rest) == rest && After(a, Ok([])) == Ok(a)
  {
    assert a + [] == a;
    if rest.Ok? {
      assert [] + rest.value == rest.value;
      assert a + (b + rest.value) == a + b + rest.value;
    }
  }

  method DecodeListItems(data: seq<byte>, ghost i: nat, start: nat, n: nat) returns (r: Result<seq<Item>, Error>)
    requires i < start && i < |data|
    ensures r == DecodeItems(data, start, start + n)
    decreases |data| - i, 0
  {
    hide Decode;
    var items, j := [], start;
    AfterJoins([], [], DecodeItems(data, start, start + n));
    while j < start + n
      invariant j > i
      invariant DecodeItems(data, start, start + n) == After(items, DecodeItems(data, j, start + n))
      decreases start + n - j
    {
      var item := RlpDecode(data, j);
      if item.Err? {
        return Err(item.error);
      }
      AfterJoins(items, [item.value.0], DecodeItems(data, item.value.1, start + n));
      j := item.value.1;
      items := items + [item.value.0];
    }
    AfterJoins(items, [], Ok([]));
    return Ok(items);
  }
}
