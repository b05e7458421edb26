/** The fixed-size index at the front of a StateDiff bundle, and the whole bundle object. */
module BundleIndex {
  import opened Bytes
  import opened BigEndian

  const CAPACITY: nat := 1000
  const BITMAP_BYTES: nat := 125
  const OFFSET_COUNT: nat := 1001
  const OFFSET_BYTES: nat := 8
  const INDEX_BYTES: nat := 8133
  const U64_END: nat := U64_MAX + 1

  /** A bitmap of source entries and the start of every entry inside the payload. */
  datatype RawIndex = RawIndex(bitmap: seq<byte>, offset: seq<u64>)

  type Index = i: RawIndex | |i.bitmap| == BITMAP_BYTES && |i.offset| == OFFSET_COUNT
    witness RawIndex(seq(BITMAP_BYTES, _ => 0), seq(OFFSET_COUNT, _ => 0))

  datatype Error =
    | BundleTooShort
    | InvalidIndexLength
    | PayloadLengthMismatch
    | Rlp(position: nat)
    | PositionOutOfRange(position: nat)
    | NonZeroFirstOffset
    | NonIncreasingOffset(position: nat)
    | NonZeroUnusedOffset(position: nat)
    | NonZeroUnusedBitmap(position: nat)

  /** Bundle 0 holds genesis alone. */
  function EntryCount(bundleId: nat): nat {
    if bundleId == 0 then 1 else CAPACITY
  }

  function Pow2(n: nat): (p: nat)
    ensures p >= 1
  {
    if n == 0 then 1 else 2 * Pow2(n - 1)
  }

  predicate Bit(bitmap: seq<byte>, position: nat)
    requires position / 8 < |bitmap|
  {
    bitmap[position / 8] / Pow2(position % 8) % 2 == 1
  }

  /** The number spelled by bits `k` to 7 of byte `i`, the least significant first. */
  function SpelledFrom(bitmap: seq<byte>, i: nat, k: nat): nat
    requires i < |bitmap| && k <= 8
    decreases 8 - k
  {
    if k == 8 then 0 else (if Bit(bitmap, 8 * i + k) then 1 else 0) + 2 * SpelledFrom(bitmap, i, k + 1)
  }

  lemma Halved(b: byte, d: nat)
    requires d == 1 || d == 2 || d == 4 || d == 8 || d == 16 || d == 32 || d == 64 || d == 128
    ensures b / d == 2 * (b / (2 * d)) + b / d % 2
  {
  }

  lemma SmallPowers(k: nat)
    requires k < 8
    ensures var d := Pow2(k);
      && (d == 1 || d == 2 || d == 4 || d == 8 || d == 16 || d == 32 || d == 64 || d == 128)
      && Pow2(k + 1) == 2 * d
    ensures Pow2(0) == 1 && Pow2(8) == 256
  {
    assert Pow2(3) == 8 && Pow2(6) == 64;
  }

  lemma HalvedAt(b: byte, k: nat)
    requires k < 8
    ensures b / Pow2(k) == 2 * (b / Pow2(k + 1)) + b / Pow2(k) % 2
  {
    hide Pow2;
    SmallPowers(k);
    Halved(b, Pow2(k));
  }

  lemma BitAt(bitmap: seq<byte>, i: nat, k: nat)
    requires i < |bitmap| && k < 8
    ensures Bit(bitmap, 8 * i + k) <==> bitmap[i] / Pow2(k) % 2 == 1
  {
    hide Pow2;
    assert (8 * i + k) / 8 == i && (8 * i + k) % 8 == k;
  }

  lemma {:induction false} SpelledIsQuotient(bitmap: seq<byte>, i: nat, k: nat)
    requires i < |bitmap| && k <= 8
    ensures SpelledFrom(bitmap, i, k) == bitmap[i] / Pow2(k)
    decreases 8 - k
  {
    hide Pow2, Bit;
    if k == 8 {
      SmallPowers(0);
    } else {
      BitAt(bitmap, i, k);
      SpelledIsQuotient(bitmap, i, k + 1);
      HalvedAt(bitmap[i], k);
    }
  }

  /** Positions 8i to 8i + 7 are the bits of byte i, the least significant first. */
  lemma BitsSpellByte(bitmap: seq<byte>, i: nat)
    requires i < |bitmap|
    ensures SpelledFrom(bitmap, i, 0) == bitmap[i]
  {
    hide Pow2, SpelledFrom;
    SmallPowers(0);
    SpelledIsQuotient(bitmap, i, 0);
  }

  // ----- What an index must satisfy -----

  predicate Rises(index: Index, position: nat)
    requires position < CAPACITY
  {
    index.offset[position] < index.offset[position + 1]
  }

  predicate RisesTo(index: Index, count: nat)
    requires count <= CAPACITY
  {
    forall p: nat :: p < count ==> Rises(index, p)
  }

  predicate UnusedZero(index: Index, count: nat, end: nat)
    requires end <= OFFSET_COUNT
  {
    forall p :: count < p < end ==> index.offset[p] == 0
  }

  predicate UnusedClear(index: Index, count: nat, end: nat)
    requires end <= CAPACITY
  {
    forall p :: count <= p < end ==> !Bit(index.bitmap, p)
  }

  /** An index of `count` entries: used offsets rise from 0, the rest is zero. */
  predicate Accepted(index: Index, count: nat)
    requires count <= CAPACITY
  {
    && index.offset[0] == 0
    && RisesTo(index, count)
    && UnusedZero(index, count, OFFSET_COUNT)
    && UnusedClear(index, count, CAPACITY)
  }

  /** The fault reported for an index that is not accepted: the first one met. */
  predicate FirstFault(index: Index, count: nat, error: Error)
    requires count <= CAPACITY
  {
    match error
    case NonZeroFirstOffset => index.offset[0] != 0
    case NonIncreasingOffset(p) => index.offset[0] == 0 && p < count && RisesTo(index, p) && !Rises(index, p)
    case NonZeroUnusedOffset(p) =>
      && index.offset[0] == 0 && RisesTo(index, count)
      && count < p < OFFSET_COUNT && UnusedZero(index, count, p) && index.offset[p] != 0
    case NonZeroUnusedBitmap(p) =>
      && index.offset[0] == 0 && RisesTo(index, count) && UnusedZero(index, count, OFFSET_COUNT)
      && count <= p < CAPACITY && UnusedClear(index, count, p) && Bit(index.bitmap, p)
    case _ => false
  }

  method Validate(index: Index, count: nat) returns (r: Result<(), Error>)
    requires count <= CAPACITY
    ensures r.Ok? <==> Accepted(index, count)
    ensures r.Err? ==> FirstFault(index, count, r.error)
  {
    if index.offset[0] != 0 {
      return Err(NonZeroFirstOffset);
    }
    for position := 0 to count
      invariant RisesTo(index, position)
    {
      if index.offset[position + 1] <= index.offset[position] {
        assert !Rises(index, position);
        return Err(NonIncreasingOffset(position));
      }
    }
    for position := count + 1 to OFFSET_COUNT
      invariant UnusedZero(index, count, position)
    {
      if index.offset[position] != 0 {
        return Err(NonZeroUnusedOffset(position));
      }
    }
    for position := count to CAPACITY
      invariant UnusedClear(index, count, position)
    {
      if Bit(index.bitmap, position) {
        return Err(NonZeroUnusedBitmap(position));
      }
    }
    return Ok(());
  }

  // ----- The bytes of an index -----

  function Words(offsets: seq<u64>): (s: seq<byte>)
    ensures |s| == OFFSET_BYTES * |offsets|
  {
    if offsets == [] then []
    else Words(offsets[..|offsets| - 1]) + ToBytes(offsets[|offsets| - 1], OFFSET_BYTES)
  }

  lemma Pow256At8()
    ensures Pow256(OFFSET_BYTES) == U64_END
  {
    assert Pow256(4) == 0x1_0000_0000 by {
      assert Pow256(2) == 0x1_0000;
    }
    assert Pow256(6) == 0x1_0000_0000_0000;
  }

  function Word(s: seq<byte>): u64
    requires |s| == OFFSET_BYTES
  {
    FromBytesBound(s);
    Pow256At8();
    FromBytes(s)
  }

  function Unwords(s: seq<byte>): (offsets: seq<u64>)
    requires |s| % OFFSET_BYTES == 0
    ensures OFFSET_BYTES * |offsets| == |s|
  {
    if s == [] then []
    else Unwords(s[..|s| - OFFSET_BYTES]) + [Word(s[|s| - OFFSET_BYTES..])]
  }

  function Layout(index: Index): (s: seq<byte>)
    ensures |s| == INDEX_BYTES
  {
    index.bitmap + Words(index.offset)
  }

  function Parse(s: seq<byte>): Index
    requires |s| == INDEX_BYTES
  {
    RawIndex(s[..BITMAP_BYTES], Unwords(s[BITMAP_BYTES..]))
  }

  lemma {:induction false} UnwordsWords(offsets: seq<u64>)
    ensures Unwords(Words(offsets)) == offsets
  {
    hide ToBytes, FromBytes;
    if offsets != [] {
      var front, last := offsets[..|offsets| - 1], offsets[|offsets| - 1];
      UnwordsWords(front);
      var s := Words(offsets);
      assert s[..|s| - OFFSET_BYTES] == Words(front);
      assert s[|s| - OFFSET_BYTES..] == ToBytes(last, OFFSET_BYTES);
      Pow256At8();
      FromToBytes(last, OFFSET_BYTES);
      assert offsets == front + [last];
    }
  }

  lemma {:induction false} WordsUnwords(s: seq<byte>)
    requires |s| % OFFSET_BYTES == 0
    ensures Words(Unwords(s)) == s
  {
    hide ToBytes, FromBytes;
    if s != [] {
      var front, last := s[..|s| - OFFSET_BYTES], s[|s| - OFFSET_BYTES..];
      WordsUnwords(front);
      ToFromBytes(last);
      assert Unwords(s)[..|Unwords(s)| - 1] == Unwords(front);
      assert s == front + last;
    }
  }

  /** The bytes determine the index and the index its bytes. */
  lemma LayoutRoundTrip(index: Index, s: seq<byte>)
    requires |s| == INDEX_BYTES
    ensures Parse(Layout(index)) == index
    ensures Layout(Parse(s)) == s
  {
    UnwordsWords(index.offset);
    assert Layout(index)[..BITMAP_BYTES] == index.bitmap && Layout(index)[BITMAP_BYTES..] == Words(index.offset);
    WordsUnwords(s[BITMAP_BYTES..]);
    assert s == s[..BITMAP_BYTES] + s[BITMAP_BYTES..];
  }

  method EncodeForBundle(index: Index, bundleId: nat) returns (r: Result<seq<byte>, Error>)
    ensures r.Ok? <==> Accepted(index, EntryCount(bundleId))
    ensures r.Err? ==> FirstFault(index, EntryCount(bundleId), r.error)
    ensures r.Ok? ==> |r.value| == INDEX_BYTES && Parse(r.value) == index
    ensures r.Ok? ==> r.value == Layout(index)
  {
    hide ToBytes, Accepted, FirstFault, Parse;
    var valid := Validate(index, EntryCount(bundleId));
    if valid.Err? {
      return Err(valid.error);
    }
    var encoded := index.bitmap;
    for position := 0 to OFFSET_COUNT
      invariant encoded == index.bitmap + Words(index.offset[..position])
    {
      var next := index.offset[..position + 1];
      assert next[..position] == index.offset[..position];
      encoded := encoded + ToBytes(index.offset[position], OFFSET_BYTES);
    }
    assert index.offset[..OFFSET_COUNT] == index.offset;
    LayoutRoundTrip(index, encoded);
    return Ok(encoded);
  }

  method DecodeForBundle(bundleId: nat, bytes: seq<byte>) returns (r: Result<Index, Error>)
    ensures r.Ok? <==> |bytes| == INDEX_BYTES && Accepted(Parse(bytes), EntryCount(bundleId))
    ensures r.Err? && |bytes| == INDEX_BYTES ==> FirstFault(Parse(bytes), EntryCount(bundleId), r.error)
    ensures |bytes| != INDEX_BYTES ==> r == Err(InvalidIndexLength)
    ensures r.Ok? ==> r.value == Parse(bytes) && Layout(r.value) == bytes
  {
    if |bytes| != INDEX_BYTES {
      return Err(InvalidIndexLength);
    }
    var offset: seq<u64> := [];
    var chunks := bytes[BITMAP_BYTES..];
    for position := 0 to OFFSET_COUNT
      invariant offset == Unwords(chunks[..OFFSET_BYTES * position])
    {
      var next := chunks[..OFFSET_BYTES * (position + 1)];
      var chunk := chunks[OFFSET_BYTES * position..OFFSET_BYTES * (position + 1)];
      assert next[..|next| - OFFSET_BYTES] == chunks[..OFFSET_BYTES * position];
      assert next[|next| - OFFSET_BYTES..] == chunk;
      offset := offset + [Word(chunk)];
    }
    assert chunks[..OFFSET_BYTES * OFFSET_COUNT] == chunks;
    var index := RawIndex(bytes[..BITMAP_BYTES], offset);
    LayoutRoundTrip(index, bytes);
    var valid := Validate(index, EntryCount(bundleId));
    if valid.Err? {
      return Err(valid.error);
    }
    return Ok(index);
  }

  // ----- Entry ranges inside the payload -----

  function PayloadRange(index: Index, position: nat): (r: Result<(nat, nat), Error>) {
    if position >= CAPACITY then Err(PositionOutOfRange(position))
    else if index.offset[position + 1] <= index.offset[position] then Err(NonIncreasingOffset(position))
    else Ok((index.offset[position], index.offset[position + 1]))
  }

  function HasSourceDiff(index: Index, position: nat): (r: Result<bool, Error>) {
    var range := PayloadRange(index, position);
    if range.Err? then Err(range.error) else Ok(Bit(index.bitmap, position))
  }

  predicate Covers(index: Index, position: nat, at: nat) {
    var range := PayloadRange(index, position);
    range.Ok? && range.value.0 <= at < range.value.1
  }

  lemma {:induction false} OffsetsRise(index: Index, count: nat, p: nat, q: nat)
    requires count <= CAPACITY && RisesTo(index, count) && p < q <= count
    ensures index.offset[p] < index.offset[q]
    decreases q
  {
    assert Rises(index, q - 1);
    if p < q - 1 {
      OffsetsRise(index, count, p, q - 1);
    }
  }

  /** The end of the payload: the last offset that is not zero. */
  method PayloadSize(index: Index) returns (size: nat)
    ensures forall count: nat :: 0 < count <= CAPACITY && Accepted(index, count) ==> size == index.offset[count]
    ensures size == 0 ==> forall p: nat :: p < OFFSET_COUNT ==> index.offset[p] == 0
  {
    var last: nat := CAPACITY;
    while last > 0 && index.offset[last] == 0
      invariant last <= CAPACITY
      invariant forall p: nat :: last < p < OFFSET_COUNT ==> index.offset[p] == 0
    {
      last := last - 1;
    }
    size := index.offset[last];
    forall count: nat | 0 < count <= CAPACITY && Accepted(index, count)
      ensures size == index.offset[count]
    {
      OffsetsRise(index, count, 0, count);
    }
  }

  /** Exactly the entries the bundle holds have a range. */
  lemma RangesAreEntries(index: Index, count: nat, position: nat)
    requires 0 < count <= CAPACITY && Accepted(index, count)
    ensures PayloadRange(index, position).Ok? <==> position < count
    ensures position >= count ==>
      PayloadRange(index, position).error ==
        if position >= CAPACITY then PositionOutOfRange(position) else NonIncreasingOffset(position)
  {
    if position < count {
      assert Rises(index, position);
    }
  }

  lemma {:induction false} SomeEntryCovers(index: Index, count: nat, at: nat) returns (position: nat)
    requires count <= CAPACITY && index.offset[0] == 0 && RisesTo(index, count) && at < index.offset[count]
    ensures position < count && Covers(index, position, at)
    decreases count
  {
    assert Rises(index, count - 1);
    if at < index.offset[count - 1] {
      position := SomeEntryCovers(index, count - 1, at);
    } else {
      position := count - 1;
    }
  }

  lemma DisjointRanges(index: Index, count: nat, p: nat, q: nat, at: nat)
    requires 0 < count <= CAPACITY && Accepted(index, count)
    requires Covers(index, p, at) && Covers(index, q, at)
    ensures p == q
  {
    RangesAreEntries(index, count, p);
    RangesAreEntries(index, count, q);
    if p + 1 < q {
      OffsetsRise(index, count, p + 1, q);
    } else if q + 1 < p {
      OffsetsRise(index, count, q + 1, p);
    }
  }

  /** The entry ranges cut the payload into disjoint, non-empty pieces and leave nothing over. */
  lemma RangesTileThePayload(index: Index, count: nat, at: nat)
    requires 0 < count <= CAPACITY && Accepted(index, count)
    ensures at < index.offset[count] <==> exists p: nat :: Covers(index, p, at)
    ensures forall p: nat, q: nat :: Covers(index, p, at) && Covers(index, q, at) ==> p == q
    ensures forall p: nat :: Covers(index, p, at) ==> p < count
  {
    forall p: nat | Covers(index, p, at)
      ensures p < count && at < index.offset[count]
    {
      RangesAreEntries(index, count, p);
      if p + 1 < count {
        OffsetsRise(index, count, p + 1, count);
      }
    }
    forall p: nat, q: nat | Covers(index, p, at) && Covers(index, q, at)
      ensures p == q
    {
      DisjointRanges(index, count, p, q, at);
    }
    if at < index.offset[count] {
      var p := SomeEntryCovers(index, count, at);
    }
  }
}

/** A whole bundle object: an index followed by the encoded entries. */
module BundleCodec {
  import opened Bytes
  import opened BundleIndex

  /** Entries are written by `enc`; `dec` reads one entry off the front and says how many bytes it took. */
  type Encoder<!T> = T -> seq<byte>
  type Decoder<!T> = seq<byte> -> Option<(T, nat)>

  /** Reading gives back what was written, and never looks beyond what it takes. */
  ghost predicate SelfDelimiting<T(!new)>(enc: Encoder<T>, dec: Decoder<T>) {
    && (forall e: T :: dec(enc(e)) == Some((e, |enc(e)|)))
    && (forall s: seq<byte>, t: seq<byte> :: dec(s).Some? && s <= t ==> dec(t) == dec(s))
    && (forall s: seq<byte> :: dec(s).Some? ==> dec(s).value.1 <= |s|)
  }

  datatype Bundle<T> = Bundle(index: Index, entries: seq<T>)

  function Payload<T>(entries: seq<T>, enc: Encoder<T>): seq<byte> {
    if entries == [] then []
    else Payload(entries[..|entries| - 1], enc) + enc(entries[|entries| - 1])
  }

  /** The offsets are the running sums of the entry lengths. */
  predicate RunningSums<T>(index: Index, entries: seq<T>, enc: Encoder<T>)
    requires |entries| <= CAPACITY
  {
    && index.offset[0] == 0
    && forall p: nat :: p < |entries| ==> index.offset[p + 1] == index.offset[p] + |enc(entries[p])|
  }

  method Encode<T>(bundle: Bundle<T>, enc: Encoder<T>) returns (r: Result<seq<byte>, Error>)
    requires |bundle.entries| == CAPACITY
    ensures r.Ok? <==> Accepted(bundle.index, CAPACITY)
    ensures r.Err? ==> FirstFault(bundle.index, CAPACITY, r.error)
    ensures r.Ok? ==> r.value == Layout(bundle.index) + Payload(bundle.entries, enc)
  {
    var header := EncodeForBundle(bundle.index, 1);
    if header.Err? {
      return Err(header.error);
    }
    var encoded := header.value;
    for position := 0 to CAPACITY
      invariant encoded == Layout(bundle.index) + Payload(bundle.entries[..position], enc)
    {
      var next := bundle.entries[..position + 1];
      assert next[..position] == bundle.entries[..position];
      encoded := encoded + enc(bundle.entries[position]);
    }
    assert bundle.entries[..CAPACITY] == bundle.entries;
    return Ok(encoded);
  }

  // ----- Decoding -----

  /** Entry `position` of an object whose index is `index`. */
  function EntryBytes(index: Index, s: seq<byte>, position: nat): seq<byte>
    requires |s| >= INDEX_BYTES && position < CAPACITY
    requires index.offset[position] <= index.offset[position + 1] <= |s| - INDEX_BYTES
  {
    s[INDEX_BYTES + index.offset[position]..INDEX_BYTES + index.offset[position + 1]]
  }

  /** The object starts with an accepted index that accounts for every byte after it. */
  predicate Framed(s: seq<byte>) {
    && |s| >= INDEX_BYTES
    && Accepted(Parse(s[..INDEX_BYTES]), CAPACITY)
    && |s| == INDEX_BYTES + Parse(s[..INDEX_BYTES]).offset[CAPACITY]
  }

  function IndexOf(s: seq<byte>): (index: Index)
    requires Framed(s)
    ensures Accepted(index, CAPACITY)
  {
    Parse(s[..INDEX_BYTES])
  }

  lemma EntryInside(s: seq<byte>, position: nat)
    requires Framed(s) && position < CAPACITY
    ensures IndexOf(s).offset[position] < IndexOf(s).offset[position + 1] <= |s| - INDEX_BYTES
  {
    assert Rises(IndexOf(s), position);
    if position + 1 < CAPACITY {
      OffsetsRise(IndexOf(s), CAPACITY, position + 1, CAPACITY);
    }
  }

  function EntryOf(s: seq<byte>, position: nat): (e: seq<byte>)
    requires Framed(s) && position < CAPACITY
    ensures |e| > 0
  {
    EntryInside(s, position);
    EntryBytes(IndexOf(s), s, position)
  }

  /** The entry's own bytes hold exactly one encoded value. */
  predicate Holds<T(==)>(dec: Decoder<T>, s: seq<byte>, e: T) {
    dec(s) == Some((e, |s|))
  }

  /** The entry's own bytes hold some value. */
  predicate Readable<T>(dec: Decoder<T>, s: seq<byte>) {
    dec(s).Some? && dec(s).value.1 == |s|
  }

  predicate Decodes<T(==)>(s: seq<byte>, dec: Decoder<T>, bundle: Bundle<T>) {
    && Framed(s)
    && bundle.index == IndexOf(s)
    && |bundle.entries| == CAPACITY
    && forall p: nat :: p < CAPACITY ==> Holds(dec, EntryOf(s, p), bundle.entries[p])
  }

  method DecodeEntries<T(==)>(s: seq<byte>, dec: Decoder<T>) returns (r: Result<seq<T>, Error>)
    requires Framed(s)
    ensures r.Ok? ==> Decodes(s, dec, Bundle(IndexOf(s), r.value))
    ensures r.Err? ==> r.error.Rlp? && r.error.position < CAPACITY
    ensures r.Err? ==> forall e: T :: !Holds(dec, EntryOf(s, r.error.position), e)
    ensures r.Err? ==> forall p: nat :: p < r.error.position ==> Readable(dec, EntryOf(s, p))
  {
    hide Framed, EntryBytes;
    var entries: seq<T> := [];
    for position := 0 to CAPACITY
      invariant |entries| == position
      invariant forall p: nat :: p < position ==> Holds(dec, EntryOf(s, p), entries[p])
      invariant forall p: nat :: p < position ==> Readable(dec, EntryOf(s, p))
    {
      var own := EntryOf(s, position);
      var entry := dec(own);
      if entry.None? || entry.value.1 != |own| {
        return Err(Rlp(position));
      }
      entries := entries + [entry.value.0];
    }
    return Ok(entries);
  }

  method Decode<T(==)>(s: seq<byte>, dec: Decoder<T>) returns (r: Result<Bundle<T>, Error>)
    ensures r.Ok? ==> Decodes(s, dec, r.value)
    ensures r.Err? ==> forall b: Bundle<T> :: !Decodes(s, dec, b)
    ensures r.Err? && r.error.Rlp? ==>
      && Framed(s) && r.error.position < CAPACITY
      && (forall e: T :: !Holds(dec, EntryOf(s, r.error.position), e))
      && forall p: nat :: p < r.error.position ==> Readable(dec, EntryOf(s, p))
    ensures |s| < INDEX_BYTES <==> r == Err(BundleTooShort)
    ensures |s| >= INDEX_BYTES && !Accepted(Parse(s[..INDEX_BYTES]), CAPACITY) ==>
      r.Err? && FirstFault(Parse(s[..INDEX_BYTES]), CAPACITY, r.error)
    ensures r == Err(PayloadLengthMismatch) <==>
      && |s| >= INDEX_BYTES && Accepted(Parse(s[..INDEX_BYTES]), CAPACITY)
      && |s| - INDEX_BYTES != Parse(s[..INDEX_BYTES]).offset[CAPACITY]
  {
    hide Accepted, Parse, Layout;
    if |s| < INDEX_BYTES {
      return Err(BundleTooShort);
    }
    var header := DecodeForBundle(1, s[..INDEX_BYTES]);
    if header.Err? {
      return Err(header.error);
    }
    var size := PayloadSize(header.value);
    if |s| - INDEX_BYTES != size {
      return Err(PayloadLengthMismatch);
    }
    var entries := DecodeEntries(s, dec);
    if entries.Err? {
      forall b: Bundle<T> | |b.entries| == CAPACITY
        ensures !Decodes(s, dec, b)
      {
        assert !Holds(dec, EntryOf(s, entries.error.position), b.entries[entries.error.position]);
      }
      return Err(entries.error);
    }
    return Ok(Bundle(header.value, entries.value));
  }

  // ----- Round trips -----

  lemma {:induction false} PayloadEnds<T>(index: Index, entries: seq<T>, enc: Encoder<T>)
    requires |entries| <= CAPACITY && RunningSums(index, entries, enc)
    ensures |Payload(entries, enc)| == index.offset[|entries|]
    decreases |entries|
  {
    if entries != [] {
      PayloadEnds(index, entries[..|entries| - 1], enc);
    }
  }

  /** Under running sums the bytes between two offsets are the entry's encoding. */
  lemma {:induction false} PayloadAt<T>(index: Index, entries: seq<T>, enc: Encoder<T>, p: nat)
    requires p < |entries| <= CAPACITY && RunningSums(index, entries, enc)
    ensures index.offset[p] <= index.offset[p + 1] <= |Payload(entries, enc)|
    ensures Payload(entries, enc)[index.offset[p]..index.offset[p + 1]] == enc(entries[p])
    decreases |entries|
  {
    var front := entries[..|entries| - 1];
    PayloadEnds(index, front, enc);
    PayloadEnds(index, entries, enc);
    if p < |front| {
      PayloadAt(index, front, enc, p);
    }
  }

  lemma FramedObject(index: Index, payload: seq<byte>)
    ensures Framed(Layout(index) + payload) <==> Accepted(index, CAPACITY) && |payload| == index.offset[CAPACITY]
    ensures Framed(Layout(index) + payload) ==> IndexOf(Layout(index) + payload) == index
  {
    hide Accepted, Layout, Parse;
    var s := Layout(index) + payload;
    assert s[..INDEX_BYTES] == Layout(index);
    LayoutRoundTrip(index, Layout(index));
  }

  lemma EntryOfObject(index: Index, payload: seq<byte>, p: nat)
    requires p < CAPACITY && Framed(Layout(index) + payload)
    ensures index.offset[p] < index.offset[p + 1] <= |payload|
    ensures EntryOf(Layout(index) + payload, p) == payload[index.offset[p]..index.offset[p + 1]]
  {
    hide Accepted, Layout, Parse, Framed;
    FramedObject(index, payload);
    EntryInside(Layout(index) + payload, p);
  }

  /** What `Encode` writes for a bundle whose offsets are the running sums decodes to that bundle. */
  lemma RunningSumsRoundTrip<T(!new)>(bundle: Bundle<T>, enc: Encoder<T>, dec: Decoder<T>)
    requires SelfDelimiting(enc, dec) && |bundle.entries| == CAPACITY && Accepted(bundle.index, CAPACITY)
    requires RunningSums(bundle.index, bundle.entries, enc)
    ensures Decodes(Layout(bundle.index) + Payload(bundle.entries, enc), dec, bundle)
  {
    hide Accepted, Layout, Framed, EntryOf, IndexOf;
    var payload := Payload(bundle.entries, enc);
    PayloadEnds(bundle.index, bundle.entries, enc);
    FramedObject(bundle.index, payload);
    forall p: nat | p < CAPACITY
      ensures Holds(dec, EntryOf(Layout(bundle.index) + payload, p), bundle.entries[p])
    {
      EntryOfObject(bundle.index, payload, p);
      PayloadAt(bundle.index, bundle.entries, enc, p);
    }
  }

  lemma {:induction false} PayloadSplits<T>(entries: seq<T>, enc: Encoder<T>, p: nat)
    requires p < |entries|
    ensures Payload(entries[..p], enc) + enc(entries[p]) <= Payload(entries, enc)
    decreases |entries|
  {
    var front := entries[..|entries| - 1];
    if p < |front| {
      PayloadSplits(front, enc, p);
      assert front[..p] == entries[..p];
    }
  }

  /** Of two strings that start alike, a self-delimiting code reads the same value off both. */
  lemma ReadsAlike<T(!new)>(enc: Encoder<T>, dec: Decoder<T>, e: T, own: seq<byte>, s: seq<byte>, x: T)
    requires SelfDelimiting(enc, dec) && enc(e) <= s && own <= s && Holds(dec, own, x)
    ensures x == e && own == enc(e)
  {
    assert own <= enc(e) || enc(e) <= own;
    assert dec(enc(e)) == dec(own);
  }

  lemma AcceptedStartsAtZero(index: Index)
    requires Accepted(index, CAPACITY)
    ensures index.offset[0] == 0
  {
  }

  lemma SumsExtend<T>(index: Index, entries: seq<T>, enc: Encoder<T>, p: nat)
    requires p < |entries| <= CAPACITY && RunningSums(index, entries[..p], enc)
    requires index.offset[p + 1] == index.offset[p] + |enc(entries[p])|
    ensures RunningSums(index, entries[..p + 1], enc)
  {
    forall q: nat | q < p + 1
      ensures index.offset[q + 1] == index.offset[q] + |enc(entries[..p + 1][q])|
    {
      if q < p {
        assert entries[..p][q] == entries[..p + 1][q];
      }
    }
  }

  /** An object written from `entries` can only be cut where the entries end. */
  lemma {:induction false} CutAtEntryEnds<T(!new)>(
    index: Index, entries: seq<T>, enc: Encoder<T>, dec: Decoder<T>, other: Bundle<T>, n: nat)
    requires SelfDelimiting(enc, dec) && |entries| == CAPACITY && n <= CAPACITY
    requires Decodes(Layout(index) + Payload(entries, enc), dec, other)
    ensures RunningSums(index, entries[..n], enc)
    ensures forall p: nat :: p < n ==> other.entries[p] == entries[p]
  {
    hide Layout, Parse, Accepted, RisesTo, Framed, IndexOf, EntryOf, SelfDelimiting, Holds;
    var payload := Payload(entries, enc);
    FramedObject(index, payload);
    if n == 0 {
      AcceptedStartsAtZero(index);
    } else {
      var p := n - 1;
      CutAtEntryEnds(index, entries, enc, dec, other, p);
      PayloadEnds(index, entries[..p], enc);
      PayloadSplits(entries, enc, p);
      EntryOfObject(index, payload, p);
      var rest := payload[index.offset[p]..];
      var own := payload[index.offset[p]..index.offset[p + 1]];
      assert Holds(dec, own, other.entries[p]);
      assert own <= rest;
      assert enc(entries[p]) <= rest;
      ReadsAlike(enc, dec, entries[p], own, rest, other.entries[p]);
      assert |own| == index.offset[p + 1] - index.offset[p];
      SumsExtend(index, entries, enc, p);
    }
  }

  /**
   * A written bundle decodes exactly when its offsets are the running sums of its entry lengths, and then to
   * itself: offsets that do not fit the entries are never read as some other bundle.
   */
  lemma WrittenBundleDecodes<T(!new)>(bundle: Bundle<T>, enc: Encoder<T>, dec: Decoder<T>, other: Bundle<T>)
    requires SelfDelimiting(enc, dec) && |bundle.entries| == CAPACITY && Accepted(bundle.index, CAPACITY)
    ensures Decodes(Layout(bundle.index) + Payload(bundle.entries, enc), dec, other) <==>
      RunningSums(bundle.index, bundle.entries, enc) && other == bundle
  {
    hide Layout, Parse, Accepted, Framed, IndexOf, EntryOf, SelfDelimiting, Holds;
    var s := Layout(bundle.index) + Payload(bundle.entries, enc);
    if Decodes(s, dec, other) {
      CutAtEntryEnds(bundle.index, bundle.entries, enc, dec, other, CAPACITY);
      assert bundle.entries[..CAPACITY] == bundle.entries;
      assert other.entries == bundle.entries;
      FramedObject(bundle.index, Payload(bundle.entries, enc));
    } else if RunningSums(bundle.index, bundle.entries, enc) {
      RunningSumsRoundTrip(bundle, enc, dec);
    }
  }

  /** Only the encoding of a value is read as that value. */
  ghost predicate Canonical<T(!new)>(enc: Encoder<T>, dec: Decoder<T>) {
    forall s: seq<byte>, e: T :: Holds(dec, s, e) ==> s == enc(e)
  }

  lemma {:induction false} DecodedPayload<T(!new)>(
    s: seq<byte>, enc: Encoder<T>, dec: Decoder<T>, bundle: Bundle<T>, n: nat)
    requires Canonical(enc, dec) && Decodes(s, dec, bundle) && n <= CAPACITY
    ensures bundle.index.offset[n] <= |s| - INDEX_BYTES
    ensures Payload(bundle.entries[..n], enc) == s[INDEX_BYTES..INDEX_BYTES + bundle.index.offset[n]]
  {
    hide Accepted, Framed, IndexOf;
    if n == 0 {
      AcceptedStartsAtZero(IndexOf(s));
      EntryInside(s, 0);
    } else {
      DecodedPayload(s, enc, dec, bundle, n - 1);
      EntryInside(s, n - 1);
      assert Holds(dec, EntryOf(s, n - 1), bundle.entries[n - 1]);
      assert bundle.entries[..n][..n - 1] == bundle.entries[..n - 1];
    }
  }

  /** A decoded bundle is written back byte for byte. */
  lemma DecodedBundleEncodes<T(!new)>(s: seq<byte>, enc: Encoder<T>, dec: Decoder<T>, bundle: Bundle<T>)
    requires Canonical(enc, dec) && Decodes(s, dec, bundle)
    ensures Layout(bundle.index) + Payload(bundle.entries, enc) == s
  {
    hide Accepted, Layout, Parse, EntryOf;
    DecodedPayload(s, enc, dec, bundle, CAPACITY);
    assert bundle.entries[..CAPACITY] == bundle.entries;
    LayoutRoundTrip(bundle.index, s[..INDEX_BYTES]);
  }

  // ----- A bundle that does not decode -----

  /** Entries of two equal bytes. */
  function EncodePair(e: byte): seq<byte> {
    [e, e]
  }

  function DecodePair(s: seq<byte>): Option<(byte, nat)> {
    if |s| < 2 then None else Some((s[0], 2))
  }

  /** Offsets that rise to the end of the payload but put the first cut inside the first entry. */
  function MisplacedCut(): Index {
    RawIndex(
      seq(BITMAP_BYTES, _ => 0),
      seq(OFFSET_COUNT, i requires 0 <= i < OFFSET_COUNT => if i == 1 then 1 else 2 * i))
  }

  lemma {:induction false} PairPayload(entries: seq<byte>)
    ensures |Payload(entries, EncodePair)| == 2 * |entries|
  {
    if entries != [] {
      PairPayload(entries[..|entries| - 1]);
    }
  }

  /** Encoding does not check the offsets against the entries: this bundle is written, with the length its index
      announces, and cannot be read. */
  lemma MisplacedCutDoesNotDecode(entries: seq<byte>, other: Bundle<byte>)
    requires |entries| == CAPACITY
    ensures SelfDelimiting(EncodePair, DecodePair) && Accepted(MisplacedCut(), CAPACITY)
    ensures |Payload(entries, EncodePair)| == MisplacedCut().offset[CAPACITY]
    ensures !Decodes(Layout(MisplacedCut()) + Payload(entries, EncodePair), DecodePair, other)
  {
    hide Decodes, Layout, Payload;
    PairPayload(entries);
    var bundle := Bundle(MisplacedCut(), entries);
    assert !RunningSums(bundle.index, entries, EncodePair) by {
      assert bundle.index.offset[0 + 1] != bundle.index.offset[0] + |EncodePair(entries[0])|;
    }
    WrittenBundleDecodes(bundle, EncodePair, DecodePair, other);
  }
}
