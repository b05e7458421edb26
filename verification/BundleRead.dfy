/** Which bundle a block lives in, and where. */
module BundleNumbering {
  import opened Bytes
  import opened BundleIndex

  const BUNDLE_SIZE: nat := 1000

  function BundleId(number: u64): u64 {
    if number == 0 then 0 else (number - 1) / BUNDLE_SIZE + 1
  }

  function BundlePosition(number: u64): nat {
    if number == 0 then 0 else (number - 1) % BUNDLE_SIZE
  }

  /** The product saturates at the largest 64-bit number. */
  function BundleEnd(number: u64): u64 {
    var id := BundleId(number);
    if id == 0 then 0 else if id * BUNDLE_SIZE >= U64_END then U64_END - 1 else id * BUNDLE_SIZE
  }

  function FirstBlock(id: nat): nat {
    if id == 0 then 0 else (id - 1) * BUNDLE_SIZE + 1
  }

  /** A bundle is a run of consecutive numbers; `BundleEnd` is its last one, also where the product saturates. */
  lemma BundleIsARun(n: u64, m: u64)
    ensures BundleId(m) == BundleId(n) <==> FirstBlock(BundleId(n)) <= m <= BundleEnd(n)
    ensures m == FirstBlock(BundleId(m)) + BundlePosition(m)
    ensures BundlePosition(m) < EntryCount(BundleId(m))
  {
  }

  /** Every place of a bundle is some block's. */
  lemma BundleIsFull(id: nat, position: nat)
    requires position < EntryCount(id) && FirstBlock(id) + position < U64_END
    ensures var number := FirstBlock(id) + position; BundleId(number) == id && BundlePosition(number) == position
  {
  }
}

/** Reading the requested part of one bundle and handing every block to a callback. */
module BundleReading {
  import opened Bytes
  import opened Ranges
  import opened BundleIndex
  import opened BundleCodec
  import opened BundleNumbering

  const MEBIBYTE: nat := 1048576

  datatype BlockInfo = BlockInfo(number: u64, hash: nat, parentHash: nat, stateRoot: nat)

  /** A state diff: the roots it leads from and to, and its changes. */
  datatype Diff = Diff(hash: nat, parentHash: nat, changes: seq<byte>)

  datatype KeyMode = StateRoot | BlockHash

  datatype ReadError =
    | EmptyRange
    | CrossesBoundary
    | Unavailable
    | BadIndex(fault: Error)
    | WrongSize
    | Synthesized(position: nat)
    | BadHeaders
    | BadEntry(position: nat)
    | CallbackFailed(position: nat)

  /** The receiver of the blocks; it may refuse any call. */
  datatype Call = Call(info: BlockInfo, diff: Diff)

  class Sink {
    const fails: nat -> bool
    var calls: seq<Call>

    constructor (fails: nat -> bool)
      ensures calls == [] && this.fails == fails
    {
      this.fails := fails;
      calls := [];
    }

    method Process(info: BlockInfo, diff: Diff) returns (ok: bool)
      modifies this
      ensures calls == old(calls) + [Call(info, diff)]
      ensures ok <==> !fails(|old(calls)|)
    {
      ok := !fails(|calls|);
      calls := calls + [Call(info, diff)];
    }
  }

  // ----- The object store -----

  /** What the store answers to a byte-range request: the bytes and the size of the whole object. */
  datatype Response = Missing | Failed | Body(bytes: seq<byte>, total: nat)

  /** Answers may differ from request to request. */
  type Store = (nat, nat, nat) -> Response

  /** The store holds one object and answers every request inside it from it. */
  ghost predicate Serves(store: Store, stored: seq<byte>) {
    forall request: nat, first: nat, last: nat :: first <= last < |stored| ==>
      store(request, first, last) == Body(stored[first..last + 1], |stored|)
  }

  function ReadRange(
    store: Store, request: nat, first: nat, last: nat): (r: Result<Option<(seq<byte>, nat)>, ReadError>)
    requires first <= last
    ensures r.Ok? && r.value.Some? ==> |r.value.value.0| == last + 1 - first && last < r.value.value.1
    ensures r.Ok? && r.value.Some? ==> store(request, first, last) == Body(r.value.value.0, r.value.value.1)
  {
    match store(request, first, last)
    case Missing => Ok(None)
    case Failed => Err(Unavailable)
    case Body(bytes, total) =>
      if |bytes| != last + 1 - first || total <= last || total >= U64_END then Err(Unavailable)
      else Ok(Some((bytes, total)))
  }

  // ----- Headers -----

  predicate HeaderOk(id: nat, headers: seq<BlockInfo>, p: nat)
    requires p < |headers|
  {
    && headers[p].number == FirstBlock(id) + p
    && (p > 0 ==> headers[p].parentHash == headers[p - 1].hash)
  }

  predicate HeadersOk(id: nat, headers: seq<BlockInfo>) {
    && |headers| == EntryCount(id)
    && forall p: nat :: p < |headers| ==> HeaderOk(id, headers, p)
  }

  /** `parsed` is the decompressed header list, if it could be read at all. */
  method DecodeBundleHeaders(id: u64, parsed: Option<seq<BlockInfo>>) returns (r: Result<seq<BlockInfo>, ReadError>)
    ensures r.Ok? <==> parsed.Some? && HeadersOk(id, parsed.value)
    ensures r.Ok? ==> r.value == parsed.value
  {
    if parsed.None? || |parsed.value| != EntryCount(id) {
      return Err(BadHeaders);
    }
    var headers := parsed.value;
    var first := FirstBlock(id);
    for position := 0 to |headers|
      invariant forall p: nat :: p < position ==> HeaderOk(id, headers, p)
    {
      if first + position >= U64_END || headers[position].number != first + position {
        assert !HeaderOk(id, headers, position);
        return Err(BadHeaders);
      }
      if position > 0 && headers[position].parentHash != headers[position - 1].hash {
        assert !HeaderOk(id, headers, position);
        return Err(BadHeaders);
      }
    }
    return Ok(headers);
  }

  // ----- Grouping entries into one request -----

  function Span(index: Index, first: nat, last: nat): int
    requires first <= last < CAPACITY
  {
    index.offset[last + 1] as int - index.offset[first] as int
  }

  /** A group may exceed the limit only when it is a single entry, and no further entry would fit. */
  predicate Greedy(index: Index, first: nat, end: nat, limit: nat, last: nat)
    requires end < CAPACITY
  {
    && first <= last <= end
    && (first < last ==> Span(index, first, last) <= limit)
    && forall q :: last < q <= end ==> Span(index, first, q) > limit
  }

  lemma RangeFails(index: Index, p: nat, end: nat)
    requires p <= end < CAPACITY && PayloadRange(index, p).Err?
    ensures !RisesTo(index, end + 1)
  {
    assert !Rises(index, p);
  }

  lemma RangeValue(index: Index, p: nat)
    requires p < CAPACITY && PayloadRange(index, p).Ok?
    ensures PayloadRange(index, p).value == (index.offset[p], index.offset[p + 1])
  {
  }

  /** Spans only grow, so every longer group is over the limit as well. */
  lemma LimitPassed(index: Index, first: nat, position: nat, end: nat, limit: nat)
    requires first <= position <= end < CAPACITY && Span(index, first, position) > limit
    ensures RisesTo(index, end + 1) ==> forall q :: position <= q <= end ==> Span(index, first, q) > limit
  {
    if RisesTo(index, end + 1) {
      forall q | position < q <= end
        ensures Span(index, first, q) > limit
      {
        OffsetsRise(index, end + 1, position + 1, q + 1);
      }
    }
  }

  method StateDiffRangeEnd(index: Index, first: nat, end: nat, limit: nat) returns (r: Result<nat, Error>)
    requires first <= end < CAPACITY
    ensures RisesTo(index, end + 1) ==> r.Ok? && Greedy(index, first, end, limit, r.value)
    ensures r.Err? ==> exists p: nat :: first <= p <= end && PayloadRange(index, p).Err?
  {
    hide PayloadRange;
    var range := PayloadRange(index, first);
    if range.Err? {
      RangeFails(index, first, end);
      return Err(range.error);
    }
    var last := first;
    for position := first + 1 to end + 1
      invariant last == position - 1
      invariant first < last ==> Span(index, first, last) <= limit
    {
      var next := PayloadRange(index, position);
      if next.Err? {
        RangeFails(index, position, end);
        return Err(next.error);
      }
      RangeValue(index, position);
      RangeValue(index, first);
      if next.value.1 - range.value.0 > limit {
        LimitPassed(index, first, position, end, limit);
        return Ok(last);
      }
      last := position;
    }
    return Ok(last);
  }

  // ----- One request and its entries -----

  /** A request for the entries `first` to `last` and the bytes it returned. */
  datatype Fetch = Fetch(first: nat, last: nat, bytes: seq<byte>)

  function WindowOf(f: Fetch): Window {
    Window(f.first, f.last)
  }

  predicate Sized(index: Index, count: nat, f: Fetch)
    requires count <= CAPACITY
  {
    && f.first <= f.last < count
    && |f.bytes| == Span(index, f.first, f.last)
  }

  lemma EntryInFetch(index: Index, count: nat, f: Fetch, p: nat)
    requires count <= CAPACITY && RisesTo(index, count) && Sized(index, count, f) && f.first <= p <= f.last
    ensures index.offset[f.first] <= index.offset[p] < index.offset[p + 1] <= index.offset[f.first] + |f.bytes|
  {
    assert Rises(index, p);
    if f.first < p {
      OffsetsRise(index, count, f.first, p);
    }
    if p < f.last {
      OffsetsRise(index, count, p + 1, f.last + 1);
    }
  }

  /** The bytes of entry `p` inside the fetched range. */
  function Own(index: Index, count: nat, f: Fetch, p: nat): seq<byte>
    requires count <= CAPACITY && RisesTo(index, count) && Sized(index, count, f) && f.first <= p <= f.last
  {
    EntryInFetch(index, count, f, p);
    f.bytes[index.offset[p] - index.offset[f.first]..index.offset[p + 1] - index.offset[f.first]]
  }

  /** The diff leads to the block's root, from the root of the block before it in the bundle. */
  predicate RootsAgree(headers: seq<BlockInfo>, p: nat, d: Diff)
    requires p < |headers|
  {
    && d.hash == headers[p].stateRoot
    && (p > 0 ==> d.parentHash == headers[p - 1].stateRoot)
  }

  /** The entry's bytes are exactly one diff and it fits the headers. */
  predicate Fits(dec: Decoder<Diff>, headers: seq<BlockInfo>, p: nat, own: seq<byte>, d: Diff)
    requires p < |headers|
  {
    Holds(dec, own, d) && RootsAgree(headers, p, d)
  }

  predicate Delivers(dec: Decoder<Diff>, headers: seq<BlockInfo>, p: nat, own: seq<byte>, c: Call)
    requires p < |headers|
  {
    c.info == headers[p] && Fits(dec, headers, p, own, c.diff)
  }

  predicate DeliversFrom(dec: Decoder<Diff>, headers: seq<BlockInfo>, index: Index, f: Fetch, done: seq<Call>)
    requires |headers| <= CAPACITY && RisesTo(index, |headers|) && Sized(index, |headers|, f)
  {
    && |done| <= f.last + 1 - f.first
    && forall p :: f.first <= p < f.first + |done| ==>
      Delivers(dec, headers, p, Own(index, |headers|, f, p), done[p - f.first])
  }

  /** Why a group stopped: an entry that fits nothing, or a refused call. */
  ghost predicate GroupFault(
    dec: Decoder<Diff>, headers: seq<BlockInfo>, index: Index, f: Fetch, fails: nat -> bool, called: nat, e: ReadError)
    requires |headers| <= CAPACITY && RisesTo(index, |headers|) && Sized(index, |headers|, f)
  {
    match e
    case BadEntry(p) => f.first <= p <= f.last &&
      forall d: Diff :: !Fits(dec, headers, p, Own(index, |headers|, f, p), d)
    case CallbackFailed(p) => f.first <= p <= f.last && fails(called + p - f.first)
    case _ => false
  }

  method ProcessGroup(dec: Decoder<Diff>, headers: seq<BlockInfo>, index: Index, f: Fetch, sink: Sink)
    returns (r: Result<BlockInfo, ReadError>, ghost done: seq<Call>)
    requires |headers| <= CAPACITY && RisesTo(index, |headers|) && Sized(index, |headers|, f)
    modifies sink
    ensures sink.calls == old(sink.calls) + done
    ensures DeliversFrom(dec, headers, index, f, done)
    ensures r.Ok? ==> |done| == f.last + 1 - f.first && r.value == headers[f.last]
    ensures r.Err? ==> GroupFault(dec, headers, index, f, sink.fails, |old(sink.calls)|, r.error)
  {
    hide RisesTo, Own, Span;
    done := [];
    var last := headers[f.first];
    for position := f.first to f.last + 1
      invariant |done| == position - f.first
      invariant sink.calls == old(sink.calls) + done
      invariant DeliversFrom(dec, headers, index, f, done)
      invariant position > f.first ==> last == headers[position - 1]
    {
      var own := Own(index, |headers|, f, position);
      var entry := dec(own);
      if entry.None? || entry.value.1 != |own| || !RootsAgree(headers, position, entry.value.0) {
        return Err(BadEntry(position)), done;
      }
      var ok := sink.Process(headers[position], entry.value.0);
      done := done + [Call(headers[position], entry.value.0)];
      if !ok {
        return Err(CallbackFailed(position)), done;
      }
      last := headers[position];
    }
    r := Ok(last);
  }

  // ----- A run of requests -----

  /** The one fetch that holds entry `p`. */
  function FetchOf(fetches: seq<Fetch>, from: nat, next: nat, p: nat): (f: Fetch)
    requires Tiles(fetches, WindowOf, from, next) && from <= p < next
    ensures f in fetches && f.first <= p <= f.last
  {
    var f := fetches[|fetches| - 1];
    if f.first <= p then f else FetchOf(fetches[..|fetches| - 1], from, f.first, p)
  }

  predicate AllSized(index: Index, count: nat, fetches: seq<Fetch>)
    requires count <= CAPACITY
  {
    forall f :: f in fetches ==> Sized(index, count, f)
  }

  predicate AllGreedy(index: Index, end: nat, limit: nat, fetches: seq<Fetch>)
    requires end < CAPACITY
  {
    forall f :: f in fetches ==> Greedy(index, f.first, end, limit, f.last)
  }

  predicate AnsweredBy(store: Store, index: Index, count: nat, total: nat, request: nat, f: Fetch)
    requires count <= CAPACITY && RisesTo(index, count) && Sized(index, count, f)
  {
    EntryInFetch(index, count, f, f.last);
    store(request, INDEX_BYTES + index.offset[f.first], INDEX_BYTES + index.offset[f.last + 1] - 1) ==
      Body(f.bytes, total)
  }

  /** Request `i + 1` was answered with the bytes of fetch `i`; request 0 read the index. */
  predicate Answered(store: Store, index: Index, count: nat, total: nat, fetches: seq<Fetch>)
    requires count <= CAPACITY && RisesTo(index, count) && AllSized(index, count, fetches)
  {
    forall i: nat :: i < |fetches| ==> AnsweredBy(store, index, count, total, i + 1, fetches[i])
  }

  predicate DeliveredAt(
    dec: Decoder<Diff>, headers: seq<BlockInfo>, index: Index, fetches: seq<Fetch>, from: nat, next: nat,
    done: seq<Call>, p: nat)
    requires |headers| <= CAPACITY && RisesTo(index, |headers|) && AllSized(index, |headers|, fetches)
    requires Tiles(fetches, WindowOf, from, next) && from <= p < from + |done| <= next
  {
    Delivers(dec, headers, p, Own(index, |headers|, FetchOf(fetches, from, next, p), p), done[p - from])
  }

  /** Every call made so far carries the block at its place, decoded from that entry's own bytes. */
  predicate AllDelivered(
    dec: Decoder<Diff>, headers: seq<BlockInfo>, index: Index, fetches: seq<Fetch>, from: nat, next: nat,
    done: seq<Call>)
    requires |headers| <= CAPACITY && RisesTo(index, |headers|) && AllSized(index, |headers|, fetches)
    requires Tiles(fetches, WindowOf, from, next)
  {
    && from + |done| <= next
    && forall p :: from <= p < from + |done| ==> DeliveredAt(dec, headers, index, fetches, from, next, done, p)
  }

  /** The whole account of the payload requests made between `from` and `next`. */
  predicate Run(
    store: Store, dec: Decoder<Diff>, headers: seq<BlockInfo>, index: Index, total: nat,
    from: nat, end: nat, limit: nat, fetches: seq<Fetch>, next: nat, done: seq<Call>)
    requires end < |headers| <= CAPACITY && RisesTo(index, |headers|)
  {
    && Tiles(fetches, WindowOf, from, next)
    && AllSized(index, |headers|, fetches)
    && AllGreedy(index, end, limit, fetches)
    && Answered(store, index, |headers|, total, fetches)
    && AllDelivered(dec, headers, index, fetches, from, next, done)
  }

  lemma SizedOrder(index: Index, count: nat, f: Fetch)
    requires count <= CAPACITY && Sized(index, count, f)
    ensures f.first <= f.last < count
  {
  }

  lemma RunExtends(
    store: Store, dec: Decoder<Diff>, headers: seq<BlockInfo>, index: Index, total: nat,
    from: nat, end: nat, limit: nat, fetches: seq<Fetch>, next: nat, done: seq<Call>, f: Fetch, more: seq<Call>)
    requires end < |headers| <= CAPACITY && RisesTo(index, |headers|)
    requires Run(store, dec, headers, index, total, from, end, limit, fetches, next, done) && |done| == next - from
    requires Sized(index, |headers|, f) && f.first == next && Greedy(index, f.first, end, limit, f.last)
    requires AnsweredBy(store, index, |headers|, total, |fetches| + 1, f)
    requires DeliversFrom(dec, headers, index, f, more)
    ensures Run(store, dec, headers, index, total, from, end, limit, fetches + [f], f.last + 1, done + more)
  {
    hide RisesTo, Sized, Greedy, AnsweredBy, Own, Delivers;
    var all, calls, after := fetches + [f], done + more, f.last + 1;
    assert all[..|fetches|] == fetches;
    SizedOrder(index, |headers|, f);
    TilesExtend(fetches, WindowOf, from, next, f);
    assert AllSized(index, |headers|, all);
    assert AllGreedy(index, end, limit, all);
    assert Answered(store, index, |headers|, total, all);
    forall p | from <= p < from + |calls|
      ensures DeliveredAt(dec, headers, index, all, from, after, calls, p)
    {
      if p < next {
        assert DeliveredAt(dec, headers, index, fetches, from, next, done, p);
        assert calls[p - from] == done[p - from];
      } else {
        assert calls[p - from] == more[p - f.first];
      }
    }
  }

  // ----- Reading a bundle -----

  predicate LinkedAt(done: seq<Call>, start: nat, k: nat)
    requires k < |done|
  {
    && done[k].info.number == start + k
    && done[k].diff.hash == done[k].info.stateRoot
    && (k > 0 ==>
      && done[k].info.parentHash == done[k - 1].info.hash
      && done[k].diff.parentHash == done[k - 1].info.stateRoot)
  }

  /** Ascending consecutive blocks, each linked to the one before by hash and by state root. */
  predicate LinkedBlocks(done: seq<Call>, start: nat) {
    forall k: nat :: k < |done| ==> LinkedAt(done, start, k)
  }

  lemma CallAt(
    dec: Decoder<Diff>, headers: seq<BlockInfo>, index: Index, fetches: seq<Fetch>, from: nat, next: nat,
    done: seq<Call>, k: nat)
    requires |headers| <= CAPACITY && RisesTo(index, |headers|) && AllSized(index, |headers|, fetches)
    requires Tiles(fetches, WindowOf, from, next) && AllDelivered(dec, headers, index, fetches, from, next, done) &&
      k < |done|
    ensures from + k < |headers| && done[k].info == headers[from + k] && RootsAgree(headers, from + k, done[k].diff)
  {
    hide RisesTo, Own;
    assert DeliveredAt(dec, headers, index, fetches, from, next, done, from + k);
  }

  lemma NoFetchNoCall(
    dec: Decoder<Diff>, headers: seq<BlockInfo>, index: Index, fetches: seq<Fetch>, from: nat, next: nat,
    done: seq<Call>)
    requires |headers| <= CAPACITY && RisesTo(index, |headers|) && AllSized(index, |headers|, fetches)
    requires Tiles(fetches, WindowOf, from, next) && AllDelivered(dec, headers, index, fetches, from, next, done)
    ensures fetches == [] ==> done == []
  {
  }

  lemma RunIsLinked(
    store: Store, dec: Decoder<Diff>, id: nat, headers: seq<BlockInfo>, index: Index, total: nat,
    from: nat, end: nat, limit: nat, fetches: seq<Fetch>, next: nat, done: seq<Call>)
    requires HeadersOk(id, headers) && end < |headers| && RisesTo(index, |headers|)
    requires Run(store, dec, headers, index, total, from, end, limit, fetches, next, done)
    ensures LinkedBlocks(done, FirstBlock(id) + from)
  {
    hide RisesTo, AllSized, AllGreedy, Answered, Tiles, AllDelivered, FirstBlock;
    var start := FirstBlock(id) + from;
    forall k: nat | k < |done|
      ensures LinkedAt(done, start, k)
    {
      CallAt(dec, headers, index, fetches, from, next, done, k);
      assert HeaderOk(id, headers, from + k);
      if k > 0 {
        CallAt(dec, headers, index, fetches, from, next, done, k - 1);
      }
    }
  }

  lemma EntryOrder(index: Index, count: nat, p: nat)
    requires p < count <= CAPACITY && RisesTo(index, count)
    ensures index.offset[p] < index.offset[p + 1] <= index.offset[count]
  {
    assert Rises(index, p);
    if p + 1 < count {
      OffsetsRise(index, count, p + 1, count);
    }
  }

  function StoredEntry(index: Index, count: nat, stored: seq<byte>, p: nat): seq<byte>
    requires p < count <= CAPACITY && RisesTo(index, count) && |stored| == INDEX_BYTES + index.offset[count]
  {
    EntryOrder(index, count, p);
    EntryBytes(index, stored, p)
  }

  ghost predicate EntryFits(dec: Decoder<Diff>, headers: seq<BlockInfo>, index: Index, stored: seq<byte>, p: nat)
    requires p < |headers| <= CAPACITY && RisesTo(index, |headers|)
    requires |stored| == INDEX_BYTES + index.offset[|headers|]
  {
    exists d: Diff :: Fits(dec, headers, p, StoredEntry(index, |headers|, stored, p), d)
  }

  /** Every requested entry of the stored object holds a diff that fits the headers. */
  ghost predicate EntriesFit(
    dec: Decoder<Diff>, headers: seq<BlockInfo>, index: Index, stored: seq<byte>, first: nat, last: nat)
    requires last < |headers| <= CAPACITY && RisesTo(index, |headers|)
    requires |stored| == INDEX_BYTES + index.offset[|headers|]
  {
    forall p: nat :: first <= p <= last ==> EntryFits(dec, headers, index, stored, p)
  }

  lemma SliceOfSlice(s: seq<byte>, first: nat, end: nat, a: nat, b: nat)
    requires first <= end <= |s| && a <= b <= end - first
    ensures s[first..end][a..b] == s[first + a..first + b]
  {
    var inner, outer := s[first..end][a..b], s[first + a..first + b];
    assert |inner| == |outer|;
    forall k | 0 <= k < |outer|
      ensures inner[k] == outer[k]
    {
      assert s[first..end][a + k] == s[first + (a + k)];
    }
  }

  /** Against a store that holds one object, an entry's own bytes are that object's. */
  lemma OwnIsStored(
    store: Store, stored: seq<byte>, index: Index, count: nat, total: nat, request: nat, f: Fetch, p: nat)
    requires count <= CAPACITY && RisesTo(index, count) && Sized(index, count, f) && f.first <= p <= f.last
    requires AnsweredBy(store, index, count, total, request, f)
    requires Serves(store, stored) && |stored| == INDEX_BYTES + index.offset[count]
    ensures Own(index, count, f, p) == StoredEntry(index, count, stored, p)
  {
    hide RisesTo;
    EntryInFetch(index, count, f, p);
    EntryInFetch(index, count, f, f.last);
    EntryOrder(index, count, f.last);
    EntryOrder(index, count, p);
    var first, last := INDEX_BYTES + index.offset[f.first], INDEX_BYTES + index.offset[f.last + 1] - 1;
    assert store(request, first, last) == Body(stored[first..last + 1], |stored|);
    SliceOfSlice(
      stored, first, last + 1, index.offset[p] - index.offset[f.first], index.offset[p + 1] - index.offset[f.first]);
  }

  /** Nothing the requests meet can go wrong: one object, whose entries fit, and a receiver that refuses nothing. */
  ghost predicate PayloadReady(
    store: Store, stored: seq<byte>, dec: Decoder<Diff>, headers: seq<BlockInfo>, index: Index, first: nat, last: nat,
    fails: nat -> bool)
    requires last < |headers| <= CAPACITY && RisesTo(index, |headers|)
  {
    && Serves(store, stored)
    && |stored| == INDEX_BYTES + index.offset[|headers|] < U64_END
    && EntriesFit(dec, headers, index, stored, first, last)
    && forall k: nat :: !fails(k)
  }

  lemma FaultIsNotReady(
    store: Store, stored: seq<byte>, dec: Decoder<Diff>, headers: seq<BlockInfo>, index: Index, total: nat,
    request: nat, first: nat, last: nat, f: Fetch, fails: nat -> bool, called: nat, e: ReadError)
    requires last < |headers| <= CAPACITY && RisesTo(index, |headers|)
    requires Sized(index, |headers|, f) && first <= f.first && f.last <= last
    requires AnsweredBy(store, index, |headers|, total, request, f)
    requires GroupFault(dec, headers, index, f, fails, called, e)
    ensures !PayloadReady(store, stored, dec, headers, index, first, last, fails)
  {
    hide RisesTo, Own, StoredEntry, Fits, AnsweredBy;
    if PayloadReady(store, stored, dec, headers, index, first, last, fails) && e.BadEntry? {
      assert EntryFits(dec, headers, index, stored, e.position);
      OwnIsStored(store, stored, index, |headers|, total, request, f, e.position);
    }
  }

  /** Asks for the group of entries that starts at `position`. */
  method FetchGroup(
    store: Store, request: nat, index: Index, count: nat, total: nat, position: nat, end: nat, limit: nat,
    ghost stored: seq<byte>)
    returns (r: Result<Fetch, ReadError>)
    requires position <= end < count <= CAPACITY && RisesTo(index, count) && total == INDEX_BYTES + index.offset[count]
    ensures r.Ok? ==> Sized(index, count, r.value) && r.value.first == position
    ensures r.Ok? ==> Greedy(index, position, end, limit, r.value.last)
    ensures r.Ok? ==> AnsweredBy(store, index, count, total, request, r.value)
    ensures r.Err? ==> total >= U64_END || |stored| != total || !Serves(store, stored)
  {
    hide PayloadRange;
    assert RisesTo(index, end + 1) by {
      forall p: nat | p < end + 1 ensures Rises(index, p) { assert p < count; }
    }
    var last := StateDiffRangeEnd(index, position, end, limit);
    EntryOrder(index, count, position);
    EntryOrder(index, count, last.value);
    if position < last.value {
      OffsetsRise(index, count, position, last.value);
    }
    // Both bounds lie inside the object, whose size fits 64 bits.
    var first, final := INDEX_BYTES + index.offset[position], INDEX_BYTES + index.offset[last.value + 1] - 1;
    var response := ReadRange(store, request, first, final);
    if response.Err? || response.value.None? {
      return Err(Unavailable);
    }
    if response.value.value.1 != total {
      return Err(WrongSize);
    }
    return Ok(Fetch(position, last.value, response.value.value.0));
  }

  lemma EmptyRun(
    store: Store, dec: Decoder<Diff>, headers: seq<BlockInfo>, index: Index, total: nat, start: nat, end: nat,
    limit: nat)
    requires end < |headers| <= CAPACITY && RisesTo(index, |headers|)
    ensures Run(store, dec, headers, index, total, start, end, limit, [], start, [])
  {
  }

  lemma GreedyOrder(index: Index, first: nat, end: nat, limit: nat, last: nat)
    requires end < CAPACITY && Greedy(index, first, end, limit, last)
    ensures first <= last <= end
  {
  }

  method ReadGroups(
    store: Store, dec: Decoder<Diff>, headers: seq<BlockInfo>, index: Index, total: nat, start: nat, end: nat,
    limit: nat, sink: Sink, ghost stored: seq<byte>)
    returns (r: Result<Option<BlockInfo>, ReadError>, ghost fetches: seq<Fetch>, ghost next: nat, ghost done: seq<Call>)
    requires start <= end < |headers| <= CAPACITY && RisesTo(index, |headers|)
    requires total == INDEX_BYTES + index.offset[|headers|] < U64_END
    modifies sink
    ensures sink.calls == old(sink.calls) + done
    ensures Run(store, dec, headers, index, total, start, end, limit, fetches, next, done)
    ensures r.Ok? ==> next == end + 1 && |done| == end + 1 - start && r.value == Some(headers[end])
    ensures r.Err? ==> !PayloadReady(store, stored, dec, headers, index, start, end, sink.fails)
  {
    hide Sized, Greedy, AnsweredBy, RisesTo, Run, GroupFault, DeliversFrom, Serves, EntriesFit;
    var position, last := start, None;
    fetches, next, done := [], start, [];
    EmptyRun(store, dec, headers, index, total, start, end, limit);
    var request := 1;
    while position <= end
      invariant start <= position <= end + 1 && next == position && |done| == position - start
      invariant request == |fetches| + 1
      invariant sink.calls == old(sink.calls) + done
      invariant Run(store, dec, headers, index, total, start, end, limit, fetches, next, done)
      invariant position > start ==> last == Some(headers[position - 1])
    {
      var fetch := FetchGroup(store, request, index, |headers|, total, position, end, limit, stored);
      if fetch.Err? {
        return Err(fetch.error), fetches, next, done;
      }
      var f := fetch.value;
      GreedyOrder(index, position, end, limit, f.last);
      ghost var called := |sink.calls|;
      var group, more := ProcessGroup(dec, headers, index, f, sink);
      RunExtends(store, dec, headers, index, total, start, end, limit, fetches, next, done, f, more);
      fetches, next, done := fetches + [f], f.last + 1, done + more;
      if group.Err? {
        FaultIsNotReady(
          store, stored, dec, headers, index, total, request, start, end, f, sink.fails, called, group.error);
        return Err(group.error), fetches, next, done;
      }
      last := Some(group.value);
      position := f.last + 1;
      request := request + 1;
    }
    return Ok(last), fetches, next, done;
  }

  /** The index an object's first bytes spell, if they were served at all. */
  predicate IndexServed(store: Store, index: Index) {
    var response := store(0, 0, INDEX_BYTES - 1);
    response.Body? && |response.bytes| == INDEX_BYTES && Parse(response.bytes) == index
  }

  /** The store holds an object that starts with an accepted index accounting for its size. */
  ghost predicate IndexReady(store: Store, stored: seq<byte>, id: nat) {
    && Serves(store, stored)
    && INDEX_BYTES <= |stored| < U64_END
    && Accepted(Parse(stored[..INDEX_BYTES]), EntryCount(id))
    && |stored| == INDEX_BYTES + Parse(stored[..INDEX_BYTES]).offset[EntryCount(id)]
  }

  method OpenIndex(store: Store, id: u64) returns (r: Result<Option<(Index, nat)>, ReadError>)
    ensures r == Ok(None) <==> store(0, 0, INDEX_BYTES - 1).Missing?
    ensures r.Ok? && r.value.Some? ==>
      && IndexServed(store, r.value.value.0) && Accepted(r.value.value.0, EntryCount(id))
      && r.value.value.1 == INDEX_BYTES + r.value.value.0.offset[EntryCount(id)] < U64_END
    ensures r.Ok? && r.value.Some? ==>
      forall stored: seq<byte> :: IndexReady(store, stored, id) ==> Parse(stored[..INDEX_BYTES]) == r.value.value.0
    ensures r.Err? ==> forall stored: seq<byte> :: !IndexReady(store, stored, id)
    ensures r.Ok? && r.value.None? ==> forall stored: seq<byte> :: !IndexReady(store, stored, id)
  {
    hide Accepted, Parse, FirstFault;
    var response := ReadRange(store, 0, 0, INDEX_BYTES - 1);
    if response.Err? {
      return Err(response.error);
    }
    if response.value.None? {
      return Ok(None);
    }
    var bytes, total := response.value.value.0, response.value.value.1;
    forall stored: seq<byte> | |stored| >= INDEX_BYTES && Serves(store, stored)
      ensures bytes == stored[..INDEX_BYTES] && total == |stored|
    {
      assert store(0, 0, INDEX_BYTES - 1) == Body(stored[0..INDEX_BYTES - 1 + 1], |stored|);
    }
    var index := DecodeForBundle(id, bytes);
    if index.Err? {
      return Err(BadIndex(index.error));
    }
    var size := PayloadSize(index.value);
    if INDEX_BYTES + size >= U64_END || total != INDEX_BYTES + size {
      return Err(WrongSize);
    }
    return Ok(Some((index.value, total)));
  }

  predicate AllSource(index: Index, first: nat, last: nat)
    requires last < CAPACITY
  {
    forall p: nat :: first <= p <= last ==> Bit(index.bitmap, p)
  }

  method CheckSources(index: Index, count: nat, first: nat, last: nat) returns (r: Result<(), ReadError>)
    requires first <= last < count <= CAPACITY && Accepted(index, count)
    ensures r.Ok? <==> AllSource(index, first, last)
    ensures r.Err? ==> r.error.Synthesized? && first <= r.error.position <= last && !Bit(index.bitmap, r.error.position)
  {
    hide Accepted, PayloadRange, Bit;
    for position := first to last + 1
      invariant forall p: nat :: first <= p < position ==> Bit(index.bitmap, p)
    {
      RangesAreEntries(index, count, position);
      var source := HasSourceDiff(index, position);
      if source.Ok? && !source.value {
        return Err(Synthesized(position));
      }
    }
    return Ok(());
  }

  /** What a successful read needs of its surroundings. */
  ghost predicate Ready(
    store: Store, stored: seq<byte>, parsed: Option<seq<BlockInfo>>, dec: Decoder<Diff>, mode: KeyMode,
    start: u64, end: u64, fails: nat -> bool)
  {
    var id := BundleId(start);
    && start <= end && BundleId(end) == id
    && IndexReady(store, stored, id)
    && parsed.Some? && HeadersOk(id, parsed.value)
    && var index: Index := Parse(stored[..INDEX_BYTES]);
       var first, last := BundlePosition(start), BundlePosition(end);
    && last < EntryCount(id)
    && (mode.BlockHash? ==> AllSource(index, first, last))
    && PayloadReady(store, stored, dec, parsed.value, index, first, last, fails)
  }

  /** The account of a read that got past its checks. */
  ghost predicate ReadAccount(
    store: Store, parsed: Option<seq<BlockInfo>>, dec: Decoder<Diff>, mode: KeyMode, start: u64, end: u64, limit: nat,
    index: Index, fetches: seq<Fetch>, next: nat, done: seq<Call>)
  {
    var id := BundleId(start);
    var first, last := BundlePosition(start), BundlePosition(end);
    && start <= end && BundleId(end) == id && last < EntryCount(id)
    && IndexServed(store, index) && Accepted(index, EntryCount(id))
    && (mode.BlockHash? ==> AllSource(index, first, last))
    && parsed.Some? && HeadersOk(id, parsed.value)
    && var total := INDEX_BYTES + index.offset[EntryCount(id)];
       Run(store, dec, parsed.value, index, total, first, last, limit, fetches, next, done)
  }

  /**
   * Reads blocks `start` to `end` of one bundle. The receiver sees an ascending, linked run of blocks from
   * `start`, whatever happens; on success it is the whole range, and nothing short of a fault prevents success.
   */
  method ReadBundle(
    store: Store, parsed: Option<seq<BlockInfo>>, dec: Decoder<Diff>, mode: KeyMode, start: u64, end: u64,
    rangeMib: u32, sink: Sink, ghost stored: seq<byte>)
    returns (r: Result<Option<BlockInfo>, ReadError>,
      ghost index: Index, ghost fetches: seq<Fetch>, ghost next: nat, ghost done: seq<Call>)
    modifies sink
    ensures sink.calls == old(sink.calls) + done && LinkedBlocks(done, start)
    ensures done != [] ==> fetches != []
    ensures fetches != [] ==>
      ReadAccount(store, parsed, dec, mode, start, end, rangeMib * 1_048_576, index, fetches, next, done)
    ensures r.Ok? && r.value.Some? ==>
      && start <= end && |done| == end + 1 - start && r.value.value == done[|done| - 1].info
      && next == BundlePosition(end) + 1
    ensures r.Ok? && r.value.None? ==> done == []
    ensures start > end ==> r == Err(EmptyRange)
    ensures start <= end && BundleId(start) != BundleId(end) ==> r == Err(CrossesBoundary)
    ensures r == Ok(None) <==>
      start <= end && BundleId(start) == BundleId(end) && store(0, 0, INDEX_BYTES - 1).Missing?
    ensures Ready(store, stored, parsed, dec, mode, start, end, sink.fails) ==> r.Ok? && r.value.Some?
  {
    hide UnusedZero, UnusedClear, Parse, HeaderOk, PayloadReady, RisesTo, Serves, IndexServed;
    hide Tiles, AllSized, AllGreedy, Answered, AllDelivered;
    fetches, next, done, index := [], 0, [], RawIndex(seq(BITMAP_BYTES, _ => 0), seq(OFFSET_COUNT, _ => 0));
    if start > end {
      return Err(EmptyRange), index, fetches, next, done;
    }
    var id := BundleId(start);
    if BundleId(end) != id {
      return Err(CrossesBoundary), index, fetches, next, done;
    }
    BundleIsARun(start, end);
    BundleIsARun(end, start);
    var opening := OpenIndex(store, id);
    if opening.Err? {
      return Err(opening.error), index, fetches, next, done;
    }
    if opening.value.None? {
      return Ok(None), index, fetches, next, done;
    }
    var found, total := opening.value.value.0, opening.value.value.1;
    index := found;
    var first, last := BundlePosition(start), BundlePosition(end);
    if mode.BlockHash? {
      var sources := CheckSources(found, EntryCount(id), first, last);
      if sources.Err? {
        return Err(sources.error), index, fetches, next, done;
      }
    }
    var headers := DecodeBundleHeaders(id, parsed);
    if headers.Err? {
      return Err(headers.error), index, fetches, next, done;
    }
    r, fetches, next, done :=
      ReadGroups(store, dec, headers.value, found, total, first, last, rangeMib * MEBIBYTE, sink, stored);
    RunIsLinked(store, dec, id, headers.value, found, total, first, last, rangeMib * MEBIBYTE, fetches, next, done);
    NoFetchNoCall(dec, headers.value, found, fetches, first, next, done);
    if r.Ok? {
      CallAt(dec, headers.value, found, fetches, first, next, done, |done| - 1);
    }
  }

  // ----- Writing a bundle and reading it -----

  /** `stored` is what `Encode` writes for a bundle whose offsets are the running sums of its entry lengths. */
  predicate Written(bundle: Bundle<Diff>, enc: Encoder<Diff>, stored: seq<byte>) {
    && |bundle.entries| == CAPACITY && Accepted(bundle.index, CAPACITY)
    && RunningSums(bundle.index, bundle.entries, enc)
    && stored == Layout(bundle.index) + Payload(bundle.entries, enc)
  }

  lemma WrittenEntry(bundle: Bundle<Diff>, enc: Encoder<Diff>, stored: seq<byte>, p: nat)
    requires Written(bundle, enc, stored) && p < CAPACITY
    ensures Parse(stored[..INDEX_BYTES]) == bundle.index && |stored| == INDEX_BYTES + bundle.index.offset[CAPACITY]
    ensures RisesTo(bundle.index, CAPACITY)
    ensures StoredEntry(bundle.index, CAPACITY, stored, p) == enc(bundle.entries[p])
  {
    hide Layout, Parse, UnusedZero, UnusedClear, RisesTo, RunningSums;
    var payload := Payload(bundle.entries, enc);
    PayloadEnds(bundle.index, bundle.entries, enc);
    FramedObject(bundle.index, payload);
    PayloadAt(bundle.index, bundle.entries, enc, p);
    EntryOfObject(bundle.index, payload, p);
  }

  lemma WrittenAccepted(bundle: Bundle<Diff>, enc: Encoder<Diff>, stored: seq<byte>)
    requires Written(bundle, enc, stored)
    ensures |bundle.entries| == CAPACITY && Accepted(bundle.index, CAPACITY)
  {
  }

  /** Every part of a written bundle with matching headers can be read. */
  lemma WrittenBundleIsReady(
    bundle: Bundle<Diff>, enc: Encoder<Diff>, dec: Decoder<Diff>, store: Store, stored: seq<byte>,
    headers: seq<BlockInfo>, mode: KeyMode, start: u64, end: u64, fails: nat -> bool)
    requires SelfDelimiting(enc, dec) && Written(bundle, enc, stored) && Serves(store, stored) && |stored| < U64_END
    requires 0 < start <= end && BundleId(end) == BundleId(start) && HeadersOk(BundleId(start), headers)
    requires forall p: nat :: p < CAPACITY ==> RootsAgree(headers, p, bundle.entries[p])
    requires mode.BlockHash? ==> AllSource(bundle.index, BundlePosition(start), BundlePosition(end))
    requires forall k: nat :: !fails(k)
    ensures Ready(store, stored, Some(headers), dec, mode, start, end, fails)
  {
    hide Layout, Parse, Written, RisesTo, UnusedZero, UnusedClear, RootsAgree, StoredEntry, HeaderOk, Serves, AllSource;
    BundleIsARun(start, end);
    WrittenEntry(bundle, enc, stored, 0);
    WrittenAccepted(bundle, enc, stored);
    forall p: nat | p < CAPACITY
      ensures EntryFits(dec, headers, bundle.index, stored, p)
    {
      WrittenEntry(bundle, enc, stored, p);
      assert Fits(dec, headers, p, StoredEntry(bundle.index, CAPACITY, stored, p), bundle.entries[p]);
    }
  }

  lemma FetchSized(index: Index, count: nat, fetches: seq<Fetch>, f: Fetch)
    requires count <= CAPACITY && AllSized(index, count, fetches) && f in fetches
    ensures Sized(index, count, f)
  {
  }

  /** Against a store that holds one object, every call carries what the object's entry at its place holds. */
  lemma CallIsStored(
    store: Store, stored: seq<byte>, dec: Decoder<Diff>, headers: seq<BlockInfo>, index: Index, total: nat,
    from: nat, end: nat, limit: nat, fetches: seq<Fetch>, next: nat, done: seq<Call>, k: nat)
    requires end < |headers| <= CAPACITY && RisesTo(index, |headers|)
    requires Run(store, dec, headers, index, total, from, end, limit, fetches, next, done) && k < |done|
    requires Serves(store, stored) && |stored| == INDEX_BYTES + index.offset[|headers|]
    ensures from + k < |headers| && Holds(dec, StoredEntry(index, |headers|, stored, from + k), done[k].diff)
  {
    hide RisesTo, RootsAgree, StoredEntry, Own, AllGreedy, AnsweredBy, AllSized, Tiles, Serves, Holds;
    CallAt(dec, headers, index, fetches, from, next, done, k);
    assert DeliveredAt(dec, headers, index, fetches, from, next, done, from + k);
    var f := FetchOf(fetches, from, next, from + k);
    var i :| 0 <= i < |fetches| && fetches[i] == f;
    FetchSized(index, |headers|, fetches, f);
    assert AnsweredBy(store, index, |headers|, total, i + 1, f);
    OwnIsStored(store, stored, index, |headers|, total, i + 1, f, from + k);
  }

  /** What the receiver gets from a written bundle is that bundle's entries, in place. */
  lemma WrittenBundleReadsBack(
    bundle: Bundle<Diff>, enc: Encoder<Diff>, dec: Decoder<Diff>, store: Store, stored: seq<byte>,
    parsed: Option<seq<BlockInfo>>, mode: KeyMode, start: u64, end: u64, limit: nat,
    index: Index, fetches: seq<Fetch>, next: nat, done: seq<Call>, k: nat)
    requires SelfDelimiting(enc, dec) && Written(bundle, enc, stored) && Serves(store, stored)
    requires start > 0 && ReadAccount(store, parsed, dec, mode, start, end, limit, index, fetches, next, done) &&
      k < |done|
    ensures BundlePosition(start) + k < |bundle.entries| && done[k].diff == bundle.entries[BundlePosition(start) + k]
  {
    hide Layout, Parse, Written, RisesTo, UnusedZero, UnusedClear, StoredEntry, HeaderOk, Run, AllSource;
    var first, total := BundlePosition(start), INDEX_BYTES + index.offset[CAPACITY];
    WrittenEntry(bundle, enc, stored, 0);
    WrittenAccepted(bundle, enc, stored);
    assert index == bundle.index by {
      assert store(0, 0, INDEX_BYTES - 1) == Body(stored[0..INDEX_BYTES - 1 + 1], |stored|);
    }
    CallIsStored(
      store, stored, dec, parsed.value, index, total, first, BundlePosition(end), limit, fetches, next, done, k);
    WrittenEntry(bundle, enc, stored, first + k);
    assert Holds(dec, enc(bundle.entries[first + k]), done[k].diff);
  }
}
