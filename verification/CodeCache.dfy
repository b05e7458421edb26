/** Reading contract code, one hash at a time or in batches, over a shared cache of analyzed code. */
module CodeCache {
  import opened Bytes

  type Hash = nat
  type Code = seq<byte>

  /** Analyzed code: the bytes and the jump table found in them. */
  datatype Bytecode = Bytecode(code: Code, jumps: set<nat>)

  type Cache = map<Hash, Bytecode>

  datatype StorageError = ReadFailed

  /** A content-addressed store and the analysis of code. */
  datatype Store = Store(codes: Hash -> Option<Code>, analyze: Code -> Bytecode, default: Bytecode)

  /** What a read means: the analyzed code, or the default bytecode when the hash is not stored. */
  function Meaning(store: Store, hash: Hash): Bytecode {
    var code := store.codes(hash);
    if code.Some? then store.analyze(code.value) else store.default
  }

  function Meanings(store: Store, hashes: seq<Hash>): (s: seq<Bytecode>)
    ensures |s| == |hashes|
  {
    seq(|hashes|, i requires 0 <= i < |hashes| => Meaning(store, hashes[i]))
  }

  /** The cache holds only stored codes, each under its own hash. */
  predicate Consistent(store: Store, cache: Cache) {
    forall h :: h in cache ==> store.codes(h).Some? && cache[h] == Meaning(store, h)
  }

  /** Evictions and other threads may change the cache between any two steps, but keep it consistent. */
  ghost predicate Interferes(store: Store, evolve: (nat, Cache) -> Cache) {
    forall time: nat, cache: Cache :: Consistent(store, cache) ==> Consistent(store, evolve(time, cache))
  }

  /** Every hit is the meaning of its hash, and only stored codes are hit. */
  predicate Hits(store: Store, hashes: seq<Hash>, hits: seq<Option<Bytecode>>)
    requires |hits| == |hashes|
  {
    forall i: nat :: i < |hashes| && hits[i].Some? ==>
      store.codes(hashes[i]).Some? && hits[i].value == Meaning(store, hashes[i])
  }

  /** The hashes without a hit, in order and with repetitions. */
  function Missing(hashes: seq<Hash>, hits: seq<Option<Bytecode>>): seq<Hash>
    requires |hits| == |hashes|
  {
    if hashes == [] then []
    else
      var n := |hashes| - 1;
      Missing(hashes[..n], hits[..n]) + if hits[n].None? then [hashes[n]] else []
  }

  lemma {:induction false} MissingPrefix(hashes: seq<Hash>, hits: seq<Option<Bytecode>>, n: nat)
    requires n <= |hashes| == |hits|
    ensures Missing(hashes[..n], hits[..n]) <= Missing(hashes, hits)
    decreases |hashes|
  {
    if n < |hashes| {
      var m := |hashes| - 1;
      MissingPrefix(hashes[..m], hits[..m], n);
      assert hashes[..m][..n] == hashes[..n] && hits[..m][..n] == hits[..n];
    } else {
      assert hashes[..n] == hashes && hits[..n] == hits;
    }
  }

  /** The answers line up with the slots: slot `i` takes the answer counted by the misses before it. */
  lemma MissingStep(hashes: seq<Hash>, hits: seq<Option<Bytecode>>, i: nat)
    requires i < |hashes| == |hits|
    ensures var k := |Missing(hashes[..i], hits[..i])|;
      && |Missing(hashes[..i + 1], hits[..i + 1])| == (if hits[i].None? then k + 1 else k)
      && (hits[i].None? ==> k < |Missing(hashes, hits)| && Missing(hashes, hits)[k] == hashes[i])
  {
    assert hashes[..i + 1][..i] == hashes[..i] && hits[..i + 1][..i] == hits[..i];
    MissingPrefix(hashes, hits, i + 1);
  }

  lemma NoneMissing(store: Store, hashes: seq<Hash>, hits: seq<Option<Bytecode>>)
    requires |hits| == |hashes| && Hits(store, hashes, hits)
    ensures Missing(hashes, hits) == [] ==> forall i: nat :: i < |hashes| ==> hits[i] == Some(Meaning(store, hashes[i]))
  {
    if Missing(hashes, hits) == [] {
      forall i: nat | i < |hashes|
        ensures hits[i] == Some(Meaning(store, hashes[i]))
      {
        MissingStep(hashes, hits, i);
      }
    }
  }

  class CodeReader {
    const store: Store
    const cached: bool
    const evolve: (nat, Cache) -> Cache
    const readFails: nat -> bool
    var cache: Cache
    var time: nat
    var lookups: nat

    ghost predicate Valid()
      reads this
    {
      Interferes(store, evolve) && Consistent(store, cache)
    }

    constructor (store: Store, cached: bool, evolve: (nat, Cache) -> Cache, readFails: nat -> bool)
      requires Interferes(store, evolve)
      ensures Valid() && this.store == store && this.cached == cached && this.readFails == readFails && cache == map[]
    {
      this.store, this.cached, this.evolve, this.readFails := store, cached, evolve, readFails;
      cache, time, lookups := map[], 0, 0;
    }

    method Get(hash: Hash) returns (hit: Option<Bytecode>)
      requires Valid()
      modifies this`cache, this`time
      ensures Valid()
      ensures hit.Some? ==> store.codes(hash).Some? && hit.value == Meaning(store, hash)
      ensures !cached ==> hit.None? && cache == old(cache)
      ensures cached ==> cache == evolve(old(time), old(cache)) && time == old(time) + 1
      ensures cached ==> hit == if hash in cache then Some(cache[hash]) else None
    {
      if !cached {
        return None;
      }
      cache, time := evolve(time, cache), time + 1;
      return if hash in cache then Some(cache[hash]) else None;
    }

    /** The analyzed code is returned even when the cache drops it at once. */
    method AnalyzeAndCache(hash: Hash, code: Code) returns (bytecode: Bytecode)
      requires Valid() && store.codes(hash) == Some(code)
      modifies this`cache, this`time
      ensures Valid() && bytecode == Meaning(store, hash)
      ensures cache == if cached then evolve(old(time), old(cache)[hash := bytecode]) else old(cache)
    {
      bytecode := store.analyze(code);
      if cached {
        var added := cache[hash := bytecode];
        assert Consistent(store, added);
        cache, time := evolve(time, added), time + 1;
      }
    }

    method CodeByHash(hash: Hash) returns (r: Result<Bytecode, StorageError>)
      requires Valid()
      modifies this
      ensures Valid()
      ensures r.Ok? ==> r.value == Meaning(store, hash)
      ensures var hit := cached && hash in old(evolve(time, cache));
        && lookups == old(lookups) + (if hit then 0 else 1)
        && (r.Err? <==> !hit && readFails(old(lookups)))
    {
      var hit := Get(hash);
      if hit.Some? {
        return Ok(hit.value);
      }
      var fails := readFails(lookups);
      lookups := lookups + 1;
      if fails {
        return Err(ReadFailed);
      }
      var code := store.codes(hash);
      if code.None? {
        return Ok(store.default);
      }
      var bytecode := AnalyzeAndCache(hash, code.value);
      return Ok(bytecode);
    }

    /** The store answers a batch with one result per hash, in order. */
    method ReadCodeMany(hashes: seq<Hash>) returns (r: Result<seq<Option<Code>>, StorageError>)
      modifies this`lookups
      ensures lookups == old(lookups) + 1
      ensures r.Ok? ==> |r.value| == |hashes| && forall i: nat :: i < |hashes| ==> r.value[i] == store.codes(hashes[i])
      ensures r.Err? <==> readFails(old(lookups))
    {
      var fails := readFails(lookups);
      lookups := lookups + 1;
      if fails {
        return Err(ReadFailed);
      }
      return Ok(seq(|hashes|, i requires 0 <= i < |hashes| => store.codes(hashes[i])));
    }

    method LookUp(hashes: seq<Hash>) returns (out: array<Option<Bytecode>>)
      requires Valid()
      modifies this`cache, this`time
      ensures Valid() && fresh(out) && out.Length == |hashes|
      ensures Hits(store, hashes, out[..])
    {
      out := new Option<Bytecode>[|hashes|](_ => None);
      for i := 0 to |hashes|
        invariant Valid() && fresh(out) && out.Length == |hashes|
        invariant Hits(store, hashes[..i], out[..i])
      {
        var hit := Get(hashes[i]);
        out[i] := hit;
        assert out[..i + 1] == out[..i] + [hit] && hashes[..i + 1] == hashes[..i] + [hashes[i]];
      }
      assert out[..|hashes|] == out[..] && hashes[..|hashes|] == hashes;
    }

    /** Fills the empty slots, in order, from the answers to `Missing`. */
    method FillIn(hashes: seq<Hash>, out: array<Option<Bytecode>>, answers: seq<Option<Code>>)
      requires Valid() && out.Length == |hashes| && Hits(store, hashes, out[..])
      requires |answers| == |Missing(hashes, out[..])|
      requires forall k: nat :: k < |answers| ==> answers[k] == store.codes(Missing(hashes, out[..])[k])
      modifies this`cache, this`time, out
      ensures Valid()
      ensures forall i: nat :: i < |hashes| ==> out[i] == Some(Meaning(store, hashes[i]))
    {
      ghost var hits := out[..];
      var next := 0;
      for i := 0 to |hashes|
        invariant Valid()
        invariant next == |Missing(hashes[..i], hits[..i])|
        invariant forall j: nat :: j < i ==> out[j] == Some(Meaning(store, hashes[j]))
        invariant forall j: nat :: i <= j < |hashes| ==> out[j] == hits[j]
      {
        MissingStep(hashes, hits, i);
        if out[i].None? {
          var answer := answers[next];
          next := next + 1;
          if answer.Some? {
            var bytecode := AnalyzeAndCache(hashes[i], answer.value);
            out[i] := Some(bytecode);
          } else {
            out[i] := Some(store.default);
          }
        }
      }
    }

    method CodeByHashMany(hashes: seq<Hash>) returns (r: Result<seq<Bytecode>, StorageError>)
      requires Valid()
      modifies this
      ensures Valid()
      ensures r.Ok? ==> r.value == Meanings(store, hashes)
      ensures old(lookups) <= lookups <= old(lookups) + 1
      ensures r.Err? <==> lookups > old(lookups) && readFails(old(lookups))
    {
      var out := LookUp(hashes);
      var missing := Missing(hashes, out[..]);
      NoneMissing(store, hashes, out[..]);
      if missing != [] {
        var answers := ReadCodeMany(missing);
        if answers.Err? {
          return Err(answers.error);
        }
        FillIn(hashes, out, answers.value);
      }
      return Ok(seq(out.Length, i requires 0 <= i < out.Length && out[i].Some? reads out => out[i].value));
    }
  }
}
