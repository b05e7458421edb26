/** The worker's sort and in-place dedup of a batch of writes: last write per key, in key order. */
module BatchSort {

  /** Encoded keys, compared as the byte strings they are: a number per key. */
  type Key = nat

  /** The map built by inserting the writes one after the other. */
  function Inserted<V>(writes: seq<(Key, V)>): map<Key, V> {
    if writes == [] then map[]
    else var last := writes[|writes| - 1]; Inserted(writes[..|writes| - 1])[last.0 := last.1]
  }

  /** The values written to `k`, in batch order. */
  function Values<V>(writes: seq<(Key, V)>, k: Key): seq<V> {
    if writes == [] then []
    else
      var last := writes[|writes| - 1];
      Values(writes[..|writes| - 1], k) + if last.0 == k then [last.1] else []
  }

  predicate Ascending<V>(writes: seq<(Key, V)>) {
    forall i, j :: 0 <= i < j < |writes| ==> writes[i].0 <= writes[j].0
  }

  predicate StrictlyAscending<V>(writes: seq<(Key, V)>) {
    forall i, j :: 0 <= i < j < |writes| ==> writes[i].0 < writes[j].0
  }

  /** `sort_by` on the key: ascending, and the writes to each key are the same in the same order. */
  ghost predicate IsStableSort<V>(writes: seq<(Key, V)>, sorted: seq<(Key, V)>) {
    Ascending(sorted) && forall k :: Values(sorted, k) == Values(writes, k)
  }

  /** Runs of equal keys collapse to their last entry. */
  function DedupLast<V>(sorted: seq<(Key, V)>): seq<(Key, V)> {
    if |sorted| <= 1 then sorted
    else if sorted[0].0 == sorted[1].0 then DedupLast(sorted[1..])
    else [sorted[0]] + DedupLast(sorted[1..])
  }

  lemma DedupShort<V>(sorted: seq<(Key, V)>)
    requires |sorted| <= 1
    ensures DedupLast(sorted) == sorted
  {
  }

  lemma RunContinues<V>(was: seq<(Key, V)>, e: nat)
    requires e + 1 < |was| && was[e + 1].0 == was[e].0
    ensures DedupLast(was[e..]) == DedupLast(was[e + 1..])
  {
    assert was[e..][1..] == was[e + 1..];
  }

  lemma RunCollapses<V>(was: seq<(Key, V)>, e: nat)
    requires e < |was| && (e + 1 < |was| ==> was[e + 1].0 != was[e].0)
    ensures DedupLast(was[e..]) == [was[e]] + DedupLast(was[e + 1..])
  {
    assert was[e..][1..] == was[e + 1..];
  }

  /** `dedup_keep_last_sorted`: in place, by swapping each run's last entry forward. */
  method DedupKeepLastSorted<V>(v: array<(Key, V)>) returns (w: nat)
    modifies v
    ensures w <= v.Length && v[..w] == DedupLast(old(v[..]))
  {
    hide DedupLast;
    ghost var was := v[..];
    if v.Length <= 1 {
      DedupShort(was);
      return v.Length;
    }
    w := 0;
    var r := 0;
    ghost var done := [];
    DedupShort(was[v.Length..]);
    assert was[0..] == was;
    while r < v.Length
      invariant w <= r <= v.Length && (forall k :: r <= k < v.Length ==> v[k] == was[k])
      invariant |done| == w && (forall k :: 0 <= k < w ==> v[k] == done[k])
      invariant done + DedupLast(was[r..]) == DedupLast(was)
    {
      var e := r;
      while e + 1 < v.Length && v[e + 1].0 == v[r].0
        invariant r <= e < v.Length && v[e].0 == v[r].0
        invariant DedupLast(was[e..]) == DedupLast(was[r..])
        modifies {}
      {
        RunContinues(was, e);
        e := e + 1;
      }
      RunCollapses(was, e);
      assert done + DedupLast(was[r..]) == done + [was[e]] + DedupLast(was[e + 1..]);
      if w != e {
        v[w], v[e] := v[e], v[w];
      }
      done := done + [was[e]];
      w := w + 1;
      r := e + 1;
    }
    assert v[..w] == done;
  }

  // ----- What sorting and deduplicating give -----

  lemma {:induction false} ValuesCons<V>(x: (Key, V), rest: seq<(Key, V)>, k: Key)
    ensures Values([x] + rest, k) == (if x.0 == k then [x.1] else []) + Values(rest, k)
    decreases |rest|
  {
    if rest == [] {
      assert [x] + rest == [x] && [x][..0] == [];
    } else {
      var all := [x] + rest;
      assert all[..|all| - 1] == [x] + rest[..|rest| - 1];
      ValuesCons(x, rest[..|rest| - 1], k);
    }
  }

  /** A sequence whose keys all exceed `k` writes nothing to `k`. */
  lemma {:induction false} NoValues<V>(writes: seq<(Key, V)>, k: Key)
    requires forall i :: 0 <= i < |writes| ==> writes[i].0 != k
    ensures Values(writes, k) == []
  {
    if writes != [] { NoValues(writes[..|writes| - 1], k); }
  }

  /** The map of a batch holds, for every key written, the last value written to it. */
  lemma {:induction false} InsertedIsLastValue<V>(writes: seq<(Key, V)>, k: Key)
    ensures k in Inserted(writes) <==> Values(writes, k) != []
    ensures k in Inserted(writes) ==> Inserted(writes)[k] == Values(writes, k)[|Values(writes, k)| - 1]
  {
    if writes != [] { InsertedIsLastValue(writes[..|writes| - 1], k); }
  }

  /** Deduplicating a sorted batch leaves each key once, in order. */
  lemma {:induction false} DedupLastAscends<V>(sorted: seq<(Key, V)>)
    requires Ascending(sorted)
    ensures StrictlyAscending(DedupLast(sorted))
    ensures forall i :: 0 <= i < |DedupLast(sorted)| ==> sorted != [] && sorted[0].0 <= DedupLast(sorted)[i].0
  {
    if |sorted| > 1 { DedupLastAscends(sorted[1..]); }
  }

  function LastOnly<V>(values: seq<V>): seq<V> {
    if values == [] then [] else [values[|values| - 1]]
  }

  /** Deduplicating a sorted batch leaves each key the last value written to it. */
  lemma {:induction false} DedupLastIsLastValue<V>(sorted: seq<(Key, V)>, k: Key)
    requires Ascending(sorted)
    ensures Values(DedupLast(sorted), k) == LastOnly(Values(sorted, k))
  {
    hide Values;
    if sorted == [] {
      NoValues(sorted, k);
    } else {
      var rest := sorted[1..];
      assert sorted == [sorted[0]] + rest;
      ValuesCons(sorted[0], rest, k);
      if |sorted| == 1 {
        NoValues(rest, k);
      } else {
        DedupLastIsLastValue(rest, k);
        ValuesCons(sorted[0], DedupLast(rest), k);
        if sorted[0].0 == sorted[1].0 {
          assert rest == [rest[0]] + rest[1..];
          ValuesCons(rest[0], rest[1..], k);
        } else if k == sorted[0].0 {
          NoValues(rest, k);
        }
      }
    }
  }

  /** Sorting stably and deduplicating a batch lists, in strict key order, the map its writes build. */
  lemma SortedBatchIsInsertedMap<V>(writes: seq<(Key, V)>, sorted: seq<(Key, V)>)
    requires IsStableSort(writes, sorted)
    ensures StrictlyAscending(DedupLast(sorted))
    ensures Inserted(DedupLast(sorted)) == Inserted(writes)
  {
    forall k
      ensures k in Inserted(DedupLast(sorted)) <==> k in Inserted(writes)
      ensures k in Inserted(writes) ==> Inserted(DedupLast(sorted))[k] == Inserted(writes)[k]
    {
      DedupLastIsLastValue(sorted, k);
      InsertedIsLastValue(DedupLast(sorted), k);
      InsertedIsLastValue(writes, k);
    }
    DedupLastAscends(sorted);
  }

  /** Insert after all entries with the same or a smaller key. */
  function InsertStable<V>(sorted: seq<(Key, V)>, x: (Key, V)): seq<(Key, V)> {
    if sorted == [] || sorted[|sorted| - 1].0 <= x.0 then sorted + [x]
    else InsertStable(sorted[..|sorted| - 1], x) + [sorted[|sorted| - 1]]
  }

  function StableSort<V>(writes: seq<(Key, V)>): seq<(Key, V)> {
    if writes == [] then [] else InsertStable(StableSort(writes[..|writes| - 1]), writes[|writes| - 1])
  }

  lemma {:induction false} InsertStableAscends<V>(sorted: seq<(Key, V)>, x: (Key, V))
    requires Ascending(sorted)
    ensures var out := InsertStable(sorted, x);
            Ascending(out)
            && forall i :: 0 <= i < |out| ==> out[i].0 <= x.0 || (sorted != [] && out[i].0 <= sorted[|sorted| - 1].0)
    decreases |sorted|
  {
    if sorted != [] && sorted[|sorted| - 1].0 > x.0 { InsertStableAscends(sorted[..|sorted| - 1], x); }
  }

  lemma ValuesPush<V>(writes: seq<(Key, V)>, x: (Key, V), k: Key)
    ensures Values(writes + [x], k) == Values(writes, k) + if x.0 == k then [x.1] else []
  {
    assert (writes + [x])[..|writes|] == writes;
  }

  lemma {:induction false} InsertStableKeeps<V>(sorted: seq<(Key, V)>, x: (Key, V), k: Key)
    ensures Values(InsertStable(sorted, x), k) == Values(sorted + [x], k)
    decreases |sorted|
  {
    hide Values;
    if sorted != [] && sorted[|sorted| - 1].0 > x.0 {
      var init, last := sorted[..|sorted| - 1], sorted[|sorted| - 1];
      InsertStableKeeps(init, x, k);
      assert init + [last] == sorted;
      ValuesPush(InsertStable(init, x), last, k);
      ValuesPush(init, x, k);
      ValuesPush(sorted, x, k);
      ValuesPush(init, last, k);
    }
  }

  /** Stable sorts exist for every batch. */
  lemma {:induction false} StableSortIsStable<V>(writes: seq<(Key, V)>)
    ensures IsStableSort(writes, StableSort(writes))
  {
    if writes != [] {
      var init, last := writes[..|writes| - 1], writes[|writes| - 1];
      StableSortIsStable(init);
      var sorted := StableSort(init);
      InsertStableAscends(sorted, last);
      forall k
        ensures Values(StableSort(writes), k) == Values(writes, k)
      {
        InsertStableKeeps(sorted, last, k);
        ValuesPush(sorted, last, k);
        ValuesPush(init, last, k);
        assert init + [last] == writes;
      }
    }
  }
}
