/** The parts of the bulk load put together: fetcher, accumulator, workers and advancer, beside the single-threaded
    writer. */
module Loading {
  import opened Bytes
  import opened BatchSort
  import opened ArchiveBlocks
  import opened Ingesting
  import opened Advancing
  import A = Accumulating
  import F = ArchiveFetching
  import W = Checkpointing

  function BlockNumbers(arrivals: seq<Block>): (s: seq<nat>)
    ensures |s| == |arrivals|
  {
    seq(|arrivals|, i requires 0 <= i < |arrivals| => arrivals[i].num)
  }

  /** What the fetcher delivers, every number from `start` to the end once and in any order, is absorbed completely. */
  lemma FetchedOnceIsAbsorbed(source: seq<Block>, start: nat, arrivals: seq<Block>)
    requires start <= |source| && F.EachOnce(BlockNumbers(arrivals), start, |source|)
    requires forall b :: b in arrivals ==> b.num < |source| && b == source[b.num]
    ensures A.IsAbsorbed(arrivals, start, source[start..])
  {
    hide A.Absorbed;
    var numbers := BlockNumbers(arrivals);
    forall n | start <= n < |source|
      ensures A.Has(arrivals, n)
    {
      assert n in numbers;
      var i :| 0 <= i < |numbers| && numbers[i] == n;
      assert arrivals[i].num == n;
    }
    forall i | 0 <= i < |source[start..]|
      ensures A.AbsorbedAs(arrivals, start, start + i, source[start..][i])
    {
      assert A.Reached(arrivals, start, start + i);
    }
  }

  lemma {:induction false} FlattenTotal(batches: seq<seq<Block>>, i: nat)
    requires i <= |batches|
    ensures Total(batches[..i]) <= |A.Flatten(batches)| == Total(batches)
    ensures A.Flatten(batches[..i]) == A.Flatten(batches)[..Total(batches[..i])]
    decreases |batches|
  {
    if i == |batches| {
      assert batches[..i] == batches;
      if i > 0 { FlattenTotal(batches[..i - 1], i - 1); }
    } else {
      var init := batches[..|batches| - 1];
      FlattenTotal(init, i);
      assert init[..i] == batches[..i];
    }
  }

  lemma MiddleSlice(all: seq<Block>, lo: nat, hi: nat, middle: seq<Block>)
    requires lo <= hi <= |all| && all[..lo] + middle == all[..hi]
    ensures middle == all[lo..hi]
  {
    assert middle == (all[..lo] + middle)[lo..];
  }

  lemma SliceOfSlice(source: seq<Block>, start: nat, all: seq<Block>, lo: nat, hi: nat)
    requires start + |all| <= |source| && all == source[start..start + |all|] && lo <= hi <= |all|
    ensures all[lo..hi] == source[start + lo..start + hi]
  {
    forall k | 0 <= k < hi - lo
      ensures all[lo..hi][k] == source[start + lo..start + hi][k]
    {
      assert all[lo + k] == source[start..start + |all|][lo + k];
    }
  }

  lemma AccumulatedBatch(c: Config, r: Run, i: nat)
    requires r.start + |A.Flatten(r.batches)| <= |c.source| && i < |r.batches| && r.batches[i] != []
    requires A.Flatten(r.batches) == c.source[r.start..r.start + |A.Flatten(r.batches)|]
    ensures BatchAt(c, r, i)
  {
    hide A.Flatten, Total;
    FlattenTotal(r.batches, i);
    FlattenTotal(r.batches, i + 1);
    TotalStep(r.batches, i);
    A.FlattenPush(r.batches[..i], r.batches[i]);
    assert r.batches[..i + 1] == r.batches[..i] + [r.batches[i]];
    var all, lo, hi := A.Flatten(r.batches), Total(r.batches[..i]), Total(r.batches[..i + 1]);
    MiddleSlice(all, lo, hi, r.batches[i]);
    SliceOfSlice(c.source, r.start, all, lo, hi);
  }

  /** Payloads that concatenate to the source from `start` on are consecutive stretches of it. */
  lemma AccumulatedAreConsecutive(c: Config, r: Run)
    requires r.start + |A.Flatten(r.batches)| <= |c.source|
    requires A.Flatten(r.batches) == c.source[r.start..r.start + |A.Flatten(r.batches)|]
    requires forall i :: 0 <= i < |r.batches| ==> r.batches[i] != []
    ensures Consecutive(c, r)
  {
    hide A.Flatten, Total, BatchAt;
    FlattenTotal(r.batches, 0);
    forall i | 0 <= i < |r.batches|
      ensures BatchAt(c, r, i)
    {
      AccumulatedBatch(c, r, i);
    }
  }

  // ----- A worker -----

  /** Sort, then deduplicate in place. */
  method SortedTable<V>(writes: seq<(Key, V)>) returns (table: seq<(Key, V)>)
    ensures table == DedupLast(StableSort(writes))
  {
    hide DedupLast, StableSort;
    var sorted := StableSort(writes);
    var v := new (Key, V)[|sorted|](i requires 0 <= i < |sorted| => sorted[i]);
    assert v[..] == sorted;
    var w := DedupKeepLastSorted(v);
    table := v[..w];
  }

  /** `ingest_worker_process`: the two tables to ingest and the completion to report are those of the protocol's
      steps. */
  method IngestWorker(c: Config, payload: A.Batch) returns (accounts: Cells, storage: Cells, comp: Completion)
    requires payload.blocks != []
    ensures accounts == TableCells(c, Accounts, payload.blocks) && storage == TableCells(c, Slots, payload.blocks)
    ensures comp == Completed(c, payload.seqNo, payload.blocks)
  {
    hide Merge, DedupLast, StableSort, IsStableSort, AccountCells, SlotCells, BatchAccounts, BatchStorage;
    var blocks := payload.blocks;
    var last := blocks[|blocks| - 1];
    if c.schemaV3 {
      accounts, storage := map[], map[];
      var cells := Merge(Small, blocks) + Merge(Accounts, blocks) + Merge(Slots, blocks);
      comp := Completion(payload.seqNo, last.num, last.hash, |blocks|, cells);
      return;
    }
    var accountTable := SortedTable(BatchAccounts(blocks));
    var storageTable := SortedTable(BatchStorage(blocks));
    StableSortIsStable(BatchAccounts(blocks));
    StableSortIsStable(BatchStorage(blocks));
    WorkerTables(blocks, StableSort(BatchAccounts(blocks)), StableSort(BatchStorage(blocks)));
    accounts, storage := AccountCells(accountTable), SlotCells(storageTable);
    comp := Completion(payload.seqNo, last.num, last.hash, |blocks|, Merge(Small, blocks));
  }

  // ----- The whole pipeline -----

  /** A process that has resumed at `start` and whose accumulator has sent all its batches. */
  function Emitted(store: Store, start: nat, batches: seq<seq<Block>>): State {
    State(store, Run(start, batches, seq(|batches|, _ => 0), {}, 0, 0, start))
  }

  lemma ConsecutivePrefix(c: Config, store: Store, start: nat, batches: seq<seq<Block>>)
    requires batches != [] && Consecutive(c, Emitted(store, start, batches).run)
    ensures Consecutive(c, Emitted(store, start, batches[..|batches| - 1]).run)
    ensures var n := |batches| - 1; var from := start + Total(batches[..n]);
      && batches[n] != [] && from + |batches[n]| <= |c.source|
      && batches[n] == c.source[from..from + |batches[n]|]
  {
    hide Total;
    var n := |batches| - 1;
    var r, prefix := Emitted(store, start, batches).run, Emitted(store, start, batches[..n]).run;
    assert BatchAt(c, r, n);
    forall i | 0 <= i < n
      ensures BatchAt(c, prefix, i)
    {
      assert BatchAt(c, r, i);
      assert prefix.batches[..i] == r.batches[..i];
    }
  }

  lemma EmitStep(c: Config, store: Store, start: nat, batches: seq<seq<Block>>)
    requires batches != [] && Consecutive(c, Emitted(store, start, batches).run)
    ensures var n := |batches| - 1;
      var s, step := Emitted(store, start, batches[..n]), Emit(|batches[n]|);
      Enabled(c, s, step) && Next(c, s, step) == Emitted(store, start, batches)
  {
    hide Total, Consecutive;
    ConsecutivePrefix(c, store, start, batches);
    var n := |batches| - 1;
    assert batches == batches[..n] + [batches[n]];
    assert seq(n, _ => 0) + [0] == seq(n + 1, _ => 0);
  }

  /** However an accumulator cuts its batches, a process that has just started can emit them. */
  lemma {:induction false} AnyBatchesCanBeEmitted(
    c: Config, states: seq<State>, steps: seq<Step>, batches: seq<seq<Block>>)
    returns (states': seq<State>, steps': seq<Step>)
    requires History(c, states, steps) && states[|steps|].run == FreshRun(states[|steps|].run.start)
    requires var s := states[|steps|]; Consecutive(c, Emitted(s.store, s.run.start, batches).run)
    ensures History(c, states', steps') && states <= states' && steps <= steps'
    ensures var s := states[|steps|]; states'[|steps'|] == Emitted(s.store, s.run.start, batches)
    decreases |batches|
  {
    hide Enabled, Next, Consecutive;
    var s := states[|steps|];
    if batches == [] {
      states', steps' := states, steps;
    } else {
      var n := |batches| - 1;
      ConsecutivePrefix(c, s.store, s.run.start, batches);
      states', steps' := AnyBatchesCanBeEmitted(c, states, steps, batches[..n]);
      EmitStep(c, s.store, s.run.start, batches);
      states', steps' := states' + [Emitted(s.store, s.run.start, batches)], steps' + [Emit(|batches[n]|)];
    }
  }

  lemma EmittedKeeps(c: Config, store: Store, start: nat, batches: seq<seq<Block>>)
    requires Inv(c, State(store, FreshRun(start))) && Consecutive(c, Emitted(store, start, batches).run)
    ensures Inv(c, Emitted(store, start, batches))
  {
    hide Truthful, SyncedPointers, Stored, Watermark, Consecutive, Total, TableCells, LogBatch, LogCells;
    assert batches[..0] == [] == FreshRun(start).batches[..0];
  }

  method Accumulate(start: nat, interval: nat, arrivals: seq<Block>) returns (acc: A.Accumulator, highest: nat)
    requires interval > 0
    ensures fresh(acc) && acc.arrivals == arrivals && acc.start == start
    ensures A.IsAbsorbed(arrivals, start, acc.out) && A.Flatten(A.Blocks(acc.sent)) == acc.out
    ensures forall i :: 0 <= i < |acc.sent| ==> acc.sent[i].seqNo == i && acc.sent[i].blocks != []
    ensures highest == if start + |acc.out| == 0 then 0 else start + |acc.out| - 1
  {
    acc := new A.Accumulator(start, interval);
    for i := 0 to |arrivals|
      invariant acc.Valid() && fresh(acc) && acc.arrivals == arrivals[..i] && acc.start == start
    {
      acc.Receive(arrivals[i]);
      assert arrivals[..i + 1] == arrivals[..i] + [arrivals[i]];
    }
    assert arrivals[..|arrivals|] == arrivals;
    highest := acc.Finish();
  }

  function Below(n: nat): (s: set<nat>)
    ensures forall i: nat :: i in s <==> i < n
  {
    if n == 0 then {} else Below(n - 1) + {n - 1}
  }

  /** Batches not yet handed to a worker are untouched; the others are done and received. */
  ghost predicate Halfway(s: State, batches: seq<seq<Block>>, start: nat, left: set<nat>) {
    && s.run.start == start && s.run.batches == batches && |s.run.stage| == |batches|
    && (forall i :: i in left ==> i < |batches| && s.run.stage[i] == 0 && i !in s.run.received)
    && (forall i :: 0 <= i < |batches| && i !in left ==> i in s.run.received)
  }

  lemma MirrorsIdle(c: Config, s: State, a: Advancer, base: seq<Commit>)
    requires Mirrors(c, s, a, base)
    ensures s.run.committed == s.run.nextSeq <= |s.run.batches|
  {
  }

  /** Ingesting tables does not concern the advancer. */
  lemma MirrorsIngested(c: Config, s: State, s': State, a: Advancer, base: seq<Commit>)
    requires Mirrors(c, s, a, base) && s'.run == s.run.(stage := s'.run.stage)
    requires s'.store == s.store.(tables := s'.store.tables)
    ensures Mirrors(c, s', a, base)
  {
  }

  /** One batch goes through its worker and the advancer. */
  method Process(c: Config, payload: A.Batch, a: Advancer, tables: Cells,
    ghost s: State, ghost start: nat, ghost left: set<nat>, ghost base: seq<Commit>)
    returns (tables': Cells, ghost s': State)
    requires GoodConfig(c) && Inv(c, s) && Mirrors(c, s, a, base) && s.store.tables == tables
    requires Halfway(s, s.run.batches, start, left) && payload.seqNo in left
    requires payload.blocks != [] && payload.blocks == s.run.batches[payload.seqNo]
    modifies a
    ensures Inv(c, s') && Mirrors(c, s', a, base) && s'.store.tables == tables'
    ensures Halfway(s', s.run.batches, start, left - {payload.seqNo})
  {
    hide Inv, TableCells, LogBatch, GoodConfig, Mirrors, CommitAll;
    var i := payload.seqNo;
    var accounts, storage, comp := IngestWorker(c, payload);
    tables' := tables + accounts + storage;
    MirrorsIdle(c, s, a, base);
    ghost var s1 := Next(c, s, IngestAccounts(i));
    StepKeeps(c, s, IngestAccounts(i));
    ghost var s2 := Next(c, s1, IngestStorage(i));
    StepKeeps(c, s1, IngestStorage(i));
    MirrorsIngested(c, s, s2, a, base);
    s' := ReceiveSimulates(a, c, s2, i, comp, base);
    StepKeeps(c, s2, Receive(i));
    CommitAllKeeps(c, Next(c, s2, Receive(i)));
    CommitAllDrains(c, Next(c, s2, Receive(i)));
  }

  lemma EmittedBatches(c: Config, s: State, out: seq<Block>)
    requires GoodConfig(c) && s.run.start <= |c.source| && out == c.source[s.run.start..] &&
      A.Flatten(s.run.batches) == out
    requires s == Emitted(s.store, s.run.start, s.run.batches) && Inv(c, State(s.store, FreshRun(s.run.start)))
    requires forall i :: 0 <= i < |s.run.batches| ==> s.run.batches[i] != []
    ensures Coherent(c.source) && Inv(c, s)
  {
    hide Inv, GoodConfig, Consecutive, Coherent, A.Flatten;
    GoodIsCoherent(c);
    assert c.source[s.run.start..s.run.start + |out|] == out;
    AccumulatedAreConsecutive(c, s.run);
    EmittedKeeps(c, s.store, s.run.start, s.run.batches);
  }

  lemma FreshMirrors(c: Config, s: State, a: Advancer, base: seq<Commit>)
    requires s == Emitted(s.store, s.run.start, s.run.batches) && s.store.log == base && s.store.synced == |base|
    requires a.pending == map[] && a.nextSeq == 0 && a.written == 0 && a.log == [] && a.synced == 0
    requires a.finalContiguous == if s.run.start == 0 then 0 else s.run.start - 1
    ensures Mirrors(c, s, a, base)
  {
    assert base + [] == base;
    assert s.run.batches[..0] == [];
  }

  lemma AllReceived(c: Config, s: State, batches: seq<seq<Block>>, start: nat, a: Advancer, base: seq<Commit>)
    requires Inv(c, s) && Mirrors(c, s, a, base) && Halfway(s, batches, start, {})
    requires start <= |c.source| && A.Flatten(batches) == c.source[start..]
    ensures Done(c, s)
  {
    hide Truthful, SyncedPointers, Consecutive, Ingested, Logged, Stored, Marked, A.Flatten, Total, HoldsBack;
    FlattenTotal(batches, 0);
  }

  lemma MirrorsStore(c: Config, s: State, a: Advancer, base: seq<Commit>)
    requires Mirrors(c, s, a, base)
    ensures s.store == Store(s.store.tables, base + a.log, |base| + a.synced)
    ensures a.finalContiguous == if s.run.mark == 0 then 0 else s.run.mark - 1
  {
  }

  /**
   * The pipeline from the arrivals to the archive: whatever order the workers finish in, the store ends with exactly
   * the source's contents and last hash, and the advancer reports its last block.
   */
  method Load(c: Config, store: Store, start: nat, interval: nat, arrivals: seq<Block>)
    returns (db: Store, contiguous: nat)
    requires GoodConfig(c) && Inv(c, State(store, FreshRun(start))) && store.synced == |store.log|
    requires interval > 0 && start <= |c.source| && A.IsAbsorbed(arrivals, start, c.source[start..])
    ensures Contents(db) == All(c) && HoldsExactly(Contents(db), c.source)
    ensures LogLatest(db.log) == if c.source == [] then None else Some(c.source[|c.source| - 1].hash)
    ensures contiguous == if c.source == [] then 0 else |c.source| - 1
  {
    hide Inv, GoodConfig, All, Contents, LogLatest, Mirrors, A.IsAbsorbed, HoldsExactly;
    var acc, highest := Accumulate(start, interval, arrivals);
    A.AbsorbedIsUnique(arrivals, start, acc.out, c.source[start..]);
    var payloads := acc.sent;
    ghost var batches, base := A.Blocks(payloads), store.log;
    ghost var s := Emitted(store, start, batches);
    EmittedBatches(c, s, acc.out);
    var a := new Advancer(start);
    FreshMirrors(c, s, a, base);
    var tables := store.tables;
    var left := Below(|payloads|);
    while left != {}
      invariant Inv(c, s) && Mirrors(c, s, a, base) && s.store.tables == tables && fresh(a)
      invariant Halfway(s, batches, start, left)
      decreases left
    {
      var i :| i in left;
      tables, s := Process(c, payloads[i], a, tables, s, start, left, base);
      left := left - {i};
    }
    AllReceived(c, s, batches, start, a, base);
    FinishedState(c, s);
    db := Store(tables, store.log + a.log, |store.log| + a.synced);
    contiguous := a.finalContiguous;
    MirrorsStore(c, s, a, base);
  }

  /** What the fetcher delivers, in any order, is loaded completely. */
  method LoadFetched(c: Config, store: Store, start: nat, interval: nat, arrivals: seq<Block>)
    returns (db: Store, contiguous: nat)
    requires GoodConfig(c) && Inv(c, State(store, FreshRun(start))) && store.synced == |store.log|
    requires interval > 0 && start <= |c.source| && F.EachOnce(BlockNumbers(arrivals), start, |c.source|)
    requires forall b :: b in arrivals ==> b.num < |c.source| && b == c.source[b.num]
    ensures Contents(db) == All(c) && HoldsExactly(Contents(db), c.source)
    ensures forall k :: 0 <= k < |c.source| ==> HoldsBlock(Contents(db), c.source[k])
    ensures LogLatest(db.log) == if c.source == [] then None else Some(c.source[|c.source| - 1].hash)
    ensures contiguous == if c.source == [] then 0 else |c.source| - 1
  {
    hide Inv, GoodConfig, All, Contents, F.EachOnce, A.IsAbsorbed, HoldsExactly, HoldsBlock, LogLatest, Coherent;
    GoodIsCoherent(c);
    FetchedOnceIsAbsorbed(c.source, start, arrivals);
    db, contiguous := Load(c, store, start, interval, arrivals);
    AllBlocksHeld(c, Contents(db));
  }

  // ----- The two backends -----

  /** What both writers start from: the blocks below `start`, and the hash of the last of them. */
  ghost predicate StoredBelow(c: Config, start: nat, db: Cells, latest: nat) {
    && start <= |c.source| && db == Merge(Whole, c.source[..start])
    && latest == if start == 0 then 0 else c.source[start - 1].hash
  }

  /** What the single-threaded writer leaves when its channel closes. */
  ghost predicate Written(w: W.CheckpointWorker)
    reads w
  {
    && A.IsAbsorbed(w.arrivals, w.start, w.out) && w.db == w.base + Merge(Whole, w.out)
    && w.latest == (if w.out == [] then w.baseLatest else w.out[|w.out| - 1].hash)
    && w.Next() == w.start + |w.out|
  }

  /**
   * Both backends, given the same arrivals, agree: once the pipeline is done, however its steps were ordered and
   * however often it crashed, its archive, latest hash and contiguous height are those of the single-threaded writer.
   */
  lemma BackendsAgree(c: Config, states: seq<State>, steps: seq<Step>, acc: A.Accumulator, w: W.CheckpointWorker)
    requires GoodConfig(c) && History(c, states, steps) && Done(c, states[|steps|])
    requires acc.start == w.start && acc.arrivals == w.arrivals
    requires A.IsAbsorbed(acc.arrivals, acc.start, acc.out) && Written(w)
    requires StoredBelow(c, acc.start, w.base, w.baseLatest) && c.source[acc.start..] == acc.out
    ensures Contents(states[|steps|].store) == w.db
    ensures LogLatest(states[|steps|].store.log) == if c.source == [] then None else Some(w.latest)
    ensures states[|steps|].run.mark == w.Next()
  {
    hide Merge, Contents, LogLatest, Inv, Next, Enabled, GoodConfig, Done, A.IsAbsorbed, History;
    A.AbsorbedIsUnique(acc.arrivals, acc.start, acc.out, w.out);
    FinishedLoad(c, states, steps);
    MergeAppend(Whole, c.source[..acc.start], acc.out);
    assert c.source == c.source[..acc.start] + acc.out;
  }

  method WriteAll(start: nat, interval: nat, arrivals: seq<Block>, db: Cells, latest: nat)
    returns (w: W.CheckpointWorker, contiguous: nat)
    requires interval > 0
    ensures Written(w) && w.start == start && w.arrivals == arrivals && w.base == db && w.baseLatest == latest
    ensures contiguous == if start + |w.out| == 0 then 0 else start + |w.out| - 1
  {
    hide Merge, A.IsAbsorbed, A.Waiting;
    w := new W.CheckpointWorker(start, interval, db, latest);
    for i := 0 to |arrivals|
      invariant w.Valid() && fresh(w) && w.arrivals == arrivals[..i] && w.start == start && w.base == db &&
        w.baseLatest == latest
    {
      w.Receive(arrivals[i]);
      assert arrivals[..i + 1] == arrivals[..i] + [arrivals[i]];
    }
    assert arrivals[..|arrivals|] == arrivals;
    var written;
    written, contiguous := w.Finish();
  }

  /** One arrival sequence through both: the same archive, the same latest hash, the same height. */
  method LoadBoth(c: Config, store: Store, base: Cells, latest: nat, start: nat, interval: nat, arrivals: seq<Block>)
    returns (db: Store, height: nat, w: W.CheckpointWorker, contiguous: nat)
    requires GoodConfig(c) && Inv(c, State(store, FreshRun(start))) && store.synced == |store.log|
    requires interval > 0 && StoredBelow(c, start, base, latest) && A.IsAbsorbed(arrivals, start, c.source[start..])
    ensures Contents(db) == w.db && height == contiguous
    ensures LogLatest(db.log) == if c.source == [] then None else Some(w.latest)
  {
    hide Merge, Contents, LogLatest, Inv, GoodConfig, A.IsAbsorbed;
    db, height := Load(c, store, start, interval, arrivals);
    w, contiguous := WriteAll(start, interval, arrivals, base, latest);
    A.AbsorbedIsUnique(arrivals, start, w.out, c.source[start..]);
    MergeAppend(Whole, c.source[..start], w.out);
    assert c.source == c.source[..start] + w.out;
  }
}
