/** `spawn_checkpoint_worker`: the single-threaded writer, committing at every checkpoint. */
module Checkpointing {
  import opened Bytes
  import opened ArchiveBlocks
  import opened Accumulating

  lemma BufferPush(base: Cells, db: Cells, batch: Cells, out: seq<Block>, b: Block)
    requires db + batch == base + Merge(Whole, out)
    ensures db + (batch + Part(Whole, b)) == base + Merge(Whole, out + [b])
  {
    hide Part;
    assert (out + [b])[..|out|] == out;
    var part := Part(Whole, b);
    assert db + (batch + part) == (db + batch) + part;
    assert base + (Merge(Whole, out) + part) == (base + Merge(Whole, out)) + part;
  }

  class CheckpointWorker {
    const start: nat
    const interval: nat
    /** What the archive held when the worker started. */
    ghost const base: Cells
    ghost const baseLatest: nat
    var pending: map<nat, Block>
    var maxContiguous: Option<nat>
    var lastCheckpoint: nat
    var writtenCount: nat
    var lastWritten: Option<nat>
    var batchDirty: bool
    var batch: Cells
    var db: Cells
    var latest: nat
    ghost var arrivals: seq<Block>
    ghost var out: seq<Block>
    /** How many absorbed blocks are committed. */
    ghost var committed: nat

    function Next(): nat
      reads this
    {
      if maxContiguous.None? then start else maxContiguous.value + 1
    }

    ghost predicate Counted()
      reads this
    {
      && interval > 0 && Next() == start + |out| && writtenCount == |out| && (maxContiguous.None? ==> start == 0)
      && lastCheckpoint == CheckpointBefore(interval, Next())
    }

    /** The archive holds exactly the committed blocks, and the latest pointer names the last of them. */
    ghost predicate Durable()
      reads this
    {
      && committed <= |out| && db == base + Merge(Whole, out[..committed])
      && latest == (if committed == 0 then baseLatest else out[committed - 1].hash)
    }

    ghost predicate Buffered()
      reads this
    {
      && db + batch == base + Merge(Whole, out)
      && batchDirty == (committed < |out|) && (!batchDirty ==> batch == map[])
      && lastWritten == (if out == [] then None else Some(out[|out| - 1].hash))
    }

    ghost predicate Valid()
      reads this
    {
      && Counted() && Durable() && Buffered()
      && Waiting(arrivals, Next(), pending) && IsAbsorbed(arrivals, start, out)
    }

    constructor (start: nat, interval: nat, db: Cells, latest: nat)
      requires interval > 0
      ensures Valid() && arrivals == [] && this.start == start && base == db && baseLatest == latest
    {
      this.start, this.interval := start, interval;
      base, baseLatest := db, latest;
      pending, writtenCount, lastWritten, batchDirty, batch := map[], 0, None, false, map[];
      maxContiguous := if start == 0 then None else Some(start - 1);
      lastCheckpoint := (if start == 0 then 0 else start - 1) / interval;
      this.db, this.latest := db, latest;
      arrivals, out, committed := [], [], 0;
      new;
      assert db + map[] == db;
    }

    /** Write one block to the batch; at a checkpoint, commit the batch with the new latest pointer. */
    method Write(b: Block)
      requires Counted() && Durable() && Buffered() && b.num == Next()
      modifies this`maxContiguous, this`lastCheckpoint, this`writtenCount, this`lastWritten, this`batchDirty,
               this`batch, this`db, this`latest, this`out, this`committed
      ensures Counted() && Durable() && Buffered() && out == old(out) + [b] && Next() == old(Next()) + 1
      ensures committed == if Boundary(interval, b.num) then |out| else old(committed)
    {
      hide Part, Merge, CheckpointBefore, Boundary;
      CheckpointCrossed(interval, b.num);
      BufferPush(base, db, batch, out, b);
      assert (out + [b])[..committed] == out[..committed];
      batch := batch + Part(Whole, b);
      out := out + [b];
      maxContiguous := Some(b.num);
      writtenCount := writtenCount + 1;
      batchDirty := true;
      lastWritten := Some(b.hash);
      var chk := b.num / interval;
      if chk > lastCheckpoint {
        Commit(b.hash);
        lastCheckpoint := chk;
      }
    }

    /** `commit_sync`: the batch and the latest pointer become durable together. */
    method Commit(hash: nat)
      requires Buffered() && out != [] && hash == out[|out| - 1].hash
      modifies this`batchDirty, this`batch, this`db, this`latest, this`committed
      ensures Durable() && Buffered() && committed == |out| && !batchDirty
    {
      hide Part, Merge;
      assert out[..|out|] == out;
      latest := hash;
      db := db + batch;
      batch := map[];
      batchDirty := false;
      committed := |out|;
      assert db + map[] == db;
    }

    method Drain(ghost before: seq<Block>, ghost b: Block, ghost done: nat)
      requires Counted() && Durable() && Buffered() && arrivals == before + [b]
      requires Waiting(arrivals, Next(), pending) && Draining(start, before, b, done, out)
      modifies this`pending, this`maxContiguous, this`lastCheckpoint, this`writtenCount, this`lastWritten,
               this`batchDirty, this`batch, this`db, this`latest, this`out, this`committed
      ensures Valid()
    {
      hide Merge, Waiting, IsAbsorbed, Draining, CheckpointBefore, Has, LastOf;
      var next := Next();
      while next in pending
        invariant next == Next() && Counted() && Durable() && Buffered()
        invariant Waiting(arrivals, next, pending) && Draining(start, before, b, done, out)
        decreases |pending|
      {
        var block := pending[next];
        WaitingTake(arrivals, next, pending);
        DrainStep(start, before, b, done, out);
        pending := pending - {next};
        Write(block);
        next := next + 1;
      }
      WaitingEmpty(arrivals, next, pending);
      DrainEnd(start, before, b, done, out);
    }

    method Receive(b: Block)
      requires Valid()
      modifies this
      ensures Valid() && arrivals == old(arrivals) + [b]
    {
      hide Merge, Waiting, IsAbsorbed, Draining, CheckpointBefore, Has, LastOf;
      ghost var before := arrivals;
      arrivals := arrivals + [b];
      if maxContiguous.Some? && b.num <= maxContiguous.value {
        Ignored(start, before, b, out, Next(), pending);
        return;
      }
      WaitingPush(before, b, Next(), pending);
      DrainStart(start, before, b, out);
      pending := pending[b.num := b];
      Drain(before, b, |out|);
    }

    /** The channel closed: commit what is left. */
    method Finish() returns (written: nat, contiguous: nat)
      requires Valid()
      modifies this`batchDirty, this`batch, this`db, this`latest, this`committed
      ensures IsAbsorbed(arrivals, start, out) && db == base + Merge(Whole, out)
      ensures HoldsOver(db, base, out)
      ensures latest == if out == [] then baseLatest else out[|out| - 1].hash
      ensures written == |out| && Next() == start + |out|
      ensures contiguous == if start + |out| == 0 then 0 else start + |out| - 1
    {
      hide Merge, Waiting, IsAbsorbed;
      assert out[..|out|] == out;
      contiguous := if maxContiguous.None? then 0 else maxContiguous.value;
      if batchDirty {
        if lastWritten.Some? {
          Commit(lastWritten.value);
        }
      }
      MergeHoldsOver(base, out);
      written := writtenCount;
    }
  }
}

/** The ingest pipeline as a protocol: batches are emitted, ingested by workers in any order,
    and committed in order by the watermark advancer; at any point the process may crash. */
module Ingesting {
  import opened Bytes
  import opened ArchiveBlocks

  /** One atomic write batch in the write-ahead log: cells and, on the last batch of a drain, the latest hash. */
  datatype Commit = Commit(cells: Cells, latest: Option<nat>)

  /** Ingested tables survive any crash; of the log only a prefix of at least `synced` entries does. */
  datatype Store = Store(tables: Cells, log: seq<Commit>, synced: nat)

  /** What one process has done since it started at block `start`. `stage` counts the tables a
      batch's worker has ingested; `[committed, nextSeq)` are drained and waiting to be
      committed; `mark` is one past the advancer's `final_contiguous`. */
  datatype Run = Run(
    start: nat, batches: seq<seq<Block>>, stage: seq<nat>, received: set<nat>, nextSeq: nat, committed: nat, mark: nat)

  datatype State = State(store: Store, run: Run)

  /** The blocks to load and whether the archive keeps versions with the small writes (schema v3). */
  datatype Config = Config(source: seq<Block>, schemaV3: bool)

  function LogCells(log: seq<Commit>): Cells {
    if log == [] then map[] else LogCells(log[..|log| - 1]) + log[|log| - 1].cells
  }

  function LogLatest(log: seq<Commit>): Option<nat> {
    if log == [] then None
    else if log[|log| - 1].latest.Some? then log[|log| - 1].latest
    else LogLatest(log[..|log| - 1])
  }

  /** What a reader finds. */
  function Contents(s: Store): Cells {
    s.tables + LogCells(s.log)
  }

  /** `get_start_block`: zero for an empty archive, one past the latest block otherwise; an
      error when the latest hash has no block info. */
  function StartBlock(s: Store): Result<nat, ()> {
    var latest := LogLatest(s.log);
    if latest.None? then Ok(0)
    else if InfoAt(latest.value) in Contents(s) && Contents(s)[InfoAt(latest.value)].InfoOf?
    then Ok(Contents(s)[InfoAt(latest.value)].info.number + 1)
    else Err(())
  }

  function FreshRun(start: nat): Run {
    Run(start, [], [], {}, 0, 0, start)
  }

  function Total(batches: seq<seq<Block>>): nat {
    if batches == [] then 0 else Total(batches[..|batches| - 1]) + |batches[|batches| - 1]|
  }

  // ----- Steps -----

  datatype Step =
    | Emit(size: nat)
    | IngestAccounts(i: nat)
    | IngestStorage(i: nat)
    | Receive(i: nat)
    | CommitNext
    | Crash(keep: nat)

  /** The cells a worker's table adds; with schema v3 the versions stay with the small writes. */
  function TableCells(c: Config, kind: Kind, batch: seq<Block>): Cells {
    if c.schemaV3 then map[] else Merge(kind, batch)
  }

  function LogBatch(c: Config, batch: seq<Block>): Cells {
    if c.schemaV3 then Merge(Small, batch) + Merge(Accounts, batch) + Merge(Slots, batch) else Merge(Small, batch)
  }

  /** The end of the run of received completions from `from` on. */
  function DrainedTo(received: set<nat>, from: nat, bound: nat): (to_: nat)
    requires from <= bound
    ensures from <= to_ <= bound
    ensures forall i :: from <= i < to_ ==> i in received
    ensures to_ < bound ==> to_ !in received
    decreases bound - from
  {
    if from < bound && from in received then DrainedTo(received, from + 1, bound) else from
  }

  predicate Enabled(c: Config, s: State, step: Step) {
    var r := s.run;
    && |r.stage| == |r.batches|
    && match step
       case Emit(size) => size > 0 && r.start + Total(r.batches) + size <= |c.source|
       case IngestAccounts(i) => i < |r.stage| && r.stage[i] == 0
       case IngestStorage(i) => i < |r.stage| && r.stage[i] == 1
       case Receive(i) => i < |r.stage| && r.stage[i] == 2 && i !in r.received &&
         r.committed == r.nextSeq <= |r.batches|
       case CommitNext => r.committed < r.nextSeq <= |r.batches| && r.batches[r.committed] != []
       case Crash(keep) => s.store.synced <= keep <= |s.store.log|
  }

  /** A process that cannot find its start block would stop; `ResumesAtMark` shows that none does. */
  function Next(c: Config, s: State, step: Step): State
    requires Enabled(c, s, step)
  {
    var r := s.run;
    match step
    case Emit(size) =>
      var from := r.start + Total(r.batches);
      State(s.store, r.(batches := r.batches + [c.source[from..from + size]], stage := r.stage + [0]))
    case IngestAccounts(i) =>
      State(s.store.(tables := s.store.tables + TableCells(c, Accounts, r.batches[i])), r.(stage := r.stage[i := 1]))
    case IngestStorage(i) =>
      State(s.store.(tables := s.store.tables + TableCells(c, Slots, r.batches[i])), r.(stage := r.stage[i := 2]))
    case Receive(i) =>
      var received := r.received + {i};
      State(s.store, r.(received := received, nextSeq := DrainedTo(received, r.nextSeq, |r.batches|)))
    case CommitNext =>
      var batch := r.batches[r.committed];
      var isLast := r.committed + 1 == r.nextSeq;
      var log := s.store.log + [Commit(LogBatch(c, batch), if isLast then Some(batch[|batch| - 1].hash) else None)];
      State(s.store.(log := log, synced := if isLast then |log| else s.store.synced),
            r.(committed := r.committed + 1, mark := if isLast then batch[|batch| - 1].num + 1 else r.mark))
    case Crash(keep) =>
      var store := s.store.(log := s.store.log[..keep], synced := keep);
      var start := StartBlock(store);
      State(store, if start.Ok? then FreshRun(start.value) else r)
  }

  // ----- The invariant -----

  function All(c: Config): Cells {
    Merge(Whole, c.source)
  }

  ghost predicate GoodConfig(c: Config) {
    exists inverted :: ContentAddressed(inverted, c.source)
  }

  function Durable(s: Store): Store
    requires s.synced <= |s.log|
  {
    s.(log := s.log[..s.synced])
  }

  /** Every cell of every block below `n` is readable. */
  ghost predicate Stored(c: Config, s: Store, n: nat) {
    n <= |c.source| && forall k, x :: 0 <= k < n && x in Part(Whole, c.source[k]) ==> x in Contents(s)
  }

  /** Nothing readable differs from what the source says. */
  ghost predicate Truthful(c: Config, s: Store) {
    Agrees(s.tables, All(c)) && forall j :: 0 <= j < |s.log| ==> Agrees(s.log[j].cells, All(c))
  }

  /** The latest pointer names block `n - 1` (nothing if `n` is zero), and everything up to it is stored. */
  ghost predicate Watermark(c: Config, s: Store, n: nat) {
    Stored(c, s, n) && LogLatest(s.log) == if n == 0 then None else Some(c.source[n - 1].hash)
  }

  /** Only synced log entries carry the latest pointer. */
  ghost predicate SyncedPointers(s: Store) {
    s.synced <= |s.log| && forall j :: s.synced <= j < |s.log| ==> s.log[j].latest == None
  }

  ghost predicate BatchAt(c: Config, r: Run, i: nat)
    requires i < |r.batches|
  {
    var from := r.start + Total(r.batches[..i]);
    r.batches[i] != [] && from + |r.batches[i]| <= |c.source| && r.batches[i] == c.source[from..from + |r.batches[i]|]
  }

  /** Batches are consecutive stretches of the source, from `start` on. */
  ghost predicate Consecutive(c: Config, r: Run) {
    && r.start + Total(r.batches) <= |c.source|
    && forall i :: 0 <= i < |r.batches| ==> BatchAt(c, r, i)
  }

  /** Completions are received only from finished workers, and drained in order. */
  ghost predicate Ordered(r: Run) {
    && |r.stage| == |r.batches| && r.committed <= r.nextSeq <= |r.batches|
    && (forall i :: 0 <= i < |r.stage| ==> r.stage[i] <= 2)
    && (forall i :: i in r.received ==> i < |r.stage| && r.stage[i] == 2)
    && (forall i :: 0 <= i < r.nextSeq ==> i in r.received)
    && (r.nextSeq < |r.batches| ==> r.nextSeq !in r.received)
  }

  /** What a batch's stage says is in the tables is there. */
  ghost predicate Ingested(c: Config, s: State) {
    && |s.run.stage| == |s.run.batches|
    && (forall i :: 0 <= i < |s.run.stage| && s.run.stage[i] >= 1 ==>
      TableCells(c, Accounts, s.run.batches[i]).Keys <= s.store.tables.Keys)
    && (forall i :: 0 <= i < |s.run.stage| && s.run.stage[i] >= 2 ==>
      TableCells(c, Slots, s.run.batches[i]).Keys <= s.store.tables.Keys)
  }

  ghost predicate Logged(c: Config, s: State) {
    s.run.committed <= |s.run.batches|
    && forall i :: 0 <= i < s.run.committed ==> LogBatch(c, s.run.batches[i]).Keys <= LogCells(s.store.log).Keys
  }

  ghost predicate Marked(c: Config, s: State) {
    && s.store.synced <= |s.store.log| && Watermark(c, Durable(s.store), s.run.mark)
    && s.run.committed <= |s.run.batches|
    && (s.run.committed == s.run.nextSeq ==> s.run.mark == s.run.start + Total(s.run.batches[..s.run.committed]))
  }

  ghost predicate Inv(c: Config, s: State) {
    && Truthful(c, s.store) && SyncedPointers(s.store)
    && Ordered(s.run) && Consecutive(c, s.run) && Ingested(c, s) && Logged(c, s)
    && Stored(c, s.store, s.run.start) && Marked(c, s)
  }

  lemma TotalPush(batches: seq<seq<Block>>, batch: seq<Block>)
    ensures Total(batches + [batch]) == Total(batches) + |batch|
    ensures forall i :: 0 <= i <= |batches| ==> (batches + [batch])[..i] == batches[..i]
  {
    assert (batches + [batch])[..|batches|] == batches;
  }

  lemma TotalStep(batches: seq<seq<Block>>, i: nat)
    requires i < |batches|
    ensures Total(batches[..i + 1]) == Total(batches[..i]) + |batches[i]|
  {
    assert batches[..i + 1] == batches[..i] + [batches[i]];
    TotalPush(batches[..i], batches[i]);
  }

  lemma EmitConsecutive(c: Config, r: Run, size: nat, r': Run)
    requires Consecutive(c, r) && size > 0 && r.start + Total(r.batches) + size <= |c.source|
    requires r'.start == r.start
    requires var from := r.start + Total(r.batches); r'.batches == r.batches + [c.source[from..from + size]]
    ensures Consecutive(c, r')
  {
    hide Total;
    var from := r.start + Total(r.batches);
    TotalPush(r.batches, c.source[from..from + size]);
    assert r.batches[..|r.batches|] == r.batches;
    forall i | 0 <= i < |r'.batches|
      ensures BatchAt(c, r', i)
    {
      assert r'.batches[..i] == r.batches[..i];
      if i < |r.batches| { assert BatchAt(c, r, i); }
    }
  }

  lemma EmitKeeps(c: Config, s: State, size: nat)
    requires Inv(c, s) && Enabled(c, s, Emit(size))
    ensures Inv(c, Next(c, s, Emit(size)))
  {
    hide Truthful, Watermark, Stored, TableCells, LogBatch, LogCells, Total, Consecutive, BatchAt;
    var s' := Next(c, s, Emit(size));
    EmitConsecutive(c, s.run, size, s'.run);
    assert s'.run.batches[..s.run.committed] == s.run.batches[..s.run.committed];
  }

  lemma SameBatches(c: Config, r: Run, r': Run)
    requires Consecutive(c, r) && r'.start == r.start && r'.batches == r.batches
    ensures Consecutive(c, r')
  {
    assert forall i :: 0 <= i < |r.batches| ==> BatchAt(c, r, i) ==> BatchAt(c, r', i);
  }

  lemma ReceiveKeeps(c: Config, s: State, i: nat)
    requires Inv(c, s) && Enabled(c, s, Receive(i))
    ensures Inv(c, Next(c, s, Receive(i)))
  {
    hide Truthful, Watermark, Stored, TableCells, LogBatch, LogCells, Total, DrainedTo, Consecutive;
    var s' := Next(c, s, Receive(i));
    SameBatches(c, s.run, s'.run);
    assert i == s.run.nextSeq || s'.run.nextSeq == s.run.nextSeq;
  }

  // ----- Ingesting -----

  lemma BatchAgrees(c: Config, r: Run, kind: Kind, i: nat)
    requires Coherent(c.source) && i < |r.batches| && BatchAt(c, r, i)
    ensures Agrees(Merge(kind, r.batches[i]), All(c))
  {
    hide Merge, Coherent;
    var from := r.start + Total(r.batches[..i]);
    RangeAgrees(c.source, kind, from, from + |r.batches[i]|);
  }

  lemma AgreesUnion(x: Cells, y: Cells, all: Cells)
    requires Agrees(x, all) && Agrees(y, all)
    ensures Agrees(x + y, all)
  {
  }

  lemma StoredGrows(c: Config, x: Store, y: Store, n: nat)
    requires Stored(c, x, n) && Contents(x).Keys <= Contents(y).Keys
    ensures Stored(c, y, n)
  {
    hide Contents, Part;
    forall k, cell | 0 <= k < n && cell in Part(Whole, c.source[k])
      ensures cell in Contents(y)
    {
      assert cell in Contents(x).Keys;
    }
  }

  /** Adding true cells to the tables keeps everything. */
  lemma TablesGrow(c: Config, s: State, cells: Cells, run: Run)
    requires Inv(c, s) && Agrees(cells, All(c)) && run == s.run.(stage := run.stage) && Ordered(run)
    requires Ingested(c, State(s.store.(tables := s.store.tables + cells), run))
    ensures Inv(c, State(s.store.(tables := s.store.tables + cells), run))
  {
    hide TableCells, LogBatch, LogCells, LogLatest, Total, All, Stored, Ordered, Ingested;
    var s' := State(s.store.(tables := s.store.tables + cells), run);
    AgreesUnion(s.store.tables, cells, All(c));
    StoredGrows(c, s.store, s'.store, s.run.start);
    StoredGrows(c, Durable(s.store), Durable(s'.store), s.run.mark);
    SameBatches(c, s.run, run);
  }

  lemma NothingAgrees(all: Cells)
    ensures Agrees(map[], all)
  {
  }

  lemma IngestKeeps(c: Config, s: State, step: Step)
    requires Inv(c, s) && Coherent(c.source) && Enabled(c, s, step) && (step.IngestAccounts? || step.IngestStorage?)
    ensures Inv(c, Next(c, s, step))
  {
    hide Coherent, Merge, LogBatch, LogCells, LogLatest, Total, All, Part, Agrees, Watermark, Stored;
    var i := step.i;
    var kind := if step.IngestAccounts? then Accounts else Slots;
    BatchAgrees(c, s.run, kind, i);
    assert Agrees(TableCells(c, kind, s.run.batches[i]), All(c)) by { NothingAgrees(All(c)); }
    TablesGrow(c, s, TableCells(c, kind, s.run.batches[i]), Next(c, s, step).run);
  }

  // ----- Committing -----

  lemma LogPush(log: seq<Commit>, entry: Commit)
    ensures LogCells(log + [entry]) == LogCells(log) + entry.cells
    ensures LogLatest(log + [entry]) == if entry.latest.Some? then entry.latest else LogLatest(log)
  {
    assert (log + [entry])[..|log|] == log;
  }

  lemma LogBatchAgrees(c: Config, r: Run, i: nat)
    requires Coherent(c.source) && i < |r.batches| && BatchAt(c, r, i)
    ensures Agrees(LogBatch(c, r.batches[i]), All(c))
  {
    hide Coherent, Merge, All, Agrees, BatchAt;
    var batch := r.batches[i];
    BatchAgrees(c, r, Small, i);
    BatchAgrees(c, r, Accounts, i);
    BatchAgrees(c, r, Slots, i);
    AgreesUnion(Merge(Small, batch), Merge(Accounts, batch), All(c));
    AgreesUnion(Merge(Small, batch) + Merge(Accounts, batch), Merge(Slots, batch), All(c));
  }

  /** A cell of a block is a cell of one of its three kinds. */
  lemma WholeIsParts(b: Block, x: Cell)
    requires x in Part(Whole, b)
    ensures x in Part(Small, b) || x in Part(Accounts, b) || x in Part(Slots, b)
  {
    hide SmallCells, AccountCells, SlotCells;
  }

  /** A batch whose small writes are logged and whose tables are ingested is stored. */
  lemma BatchStored(c: Config, store: Store, batch: seq<Block>, i: nat, x: Cell)
    requires i < |batch| && x in Part(Whole, batch[i])
    requires LogBatch(c, batch).Keys <= LogCells(store.log).Keys
    requires TableCells(c, Accounts, batch).Keys <= store.tables.Keys &&
      TableCells(c, Slots, batch).Keys <= store.tables.Keys
    ensures x in Contents(store)
  {
    hide Part, Merge, LogCells;
    WholeIsParts(batch[i], x);
    if x in Part(Small, batch[i]) {
      MergeHas(Small, batch, i, x);
      assert x in LogBatch(c, batch).Keys;
    } else if x in Part(Accounts, batch[i]) {
      MergeHas(Accounts, batch, i, x);
      assert x in if c.schemaV3 then LogBatch(c, batch).Keys else TableCells(c, Accounts, batch).Keys;
    } else {
      MergeHas(Slots, batch, i, x);
      assert x in if c.schemaV3 then LogBatch(c, batch).Keys else TableCells(c, Slots, batch).Keys;
    }
  }

  lemma TotalNone()
    ensures Total([]) == 0
  {
  }

  /** Once the first `m` batches are logged and ingested, every block before their end is stored. */
  lemma {:induction false} StoredThrough(c: Config, s: State, m: nat)
    requires Consecutive(c, s.run) && Ingested(c, s) && Stored(c, s.store, s.run.start) && m <= |s.run.batches|
    requires forall i :: 0 <= i < m ==> s.run.stage[i] == 2
    requires forall i :: 0 <= i < m ==> LogBatch(c, s.run.batches[i]).Keys <= LogCells(s.store.log).Keys
    ensures Stored(c, s.store, s.run.start + Total(s.run.batches[..m]))
    decreases m
  {
    hide Part, Contents, LogBatch, LogCells, TableCells, Total;
    if m == 0 {
      TotalNone();
    } else {
      StoredThrough(c, s, m - 1);
      TotalStep(s.run.batches, m - 1);
      assert BatchAt(c, s.run, m - 1);
      var from := s.run.start + Total(s.run.batches[..m - 1]);
      var batch := s.run.batches[m - 1];
      forall k, x | 0 <= k < from + |batch| && x in Part(Whole, c.source[k])
        ensures x in Contents(s.store)
      {
        if k >= from {
          assert batch[k - from] == c.source[k];
          BatchStored(c, s.store, batch, k - from, x);
        }
      }
    }
  }

  /** Committing the next batch: the log grows by one entry of true cells. */
  lemma CommitKeepsCells(c: Config, s: State)
    requires Inv(c, s) && Coherent(c.source) && Enabled(c, s, CommitNext)
    ensures var s' := Next(c, s, CommitNext);
            Truthful(c, s'.store) && Logged(c, s') && Stored(c, s'.store, s'.run.start)
            && Contents(s.store).Keys <= Contents(s'.store).Keys
            && LogCells(s'.store.log) == LogCells(s.store.log) + LogBatch(c, s.run.batches[s.run.committed])
  {
    hide Coherent, Part, Merge, Total, LogBatch, LogLatest, Stored, Watermark, TableCells, LogCells, All, Agrees;
    var s' := Next(c, s, CommitNext);
    assert BatchAt(c, s.run, s.run.committed);
    LogBatchAgrees(c, s.run, s.run.committed);
    LogPush(s.store.log, s'.store.log[|s.store.log|]);
    StoredGrows(c, s.store, s'.store, s.run.start);
  }

  /** The last batch of a drain moves the watermark to its end. */
  lemma CommitLast(c: Config, s: State)
    requires Inv(c, s) && Coherent(c.source) && Enabled(c, s, CommitNext) && s.run.committed + 1 == s.run.nextSeq
    requires forall i :: 0 <= i < |c.source| ==> c.source[i].num == i
    ensures Marked(c, Next(c, s, CommitNext))
  {
    hide Coherent, Part, Merge, LogBatch, Total, TableCells, LogCells, Stored, LogLatest;
    var s' := Next(c, s, CommitNext);
    var i := s.run.committed;
    CommitKeepsCells(c, s);
    LogPush(s.store.log, s'.store.log[|s.store.log|]);
    assert s'.store.log[..s'.store.synced] == s'.store.log;
    assert BatchAt(c, s.run, i);
    TotalStep(s.run.batches, i);
    SameBatches(c, s.run, s'.run);
    StoredThrough(c, s', i + 1);
  }

  lemma CommitKeeps(c: Config, s: State)
    requires Inv(c, s) && Coherent(c.source) && Enabled(c, s, CommitNext)
    requires forall i :: 0 <= i < |c.source| ==> c.source[i].num == i
    ensures Inv(c, Next(c, s, CommitNext))
  {
    hide Coherent, Truthful, Logged, Stored, Watermark, TableCells, LogBatch, LogCells, Total, Consecutive;
    var s' := Next(c, s, CommitNext);
    CommitKeepsCells(c, s);
    SameBatches(c, s.run, s'.run);
    if s.run.committed + 1 == s.run.nextSeq {
      CommitLast(c, s);
    } else {
      assert s'.store.log[..s.store.synced] == s.store.log[..s.store.synced];
    }
  }

  // ----- Crashing -----

  lemma {:induction false} LogPrefix(log: seq<Commit>, keep: nat, synced: nat)
    requires synced <= keep <= |log| && forall j :: synced <= j < |log| ==> log[j].latest == None
    ensures LogLatest(log[..keep]) == LogLatest(log[..synced])
    ensures LogCells(log[..synced]).Keys <= LogCells(log[..keep]).Keys
    decreases keep
  {
    if synced < keep {
      LogPrefix(log, keep - 1, synced);
      assert log[..keep] == log[..keep - 1] + [log[keep - 1]];
      LogPush(log[..keep - 1], log[keep - 1]);
    }
  }

  lemma {:induction false} LogAgrees(log: seq<Commit>, all: Cells)
    requires forall j :: 0 <= j < |log| ==> Agrees(log[j].cells, all)
    ensures Agrees(LogCells(log), all)
  {
    if log != [] {
      LogAgrees(log[..|log| - 1], all);
      AgreesUnion(LogCells(log[..|log| - 1]), log[|log| - 1].cells, all);
    }
  }

  lemma ContentsAgree(c: Config, s: Store)
    requires Truthful(c, s)
    ensures Agrees(Contents(s), All(c))
  {
    hide LogCells, All;
    LogAgrees(s.log, All(c));
    AgreesUnion(s.tables, LogCells(s.log), All(c));
  }

  function Crashed(s: Store, keep: nat): Store
    requires s.synced <= keep <= |s.log|
  {
    s.(log := s.log[..keep], synced := keep)
  }

  /** Whatever prefix of the log survives, the watermark stands. */
  lemma CrashKeepsWatermark(c: Config, s: State, keep: nat)
    requires Inv(c, s) && s.store.synced <= keep <= |s.store.log|
    ensures Watermark(c, Crashed(s.store, keep), s.run.mark) && Truthful(c, Crashed(s.store, keep))
  {
    hide LogCells, LogLatest, Part, All;
    LogPrefix(s.store.log, keep, s.store.synced);
    StoredGrows(c, Durable(s.store), Crashed(s.store, keep), s.run.mark);
  }

  lemma InfoOfSource(c: Config, x: Cell, b: Block)
    requires x in Merge(Whole, c.source) && Merge(Whole, c.source)[x] == InfoOf(b.info)
    ensures x in All(c) && All(c)[x] == InfoOf(b.info)
  {
  }

  lemma InfoStored(c: Config, store: Store, k: nat, n: nat)
    requires GoodConfig(c) && Coherent(c.source) && Stored(c, store, n) && Truthful(c, store) && k < n
    ensures var x := InfoAt(c.source[k].hash); x in Contents(store) && Contents(store)[x] == InfoOf(c.source[k].info)
    ensures c.source[k].info.number == k
  {
    hide Coherent, LogCells, CodeCells;
    var b := c.source[k];
    var x := InfoAt(b.hash);
    assert x in Part(Small, b) && Part(Small, b)[x] == InfoOf(b.info);
    hide Part, All, Contents, SmallCells;
    PartOfWhole(Small, b, x);
    SourceCell(c.source, Small, k, x);
    ContentsAgree(c, store);
    InfoOfSource(c, x, b);
  }

  /** After a crash the latest pointer resolves, to the watermark. */
  lemma ResumesAtMark(c: Config, s: State, keep: nat)
    requires GoodConfig(c) && Coherent(c.source) && Inv(c, s) && s.store.synced <= keep <= |s.store.log|
    ensures StartBlock(Crashed(s.store, keep)) == Ok(s.run.mark)
  {
    hide LogCells, LogLatest, Part, All, Coherent, Stored, Contents, Inv;
    var store, n := Crashed(s.store, keep), s.run.mark;
    CrashKeepsWatermark(c, s, keep);
    if n > 0 { InfoStored(c, store, n - 1, n); }
  }

  lemma CrashKeeps(c: Config, s: State, keep: nat)
    requires GoodConfig(c) && Coherent(c.source) && Inv(c, s) && Enabled(c, s, Crash(keep))
    ensures Inv(c, Next(c, s, Crash(keep)))
  {
    hide Coherent, LogCells, LogLatest, Part, All, Truthful, TableCells, LogBatch, StartBlock, GoodConfig, Contents;
    CrashKeepsWatermark(c, s, keep);
    ResumesAtMark(c, s, keep);
    var store := Crashed(s.store, keep);
    assert store.log[..store.synced] == store.log;
    assert Next(c, s, Crash(keep)) == State(store, FreshRun(s.run.mark));
    assert FreshRun(s.run.mark).batches[..0] == [];
    TotalNone();
  }

  // ----- Whole runs -----

  const Init: State := State(Store(map[], [], 0), FreshRun(0))

  /** A history of the archive: any steps in any order, any number of crashes among them. */
  ghost predicate History(c: Config, states: seq<State>, steps: seq<Step>) {
    && |states| == |steps| + 1 && states[0] == Init
    && forall i :: 0 <= i < |steps| ==> Enabled(c, states[i], steps[i]) && states[i + 1] == Next(c, states[i], steps[i])
  }

  lemma GoodIsCoherent(c: Config)
    requires GoodConfig(c)
    ensures Coherent(c.source) && forall i :: 0 <= i < |c.source| ==> c.source[i].num == i
  {
    hide Coherent;
    var inverted :| ContentAddressed(inverted, c.source);
    SourceCoherent(inverted, c.source);
  }

  lemma StepKeeps(c: Config, s: State, step: Step)
    requires GoodConfig(c) && Inv(c, s) && Enabled(c, s, step)
    ensures Inv(c, Next(c, s, step))
  {
    hide Inv, Enabled, Next;
    GoodIsCoherent(c);
    match step
    case Emit(size) => EmitKeeps(c, s, size);
    case IngestAccounts(i) => IngestKeeps(c, s, step);
    case IngestStorage(i) => IngestKeeps(c, s, step);
    case Receive(i) => ReceiveKeeps(c, s, i);
    case CommitNext => CommitKeeps(c, s);
    case Crash(keep) => CrashKeeps(c, s, keep);
  }

  lemma {:induction false} HistoryKeeps(c: Config, states: seq<State>, steps: seq<Step>)
    requires GoodConfig(c) && History(c, states, steps)
    ensures Inv(c, states[|steps|])
    decreases |steps|
  {
    if steps == [] {
      TotalNone();
      assert FreshRun(0).batches[..0] == [];
    } else {
      hide Inv, Enabled, Next, GoodConfig;
      var n := |steps| - 1;
      HistoryKeeps(c, states[..n + 1], steps[..n]);
      StepKeeps(c, states[n], steps[n]);
    }
  }

  lemma CanCrash(c: Config, s: State, keep: nat)
    requires Inv(c, s) && s.store.synced <= keep <= |s.store.log|
    ensures Enabled(c, s, Crash(keep))
  {
  }

  /** A history can crash at any moment, leaving any log prefix from the last sync on; the process that follows starts
      afresh at the watermark. */
  lemma CrashAnywhere(c: Config, states: seq<State>, steps: seq<Step>, keep: nat)
    returns (states': seq<State>, steps': seq<Step>)
    requires GoodConfig(c) && History(c, states, steps)
    requires var s := states[|steps|].store; s.synced <= keep <= |s.log|
    ensures History(c, states', steps') && states < states' && steps' == steps + [Crash(keep)]
    ensures states'[|steps'|] == State(Crashed(states[|steps|].store, keep), FreshRun(states[|steps|].run.mark))
  {
    hide Inv, Enabled, GoodConfig, Coherent, StartBlock, Total;
    HistoryKeeps(c, states, steps);
    GoodIsCoherent(c);
    var s := states[|steps|];
    CanCrash(c, s, keep);
    ResumesAtMark(c, s, keep);
    states', steps' := states + [Next(c, s, Crash(keep))], steps + [Crash(keep)];
  }

  lemma InvPrefix(c: Config, s: State)
    requires Inv(c, s)
    ensures s.store.synced <= |s.store.log|
  {
  }

  lemma StoredValue(c: Config, s: Store, n: nat, k: nat, x: Cell)
    requires Coherent(c.source) && Stored(c, s, n) && Truthful(c, s) && k < n && x in Part(Whole, c.source[k])
    ensures x in Contents(s) && Contents(s)[x] == Part(Whole, c.source[k])[x]
  {
    hide Part, Contents, Merge, Coherent;
    SourceCell(c.source, Whole, k, x);
    ContentsAgree(c, s);
  }

  lemma StoredBlock(c: Config, s: Store, n: nat, k: nat)
    requires GoodConfig(c) && Coherent(c.source) && Stored(c, s, n) && Truthful(c, s) && k < n
    ensures HoldsBlock(Contents(s), c.source[k])
  {
    hide Part, Contents, Coherent, HoldsBlock, ContentAddressed, Truthful;
    var inverted :| ContentAddressed(inverted, c.source);
    forall x | x in Part(Whole, c.source[k])
      ensures x in Contents(s) && Contents(s)[x] == Part(Whole, c.source[k])[x]
    {
      StoredValue(c, s, n, k, x);
    }
    PartHoldsBlock(inverted, c.source, k, Contents(s));
  }

  lemma NothingElseStored(c: Config, s: Store)
    requires Truthful(c, s)
    ensures Truth(Contents(s), c.source)
  {
    hide Contents, Merge, LastWritten, Truthful;
    ContentsAgree(c, s);
    MergeHoldsExactly(c.source);
    forall x | x in Contents(s)
      ensures Some(Contents(s)[x]) == LastWritten(c.source, x)
    {
      assert Lookup(Merge(Whole, c.source), x) == LastWritten(c.source, x);
    }
  }

  /** At every moment of every history, and after a crash at that moment leaving any log prefix
      from the last sync on: the latest pointer names a block up to which every block's info,
      hash, code and versions are readable and right; nothing is stored that the source does not say; and a
      restart resumes right after that block. */
  lemma CrashSafety(c: Config, states: seq<State>, steps: seq<Step>, keep: nat)
    requires GoodConfig(c) && History(c, states, steps)
    requires var s := states[|steps|].store; s.synced <= keep <= |s.log|
    ensures var s := Crashed(states[|steps|].store, keep);
            var n := states[|steps|].run.mark;
            StartBlock(s) == Ok(n) && n <= |c.source|
            && LogLatest(s.log) == (if n == 0 then None else Some(c.source[n - 1].hash))
            && (forall k :: 0 <= k < n ==> HoldsBlock(Contents(s), c.source[k]))
            && Truth(Contents(s), c.source)
  {
    hide Inv, Coherent, LogCells, LogLatest, Part, All, StartBlock, Contents, Next, Enabled, GoodConfig, HoldsBlock,
      Truth, Merge;
    HistoryKeeps(c, states, steps);
    GoodIsCoherent(c);
    var state := states[|steps|];
    InvPrefix(c, state);
    CrashKeepsWatermark(c, state, keep);
    ResumesAtMark(c, state, keep);
    var s, n := Crashed(state.store, keep), state.run.mark;
    forall k | 0 <= k < n
      ensures HoldsBlock(Contents(s), c.source[k])
    {
      StoredBlock(c, s, n, k);
    }
    NothingElseStored(c, s);
  }

  /** Everything is emitted and committed. */
  predicate Done(c: Config, s: State) {
    s.run.start + Total(s.run.batches) == |c.source| && s.run.committed == |s.run.batches|
  }

  lemma TruthfulNow(c: Config, s: State)
    requires Inv(c, s)
    ensures Truthful(c, s.store)
  {
  }

  lemma WholeLogKept(s: Store)
    requires s.synced <= |s.log|
    ensures Contents(Crashed(s, |s.log|)) == Contents(s) && Crashed(s, |s.log|).log == s.log
  {
    assert s.log[..|s.log|] == s.log;
  }

  lemma FinishedMark(c: Config, s: State)
    requires Inv(c, s) && Done(c, s)
    ensures s.run.mark == |c.source| && s.store.synced <= |s.store.log|
  {
    hide Truthful, Logged, Ingested, Consecutive, Stored, Total, Watermark;
    assert s.run.batches[..|s.run.batches|] == s.run.batches;
  }

  lemma EverythingStored(c: Config, s: Store)
    requires forall k, x :: 0 <= k < |c.source| && x in Part(Whole, c.source[k]) ==> x in Contents(s)
    requires Agrees(Contents(s), All(c))
    ensures Contents(s) == All(c)
  {
    hide Part, Contents, Merge;
    forall x | x in All(c)
      ensures x in Contents(s)
    {
      var k := MergeFrom(Whole, c.source, x);
    }
  }

  /** A state in which everything is committed holds exactly the source's contents and its last hash. */
  lemma FinishedState(c: Config, s: State)
    requires Coherent(c.source) && Inv(c, s) && Done(c, s)
    ensures Contents(s.store) == All(c) && HoldsExactly(Contents(s.store), c.source) && s.run.mark == |c.source|
    ensures LogLatest(s.store.log) == if c.source == [] then None else Some(c.source[|c.source| - 1].hash)
  {
    hide Inv, LogCells, LogLatest, Part, Merge, Contents, Coherent, Total, HoldsExactly;
    MergeHoldsExactly(c.source);
    FinishedMark(c, s);
    CrashKeepsWatermark(c, s, |s.store.log|);
    WholeLogKept(s.store);
    TruthfulNow(c, s);
    ContentsAgree(c, s.store);
    EverythingStored(c, s.store);
  }

  lemma AllBlocksHeld(c: Config, cells: Cells)
    requires GoodConfig(c) && Coherent(c.source) && cells == All(c)
    ensures forall k :: 0 <= k < |c.source| ==> HoldsBlock(cells, c.source[k])
  {
    hide Part, Merge, Coherent, ContentAddressed, HoldsBlock;
    var inverted :| ContentAddressed(inverted, c.source);
    forall k | 0 <= k < |c.source|
      ensures HoldsBlock(cells, c.source[k])
    {
      forall x | x in Part(Whole, c.source[k])
        ensures x in cells && cells[x] == Part(Whole, c.source[k])[x]
      {
        SourceCell(c.source, Whole, k, x);
      }
      PartHoldsBlock(inverted, c.source, k, cells);
    }
  }

  /** However often the load crashed and resumed on the way, a finished load leaves exactly the
      source's contents and its last hash: the same as one uninterrupted run. */
  lemma FinishedLoad(c: Config, states: seq<State>, steps: seq<Step>)
    requires GoodConfig(c) && History(c, states, steps) && Done(c, states[|steps|])
    ensures Contents(states[|steps|].store) == All(c) && HoldsExactly(Contents(states[|steps|].store), c.source)
    ensures states[|steps|].run.mark == |c.source|
    ensures forall k :: 0 <= k < |c.source| ==> HoldsBlock(Contents(states[|steps|].store), c.source[k])
    ensures LogLatest(states[|steps|].store.log) == if c.source == [] then None else Some(c.source[|c.source| - 1].hash)
  {
    hide Inv, LogLatest, All, Contents, Next, Enabled, Coherent, GoodConfig, Done, HoldsExactly, HoldsBlock;
    HistoryKeeps(c, states, steps);
    GoodIsCoherent(c);
    FinishedState(c, states[|steps|]);
    AllBlocksHeld(c, Contents(states[|steps|].store));
  }

  // ----- Progress -----

  function StagesLeft(stage: seq<nat>): nat {
    if stage == [] then 0
    else StagesLeft(stage[..|stage| - 1]) + if stage[|stage| - 1] <= 2 then 2 - stage[|stage| - 1] else 0
  }

  lemma {:induction false} StagesLeftUpdate(stage: seq<nat>, i: nat)
    requires i < |stage| && stage[i] < 2
    ensures StagesLeft(stage[i := stage[i] + 1]) + 1 == StagesLeft(stage)
    decreases |stage|
  {
    var init := stage[..|stage| - 1];
    if i < |init| {
      StagesLeftUpdate(init, i);
      assert stage[i := stage[i] + 1][..|stage| - 1] == init[i := init[i] + 1];
    } else {
      assert stage[i := stage[i] + 1][..|stage| - 1] == init;
    }
  }

  /** The most steps the process can still take before it is done or crashes. */
  function Rank(c: Config, s: State): int {
    5 * (|c.source| - s.run.start - Total(s.run.batches)) + StagesLeft(s.run.stage)
    + (|s.run.batches| - |s.run.received|) + (|s.run.batches| - s.run.committed)
  }

  lemma {:induction false} SizeOfSubset(x: set<nat>, y: set<nat>)
    requires x <= y
    ensures |x| <= |y|
  {
    assert y == x + (y - x);
  }

  lemma {:induction false} BoundedSize(x: set<nat>, n: nat)
    requires forall i :: i in x ==> i < n
    ensures |x| <= n
    decreases n
  {
    if n > 0 {
      BoundedSize(x - {n - 1}, n - 1);
      assert |x| <= |x - {n - 1}| + 1 by { assert x <= x - {n - 1} + {n - 1}; SizeOfSubset(x, x - {n - 1} + {n - 1}); }
    } else {
      assert x == {};
    }
  }

  lemma StagesLeftPush(stage: seq<nat>)
    ensures StagesLeft(stage + [0]) == StagesLeft(stage) + 2
  {
    assert (stage + [0])[..|stage|] == stage;
  }

  lemma RankPositive(c: Config, s: State)
    requires Inv(c, s)
    ensures 0 <= Rank(c, s)
  {
    hide Truthful, SyncedPointers, Ingested, Logged, Stored, Marked, StagesLeft, Total;
    BoundedSize(s.run.received, |s.run.batches|);
  }

  /** Every step but a crash brings the load closer to its end. */
  lemma StepProgresses(c: Config, s: State, step: Step)
    requires GoodConfig(c) && Inv(c, s) && Enabled(c, s, step) && !step.Crash?
    ensures 0 <= Rank(c, Next(c, s, step)) < Rank(c, s)
  {
    hide Truthful, SyncedPointers, Ingested, Logged, Stored, Marked, Merge, LogBatch, TableCells, GoodConfig, DrainedTo,
      Total, StagesLeft;
    var s' := Next(c, s, step);
    StepKeeps(c, s, step);
    RankPositive(c, s');
    match step
    case Emit(size) =>
      var from := s.run.start + Total(s.run.batches);
      TotalPush(s.run.batches, c.source[from..from + size]);
      StagesLeftPush(s.run.stage);
    case IngestAccounts(i) => StagesLeftUpdate(s.run.stage, i);
    case IngestStorage(i) => StagesLeftUpdate(s.run.stage, i);
    case Receive(i) =>
    case CommitNext =>
  }

  /** A load that is not done can always take another step. */
  lemma NotStuck(c: Config, s: State) returns (step: Step)
    requires Inv(c, s) && !Done(c, s)
    ensures Enabled(c, s, step) && !step.Crash?
  {
    hide Truthful, SyncedPointers, Ingested, Logged, Stored, Marked, Total;
    var r := s.run;
    if r.start + Total(r.batches) < |c.source| {
      step := Emit(1);
    } else if i :| 0 <= i < |r.stage| && r.stage[i] < 2 {
      step := if r.stage[i] == 0 then IngestAccounts(i) else IngestStorage(i);
    } else if r.committed < r.nextSeq {
      assert BatchAt(c, r, r.committed);
      step := CommitNext;
    } else {
      step := Receive(r.nextSeq);
    }
  }

  /** From any moment of any history the load can be run to its end. */
  lemma {:induction false} LoadCanFinish(c: Config, states: seq<State>, steps: seq<Step>)
    returns (states': seq<State>, steps': seq<Step>)
    requires GoodConfig(c) && History(c, states, steps)
    ensures History(c, states', steps') && states <= states' && steps <= steps' && Done(c, states'[|steps'|])
    ensures forall i :: |steps| <= i < |steps'| ==> !steps'[i].Crash?
    decreases Rank(c, states[|steps|])
  {
    hide Inv, Enabled, Next, GoodConfig, Rank, Done;
    HistoryKeeps(c, states, steps);
    var s := states[|steps|];
    if Done(c, s) {
      states', steps' := states, steps;
    } else {
      var step := NotStuck(c, s);
      StepProgresses(c, s, step);
      states', steps' := LoadCanFinish(c, states + [Next(c, s, step)], steps + [step]);
    }
  }

  // ----- The advancer, drain by drain -----

  /** The log entries of one drain: the latest hash goes with the last of them. */
  function Drained(c: Config, r: Run, from: nat, end: nat): seq<Commit>
    requires from <= end <= |r.batches| && forall i :: from <= i < end ==> r.batches[i] != []
    decreases end - from
  {
    if from == end then []
    else
      var batch := r.batches[from];
      [Commit(LogBatch(c, batch), if from + 1 == end then Some(batch[|batch| - 1].hash) else None)] +
        Drained(c, r, from + 1, end)
  }

  predicate Owes(r: Run) {
    && |r.stage| == |r.batches| && r.committed <= r.nextSeq <= |r.batches|
    && forall i :: r.committed <= i < r.nextSeq ==> r.batches[i] != []
  }

  /** All commits a drain owes, one step each. */
  function CommitAll(c: Config, s: State): State
    requires Owes(s.run)
    decreases s.run.nextSeq - s.run.committed
  {
    if s.run.committed == s.run.nextSeq then s else CommitAll(c, Next(c, s, CommitNext))
  }

  lemma {:induction false} CommitAllKeeps(c: Config, s: State)
    requires GoodConfig(c) && Inv(c, s) && Owes(s.run)
    ensures Inv(c, CommitAll(c, s))
    decreases s.run.nextSeq - s.run.committed
  {
    hide Inv, GoodConfig;
    if s.run.committed < s.run.nextSeq {
      StepKeeps(c, s, CommitNext);
      CommitAllKeeps(c, Next(c, s, CommitNext));
    }
  }

  /** The watermark once a drain's commits are done: one past its last block. */
  function MarkAfter(r: Run): nat
    requires Owes(r)
  {
    if r.committed == r.nextSeq then r.mark
    else var batch := r.batches[r.nextSeq - 1]; batch[|batch| - 1].num + 1
  }

  /** `s'` is `s` with everything a drain owes committed. */
  ghost predicate Drainage(c: Config, s: State, s': State)
    requires Owes(s.run)
  {
    && s'.store.log == s.store.log + Drained(c, s.run, s.run.committed, s.run.nextSeq)
    && s'.store.tables == s.store.tables
    && s'.store.synced == (if s.run.committed < s.run.nextSeq then |s'.store.log| else s.store.synced)
    && s'.run == s.run.(committed := s.run.nextSeq, mark := MarkAfter(s.run))
  }

  lemma {:induction false} SameDrain(c: Config, r: Run, r': Run, from: nat, end: nat)
    requires from <= end <= |r.batches| && r'.batches == r.batches && forall i :: from <= i < end ==> r.batches[i] != []
    ensures Drained(c, r', from, end) == Drained(c, r, from, end)
    decreases end - from
  {
    hide LogBatch;
    if from < end { SameDrain(c, r, r', from + 1, end); }
  }

  lemma DrainageStep(c: Config, s: State, s': State)
    requires Owes(s.run) && s.run.committed < s.run.nextSeq
    requires Owes(Next(c, s, CommitNext).run) && Drainage(c, Next(c, s, CommitNext), s')
    ensures Drainage(c, s, s')
  {
    hide LogBatch, LogCells, Merge;
    var next := Next(c, s, CommitNext);
    var from, end := s.run.committed, s.run.nextSeq;
    SameDrain(c, s.run, next.run, from + 1, end);
    var e := next.store.log[|s.store.log|];
    assert Drained(c, s.run, from, end) == [e] + Drained(c, s.run, from + 1, end);
    assert next.store.log == s.store.log + [e];
  }

  lemma {:induction false} CommitAllDrains(c: Config, s: State)
    requires Owes(s.run)
    ensures Drainage(c, s, CommitAll(c, s))
    decreases s.run.nextSeq - s.run.committed
  {
    if s.run.committed < s.run.nextSeq {
      hide LogBatch, Drained, Drainage;
      CommitAllDrains(c, Next(c, s, CommitNext));
      DrainageStep(c, s, CommitAll(c, s));
    } else {
      hide LogBatch;
    }
  }

  // ----- Merging stretches of blocks -----

  lemma MapPlusAssociative(x: Cells, y: Cells, z: Cells)
    ensures (x + y) + z == x + (y + z)
  {
  }

  lemma {:induction false} MergeAppend(kind: Kind, x: seq<Block>, y: seq<Block>)
    ensures Merge(kind, x + y) == Merge(kind, x) + Merge(kind, y)
    decreases |y|
  {
    hide Part;
    if y == [] {
      assert x + y == x;
    } else {
      var init, last := y[..|y| - 1], Part(kind, y[|y| - 1]);
      assert (x + y)[..|x + y| - 1] == x + init && (x + y)[|x + y| - 1] == y[|y| - 1];
      MergeAppend(kind, x, init);
      MapPlusAssociative(Merge(kind, x), Merge(kind, init), last);
    }
  }
}

/** `spawn_rocksdb_watermark_advancer`: completions in any order, commits in sequence order. */
module Advancing {
  import opened Bytes
  import opened ArchiveBlocks
  import opened Ingesting

  datatype Completion = Completion(seqNo: nat, lastNum: nat, lastHash: nat, blocks: nat, cells: Cells)

  /** The log entries of draining `[from, end)`: the latest hash goes with the last of them. */
  function Entries(m: map<nat, Completion>, from: nat, end: nat): seq<Commit>
    requires from <= end && forall i :: from <= i < end ==> i in m
    decreases end - from
  {
    if from == end then []
    else [Commit(m[from].cells, if from + 1 == end then Some(m[from].lastHash) else None)] + Entries(m, from + 1, end)
  }

  function BlocksIn(m: map<nat, Completion>, from: nat, end: nat): nat
    requires from <= end && forall i :: from <= i < end ==> i in m
    decreases end - from
  {
    if from == end then 0 else m[from].blocks + BlocksIn(m, from + 1, end)
  }

  class Advancer {
    var pending: map<nat, Completion>
    var nextSeq: nat
    var written: nat
    var finalContiguous: nat
    var log: seq<Commit>
    var synced: nat

    constructor (start: nat)
      ensures pending == map[] && nextSeq == 0 && written == 0 && log == [] && synced == 0
      ensures finalContiguous == if start == 0 then 0 else start - 1
    {
      pending, nextSeq, written, log, synced := map[], 0, 0, [], 0;
      finalContiguous := if start == 0 then 0 else start - 1;
    }

    /** One completion: everything now in order is committed, and synced with the pointer to its last block. */
    method Receive(comp: Completion)
      modifies this
      ensures var m := old(pending)[comp.seqNo := comp];
              old(nextSeq) <= nextSeq && (forall i :: old(nextSeq) <= i < nextSeq ==> i in m) && nextSeq !in pending
              && (forall i :: i in pending <==> i in m && !(old(nextSeq) <= i < nextSeq))
              && (forall i :: i in pending ==> pending[i] == m[i])
              && log == old(log) + Entries(m, old(nextSeq), nextSeq)
              && written == old(written) + BlocksIn(m, old(nextSeq), nextSeq)
              && (if nextSeq == old(nextSeq) then synced == old(synced) && finalContiguous == old(finalContiguous)
                  else synced == |log| && finalContiguous == m[nextSeq - 1].lastNum)
    {
      hide Entries, BlocksIn;
      pending := pending[comp.seqNo := comp];
      ghost var m, from := pending, nextSeq;
      var drained := DrainPending();
      CommitDrained(drained, m, from);
    }

    /** Take the completions from `nextSeq` on, as far as they go without a gap. */
    method DrainPending() returns (drained: seq<Completion>)
      modifies this`pending, this`nextSeq
      ensures old(nextSeq) <= nextSeq && nextSeq !in pending && |drained| == nextSeq - old(nextSeq)
      ensures forall i :: old(nextSeq) <= i < nextSeq ==>
        i in old(pending) && drained[i - old(nextSeq)] == old(pending)[i]
      ensures forall i :: i in pending <==> i in old(pending) && !(old(nextSeq) <= i < nextSeq)
      ensures forall i :: i in pending ==> pending[i] == old(pending)[i]
    {
      drained := [];
      while nextSeq in pending
        invariant old(nextSeq) <= nextSeq && |drained| == nextSeq - old(nextSeq)
        invariant forall i :: old(nextSeq) <= i < nextSeq ==>
          i in old(pending) && drained[i - old(nextSeq)] == old(pending)[i]
        invariant forall i :: i in pending <==> i in old(pending) && !(old(nextSeq) <= i < nextSeq)
        invariant forall i :: i in pending ==> pending[i] == old(pending)[i]
        decreases |pending|
      {
        drained := drained + [pending[nextSeq]];
        ghost var before := pending;
        pending := pending - {nextSeq};
        assert pending.Keys == before.Keys - {nextSeq};
        nextSeq := nextSeq + 1;
      }
    }

    method CommitDrained(drained: seq<Completion>, ghost m: map<nat, Completion>, ghost from: nat)
      requires forall i :: from <= i < from + |drained| ==> i in m && drained[i - from] == m[i]
      modifies this`log, this`written, this`synced, this`finalContiguous
      ensures log == old(log) + Entries(m, from, from + |drained|)
      ensures written == old(written) + BlocksIn(m, from, from + |drained|)
      ensures if drained == [] then synced == old(synced) && finalContiguous == old(finalContiguous)
              else synced == |log| && finalContiguous == drained[|drained| - 1].lastNum
    {
      ghost var end := from + |drained|;
      for i := 0 to |drained|
        invariant log + Entries(m, from + i, end) == old(log) + Entries(m, from, end)
        invariant written + BlocksIn(m, from + i, end) == old(written) + BlocksIn(m, from, end)
        invariant i < |drained| ==> synced == old(synced) && finalContiguous == old(finalContiguous)
        invariant i == |drained| && drained != [] ==> synced == |log| && finalContiguous == drained[i - 1].lastNum
        invariant drained == [] ==> synced == old(synced) && finalContiguous == old(finalContiguous)
      {
        var comp := drained[i];
        assert m[from + i] == comp;
        var isLast := i == |drained| - 1;
        var entry := Commit(comp.cells, if isLast then Some(comp.lastHash) else None);
        assert log + Entries(m, from + i, end) == log + [entry] + Entries(m, from + i + 1, end);
        log := log + [entry];
        if isLast {
          finalContiguous := comp.lastNum;
          synced := |log|;
        }
        written := written + comp.blocks;
      }
    }
  }

  /** The advancer's entries for finished batches are those of the protocol's commit steps. */
  lemma {:induction false} EntriesAreDrained(c: Config, r: Run, m: map<nat, Completion>, from: nat, end: nat)
    requires from <= end <= |r.batches| && forall i :: from <= i < end ==> r.batches[i] != [] && i in m
    requires forall i :: from <= i < end ==> m[i].cells == LogBatch(c, r.batches[i])
    requires forall i :: from <= i < end ==> m[i].lastHash == r.batches[i][|r.batches[i]| - 1].hash
    ensures Entries(m, from, end) == Drained(c, r, from, end)
    decreases end - from
  {
    hide LogBatch;
    if from < end { EntriesAreDrained(c, r, m, from + 1, end); }
  }

  // ----- The advancer carries out the protocol -----

  /** The completion a worker reports for batch `i`. */
  function Completed(c: Config, i: nat, batch: seq<Block>): Completion
    requires batch != []
  {
    var last := batch[|batch| - 1];
    Completion(i, last.num, last.hash, |batch|, LogBatch(c, batch))
  }

  /** The advancer holds back exactly the completions received ahead of their turn. */
  ghost predicate HoldsBack(c: Config, r: Run, pending: map<nat, Completion>, next: nat) {
    && (forall i :: i in pending <==> i in r.received && next <= i)
    && (forall i :: i in pending ==>
      i < |r.batches| && r.batches[i] != [] && pending[i] == Completed(c, i, r.batches[i]))
  }

  ghost predicate Reports(
    s: State, base: seq<Commit>, log: seq<Commit>, synced: nat, nextSeq: nat, written: nat, finalContiguous: nat)
  {
    && s.store.log == base + log && s.store.synced == |base| + synced
    && nextSeq == s.run.nextSeq == s.run.committed <= |s.run.batches|
    && finalContiguous == (if s.run.mark == 0 then 0 else s.run.mark - 1)
    && written == Total(s.run.batches[..nextSeq])
  }

  /** An advancer started on a store whose log was `base` is where the protocol is, with nothing left to commit. */
  ghost predicate Mirrors(c: Config, s: State, a: Advancer, base: seq<Commit>)
    reads a
  {
    && HoldsBack(c, s.run, a.pending, a.nextSeq)
    && Reports(s, base, a.log, a.synced, a.nextSeq, a.written, a.finalContiguous)
  }

  /** Both stop draining at the first completion that is not there. */
  lemma SameGap(c: Config, r: Run, m: map<nat, Completion>, from: nat, next: nat)
    requires from <= |r.batches| && from <= next && HoldsBack(c, r, m, from)
    requires (forall i :: from <= i < next ==> i in m) && next !in m
    ensures next == DrainedTo(r.received, from, |r.batches|)
  {
    var end := DrainedTo(r.received, from, |r.batches|);
    assert end < next ==> end in m;
    assert next < end ==> next in r.received;
  }

  /** A completion just received is not one of those already drained. */
  lemma HoldsBackMore(c: Config, s: State, i: nat, pending: map<nat, Completion>)
    requires Inv(c, s) && Enabled(c, s, Receive(i)) && s.run.batches[i] != []
    requires HoldsBack(c, s.run, pending, s.run.nextSeq)
    ensures HoldsBack(c, Next(c, s, Receive(i)).run, pending[i := Completed(c, i, s.run.batches[i])], s.run.nextSeq)
  {
    hide LogBatch, Total, Truthful, SyncedPointers, Consecutive, Ingested, Logged, Stored, Marked, DrainedTo;
    assert i >= s.run.nextSeq;
  }

  lemma {:induction false} BlocksAreTotal(c: Config, r: Run, m: map<nat, Completion>, from: nat, end: nat)
    requires from <= end <= |r.batches| && forall i :: from <= i < end ==> i in m && r.batches[i] != []
    requires forall i :: from <= i < end ==> m[i] == Completed(c, i, r.batches[i])
    ensures Total(r.batches[..from]) + BlocksIn(m, from, end) == Total(r.batches[..end])
    decreases end - from
  {
    hide LogBatch, Total;
    if from < end {
      TotalStep(r.batches, from);
      BlocksAreTotal(c, r, m, from + 1, end);
    }
  }

  /** What the advancer drains is what the protocol owes. */
  lemma DrainIsOwed(c: Config, r: Run, m: map<nat, Completion>, from: nat, next: nat)
    requires HoldsBack(c, r, m, from) && from <= next <= |r.batches| && forall i :: from <= i < next ==> i in m
    ensures forall i :: from <= i < next ==> r.batches[i] != []
    ensures Entries(m, from, next) == Drained(c, r, from, next)
    ensures Total(r.batches[..from]) + BlocksIn(m, from, next) == Total(r.batches[..next])
    ensures from < next ==> var batch := r.batches[next - 1]; m[next - 1].lastNum == batch[|batch| - 1].num
  {
    hide LogBatch, Total;
    EntriesAreDrained(c, r, m, from, next);
    BlocksAreTotal(c, r, m, from, next);
  }

  lemma StillHoldsBack(
    c: Config, r: Run, r': Run, m: map<nat, Completion>, from: nat, pending: map<nat, Completion>, next: nat)
    requires HoldsBack(c, r, m, from) && from <= next && r'.batches == r.batches && r'.received == r.received
    requires forall i :: i in pending <==> i in m && !(from <= i < next)
    requires forall i :: i in pending ==> pending[i] == m[i]
    ensures HoldsBack(c, r', pending, next)
  {
  }

  lemma DrainReports(
    c: Config, s: State, s': State, base: seq<Commit>, from: nat, log: seq<Commit>, synced: nat,
    log': seq<Commit>, synced': nat, finalContiguous: nat)
    requires Owes(s.run) && Drainage(c, s, s') && s.run.committed == from && s.store.log == base + log
    requires s.store.synced == |base| + synced && log' == log + Drained(c, s.run, from, s.run.nextSeq)
    requires s.run.nextSeq == from ==>
      synced' == synced && finalContiguous == if s.run.mark == 0 then 0 else s.run.mark - 1
    requires s.run.nextSeq > from ==>
      var batch := s.run.batches[s.run.nextSeq - 1];
      synced' == |log'| && finalContiguous == batch[|batch| - 1].num
    ensures Reports(s', base, log', synced', s.run.nextSeq, Total(s.run.batches[..s.run.nextSeq]), finalContiguous)
  {
    hide Drained, Total, LogBatch;
    assert base + log + Drained(c, s.run, from, s.run.nextSeq) == base + log';
  }

  lemma BatchesFilled(c: Config, s: State)
    requires Inv(c, s)
    ensures forall i :: 0 <= i < |s.run.batches| ==> s.run.batches[i] != []
  {
    forall i | 0 <= i < |s.run.batches|
      ensures s.run.batches[i] != []
    {
      assert BatchAt(c, s.run, i);
    }
  }

  /** Receiving a completion takes the advancer where the protocol's receive step and the commits it owes lead. */
  method ReceiveSimulates(
    a: Advancer, ghost c: Config, ghost s: State, i: nat, comp: Completion, ghost base: seq<Commit>)
    returns (ghost s': State)
    requires Mirrors(c, s, a, base) && Inv(c, s) && Enabled(c, s, Receive(i))
    requires s.run.batches[i] != [] && comp == Completed(c, i, s.run.batches[i])
    modifies a
    ensures Owes(Next(c, s, Receive(i)).run) && s' == CommitAll(c, Next(c, s, Receive(i))) && Mirrors(c, s', a, base)
  {
    hide Inv, LogBatch, Total, Entries, BlocksIn, Drained, CommitAll, HoldsBack;
    ghost var m := a.pending[i := comp];
    ghost var before, log, synced := a.nextSeq, a.log, a.synced;
    ghost var received := Next(c, s, Receive(i));
    BatchesFilled(c, s);
    HoldsBackMore(c, s, i, a.pending);
    a.Receive(comp);
    SameGap(c, received.run, m, before, a.nextSeq);
    DrainIsOwed(c, received.run, m, before, a.nextSeq);
    CommitAllDrains(c, received);
    s' := CommitAll(c, received);
    StillHoldsBack(c, received.run, s'.run, m, before, a.pending, a.nextSeq);
    DrainReports(c, received, s', base, before, log, synced, a.log, a.synced, a.finalContiguous);
  }
}
