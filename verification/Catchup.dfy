/** Ranges of block numbers and how they are cut into requests. */
module RequestPlans {
  import opened Bytes
  import opened Ranges
  import opened BundleIndex
  import opened BundleNumbering

  function Itself(w: Window): Window {
    w
  }

  function Flatten(ws: seq<Window>): seq<nat> {
    if ws == [] then []
    else
      var w := ws[|ws| - 1];
      Flatten(ws[..|ws| - 1]) + if w.first <= w.last then Range(w.first, w.last + 1) else []
  }

  lemma {:induction false} TilesFlatten(ws: seq<Window>, from: nat, next: nat)
    requires Tiles(ws, Itself, from, next)
    ensures from <= next && Flatten(ws) == Range(from, next)
  {
    if ws != [] {
      var w := ws[|ws| - 1];
      TilesFlatten(ws[..|ws| - 1], from, w.first);
      assert Range(from, w.first) + Range(w.first, next) == Range(from, next);
    }
  }

  /** A window that stays in one bundle and stops only at the bundle's or the range's end. */
  predicate BundleWindow(w: Window, end: u64) {
    && w.first <= w.last < U64_END
    && BundleId(w.last) == BundleId(w.first)
    && (w.last == end || (w.last < end && w.last == BundleEnd(w.first)))
  }

  function BundleWindowAt(first: u64, end: u64): (w: Window)
    requires first <= end
    ensures BundleWindow(w, end) && w.first == first
  {
    BundleIsARun(first, if BundleEnd(first) <= end then BundleEnd(first) else end);
    BundleIsARun(first, first);
    Window(first, if BundleEnd(first) <= end then BundleEnd(first) else end)
  }

  /** A batch of `size` numbers, or what is left of the range. */
  predicate BatchWindow(w: Window, end: u64, size: nat) {
    w.first <= w.last && (w.last == end || (w.last < end && w.last + 1 == w.first + size))
  }

  /**
   * The requests of one catch-up: bundle windows, the window whose bundle was missing, the block that follows them,
   * read with the retained state root, and batches of single blocks.
   */
  datatype Plan = Plan(windows: seq<Window>, missed: Option<Window>, handOff: Option<(nat, nat)>, batches: seq<Window>)

  predicate PlanOk(plan: Plan, start: nat, end: u64, size: nat) {
    && (forall w :: w in plan.windows ==> BundleWindow(w, end))
    && (forall w :: w in plan.batches ==> BatchWindow(w, end, size))
    && (plan.missed.Some? ==> plan.handOff.Some? && plan.missed.value.first == plan.handOff.value.0)
    && if plan.handOff.Some? then
         var h := plan.handOff.value.0;
         Tiles(plan.windows, Itself, start, h) && Tiles(plan.batches, Itself, h + 1, end + 1)
       else
         plan.batches == [] && Tiles(plan.windows, Itself, start, end + 1)
  }

  /** The block numbers asked for, in the order they are asked for. */
  function Numbers(plan: Plan): seq<nat> {
    Flatten(plan.windows) + (if plan.handOff.Some? then [plan.handOff.value.0] else []) + Flatten(plan.batches)
  }

  /** Whatever the mix of requests, every number of the range is asked for once and in order. */
  lemma PlanAsksEachOnce(plan: Plan, start: nat, end: u64, size: nat)
    requires PlanOk(plan, start, end, size)
    ensures start <= end + 1 && Numbers(plan) == Range(start, end + 1)
  {
    if plan.handOff.Some? {
      var h := plan.handOff.value.0;
      TilesFlatten(plan.windows, start, h);
      TilesFlatten(plan.batches, h + 1, end + 1);
      assert Range(start, h) + [h] + Range(h + 1, end + 1) == Range(start, end + 1);
    } else {
      TilesFlatten(plan.windows, start, end + 1);
      assert Flatten(plan.batches) == [];
      assert Range(start, end + 1) + [] + [] == Range(start, end + 1);
    }
  }
}

/** Catching the state tree up from object storage before following the live stream. */
module CatchingUp {
  import opened Bytes
  import opened Ranges
  import opened RequestPlans
  import BundleReading

  type BlockInfo = BundleReading.BlockInfo

  datatype UpdateError = ParentMissing | Refused | ReadFailed | HandOffMismatch | NoLatest

  type Blocks = map<nat, BlockInfo>

  /** Which known block a number, or the latest tag, stands for; any choice among the known blocks. */
  datatype Choice = Choice(at: (Blocks, nat) -> Option<BlockInfo>, latest: Blocks -> Option<BlockInfo>)

  ghost predicate Known(blocks: Blocks, choice: Option<BlockInfo>) {
    choice.Some? ==> choice.value.hash in blocks && blocks[choice.value.hash] == choice.value
  }

  ghost predicate Chooses(choice: Choice) {
    && (forall blocks: Blocks :: Known(blocks, choice.latest(blocks)))
    && (forall blocks: Blocks, n: nat :: Known(blocks, choice.at(blocks, n)))
    && (forall blocks: Blocks, n: nat :: choice.at(blocks, n).Some? ==> choice.at(blocks, n).value.number == n)
  }

  /** The known blocks after `infos` are added, one after the other. */
  function Added(blocks: Blocks, infos: seq<BlockInfo>): Blocks {
    if infos == [] then blocks
    else var last := infos[|infos| - 1]; Added(blocks, infos[..|infos| - 1])[last.hash := last]
  }

  predicate HasHash(infos: seq<BlockInfo>, hash: nat) {
    exists info :: info in infos && info.hash == hash
  }

  lemma {:induction false} AddedAppend(blocks: Blocks, x: seq<BlockInfo>, y: seq<BlockInfo>)
    ensures Added(blocks, x + y) == Added(Added(blocks, x), y)
    decreases |y|
  {
    if y == [] {
      assert x + y == x;
    } else {
      var init := y[..|y| - 1];
      AddedAppend(blocks, x, init);
      assert (x + y)[..|x + y| - 1] == x + init;
    }
  }

  /** A hash is known afterwards exactly when it was known before or is one of the added blocks'. */
  lemma {:induction false} AddedHas(blocks: Blocks, infos: seq<BlockInfo>, hash: nat)
    ensures hash in Added(blocks, infos) <==> hash in blocks || HasHash(infos, hash)
    decreases |infos|
  {
    if infos != [] {
      var init, last := infos[..|infos| - 1], infos[|infos| - 1];
      AddedHas(blocks, init, hash);
      assert infos == init + [last];
      if HasHash(init, hash) {
        var info :| info in init && info.hash == hash;
        assert info in infos;
      }
    }
  }

  lemma AddedGrows(blocks: Blocks, x: seq<BlockInfo>, y: seq<BlockInfo>)
    requires x <= y
    ensures Added(blocks, x).Keys <= Added(blocks, y).Keys
  {
    hide Added;
    forall hash | hash in Added(blocks, x)
      ensures hash in Added(blocks, y)
    {
      AddedHas(blocks, x, hash);
      AddedHas(blocks, y, hash);
    }
  }

  predicate LinkedAt(infos: seq<BlockInfo>, i: nat)
    requires 0 < i < |infos|
  {
    infos[i].parentHash == infos[i - 1].hash
  }

  /** Each block is the child of the one before it. */
  predicate Linked(infos: seq<BlockInfo>) {
    forall i: nat :: 0 < i < |infos| ==> LinkedAt(infos, i)
  }

  /** The tree of known blocks: a block may be added only below a known parent. */
  class Tree {
    const refuses: nat -> bool
    const choice: Choice
    var blocks: Blocks
    /** Every block added so far, in order. */
    var applied: seq<BlockInfo>
    ghost const base: Blocks

    /** The tree knows what it started with and what was added, and nothing else. */
    ghost predicate Valid()
      reads this
    {
      blocks == Added(base, applied)
    }

    constructor (refuses: nat -> bool, choice: Choice, blocks: Blocks)
      ensures Valid() && this.refuses == refuses && this.choice == choice && this.blocks == blocks && applied == []
    {
      this.refuses := refuses;
      this.choice := choice;
      this.blocks := blocks;
      applied := [];
      base := blocks;
    }

    method UpdateBlock(info: BlockInfo) returns (r: Result<(), UpdateError>)
      requires Valid()
      modifies this
      ensures Valid()
      ensures r.Ok? ==> blocks == old(blocks)[info.hash := info] && applied == old(applied) + [info]
      ensures r.Err? ==> blocks == old(blocks) && applied == old(applied)
      ensures info.parentHash !in old(blocks) <==> r == Err(ParentMissing)
      ensures r == Err(Refused) <==> info.parentHash in old(blocks) && refuses(|old(applied)|)
      ensures r.Err? ==> r.error == ParentMissing || r.error == Refused
    {
      if info.parentHash !in blocks {
        return Err(ParentMissing);
      }
      if refuses(|applied|) {
        return Err(Refused);
      }
      assert (applied + [info])[..|applied|] == applied;
      blocks := blocks[info.hash := info];
      applied := applied + [info];
      return Ok(());
    }

    /** Adds the blocks in order and stops at the first that is not accepted. */
    method UpdateAll(infos: seq<BlockInfo>) returns (r: Result<(), UpdateError>)
      requires Valid()
      modifies this
      ensures Valid() && old(applied) <= applied
      ensures r.Ok? ==> applied == old(applied) + infos && blocks == Added(old(blocks), infos)
      ensures r.Err? ==> exists k: nat :: k < |infos| && applied == old(applied) + infos[..k]
      ensures r.Err? ==> r.error.Refused? || r.error.ParentMissing?
      ensures r.Err? && r.error.Refused? ==> exists k: nat :: refuses(k)
      ensures r.Err? && r.error.ParentMissing? ==> exists info :: info in infos && info.parentHash !in blocks
      ensures r.Err? && infos[0].parentHash in old(blocks) && Linked(infos) ==> r.error == Refused
    {
      hide Added;
      for i := 0 to |infos|
        invariant Valid() && applied == old(applied) + infos[..i]
        invariant i == 0 ==> blocks == old(blocks)
        invariant i > 0 ==> infos[i - 1].hash in blocks
      {
        r := UpdateBlock(infos[i]);
        if r.Err? {
          assert i > 0 && Linked(infos) ==> LinkedAt(infos, i);
          return;
        }
        assert infos[..i + 1] == infos[..i] + [infos[i]];
      }
      assert infos[..|infos|] == infos;
      AddedAppend(base, old(applied), infos);
      r := Ok(());
    }
  }

  // ----- Object storage -----

  /** Reading part of one bundle: its blocks, a definitive miss, or an error. */
  datatype BundleOutcome = Hit(blocks: seq<BlockInfo>) | Absent | Broken

  /** `byNumber` takes the state root of the parent where it is already known. */
  datatype Source = Source(
    bundle: (nat, nat) -> BundleOutcome,
    byNumber: (nat, Option<nat>) -> Option<BlockInfo>,
    byHash: nat -> Option<BlockInfo>)

  /** A bundle hit carries exactly the blocks of its window, as the bundle reader promises. */
  ghost predicate WindowsFilled(source: Source) {
    forall first: nat, last: nat :: first <= last && source.bundle(first, last).Hit? ==>
      |source.bundle(first, last).blocks| == last + 1 - first
  }

  /** `info` answers a request for blocks between `first` and `last`. */
  ghost predicate AnswerIn(source: Source, first: nat, last: nat, info: BlockInfo) {
    || (exists a: nat, b: nat ::
          first <= a <= b <= last && source.bundle(a, b).Hit? && info in source.bundle(a, b).blocks)
    || (exists n: nat, root: Option<nat> :: first <= n <= last && source.byNumber(n, root) == Some(info))
  }

  /** Why reading blocks `first` to `last` into the tree stopped. */
  ghost predicate ReadingCause(
    source: Source, refuses: nat -> bool, blocks: Blocks, first: nat, last: nat, e: UpdateError)
  {
    match e
    case ReadFailed =>
      || (exists a: nat, b: nat :: first <= a <= b <= last && source.bundle(a, b).Broken?)
      || (exists n: nat, root: Option<nat> :: first <= n <= last && source.byNumber(n, root).None?)
    case Refused => exists k: nat :: refuses(k)
    case ParentMissing => exists info: BlockInfo :: AnswerIn(source, first, last, info) && info.parentHash !in blocks
    case _ => false
  }

  lemma CauseWidens(
    source: Source, refuses: nat -> bool, blocks: Blocks, first: nat, last: nat, e: UpdateError, from: nat, end: nat)
    requires ReadingCause(source, refuses, blocks, first, last, e) && from <= first && last <= end
    ensures ReadingCause(source, refuses, blocks, from, end, e)
  {
    if e.ParentMissing? {
      var info: BlockInfo :| AnswerIn(source, first, last, info) && info.parentHash !in blocks;
      assert AnswerIn(source, from, end, info);
    }
  }

  /** The bundle window from `next` on is missing. */
  ghost predicate MissAt(source: Source, next: nat, end: u64)
    requires next <= end
  {
    var w := BundleWindowAt(next, end); source.bundle(w.first, w.last).Absent?
  }

  lemma BrokenCause(source: Source, refuses: nat -> bool, known: Blocks, start: nat, end: nat, w: Window)
    requires start <= w.first <= w.last <= end && source.bundle(w.first, w.last).Broken?
    ensures ReadingCause(source, refuses, known, start, end, ReadFailed)
  {
  }

  lemma HitCause(
    source: Source, refuses: nat -> bool, known: Blocks, start: nat, end: nat, w: Window, blocks: seq<BlockInfo>,
    e: UpdateError)
    requires start <= w.first <= w.last <= end && source.bundle(w.first, w.last) == Hit(blocks)
    requires e.Refused? ==> exists k: nat :: refuses(k)
    requires e.ParentMissing? ==> exists info :: info in blocks && info.parentHash !in known
    requires e.Refused? || e.ParentMissing?
    ensures ReadingCause(source, refuses, known, start, end, e)
  {
    if e.ParentMissing? {
      var info :| info in blocks && info.parentHash !in known;
      assert AnswerIn(source, start, end, info);
    }
  }

  lemma NumberCause(
    source: Source, refuses: nat -> bool, known: Blocks, start: nat, end: nat, n: nat, root: Option<nat>,
    e: UpdateError)
    requires start <= n <= end
    requires match e
      case ReadFailed => source.byNumber(n, root).None?
      case Refused => exists k: nat :: refuses(k)
      case ParentMissing => source.byNumber(n, root).Some? && source.byNumber(n, root).value.parentHash !in known
      case _ => false
    ensures ReadingCause(source, refuses, known, start, end, e)
  {
    if e.ParentMissing? {
      assert AnswerIn(source, start, end, source.byNumber(n, root).value);
    }
  }

  // ----- Answers to a plan -----

  predicate GotWindow(source: Source, w: Window, start: nat, got: seq<BlockInfo>) {
    var outcome := source.bundle(w.first, w.last);
    && start <= w.first <= w.last < start + |got|
    && outcome.Hit? && got[w.first - start..w.last + 1 - start] == outcome.blocks
  }

  /** The blocks got for `ws` are those their bundles hold, in place. */
  predicate GotWindows(source: Source, ws: seq<Window>, start: nat, got: seq<BlockInfo>) {
    forall w :: w in ws ==> GotWindow(source, w, start, got)
  }

  lemma WindowOrder(w: Window, end: u64)
    requires BundleWindow(w, end)
    ensures w.first <= w.last <= end
  {
  }

  lemma SliceKept(got: seq<BlockInfo>, blocks: seq<BlockInfo>, lo: nat, hi: nat)
    requires lo <= hi <= |got|
    ensures (got + blocks)[lo..hi] == got[lo..hi]
  {
  }

  lemma SliceAdded(got: seq<BlockInfo>, blocks: seq<BlockInfo>)
    ensures (got + blocks)[|got|..|got| + |blocks|] == blocks
  {
  }

  lemma WindowKept(source: Source, w: Window, start: nat, got: seq<BlockInfo>, blocks: seq<BlockInfo>)
    requires GotWindow(source, w, start, got)
    ensures GotWindow(source, w, start, got + blocks)
  {
    SliceKept(got, blocks, w.first - start, w.last + 1 - start);
  }

  lemma WindowAdded(source: Source, w: Window, start: nat, got: seq<BlockInfo>, blocks: seq<BlockInfo>)
    requires w.first <= w.last && w.first == start + |got|
    requires source.bundle(w.first, w.last) == Hit(blocks) && |blocks| == w.last + 1 - w.first
    ensures GotWindow(source, w, start, got + blocks)
  {
    SliceAdded(got, blocks);
  }

  lemma GotExtends(source: Source, ws: seq<Window>, start: nat, got: seq<BlockInfo>, w: Window, blocks: seq<BlockInfo>)
    requires GotWindows(source, ws, start, got) && w.first <= w.last && w.first == start + |got|
    requires source.bundle(w.first, w.last) == Hit(blocks) && |blocks| == w.last + 1 - w.first
    ensures GotWindows(source, ws + [w], start, got + blocks)
  {
    hide GotWindow;
    forall v | v in ws + [w]
      ensures GotWindow(source, v, start, got + blocks)
    {
      if v in ws {
        WindowKept(source, v, start, got, blocks);
      } else {
        WindowAdded(source, w, start, got, blocks);
      }
    }
  }

  function BatchSize(queueSize: nat): (n: nat)
    ensures n >= 1 && n >= queueSize && (n == 1 || n == queueSize)
  {
    if queueSize == 0 then 1 else queueSize
  }

  function BatchAt(first: nat, end: u64, size: nat): (w: Window)
    requires first <= end && size >= 1
    ensures BatchWindow(w, end, size) && w.first == first && first <= w.last <= end
  {
    Window(first, if first + size - 1 <= end then first + size - 1 else end)
  }

  predicate GotSingles(source: Source, start: nat, got: seq<BlockInfo>) {
    forall k: nat :: k < |got| ==> Some(got[k]) == source.byNumber(start + k, None)
  }

  lemma SinglesExtend(source: Source, start: nat, got: seq<BlockInfo>, more: seq<BlockInfo>)
    requires GotSingles(source, start, got) && GotSingles(source, start + |got|, more)
    ensures GotSingles(source, start, got + more)
  {
    forall k: nat | k < |got + more|
      ensures Some((got + more)[k]) == source.byNumber(start + k, None)
    {
      if k >= |got| {
        assert Some(more[k - |got|]) == source.byNumber(start + |got| + (k - |got|), None);
      }
    }
  }

  /**
   * The blocks got are the answers to the plan's requests, one per number and in order. The first block read by
   * number is read with the state root of the block before it: the last bundle block, or the tree's own.
   */
  predicate GotPlan(source: Source, plan: Plan, start: nat, end: nat, root: nat, got: seq<BlockInfo>) {
    && start <= end && |got| == end + 1 - start
    && GotWindows(source, plan.windows, start, got)
    && (plan.handOff.Some? ==>
      var h := plan.handOff.value.0;
      && start <= h <= end
      && plan.handOff.value.1 == (if h == start then root else got[h - 1 - start].stateRoot)
      && Some(got[h - start]) == source.byNumber(h, Some(plan.handOff.value.1))
      && GotSingles(source, h + 1, got[h + 1 - start..]))
  }

  lemma GotPlanJoins(
    source: Source, plan: Plan, start: nat, end: nat, root: nat, blocks: seq<BlockInfo>, rest: seq<BlockInfo>)
    requires GotWindows(source, plan.windows, start, blocks)
    requires plan.handOff.Some? && plan.handOff.value.0 == start + |blocks| <= end &&
      |rest| == end + 1 - (start + |blocks|)
    requires plan.handOff.value.1 == if blocks == [] then root else blocks[|blocks| - 1].stateRoot
    requires Some(rest[0]) == source.byNumber(start + |blocks|, Some(plan.handOff.value.1))
    requires GotSingles(source, start + |blocks| + 1, rest[1..])
    ensures GotPlan(source, plan, start, end, root, blocks + rest)
  {
    hide GotSingles;
    var got := blocks + rest;
    forall w | w in plan.windows
      ensures GotWindow(source, w, start, got)
    {
      assert GotWindow(source, w, start, blocks);
      assert got[w.first - start..w.last + 1 - start] == blocks[w.first - start..w.last + 1 - start];
    }
    assert got[|blocks| + 1..] == rest[1..];
  }

  // ----- The path to the live head -----

  /** The first block of the live stream. */
  datatype Head = Head(number: u64, parentHash: nat)

  /** The block before the live head's. */
  function Tip(head: Head): (tip: u64)
    ensures tip <= head.number <= tip + 1 && (tip == head.number ==> tip == 0)
  {
    if head.number == 0 then 0 else head.number - 1
  }

  /** The last height read by number: `safeDepth` below the tip, but not below what is applied nor above the tip. */
  function Target(head: Head, safeDepth: nat, lastApplied: u64): (target: u64)
    ensures target <= Tip(head) <= target + safeDepth
    ensures target >= lastApplied || target == Tip(head)
    ensures target > lastApplied ==> target + safeDepth == Tip(head)
  {
    var stable := if Tip(head) < safeDepth then 0 else Tip(head) - safeDepth;
    var reached := if stable < lastApplied then lastApplied else stable;
    if reached < Tip(head) then reached else Tip(head)
  }

  /** There are blocks to read by number. */
  predicate BehindTarget(latest: Option<BlockInfo>, head: Head, safeDepth: nat) {
    latest.Some? && latest.value.number < Target(head, safeDepth, latest.value.number)
  }

  predicate IsAbove(info: Option<BlockInfo>, target: nat) {
    info.Some? && info.value.number > target
  }

  predicate AnchoredAt(anchor: Option<BlockInfo>, hash: nat) {
    anchor.Some? && anchor.value.hash == hash
  }

  /** `path` leads, child by child, from the tree's block at `target` to the parent of the live head. */
  predicate Reaches(choice: Choice, known: Blocks, target: nat, path: seq<BlockInfo>, head: Head)
    requires path != []
  {
    && Linked(path)
    && AnchoredAt(choice.at(known, target), path[0].parentHash)
    && path[|path| - 1].hash == head.parentHash
    && forall b :: b in path ==> b.number > target
  }

  function Onto(found: seq<BlockInfo>, rest: Result<seq<BlockInfo>, UpdateError>): Result<seq<BlockInfo>, UpdateError> {
    if rest.Err? then rest else Ok(found + rest.value)
  }

  lemma OntoLaws(a: seq<BlockInfo>, b: seq<BlockInfo>, rest: Result<seq<BlockInfo>, UpdateError>)
    ensures Onto([], rest) == rest && Onto(a, Ok([])) == Ok(a)
    ensures Onto(a, Onto(b, rest)) == Onto(a + b, rest)
  {
    assert a + [] == a;
    if rest.Ok? {
      assert [] + rest.value == rest.value;
      assert a + (b + rest.value) == a + b + rest.value;
    }
  }

  /** The blocks above `target` met on the way down from `hash`, newest first, at most `hops` of them. */
  function Walk(
    byHash: nat -> Option<BlockInfo>, hash: nat, target: nat, hops: nat): (r: Result<seq<BlockInfo>, UpdateError>)
    ensures r.Err? ==> r.error == ReadFailed
    decreases hops
  {
    if hops == 0 then Ok([])
    else
      var info := byHash(hash);
      if info.None? then Err(ReadFailed)
      else if info.value.number <= target then Ok([])
      else Onto([info.value], Walk(byHash, info.value.parentHash, target, hops - 1))
  }

  lemma WalkZero(byHash: nat -> Option<BlockInfo>, hash: nat, target: nat)
    ensures Walk(byHash, hash, target, 0) == Ok([])
  {
  }

  /** Every object carries the hash it is stored under. */
  ghost predicate Addressed(byHash: nat -> Option<BlockInfo>) {
    forall h: nat :: byHash(h).Some? ==> byHash(h).value.hash == h
  }

  function Reversed(s: seq<BlockInfo>): (t: seq<BlockInfo>)
    ensures |t| == |s|
  {
    seq(|s|, i requires 0 <= i < |s| => s[|s| - 1 - i])
  }

  /** What a walk brings back, oldest first, is a path of children that ends at the hash it started from. */
  lemma {:induction false} WalkIsAPath(byHash: nat -> Option<BlockInfo>, hash: nat, target: nat, hops: nat)
    requires Addressed(byHash) && Walk(byHash, hash, target, hops).Ok?
    ensures var path := Reversed(Walk(byHash, hash, target, hops).value);
      && Linked(path) && |path| <= hops
      && (path != [] ==> path[|path| - 1].hash == hash)
      && (forall b :: b in path ==> b.number > target)
      && (path != [] <==> hops > 0 && IsAbove(byHash(hash), target))
    decreases hops
  {
    if hops > 0 && byHash(hash).value.number > target {
      var info := byHash(hash).value;
      WalkIsAPath(byHash, info.parentHash, target, hops - 1);
      var rest := Reversed(Walk(byHash, info.parentHash, target, hops - 1).value);
      var path := Reversed(Walk(byHash, hash, target, hops).value);
      assert path == rest + [info];
      forall i: nat | 0 < i < |path|
        ensures LinkedAt(path, i)
      {
        if i < |rest| {
          assert LinkedAt(rest, i);
        }
      }
    }
  }

  /** The three things that can stop the by-hash phase; a missing parent is not among them. */
  ghost predicate ByHashFailure(
    tree: Tree, byHash: nat -> Option<BlockInfo>, head: Head, tip: nat, target: nat, known: Blocks, e: UpdateError)
    requires target <= tip
  {
    var walk := Walk(byHash, head.parentHash, target, tip - target);
    match e
    case ReadFailed => walk.Err?
    case Refused => exists k: nat :: tree.refuses(k)
    case HandOffMismatch =>
      walk.Ok? && walk.value != [] &&
        !AnchoredAt(tree.choice.at(known, target), walk.value[|walk.value| - 1].parentHash)
    case _ => false
  }

  /** Why a catch-up stopped: no latest block, the by-number phase, or the by-hash phase. */
  ghost predicate Stopped(
    tree: Tree, source: Source, safeDepth: nat, latest: Option<BlockInfo>, head: Head,
    plan: Option<Plan>, path: seq<BlockInfo>, known: Blocks, e: UpdateError)
  {
    if latest.None? then e == NoLatest
    else
      var target := Target(head, safeDepth, latest.value.number);
      || (plan.Some? && path == [] && ReadingCause(source, tree.refuses, known, latest.value.number + 1, target, e))
      || ByHashFailure(tree, source.byHash, head, Tip(head), target, known, e)
  }

  /** The head's parent is known after a path that reaches it, or if it was known already. */
  lemma ParentKnown(
    choice: Choice, before: Blocks, got: seq<BlockInfo>, known: Blocks, target: nat, path: seq<BlockInfo>, head: Head)
    requires known == Added(before, got) && (path != [] ==> Reaches(choice, known, target, path, head))
    ensures head.parentHash in Added(known, path) <==>
      path != [] || head.parentHash in before || HasHash(got, head.parentHash)
  {
    hide Added;
    AddedHas(before, got, head.parentHash);
    AddedHas(known, path, head.parentHash);
    if path != [] {
      assert path[|path| - 1] in path;
    }
  }

  // ----- The updater -----

  class Updater {
    const tree: Tree
    const source: Source
    const queueSize: nat
    const safeDepth: nat
    var readFromBundle: bool

    constructor (tree: Tree, source: Source, queueSize: nat, safeDepth: nat, readFromBundle: bool)
      ensures this.tree == tree && this.source == source && this.queueSize == queueSize && this.safeDepth == safeDepth
      ensures this.readFromBundle == readFromBundle
    {
      this.tree, this.source, this.queueSize, this.safeDepth := tree, source, queueSize, safeDepth;
      this.readFromBundle := readFromBundle;
    }

    /** Reads bundle windows until the range is done or a bundle is missing. */
    method ReadWindows(start: u64, end: u64, root: nat)
      returns (r: Result<(nat, nat), UpdateError>, windows: seq<Window>, missed: Option<Window>,
        ghost got: seq<BlockInfo>)
      requires start <= end && WindowsFilled(source) && tree.Valid()
      modifies this, tree
      ensures tree.Valid() && old(tree.applied) <= tree.applied
      ensures r.Err? ==> ReadingCause(source, tree.refuses, tree.blocks, start, end, r.error)
      ensures r.Ok? ==> tree.applied == old(tree.applied) + got
      ensures r.Ok? ==> Tiles(windows, Itself, start, r.value.0) && |got| == r.value.0 - start && r.value.0 <= end + 1
      ensures r.Ok? ==> forall w :: w in windows ==> BundleWindow(w, end)
      ensures r.Ok? ==> GotWindows(source, windows, start, got)
      ensures r.Ok? ==> r.value.1 == if got == [] then root else got[|got| - 1].stateRoot
      ensures r.Ok? ==> readFromBundle == (old(readFromBundle) && missed.None?)
      ensures r.Ok? && missed.Some? ==>
        && old(readFromBundle) && r.value.0 <= end && missed.value == BundleWindowAt(r.value.0, end)
        && source.bundle(missed.value.first, missed.value.last).Absent?
      ensures r.Ok? && r.value.0 <= end ==> !readFromBundle
      ensures r.Ok? && !old(readFromBundle) ==> windows == []
    {
      hide BundleWindow, Added, ReadingCause;
      var next: nat, parent := start, root;
      windows, missed, got := [], None, [];
      while readFromBundle && next <= end
        invariant next <= end + 1 && Tiles(windows, Itself, start, next) && |got| == next - start && missed.None?
        invariant tree.Valid()
        invariant tree.applied == old(tree.applied) + got
        invariant forall w :: w in windows ==> BundleWindow(w, end)
        invariant GotWindows(source, windows, start, got)
        invariant parent == if got == [] then root else got[|got| - 1].stateRoot
        invariant readFromBundle == old(readFromBundle) && (!readFromBundle ==> windows == [])
        decreases end + 1 - next, readFromBundle
      {
        var w := BundleWindowAt(next, end);
        WindowOrder(w, end);
        var outcome := source.bundle(w.first, w.last);
        match outcome {
          case Broken =>
            BrokenCause(source, tree.refuses, tree.blocks, start, end, w);
            return Err(ReadFailed), windows, missed, got;
          case Absent =>
            readFromBundle := false;
            return Ok((next, parent)), windows, Some(w), got;
          case Hit(blocks) =>
            var all := tree.UpdateAll(blocks);
            if all.Err? {
              HitCause(source, tree.refuses, tree.blocks, start, end, w, blocks, all.error);
              return Err(all.error), windows, missed, got;
            }
            GotExtends(source, windows, start, got, w, blocks);
            TilesExtend(windows, Itself, start, next, w);
            windows, got := windows + [w], got + blocks;
            parent := blocks[|blocks| - 1].stateRoot;
            next := w.last + 1;
        }
      }
      r := Ok((next, parent));
    }

    /** Reads single blocks of a batch, then adds them in ascending order up to the first failed read. */
    method UpdateRange(first: u64, last: u64) returns (r: Result<(), UpdateError>, ghost got: seq<BlockInfo>)
      requires first <= last && tree.Valid()
      modifies tree
      ensures tree.Valid() && old(tree.applied) <= tree.applied
      ensures r.Err? ==> ReadingCause(source, tree.refuses, tree.blocks, first, last, r.error)
      ensures r.Ok? ==> tree.applied == old(tree.applied) + got && |got| == last + 1 - first
      ensures r.Ok? ==> GotSingles(source, first, got)
    {
      hide Added, ReadingCause;
      got := [];
      for n := first to last + 1
        invariant tree.Valid()
        invariant tree.applied == old(tree.applied) + got && |got| == n - first
        invariant GotSingles(source, first, got)
      {
        var info := source.byNumber(n, None);
        if info.None? {
          NumberCause(source, tree.refuses, tree.blocks, first, last, n, None, ReadFailed);
          return Err(ReadFailed), got;
        }
        r := tree.UpdateBlock(info.value);
        if r.Err? {
          NumberCause(source, tree.refuses, tree.blocks, first, last, n, None, r.error);
          return;
        }
        got := got + [info.value];
      }
      r := Ok(());
    }

    method UpdateBatches(start: nat, end: u64)
      returns (r: Result<(), UpdateError>, batches: seq<Window>, ghost got: seq<BlockInfo>)
      requires start <= end + 1 && tree.Valid()
      modifies tree
      ensures tree.Valid() && old(tree.applied) <= tree.applied
      ensures r.Err? ==> ReadingCause(source, tree.refuses, tree.blocks, start, end, r.error)
      ensures r.Ok? ==> tree.applied == old(tree.applied) + got && |got| == end + 1 - start
      ensures r.Ok? ==> GotSingles(source, start, got) && Tiles(batches, Itself, start, end + 1)
      ensures r.Ok? ==> forall w :: w in batches ==> BatchWindow(w, end, BatchSize(queueSize))
    {
      hide BatchWindow, ReadingCause, Added;
      var next := start;
      batches, got := [], [];
      while next <= end
        invariant next <= end + 1 && Tiles(batches, Itself, start, next) && |got| == next - start
        invariant tree.Valid()
        invariant tree.applied == old(tree.applied) + got
        invariant GotSingles(source, start, got)
        invariant forall w :: w in batches ==> BatchWindow(w, end, BatchSize(queueSize))
      {
        var w := BatchAt(next, end, BatchSize(queueSize));
        ghost var more;
        r, more := UpdateRange(w.first, w.last);
        if r.Err? {
          CauseWidens(source, tree.refuses, tree.blocks, w.first, w.last, r.error, start, end);
          return;
        }
        TilesExtend(batches, Itself, start, next, w);
        SinglesExtend(source, start, got, more);
        batches, got := batches + [w], got + more;
        next := w.last + 1;
      }
      r := Ok(());
    }

    /** The block after the bundles, read with the retained state root, then the rest in batches. */
    method UpdateSingles(first: u64, parent: nat, end: u64)
      returns (r: Result<(), UpdateError>, batches: seq<Window>, ghost got: seq<BlockInfo>)
      requires first <= end && tree.Valid()
      modifies tree
      ensures tree.Valid() && old(tree.applied) <= tree.applied
      ensures r.Err? ==> ReadingCause(source, tree.refuses, tree.blocks, first, end, r.error)
      ensures r.Ok? ==> tree.applied == old(tree.applied) + got && |got| == end + 1 - first
      ensures r.Ok? ==> Some(got[0]) == source.byNumber(first, Some(parent)) && GotSingles(source, first + 1, got[1..])
      ensures r.Ok? ==> Tiles(batches, Itself, first + 1, end + 1)
      ensures r.Ok? ==> forall w :: w in batches ==> BatchWindow(w, end, BatchSize(queueSize))
    {
      hide BatchWindow, GotSingles, Tiles, ReadingCause, Added;
      batches, got := [], [];
      var info := source.byNumber(first, Some(parent));
      if info.None? {
        NumberCause(source, tree.refuses, tree.blocks, first, end, first, Some(parent), ReadFailed);
        return Err(ReadFailed), batches, got;
      }
      r := tree.UpdateBlock(info.value);
      if r.Err? {
        NumberCause(source, tree.refuses, tree.blocks, first, end, first, Some(parent), r.error);
        return;
      }
      ghost var rest;
      r, batches, rest := UpdateBatches(first + 1, end);
      got := [info.value] + rest;
      if r.Err? {
        CauseWidens(source, tree.refuses, tree.blocks, first + 1, end, r.error, first, end);
      } else {
        assert got[1..] == rest;
      }
    }

    /** The stable segment: bundles up to the first miss, the block after them, then batches of single blocks. */
    method UpdateStableRange(start: u64, end: u64, root: nat)
      returns (r: Result<(), UpdateError>, plan: Plan, ghost got: seq<BlockInfo>)
      requires start <= end && WindowsFilled(source) && tree.Valid()
      modifies this, tree
      ensures tree.Valid() && old(tree.applied) <= tree.applied
      ensures r.Err? ==> ReadingCause(source, tree.refuses, tree.blocks, start, end, r.error)
      ensures r.Ok? ==> PlanOk(plan, start, end, BatchSize(queueSize))
      ensures r.Ok? ==> tree.applied == old(tree.applied) + got && GotPlan(source, plan, start, end, root, got)
      ensures r.Ok? ==> readFromBundle == (old(readFromBundle) && plan.missed.None?)
      ensures r.Ok? && !old(readFromBundle) ==> plan.windows == []
      ensures r.Ok? ==> (plan.missed.Some? <==> old(readFromBundle) && plan.handOff.Some?)
      ensures r.Ok? && plan.missed.Some? ==>
        plan.handOff.value.0 <= end && MissAt(source, plan.handOff.value.0, end) &&
          plan.missed.value == BundleWindowAt(plan.handOff.value.0, end)
    {
      hide BundleWindow, BatchWindow, GotWindows, GotSingles, Tiles, Flatten, Range, ReadingCause, Added;
      var windowed, windows, missed, blocks := ReadWindows(start, end, root);
      plan, got := Plan(windows, missed, None, []), blocks;
      if windowed.Err? {
        return Err(windowed.error), plan, got;
      }
      var next, parent := windowed.value.0, windowed.value.1;
      TilesFlatten(windows, start, next);
      if next > end {
        return Ok(()), plan, got;
      }
      var batches;
      ghost var rest;
      r, batches, rest := UpdateSingles(next, parent, end);
      plan := plan.(handOff := Some((next, parent)), batches := batches);
      got := blocks + rest;
      if r.Err? {
        CauseWidens(source, tree.refuses, tree.blocks, next, end, r.error, start, end);
      } else {
        GotPlanJoins(source, plan, start, end, root, blocks, rest);
      }
    }

    /** Follows parent hashes down from `hash`, newest first, to a block at or below `target` or for `maxHops`. */
    method Backfill(hash: nat, target: nat, maxHops: nat) returns (r: Result<seq<BlockInfo>, UpdateError>, asked: nat)
      requires maxHops > 0
      ensures r == Walk(source.byHash, hash, target, maxHops)
      ensures asked <= maxHops
    {
      var parent, found := hash, [];
      asked := 0;
      OntoLaws([], [], Walk(source.byHash, hash, target, maxHops));
      while true
        invariant |found| == asked < maxHops
        invariant Walk(source.byHash, hash, target, maxHops) ==
          Onto(found, Walk(source.byHash, parent, target, maxHops - |found|))
        decreases maxHops - |found|
      {
        var info := source.byHash(parent);
        OntoLaws(found, [], Ok([]));
        asked := asked + 1;
        if info.None? {
          return Err(ReadFailed), asked;
        }
        if info.value.number <= target {
          return Ok(found), asked;
        }
        parent := info.value.parentHash;
        OntoLaws(found, [info.value], Walk(source.byHash, parent, target, maxHops - |found| - 1));
        found := found + [info.value];
        OntoLaws(found, [], Ok([]));
        if |found| >= maxHops {
          return Ok(found), asked;
        }
      }
    }

    /** Checks that the oldest backfilled block hangs below the tree's block at `target`, then adds oldest first. */
    method ApplyBackfill(backfill: seq<BlockInfo>, target: nat)
      returns (r: Result<(), UpdateError>, path: seq<BlockInfo>)
      requires Chooses(tree.choice) && Linked(Reversed(backfill)) && tree.Valid()
      modifies tree
      ensures tree.Valid() && old(tree.applied) <= tree.applied
      ensures r == Err(HandOffMismatch) <==>
        backfill != [] && !AnchoredAt(old(tree.choice.at(tree.blocks, target)), backfill[|backfill| - 1].parentHash)
      ensures r == Err(HandOffMismatch) ==>
        path == [] && tree.applied == old(tree.applied) && tree.blocks == old(tree.blocks)
      ensures r != Err(HandOffMismatch) ==> path == Reversed(backfill)
      ensures r.Ok? ==> tree.applied == old(tree.applied) + path && tree.blocks == Added(old(tree.blocks), path)
      ensures r.Err? && r.error != HandOffMismatch ==> r.error == Refused && exists k: nat :: tree.refuses(k)
    {
      path := [];
      if backfill != [] {
        var anchor := tree.choice.at(tree.blocks, target);
        if !AnchoredAt(anchor, backfill[|backfill| - 1].parentHash) {
          return Err(HandOffMismatch), path;
        }
        assert Known(tree.blocks, anchor);
        path := Reversed(backfill);
        assert path[0].parentHash in tree.blocks;
        r := tree.UpdateAll(path);
      } else {
        assert Reversed(backfill) == path;
        r := Ok(());
      }
    }

    /** The by-number phase up to the hand-off height, if the tree is not there yet. */
    method CatchUpByNumber(last: BlockInfo, target: u64)
      returns (r: Result<(), UpdateError>, plan: Option<Plan>, ghost got: seq<BlockInfo>)
      requires WindowsFilled(source) && tree.Valid()
      modifies this, tree
      ensures tree.Valid() && old(tree.applied) <= tree.applied
      ensures r.Err? ==> ReadingCause(source, tree.refuses, tree.blocks, last.number + 1, target, r.error)
      ensures r.Ok? ==> tree.applied == old(tree.applied) + got
      ensures plan.Some? <==> last.number < target
      ensures plan.None? ==> r.Ok? && got == [] && tree.blocks == old(tree.blocks)
      ensures r.Ok? && plan.Some? ==>
        && PlanOk(plan.value, last.number + 1, target, BatchSize(queueSize))
        && GotPlan(source, plan.value, last.number + 1, target, last.stateRoot, got)
    {
      if last.number < target {
        var stable;
        r, stable, got := UpdateStableRange(last.number + 1, target, last.stateRoot);
        plan := Some(stable);
      } else {
        r, plan, got := Ok(()), None, [];
      }
    }

    /** The by-hash phase: reads the path from the live head down to the hand-off height and adds it. */
    method CatchUpByHash(head: Head, tip: nat, target: nat)
      returns (r: Result<(), UpdateError>, path: seq<BlockInfo>, asked: nat)
      requires target <= tip && Addressed(source.byHash) && Chooses(tree.choice) && tree.Valid()
      modifies tree
      ensures tree.Valid() && old(tree.applied) <= tree.applied
      ensures asked <= tip - target
      ensures r.Ok? ==> tree.applied == old(tree.applied) + path && tree.blocks == Added(old(tree.blocks), path)
      ensures path != [] ==> Reaches(tree.choice, old(tree.blocks), target, path, head)
      ensures r.Ok? ==> (path != [] <==> tip > target && IsAbove(source.byHash(head.parentHash), target))
      ensures r.Err? ==> ByHashFailure(tree, source.byHash, head, tip, target, old(tree.blocks), r.error)
    {
      hide Chooses, Walk;
      var backfill := [];
      path, asked := [], 0;
      WalkZero(source.byHash, head.parentHash, target);
      if tip > target {
        var walked;
        walked, asked := Backfill(head.parentHash, target, tip - target);
        if walked.Err? {
          return Err(walked.error), path, asked;
        }
        backfill := walked.value;
      }
      WalkIsAPath(source.byHash, head.parentHash, target, tip - target);
      r, path := ApplyBackfill(backfill, target);
    }

    /**
     * Brings the tree up to the parent of the first live block. `known` are the blocks known after the by-number
     * phase and `path` the blocks added by hash.
     */
    method UpdateFromS3(head: Head)
      returns (r: Result<(), UpdateError>, plan: Option<Plan>, path: seq<BlockInfo>, asked: nat,
        ghost known: Blocks, ghost got: seq<BlockInfo>)
      requires WindowsFilled(source) && Addressed(source.byHash) && Chooses(tree.choice) && tree.Valid()
      modifies this, tree
      ensures tree.Valid() && old(tree.applied) <= tree.applied && old(tree.blocks).Keys <= known.Keys
      ensures plan.Some? <==> BehindTarget(old(tree.choice.latest(tree.blocks)), head, safeDepth)
      ensures r.Err? ==>
        Stopped(tree, source, safeDepth, old(tree.choice.latest(tree.blocks)), head, plan, path, known, r.error)
      ensures r.Ok? ==>
        && old(tree.choice.latest(tree.blocks)).Some?
        && var last := old(tree.choice.latest(tree.blocks)).value;
           var tip, target := Tip(head), Target(head, safeDepth, last.number);
        && asked <= tip - target
        && tree.applied == old(tree.applied) + got + path
        && known == Added(old(tree.blocks), got) && tree.blocks == Added(known, path)
        && (plan.Some? ==>
          && PlanOk(plan.value, last.number + 1, target, BatchSize(queueSize))
          && GotPlan(source, plan.value, last.number + 1, target, last.stateRoot, got))
        && (plan.None? ==> got == [])
        && (path != [] ==> Reaches(tree.choice, known, target, path, head))
        && (path != [] <==> tip > target && IsAbove(source.byHash(head.parentHash), target))
        && (head.parentHash in tree.blocks <==>
          || (tip > target && IsAbove(source.byHash(head.parentHash), target))
          || head.parentHash in old(tree.blocks)
          || HasHash(got, head.parentHash))
    {
      hide WindowsFilled, PlanOk, GotPlan, Chooses, Reaches, ByHashFailure, Addressed, ReadingCause, Added, HasHash;
      plan, path, asked, known, got := None, [], 0, tree.blocks, [];
      var latest := tree.choice.latest(tree.blocks);
      if latest.None? {
        return Err(NoLatest), plan, path, asked, known, got;
      }
      var last := latest.value;
      var tip, target := Tip(head), Target(head, safeDepth, last.number);
      r, plan, got := CatchUpByNumber(last, target);
      known := tree.blocks;
      AddedGrows(tree.base, old(tree.applied), tree.applied);
      if r.Err? {
        return;
      }
      AddedAppend(tree.base, old(tree.applied), got);
      r, path, asked := CatchUpByHash(head, tip, target);
      ParentKnown(tree.choice, old(tree.blocks), got, known, target, path, head);
    }
  }

  // ----- Chains whose numbers fall by one per block -----

  /** The objects below `hash` exist down to `target` and carry the numbers `number`, `number - 1`, and so on. */
  predicate NumbersFall(byHash: nat -> Option<BlockInfo>, hash: nat, number: nat, target: nat)
    decreases number
  {
    number > target ==>
      var info := byHash(hash);
      info.Some? && info.value.number == number && NumbersFall(byHash, info.value.parentHash, number - 1, target)
  }

  /** The hash `steps` parents up from `hash`. */
  function Ancestor(byHash: nat -> Option<BlockInfo>, hash: nat, steps: nat): nat
    decreases steps
  {
    if steps == 0 || byHash(hash).None? then hash else Ancestor(byHash, byHash(hash).value.parentHash, steps - 1)
  }

  /**
   * On such a chain the walk never fails and takes every block above the target. Its oldest block names the head's
   * ancestor at the target height, so the hand-off is refused exactly when the tree holds another block there.
   */
  lemma {:induction false} WalkTakesTheBuffer(byHash: nat -> Option<BlockInfo>, hash: nat, tip: nat, target: nat)
    requires target < tip && NumbersFall(byHash, hash, tip, target)
    ensures var walk := Walk(byHash, hash, target, tip - target);
      && walk.Ok? && |walk.value| == tip - target
      && (forall i: nat :: i < |walk.value| ==> walk.value[i].number == tip - i)
      && walk.value[|walk.value| - 1].parentHash == Ancestor(byHash, hash, tip - target)
    decreases tip
  {
    var info := byHash(hash).value;
    if target + 1 < tip {
      WalkTakesTheBuffer(byHash, info.parentHash, tip - 1, target);
      var rest := Walk(byHash, info.parentHash, target, tip - 1 - target).value;
      assert Walk(byHash, hash, target, tip - target).value == [info] + rest;
    } else {
      WalkZero(byHash, info.parentHash, target);
      assert Walk(byHash, hash, target, 1).value == [info];
      assert Ancestor(byHash, hash, 1) == Ancestor(byHash, info.parentHash, 0);
    }
  }

  // ----- Heads left without their parent -----

  /** A tree that tells its one block, of hash 50, from everything else. */
  function OneBlockChoice(): Choice {
    Choice(
      (m: Blocks, n: nat) => if 50 in m && m[50].hash == 50 && m[50].number == n then Some(m[50]) else None,
      (m: Blocks) => if 50 in m && m[50].hash == 50 then Some(m[50]) else None)
  }

  /**
   * A catch-up can succeed and leave the live head without its parent: the object stored under the parent hash
   * carries a number at or below the target, so nothing is backfilled and no hand-off is checked.
   */
  method HeadLeftWithoutParent() returns (r: Result<(), UpdateError>, connected: bool)
    ensures r.Ok? && !connected
  {
    var stray: BlockInfo := BundleReading.BlockInfo(3, 70, 60, 0);
    var source := Source((_, _) => Absent, (_, _) => None, h => if h == 70 then Some(stray) else None);
    var tree := new Tree(_ => false, OneBlockChoice(), map[50 := BundleReading.BlockInfo(5, 50, 40, 0)]);
    var updater := new Updater(tree, source, 1, 2, false);
    var plan, path, asked;
    ghost var known, got;
    r, plan, path, asked, known, got := updater.UpdateFromS3(Head(8, 70));
    connected := 70 in tree.blocks;
  }

  lemma HoldsItsFirst(ws: seq<Window>)
    ensures ws == [] || ws[0] in ws
  {
  }

  lemma OnlySibling(source: Source, plan: Plan, got: seq<BlockInfo>, sibling: BlockInfo)
    requires GotPlan(source, plan, 6, 6, 0, got) && PlanOk(plan, 6, 6, 1)
    requires (forall a: nat, b: nat :: source.bundle(a, b).Absent?) &&
      (forall root :: source.byNumber(6, root) == Some(sibling))
    ensures got == [sibling]
  {
    HoldsItsFirst(plan.windows);
  }

  /**
   * Without a buffer the same happens when the by-number read at the tip gives a sibling of the head's parent:
   * nothing is left to backfill, so the wrong branch is not noticed.
   */
  method HeadBesideSibling() returns (r: Result<(), UpdateError>, connected: bool)
    ensures r.Ok? && !connected
  {
    var sibling: BlockInfo := BundleReading.BlockInfo(6, 60, 50, 0);
    var parent: BlockInfo := BundleReading.BlockInfo(6, 61, 50, 0);
    var source := Source(
      (_, _) => Absent, (n, _) => if n == 6 then Some(sibling) else None, h => if h == 61 then Some(parent) else None);
    var tree := new Tree(_ => false, OneBlockChoice(), map[50 := BundleReading.BlockInfo(5, 50, 40, 0)]);
    var updater := new Updater(tree, source, 1, 0, false);
    var plan, path, asked;
    ghost var known, got;
    r, plan, path, asked, known, got := updater.UpdateFromS3(Head(7, 61));
    if r.Ok? {
      OnlySibling(source, plan.value, got, sibling);
    }
    connected := 61 in tree.blocks;
  }
}

/** Feeding the archive writer: bundles first, one block with the retained root, then single blocks concurrently. */
module ArchiveFetching {
  import opened Bytes
  import opened Ranges
  import opened RequestPlans
  import opened CatchingUp

  datatype FetchError = FetchFailed | ChannelClosed | MissingParentRoot

  datatype Item = Item(number: nat, info: BlockInfo)

  /** The writer's end of the channel may close at any point. */
  class Channel {
    const closed: nat -> bool
    var sent: seq<Item>

    constructor (closed: nat -> bool)
      ensures this.closed == closed && sent == []
    {
      this.closed := closed;
      sent := [];
    }

    method Send(item: Item) returns (ok: bool)
      modifies this
      ensures ok <==> !closed(|old(sent)|)
      ensures sent == if ok then old(sent) + [item] else old(sent)
    {
      ok := !closed(|sent|);
      if ok {
        sent := sent + [item];
      }
    }
  }

  /** Why fetching blocks `first` to `last` stopped. */
  ghost predicate FetchCause(source: Source, closed: nat -> bool, first: nat, last: nat, e: FetchError) {
    match e
    case FetchFailed =>
      || (exists a: nat, b: nat :: first <= a <= b <= last && source.bundle(a, b).Broken?)
      || (exists n: nat, root: Option<nat> :: first <= n <= last && source.byNumber(n, root).None?)
    case ChannelClosed => exists k: nat :: closed(k)
    case MissingParentRoot => false
  }

  function NumbersOf(items: seq<Item>): (s: seq<nat>)
    ensures |s| == |items|
  {
    seq(|items|, i requires 0 <= i < |items| => items[i].number)
  }

  /** The numbers from `from` up to `next`, each exactly once, in any order. */
  predicate EachOnce(numbers: seq<nat>, from: nat, next: nat) {
    && (forall i: nat :: i < |numbers| ==> from <= numbers[i] < next)
    && (forall n :: from <= n < next ==> n in numbers)
    && (forall i: nat, j: nat :: i < j < |numbers| ==> numbers[i] != numbers[j])
  }

  predicate Answers(source: Source, items: seq<Item>) {
    forall i: nat :: i < |items| ==> source.byNumber(items[i].number, None) == Some(items[i].info)
  }

  /** The numbers asked for and not yet answered. */
  ghost predicate Outstanding(inFlight: set<nat>, done: seq<nat>, first: nat, next: nat) {
    && first <= next
    && (forall n :: n in inFlight <==> first <= n < next && n !in done)
    && (forall i: nat :: i < |done| ==> first <= done[i] < next)
    && (forall i: nat, j: nat :: i < j < |done| ==> done[i] != done[j])
  }

  lemma NumberSent(items: seq<Item>, item: Item)
    ensures NumbersOf(items + [item]) == NumbersOf(items) + [item.number]
  {
  }

  lemma Started(inFlight: set<nat>, done: seq<nat>, first: nat, next: nat)
    requires Outstanding(inFlight, done, first, next)
    ensures Outstanding(inFlight + {next}, done, first, next + 1) && next !in inFlight
  {
  }

  lemma Answered(inFlight: set<nat>, done: seq<nat>, first: nat, next: nat, n: nat)
    requires Outstanding(inFlight, done, first, next) && n in inFlight
    ensures Outstanding(inFlight - {n}, done + [n], first, next)
  {
  }

  lemma InFlightInRange(inFlight: set<nat>, done: seq<nat>, first: nat, next: nat, n: nat)
    requires Outstanding(inFlight, done, first, next) && n in inFlight
    ensures first <= n < next
  {
  }

  lemma NothingAsked(first: nat)
    ensures Outstanding({}, NumbersOf([]), first, first)
  {
  }

  lemma AllAnswered(done: seq<nat>, first: nat, next: nat)
    requires Outstanding({}, done, first, next)
    ensures EachOnce(done, first, next)
  {
    forall n | first <= n < next
      ensures n in done
    {
      assert n !in {};
    }
  }

  /** At most `maxTasks` reads run at once; their answers are sent in whatever order they come back. */
  method FetchUnordered(source: Source, channel: Channel, first: nat, end: u64, maxTasks: nat)
    returns (r: Result<(), FetchError>, asked: seq<nat>, ghost done: seq<Item>)
    requires maxTasks > 0 && first <= end + 1
    modifies channel
    ensures r.Ok? ==> channel.sent == old(channel.sent) + done && Answers(source, done)
    ensures r.Ok? ==> asked == Range(first, end + 1) && EachOnce(NumbersOf(done), first, end + 1)
    ensures r.Err? ==> FetchCause(source, channel.closed, first, end, r.error)
  {
    hide Outstanding, NumbersOf;
    var next, inFlight: set<nat> := first, {};
    asked, done := [], [];
    assert Outstanding({}, NumbersOf([]), first, first) by { NothingAsked(first); }
    while next <= end || inFlight != {}
      invariant next <= end + 1 && asked == Range(first, next)
      invariant Outstanding(inFlight, NumbersOf(done), first, next) && |inFlight| <= maxTasks
      invariant channel.sent == old(channel.sent) + done && Answers(source, done)
      decreases end + 1 - next, |inFlight|
    {
      if next <= end && |inFlight| < maxTasks {
        Started(inFlight, NumbersOf(done), first, next);
        inFlight, asked := inFlight + {next}, asked + [next];
        next := next + 1;
      } else {
        var n :| n in inFlight;
        var info := source.byNumber(n, None);
        if info.None? {
          InFlightInRange(inFlight, NumbersOf(done), first, next, n);
          return Err(FetchFailed), asked, done;
        }
        var ok := channel.Send(Item(n, info.value));
        if !ok {
          return Err(ChannelClosed), asked, done;
        }
        Answered(inFlight, NumbersOf(done), first, next, n);
        NumberSent(done, Item(n, info.value));
        inFlight, done := inFlight - {n}, done + [Item(n, info.value)];
      }
    }
    AllAnswered(NumbersOf(done), first, next);
    r := Ok(());
  }

  /** Consecutive blocks as they are sent. */
  function ItemsOf(first: nat, blocks: seq<BlockInfo>): (items: seq<Item>)
    ensures |items| == |blocks|
  {
    seq(|blocks|, i requires 0 <= i < |blocks| => Item(first + i, blocks[i]))
  }

  method SendAll(channel: Channel, first: nat, blocks: seq<BlockInfo>) returns (ok: bool)
    modifies channel
    ensures ok ==> channel.sent == old(channel.sent) + ItemsOf(first, blocks)
    ensures !ok ==> exists k: nat :: channel.closed(k)
  {
    for i := 0 to |blocks|
      invariant channel.sent == old(channel.sent) + ItemsOf(first, blocks[..i])
    {
      ok := channel.Send(Item(first + i, blocks[i]));
      if !ok {
        return;
      }
      assert ItemsOf(first, blocks[..i + 1]) == ItemsOf(first, blocks[..i]) + [Item(first + i, blocks[i])];
    }
    assert blocks[..|blocks|] == blocks;
    ok := true;
  }

  lemma WindowCause(source: Source, closed: nat -> bool, start: nat, end: nat, w: Window, e: FetchError)
    requires start <= w.first <= w.last <= end
    requires e.FetchFailed? ==> source.bundle(w.first, w.last).Broken?
    requires e.ChannelClosed? ==> exists k: nat :: closed(k)
    requires !e.MissingParentRoot?
    ensures FetchCause(source, closed, start, end, e)
  {
  }

  lemma WindowFilled(source: Source, w: Window)
    requires WindowsFilled(source) && w.first <= w.last && source.bundle(w.first, w.last).Hit?
    ensures |source.bundle(w.first, w.last).blocks| == w.last + 1 - w.first
  {
  }

  lemma ItemsJoin(start: nat, a: seq<BlockInfo>, b: seq<BlockInfo>)
    ensures ItemsOf(start, a) + ItemsOf(start + |a|, b) == ItemsOf(start, a + b)
  {
  }

  lemma NothingFetched(source: Source, start: nat)
    ensures Tiles([], Itself, start, start) && Flatten([]) == [] && GotWindows(source, [], start, []) &&
      ItemsOf(start, []) == []
  {
  }

  method FetchWindows(source: Source, channel: Channel, start: u64, end: u64, root: Option<nat>)
    returns (r: Result<(nat, Option<nat>), FetchError>, windows: seq<Window>, ghost got: seq<BlockInfo>)
    requires start <= end && WindowsFilled(source)
    modifies channel
    ensures r.Ok? ==> channel.sent == old(channel.sent) + ItemsOf(start, got)
    ensures r.Ok? ==> Tiles(windows, Itself, start, r.value.0) && |got| == r.value.0 - start && r.value.0 <= end + 1
    ensures r.Ok? ==> (forall w :: w in windows ==> BundleWindow(w, end)) && GotWindows(source, windows, start, got)
    ensures r.Ok? ==> r.value.1 == if got == [] then root else Some(got[|got| - 1].stateRoot)
    ensures r.Ok? && r.value.0 <= end ==> MissAt(source, r.value.0, end)
    ensures r.Err? ==> FetchCause(source, channel.closed, start, end, r.error)
  {
    hide BundleWindow, ItemsOf, WindowsFilled, FetchCause, Tiles, GotWindows;
    var next: nat, parent := start, root;
    windows, got := [], [];
    NothingFetched(source, start);
    while next <= end
      invariant next <= end + 1 && Tiles(windows, Itself, start, next) && |got| == next - start
      invariant channel.sent == old(channel.sent) + ItemsOf(start, got)
      invariant (forall w :: w in windows ==> BundleWindow(w, end)) && GotWindows(source, windows, start, got)
      invariant parent == if got == [] then root else Some(got[|got| - 1].stateRoot)
    {
      var w := BundleWindowAt(next, end);
      WindowOrder(w, end);
      var outcome := source.bundle(w.first, w.last);
      match outcome {
        case Broken =>
          WindowCause(source, channel.closed, start, end, w, FetchFailed);
          return Err(FetchFailed), windows, got;
        case Absent =>
          return Ok((next, parent)), windows, got;
        case Hit(blocks) =>
          WindowFilled(source, w);
          var ok := SendAll(channel, w.first, blocks);
          if !ok {
            WindowCause(source, channel.closed, start, end, w, ChannelClosed);
            return Err(ChannelClosed), windows, got;
          }
          GotExtends(source, windows, start, got, w, blocks);
          TilesExtend(windows, Itself, start, next, w);
          ItemsJoin(start, got, blocks);
          windows, got := windows + [w], got + blocks;
          parent := Some(blocks[|blocks| - 1].stateRoot);
          next := w.last + 1;
      }
    }
    r := Ok((next, parent));
  }

  /** What one run asked for: bundle windows, the block read with the retained root, and single blocks. */
  datatype Asked = Asked(windows: seq<Window>, handOff: Option<(nat, nat)>, singles: seq<nat>)

  function AskedNumbers(a: Asked): seq<nat> {
    Flatten(a.windows) + (if a.handOff.Some? then [a.handOff.value.0] else []) + a.singles
  }

  /** The items sent are the answers to what was asked. */
  predicate SentAnswers(
    source: Source, a: Asked, start: nat, root: Option<nat>, items: seq<Item>, got: seq<BlockInfo>, done: seq<Item>)
  {
    && GotWindows(source, a.windows, start, got)
    && Answers(source, done)
    && if a.handOff.Some? then
         && a.handOff.value.0 == start + |got|
         && Some(a.handOff.value.1) == (if got == [] then root else Some(got[|got| - 1].stateRoot))
         && var info := source.byNumber(start + |got|, Some(a.handOff.value.1));
            info.Some? && items == ItemsOf(start, got + [info.value]) + done
       else items == ItemsOf(start, got) + done
  }

  lemma FetchCauseWidens(source: Source, closed: nat -> bool, first: nat, end: nat, e: FetchError, start: nat)
    requires FetchCause(source, closed, first, end, e) && start <= first
    ensures FetchCause(source, closed, start, end, e)
  {
  }

  /** `front` are the blocks of the windows and, if there is a hand-off, the block read there. */
  lemma FrontAndRest(
    source: Source, a: Asked, start: nat, root: Option<nat>, got: seq<BlockInfo>, front: seq<BlockInfo>,
    done: seq<Item>)
    requires GotWindows(source, a.windows, start, got) && Answers(source, done)
    requires a.handOff.None? ==> front == got
    requires a.handOff.Some? ==>
      && a.handOff.value.0 == start + |got|
      && Some(a.handOff.value.1) == (if got == [] then root else Some(got[|got| - 1].stateRoot))
      && var info := source.byNumber(start + |got|, Some(a.handOff.value.1));
         info.Some? && front == got + [info.value]
    ensures SentAnswers(source, a, start, root, ItemsOf(start, front) + done, got, done)
  {
    hide GotWindows, Answers, ItemsOf;
  }

  lemma OneMoreItem(start: nat, got: seq<BlockInfo>, info: BlockInfo)
    ensures ItemsOf(start, got + [info]) == ItemsOf(start, got) + [Item(start + |got|, info)]
  {
  }

  lemma AskedInOrder(a: Asked, start: nat, h: nat, end: nat)
    requires Tiles(a.windows, Itself, start, h) && h <= end + 1
    requires if a.handOff.Some? then a.handOff.value.0 == h <= end && a.singles == Range(h + 1, end + 1)
             else a.singles == Range(h, end + 1)
    ensures AskedNumbers(a) == Range(start, end + 1)
  {
    TilesFlatten(a.windows, start, h);
    if a.handOff.Some? {
      assert Range(start, h) + [h] + Range(h + 1, end + 1) == Range(start, end + 1);
    } else {
      assert Range(start, h) + [] + Range(h, end + 1) == Range(start, end + 1);
    }
  }

  lemma EachSentOnce(start: nat, front: seq<BlockInfo>, done: seq<Item>, end: nat)
    requires start + |front| <= end + 1 && EachOnce(NumbersOf(done), start + |front|, end + 1)
    ensures EachOnce(NumbersOf(ItemsOf(start, front) + done), start, end + 1)
  {
    var numbers, tail := NumbersOf(ItemsOf(start, front) + done), NumbersOf(done);
    assert forall i: nat :: i < |front| ==> numbers[i] == start + i;
    assert forall i: nat :: |front| <= i < |numbers| ==> numbers[i] == tail[i - |front|];
    forall n | start <= n < end + 1
      ensures n in numbers
    {
      if n < start + |front| {
        assert numbers[n - start] == n;
      } else {
        assert n in tail;
        var i :| 0 <= i < |tail| && tail[i] == n;
        assert numbers[|front| + i] == n;
      }
    }
  }

  /** The block after the bundles, read with the state root of the block before it. */
  method FetchHandOff(source: Source, channel: Channel, next: nat, root: nat, ghost start: nat, ghost end: nat)
    returns (r: Result<BlockInfo, FetchError>)
    requires start <= next <= end
    modifies channel
    ensures r.Ok? ==>
      source.byNumber(next, Some(root)) == Some(r.value) && channel.sent == old(channel.sent) + [Item(next, r.value)]
    ensures r.Err? ==> FetchCause(source, channel.closed, start, end, r.error)
  {
    var info := source.byNumber(next, Some(root));
    if info.None? {
      return Err(FetchFailed);
    }
    var ok := channel.Send(Item(next, info.value));
    return if ok then Ok(info.value) else Err(ChannelClosed);
  }

  method FetchBlocks(
    source: Source, channel: Channel, readBundle: bool, start: u64, end: u64, root: Option<nat>, maxTasks: nat)
    returns (r: Result<(), FetchError>, asked: Asked,
      ghost items: seq<Item>, ghost got: seq<BlockInfo>, ghost done: seq<Item>)
    requires maxTasks > 0 && WindowsFilled(source)
    modifies channel
    ensures r.Ok? ==> channel.sent == old(channel.sent) + items
    ensures r.Ok? && start <= end ==> AskedNumbers(asked) == Range(start, end + 1)
    ensures r.Ok? && start <= end ==> EachOnce(NumbersOf(items), start, end + 1)
    ensures r.Ok? && start <= end ==> SentAnswers(source, asked, start, root, items, got, done)
    ensures r.Ok? && start > end ==> items == [] && AskedNumbers(asked) == []
    ensures r.Ok? && !readBundle ==> asked.windows == []
    ensures r.Ok? && start <= end ==> (asked.handOff.Some? <==> 0 < start + |got| <= end)
    ensures r.Ok? && readBundle && start + |got| <= end ==> MissAt(source, start + |got|, end)
    ensures r.Err? ==>
      FetchCause(source, channel.closed, start, end, r.error) || (r.error.MissingParentRoot? && start > 0 && root.None?)
  {
    hide BundleWindow, ItemsOf, WindowsFilled, GotWindows, Answers, NumbersOf, EachOnce, Tiles, Flatten, Range, MissAt;
    hide FetchCause, SentAnswers;
    asked, items, got, done := Asked([], None, []), [], [], [];
    if start > end {
      NothingFetched(source, start);
      return Ok(()), asked, items, got, done;
    }
    var next: nat, parent := start, root;
    NothingFetched(source, start);
    if readBundle {
      var windowed, windows, blocks := FetchWindows(source, channel, start, end, root);
      asked, got := Asked(windows, None, []), blocks;
      if windowed.Err? {
        return Err(windowed.error), asked, items, got, done;
      }
      next, parent := windowed.value.0, windowed.value.1;
    }
    ghost var front := got;
    if 0 < next <= end {
      if parent.None? {
        return Err(MissingParentRoot), asked, items, got, done;
      }
      asked := asked.(handOff := Some((next, parent.value)));
      var info := FetchHandOff(source, channel, next, parent.value, start, end);
      if info.Err? {
        return Err(info.error), asked, items, got, done;
      }
      OneMoreItem(start, got, info.value);
      front := got + [info.value];
      next := next + 1;
    }
    var singles;
    r, singles, done := FetchUnordered(source, channel, next, end, maxTasks);
    asked := asked.(singles := singles);
    items := ItemsOf(start, front) + done;
    if r.Err? {
      FetchCauseWidens(source, channel.closed, next, end, r.error, start);
    } else {
      FrontAndRest(source, asked, start, root, got, front, done);
      AskedInOrder(asked, start, start + |got|, end);
      EachSentOnce(start, front, done, end);
    }
  }

}