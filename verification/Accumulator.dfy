/** Blocks as the fetchers hand them over, pre-encoded, and the cells of the archive they write. */
module ArchiveBlocks {
  import opened Bytes
  import opened BigEndian
  import opened BatchSort

  const TWO_256: nat := 0x1_0000_0000_0000_0000_0000_0000_0000_0000_0000_0000_0000_0000_0000_0000_0000_0000

  datatype Info = Info(number: nat, stateRoot: nat)

  /** `EncodedBlockData`: account and storage writes carry their encoded keys. */
  datatype Block = Block(
    num: nat, hash: nat, info: Info,
    accounts: seq<(Key, seq<byte>)>, storage: seq<(Key, nat)>, codes: seq<(nat, seq<byte>)>)

  /** A block's state diff before encoding. */
  datatype Diff = Diff(
    deleted: seq<nat>, accounts: seq<(nat, seq<byte>)>, storage: seq<(nat, nat, nat)>, codes: seq<(nat, seq<byte>)>)

  /** The last 32 bytes of a versioned key. */
  function Tail(inverted: bool, num: nat): (tail: nat)
    requires num <= U64_MAX
    ensures tail < TWO_256
  {
    if inverted then U64_MAX - num else num
  }

  function AccountKey(inverted: bool, address: nat, num: nat): (key: nat)
    requires num <= U64_MAX
    ensures key % TWO_256 == Tail(inverted, num)
  {
    address * TWO_256 + Tail(inverted, num)
  }

  function SlotKey(inverted: bool, address: nat, slot: nat, num: nat): (key: nat)
    requires num <= U64_MAX
    ensures key % TWO_256 == Tail(inverted, num)
  {
    (address * TWO_256 + slot) * TWO_256 + Tail(inverted, num)
  }

  /** Every versioned key of the block ends in the block's own number. */
  predicate WellEncoded(inverted: bool, b: Block) {
    && b.num <= U64_MAX && b.info.number == b.num
    && (forall i :: 0 <= i < |b.accounts| ==> b.accounts[i].0 % TWO_256 == Tail(inverted, b.num))
    && (forall i :: 0 <= i < |b.storage| ==> b.storage[i].0 % TWO_256 == Tail(inverted, b.num))
  }

  /** Deletions first, with an empty value, then the new accounts. */
  function AccountWrites(inverted: bool, num: nat, diff: Diff): (writes: seq<(Key, seq<byte>)>)
    requires num <= U64_MAX
    ensures |writes| == |diff.deleted| + |diff.accounts|
    ensures forall i :: 0 <= i < |writes| ==> writes[i].0 % TWO_256 == Tail(inverted, num)
  {
    seq(|diff.deleted|, i requires 0 <= i < |diff.deleted| => (AccountKey(inverted, diff.deleted[i], num), []))
    + seq(|diff.accounts|, i requires 0 <= i < |diff.accounts| =>
        (AccountKey(inverted, diff.accounts[i].0, num), diff.accounts[i].1))
  }

  function StorageWrites(inverted: bool, num: nat, diff: Diff): (writes: seq<(Key, nat)>)
    requires num <= U64_MAX
    ensures |writes| == |diff.storage|
    ensures forall i :: 0 <= i < |writes| ==> writes[i].0 % TWO_256 == Tail(inverted, num)
  {
    seq(|diff.storage|, i requires 0 <= i < |diff.storage| =>
      (SlotKey(inverted, diff.storage[i].0, diff.storage[i].1, num), diff.storage[i].2))
  }

  /** `encode_block`. */
  function EncodeBlock(inverted: bool, num: nat, hash: nat, stateRoot: nat, diff: Diff): (b: Block)
    requires num <= U64_MAX
    ensures WellEncoded(inverted, b) && |b.accounts| == |diff.deleted| + |diff.accounts| &&
      |b.storage| == |diff.storage|
    ensures b.hash == hash && b.info == Info(num, stateRoot) && b.codes == diff.codes
  {
    Block(num, hash, Info(num, stateRoot),
      AccountWrites(inverted, num, diff), StorageWrites(inverted, num, diff), diff.codes)
  }

  /** A version tail is 24 zero bytes and the number, or its complement, in the last eight. */
  lemma TailBytes(inverted: bool, num: nat)
    requires num <= U64_MAX
    ensures ToBytes(Tail(inverted, num), 32) ==
      ToBytes(0, 24) + ToBytes(if inverted then U64_MAX - num else num, 8)
  {
    hide Pow256, ToBytes;
    Widths();
    ToBytesConcat(0, 24, Tail(inverted, num), 8);
  }

  /** An account key is the 32 bytes of the address and the tail. */
  lemma AccountKeyBytes(inverted: bool, address: nat, num: nat)
    requires num <= U64_MAX
    ensures ToBytes(AccountKey(inverted, address, num), 64) == ToBytes(address, 32) + ToBytes(Tail(inverted, num), 32)
  {
    hide Pow256, ToBytes;
    Widths();
    ToBytesConcat(address, 32, Tail(inverted, num), 32);
  }

  /** A storage key is the 32 bytes of the address, the 32 bytes of the slot and the tail. */
  lemma SlotKeyBytes(inverted: bool, address: nat, slot: nat, num: nat)
    requires num <= U64_MAX && slot < TWO_256
    ensures ToBytes(SlotKey(inverted, address, slot, num), 96) ==
      ToBytes(address, 32) + ToBytes(slot, 32) + ToBytes(Tail(inverted, num), 32)
  {
    hide Pow256, ToBytes;
    Widths();
    ToBytesConcat(address * TWO_256 + slot, 64, Tail(inverted, num), 32);
    ToBytesConcat(address, 32, slot, 32);
  }

  /** The last value written to a key, if any. */
  function LastValue<K(==), V>(writes: seq<(K, V)>, k: K): Option<V> {
    if writes == [] then None
    else var last := writes[|writes| - 1]; if last.0 == k then Some(last.1) else LastValue(writes[..|writes| - 1], k)
  }

  lemma {:induction false} LastValueAppend<K, V>(x: seq<(K, V)>, y: seq<(K, V)>, k: K)
    ensures LastValue(x + y, k) == if LastValue(y, k).Some? then LastValue(y, k) else LastValue(x, k)
    decreases |y|
  {
    if y == [] {
      assert x + y == x;
    } else {
      assert (x + y)[..|x + y| - 1] == x + y[..|y| - 1];
      LastValueAppend(x, y[..|y| - 1], k);
    }
  }

  lemma {:induction false} DeletedValue(
    inverted: bool, num: nat, deleted: seq<nat>, writes: seq<(Key, seq<byte>)>, address: nat)
    requires num <= U64_MAX && |writes| == |deleted|
    requires forall i :: 0 <= i < |deleted| ==> writes[i] == (AccountKey(inverted, deleted[i], num), [])
    ensures LastValue(writes, AccountKey(inverted, address, num)) == if address in deleted then Some([]) else None
    decreases |deleted|
  {
    if deleted != [] {
      var n := |deleted| - 1;
      DeletedValue(inverted, num, deleted[..n], writes[..n], address);
      assert deleted == deleted[..n] + [deleted[n]];
    }
  }

  lemma {:induction false} AccountValue(
    inverted: bool, num: nat, accounts: seq<(nat, seq<byte>)>, writes: seq<(Key, seq<byte>)>, address: nat)
    requires num <= U64_MAX && |writes| == |accounts|
    requires forall i :: 0 <= i < |accounts| ==> writes[i] == (AccountKey(inverted, accounts[i].0, num), accounts[i].1)
    ensures LastValue(writes, AccountKey(inverted, address, num)) == LastValue(accounts, address)
    decreases |accounts|
  {
    if accounts != [] {
      var n := |accounts| - 1;
      AccountValue(inverted, num, accounts[..n], writes[..n], address);
    }
  }

  /** What an encoded block says of an account: its last new version, else its deletion, else nothing. */
  lemma EncodedAccount(inverted: bool, num: nat, hash: nat, stateRoot: nat, diff: Diff, address: nat)
    requires num <= U64_MAX
    ensures var b := EncodeBlock(inverted, num, hash, stateRoot, diff);
      LastValue(b.accounts, AccountKey(inverted, address, num)) ==
        if LastValue(diff.accounts, address).Some? then LastValue(diff.accounts, address)
        else if address in diff.deleted then Some([])
        else None
  {
    hide AccountKey, LastValue;
    var writes, n := AccountWrites(inverted, num, diff), |diff.deleted|;
    DeletedValue(inverted, num, diff.deleted, writes[..n], address);
    AccountValue(inverted, num, diff.accounts, writes[n..], address);
    LastValueAppend(writes[..n], writes[n..], AccountKey(inverted, address, num));
    assert writes == writes[..n] + writes[n..];
  }

  /** A diff's storage writes under the pair of address and slot. */
  function SlotPairs(storage: seq<(nat, nat, nat)>): (s: seq<((nat, nat), nat)>)
    ensures |s| == |storage|
  {
    seq(|storage|, i requires 0 <= i < |storage| => ((storage[i].0, storage[i].1), storage[i].2))
  }

  lemma SlotKeysDiffer(inverted: bool, num: nat, a: nat, s: nat, a': nat, s': nat)
    requires num <= U64_MAX && s < TWO_256 && s' < TWO_256
    ensures SlotKey(inverted, a, s, num) == SlotKey(inverted, a', s', num) <==> a == a' && s == s'
  {
  }

  lemma {:induction false} SlotValue(
    inverted: bool, num: nat, storage: seq<(nat, nat, nat)>, writes: seq<(Key, nat)>, address: nat, slot: nat)
    requires num <= U64_MAX && |writes| == |storage| && slot < TWO_256
    requires forall i :: 0 <= i < |storage| ==> storage[i].1 < TWO_256
    requires forall i :: 0 <= i < |storage| ==>
      writes[i] == (SlotKey(inverted, storage[i].0, storage[i].1, num), storage[i].2)
    ensures LastValue(writes, SlotKey(inverted, address, slot, num)) == LastValue(SlotPairs(storage), (address, slot))
    decreases |storage|
  {
    hide SlotKey;
    if storage != [] {
      var n := |storage| - 1;
      SlotKeysDiffer(inverted, num, storage[n].0, storage[n].1, address, slot);
      SlotValue(inverted, num, storage[..n], writes[..n], address, slot);
      assert SlotPairs(storage)[..n] == SlotPairs(storage[..n]);
    }
  }

  /** What an encoded block says of a slot: the last value its diff gives. */
  lemma EncodedSlot(inverted: bool, num: nat, hash: nat, stateRoot: nat, diff: Diff, address: nat, slot: nat)
    requires num <= U64_MAX && slot < TWO_256 && forall i :: 0 <= i < |diff.storage| ==> diff.storage[i].1 < TWO_256
    ensures var b := EncodeBlock(inverted, num, hash, stateRoot, diff);
      LastValue(b.storage, SlotKey(inverted, address, slot, num)) == LastValue(SlotPairs(diff.storage), (address, slot))
  {
    hide SlotKey, LastValue;
    SlotValue(inverted, num, diff.storage, StorageWrites(inverted, num, diff), address, slot);
  }

  // ----- Cells -----

  datatype Cell = InfoAt(hash: nat) | HashAt(num: nat) | CodeAt(codeHash: nat) | AccountAt(key: Key) | SlotAt(key: Key)

  datatype Content =
    InfoOf(info: Info) | HashOf(hash: nat) | CodeOf(code: seq<byte>) | AccountOf(rlp: seq<byte>) | ValueOf(value: nat)

  type Cells = map<Cell, Content>

  function CodeCells(codes: seq<(nat, seq<byte>)>): (cells: Cells)
    ensures forall c :: c in cells <==> c.CodeAt? && c.codeHash in Inserted(codes)
    ensures forall c :: c in cells ==> cells[c] == CodeOf(Inserted(codes)[c.codeHash])
  {
    var m := Inserted(codes);
    map c | c in set h | h in m :: CodeAt(h) :: CodeOf(m[c.codeHash])
  }

  function AccountCells(writes: seq<(Key, seq<byte>)>): (cells: Cells)
    ensures forall c :: c in cells <==> c.AccountAt? && c.key in Inserted(writes)
    ensures forall c :: c in cells ==> cells[c] == AccountOf(Inserted(writes)[c.key])
  {
    var m := Inserted(writes);
    map c | c in set k | k in m :: AccountAt(k) :: AccountOf(m[c.key])
  }

  function SlotCells(writes: seq<(Key, nat)>): (cells: Cells)
    ensures forall c :: c in cells <==> c.SlotAt? && c.key in Inserted(writes)
    ensures forall c :: c in cells ==> cells[c] == ValueOf(Inserted(writes)[c.key])
  {
    var m := Inserted(writes);
    map c | c in set k | k in m :: SlotAt(k) :: ValueOf(m[c.key])
  }

  /** Block number to hash, hash to info, and the code blobs. */
  function SmallCells(b: Block): (cells: Cells)
    ensures forall c :: c in cells ==> c.HashAt? || c.InfoAt? || c.CodeAt?
  {
    map[HashAt(b.info.number) := HashOf(b.hash), InfoAt(b.hash) := InfoOf(b.info)] + CodeCells(b.codes)
  }

  /** Which of a block's writes: block info, hash and code; account versions; storage versions; all of them. */
  datatype Kind = Small | Accounts | Slots | Whole

  function Part(kind: Kind, b: Block): Cells {
    match kind
    case Small => SmallCells(b)
    case Accounts => AccountCells(b.accounts)
    case Slots => SlotCells(b.storage)
    case Whole => SmallCells(b) + AccountCells(b.accounts) + SlotCells(b.storage)
  }

  /** The writes of several blocks, later ones winning. */
  function Merge(kind: Kind, blocks: seq<Block>): Cells {
    if blocks == [] then map[] else Merge(kind, blocks[..|blocks| - 1]) + Part(kind, blocks[|blocks| - 1])
  }

  /** Every written cell is in the merge. */
  lemma {:induction false} MergeHas(kind: Kind, blocks: seq<Block>, i: nat, c: Cell)
    requires i < |blocks| && c in Part(kind, blocks[i])
    ensures c in Merge(kind, blocks)
  {
    hide Part;
    if i < |blocks| - 1 { MergeHas(kind, blocks[..|blocks| - 1], i, c); }
  }

  /** A merged cell holds what some block wrote. */
  lemma {:induction false} MergeFrom(kind: Kind, blocks: seq<Block>, c: Cell) returns (i: nat)
    requires c in Merge(kind, blocks)
    ensures i < |blocks| && c in Part(kind, blocks[i]) && Part(kind, blocks[i])[c] == Merge(kind, blocks)[c]
  {
    hide Part;
    i := |blocks| - 1;
    if c !in Part(kind, blocks[i]) {
      i := MergeFrom(kind, blocks[..|blocks| - 1], c);
    }
  }

  /** Each kind of write is a part of the whole: the kinds write different cells. */
  lemma PartOfWhole(kind: Kind, b: Block, c: Cell)
    requires c in Part(kind, b)
    ensures c in Part(Whole, b) && Part(Whole, b)[c] == Part(kind, b)[c]
  {
    hide SmallCells, AccountCells, SlotCells;
  }

  /** No two blocks write different values to the same cell. */
  ghost predicate Coherent(source: seq<Block>) {
    forall i, j, c ::
      (0 <= i < |source| && 0 <= j < |source| && c in Part(Whole, source[i]) && c in Part(Whole, source[j])) ==>
        Part(Whole, source[i])[c] == Part(Whole, source[j])[c]
  }

  ghost predicate Agrees(m: Cells, all: Cells) {
    forall c :: c in m ==> c in all && m[c] == all[c]
  }

  /** In a coherent source every block's cells are what the whole source's merge holds. */
  lemma SourceCell(source: seq<Block>, kind: Kind, i: nat, c: Cell)
    requires Coherent(source) && i < |source| && c in Part(kind, source[i])
    ensures c in Merge(Whole, source) && Merge(Whole, source)[c] == Part(kind, source[i])[c]
  {
    hide Part, Merge;
    PartOfWhole(kind, source[i], c);
    MergeHas(Whole, source, i, c);
    var j := MergeFrom(Whole, source, c);
  }

  lemma RangeAgrees(source: seq<Block>, kind: Kind, lo: nat, hi: nat)
    requires Coherent(source) && lo <= hi <= |source|
    ensures Agrees(Merge(kind, source[lo..hi]), Merge(Whole, source))
  {
    hide Part, Merge, Coherent;
    var range := source[lo..hi];
    forall c | c in Merge(kind, range)
      ensures c in Merge(Whole, source) && Merge(kind, range)[c] == Merge(Whole, source)[c]
    {
      var i := MergeFrom(kind, range, c);
      SourceCell(source, kind, lo + i, c);
    }
  }

  /** Content addressing makes a source coherent: blocks are numbered in order, block hashes
      differ, and a code hash stands for one code. */
  ghost predicate ContentAddressed(inverted: bool, source: seq<Block>) {
    && (forall i :: 0 <= i < |source| ==> WellEncoded(inverted, source[i]) && source[i].num == i && source[i].hash != 0)
    && (forall i, j :: 0 <= i < j < |source| ==> source[i].hash != source[j].hash)
    && (forall i, j, x, y :: 0 <= i < |source| && 0 <= j < |source| && x in source[i].codes && y in source[j].codes ==>
          x.0 == y.0 ==> x.1 == y.1)
  }

  /** What the fetchers encode is content addressed: hashes tell blocks apart, and code hashes codes. */
  lemma EncodedSourceIsAddressed(
    inverted: bool, hashes: seq<nat>, roots: seq<nat>, diffs: seq<Diff>, source: seq<Block>)
    requires |source| == |hashes| == |roots| == |diffs| <= U64_MAX
    requires forall i :: 0 <= i < |source| ==> source[i] == EncodeBlock(inverted, i, hashes[i], roots[i], diffs[i])
    requires forall i :: 0 <= i < |hashes| ==> hashes[i] != 0
    requires forall i, j :: 0 <= i < j < |hashes| ==> hashes[i] != hashes[j]
    requires forall i, j, x, y :: 0 <= i < |diffs| && 0 <= j < |diffs| && x in diffs[i].codes && y in diffs[j].codes ==>
      x.0 == y.0 ==> x.1 == y.1
    ensures ContentAddressed(inverted, source)
  {
    hide WellEncoded, Tail, AccountKey, SlotKey;
    forall i | 0 <= i < |source|
      ensures WellEncoded(inverted, source[i]) && source[i].num == i && source[i].hash == hashes[i] &&
        source[i].codes == diffs[i].codes
    {
      var b := EncodeBlock(inverted, i, hashes[i], roots[i], diffs[i]);
    }
  }

  lemma {:induction false} InsertedFrom<V>(writes: seq<(Key, V)>, k: Key)
    requires k in Inserted(writes)
    ensures exists i :: 0 <= i < |writes| && writes[i] == (k, Inserted(writes)[k])
  {
    var init, last := writes[..|writes| - 1], writes[|writes| - 1];
    if last.0 != k {
      InsertedFrom(init, k);
      var i :| 0 <= i < |init| && init[i] == (k, Inserted(init)[k]);
      assert writes[i] == init[i];
    }
  }

  /** What a block writes to a cell, cell kind by cell kind. */
  lemma WholeCell(b: Block, c: Cell)
    requires c in Part(Whole, b)
    ensures c.AccountAt? ==>
      c.key in Inserted(b.accounts) && Part(Whole, b)[c] == AccountOf(Inserted(b.accounts)[c.key])
    ensures c.SlotAt? ==> c.key in Inserted(b.storage) && Part(Whole, b)[c] == ValueOf(Inserted(b.storage)[c.key])
    ensures c.CodeAt? ==> c.codeHash in Inserted(b.codes) && Part(Whole, b)[c] == CodeOf(Inserted(b.codes)[c.codeHash])
    ensures c.InfoAt? ==> c.hash == b.hash && Part(Whole, b)[c] == InfoOf(b.info)
    ensures c.HashAt? ==> c.num == b.info.number && Part(Whole, b)[c] == HashOf(b.hash)
  {
    hide AccountCells, SlotCells, CodeCells, Inserted;
  }

  // ----- Cells told from the blocks' fields -----

  function Lookup(cells: Cells, x: Cell): Option<Content> {
    if x in cells then Some(cells[x]) else None
  }

  /** What a block says of a cell. */
  function WrittenBy(b: Block, x: Cell): Option<Content> {
    match x
    case HashAt(num) => if num == b.info.number then Some(HashOf(b.hash)) else None
    case InfoAt(hash) => if hash == b.hash then Some(InfoOf(b.info)) else None
    case CodeAt(codeHash) =>
      var code := LastValue(b.codes, codeHash); if code.Some? then Some(CodeOf(code.value)) else None
    case AccountAt(key) =>
      var rlp := LastValue(b.accounts, key); if rlp.Some? then Some(AccountOf(rlp.value)) else None
    case SlotAt(key) =>
      var value := LastValue(b.storage, key); if value.Some? then Some(ValueOf(value.value)) else None
  }

  /** What the blocks say of a cell, the last one that mentions it. */
  function LastWritten(blocks: seq<Block>, x: Cell): Option<Content> {
    if blocks == [] then None
    else
      var last := WrittenBy(blocks[|blocks| - 1], x);
      if last.Some? then last else LastWritten(blocks[..|blocks| - 1], x)
  }

  lemma {:induction false} InsertedIsLast<V>(writes: seq<(Key, V)>, k: Key)
    ensures LastValue(writes, k) == if k in Inserted(writes) then Some(Inserted(writes)[k]) else None
  {
    if writes != [] { InsertedIsLast(writes[..|writes| - 1], k); }
  }

  /** A block's cells are what it says, cell by cell. */
  lemma PartIsWritten(b: Block, x: Cell)
    ensures Lookup(Part(Whole, b), x) == WrittenBy(b, x)
  {
    hide Inserted, LastValue, AccountCells, SlotCells, CodeCells;
    match x
    case HashAt(_) =>
    case InfoAt(_) =>
    case CodeAt(codeHash) => InsertedIsLast(b.codes, codeHash);
    case AccountAt(key) => InsertedIsLast(b.accounts, key);
    case SlotAt(key) => InsertedIsLast(b.storage, key);
  }

  lemma {:induction false} MergeIsWritten(blocks: seq<Block>, x: Cell)
    ensures Lookup(Merge(Whole, blocks), x) == LastWritten(blocks, x)
  {
    hide Part, WrittenBy;
    if blocks != [] {
      MergeIsWritten(blocks[..|blocks| - 1], x);
      PartIsWritten(blocks[|blocks| - 1], x);
    }
  }

  /** The cells hold what the blocks say, cell by cell, and nothing else. */
  ghost predicate HoldsExactly(cells: Cells, blocks: seq<Block>) {
    forall x: Cell :: Lookup(cells, x) == LastWritten(blocks, x)
  }

  lemma MergeHoldsExactly(blocks: seq<Block>)
    ensures HoldsExactly(Merge(Whole, blocks), blocks)
  {
    hide Merge, LastWritten;
    forall x: Cell
      ensures Lookup(Merge(Whole, blocks), x) == LastWritten(blocks, x)
    {
      MergeIsWritten(blocks, x);
    }
  }

  /** The cells hold all of a block: its hash under its number, its info under its hash, every code under its hash, and
      the last version it wrote of every account and slot. */
  ghost predicate HoldsBlock(cells: Cells, b: Block) {
    && Lookup(cells, HashAt(b.num)) == Some(HashOf(b.hash))
    && Lookup(cells, InfoAt(b.hash)) == Some(InfoOf(b.info))
    && (forall i :: 0 <= i < |b.codes| ==> Lookup(cells, CodeAt(b.codes[i].0)) == Some(CodeOf(b.codes[i].1)))
    && (forall k: Key :: LastValue(b.accounts, k).Some? ==>
          Lookup(cells, AccountAt(k)) == Some(AccountOf(LastValue(b.accounts, k).value)))
    && (forall k: Key :: LastValue(b.storage, k).Some? ==>
          Lookup(cells, SlotAt(k)) == Some(ValueOf(LastValue(b.storage, k).value)))
  }

  /** Nothing is stored that the blocks do not say. */
  ghost predicate Truth(cells: Cells, blocks: seq<Block>) {
    forall x :: x in cells ==> Some(cells[x]) == LastWritten(blocks, x)
  }

  lemma {:induction false} NoValue<K, V>(writes: seq<(K, V)>, k: K)
    requires forall i :: 0 <= i < |writes| ==> writes[i].0 != k
    ensures LastValue(writes, k).None?
  {
    if writes != [] {
      NoValue(writes[..|writes| - 1], k);
    }
  }

  lemma {:induction false} NotWritten(blocks: seq<Block>, x: Cell)
    requires forall i :: 0 <= i < |blocks| ==> WrittenBy(blocks[i], x).None?
    ensures LastWritten(blocks, x).None?
  {
    hide WrittenBy;
    if blocks != [] {
      NotWritten(blocks[..|blocks| - 1], x);
    }
  }

  lemma {:induction false} OnlyWriter(blocks: seq<Block>, n: nat, x: Cell)
    requires n < |blocks| && forall i :: 0 <= i < |blocks| && i != n ==> WrittenBy(blocks[i], x).None?
    ensures LastWritten(blocks, x) == WrittenBy(blocks[n], x)
    decreases |blocks|
  {
    hide WrittenBy;
    var last := |blocks| - 1;
    if n < last {
      OnlyWriter(blocks[..last], n, x);
    } else {
      NotWritten(blocks[..last], x);
    }
  }

  /** Only the block with the version's number writes a versioned cell. */
  lemma OwnVersion(inverted: bool, source: seq<Block>, n: nat, x: Cell)
    requires forall i :: 0 <= i < |source| ==> WellEncoded(inverted, source[i]) && source[i].num == i
    requires n < |source| && n <= U64_MAX && (x.AccountAt? || x.SlotAt?) && x.key % TWO_256 == Tail(inverted, n)
    ensures LastWritten(source, x) == WrittenBy(source[n], x)
  {
    hide LastValue, LastWritten;
    forall i | 0 <= i < |source| && i != n
      ensures WrittenBy(source[i], x).None?
    {
      if x.AccountAt? { NoValue(source[i].accounts, x.key); } else { NoValue(source[i].storage, x.key); }
    }
    OnlyWriter(source, n, x);
  }

  lemma EncodedNumbers(inverted: bool, source: seq<Block>, diffs: seq<Diff>)
    requires |source| == |diffs| <= U64_MAX
    requires forall i :: 0 <= i < |source| ==>
      source[i] == EncodeBlock(inverted, i, source[i].hash, source[i].info.stateRoot, diffs[i])
    ensures forall i :: 0 <= i < |source| ==> WellEncoded(inverted, source[i]) && source[i].num == i
  {
    hide WellEncoded, Tail, AccountKey, SlotKey;
    forall i | 0 <= i < |source|
      ensures WellEncoded(inverted, source[i]) && source[i].num == i
    {
      var b := EncodeBlock(inverted, i, source[i].hash, source[i].info.stateRoot, diffs[i]);
    }
  }

  /** A stored block has exactly the account versions of its diff: the last new value, an empty one for a deletion,
      none for an account the block did not touch. */
  lemma LoadedAccount(inverted: bool, source: seq<Block>, diffs: seq<Diff>, cells: Cells, n: nat, address: nat)
    requires |source| == |diffs| <= U64_MAX && n < |source| && Truth(cells, source) && HoldsBlock(cells, source[n])
    requires forall i :: 0 <= i < |source| ==>
      source[i] == EncodeBlock(inverted, i, source[i].hash, source[i].info.stateRoot, diffs[i])
    ensures Lookup(cells, AccountAt(AccountKey(inverted, address, n))) ==
      if LastValue(diffs[n].accounts, address).Some? then Some(AccountOf(LastValue(diffs[n].accounts, address).value))
      else if address in diffs[n].deleted then Some(AccountOf([]))
      else None
  {
    hide LastValue, LastWritten, EncodeBlock, AccountKey, Tail;
    var x := AccountAt(AccountKey(inverted, address, n));
    EncodedNumbers(inverted, source, diffs);
    OwnVersion(inverted, source, n, x);
    EncodedAccount(inverted, n, source[n].hash, source[n].info.stateRoot, diffs[n], address);
  }

  /** The same for storage: the last value the block's diff gives to the slot. */
  lemma LoadedSlot(
    inverted: bool, source: seq<Block>, diffs: seq<Diff>, cells: Cells, n: nat, address: nat, slot: nat)
    requires |source| == |diffs| <= U64_MAX && n < |source| && Truth(cells, source) && HoldsBlock(cells, source[n])
    requires slot < TWO_256
    requires forall i :: 0 <= i < |source| ==>
      source[i] == EncodeBlock(inverted, i, source[i].hash, source[i].info.stateRoot, diffs[i])
    requires forall i :: 0 <= i < |diffs[n].storage| ==> diffs[n].storage[i].1 < TWO_256
    ensures Lookup(cells, SlotAt(SlotKey(inverted, address, slot, n))) ==
      var value := LastValue(SlotPairs(diffs[n].storage), (address, slot));
      if value.Some? then Some(ValueOf(value.value)) else None
  {
    hide LastValue, LastWritten, EncodeBlock, SlotKey, Tail;
    var x := SlotAt(SlotKey(inverted, address, slot, n));
    EncodedNumbers(inverted, source, diffs);
    OwnVersion(inverted, source, n, x);
    EncodedSlot(inverted, n, source[n].hash, source[n].info.stateRoot, diffs[n], address, slot);
  }

  /** The cells hold what the blocks say, and under it what was there before. */
  ghost predicate HoldsOver(cells: Cells, base: Cells, blocks: seq<Block>) {
    forall x: Cell ::
      Lookup(cells, x) == if LastWritten(blocks, x).Some? then LastWritten(blocks, x) else Lookup(base, x)
  }

  lemma MergeHoldsOver(base: Cells, blocks: seq<Block>)
    ensures HoldsOver(base + Merge(Whole, blocks), base, blocks)
  {
    hide Merge, LastWritten;
    forall x: Cell
      ensures Lookup(Merge(Whole, blocks), x) == LastWritten(blocks, x)
    {
      MergeIsWritten(blocks, x);
    }
  }

  lemma {:induction false} LastValueOf<V>(writes: seq<(Key, V)>, i: nat)
    requires i < |writes|
    ensures var v := LastValue(writes, writes[i].0); v.Some? && (writes[i].0, v.value) in writes
    decreases |writes|
  {
    var n := |writes| - 1;
    if writes[n].0 != writes[i].0 {
      LastValueOf(writes[..n], i);
    }
  }

  /** Cells that include a content-addressed block's cells hold all of it. */
  lemma PartHoldsBlock(inverted: bool, source: seq<Block>, k: nat, cells: Cells)
    requires ContentAddressed(inverted, source) && k < |source|
    requires forall x :: x in Part(Whole, source[k]) ==> x in cells && cells[x] == Part(Whole, source[k])[x]
    ensures HoldsBlock(cells, source[k])
  {
    hide Part, LastValue;
    var b := source[k];
    forall x: Cell | WrittenBy(b, x).Some?
      ensures Lookup(cells, x) == WrittenBy(b, x)
    {
      PartIsWritten(b, x);
    }
    assert WrittenBy(b, HashAt(b.num)).Some? && WrittenBy(b, InfoAt(b.hash)).Some?;
    forall i | 0 <= i < |b.codes|
      ensures Lookup(cells, CodeAt(b.codes[i].0)) == Some(CodeOf(b.codes[i].1))
    {
      LastValueOf(b.codes, i);
      assert b.codes[i] in b.codes;
      assert WrittenBy(b, CodeAt(b.codes[i].0)).Some?;
    }
    forall key: Key | LastValue(b.accounts, key).Some?
      ensures Lookup(cells, AccountAt(key)) == Some(AccountOf(LastValue(b.accounts, key).value))
    {
      assert WrittenBy(b, AccountAt(key)).Some?;
    }
    forall key: Key | LastValue(b.storage, key).Some?
      ensures Lookup(cells, SlotAt(key)) == Some(ValueOf(LastValue(b.storage, key).value))
    {
      assert WrittenBy(b, SlotAt(key)).Some?;
    }
  }

  /** A versioned cell names its block: blocks with different numbers never share one. */
  lemma VersionCellsAreOwn(inverted: bool, b: Block, c: Cell)
    requires WellEncoded(inverted, b) && c in Part(Whole, b) && (c.AccountAt? || c.SlotAt?)
    ensures c.key % TWO_256 == Tail(inverted, b.num)
  {
    hide Part;
    WholeCell(b, c);
    if c.AccountAt? { InsertedFrom(b.accounts, c.key); } else { InsertedFrom(b.storage, c.key); }
  }

  lemma CellsCoherent(inverted: bool, source: seq<Block>, i: nat, j: nat, c: Cell)
    requires ContentAddressed(inverted, source) && i < |source| && j < |source| && i != j
    requires c in Part(Whole, source[i]) && c in Part(Whole, source[j])
    ensures Part(Whole, source[i])[c] == Part(Whole, source[j])[c]
  {
    hide Part, Inserted;
    WholeCell(source[i], c);
    WholeCell(source[j], c);
    if c.AccountAt? || c.SlotAt? {
      VersionCellsAreOwn(inverted, source[i], c);
      VersionCellsAreOwn(inverted, source[j], c);
    } else if c.CodeAt? {
      InsertedFrom(source[i].codes, c.codeHash);
      InsertedFrom(source[j].codes, c.codeHash);
    }
  }

  lemma SourceCoherent(inverted: bool, source: seq<Block>)
    requires ContentAddressed(inverted, source)
    ensures Coherent(source)
  {
    hide Part, ContentAddressed;
    forall i, j, c | 0 <= i < |source| && 0 <= j < |source| && c in Part(Whole, source[i]) &&
      c in Part(Whole, source[j])
      ensures Part(Whole, source[i])[c] == Part(Whole, source[j])[c]
    {
      if i != j { CellsCoherent(inverted, source, i, j, c); }
    }
  }

  // ----- What a worker ingests -----

  function BatchAccounts(blocks: seq<Block>): seq<(Key, seq<byte>)> {
    if blocks == [] then [] else BatchAccounts(blocks[..|blocks| - 1]) + blocks[|blocks| - 1].accounts
  }

  function BatchStorage(blocks: seq<Block>): seq<(Key, nat)> {
    if blocks == [] then [] else BatchStorage(blocks[..|blocks| - 1]) + blocks[|blocks| - 1].storage
  }

  lemma {:induction false} InsertedAppend<V>(x: seq<(Key, V)>, y: seq<(Key, V)>)
    ensures Inserted(x + y) == Inserted(x) + Inserted(y)
    decreases |y|
  {
    if y == [] {
      assert x + y == x;
    } else {
      assert (x + y)[..|x + y| - 1] == x + y[..|y| - 1];
      InsertedAppend(x, y[..|y| - 1]);
    }
  }

  lemma AccountCellsAppend(x: seq<(Key, seq<byte>)>, y: seq<(Key, seq<byte>)>)
    ensures AccountCells(x + y) == AccountCells(x) + AccountCells(y)
  {
    hide Inserted, AccountCells;
    InsertedAppend(x, y);
  }

  lemma SlotCellsAppend(x: seq<(Key, nat)>, y: seq<(Key, nat)>)
    ensures SlotCells(x + y) == SlotCells(x) + SlotCells(y)
  {
    hide Inserted, SlotCells;
    InsertedAppend(x, y);
  }

  lemma NoCells()
    ensures AccountCells([]) == map[] && SlotCells([]) == map[]
  {
  }

  lemma {:induction false} BatchCells(blocks: seq<Block>)
    ensures AccountCells(BatchAccounts(blocks)) == Merge(Accounts, blocks)
    ensures SlotCells(BatchStorage(blocks)) == Merge(Slots, blocks)
  {
    hide Inserted;
    if blocks != [] {
      hide AccountCells, SlotCells;
      var init, last := blocks[..|blocks| - 1], blocks[|blocks| - 1];
      BatchCells(init);
      AccountCellsAppend(BatchAccounts(init), last.accounts);
      SlotCellsAppend(BatchStorage(init), last.storage);
    } else {
      NoCells();
    }
  }

  /** The two tables a worker builds from a batch, whatever stable sort it used: strictly
      ascending keys, as the table writer requires, holding what the blocks wrote in order. */
  lemma WorkerTables(blocks: seq<Block>, accounts: seq<(Key, seq<byte>)>, storage: seq<(Key, nat)>)
    requires IsStableSort(BatchAccounts(blocks), accounts) && IsStableSort(BatchStorage(blocks), storage)
    ensures StrictlyAscending(DedupLast(accounts)) && AccountCells(DedupLast(accounts)) == Merge(Accounts, blocks)
    ensures StrictlyAscending(DedupLast(storage)) && SlotCells(DedupLast(storage)) == Merge(Slots, blocks)
  {
    hide Inserted, IsStableSort, DedupLast;
    SortedBatchIsInsertedMap(BatchAccounts(blocks), accounts);
    SortedBatchIsInsertedMap(BatchStorage(blocks), storage);
    BatchCells(blocks);
    assert AccountCells(DedupLast(accounts)) == AccountCells(BatchAccounts(blocks));
    assert SlotCells(DedupLast(storage)) == SlotCells(BatchStorage(blocks));
  }
}

/** `spawn_rocksdb_batch_accumulator`: reorder blocks by number and cut them into batches. */
module Accumulating {
  import opened Bytes
  import opened ArchiveBlocks

  // ----- What is absorbed, told from the arrivals alone -----

  ghost predicate Has(arrivals: seq<Block>, n: nat) {
    exists i :: 0 <= i < |arrivals| && arrivals[i].num == n
  }

  /** The last arrival of block `n`. */
  function LastOf(arrivals: seq<Block>, n: nat): (b: Block)
    requires Has(arrivals, n)
    ensures b.num == n && b in arrivals
  {
    var last := arrivals[|arrivals| - 1];
    if last.num == n then last
    else
      assert Has(arrivals[..|arrivals| - 1], n) by {
        var i :| 0 <= i < |arrivals| && arrivals[i].num == n;
        assert arrivals[..|arrivals| - 1][i].num == n;
      }
      LastOf(arrivals[..|arrivals| - 1], n)
  }

  ghost predicate Reached(arrivals: seq<Block>, start: nat, n: nat) {
    forall k :: start <= k <= n ==> Has(arrivals, k)
  }

  /** The version of block `n` that counts: the last one that had arrived when the run of
      blocks from `start` to `n` first became complete. */
  ghost function Absorbed(arrivals: seq<Block>, start: nat, n: nat): (b: Block)
    requires start <= n && Reached(arrivals, start, n)
    ensures b.num == n && b in arrivals
    decreases |arrivals|
  {
    if arrivals != [] && Reached(arrivals[..|arrivals| - 1], start, n)
    then Absorbed(arrivals[..|arrivals| - 1], start, n)
    else LastOf(arrivals, n)
  }

  ghost predicate AbsorbedAs(arrivals: seq<Block>, start: nat, n: nat, b: Block) {
    start <= n && Reached(arrivals, start, n) && b == Absorbed(arrivals, start, n)
  }

  /** `out` is what the arrivals give: blocks `start`, `start + 1`, ... up to the first that never came. */
  ghost predicate IsAbsorbed(arrivals: seq<Block>, start: nat, out: seq<Block>) {
    && !Has(arrivals, start + |out|)
    && forall i :: 0 <= i < |out| ==> AbsorbedAs(arrivals, start, start + i, out[i])
  }

  lemma AbsorbedHadArrived(arrivals: seq<Block>, start: nat, out: seq<Block>, i: nat)
    requires IsAbsorbed(arrivals, start, out) && i < |out|
    ensures Has(arrivals, start + i)
  {
    assert AbsorbedAs(arrivals, start, start + i, out[i]);
  }

  /** The arrivals determine what is absorbed. */
  lemma AbsorbedIsUnique(arrivals: seq<Block>, start: nat, x: seq<Block>, y: seq<Block>)
    requires IsAbsorbed(arrivals, start, x) && IsAbsorbed(arrivals, start, y)
    ensures x == y
  {
    hide Absorbed;
    if |x| < |y| { AbsorbedHadArrived(arrivals, start, y, |x|); }
    if |y| < |x| { AbsorbedHadArrived(arrivals, start, x, |y|); }
    forall i | 0 <= i < |x| && i < |y|
      ensures x[i] == y[i]
    {
      assert AbsorbedAs(arrivals, start, start + i, x[i]) && AbsorbedAs(arrivals, start, start + i, y[i]);
    }
  }

  lemma HasPush(arrivals: seq<Block>, b: Block)
    ensures forall n :: Has(arrivals + [b], n) <==> Has(arrivals, n) || b.num == n
  {
    forall n
      ensures Has(arrivals + [b], n) <==> Has(arrivals, n) || b.num == n
    {
      if Has(arrivals, n) {
        var i :| 0 <= i < |arrivals| && arrivals[i].num == n;
        assert (arrivals + [b])[i].num == n;
      }
      if b.num == n { assert (arrivals + [b])[|arrivals|].num == n; }
    }
  }

  lemma LastOfPush(arrivals: seq<Block>, b: Block, n: nat)
    requires Has(arrivals + [b], n)
    ensures b.num != n ==> Has(arrivals, n) && LastOf(arrivals + [b], n) == LastOf(arrivals, n)
    ensures b.num == n ==> LastOf(arrivals + [b], n) == b
  {
    HasPush(arrivals, b);
    assert (arrivals + [b])[..|arrivals|] == arrivals;
  }

  /** Once complete, later arrivals do not change what was absorbed. */
  lemma AbsorbedPush(arrivals: seq<Block>, start: nat, b: Block, n: nat)
    requires start <= n && Reached(arrivals, start, n)
    ensures Reached(arrivals + [b], start, n) && Absorbed(arrivals + [b], start, n) == Absorbed(arrivals, start, n)
  {
    HasPush(arrivals, b);
    assert (arrivals + [b])[..|arrivals|] == arrivals;
  }

  lemma AbsorbedNow(arrivals: seq<Block>, start: nat, b: Block, n: nat)
    requires start <= n && Reached(arrivals + [b], start, n) && !Reached(arrivals, start, n)
    ensures Absorbed(arrivals + [b], start, n) == LastOf(arrivals + [b], n)
  {
    assert (arrivals + [b])[..|arrivals|] == arrivals;
  }

  // ----- Batches -----

  predicate Boundary(interval: nat, n: nat)
    requires interval > 0
  {
    n > 0 && n % interval == 0
  }

  /** A batch ends at its only positive multiple of the checkpoint interval. */
  predicate FullBatch(interval: nat, batch: seq<Block>)
    requires interval > 0
  {
    && batch != [] && Boundary(interval, batch[|batch| - 1].num)
    && forall i :: 0 <= i < |batch| - 1 ==> !Boundary(interval, batch[i].num)
  }

  lemma FullIsNotEmpty(interval: nat, batch: seq<Block>)
    requires interval > 0 && FullBatch(interval, batch)
    ensures batch != []
  {
  }

  predicate OpenBatch(interval: nat, batch: seq<Block>)
    requires interval > 0
  {
    forall i :: 0 <= i < |batch| ==> !Boundary(interval, batch[i].num)
  }

  function Flatten(batches: seq<seq<Block>>): seq<Block> {
    if batches == [] then [] else Flatten(batches[..|batches| - 1]) + batches[|batches| - 1]
  }

  lemma FlattenPush(batches: seq<seq<Block>>, batch: seq<Block>)
    ensures Flatten(batches + [batch]) == Flatten(batches) + batch
  {
    assert (batches + [batch])[..|batches|] == batches;
  }

  /** One payload: its sequence number and its blocks. */
  datatype Batch = Batch(seqNo: nat, blocks: seq<Block>)

  function Blocks(batches: seq<Batch>): (out: seq<seq<Block>>)
    ensures |out| == |batches| && forall i :: 0 <= i < |batches| ==> out[i] == batches[i].blocks
  {
    seq(|batches|, i requires 0 <= i < |batches| => batches[i].blocks)
  }

  lemma BlocksPush(batches: seq<Batch>, b: Batch)
    ensures Blocks(batches + [b]) == Blocks(batches) + [b.blocks]
    ensures Flatten(Blocks(batches + [b])) == Flatten(Blocks(batches)) + b.blocks
  {
    assert Blocks(batches + [b]) == Blocks(batches) + [b.blocks];
    FlattenPush(Blocks(batches), b.blocks);
  }

  /** The checkpoint number of the last block before `n`. */
  function CheckpointBefore(interval: nat, n: nat): nat
    requires interval > 0
  {
    (if n == 0 then 0 else n - 1) / interval
  }

  lemma MulLarge(k: int, d: nat)
    ensures k >= 1 ==> k * d >= d
    ensures k <= -1 ==> k * d + d <= 0
  {
  }

  lemma QuotientIs(x: nat, d: nat, q: int, r: nat)
    requires r < d && x == q * d + r
    ensures x / d == q
  {
    var p := x / d;
    assert (q - p) * d == q * d - p * d;
    MulLarge(q - p, d);
  }

  /** Reaching `n` crosses a checkpoint exactly at a positive multiple of the interval. */
  lemma CheckpointCrossed(interval: nat, n: nat)
    requires interval > 0
    ensures n / interval > CheckpointBefore(interval, n) <==> Boundary(interval, n)
    ensures CheckpointBefore(interval, n) <= n / interval == CheckpointBefore(interval, n + 1)
  {
    if n > 0 {
      var q, r := n / interval, n % interval;
      assert n == q * interval + r;
      if r == 0 {
        assert n - 1 == (q - 1) * interval + (interval - 1);
        QuotientIs(n - 1, interval, q - 1, interval - 1);
      } else {
        QuotientIs(n - 1, interval, q, r - 1);
      }
    } else {
      QuotientIs(0, interval, 0, 0);
    }
  }

  /** The payloads sent so far: numbered from zero, each ending at a checkpoint, and with the
      open batch holding all blocks absorbed. */
  ghost predicate Cut(interval: nat, sent: seq<Batch>, open: seq<Block>, out: seq<Block>) {
    && interval > 0
    && (forall i :: 0 <= i < |sent| ==> sent[i].seqNo == i && FullBatch(interval, sent[i].blocks))
    && OpenBatch(interval, open) && Flatten(Blocks(sent)) + open == out
  }

  lemma CutExtend(interval: nat, sent: seq<Batch>, open: seq<Block>, out: seq<Block>, b: Block)
    requires Cut(interval, sent, open, out) && !Boundary(interval, b.num)
    ensures Cut(interval, sent, open + [b], out + [b])
  {
    hide Flatten, Blocks, Boundary;
    assert Flatten(Blocks(sent)) + (open + [b]) == out + [b];
  }

  lemma CutClose(interval: nat, sent: seq<Batch>, open: seq<Block>, out: seq<Block>, b: Block)
    requires Cut(interval, sent, open, out) && Boundary(interval, b.num)
    ensures Cut(interval, sent + [Batch(|sent|, open + [b])], [], out + [b])
  {
    hide Flatten, Blocks, Boundary;
    BlocksPush(sent, Batch(|sent|, open + [b]));
    assert Flatten(Blocks(sent)) + (open + [b]) == out + [b];
  }

  /** Blocks still waiting: the last arrival of each number from `next` on. */
  ghost predicate Waiting(arrivals: seq<Block>, next: nat, pending: map<nat, Block>) {
    && (forall n :: n in pending <==> n >= next && Has(arrivals, n))
    && (forall n :: n in pending ==> pending[n] == LastOf(arrivals, n))
  }

  /** Part-way through draining after the arrival of `b`: `out` has outgrown its first `done` blocks. */
  ghost predicate Draining(start: nat, before: seq<Block>, b: Block, done: nat, out: seq<Block>) {
    && done <= |out| && !Has(before, start + done)
    && forall i :: 0 <= i < |out| ==> AbsorbedAs(before + [b], start, start + i, out[i])
  }

  lemma WaitingPush(before: seq<Block>, b: Block, next: nat, pending: map<nat, Block>)
    requires Waiting(before, next, pending) && b.num >= next
    ensures Waiting(before + [b], next, pending[b.num := b])
  {
    hide LastOf, Has;
    HasPush(before, b);
    forall n | n >= next && Has(before + [b], n)
      ensures pending[b.num := b][n] == LastOf(before + [b], n)
    {
      LastOfPush(before, b, n);
    }
  }

  lemma WaitingTake(arrivals: seq<Block>, next: nat, pending: map<nat, Block>)
    requires Waiting(arrivals, next, pending) && next in pending
    ensures Waiting(arrivals, next + 1, pending - {next})
    ensures Has(arrivals, next) && pending[next] == LastOf(arrivals, next) && pending[next].num == next
    ensures |pending - {next}| < |pending|
  {
    hide LastOf, Has;
    assert (pending - {next}).Keys == pending.Keys - {next};
  }

  lemma WaitingEmpty(arrivals: seq<Block>, next: nat, pending: map<nat, Block>)
    requires Waiting(arrivals, next, pending) && next !in pending
    ensures !Has(arrivals, next)
  {
  }

  lemma DrainStart(start: nat, before: seq<Block>, b: Block, out: seq<Block>)
    requires IsAbsorbed(before, start, out)
    ensures Draining(start, before, b, |out|, out)
  {
    forall i | 0 <= i < |out|
      ensures AbsorbedAs(before + [b], start, start + i, out[i])
    {
      assert AbsorbedAs(before, start, start + i, out[i]);
      AbsorbedPush(before, start, b, start + i);
    }
  }

  lemma DrainStep(start: nat, before: seq<Block>, b: Block, done: nat, out: seq<Block>)
    requires Draining(start, before, b, done, out) && Has(before + [b], start + |out|)
    ensures Draining(start, before, b, done, out + [LastOf(before + [b], start + |out|)])
  {
    var next := start + |out|;
    assert Reached(before + [b], start, next) by {
      if out != [] { assert AbsorbedAs(before + [b], start, start + (|out| - 1), out[|out| - 1]); }
    }
    assert !Reached(before, start, next);
    AbsorbedNow(before, start, b, next);
  }

  lemma DrainEnd(start: nat, before: seq<Block>, b: Block, done: nat, out: seq<Block>)
    requires Draining(start, before, b, done, out) && !Has(before + [b], start + |out|)
    ensures IsAbsorbed(before + [b], start, out)
  {
  }

  /** An arrival of a block already absorbed changes nothing. */
  lemma Ignored(start: nat, before: seq<Block>, b: Block, out: seq<Block>, next: nat, pending: map<nat, Block>)
    requires IsAbsorbed(before, start, out) && Waiting(before, next, pending) && next == start + |out| && b.num < next
    ensures IsAbsorbed(before + [b], start, out) && Waiting(before + [b], next, pending)
  {
    hide Absorbed, Reached, LastOf, Has;
    HasPush(before, b);
    DrainStart(start, before, b, out);
    forall n | n >= next && Has(before, n)
      ensures LastOf(before + [b], n) == LastOf(before, n)
    {
      LastOfPush(before, b, n);
    }
  }

  class Accumulator {
    const start: nat
    const interval: nat
    var pending: map<nat, Block>
    var maxContiguous: Option<nat>
    var lastCheckpoint: nat
    var batchSeq: nat
    /** The blocks whose writes sit in the open batch's buffers. */
    var open: seq<Block>
    /** Payloads sent to the workers. */
    var sent: seq<Batch>
    ghost var arrivals: seq<Block>
    ghost var out: seq<Block>

    function Next(): nat
      reads this
    {
      if maxContiguous.None? then start else maxContiguous.value + 1
    }

    ghost predicate Counted()
      reads this
    {
      && interval > 0 && batchSeq == |sent| && Cut(interval, sent, open, out)
      && Next() == start + |out| && (maxContiguous.None? ==> start == 0)
      && lastCheckpoint == CheckpointBefore(interval, Next())
    }

    ghost predicate Valid()
      reads this
    {
      Counted() && Waiting(arrivals, Next(), pending) && IsAbsorbed(arrivals, start, out)
    }

    constructor (start: nat, interval: nat)
      requires interval > 0
      ensures Valid() && arrivals == [] && this.start == start && this.interval == interval
    {
      this.start, this.interval := start, interval;
      pending, batchSeq, open, sent := map[], 0, [], [];
      maxContiguous := if start == 0 then None else Some(start - 1);
      lastCheckpoint := (if start == 0 then 0 else start - 1) / interval;
      arrivals, out := [], [];
    }

    /** Move one block into the open batch, sending the batch if it is full. */
    method Absorb(b: Block)
      requires Counted() && b.num == Next()
      modifies this`maxContiguous, this`lastCheckpoint, this`batchSeq, this`open, this`sent, this`out
      ensures Counted() && out == old(out) + [b] && Next() == old(Next()) + 1
    {
      hide Cut, Boundary, CheckpointBefore;
      CheckpointCrossed(interval, b.num);
      var chk := b.num / interval;
      if chk > lastCheckpoint {
        CutClose(interval, sent, open, out, b);
      } else {
        CutExtend(interval, sent, open, out, b);
      }
      open := open + [b];
      maxContiguous := Some(b.num);
      out := out + [b];
      if chk > lastCheckpoint {
        sent := sent + [Batch(batchSeq, open)];
        batchSeq := batchSeq + 1;
        lastCheckpoint := chk;
        open := [];
      }
    }

    /** Absorb waiting blocks as long as the next one is there. */
    method Drain(ghost before: seq<Block>, ghost b: Block, ghost done: nat)
      requires Counted() && arrivals == before + [b]
      requires Waiting(arrivals, Next(), pending) && Draining(start, before, b, done, out)
      modifies this`pending, this`maxContiguous, this`lastCheckpoint, this`batchSeq, this`open, this`sent, this`out
      ensures Valid()
    {
      hide Cut, Waiting, IsAbsorbed, Draining, CheckpointBefore, Has, LastOf;
      var next := Next();
      while next in pending
        invariant next == Next() && Counted()
        invariant Waiting(arrivals, next, pending) && Draining(start, before, b, done, out)
        decreases |pending|
      {
        var block := pending[next];
        WaitingTake(arrivals, next, pending);
        DrainStep(start, before, b, done, out);
        pending := pending - {next};
        Absorb(block);
        next := next + 1;
      }
      WaitingEmpty(arrivals, next, pending);
      DrainEnd(start, before, b, done, out);
    }

    /** One iteration of the receive loop. */
    method Receive(b: Block)
      requires Valid()
      modifies this
      ensures Valid() && arrivals == old(arrivals) + [b]
    {
      hide Cut, Waiting, IsAbsorbed, Draining, CheckpointBefore, Has, LastOf;
      ghost var before := arrivals;
      arrivals := arrivals + [b];
      if maxContiguous.Some? && b.num <= maxContiguous.value {
        Ignored(start, before, b, out, Next(), pending);
        return;
      }
      WaitingPush(before, b, Next(), pending);
      DrainStart(start, before, b, out);
      pending := pending[b.num := b];
      Drain(before, b, |out|);
    }

    /** The channel closed: send what is left and report the highest contiguous block. */
    method Finish() returns (highest: nat)
      requires Valid()
      modifies this`sent, this`open, this`batchSeq
      ensures Flatten(Blocks(sent)) == out && IsAbsorbed(arrivals, start, out)
      ensures forall i :: 0 <= i < |sent| ==> sent[i].seqNo == i && sent[i].blocks != []
      ensures forall i :: 0 <= i < |sent| - 1 ==> FullBatch(interval, sent[i].blocks)
      ensures sent != [] ==>
        var last := sent[|sent| - 1].blocks; FullBatch(interval, last) || OpenBatch(interval, last)
      ensures highest == if out == [] then (if start == 0 then 0 else start - 1) else out[|out| - 1].num
      ensures highest == if start + |out| == 0 then 0 else start + |out| - 1
    {
      hide FullBatch, OpenBatch, Flatten, Waiting, CheckpointBefore, Absorbed;
      forall i | 0 <= i < |sent|
        ensures sent[i].blocks != []
      {
        FullIsNotEmpty(interval, sent[i].blocks);
      }
      if open != [] {
        BlocksPush(sent, Batch(batchSeq, open));
        sent := sent + [Batch(batchSeq, open)];
        batchSeq := batchSeq + 1;
        open := [];
      }
      assert Flatten(Blocks(sent)) + [] == Flatten(Blocks(sent));
      highest := if maxContiguous.None? then 0 else maxContiguous.value;
    }
  }
}
