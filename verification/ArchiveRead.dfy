/** Reading a loaded archive at a height: one seek over the encoded keys. */
module ArchiveReading {
  import opened Bytes
  import opened BatchSort
  import opened ArchiveBlocks
  import I = Ingesting

  /** Where a seek lands: inverted, on the smallest key from `target` on; otherwise on the largest up to it. */
  ghost predicate IsSeek(keys: iset<Key>, inverted: bool, target: Key, found: Option<Key>) {
    if inverted then
      && (found.Some? ==> found.value in keys && target <= found.value)
      && (forall k :: k in keys && target <= k ==> found.Some? && found.value <= k)
    else
      && (found.Some? ==> found.value in keys && found.value <= target)
      && (forall k :: k in keys && k <= target ==> found.Some? && k <= found.value)
  }

  /** The key of version `n` under a prefix, an address or an address and a slot. */
  function VersionKey(inverted: bool, prefix: nat, n: nat): Key
    requires n <= U64_MAX
  {
    prefix * TWO_256 + Tail(inverted, n)
  }

  lemma VersionKeyParts(inverted: bool, prefix: nat, n: nat)
    requires n <= U64_MAX
    ensures VersionKey(inverted, prefix, n) / TWO_256 == prefix
    ensures VersionKey(inverted, prefix, n) % TWO_256 == Tail(inverted, n)
  {
  }

  /** Every key is some version's, of a block below `count`. */
  ghost predicate Versioned(keys: iset<Key>, inverted: bool, count: nat)
    requires count <= U64_MAX
  {
    forall k :: k in keys ==> exists n: nat :: n < count && k % TWO_256 == Tail(inverted, n)
  }

  lemma KeyVersion(keys: iset<Key>, inverted: bool, count: nat, k: Key) returns (n: nat)
    requires count <= U64_MAX && Versioned(keys, inverted, count) && k in keys
    ensures n < count && k == VersionKey(inverted, k / TWO_256, n)
  {
    n :| n < count && k % TWO_256 == Tail(inverted, n);
  }

  /** Versions of one prefix sort by number, and a key between two of them belongs to the prefix. */
  lemma VersionOrder(inverted: bool, prefix: nat, n: nat, m: nat)
    requires n <= m <= U64_MAX
    ensures if inverted then VersionKey(inverted, prefix, m) <= VersionKey(inverted, prefix, n)
            else VersionKey(inverted, prefix, n) <= VersionKey(inverted, prefix, m)
  {
  }

  lemma SamePrefix(inverted: bool, prefix: nat, n: nat, m: nat, k: Key)
    requires n <= U64_MAX && m <= U64_MAX
    requires VersionKey(inverted, prefix, n) <= k <= VersionKey(inverted, prefix, m)
    ensures k / TWO_256 == prefix
  {
    assert prefix * TWO_256 <= k < prefix * TWO_256 + TWO_256;
  }

  lemma VersionsCompare(inverted: bool, prefix: nat, n: nat, m: nat)
    requires n <= U64_MAX && m <= U64_MAX
    ensures VersionKey(inverted, prefix, n) <= VersionKey(inverted, prefix, m) <==> if inverted then m <= n else n <= m
  {
  }

  /** Version `n` of the prefix is the latest one at or below height `h`. */
  ghost predicate IsLatest(keys: iset<Key>, inverted: bool, prefix: nat, h: nat, n: nat)
    requires h <= U64_MAX
  {
    && n <= h && VersionKey(inverted, prefix, n) in keys
    && forall m: nat :: n < m <= h ==> VersionKey(inverted, prefix, m) !in keys
  }

  /**
   * A seek at height `h` finds the latest version at or below it, in both encodings: it lands under the prefix exactly
   * when there is such a version, and then on the latest one.
   */
  lemma SeekFindsLatest(keys: iset<Key>, inverted: bool, count: nat, prefix: nat, h: nat, found: Option<Key>)
    requires count <= U64_MAX && h <= U64_MAX && Versioned(keys, inverted, count)
    requires IsSeek(keys, inverted, VersionKey(inverted, prefix, h), found)
    ensures found.Some? && found.value / TWO_256 == prefix ==>
      exists n: nat :: IsLatest(keys, inverted, prefix, h, n) && found.value == VersionKey(inverted, prefix, n)
    ensures !(found.Some? && found.value / TWO_256 == prefix) ==>
      forall m: nat :: m <= h ==> VersionKey(inverted, prefix, m) !in keys
  {
    hide VersionKey, Versioned;
    if found.Some? && found.value / TWO_256 == prefix {
      var n := KeyVersion(keys, inverted, count, found.value);
      VersionsCompare(inverted, prefix, n, h);
      VersionsCompare(inverted, prefix, h, n);
      forall m: nat | n < m <= h
        ensures VersionKey(inverted, prefix, m) !in keys
      {
        VersionsCompare(inverted, prefix, n, m);
        VersionsCompare(inverted, prefix, m, n);
        VersionOrder(inverted, prefix, m, h);
      }
      assert IsLatest(keys, inverted, prefix, h, n);
    } else {
      forall m: nat | m <= h
        ensures VersionKey(inverted, prefix, m) !in keys
      {
        VersionOrder(inverted, prefix, m, h);
        if VersionKey(inverted, prefix, m) in keys {
          if inverted {
            SamePrefix(inverted, prefix, h, m, found.value);
          } else {
            SamePrefix(inverted, prefix, m, h, found.value);
          }
        }
      }
    }
  }

  // ----- Replaying state diffs -----

  /** What a diff says of an account: its last new value, else that it is deleted, else nothing. */
  function AccountSaid(diff: Diff, address: nat): Option<seq<byte>> {
    var value := LastValue(diff.accounts, address);
    if value.Some? then value else if address in diff.deleted then Some([]) else None
  }

  function SlotSaid(diff: Diff, address: nat, slot: nat): Option<nat> {
    LastValue(SlotPairs(diff.storage), (address, slot))
  }

  /** The account after blocks 0 to `h`: what the last diff that mentions it says. */
  function AccountAfter(diffs: seq<Diff>, address: nat, h: nat): Option<seq<byte>>
    requires h < |diffs|
    decreases h
  {
    var said := AccountSaid(diffs[h], address);
    if said.Some? || h == 0 then said else AccountAfter(diffs, address, h - 1)
  }

  /** The slot after blocks 0 to `h`; zero if no diff mentions it. */
  function SlotAfter(diffs: seq<Diff>, address: nat, slot: nat, h: nat): nat
    requires h < |diffs|
    decreases h
  {
    var said := SlotSaid(diffs[h], address, slot);
    if said.Some? then said.value else if h == 0 then 0 else SlotAfter(diffs, address, slot, h - 1)
  }

  lemma {:induction false} AccountLatest(diffs: seq<Diff>, address: nat, h: nat, n: nat)
    requires n <= h < |diffs| && AccountSaid(diffs[n], address).Some?
    requires forall m: nat :: n < m <= h ==> AccountSaid(diffs[m], address).None?
    ensures AccountAfter(diffs, address, h) == AccountSaid(diffs[n], address)
    decreases h
  {
    if n < h {
      AccountLatest(diffs, address, h - 1, n);
    }
  }

  lemma {:induction false} AccountUnsaid(diffs: seq<Diff>, address: nat, h: nat)
    requires h < |diffs| && forall m: nat :: m <= h ==> AccountSaid(diffs[m], address).None?
    ensures AccountAfter(diffs, address, h).None?
    decreases h
  {
    if h > 0 {
      AccountUnsaid(diffs, address, h - 1);
    }
  }

  lemma {:induction false} SlotLatest(diffs: seq<Diff>, address: nat, slot: nat, h: nat, n: nat)
    requires n <= h < |diffs| && SlotSaid(diffs[n], address, slot).Some?
    requires forall m: nat :: n < m <= h ==> SlotSaid(diffs[m], address, slot).None?
    ensures SlotAfter(diffs, address, slot, h) == SlotSaid(diffs[n], address, slot).value
    decreases h
  {
    if n < h {
      SlotLatest(diffs, address, slot, h - 1, n);
    }
  }

  lemma {:induction false} SlotUnsaid(diffs: seq<Diff>, address: nat, slot: nat, h: nat)
    requires h < |diffs| && forall m: nat :: m <= h ==> SlotSaid(diffs[m], address, slot).None?
    ensures SlotAfter(diffs, address, slot, h) == 0
    decreases h
  {
    if h > 0 {
      SlotUnsaid(diffs, address, slot, h - 1);
    }
  }

  // ----- Reading a loaded archive -----

  ghost function AccountKeys(cells: Cells): iset<Key> {
    iset k | AccountAt(k) in cells
  }

  ghost function SlotKeys(cells: Cells): iset<Key> {
    iset k | SlotAt(k) in cells
  }

  /** `seek_account`: the value under the key found, unless it is another address's. */
  function AccountRead(cells: Cells, address: nat, found: Option<Key>): Option<seq<byte>> {
    if found.None? || found.value / TWO_256 != address then None
    else
      var value := Lookup(cells, AccountAt(found.value));
      if value.Some? && value.value.AccountOf? then Some(value.value.rlp) else None
  }

  /** Zero where the key found is another slot's. */
  function SlotRead(cells: Cells, address: nat, slot: nat, found: Option<Key>): nat {
    if found.None? || found.value / TWO_256 != address * TWO_256 + slot then 0
    else
      var value := Lookup(cells, SlotAt(found.value));
      if value.Some? && value.value.ValueOf? then value.value.value else 0
  }

  ghost predicate Encoded(inverted: bool, source: seq<Block>, diffs: seq<Diff>) {
    && |source| == |diffs| <= U64_MAX
    && (forall i :: 0 <= i < |source| ==>
          source[i] == EncodeBlock(inverted, i, source[i].hash, source[i].info.stateRoot, diffs[i]))
    && (forall i, j :: 0 <= i < |diffs| && 0 <= j < |diffs[i].storage| ==> diffs[i].storage[j].1 < TWO_256)
  }

  /** Blocks 0 to `h` are stored, and nothing the source does not say. */
  ghost predicate Holds(cells: Cells, source: seq<Block>, h: nat) {
    h < |source| && Truth(cells, source) && forall k :: 0 <= k <= h ==> HoldsBlock(cells, source[k])
  }

  lemma {:induction false} Writer(blocks: seq<Block>, x: Cell) returns (i: nat)
    requires LastWritten(blocks, x).Some?
    ensures i < |blocks| && WrittenBy(blocks[i], x).Some?
  {
    hide WrittenBy;
    if WrittenBy(blocks[|blocks| - 1], x).Some? {
      i := |blocks| - 1;
    } else {
      i := Writer(blocks[..|blocks| - 1], x);
    }
  }

  /** Every versioned key of the archive ends in the number of a loaded block. */
  lemma LoadedKeyTail(inverted: bool, source: seq<Block>, cells: Cells, x: Cell) returns (n: nat)
    requires forall i :: 0 <= i < |source| ==> WellEncoded(inverted, source[i]) && source[i].num == i
    requires Truth(cells, source) && (x.AccountAt? || x.SlotAt?) && x in cells
    ensures n < |source| && n <= U64_MAX && x.key % TWO_256 == Tail(inverted, n)
  {
    hide LastWritten, LastValue;
    n := Writer(source, x);
    if x.AccountAt? {
      if x.key % TWO_256 != Tail(inverted, n) { NoValue(source[n].accounts, x.key); }
    } else {
      if x.key % TWO_256 != Tail(inverted, n) { NoValue(source[n].storage, x.key); }
    }
  }

  lemma LoadedKeysVersioned(inverted: bool, source: seq<Block>, diffs: seq<Diff>, cells: Cells)
    requires Encoded(inverted, source, diffs) && Truth(cells, source)
    ensures Versioned(AccountKeys(cells), inverted, |source|) && Versioned(SlotKeys(cells), inverted, |source|)
  {
    hide Truth, EncodeBlock, WellEncoded, Tail;
    EncodedNumbers(inverted, source, diffs);
    forall k | k in AccountKeys(cells)
      ensures exists n: nat :: n < |source| && k % TWO_256 == Tail(inverted, n)
    {
      var n := LoadedKeyTail(inverted, source, cells, AccountAt(k));
    }
    forall k | k in SlotKeys(cells)
      ensures exists n: nat :: n < |source| && k % TWO_256 == Tail(inverted, n)
    {
      var n := LoadedKeyTail(inverted, source, cells, SlotAt(k));
    }
  }

  lemma AccountVersion(inverted: bool, source: seq<Block>, diffs: seq<Diff>, cells: Cells, address: nat, n: nat)
    requires Encoded(inverted, source, diffs) && n < |source| && Truth(cells, source) && HoldsBlock(cells, source[n])
    ensures Lookup(cells, AccountAt(VersionKey(inverted, address, n))) ==
      var said := AccountSaid(diffs[n], address); if said.Some? then Some(AccountOf(said.value)) else None
  {
    hide Truth, HoldsBlock, EncodeBlock, Lookup, LastValue;
    LoadedAccount(inverted, source, diffs, cells, n, address);
  }

  lemma SlotVersion(
    inverted: bool, source: seq<Block>, diffs: seq<Diff>, cells: Cells, address: nat, slot: nat, n: nat)
    requires Encoded(inverted, source, diffs) && n < |source| && Truth(cells, source) && HoldsBlock(cells, source[n])
    requires slot < TWO_256
    ensures Lookup(cells, SlotAt(VersionKey(inverted, address * TWO_256 + slot, n))) ==
      var said := SlotSaid(diffs[n], address, slot); if said.Some? then Some(ValueOf(said.value)) else None
  {
    hide Truth, HoldsBlock, EncodeBlock, Lookup, LastValue;
    LoadedSlot(inverted, source, diffs, cells, n, address, slot);
  }

  lemma KeysAreVersions(inverted: bool, address: nat, slot: nat, n: nat)
    requires n <= U64_MAX
    ensures AccountKey(inverted, address, n) == VersionKey(inverted, address, n)
    ensures SlotKey(inverted, address, slot, n) == VersionKey(inverted, address * TWO_256 + slot, n)
  {
  }

  lemma EncodedSize(inverted: bool, source: seq<Block>, diffs: seq<Diff>)
    requires Encoded(inverted, source, diffs)
    ensures |source| == |diffs| <= U64_MAX
  {
  }

  /** Reading an account at any stored height gives the account after replaying the diffs to that height. */
  lemma AccountReadIsReplay(
    inverted: bool, source: seq<Block>, diffs: seq<Diff>, cells: Cells, address: nat, h: nat, found: Option<Key>)
    requires Encoded(inverted, source, diffs) && Holds(cells, source, h)
    requires IsSeek(AccountKeys(cells), inverted, AccountKey(inverted, address, h), found)
    ensures AccountRead(cells, address, found) == AccountAfter(diffs, address, h)
  {
    hide Versioned, Truth, HoldsBlock, AccountAfter, AccountSaid, IsSeek, VersionKey, Encoded, AccountKey;
    EncodedSize(inverted, source, diffs);
    LoadedKeysVersioned(inverted, source, diffs, cells);
    KeysAreVersions(inverted, address, 0, h);
    SeekFindsLatest(AccountKeys(cells), inverted, |source|, address, h, found);
    forall m: nat | m <= h
      ensures VersionKey(inverted, address, m) in AccountKeys(cells) <==> AccountSaid(diffs[m], address).Some?
    {
      AccountVersion(inverted, source, diffs, cells, address, m);
    }
    if found.Some? && found.value / TWO_256 == address {
      var n: nat :| IsLatest(AccountKeys(cells), inverted, address, h, n) &&
        found.value == VersionKey(inverted, address, n);
      AccountVersion(inverted, source, diffs, cells, address, n);
      AccountLatest(diffs, address, h, n);
    } else {
      AccountUnsaid(diffs, address, h);
    }
  }

  /** The same for a slot. */
  lemma SlotReadIsReplay(
    inverted: bool, source: seq<Block>, diffs: seq<Diff>, cells: Cells, address: nat, slot: nat, h: nat,
    found: Option<Key>)
    requires Encoded(inverted, source, diffs) && Holds(cells, source, h) && slot < TWO_256
    requires IsSeek(SlotKeys(cells), inverted, SlotKey(inverted, address, slot, h), found)
    ensures SlotRead(cells, address, slot, found) == SlotAfter(diffs, address, slot, h)
  {
    var prefix := address * TWO_256 + slot;
    hide Versioned, Truth, HoldsBlock, SlotAfter, SlotSaid, IsSeek, VersionKey, Encoded, SlotKey;
    EncodedSize(inverted, source, diffs);
    LoadedKeysVersioned(inverted, source, diffs, cells);
    KeysAreVersions(inverted, address, slot, h);
    SeekFindsLatest(SlotKeys(cells), inverted, |source|, prefix, h, found);
    forall m: nat | m <= h
      ensures VersionKey(inverted, prefix, m) in SlotKeys(cells) <==> SlotSaid(diffs[m], address, slot).Some?
    {
      SlotVersion(inverted, source, diffs, cells, address, slot, m);
    }
    if found.Some? && found.value / TWO_256 == prefix {
      var n: nat :| IsLatest(SlotKeys(cells), inverted, prefix, h, n) && found.value == VersionKey(inverted, prefix, n);
      SlotVersion(inverted, source, diffs, cells, address, slot, n);
      SlotLatest(diffs, address, slot, h, n);
    } else {
      SlotUnsaid(diffs, address, slot, h);
    }
  }

  // ----- At every moment of a load -----

  /**
   * At every moment of every history of a load, and after a crash at that moment, reading any account or slot at any
   * height below the watermark gives what replaying the state diffs to that height gives.
   */
  lemma LoadReadsReplay(
    c: I.Config, states: seq<I.State>, steps: seq<I.Step>, keep: nat, inverted: bool, diffs: seq<Diff>,
    address: nat, slot: nat, h: nat, account: Option<Key>, storage: Option<Key>)
    requires I.GoodConfig(c) && I.History(c, states, steps) && Encoded(inverted, c.source, diffs)
    requires var s := states[|steps|].store; s.synced <= keep <= |s.log|
    requires h < states[|steps|].run.mark && h < |diffs| && slot < TWO_256
    requires var cells := I.Contents(I.Crashed(states[|steps|].store, keep));
      && IsSeek(AccountKeys(cells), inverted, AccountKey(inverted, address, h), account)
      && IsSeek(SlotKeys(cells), inverted, SlotKey(inverted, address, slot, h), storage)
    ensures var cells := I.Contents(I.Crashed(states[|steps|].store, keep));
      && AccountRead(cells, address, account) == AccountAfter(diffs, address, h)
      && SlotRead(cells, address, slot, storage) == SlotAfter(diffs, address, slot, h)
  {
    hide I.GoodConfig, I.Contents, I.StartBlock, I.LogLatest, I.Next, I.Enabled, Encoded, IsSeek, Truth, HoldsBlock;
    hide AccountRead, SlotRead, AccountAfter, SlotAfter, AccountKeys, SlotKeys, AccountKey, SlotKey;
    I.CrashSafety(c, states, steps, keep);
    var cells := I.Contents(I.Crashed(states[|steps|].store, keep));
    AccountReadIsReplay(inverted, c.source, diffs, cells, address, h, account);
    SlotReadIsReplay(inverted, c.source, diffs, cells, address, slot, h, storage);
  }
}
