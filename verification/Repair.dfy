/** Archives as maps from versions to values, what the deleted-storage repair should make
    them read, and the plan that achieves it. Nothing here knows how keys are laid out. */
module RepairSpec {
  import opened Bytes

  /** 32 bytes: a hashed address, a slot, a code hash or a storage value. */
  type word = u256

  datatype Contract = Contract(codeHash: word, nonce: u64)

  /** An account version; `None` is a deletion. */
  type Live = Option<Contract>

  type Entry = (word, word, u64)

  datatype Archive = Archive(accounts: map<(word, u64), Live>, storage: map<Entry, word>)

  /** Chain rules for contracts destroyed and created again within one block. */
  datatype Recreations = Recreations(before: u64, upgradable: set<word>)

  /** The greatest element of `versions` at or below `h`. */
  function Latest(versions: set<u64>, h: nat): (b: Option<u64>)
    ensures b.None? <==> forall x :: x in versions ==> x > h
    ensures b.Some? ==> b.value in versions && b.value <= h && forall x :: x in versions && x <= h ==> x <= b.value
  {
    if h in versions then Some(h) else if h == 0 then None else Latest(versions, h - 1)
  }

  function SlotVersions(a: Archive, address: word, slot: word): set<u64> {
    set k | k in a.storage && k.0 == address && k.1 == slot :: k.2
  }

  function AccountVersions(a: Archive, address: word): set<u64> {
    set k | k in a.accounts && k.0 == address :: k.1
  }

  /** What the archive returns for a slot at a height: its latest version, or zero. */
  function Read(a: Archive, address: word, slot: word, h: nat): word {
    var b := Latest(SlotVersions(a, address, slot), h);
    if b.None? then 0 else a.storage[(address, slot, b.value)]
  }

  predicate Deleted(a: Archive, address: word, b: nat) {
    b <= U64_MAX && (address, b) in a.accounts && a.accounts[(address, b)].None?
  }

  /** `between`: from `older` to `newer` by being destroyed and created again in block `b`. */
  predicate Between(rec: Recreations, address: word, older: Live, b: u64, newer: Live) {
    && older.Some? && newer.Some?
    && b < rec.before && address !in rec.upgradable
    && (newer.value.codeHash != older.value.codeHash || newer.value.nonce < older.value.nonce)
  }

  predicate Recreated(a: Archive, rec: Option<Recreations>, address: word, b: nat) {
    && rec.Some? && 0 < b <= U64_MAX && (address, b) in a.accounts
    && var p := Latest(AccountVersions(a, address), b - 1);
       p.Some? && Between(rec.value, address, a.accounts[(address, p.value)], b, a.accounts[(address, b)])
  }

  /** The slot after the first `n` blocks: a destroy-and-recreate zeroes it before the block's
      own writes, a deletion after them. */
  function Replay(a: Archive, rec: Option<Recreations>, address: word, slot: word, n: nat): word {
    if n == 0 then 0
    else
      var b := n - 1;
      var before := if Recreated(a, rec, address, b) then 0 else Replay(a, rec, address, slot, b);
      var written := if b <= U64_MAX && (address, slot, b) in a.storage then a.storage[(address, slot, b)] else before;
      if Deleted(a, address, b) then 0 else written
  }

  /** A zero is planned at `d` for a slot that was non-zero then, unless a recreating block wrote it itself. */
  predicate Planned(a: Archive, rec: Option<Recreations>, address: word, slot: word, d: u64) {
    && (Deleted(a, address, d) || Recreated(a, rec, address, d))
    && var b := Latest(SlotVersions(a, address, slot), d);
       b.Some? && !(Recreated(a, rec, address, d) && b.value == d) && a.storage[(address, slot, b.value)] != 0
  }

  function Plan(a: Archive, rec: Option<Recreations>): (plan: set<Entry>)
    ensures forall address: word, slot: word, d: u64 :: (address, slot, d) in plan <==>
      Planned(a, rec, address, slot, d)
  {
    var plan := set k, s | k in a.accounts && s in a.storage && k.0 == s.0 &&
      Planned(a, rec, k.0, s.1, k.1) :: (k.0, s.1, k.1);
    assert forall address: word, slot: word, d: u64 :: Planned(a, rec, address, slot, d) ==>
      (address, slot, d) in plan by {
      forall address: word, slot: word, d: u64 | Planned(a, rec, address, slot, d)
        ensures (address, slot, d) in plan
      {
        var b := Latest(SlotVersions(a, address, slot), d);
        assert (address, d) in a.accounts && (address, slot, b.value) in a.storage;
      }
    }
    plan
  }

  function Zeroed(a: Archive, entries: set<Entry>): Archive {
    a.(storage := a.storage + map e | e in entries :: 0)
  }

  lemma ZeroedVersions(a: Archive, entries: set<Entry>, address: word, slot: word)
    ensures forall d: u64 :: d in SlotVersions(Zeroed(a, entries), address, slot)
                             <==> d in SlotVersions(a, address, slot) || (address, slot, d) in entries
  {
    forall d: u64
      ensures d in SlotVersions(Zeroed(a, entries), address, slot)
              <==> d in SlotVersions(a, address, slot) || (address, slot, d) in entries
    {
      var k := (address, slot, d);
      assert d in SlotVersions(Zeroed(a, entries), address, slot) <==> k in Zeroed(a, entries).storage;
      assert d in SlotVersions(a, address, slot) <==> k in a.storage;
    }
  }

  /** Added zeros either hide the latest version or leave it the latest. */
  lemma ZeroOrOriginal(a: Archive, entries: set<Entry>, address: word, slot: word, h: nat)
    ensures var b := Latest(SlotVersions(Zeroed(a, entries), address, slot), h);
            (b.Some? && (address, slot, b.value) in entries && Read(Zeroed(a, entries), address, slot, h) == 0)
            || (b == Latest(SlotVersions(a, address, slot), h)
                && Read(Zeroed(a, entries), address, slot, h) == Read(a, address, slot, h))
  {
    ZeroedVersions(a, entries, address, slot);
  }

  /** Between two heights with no version in (h - 1, h], a read does not change. */
  lemma ReadUnchanged(a: Archive, address: word, slot: word, h: nat)
    requires h == 0 || h > U64_MAX || (address, slot, h) !in a.storage
    ensures h > 0 ==> Read(a, address, slot, h) == Read(a, address, slot, h - 1)
    ensures h == 0 && (address, slot, h) !in a.storage ==> Read(a, address, slot, h) == 0
  {
    assert h <= U64_MAX && h in SlotVersions(a, address, slot) ==> (address, slot, h) in a.storage;
  }

  /** At a deletion or recreation the repaired slot is zero, unless the recreating block wrote it. */
  lemma RepairedAtDeletion(a: Archive, rec: Option<Recreations>, address: word, slot: word, h: u64)
    requires Deleted(a, address, h) || Recreated(a, rec, address, h)
    ensures Read(Zeroed(a, Plan(a, rec)), address, slot, h) ==
            if Recreated(a, rec, address, h) && (address, slot, h) in a.storage
            then a.storage[(address, slot, h)] else 0
  {
    var entries := Plan(a, rec);
    var z := Zeroed(a, entries);
    ZeroOrOriginal(a, entries, address, slot, h);
    ZeroedVersions(a, entries, address, slot);
    assert (address, slot, h) in a.storage <==> h in SlotVersions(a, address, slot);
    if Planned(a, rec, address, slot, h) {
      assert (address, slot, h) in entries;
    }
  }

  /** Elsewhere the repaired slot is what the block wrote, or what it was before. */
  lemma RepairedElsewhere(a: Archive, rec: Option<Recreations>, address: word, slot: word, h: nat)
    requires !Deleted(a, address, h) && !Recreated(a, rec, address, h)
    ensures Read(Zeroed(a, Plan(a, rec)), address, slot, h) ==
            if h <= U64_MAX && (address, slot, h) in a.storage then a.storage[(address, slot, h)]
            else if h == 0 then 0
            else Read(Zeroed(a, Plan(a, rec)), address, slot, h - 1)
  {
    hide Deleted, Recreated;
    var z := Zeroed(a, Plan(a, rec));
    assert h <= U64_MAX ==> (address, slot, h) !in Plan(a, rec);
    if h <= U64_MAX && (address, slot, h) in a.storage {
      assert h in SlotVersions(z, address, slot);
    } else {
      ReadUnchanged(z, address, slot, h);
    }
  }

  /** After the repair every slot reads, at every height, what the block-by-block replay gives. */
  lemma {:induction false} RepairedReadsReplay(a: Archive, rec: Option<Recreations>, address: word, slot: word, h: nat)
    ensures Read(Zeroed(a, Plan(a, rec)), address, slot, h) == Replay(a, rec, address, slot, h + 1)
  {
    hide Read, Zeroed, Plan;
    if Deleted(a, address, h) || Recreated(a, rec, address, h) {
      RepairedAtDeletion(a, rec, address, slot, h);
    } else {
      RepairedElsewhere(a, rec, address, slot, h);
      if h > 0 { RepairedReadsReplay(a, rec, address, slot, h - 1); }
    }
  }

  lemma AccountsUntouched(a: Archive, entries: set<Entry>, rec: Option<Recreations>, address: word, b: nat)
    ensures Deleted(Zeroed(a, entries), address, b) == Deleted(a, address, b)
    ensures Recreated(Zeroed(a, entries), rec, address, b) == Recreated(a, rec, address, b)
  {
    assert AccountVersions(Zeroed(a, entries), address) == AccountVersions(a, address);
  }

  lemma PlannedOnce(a: Archive, rec: Option<Recreations>, address: word, slot: word, d: u64)
    ensures !Planned(Zeroed(a, Plan(a, rec)), rec, address, slot, d)
  {
    hide Plan, Recreated, Deleted;
    var z := Zeroed(a, Plan(a, rec));
    AccountsUntouched(a, Plan(a, rec), rec, address, d);
    if Planned(z, rec, address, slot, d) {
      assert d in SlotVersions(z, address, slot) <==> (address, slot, d) in z.storage;
      RepairedAtDeletion(a, rec, address, slot, d);
    }
  }

  /** Scanning a repaired archive again plans nothing. */
  lemma RepairIsComplete(a: Archive, rec: Option<Recreations>)
    ensures Plan(Zeroed(a, Plan(a, rec)), rec) == {}
  {
    var z := Zeroed(a, Plan(a, rec));
    forall address: word, slot: word, d: u64
      ensures !Planned(z, rec, address, slot, d)
    {
      PlannedOnce(a, rec, address, slot, d);
    }
    assert forall e :: e in Plan(z, rec) ==> Planned(z, rec, e.0, e.1, e.2);
  }

  /** Zeros already written by an interrupted apply do not change what the replay gives. */
  lemma {:induction false} ReplayIgnoresPartialApply(
    a: Archive, rec: Option<Recreations>, done: set<Entry>, address: word, slot: word, n: nat)
    requires done <= Plan(a, rec)
    ensures Replay(Zeroed(a, done), rec, address, slot, n) == Replay(a, rec, address, slot, n)
  {
    hide Plan, Recreated, Deleted;
    if n > 0 {
      var b := n - 1;
      ReplayIgnoresPartialApply(a, rec, done, address, slot, b);
      AccountsUntouched(a, done, rec, address, b);
      if b <= U64_MAX && (address, slot, b) in done {
        assert Planned(a, rec, address, slot, b);
        assert b in SlotVersions(a, address, slot) <==> (address, slot, b) in a.storage;
      }
    }
  }

  /** An apply interrupted after any part of the plan, then scanned and applied again, still
      leaves every slot reading as the replay of the original archive. */
  lemma InterruptedRepair(a: Archive, rec: Option<Recreations>, done: set<Entry>, address: word, slot: word, h: nat)
    requires done <= Plan(a, rec)
    ensures var z := Zeroed(a, done);
            Read(Zeroed(z, Plan(z, rec)), address, slot, h) == Replay(a, rec, address, slot, h + 1)
  {
    hide Plan, Read, Zeroed;
    RepairedReadsReplay(Zeroed(a, done), rec, address, slot, h);
    ReplayIgnoresPartialApply(a, rec, done, address, slot, h + 1);
  }
}

/** What can happen to an account inside one block, and what of it two consecutive versions show. */
module AccountLives {
  import opened Bytes
  import opened RepairSpec

  /** The hash of no code. */
  const EMPTY_CODE: word := 0xC5D2_4601_86F7_233C_927E_7DB2_DCC7_03C0_E500_B653_CA82_273B_7BFA_D804_5D85_A470

  /** `Recoded` changes the code of a contract that lives on. */
  datatype Event = Raised(amount: nat) | Destroyed | Created(code: word, nonce: u64) | Recoded(code: word)

  /** An account that only holds a balance: a contract may still be created at its address. */
  predicate Blank(c: Contract) {
    c.codeHash == EMPTY_CODE && c.nonce == 0
  }

  /** The chain's rules: contracts are destroyed only before block `rec.before`, start with nonce 0 or 1, and change
      their code in place only if they are upgradable or from that block on. */
  predicate Allowed(rec: Recreations, address: word, b: u64, live: Live, e: Event) {
    match e
    case Raised(amount) => live.Some? && live.value.nonce + amount <= U64_MAX
    case Destroyed => live.Some? && b < rec.before
    case Created(_, nonce) => (live.None? || Blank(live.value)) && nonce <= 1
    case Recoded(_) => live.Some? && (address in rec.upgradable || rec.before <= b)
  }

  function Then(rec: Recreations, address: word, b: u64, live: Live, e: Event): Live
    requires Allowed(rec, address, b, live, e)
  {
    match e
    case Raised(amount) => Some(live.value.(nonce := live.value.nonce + amount))
    case Destroyed => None
    case Created(code, nonce) => Some(Contract(code, nonce))
    case Recoded(code) => Some(live.value.(codeHash := code))
  }

  /** The events of one block lead from one version of the account to the next. */
  predicate Leads(rec: Recreations, address: word, b: u64, older: Live, events: seq<Event>, newer: Live)
    decreases |events|
  {
    if events == [] then newer == older
    else
      && Allowed(rec, address, b, older, events[0])
      && Leads(rec, address, b, Then(rec, address, b, older, events[0]), events[1..], newer)
  }

  /** Block `b` wrote a version of the account, and these are its events. */
  predicate Records(a: Archive, rec: Recreations, address: word, b: u64, events: seq<Event>) {
    && 0 < b && (address, b) in a.accounts
    && var p := Latest(AccountVersions(a, address), b - 1);
       p.Some? && Leads(rec, address, b, a.accounts[(address, p.value)], events, a.accounts[(address, b)])
  }

  function Previous(a: Archive, rec: Recreations, address: word, b: u64, events: seq<Event>): Live
    requires Records(a, rec, address, b, events)
  {
    a.accounts[(address, Latest(AccountVersions(a, address), b - 1).value)]
  }

  /** A contract that is not destroyed keeps its code, where code does not change in place, and its nonce only grows. */
  lemma {:induction false} LivingContract(
    rec: Recreations, address: word, b: u64, older: Live, events: seq<Event>, newer: Live)
    requires Leads(rec, address, b, older, events, newer) && Destroyed !in events
    requires older.Some? && !Blank(older.value) && address !in rec.upgradable && b < rec.before
    ensures newer.Some? && newer.value.codeHash == older.value.codeHash && newer.value.nonce >= older.value.nonce
    decreases |events|
  {
    if events != [] {
      LivingContract(rec, address, b, Then(rec, address, b, older, events[0]), events[1..], newer);
    }
  }

  lemma {:induction false} LivesOn(
    rec: Recreations, address: word, b: u64, older: Live, events: seq<Event>, newer: Live)
    requires Leads(rec, address, b, older, events, newer) && Destroyed !in events && older.Some?
    ensures newer.Some?
    decreases |events|
  {
    if events != [] {
      LivesOn(rec, address, b, Then(rec, address, b, older, events[0]), events[1..], newer);
    }
  }

  /** A block that destroys nothing is not taken for one that destroys and creates again. */
  lemma LivingIsNotRecreated(a: Archive, rec: Recreations, address: word, b: u64, events: seq<Event>)
    requires Records(a, rec, address, b, events) && Destroyed !in events
    requires var older := Previous(a, rec, address, b, events); older.Some? && !Blank(older.value)
    ensures !Recreated(a, Some(rec), address, b)
  {
    if address !in rec.upgradable && b < rec.before {
      LivingContract(rec, address, b, Previous(a, rec, address, b, events), events, a.accounts[(address, b)]);
    }
  }

  /**
   * The repair leaves the storage of living accounts alone: where a block destroys nothing and does not write a slot,
   * the slot reads after the repair what it read one block earlier. An account without code has no storage.
   */
  lemma LivingKeepsStorage(a: Archive, rec: Recreations, address: word, slot: word, b: u64, events: seq<Event>)
    requires Records(a, rec, address, b, events) && Destroyed !in events && (address, slot, b) !in a.storage
    requires Previous(a, rec, address, b, events).Some?
    requires Blank(Previous(a, rec, address, b, events).value) ==>
      Read(Zeroed(a, Plan(a, Some(rec))), address, slot, b - 1) == 0
    ensures Read(Zeroed(a, Plan(a, Some(rec))), address, slot, b) ==
      Read(Zeroed(a, Plan(a, Some(rec))), address, slot, b - 1)
  {
    hide Plan, Zeroed, Read;
    RepairedReadsReplay(a, Some(rec), address, slot, b);
    RepairedReadsReplay(a, Some(rec), address, slot, b - 1);
    LivesOn(rec, address, b, Previous(a, rec, address, b, events), events, a.accounts[(address, b)]);
    if !Blank(Previous(a, rec, address, b, events).value) {
      LivingIsNotRecreated(a, rec, address, b, events);
    }
  }

  lemma {:induction false} DestroyedBefore(
    rec: Recreations, address: word, b: u64, older: Live, events: seq<Event>, newer: Live)
    requires Leads(rec, address, b, older, events, newer) && Destroyed in events
    ensures b < rec.before
    decreases |events|
  {
    if events[0] != Destroyed {
      DestroyedBefore(rec, address, b, Then(rec, address, b, older, events[0]), events[1..], newer);
    }
  }

  /** A contract destroyed and created again in one block is seen exactly when the versions on both sides differ in
      code or the nonce fell, and its code does not change in place. */
  lemma DestructionIsSeen(a: Archive, rec: Recreations, address: word, b: u64, events: seq<Event>)
    requires Records(a, rec, address, b, events) && Destroyed in events
    requires Previous(a, rec, address, b, events).Some? && a.accounts[(address, b)].Some?
    ensures var older, newer := Previous(a, rec, address, b, events).value, a.accounts[(address, b)].value;
      Recreated(a, Some(rec), address, b) <==>
        address !in rec.upgradable && !(newer.codeHash == older.codeHash && newer.nonce >= older.nonce)
  {
    DestroyedBefore(rec, address, b, Previous(a, rec, address, b, events), events, a.accounts[(address, b)]);
  }

  /** The archive of a contract that block 9 destroys and creates again with the same code and nonce. */
  function SameAgain(): Archive {
    Archive(map[(1, 5) := Some(Contract(7, 1)), (1, 9) := Some(Contract(7, 1))], map[(1, 2, 5) := 3])
  }

  lemma SameAgainVersions()
    ensures Latest(AccountVersions(SameAgain(), 1), 8) == Some(5)
    ensures Latest(SlotVersions(SameAgain(), 1, 2), 9) == Some(5)
  {
    hide Latest;
    assert (1, 5) in SameAgain().accounts && 5 in AccountVersions(SameAgain(), 1);
    assert (1, 2, 5) in SameAgain().storage && 5 in SlotVersions(SameAgain(), 1, 2);
  }

  lemma SameAgainIsUnseen(rec: Recreations, address: word, b: u64)
    ensures !Recreated(SameAgain(), Some(rec), address, b) && !Deleted(SameAgain(), address, b)
  {
  }

  /** Its destruction leaves no trace in the versions, so its slot keeps the value it had. */
  lemma UnseenDestruction()
    ensures var rec := Recreations(100, {});
      && Records(SameAgain(), rec, 1, 9, [Destroyed, Created(7, 1)])
      && !Recreated(SameAgain(), Some(rec), 1, 9)
      && Read(Zeroed(SameAgain(), Plan(SameAgain(), Some(rec))), 1, 2, 9) == 3
  {
    hide Recreated, Deleted, Latest;
    var a, rec := SameAgain(), Recreations(100, {});
    SameAgainVersions();
    assert Leads(rec, 1, 9, None, [Created(7, 1)], Some(Contract(7, 1)));
    assert [Destroyed, Created(7, 1)][1..] == [Created(7, 1)];
    forall address: word, d: u64
      ensures !Recreated(a, Some(rec), address, d) && !Deleted(a, address, d)
    {
      SameAgainIsUnseen(rec, address, d);
    }
    assert Plan(a, Some(rec)) == {};
    assert Zeroed(a, {}) == a by { assert a.storage + map[] == a.storage; }
  }
}

/** The scan: iterators over sorted rows in either key encoding, and the plan they yield. */
module RepairScan {
  import opened Bytes
  import opened BigEndian
  import opened RepairSpec
  import A = ArchiveBlocks

  // ----- Keys -----

  function EncodeVersion(inverted: bool, block: u64): u64 {
    if inverted then U64_MAX - block else block
  }

  function DecodeVersion(inverted: bool, raw: u64): u64 {
    if inverted then U64_MAX - raw else raw
  }

  /** In the inverted encoding every byte of the block number is complemented. */
  lemma VersionBytes(inverted: bool, block: u64)
    ensures forall k :: 0 <= k < 8 ==>
      ToBytes(EncodeVersion(inverted, block), 8)[k] ==
        if inverted then 255 - ToBytes(block, 8)[k] else ToBytes(block, 8)[k]
  {
    hide ToBytes, Pow256;
    Widths();
    ComplementBytes(block, 8);
  }

  lemma VersionRoundTrip(inverted: bool, block: u64)
    ensures DecodeVersion(inverted, EncodeVersion(inverted, block)) == block
  {
  }

  /** A storage key as laid out: address, slot, version tail. */
  function KeyOf(inverted: bool, e: Entry): Entry {
    (e.0, e.1, EncodeVersion(inverted, e.2))
  }

  /** Byte order of the three fields. */
  predicate KeyLess(x: Entry, y: Entry) {
    x.0 < y.0 || (x.0 == y.0 && (x.1 < y.1 || (x.1 == y.1 && x.2 < y.2)))
  }

  lemma KeyParts(inverted: bool, x: Entry)
    ensures A.SlotKey(inverted, x.0, x.1, x.2) == (x.0 * A.TWO_256 + x.1) * A.TWO_256 + EncodeVersion(inverted, x.2)
    ensures A.AccountKey(inverted, x.0, x.2) == x.0 * A.TWO_256 + EncodeVersion(inverted, x.2)
  {
  }

  /** The order of the fields is the order of the encoded keys. */
  lemma KeyOrder(inverted: bool, x: Entry, y: Entry)
    ensures KeyLess(KeyOf(inverted, x), KeyOf(inverted, y)) <==>
      A.SlotKey(inverted, x.0, x.1, x.2) < A.SlotKey(inverted, y.0, y.1, y.2)
  {
    hide A.SlotKey;
    KeyParts(inverted, x);
    KeyParts(inverted, y);
  }

  ghost predicate Sorted(inverted: bool, rows: seq<Entry>) {
    forall i, j :: 0 <= i < j < |rows| ==> KeyLess(KeyOf(inverted, rows[i]), KeyOf(inverted, rows[j]))
  }

  /** `rows` are the storage versions of `a`, in the order of their keys. */
  ghost predicate StorageListing(a: Archive, inverted: bool, rows: seq<Entry>) {
    && Sorted(inverted, rows)
    && forall e :: e in a.storage <==> e in rows
  }

  /** The first row at or after `key`. */
  function Seek(inverted: bool, rows: seq<Entry>, key: Entry): (r: nat)
    ensures r <= |rows|
    ensures forall i :: 0 <= i < r ==> KeyLess(KeyOf(inverted, rows[i]), key)
    ensures r < |rows| ==> !KeyLess(KeyOf(inverted, rows[r]), key)
  {
    if rows == [] || !KeyLess(KeyOf(inverted, rows[0]), key) then 0 else 1 + Seek(inverted, rows[1..], key)
  }

  /** The row an iterator finds for a slot as of `block`: forwards if versions are inverted, backwards otherwise. */
  function FindVersion(inverted: bool, rows: seq<Entry>, address: word, slot: word, block: u64): (found: Option<nat>)
    ensures found.Some? ==> found.value < |rows| && rows[found.value].0 == address && rows[found.value].1 == slot
  {
    var key := (address, slot, EncodeVersion(inverted, block));
    var at := Seek(inverted, rows, key);
    var i := if inverted || (at < |rows| && KeyOf(inverted, rows[at]) == key) then at else at - 1;
    if 0 <= i < |rows| && rows[i].0 == address && rows[i].1 == slot then Some(i) else None
  }

  lemma RowIsVersion(a: Archive, inverted: bool, rows: seq<Entry>, i: nat)
    requires StorageListing(a, inverted, rows) && i < |rows|
    ensures rows[i] in a.storage && rows[i].2 in SlotVersions(a, rows[i].0, rows[i].1)
  {
    assert rows[i] in rows;
  }

  /** What is found is not after the height asked for. */
  lemma FoundIsNotLater(inverted: bool, rows: seq<Entry>, address: word, slot: word, d: u64)
    ensures var found := FindVersion(inverted, rows, address, slot, d);
            found.Some? ==> rows[found.value].2 <= d
  {
  }

  /** Any version of the slot at or before the height is found, or a later one is. */
  lemma FoundIsLast(inverted: bool, rows: seq<Entry>, address: word, slot: word, d: u64, i: nat)
    requires Sorted(inverted, rows)
    requires i < |rows| && rows[i].0 == address && rows[i].1 == slot && rows[i].2 <= d
    ensures var found := FindVersion(inverted, rows, address, slot, d);
            found.Some? && rows[found.value].2 >= rows[i].2
  {
    var key := (address, slot, EncodeVersion(inverted, d));
    var at := Seek(inverted, rows, key);
    if inverted {
      assert at <= i;
      if at < i { assert KeyLess(KeyOf(inverted, rows[at]), KeyOf(inverted, rows[i])); }
    } else if at < |rows| && KeyOf(inverted, rows[at]) == key {
    } else {
      assert i < at;
      if i < at - 1 { assert KeyLess(KeyOf(inverted, rows[i]), KeyOf(inverted, rows[at - 1])); }
    }
  }

  /** In both encodings the iterator lands on the slot's latest version, or on no version of it. */
  lemma FindVersionIsLatest(a: Archive, inverted: bool, rows: seq<Entry>, address: word, slot: word, d: u64)
    requires StorageListing(a, inverted, rows)
    ensures var found := FindVersion(inverted, rows, address, slot, d);
            var b := Latest(SlotVersions(a, address, slot), d);
            found.Some? == b.Some? && (found.Some? ==> rows[found.value] == (address, slot, b.value))
  {
    hide Latest, Seek, FindVersion, Sorted;
    var found := FindVersion(inverted, rows, address, slot, d);
    var b := Latest(SlotVersions(a, address, slot), d);
    if found.Some? {
      RowIsVersion(a, inverted, rows, found.value);
      FoundIsNotLater(inverted, rows, address, slot, d);
    }
    if b.Some? {
      assert (address, slot, b.value) in rows;
      var i: nat :| i < |rows| && rows[i] == (address, slot, b.value);
      FoundIsLast(inverted, rows, address, slot, d, i);
    }
  }

  // ----- One account -----

  /** One line of the plan; `again` tells that the account exists at or after `block`. */
  datatype Line = Line(address: word, slot: word, block: u64, again: bool)

  datatype Account = Account(
    address: word, deletions: seq<u64>, recreations: seq<u64>, lastLive: Option<u64>, previous: Option<(u64, Live)>)

  predicate ExistsAgain(lastLive: Option<u64>, d: u64) {
    lastLive.Some? && lastLive.value >= d
  }

  /** The deletions with `false`, then the recreations with `true`. */
  function Deaths(account: Account): (deaths: seq<(u64, bool)>)
    ensures |deaths| == |account.deletions| + |account.recreations|
    ensures forall i :: 0 <= i < |account.deletions| ==> deaths[i] == (account.deletions[i], false)
    ensures forall i :: 0 <= i < |account.recreations| ==>
      deaths[|account.deletions| + i] == (account.recreations[i], true)
  {
    seq(|account.deletions|, i requires 0 <= i < |account.deletions| => (account.deletions[i], false))
    + seq(|account.recreations|, i requires 0 <= i < |account.recreations| => (account.recreations[i], true))
  }

  ghost predicate DistinctBlocks(blocks: seq<u64>) {
    forall i, j :: 0 <= i < j < |blocks| ==> blocks[i] != blocks[j]
  }

  /** The account's blocks are gathered completely, each once, and live ones are told from dead ones. */
  ghost predicate Gathered(a: Archive, rec: Option<Recreations>, account: Account) {
    && (forall d: u64 :: d in account.deletions <==> Deleted(a, account.address, d))
    && (forall d: u64 :: d in account.recreations <==> Recreated(a, rec, account.address, d))
    && DistinctBlocks(account.deletions) && DistinctBlocks(account.recreations)
    && (forall d: u64 :: ExistsAgain(account.lastLive, d) <==>
          exists b: u64 :: b >= d && (account.address, b) in a.accounts && a.accounts[(account.address, b)].Some?)
  }

  /** The lines of one slot, in the order its account's deaths are tried. */
  function SlotLines(
    a: Archive, rec: Option<Recreations>, account: Account, slot: word, deaths: seq<(u64, bool)>): seq<Line>
  {
    if deaths == [] then []
    else
      var d := deaths[|deaths| - 1].0;
      SlotLines(a, rec, account, slot, deaths[..|deaths| - 1])
      + if Planned(a, rec, account.address, slot, d)
        then [Line(account.address, slot, d, ExistsAgain(account.lastLive, d))] else []
  }

  lemma DeathKind(a: Archive, rec: Option<Recreations>, account: Account, i: nat)
    requires Gathered(a, rec, account) && i < |Deaths(account)|
    ensures var (d, live) := Deaths(account)[i];
            (live <==> Recreated(a, rec, account.address, d)) && (live || Deleted(a, account.address, d))
  {
    var (d, live) := Deaths(account)[i];
    if i < |account.deletions| {
      assert d == account.deletions[i] && d in account.deletions;
    } else {
      assert d == account.recreations[i - |account.deletions|] && d in account.recreations;
    }
  }

  /** Try every death of the account on one slot. */
  method PlanSlot(
    a: Archive, rows: seq<Entry>, inverted: bool, account: Account, slot: word, ghost rec: Option<Recreations>)
    returns (lines: seq<Line>)
    requires StorageListing(a, inverted, rows) && Gathered(a, rec, account)
    ensures lines == SlotLines(a, rec, account, slot, Deaths(account))
  {
    hide StorageListing, Latest, FindVersion, Recreated, Deleted;
    var deaths := Deaths(account);
    lines := [];
    for i := 0 to |deaths|
      invariant lines == SlotLines(a, rec, account, slot, deaths[..i])
    {
      var (deleted, live) := deaths[i];
      assert deaths[..i + 1][..i] == deaths[..i];
      DeathKind(a, rec, account, i);
      FindVersionIsLatest(a, inverted, rows, address := account.address, slot := slot, d := deleted);
      var found := FindVersion(inverted, rows, account.address, slot, deleted);
      if found.Some? {
        RowIsVersion(a, inverted, rows, found.value);
        var key := KeyOf(inverted, rows[found.value]);
        var written := live && DecodeVersion(inverted, key.2) == deleted;
        if !written && a.storage[rows[found.value]] != 0 {
          lines := lines + [Line(account.address, slot, deleted, ExistsAgain(account.lastLive, deleted))];
        }
      }
    }
    assert deaths[..|deaths|] == deaths;
  }

  function EntryOf(line: Line): Entry {
    (line.address, line.slot, line.block)
  }

  ghost predicate Lists(lines: seq<Line>, e: Entry) {
    exists i :: 0 <= i < |lines| && EntryOf(lines[i]) == e
  }

  ghost predicate Distinct(lines: seq<Line>) {
    forall i, j :: 0 <= i < j < |lines| ==> EntryOf(lines[i]) != EntryOf(lines[j])
  }

  /** Every line's flag tells whether its account exists at or after its block. */
  ghost predicate RightFlags(a: Archive, lines: seq<Line>) {
    forall i :: 0 <= i < |lines| ==>
      (lines[i].again <==> exists b: u64 :: b >= lines[i].block && (lines[i].address, b) in a.accounts
                                            && a.accounts[(lines[i].address, b)].Some?)
  }

  lemma ListsAppend(x: seq<Line>, y: seq<Line>)
    ensures forall e :: Lists(x + y, e) <==> Lists(x, e) || Lists(y, e)
  {
    forall e
      ensures Lists(x + y, e) <==> Lists(x, e) || Lists(y, e)
    {
      if Lists(x, e) {
        var i :| 0 <= i < |x| && EntryOf(x[i]) == e;
        assert EntryOf((x + y)[i]) == e;
      } else if Lists(y, e) {
        var i :| 0 <= i < |y| && EntryOf(y[i]) == e;
        assert EntryOf((x + y)[|x| + i]) == e;
      }
    }
  }

  lemma DistinctAppend(x: seq<Line>, y: seq<Line>)
    requires Distinct(x) && Distinct(y) && forall e :: !(Lists(x, e) && Lists(y, e))
    ensures Distinct(x + y)
  {
    var z := x + y;
    forall i, j | 0 <= i < j < |z|
      ensures EntryOf(z[i]) != EntryOf(z[j])
    {
      if i < |x| <= j {
        assert Lists(x, EntryOf(z[i]));
        assert Lists(y, EntryOf(y[j - |x|]));
      }
    }
  }

  ghost predicate Tried(deaths: seq<(u64, bool)>, d: u64) {
    exists i :: 0 <= i < |deaths| && deaths[i].0 == d
  }

  lemma TriedLast(deaths: seq<(u64, bool)>)
    requires deaths != []
    ensures forall b: u64 :: Tried(deaths, b) <==> Tried(deaths[..|deaths| - 1], b) || b == deaths[|deaths| - 1].0
  {
    forall b: u64
      ensures Tried(deaths, b) <==> Tried(deaths[..|deaths| - 1], b) || b == deaths[|deaths| - 1].0
    {
      if Tried(deaths[..|deaths| - 1], b) {
        var i :| 0 <= i < |deaths| - 1 && deaths[..|deaths| - 1][i].0 == b;
        assert deaths[i].0 == b;
      }
      if Tried(deaths, b) {
        var i :| 0 <= i < |deaths| && deaths[i].0 == b;
        assert i == |deaths| - 1 || deaths[..|deaths| - 1][i].0 == b;
      }
    }
  }

  lemma FlagsAppend(a: Archive, x: seq<Line>, y: seq<Line>)
    requires RightFlags(a, x) && RightFlags(a, y)
    ensures RightFlags(a, x + y)
  {
  }

  lemma OneRightFlag(a: Archive, rec: Option<Recreations>, account: Account, slot: word, d: u64)
    requires Gathered(a, rec, account)
    ensures RightFlags(a, []) && RightFlags(a, [Line(account.address, slot, d, ExistsAgain(account.lastLive, d))])
  {
  }

  /** The lines of a slot are exactly its planned zeros among the deaths tried, each once. */
  lemma {:induction false} SlotLinesExact(
    a: Archive, rec: Option<Recreations>, account: Account, slot: word, deaths: seq<(u64, bool)>)
    requires Gathered(a, rec, account)
    requires forall i, j :: 0 <= i < j < |deaths| ==> deaths[i].0 != deaths[j].0
    ensures var lines := SlotLines(a, rec, account, slot, deaths);
            (forall e: Entry :: Lists(lines, e) <==>
               e.0 == account.address && e.1 == slot && Planned(a, rec, e.0, e.1, e.2) && Tried(deaths, e.2))
            && Distinct(lines) && RightFlags(a, lines)
    decreases |deaths|
  {
    if deaths != [] {
      hide Planned, RightFlags, ExistsAgain, Gathered, Distinct;
      var rest := deaths[..|deaths| - 1];
      var (d, live) := deaths[|deaths| - 1];
      SlotLinesExact(a, rec, account, slot, rest);
      var x := SlotLines(a, rec, account, slot, rest);
      var y := if Planned(a, rec, account.address, slot, d)
               then [Line(account.address, slot, d, ExistsAgain(account.lastLive, d))] else [];
      assert forall b: u64 :: Tried(deaths, b) <==> Tried(rest, b) || b == d by { TriedLast(deaths); }
      assert forall e :: Lists(y, e) <==> y != [] && e == (account.address, slot, d) by {
        assert y != [] ==> EntryOf(y[0]) == (account.address, slot, d);
      }
      ListsAppend(x, y);
      assert !Tried(rest, d);
      DistinctAppend(x, y);
      OneRightFlag(a, rec, account, slot, d);
      FlagsAppend(a, x, y);
    }
  }

  lemma DifferentDeaths(account: Account, i: nat, j: nat)
    requires i < j < |Deaths(account)|
    requires DistinctBlocks(account.deletions) && DistinctBlocks(account.recreations)
    ensures Deaths(account)[i] != Deaths(account)[j]
  {
    var n := |account.deletions|;
    if i >= n {
      assert account.recreations[i - n] != account.recreations[j - n];
    }
  }

  /** Every planned block of an account is one of its deaths, and no block dies twice. */
  lemma DeathsComplete(a: Archive, rec: Option<Recreations>, account: Account)
    requires Gathered(a, rec, account)
    ensures forall slot: word, d: u64 :: Planned(a, rec, account.address, slot, d) ==> Tried(Deaths(account), d)
    ensures var deaths := Deaths(account); forall i, j :: 0 <= i < j < |deaths| ==> deaths[i].0 != deaths[j].0
  {
    hide Latest;
    var deaths := Deaths(account);
    forall slot: word, d: u64 | Planned(a, rec, account.address, slot, d)
      ensures Tried(deaths, d)
    {
      if d in account.deletions {
        var i :| 0 <= i < |account.deletions| && account.deletions[i] == d;
        assert deaths[i].0 == d;
      } else {
        var i :| 0 <= i < |account.recreations| && account.recreations[i] == d;
        assert deaths[|account.deletions| + i].0 == d;
      }
    }
    forall i, j | 0 <= i < j < |deaths|
      ensures deaths[i].0 != deaths[j].0
    {
      DeathKind(a, rec, account, i);
      DeathKind(a, rec, account, j);
      DifferentDeaths(account, i, j);
    }
  }

  /** The slots of the account at or after `start`, as the iterator sees them. */
  lemma NextSlot(a: Archive, inverted: bool, rows: seq<Entry>, address: word, start: word)
    requires StorageListing(a, inverted, rows)
    ensures var at := Seek(inverted, rows, (address, start, 0));
            if at < |rows| && rows[at].0 == address
            then start <= rows[at].1
                 && forall slot: word, b: u64 :: start <= slot < rows[at].1 ==> (address, slot, b) !in a.storage
            else forall slot: word, b: u64 :: start <= slot ==> (address, slot, b) !in a.storage
  {
    var at := Seek(inverted, rows, (address, start, 0));
    forall slot: word, b: u64 | start <= slot && (address, slot, b) in a.storage
      ensures at < |rows| && rows[at].0 == address && rows[at].1 <= slot
    {
      assert (address, slot, b) in rows;
      var i: nat :| i < |rows| && rows[i] == (address, slot, b);
      assert at <= i;
      if at < i { assert KeyLess(KeyOf(inverted, rows[at]), KeyOf(inverted, rows[i])); }
    }
  }

  ghost predicate Before(from: Option<word>, slot: word) {
    from.Some? ==> slot < from.value
  }

  lemma NothingListed(a: Archive)
    ensures forall e :: !Lists([], e)
    ensures Distinct([]) && RightFlags(a, [])
  {
  }

  lemma NoDeaths(a: Archive, rec: Option<Recreations>, account: Account)
    requires Gathered(a, rec, account) && |account.deletions| + |account.recreations| == 0
    ensures forall slot: word, d: u64 :: !Planned(a, rec, account.address, slot, d)
  {
  }

  lemma OnlyStoredSlotsArePlanned(a: Archive, rec: Option<Recreations>, address: word)
    ensures forall slot: word, d: u64 :: Planned(a, rec, address, slot, d) ==>
      exists b: u64 :: (address, slot, b) in a.storage
  {
  }

  /** `account`: walk the slots of one account with seeks, planning each. */
  method PlanAccount(a: Archive, rows: seq<Entry>, inverted: bool, account: Account, ghost rec: Option<Recreations>)
    returns (lines: seq<Line>)
    requires StorageListing(a, inverted, rows) && Gathered(a, rec, account)
    ensures forall e: Entry :: Lists(lines, e) <==> e.0 == account.address && Planned(a, rec, e.0, e.1, e.2)
    ensures Distinct(lines) && RightFlags(a, lines)
  {
    hide StorageListing, Deaths, Planned, Gathered, SlotLines, Seek, RightFlags, Lists;
    lines := [];
    DeathsComplete(a, rec, account);
    NothingListed(a);
    if |account.deletions| + |account.recreations| == 0 {
      NoDeaths(a, rec, account);
      return;
    }
    var from: Option<word> := Some(0);
    while from.Some?
      invariant forall e: Entry :: Lists(lines, e) <==>
                  e.0 == account.address && Planned(a, rec, e.0, e.1, e.2) && Before(from, e.1)
      invariant Distinct(lines) && RightFlags(a, lines)
      decreases if from.Some? then U256_MAX + 1 - from.value else 0
    {
      var start := from.value;
      NextSlot(a, inverted, rows, account.address, start);
      OnlyStoredSlotsArePlanned(a, rec, account.address);
      var at := Seek(inverted, rows, (account.address, start, 0));
      if at >= |rows| || rows[at].0 != account.address { break; }
      var slot := rows[at].1;
      var more := PlanSlot(a, rows, inverted, account, slot, rec);
      SlotLinesExact(a, rec, account, slot, Deaths(account));
      ListsAppend(lines, more);
      DistinctAppend(lines, more);
      FlagsAppend(a, lines, more);
      lines := lines + more;
      from := if slot == U256_MAX then None else Some(slot + 1);
    }
  }

  // ----- One shard -----

  type Version = (word, u64)

  predicate AccountKeyLess(inverted: bool, x: Version, y: Version) {
    x.0 < y.0 || (x.0 == y.0 && EncodeVersion(inverted, x.1) < EncodeVersion(inverted, y.1))
  }

  lemma AccountKeyOrder(inverted: bool, x: Version, y: Version)
    ensures AccountKeyLess(inverted, x, y) <==> A.AccountKey(inverted, x.0, x.1) < A.AccountKey(inverted, y.0, y.1)
  {
    hide A.AccountKey;
    KeyParts(inverted, (x.0, 0, x.1));
    KeyParts(inverted, (y.0, 0, y.1));
  }

  /** `rows` are the account versions of `a`, in the order of their keys. */
  ghost predicate AccountListing(a: Archive, inverted: bool, rows: seq<Version>) {
    && (forall i, j :: 0 <= i < j < |rows| ==> AccountKeyLess(inverted, rows[i], rows[j]))
    && forall v :: v in a.accounts <==> v in rows
  }

  /** One version of the account goes by. Versions come oldest first, or newest first if inverted. */
  function Absorb(inverted: bool, rec: Option<Recreations>, account: Account, block: u64, live: Live): Account {
    var deletions := if live.None? then account.deletions + [block] else account.deletions;
    var lastLive := if live.None? || ExistsAgain(account.lastLive, block) then account.lastLive else Some(block);
    if rec.None? then account.(deletions := deletions, lastLive := lastLive)
    else
      var recreations :=
        if account.previous.None? then account.recreations
        else
          var (seenBlock, seen) := account.previous.value;
          var (older, newerBlock, newer) := if inverted then (live, seenBlock, seen) else (seen, block, live);
          if Between(rec.value, account.address, older, newerBlock, newer) then account.recreations + [newerBlock]
          else account.recreations;
      Account(account.address, deletions, recreations, lastLive, Some((block, live)))
  }

  /** The account after the versions `rows[lo..hi]` have gone by. */
  function Gather(a: Archive, inverted: bool, rec: Option<Recreations>, rows: seq<Version>, lo: nat, hi: nat): Account
    requires lo < |rows| && lo <= hi <= |rows|
    requires forall i :: lo <= i < hi ==> rows[i] in a.accounts
  {
    if hi == lo then Account(rows[lo].0, [], [], None, None)
    else Absorb(inverted, rec, Gather(a, inverted, rec, rows, lo, hi - 1), rows[hi - 1].1, a.accounts[rows[hi - 1]])
  }

  /** The row holding the version before that of row `k`. */
  function Older(inverted: bool, k: int): int {
    if inverted then k + 1 else k - 1
  }

  /** Row `k` of `rows[lo..hi]` is a recreation, as told from the version before it. */
  ghost predicate RecreatedRow(
    a: Archive, inverted: bool, rec: Option<Recreations>, rows: seq<Version>, lo: nat, hi: nat, k: int)
    requires hi <= |rows| && forall i :: lo <= i < hi ==> rows[i] in a.accounts
  {
    && rec.Some? && lo <= k < hi && lo <= Older(inverted, k) < hi
    && Between(rec.value, rows[k].0, a.accounts[rows[Older(inverted, k)]], rows[k].1, a.accounts[rows[k]])
  }

  ghost predicate DeletionsAre(a: Archive, rows: seq<Version>, lo: nat, hi: nat, deletions: seq<u64>)
    requires hi <= |rows| && forall i :: lo <= i < hi ==> rows[i] in a.accounts
  {
    forall d :: d in deletions <==> exists k :: lo <= k < hi && rows[k].1 == d && a.accounts[rows[k]].None?
  }

  ghost predicate RecreationsAre(
    a: Archive, inverted: bool, rec: Option<Recreations>, rows: seq<Version>, lo: nat, hi: nat, recreations: seq<u64>)
    requires hi <= |rows| && forall i :: lo <= i < hi ==> rows[i] in a.accounts
  {
    forall d :: d in recreations <==> exists k :: RecreatedRow(a, inverted, rec, rows, lo, hi, k) && rows[k].1 == d
  }

  ghost predicate LastLiveIs(a: Archive, rows: seq<Version>, lo: nat, hi: nat, lastLive: Option<u64>)
    requires hi <= |rows| && forall i :: lo <= i < hi ==> rows[i] in a.accounts
  {
    && (lastLive.Some? ==> exists k :: lo <= k < hi && rows[k].1 == lastLive.value && a.accounts[rows[k]].Some?)
    && (forall k :: lo <= k < hi && a.accounts[rows[k]].Some? ==> ExistsAgain(lastLive, rows[k].1))
  }

  /** What is gathered part of the way, row by row. */
  ghost predicate GatheredRows(
    a: Archive, inverted: bool, rec: Option<Recreations>, rows: seq<Version>, lo: nat, hi: nat, account: Account)
    requires hi <= |rows| && forall i :: lo <= i < hi ==> rows[i] in a.accounts
  {
    && DeletionsAre(a, rows, lo, hi, account.deletions) && DistinctBlocks(account.deletions)
    && RecreationsAre(a, inverted, rec, rows, lo, hi, account.recreations) && DistinctBlocks(account.recreations)
    && LastLiveIs(a, rows, lo, hi, account.lastLive)
    && account.previous == if rec.Some? && lo < hi then Some((rows[hi - 1].1, a.accounts[rows[hi - 1]])) else None
  }

  /** Rows of one account, each of a block of its own. */
  ghost predicate Run(a: Archive, rows: seq<Version>, lo: nat, hi: nat) {
    && lo < hi <= |rows|
    && (forall i :: lo <= i < hi ==> rows[i] in a.accounts && rows[i].0 == rows[lo].0)
    && (forall i, j :: lo <= i < j < hi ==> rows[i].1 != rows[j].1)
  }

  lemma DistinctPush(blocks: seq<u64>, b: u64)
    requires DistinctBlocks(blocks) && b !in blocks
    ensures DistinctBlocks(blocks + [b])
  {
  }

  lemma GatherDeletions(
    a: Archive, inverted: bool, rec: Option<Recreations>, rows: seq<Version>, lo: nat, hi: nat, before: Account)
    requires Run(a, rows, lo, hi)
    requires DeletionsAre(a, rows, lo, hi - 1, before.deletions) && DistinctBlocks(before.deletions)
    ensures var account := Absorb(inverted, rec, before, rows[hi - 1].1, a.accounts[rows[hi - 1]]);
            DeletionsAre(a, rows, lo, hi, account.deletions) && DistinctBlocks(account.deletions)
  {
    hide Between;
    assert rows[hi - 1].1 !in before.deletions;
    DistinctPush(before.deletions, rows[hi - 1].1);
  }

  lemma GatherLastLive(
    a: Archive, inverted: bool, rec: Option<Recreations>, rows: seq<Version>, lo: nat, hi: nat, before: Account)
    requires Run(a, rows, lo, hi) && LastLiveIs(a, rows, lo, hi - 1, before.lastLive)
    ensures var account := Absorb(inverted, rec, before, rows[hi - 1].1, a.accounts[rows[hi - 1]]);
            LastLiveIs(a, rows, lo, hi, account.lastLive)
  {
    hide Between;
  }

  /** The only row that can become a recreation is the newer of the last two. */
  lemma GatherRecreations(
    a: Archive, inverted: bool, rec: Option<Recreations>, rows: seq<Version>, lo: nat, hi: nat, before: Account)
    requires Run(a, rows, lo, hi) && before.address == rows[lo].0
    requires RecreationsAre(a, inverted, rec, rows, lo, hi - 1, before.recreations) &&
      DistinctBlocks(before.recreations)
    requires before.previous ==
      if rec.Some? && lo < hi - 1 then Some((rows[hi - 2].1, a.accounts[rows[hi - 2]])) else None
    ensures var account := Absorb(inverted, rec, before, rows[hi - 1].1, a.accounts[rows[hi - 1]]);
            RecreationsAre(a, inverted, rec, rows, lo, hi, account.recreations) && DistinctBlocks(account.recreations)
  {
    var newer := if inverted then hi - 2 else hi - 1;
    assert forall k :: RecreatedRow(a, inverted, rec, rows, lo, hi, k) <==>
      RecreatedRow(a, inverted, rec, rows, lo, hi - 1, k) ||
        (k == newer && RecreatedRow(a, inverted, rec, rows, lo, hi, newer));
    var account := Absorb(inverted, rec, before, rows[hi - 1].1, a.accounts[rows[hi - 1]]);
    if RecreatedRow(a, inverted, rec, rows, lo, hi, newer) {
      assert !RecreatedRow(a, inverted, rec, rows, lo, hi - 1, newer);
      assert account.recreations == before.recreations + [rows[newer].1];
      assert rows[newer].1 !in before.recreations;
      DistinctPush(before.recreations, rows[newer].1);
    } else {
      assert account.recreations == before.recreations;
    }
  }

  lemma {:induction false} GatherRows(
    a: Archive, inverted: bool, rec: Option<Recreations>, rows: seq<Version>, lo: nat, hi: nat)
    requires lo == hi < |rows| || Run(a, rows, lo, hi)
    ensures var account := Gather(a, inverted, rec, rows, lo, hi);
            account.address == rows[lo].0 && GatheredRows(a, inverted, rec, rows, lo, hi, account)
    decreases hi
  {
    if lo < hi {
      hide DeletionsAre, RecreationsAre, LastLiveIs, DistinctBlocks;
      GatherRows(a, inverted, rec, rows, lo, hi - 1);
      var before := Gather(a, inverted, rec, rows, lo, hi - 1);
      GatherDeletions(a, inverted, rec, rows, lo, hi, before);
      GatherRecreations(a, inverted, rec, rows, lo, hi, before);
      GatherLastLive(a, inverted, rec, rows, lo, hi, before);
    }
  }

  /** All versions of one account: `rows[lo..hi]` and none outside. */
  ghost predicate WholeRun(a: Archive, inverted: bool, rows: seq<Version>, lo: nat, hi: nat) {
    && AccountListing(a, inverted, rows) && lo < hi <= |rows|
    && (forall i :: lo <= i < hi ==> rows[i].0 == rows[lo].0)
    && (lo > 0 ==> rows[lo - 1].0 != rows[lo].0) && (hi < |rows| ==> rows[hi].0 != rows[lo].0)
  }

  lemma ListingRun(a: Archive, inverted: bool, rows: seq<Version>, lo: nat, hi: nat)
    requires AccountListing(a, inverted, rows) && lo < hi <= |rows|
    requires forall i :: lo <= i < hi ==> rows[i].0 == rows[lo].0
    ensures Run(a, rows, lo, hi)
  {
    forall i, j | lo <= i < j < hi
      ensures rows[i].1 != rows[j].1
    {
      assert AccountKeyLess(inverted, rows[i], rows[j]);
    }
    assert forall i :: lo <= i < hi ==> rows[i] in rows;
  }

  lemma WholeRunVersion(a: Archive, inverted: bool, rows: seq<Version>, lo: nat, hi: nat, b: u64) returns (k: nat)
    requires WholeRun(a, inverted, rows, lo, hi) && (rows[lo].0, b) in a.accounts
    ensures lo <= k < hi && rows[k] == (rows[lo].0, b)
  {
    assert (rows[lo].0, b) in rows;
    k :| k < |rows| && rows[k] == (rows[lo].0, b);
    assert lo <= k;
    assert k < hi;
  }

  lemma OlderIsLess(a: Archive, inverted: bool, rows: seq<Version>, lo: nat, hi: nat, k: nat)
    requires WholeRun(a, inverted, rows, lo, hi) && lo <= k < hi && lo <= Older(inverted, k) < hi
    ensures rows[Older(inverted, k)].1 < rows[k].1
    ensures rows[Older(inverted, k)].1 in AccountVersions(a, rows[lo].0)
  {
    var o := Older(inverted, k);
    if inverted {
      assert AccountKeyLess(inverted, rows[k], rows[o]);
    } else {
      assert AccountKeyLess(inverted, rows[o], rows[k]);
    }
    assert rows[o] in rows && rows[o] in a.accounts;
  }

  lemma OlderBetween(a: Archive, inverted: bool, rows: seq<Version>, lo: nat, hi: nat, k: nat, i: nat)
    requires WholeRun(a, inverted, rows, lo, hi) && lo <= k < hi && lo <= i < hi && if inverted then k < i else i < k
    ensures lo <= Older(inverted, k) < hi && rows[i].1 <= rows[Older(inverted, k)].1
  {
    var o := Older(inverted, k);
    if o != i {
      if inverted {
        assert AccountKeyLess(inverted, rows[o], rows[i]);
      } else {
        assert AccountKeyLess(inverted, rows[i], rows[o]);
      }
    }
  }

  /** The row next to a version, on the older side, holds the version before it. */
  lemma OlderIsPrevious(a: Archive, inverted: bool, rows: seq<Version>, lo: nat, hi: nat, k: nat)
    requires WholeRun(a, inverted, rows, lo, hi) && lo <= k < hi && rows[k].1 > 0
    ensures var p := Latest(AccountVersions(a, rows[lo].0), rows[k].1 - 1);
            var o := Older(inverted, k);
            if lo <= o < hi then p == Some(rows[o].1) else p == None
  {
    hide Latest;
    var p := Latest(AccountVersions(a, rows[lo].0), rows[k].1 - 1);
    var o := Older(inverted, k);
    if p.Some? {
      var i := WholeRunVersion(a, inverted, rows, lo, hi, p.value);
      assert if inverted then k < i else i < k by {
        if i < k { assert AccountKeyLess(inverted, rows[i], rows[k]); }
        if k < i { assert AccountKeyLess(inverted, rows[k], rows[i]); }
      }
      OlderBetween(a, inverted, rows, lo, hi, k, i);
    }
    if lo <= o < hi { OlderIsLess(a, inverted, rows, lo, hi, k); }
  }

  lemma GatheredDeletion(
    a: Archive, inverted: bool, rec: Option<Recreations>, rows: seq<Version>, lo: nat, hi: nat, account: Account,
    d: u64)
    requires WholeRun(a, inverted, rows, lo, hi) && Run(a, rows, lo, hi)
    requires account.address == rows[lo].0 && DeletionsAre(a, rows, lo, hi, account.deletions)
    ensures d in account.deletions <==> Deleted(a, account.address, d)
  {
    hide WholeRun;
    if d in account.deletions {
      var k :| lo <= k < hi && rows[k].1 == d && a.accounts[rows[k]].None?;
      assert rows[k] == (account.address, d);
    }
    if Deleted(a, account.address, d) {
      var k := WholeRunVersion(a, inverted, rows, lo, hi, d);
    }
  }

  lemma GatheredRecreation(
    a: Archive, inverted: bool, rec: Option<Recreations>, rows: seq<Version>, lo: nat, hi: nat, account: Account,
    d: u64)
    requires WholeRun(a, inverted, rows, lo, hi) && Run(a, rows, lo, hi)
    requires account.address == rows[lo].0 && RecreationsAre(a, inverted, rec, rows, lo, hi, account.recreations)
    ensures d in account.recreations <==> Recreated(a, rec, account.address, d)
  {
    hide WholeRun, Latest, Between;
    if d in account.recreations {
      var k :| RecreatedRow(a, inverted, rec, rows, lo, hi, k) && rows[k].1 == d;
      OlderIsLess(a, inverted, rows, lo, hi, k);
      OlderIsPrevious(a, inverted, rows, lo, hi, k);
      assert rows[k] == (account.address, d) &&
        rows[Older(inverted, k)] == (account.address, rows[Older(inverted, k)].1);
    }
    if Recreated(a, rec, account.address, d) {
      var k := WholeRunVersion(a, inverted, rows, lo, hi, d);
      OlderIsPrevious(a, inverted, rows, lo, hi, k);
      assert rows[Older(inverted, k)] == (account.address, rows[Older(inverted, k)].1);
      assert RecreatedRow(a, inverted, rec, rows, lo, hi, k);
    }
  }

  lemma GatheredLastLive(
    a: Archive, inverted: bool, rec: Option<Recreations>, rows: seq<Version>, lo: nat, hi: nat, account: Account,
    d: u64)
    requires WholeRun(a, inverted, rows, lo, hi) && Run(a, rows, lo, hi)
    requires account.address == rows[lo].0 && LastLiveIs(a, rows, lo, hi, account.lastLive)
    ensures ExistsAgain(account.lastLive, d) <==>
            exists b: u64 :: b >= d && (account.address, b) in a.accounts && a.accounts[(account.address, b)].Some?
  {
    hide WholeRun;
    if ExistsAgain(account.lastLive, d) {
      var k :| lo <= k < hi && rows[k].1 == account.lastLive.value && a.accounts[rows[k]].Some?;
      assert rows[k] == (account.address, rows[k].1);
    }
    forall b: u64 | b >= d && (account.address, b) in a.accounts && a.accounts[(account.address, b)].Some?
      ensures ExistsAgain(account.lastLive, d)
    {
      var k := WholeRunVersion(a, inverted, rows, lo, hi, b);
    }
  }

  /** When all rows of an account have gone by, its deaths are gathered completely. */
  lemma GatherComplete(a: Archive, inverted: bool, rec: Option<Recreations>, rows: seq<Version>, lo: nat, hi: nat)
    requires WholeRun(a, inverted, rows, lo, hi) && Run(a, rows, lo, hi)
    ensures Gathered(a, rec, Gather(a, inverted, rec, rows, lo, hi))
  {
    hide Latest, WholeRun, Gather, Recreated, AccountListing;
    GatherRows(a, inverted, rec, rows, lo, hi);
    var account := Gather(a, inverted, rec, rows, lo, hi);
    forall d: u64
      ensures d in account.deletions <==> Deleted(a, account.address, d)
      ensures d in account.recreations <==> Recreated(a, rec, account.address, d)
      ensures ExistsAgain(account.lastLive, d) <==>
              exists b: u64 :: b >= d && (account.address, b) in a.accounts && a.accounts[(account.address, b)].Some?
    {
      GatheredDeletion(a, inverted, rec, rows, lo, hi, account, d);
      GatheredRecreation(a, inverted, rec, rows, lo, hi, account, d);
      GatheredLastLive(a, inverted, rec, rows, lo, hi, account, d);
    }
  }

  /** The first byte of a hashed address. */
  function ShardOf(address: word): (shard: nat)
    ensures shard < 256
  {
    address / 0x1_0000_0000_0000_0000_0000_0000_0000_0000_0000_0000_0000_0000_0000_0000_0000_00
  }

  lemma OneByte(b: byte)
    ensures FromBytes([b]) == b && Pow256(1) == 256
  {
  }

  lemma ShardIsFirstByte(address: word)
    ensures ShardOf(address) == ToBytes(address, 32)[0]
  {
    OneByte(ToBytes(address, 32)[0]);
    hide Pow256, ToBytes, FromBytes;
    Widths();
    FromMiddleBytes(address, 32, 0, 1);
    assert ToBytes(address, 32)[0..1] == [ToBytes(address, 32)[0]];
  }

  /** Where an iterator bounded to a shard starts. */
  function ShardStart(rows: seq<Version>, shard: nat): (r: nat)
    ensures r <= |rows|
    ensures forall i :: 0 <= i < r ==> ShardOf(rows[i].0) < shard
    ensures r < |rows| ==> ShardOf(rows[r].0) >= shard
  {
    if rows == [] || ShardOf(rows[0].0) >= shard then 0 else 1 + ShardStart(rows[1..], shard)
  }

  ghost predicate Seen(rows: seq<Version>, start: nat, lo: nat, address: word) {
    exists k :: start <= k < lo && k < |rows| && rows[k].0 == address
  }

  /** Lines for exactly the accounts of `rows[start..lo]`. */
  ghost predicate PlannedUpTo(
    a: Archive, rec: Option<Recreations>, rows: seq<Version>, start: nat, lo: nat, lines: seq<Line>)
  {
    && (forall e: Entry :: Lists(lines, e) <==> Planned(a, rec, e.0, e.1, e.2) && Seen(rows, start, lo, e.0))
    && Distinct(lines) && RightFlags(a, lines)
  }

  /** The lines of one more account join those of the accounts before it. */
  lemma PlannedUpToAppend(
    a: Archive, inverted: bool, rec: Option<Recreations>, rows: seq<Version>, start: nat, lo: nat, hi: nat,
    lines: seq<Line>, more: seq<Line>)
    requires start <= lo && WholeRun(a, inverted, rows, lo, hi) && PlannedUpTo(a, rec, rows, start, lo, lines)
    requires forall e: Entry :: Lists(more, e) <==> e.0 == rows[lo].0 && Planned(a, rec, e.0, e.1, e.2)
    requires Distinct(more) && RightFlags(a, more)
    ensures PlannedUpTo(a, rec, rows, start, hi, lines + more)
  {
    hide Planned, Lists, Distinct, RightFlags;
    forall address: word
      ensures Seen(rows, start, hi, address) <==> Seen(rows, start, lo, address) || address == rows[lo].0
    {
      if Seen(rows, start, hi, address) {
        var k :| start <= k < hi && k < |rows| && rows[k].0 == address;
        assert k < lo || rows[k].0 == rows[lo].0;
      }
    }
    forall k | start <= k < lo
      ensures rows[k].0 != rows[lo].0
    {
      assert k == lo - 1 || AccountKeyLess(inverted, rows[k], rows[lo - 1]);
      assert AccountKeyLess(inverted, rows[lo - 1], rows[lo]);
    }
    assert !Seen(rows, start, lo, rows[lo].0);
    ListsAppend(lines, more);
    DistinctAppend(lines, more);
    FlagsAppend(a, lines, more);
  }

  /** Rows of one account up to `i`, gathered, with the row before them another account's. */
  ghost predicate OpenRun(
    a: Archive, rec: Option<Recreations>, inverted: bool, rows: seq<Version>, lo: nat, i: nat, account: Account)
  {
    && lo < i <= |rows|
    && (forall k :: lo <= k < i ==> rows[k].0 == rows[lo].0 && rows[k] in a.accounts)
    && (lo > 0 ==> rows[lo - 1].0 != rows[lo].0)
    && account == Gather(a, inverted, rec, rows, lo, i) && account.address == rows[lo].0
  }

  lemma RowIsAccount(a: Archive, inverted: bool, rows: seq<Version>, i: nat)
    requires AccountListing(a, inverted, rows) && i < |rows|
    ensures rows[i] in a.accounts
  {
    assert rows[i] in rows;
  }

  lemma RunEnds(
    a: Archive, inverted: bool, rec: Option<Recreations>, rows: seq<Version>, lo: nat, i: nat, account: Account)
    requires AccountListing(a, inverted, rows) && OpenRun(a, rec, inverted, rows, lo, i, account)
    requires i == |rows| || rows[i].0 != account.address
    ensures WholeRun(a, inverted, rows, lo, i) && account.address == rows[lo].0
    ensures (forall k :: lo <= k < i ==> rows[k] in a.accounts) && account == Gather(a, inverted, rec, rows, lo, i)
    ensures i < |rows| ==> rows[i - 1].0 != rows[i].0
  {
    hide Gather;
  }

  lemma RunExtends(
    a: Archive, inverted: bool, rec: Option<Recreations>, rows: seq<Version>, lo: nat, i: nat, was: Option<Account>)
    requires AccountListing(a, inverted, rows) && lo <= i < |rows| && rows[i] in a.accounts
    requires was.None? ==> lo == i && (i > 0 ==> rows[i - 1].0 != rows[i].0)
    requires was.Some? ==> OpenRun(a, rec, inverted, rows, lo, i, was.value) && was.value.address == rows[i].0
    ensures var account := if was.None? then Account(rows[i].0, [], [], None, None) else was.value;
            var next := Absorb(inverted, rec, account, rows[i].1, a.accounts[rows[i]]);
            OpenRun(a, rec, inverted, rows, lo, i + 1, next) && next.address == rows[lo].0
  {
    hide AccountListing, Between;
    assert forall k :: lo <= k < i + 1 ==> rows[k] in a.accounts;
    if was.None? { assert Gather(a, inverted, rec, rows, lo, lo) == Account(rows[i].0, [], [], None, None); }
    assert Gather(a, inverted, rec, rows, lo, i + 1)
        == Absorb(inverted, rec, Gather(a, inverted, rec, rows, lo, i), rows[i].1, a.accounts[rows[i]]);
  }

  method PlanRun(a: Archive, storage: seq<Entry>, inverted: bool, account: Account, ghost rec: Option<Recreations>,
                 ghost rows: seq<Version>, ghost lo: nat, ghost hi: nat)
    returns (lines: seq<Line>)
    requires StorageListing(a, inverted, storage) && WholeRun(a, inverted, rows, lo, hi)
    requires forall i :: lo <= i < hi ==> rows[i] in a.accounts
    requires account == Gather(a, inverted, rec, rows, lo, hi) && account.address == rows[lo].0
    ensures forall e: Entry :: Lists(lines, e) <==> e.0 == rows[lo].0 && Planned(a, rec, e.0, e.1, e.2)
    ensures Distinct(lines) && RightFlags(a, lines)
  {
    ListingRun(a, inverted, rows, lo, hi);
    GatherComplete(a, inverted, rec, rows, lo, hi);
    hide Planned, Lists, Distinct, RightFlags, Gather, WholeRun, StorageListing;
    lines := PlanAccount(a, storage, inverted, account, rec);
  }

  lemma PlannedUpToNothing(a: Archive, rec: Option<Recreations>, rows: seq<Version>, start: nat)
    ensures PlannedUpTo(a, rec, rows, start, start, [])
  {
    NothingListed(a);
  }

  lemma ShardsAscend(a: Archive, inverted: bool, rows: seq<Version>, i: nat, j: nat)
    requires AccountListing(a, inverted, rows) && i <= j < |rows|
    ensures ShardOf(rows[i].0) <= ShardOf(rows[j].0)
  {
    if i < j { assert AccountKeyLess(inverted, rows[i], rows[j]); }
  }

  lemma ShardCovered(
    a: Archive, inverted: bool, rec: Option<Recreations>, rows: seq<Version>, shard: nat, start: nat, end: nat,
    lines: seq<Line>)
    requires AccountListing(a, inverted, rows) && PlannedUpTo(a, rec, rows, start, end, lines)
    requires start == ShardStart(rows, shard) <= end <= |rows|
    requires forall k :: start <= k < end ==> ShardOf(rows[k].0) == shard
    requires end < |rows| ==> ShardOf(rows[end].0) != shard
    ensures forall e: Entry :: Lists(lines, e) <==> ShardOf(e.0) == shard && Planned(a, rec, e.0, e.1, e.2)
    ensures Distinct(lines) && RightFlags(a, lines)
  {
    hide Lists, Distinct, RightFlags, Latest, ShardOf, ShardStart;
    forall e: Entry | ShardOf(e.0) == shard && Planned(a, rec, e.0, e.1, e.2)
      ensures Seen(rows, start, end, e.0)
    {
      assert (e.0, e.2) in rows;
      var k :| 0 <= k < |rows| && rows[k] == (e.0, e.2);
      if k >= end {
        ShardsAscend(a, inverted, rows, end, k);
        if end > start { ShardsAscend(a, inverted, rows, end - 1, end); }
      }
    }
  }

  /** `shard`: walk the account versions of one shard, planning each account when its rows end. */
  method PlanShard(
    a: Archive, accounts: seq<Version>, storage: seq<Entry>, inverted: bool, rec: Option<Recreations>, shard: nat)
    returns (lines: seq<Line>)
    requires AccountListing(a, inverted, accounts) && StorageListing(a, inverted, storage) && shard < 256
    ensures forall e: Entry :: Lists(lines, e) <==> ShardOf(e.0) == shard && Planned(a, rec, e.0, e.1, e.2)
    ensures Distinct(lines) && RightFlags(a, lines)
  {
    hide StorageListing, AccountListing, PlannedUpTo, Gathered, OpenRun, WholeRun, Lists, Planned, Absorb, Gather,
      ShardOf, Distinct, RightFlags;
    lines := [];
    var start := ShardStart(accounts, shard);
    var i := start;
    var current: Option<Account> := None;
    ghost var lo := start;
    PlannedUpToNothing(a, rec, accounts, start);
    while i < |accounts| && ShardOf(accounts[i].0) == shard
      invariant start <= lo <= i <= |accounts| && (current.None? ==> lo == i == start)
      invariant i > 0 && i < |accounts| && i == start ==> ShardOf(accounts[i - 1].0) != ShardOf(accounts[i].0)
      invariant forall k :: start <= k < i ==> ShardOf(accounts[k].0) == shard
      invariant current.Some? ==> lo < i && current.value.address == accounts[lo].0
                                  && OpenRun(a, rec, inverted, accounts, lo, i, current.value)
      invariant PlannedUpTo(a, rec, accounts, start, lo, lines)
    {
      var (address, block) := accounts[i];
      RowIsAccount(a, inverted, accounts, i);
      if current.Some? && current.value.address != address {
        RunEnds(a, inverted, rec, accounts, lo, i, current.value);
        var more := PlanRun(a, storage, inverted, current.value, rec, accounts, lo, i);
        PlannedUpToAppend(a, inverted, rec, accounts, start, lo, i, lines, more);
        lines := lines + more;
        current := None;
        lo := i;
      }
      ghost var was := current;
      if current.None? {
        current := Some(Account(address, [], [], None, None));
      }
      current := Some(Absorb(inverted, rec, current.value, block, a.accounts[accounts[i]]));
      RunExtends(a, inverted, rec, accounts, lo, i, was);
      i := i + 1;
    }
    if current.Some? {
      RunEnds(a, inverted, rec, accounts, lo, i, current.value);
      var more := PlanRun(a, storage, inverted, current.value, rec, accounts, lo, i);
      PlannedUpToAppend(a, inverted, rec, accounts, start, lo, i, lines, more);
      lines := lines + more;
    }
    ShardCovered(a, inverted, rec, accounts, shard, start, i, lines);
  }

  // ----- The whole archive -----

  /** `scan_with`: every shard in turn. The plan is the same in both encodings. */
  method Scan(a: Archive, accounts: seq<Version>, storage: seq<Entry>, inverted: bool, rec: Option<Recreations>)
    returns (lines: seq<Line>)
    requires AccountListing(a, inverted, accounts) && StorageListing(a, inverted, storage)
    ensures forall e: Entry :: Lists(lines, e) <==> e in Plan(a, rec)
    ensures Distinct(lines) && RightFlags(a, lines)
  {
    hide Plan, Planned, Lists, Distinct, RightFlags, AccountListing, StorageListing, ShardOf;
    lines := [];
    NothingListed(a);
    for shard := 0 to 256
      invariant forall e: Entry :: Lists(lines, e) <==> ShardOf(e.0) < shard && Planned(a, rec, e.0, e.1, e.2)
      invariant Distinct(lines) && RightFlags(a, lines)
    {
      var more := PlanShard(a, accounts, storage, inverted, rec, shard);
      ListsAppend(lines, more);
      DistinctAppend(lines, more);
      FlagsAppend(a, lines, more);
      lines := lines + more;
    }
    forall e: Entry
      ensures Lists(lines, e) <==> e in Plan(a, rec)
    {
      assert (e.0, e.1, e.2) in Plan(a, rec) <==> Planned(a, rec, e.0, e.1, e.2);
    }
  }

  function EntrySet(entries: seq<Entry>): set<Entry> {
    set e | e in entries
  }

  const APPLY_BATCH: nat := 100_000

  lemma InPlan(entries: seq<Entry>, plan: set<Entry>)
    requires EntrySet(entries) == plan
    ensures forall e :: e in entries <==> e in plan
  {
    assert forall e :: e in entries <==> e in EntrySet(entries);
  }

  lemma ZeroedNothing(a: Archive)
    ensures Zeroed(a, EntrySet([])) == a
  {
    assert a.storage + map[] == a.storage;
  }

  lemma ZeroedUnion(a: Archive, x: set<Entry>, y: set<Entry>)
    ensures Zeroed(Zeroed(a, x), y) == Zeroed(a, x + y)
  {
    var left, right := Zeroed(Zeroed(a, x), y).storage, Zeroed(a, x + y).storage;
    assert left.Keys == right.Keys;
    assert forall e :: e in left ==> left[e] == right[e];
  }

  lemma ZeroedTwice(a: Archive, x: seq<Entry>, y: seq<Entry>)
    ensures Zeroed(Zeroed(a, EntrySet(x)), EntrySet(y)) == Zeroed(a, EntrySet(x + y))
  {
    assert EntrySet(x + y) == EntrySet(x) + EntrySet(y);
    ZeroedUnion(a, EntrySet(x), EntrySet(y));
  }

  /** A written zero reads back as the slot's version of its own block. */
  lemma ReadsBack(a: Archive, entries: seq<Entry>, j: nat)
    requires j < |entries|
    ensures var (address, slot, block) := entries[j];
            var z := Zeroed(a, EntrySet(entries));
            Read(z, address, slot, block) == 0 && Latest(SlotVersions(z, address, slot), block) == Some(block)
  {
    var (address, slot, block) := entries[j];
    var z := Zeroed(a, EntrySet(entries));
    assert entries[j] in EntrySet(entries) && entries[j] in z.storage;
    assert block in SlotVersions(z, address, slot);
  }

  lemma EntriesArePlan(lines: seq<Line>, entries: seq<Entry>, plan: set<Entry>)
    requires forall e: Entry :: Lists(lines, e) <==> e in plan
    requires |entries| == |lines| && forall i :: 0 <= i < |lines| ==> entries[i] == EntryOf(lines[i])
    ensures EntrySet(entries) == plan
  {
    forall e: Entry
      ensures e in entries <==> e in plan
    {
      if e in entries {
        var i :| 0 <= i < |entries| && entries[i] == e;
        assert EntryOf(lines[i]) == e;
      }
      if Lists(lines, e) {
        var i :| 0 <= i < |lines| && EntryOf(lines[i]) == e;
        assert entries[i] == e;
      }
    }
  }

  class ArchiveDb {
    var archive: Archive
    /** The blocks the archive can be read at. */
    const blocks: set<u64>

    constructor (a: Archive, blocks: set<u64>)
      ensures archive == a && this.blocks == blocks
    {
      archive := a;
      this.blocks := blocks;
    }

    /** Write one batch of zeros. */
    method Commit(chunk: seq<Entry>)
      modifies this`archive
      ensures archive == Zeroed(old(archive), EntrySet(chunk))
    {
      archive := Zeroed(archive, EntrySet(chunk));
    }

    /** `apply`: write the plan in batches, then read every entry back as a zero of its block. The zeros are written
        before the first read, so only a block without state can stop it. */
    method Apply(entries: seq<Entry>) returns (ok: bool)
      modifies this`archive
      ensures archive == Zeroed(old(archive), EntrySet(entries))
      ensures ok <==> forall e :: e in entries ==> e.2 in blocks
    {
      hide Zeroed, EntrySet, Read, Latest;
      var i := 0;
      ZeroedNothing(archive);
      while i < |entries|
        invariant i <= |entries|
        invariant archive == Zeroed(old(archive), EntrySet(entries[..i]))
      {
        var n := if |entries| - i < APPLY_BATCH then |entries| - i else APPLY_BATCH;
        Commit(entries[i..i + n]);
        ZeroedTwice(old(archive), entries[..i], entries[i..i + n]);
        assert entries[..i] + entries[i..i + n] == entries[..i + n];
        i := i + n;
      }
      assert entries[..|entries|] == entries;
      for j := 0 to |entries|
        invariant archive == Zeroed(old(archive), EntrySet(entries))
        invariant forall k :: 0 <= k < j ==> entries[k].2 in blocks
      {
        var (address, slot, block) := entries[j];
        if block !in blocks {
          assert entries[j] in entries;
          return false;
        }
        ReadsBack(old(archive), entries, j);
        if Read(archive, address, slot, block) != 0 ||
          Latest(SlotVersions(archive, address, slot), block) != Some(block) {
          return false;
        }
      }
      ok := true;
    }

    /** Scan and apply: afterwards every slot reads as the replay, at every height. */
    method Repair(accounts: seq<Version>, storage: seq<Entry>, inverted: bool, rec: Option<Recreations>)
      returns (ok: bool)
      requires AccountListing(archive, inverted, accounts) && StorageListing(archive, inverted, storage)
      modifies this`archive
      ensures ok <==> forall e :: e in Plan(old(archive), rec) ==> e.2 in blocks
      ensures forall address: word, slot: word, h: nat ::
        Read(archive, address, slot, h) == Replay(old(archive), rec, address, slot, h + 1)
    {
      hide Plan, Zeroed, Read, Replay, Lists, Distinct, RightFlags, AccountListing, StorageListing;
      var lines := Scan(archive, accounts, storage, inverted, rec);
      var entries := seq(|lines|, i requires 0 <= i < |lines| => EntryOf(lines[i]));
      EntriesArePlan(lines, entries, Plan(archive, rec));
      ok := Apply(entries);
      InPlan(entries, Plan(old(archive), rec));
      forall address: word, slot: word, h: nat
        ensures Read(archive, address, slot, h) == Replay(old(archive), rec, address, slot, h + 1)
      {
        RepairedReadsReplay(old(archive), rec, address, slot, h);
      }
    }
  }
}
