/** The Managed Flash Storage record store, as its behaviour is pinned down
    by the transaction test: a store of byte records indexed by id
    1..maxRecords, living in one of two flash banks, with a generation
    counter, a count of the space the live records take, and at most one
    open transaction.

    The on-flash layout (headers, CRCs, the append-only record stream) is
    not part of this model: the store is its logical content. A record
    costs `headerSize` bytes of bank space plus its data. */
module Mfs {
  import opened Common

  type Data = seq<Byte>

  datatype Bank = Bank0 | Bank1

  datatype Error =
    | NotFound          // no record with this id
    | TooLarge          // data longer than the configured maximum
    | OutOfSpace        // the bank cannot hold the live records
    | AlreadyOpen       // a transaction is already open
    | NotOpen           // commit or rollback without an open transaction
    | TransactionOpen   // garbage collection refused during a transaction
    | TransactionOps    // more operations than the transaction reserved
    | TransactionSize   // more bytes than the transaction reserved

  datatype Result<T> = Ok(value: T) | Err(error: Error)

  /** The store's configuration. */
  datatype Config = Config(maxRecords: nat, maxDataSize: nat, headerSize: nat, capacity: nat)

  /** An open transaction: the records as the transaction sees them
      (its own writes and erases applied), and its reservation. */
  datatype Transaction = Transaction(view: seq<Option<Data>>, maxOps: nat, maxBytes: nat, ops: nat, bytes: nat)

  /** Slot `id - 1` holds record `id`. */
  datatype Store = Store(
    cfg: Config,
    bank: Bank,
    counter: nat,
    usedSpace: nat,
    slots: seq<Option<Data>>,
    txn: Option<Transaction>)

  /** The generation counter is a `uint32_t`. */
  const CounterLimit: nat := 0x1_0000_0000

  /** Bank space a slot's record takes. */
  function Cost(cfg: Config, r: Option<Data>): nat {
    match r
    case None => 0
    case Some(d) => cfg.headerSize + |d|
  }

  /** Bank space the live records take. */
  function LiveSpace(cfg: Config, slots: seq<Option<Data>>): nat
    decreases |slots|
  {
    if |slots| == 0 then 0
    else LiveSpace(cfg, slots[..|slots| - 1]) + Cost(cfg, slots[|slots| - 1])
  }

  /** Replacing one record changes the live space by the difference of
      the two records' costs. */
  lemma {:induction false} LiveSpaceUpdate(cfg: Config, slots: seq<Option<Data>>, i: nat, r: Option<Data>)
    requires i < |slots|
    ensures LiveSpace(cfg, slots[i := r]) + Cost(cfg, slots[i]) == LiveSpace(cfg, slots) + Cost(cfg, r)
    decreases |slots|
  {
    var n := |slots| - 1;
    var t := slots[i := r];
    assert t[..n] == if i < n then slots[..n][i := r] else slots[..n];
    if i < n {
      LiveSpaceUpdate(cfg, slots[..n], i, r);
    }
  }

  /** A store with no records uses no space. */
  lemma {:induction false} LiveSpaceEmpty(cfg: Config, slots: seq<Option<Data>>)
    requires forall i :: 0 <= i < |slots| ==> slots[i].None?
    ensures LiveSpace(cfg, slots) == 0
    decreases |slots|
  {
    if |slots| > 0 {
      LiveSpaceEmpty(cfg, slots[..|slots| - 1]);
    }
  }

  /** Storing a non-empty record no longer than the maximum keeps every
      record non-empty and within the maximum. */
  lemma FitsUpdate(cfg: Config, slots: seq<Option<Data>>, i: nat, r: Option<Data>)
    requires Fits(cfg, slots) && i < |slots|
    requires r.Some? ==> 0 < |r.value| <= cfg.maxDataSize
    ensures Fits(cfg, slots[i := r])
  {
  }

  /** One slot per id, and every stored record is non-empty (a zero
      length is the erase tombstone, so no record of length 0 can be
      present) and within the maximum. */
  predicate Fits(cfg: Config, slots: seq<Option<Data>>) {
    |slots| == cfg.maxRecords
    && forall i :: 0 <= i < |slots| && slots[i].Some? ==> 0 < |slots[i].value| <= cfg.maxDataSize
  }

  /** The store's invariant: the space count is the live space and fits the
      bank; an open transaction stays within its reservation, and the
      reservation fits the bank. */
  predicate Valid(s: Store) {
    Fits(s.cfg, s.slots)
    && s.counter < CounterLimit
    && s.usedSpace == LiveSpace(s.cfg, s.slots)
    && s.usedSpace <= s.cfg.capacity
    && (s.txn.Some? ==>
          var t := s.txn.value;
          Fits(s.cfg, t.view)
          && t.ops <= t.maxOps && t.bytes <= t.maxBytes
          && s.usedSpace + t.maxBytes <= s.cfg.capacity
          && LiveSpace(s.cfg, t.view) <= s.usedSpace + t.bytes)
  }

  predicate ValidId(s: Store, id: nat) {
    1 <= id <= s.cfg.maxRecords
  }

  /** The records as a read sees them: through the open transaction if
      there is one. */
  function View(s: Store): seq<Option<Data>> {
    if s.txn.Some? then s.txn.value.view else s.slots
  }

  /** The durable part of a store: what survives a remount. */
  predicate SameDurable(a: Store, b: Store) {
    a.cfg == b.cfg && a.bank == b.bank && a.counter == b.counter
    && a.usedSpace == b.usedSpace && a.slots == b.slots
  }

  /** A freshly formatted store: bank 0, no records. The counter a format
      writes is a parameter. */
  function Fresh(cfg: Config, counter: nat): (s: Store)
    requires counter < CounterLimit
    ensures s.cfg == cfg && Valid(s) && s.txn.None? && s.bank == Bank0 && s.usedSpace == 0
    ensures forall id :: 1 <= id <= cfg.maxRecords ==> Read(s, id) == Err(NotFound)
  {
    var slots := seq(cfg.maxRecords, i => None);
    LiveSpaceEmpty(cfg, slots);
    Store(cfg, Bank0, counter, 0, slots, None)
  }

  /** Reading a record: its data, or `NotFound`. */
  function Read(s: Store, id: nat): (r: Result<Data>)
    requires ValidId(s, id) && |View(s)| == s.cfg.maxRecords
    ensures r.Ok? <==> View(s)[id - 1].Some?
    ensures r.Ok? ==> View(s)[id - 1] == Some(r.value)
    ensures r.Err? ==> r.error == NotFound
  {
    match View(s)[id - 1]
    case None => Err(NotFound)
    case Some(d) => Ok(d)
  }

  /** Writing a record. Outside a transaction the write is durable at once
      and fails with `OutOfSpace` when the live records would no longer
      fit the bank; inside one it goes to the transaction and is charged
      to its reservation. The data is not empty: a record of length 0
      would be the erase tombstone. */
  function Write(s: Store, id: nat, data: Data): (r: Result<Store>)
    requires Valid(s) && ValidId(s, id) && |data| > 0
    ensures r.Ok? ==> Valid(r.value) && r.value.cfg == s.cfg
    ensures |data| > s.cfg.maxDataSize ==> r == Err(TooLarge)
    ensures s.txn.None? && |data| <= s.cfg.maxDataSize ==>
              (r.Err? <==> LiveSpace(s.cfg, s.slots[id - 1 := Some(data)]) > s.cfg.capacity)
    ensures s.txn.Some? && |data| <= s.cfg.maxDataSize ==>
              (r.Err? <==> s.txn.value.ops >= s.txn.value.maxOps
                           || s.txn.value.bytes + s.cfg.headerSize + |data| > s.txn.value.maxBytes)
    ensures r.Ok? ==> View(r.value) == View(s)[id - 1 := Some(data)]
    ensures r.Ok? ==> r.value.bank == s.bank && r.value.counter == s.counter
                      && r.value.txn.Some? == s.txn.Some?
    ensures r.Ok? && s.txn.Some? ==> SameDurable(r.value, s)
  {
    if |data| > s.cfg.maxDataSize then Err(TooLarge)
    else if s.txn.None? then
      var slots := s.slots[id - 1 := Some(data)];
      LiveSpaceUpdate(s.cfg, s.slots, id - 1, Some(data));
      FitsUpdate(s.cfg, s.slots, id - 1, Some(data));
      if LiveSpace(s.cfg, slots) > s.cfg.capacity then Err(OutOfSpace)
      else Ok(s.(slots := slots, usedSpace := LiveSpace(s.cfg, slots)))
    else
      var t := s.txn.value;
      var cost := s.cfg.headerSize + |data|;
      if t.ops >= t.maxOps then Err(TransactionOps)
      else if t.bytes + cost > t.maxBytes then Err(TransactionSize)
      else
        LiveSpaceUpdate(s.cfg, t.view, id - 1, Some(data));
        FitsUpdate(s.cfg, t.view, id - 1, Some(data));
        Ok(s.(txn := Some(t.(view := t.view[id - 1 := Some(data)], ops := t.ops + 1, bytes := t.bytes + cost))))
  }

  /** Erasing a record. Inside a transaction the erase goes to the
      transaction and a tombstone header is charged to its reservation. */
  function Erase(s: Store, id: nat): (r: Result<Store>)
    requires Valid(s) && ValidId(s, id)
    ensures r.Ok? ==> Valid(r.value) && r.value.cfg == s.cfg
    ensures View(s)[id - 1].None? ==> r == Err(NotFound)
    ensures s.txn.None? && View(s)[id - 1].Some? ==> r.Ok?
    ensures s.txn.Some? && View(s)[id - 1].Some? ==>
              (r.Err? <==> s.txn.value.ops >= s.txn.value.maxOps
                           || s.txn.value.bytes + s.cfg.headerSize > s.txn.value.maxBytes)
    ensures r.Ok? ==> View(r.value) == View(s)[id - 1 := None]
    ensures r.Ok? ==> r.value.bank == s.bank && r.value.counter == s.counter
                      && r.value.txn.Some? == s.txn.Some?
    ensures r.Ok? && s.txn.Some? ==> SameDurable(r.value, s)
  {
    if View(s)[id - 1].None? then Err(NotFound)
    else if s.txn.None? then
      var slots := s.slots[id - 1 := None];
      LiveSpaceUpdate(s.cfg, s.slots, id - 1, None);
      FitsUpdate(s.cfg, s.slots, id - 1, None);
      Ok(s.(slots := slots, usedSpace := LiveSpace(s.cfg, slots)))
    else
      var t := s.txn.value;
      if t.ops >= t.maxOps then Err(TransactionOps)
      else if t.bytes + s.cfg.headerSize > t.maxBytes then Err(TransactionSize)
      else
        LiveSpaceUpdate(s.cfg, t.view, id - 1, None);
        FitsUpdate(s.cfg, t.view, id - 1, None);
        Ok(s.(txn := Some(t.(view := t.view[id - 1 := None], ops := t.ops + 1, bytes := t.bytes + s.cfg.headerSize))))
  }

  /** Opening a transaction that may perform up to `maxOps` writes and
      erases taking up to `maxBytes` bytes of bank space. */
  function StartTransaction(s: Store, maxOps: nat, maxBytes: nat): (r: Result<Store>)
    requires Valid(s)
    ensures s.txn.Some? ==> r == Err(AlreadyOpen)
    ensures s.txn.None? ==> (r.Err? <==> s.usedSpace + maxBytes > s.cfg.capacity)
    ensures r.Ok? ==> Valid(r.value) && r.value.txn.Some? && SameDurable(r.value, s)
                      && View(r.value) == View(s)
  {
    if s.txn.Some? then Err(AlreadyOpen)
    else if s.usedSpace + maxBytes > s.cfg.capacity then Err(OutOfSpace)
    else Ok(s.(txn := Some(Transaction(s.slots, maxOps, maxBytes, 0, 0))))
  }

  /** Committing: the transaction's view becomes the store's records, all
      at once. The bank and the counter stay. */
  function Commit(s: Store): (r: Result<Store>)
    requires Valid(s)
    ensures s.txn.None? <==> r == Err(NotOpen)
    ensures r.Ok? ==> Valid(r.value) && r.value.txn.None? && r.value.cfg == s.cfg
                      && View(r.value) == View(s)
                      && r.value.bank == s.bank && r.value.counter == s.counter
  {
    if s.txn.None? then Err(NotOpen)
    else
      var view := s.txn.value.view;
      Ok(s.(slots := view, usedSpace := LiveSpace(s.cfg, view), txn := None))
  }

  /** Rolling back: the transaction's writes and erases are dropped. */
  function Rollback(s: Store): (r: Result<Store>)
    requires Valid(s)
    ensures s.txn.None? <==> r == Err(NotOpen)
    ensures r.Ok? ==> Valid(r.value) && r.value.txn.None? && SameDurable(r.value, s)
  {
    if s.txn.None? then Err(NotOpen)
    else Ok(s.(txn := None))
  }

  /** Mounting the store again (after a restart or a power loss): the
      durable records are found again and the space count is recomputed
      from them; a transaction that was not committed is gone. */
  function Remount(s: Store): (m: Store)
    requires Valid(s)
    ensures Valid(m) && m.txn.None? && SameDurable(m, s)
  {
    Store(s.cfg, s.bank, s.counter, LiveSpace(s.cfg, s.slots), s.slots, None)
  }

  function OtherBank(b: Bank): Bank {
    match b
    case Bank0 => Bank1
    case Bank1 => Bank0
  }

  /** Garbage collection: the live records are copied to the other bank,
      which becomes current with the next generation number. Refused while
      a transaction is open. */
  function GarbageCollect(s: Store): (r: Result<Store>)
    requires Valid(s)
    ensures s.txn.Some? <==> r == Err(TransactionOpen)
    ensures r.Ok? ==> Valid(r.value) && r.value.txn.None?
                      && r.value.bank != s.bank
                      && r.value.counter == (s.counter + 1) % CounterLimit
                      && r.value.usedSpace == s.usedSpace
                      && View(r.value) == View(s)
  {
    if s.txn.Some? then Err(TransactionOpen)
    else Ok(s.(bank := OtherBank(s.bank), counter := (s.counter + 1) % CounterLimit))
  }

  // ---------------------------------------------------------------------
  // Properties.

  /** A successful write is read back, and no other record changes. */
  lemma ReadAfterWrite(s: Store, id: nat, data: Data, other: nat)
    requires Valid(s) && ValidId(s, id) && ValidId(s, other) && |data| > 0
    requires Write(s, id, data).Ok?
    ensures Read(Write(s, id, data).value, id) == Ok(data)
    ensures other != id ==> Read(Write(s, id, data).value, other) == Read(s, other)
  {
  }

  /** After a successful erase the record is not found, and no other
      record changes. */
  lemma ReadAfterErase(s: Store, id: nat, other: nat)
    requires Valid(s) && ValidId(s, id) && ValidId(s, other)
    requires Erase(s, id).Ok?
    ensures Read(Erase(s, id).value, id) == Err(NotFound)
    ensures other != id ==> Read(Erase(s, id).value, other) == Read(s, other)
  {
  }

  /** With no transaction open a write fails for lack of space exactly
      when the live records plus the new one, less the record it
      replaces, exceed the bank. */
  lemma WriteSpaceAccounting(s: Store, id: nat, data: Data)
    requires Valid(s) && ValidId(s, id) && s.txn.None? && 0 < |data| <= s.cfg.maxDataSize
    ensures Write(s, id, data) == Err(OutOfSpace)
            <==> s.usedSpace - Cost(s.cfg, s.slots[id - 1]) + s.cfg.headerSize + |data| > s.cfg.capacity
    ensures Write(s, id, data).Ok? ==>
              Write(s, id, data).value.usedSpace
              == s.usedSpace - Cost(s.cfg, s.slots[id - 1]) + s.cfg.headerSize + |data|
  {
    LiveSpaceUpdate(s.cfg, s.slots, id - 1, Some(data));
  }

  /** Remounting a store with no open transaction changes nothing. */
  lemma RemountIdentity(s: Store)
    requires Valid(s) && s.txn.None?
    ensures Remount(s) == s
  {
  }

  /** Committing then remounting keeps every effect of the transaction. */
  lemma CommitDurable(s: Store, id: nat)
    requires Valid(s) && s.txn.Some? && ValidId(s, id)
    ensures Read(Remount(Commit(s).value), id) == Read(s, id)
  {
  }

  /** Rolling back restores the reads of the store as it was when the
      transaction started. */
  lemma RollbackRestores(s: Store, maxOps: nat, maxBytes: nat, ops: seq<Op>, id: nat)
    requires Valid(s) && s.txn.None? && ValidId(s, id) && OpsValid(s.cfg, ops)
    requires StartTransaction(s, maxOps, maxBytes).Ok?
    ensures var t := Steps(StartTransaction(s, maxOps, maxBytes).value, ops);
            Rollback(t).Ok? && Read(Rollback(t).value, id) == Read(s, id)
  {
    StepsInTransaction(StartTransaction(s, maxOps, maxBytes).value, ops);
  }

  /** A write or an erase, as one step of a sequence of operations. */
  datatype Op = WriteOp(id: nat, data: Data) | EraseOp(id: nat)

  /** Every operation names a valid id, and every write carries data. */
  predicate OpsValid(cfg: Config, ops: seq<Op>) {
    forall k :: 0 <= k < |ops| ==> OpValid(cfg, ops[k])
  }

  predicate OpValid(cfg: Config, op: Op) {
    1 <= op.id <= cfg.maxRecords && (op.WriteOp? ==> |op.data| > 0)
  }

  /** One operation; a failed operation leaves the store as it was. */
  function Step(s: Store, op: Op): (t: Store)
    requires Valid(s) && OpValid(s.cfg, op)
    ensures Valid(t) && t.cfg == s.cfg && t.txn.Some? == s.txn.Some?
    ensures s.txn.Some? ==> SameDurable(t, s)
  {
    var r := match op
      case WriteOp(id, data) => Write(s, id, data)
      case EraseOp(id) => Erase(s, id);
    if r.Ok? then r.value else s
  }

  /** Operations applied in order. */
  function Steps(s: Store, ops: seq<Op>): (t: Store)
    requires Valid(s) && OpsValid(s.cfg, ops)
    ensures Valid(t) && t.cfg == s.cfg
    decreases |ops|
  {
    if |ops| == 0 then s
    else
      var t := Steps(s, ops[..|ops| - 1]);
      Step(t, ops[|ops| - 1])
  }

  /** Inside a transaction no operation touches the durable store. */
  lemma {:induction false} StepsInTransaction(s: Store, ops: seq<Op>)
    requires Valid(s) && s.txn.Some? && OpsValid(s.cfg, ops)
    ensures Steps(s, ops).txn.Some? && SameDurable(Steps(s, ops), s)
    decreases |ops|
  {
    if |ops| > 0 {
      var n := |ops| - 1;
      assert OpsValid(s.cfg, ops[..n]);
      StepsInTransaction(s, ops[..n]);
    }
  }

  /** Power lost before the commit: whatever the transaction did, the
      remounted store is the store from before the transaction. */
  lemma CrashBeforeCommit(s: Store, maxOps: nat, maxBytes: nat, ops: seq<Op>)
    requires Valid(s) && s.txn.None? && OpsValid(s.cfg, ops)
    requires StartTransaction(s, maxOps, maxBytes).Ok?
    ensures Remount(Steps(StartTransaction(s, maxOps, maxBytes).value, ops)) == s
  {
    StepsInTransaction(StartTransaction(s, maxOps, maxBytes).value, ops);
  }

  /** Garbage collection changes no read, swaps the bank, adds one to the
      counter and keeps the space count; a second collection succeeds
      too and brings the bank back. */
  lemma GarbageCollectKeepsContent(s: Store, id: nat)
    requires Valid(s) && s.txn.None? && ValidId(s, id)
    ensures GarbageCollect(s).Ok?
    ensures Read(GarbageCollect(s).value, id) == Read(s, id)
    ensures var g := GarbageCollect(s).value;
            GarbageCollect(g).Ok? && GarbageCollect(g).value.bank == s.bank
            && View(GarbageCollect(g).value) == View(s)
  {
  }

  // ---------------------------------------------------------------------
  // The transaction test, step by step.

  /** The two test patterns: 0..15, and 15..0 followed by 0..15. */
  function Pattern1(): (p: Data)
    ensures |p| == 16 && forall i :: 0 <= i < 16 ==> p[i] == i
  {
    seq(16, i requires 0 <= i < 16 => i)
  }

  function Pattern2(): (p: Data)
    ensures |p| == 32
    ensures forall i :: 0 <= i < 16 ==> p[i] == 15 - i
    ensures forall i :: 16 <= i < 32 ==> p[i] == i - 16
  {
    seq(16, i requires 0 <= i < 16 => 15 - i) + Pattern1()
  }

  /** The configuration the test needs: three record ids, 32-byte records,
      and a bank with room for three 16-byte records and a 1024-byte
      reservation, which also covers the transaction's erase and
      32-byte write. */
  predicate TestConfig(cfg: Config) {
    cfg.maxRecords >= 3 && cfg.maxDataSize >= 32
    && 2 * cfg.headerSize + 32 <= 1024
    && 3 * (cfg.headerSize + 16) + 1024 <= cfg.capacity
  }

  /** The observations the test makes after the commit: record 1 gone,
      record 2 holding pattern 2, record 3 holding pattern 1. */
  predicate Outcome(s: Store)
    requires |View(s)| == s.cfg.maxRecords && s.cfg.maxRecords >= 3
  {
    Read(s, 1) == Err(NotFound) && Read(s, 2) == Ok(Pattern2()) && Read(s, 3) == Ok(Pattern1())
  }

  /** The store after the test's three writes: records 1 to 3 hold
      pattern 1, nothing else is stored, bank 0, no transaction. */
  predicate Loaded(s: Store) {
    Valid(s) && TestConfig(s.cfg) && s.txn.None? && s.bank == Bank0
    && s.usedSpace == 3 * (s.cfg.headerSize + 16)
    && View(s)[0] == Some(Pattern1()) && View(s)[1] == Some(Pattern1())
    && View(s)[2] == Some(Pattern1())
  }

  /** Test steps 1 and 2: on a freshly erased store, writing records 1, 2
      and 3 with pattern 1 succeeds and each reads back. */
  lemma TestWrites(cfg: Config, counter: nat)
    requires TestConfig(cfg) && counter < CounterLimit
    ensures var w1 := Write(Fresh(cfg, counter), 1, Pattern1());
            w1.Ok? && var w2 := Write(w1.value, 2, Pattern1());
            w2.Ok? && var w3 := Write(w2.value, 3, Pattern1());
            w3.Ok? && Loaded(w3.value)
            && Read(w3.value, 1).Ok? && Read(w3.value, 2).Ok? && Read(w3.value, 3).Ok?
  {
    var s0 := Fresh(cfg, counter);
    var p1 := Pattern1();
    var h := cfg.headerSize;
    LiveSpaceUpdate(cfg, s0.slots, 0, Some(p1));
    var s1a := Write(s0, 1, p1).value;
    assert s1a.usedSpace == h + 16;
    LiveSpaceUpdate(cfg, s1a.slots, 1, Some(p1));
    var s1b := Write(s1a, 2, p1).value;
    assert s1b.usedSpace == 2 * (h + 16);
    LiveSpaceUpdate(cfg, s1b.slots, 2, Some(p1));
    var s1 := Write(s1b, 3, p1).value;
    assert s1.usedSpace == 3 * (h + 16);
  }

  /** Test steps 3 to 6: a transaction for 3 operations and 1024 bytes
      opens; inside it record 3 still reads as pattern 1; erasing record
      1 and writing pattern 2 to record 2 succeed; the commit succeeds and
      the test's observations hold afterwards, still on bank 0. */
  lemma TestTransaction(s1: Store)
    requires Loaded(s1)
    ensures var t0 := StartTransaction(s1, 3, 1024);
            t0.Ok? && Read(t0.value, 3) == Ok(Pattern1())
            && var e := Erase(t0.value, 1);
            e.Ok? && var u := Write(e.value, 2, Pattern2());
            u.Ok? && Read(u.value, 3) == Ok(Pattern1())
            && var c := Commit(u.value);
            c.Ok? && Committed(c.value) && c.value.counter == s1.counter
  {
  }

  /** The store after the commit: the test's observations hold, bank 0,
      no transaction. */
  predicate Committed(s: Store) {
    Valid(s) && s.cfg.maxRecords >= 3 && s.txn.None? && Outcome(s) && s.bank == Bank0
  }

  /** Test steps 7 to 10: remounting changes no observation, nor the bank,
      the counter or the space count; garbage collection then changes no
      observation, moves to bank 1, adds one to the counter and keeps the
      space count. */
  lemma TestRemountAndCollect(c: Store)
    requires Committed(c)
    ensures var m := Remount(c);
            Committed(m) && m.counter == c.counter && m.usedSpace == c.usedSpace
            && var g := GarbageCollect(m);
            g.Ok? && Outcome(g.value) && g.value.bank == Bank1
            && c.counter == (g.value.counter - 1) % CounterLimit
            && g.value.usedSpace == c.usedSpace
  {
    RemountIdentity(c);
  }
}
