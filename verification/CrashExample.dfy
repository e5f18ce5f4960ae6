// A synced write comes back alone.

module CrashExample {
  // A crash after which a synced write comes back without the write made before it, in terms of the store's
  // own operations (DBImpl::MakeRoomForWrite, DBImpl::Write, DBImpl::Recover).

  import opened DbFormat
  import opened Versions
  import opened Lsm
  import opened Installing
  import opened Manifests
  import opened Recovery
  import opened DbImpl

  lemma OneOp(op: WriteOp, base: SequenceNumber)
    requires base < MAX_SEQUENCE
    ensures Stamped([op], base, 1) == {Stamp(op, base + 1)}
    ensures LogOk([Batch(base, [op])]) && LogEntries([Batch(base, [op])]) == {Stamp(op, base + 1)}
  {
    var log := [Batch(base, [op])];
    assert log[..0] == [];
    forall e | e in Stamped([op], base, 1) ensures e == Stamp(op, base + 1) {
    }
    assert Stamp([op][0], base + 1 + 0) in Stamped([op], base, 1);
  }

  // Nothing has reached a table file.
  lemma NothingFlushed(store: Store)
    requires store.Ok() && LogOk(store.immLog) && LogOk(store.memLog)
    requires store.hist == LogEntries(store.immLog) + LogEntries(store.memLog)
    ensures Flushed(store.State()) == {}
  {
    hide Inv, ManifestOk, Covered, LogEntries;
  }

  // What the store must find after the crash.
  lemma OnlySecond(x: Entry, y: Entry, last: nat)
    requires x.user != y.user && y.sn <= last && y.kind.Put?
    ensures Read({y}, x.user, last) == None && Read({y}, y.user, last) == Some(y.value)
  {
    NewestNone({y}, x.user, last);
    assert IsNewest({y}, y.user, last, y);
    NewestIs({y}, y.user, last, y);
  }

  // The first write goes to a log that is closed unsynced when the memtable is switched; the second is
  // synced, in the new log.
  method WriteTwice(p: WriteOp, q: WriteOp) returns (store: Store)
    ensures fresh(store) && store.Ok() && store.version == EMPTY_VERSION && Flushed(store.State()) == {}
    ensures store.immLog == [Batch(0, [p])] && store.memLog == [Batch(1, [q])] && store.immSynced == 0
    ensures store.hist == {Stamp(p, 1), Stamp(q, 2)} && store.memSynced == store.lastSequence == 2
  {
    hide Store.Ok, Step, Stamp, Stamped, LogEntries, LogOk, Flushed;
    store := new Store(1);
    OneOp(p, 0);
    OneOp(q, 1);
    store.Write([p], false);
    store.SwitchMemTable();
    store.Write([q], true);
    assert store.immLog == [Batch(0, [p])] && store.memLog == [Batch(1, [q])];
    NothingFlushed(store);
  }

  // Power is lost and the old log comes back empty.
  method CrashAfter(store: Store, p: WriteOp, q: WriteOp, full: seq<Entry> -> bool, sizeOf: seq<Entry> -> nat)
    requires store.Ok() && store.version == EMPTY_VERSION && Flushed(store.State()) == {} && store.immSynced == 0
    requires store.immLog == [Batch(0, [p])] && store.memLog == [Batch(1, [q])]
    modifies store
    ensures store.Ok() && AllEntries(store.State()) == store.hist == {Stamp(q, 2)}
  {
    hide Inv, ManifestOk, Covered, LogsMatch, ComesBack, PrefixOf, NoOps, Stamp, Flushed, LogEntries, LogOk, AllEntries,
      SnapshotEdit;
    OneOp(q, 1);
    NoBatches();
    assert store.immLog[..0] == [] && store.memLog[..1] == store.memLog;
    NothingIn(EMPTY_VERSION);
    store.Reopen(0, 1, full, sizeOf);
  }

  lemma NoBatches()
    ensures LogOk([]) && LogEntries([]) == {}
  {
  }

  method SyncedComesBackAlone(a: UserKey, b: UserKey, v: Value, full: seq<Entry> -> bool, sizeOf: seq<Entry> -> nat)
    returns (first: Option<Value>, second: Option<Value>)
    requires a != b
    ensures first == None && second == Some(v)
  {
    hide Inv, ManifestOk, Covered, LogsMatch, AllEntries, Flushed;
    var p, q := WriteOp(a, Some(v)), WriteOp(b, Some(v));
    var store := WriteTwice(p, q);
    CrashAfter(store, p, q, full, sizeOf);
    LastNumber(store.State(), Stamp(q, 2));
    OnlySecond(Stamp(p, 1), Stamp(q, 2), store.lastSequence);
    first := store.Get(a, None);
    second := store.Get(b, None);
  }

  lemma LastNumber(db: Db, e: Entry)
    requires Inv(db) && e in db.hist
    ensures e.sn <= db.lastSequence
  {
  }
}
