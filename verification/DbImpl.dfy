// The store as an object: each operation of db/db_impl.cc takes one step of module Lsm.

module DbImpl {
  import opened DbFormat
  import opened Versions
  import opened Compactions
  import opened VersionBuilder
  import opened Lsm
  import opened Installing
  import opened Manifests
  import opened Recovery
  import Iterating
  import DbIterator

  class Store {
    var mem: seq<Entry>
    var imm: Option<seq<Entry>>
    var version: Version
    var nextFile: nat
    var lastSequence: SequenceNumber
    var snapshots: seq<SequenceNumber>
    var manifest: seq<Edit>
    var immLog: seq<Batch>
    var memLog: seq<Batch>
    var recorded: SequenceNumber
    const maxFileSize: nat
    ghost var hist: set<Entry>
    ghost var immSynced: SequenceNumber
    ghost var memSynced: SequenceNumber
    ghost var floor: SequenceNumber
    ghost var leaked: set<UserKey>

    ghost function State(): Db
      reads this
    {
      Db(mem, imm, version, nextFile, lastSequence, snapshots, hist, immSynced, memSynced, floor, leaked)
    }

    ghost predicate Ok()
      reads this
    {
      Inv(State()) && ManifestOk(manifest, version, nextFile)
      && LogsMatch(State(), immLog, memLog, recorded) && (imm.None? ==> immLog == []) && Covered(State(), recorded)
    }

    constructor (fileSize: nat)
      ensures Ok() && State() == INITIAL && manifest == [] && immLog == [] && memLog == []
      ensures version == Version([[], [], [], [], [], [], []]) && maxFileSize == fileSize
    {
      hide Inv, ManifestOk, LogsMatch, Covered;
      mem, imm, version, nextFile := [], None, EMPTY_VERSION, 1;
      lastSequence, snapshots, manifest, maxFileSize := 0, [], [], fileSize;
      immLog, memLog, recorded := [], [], 0;
      hist, immSynced, memSynced, floor, leaked := {}, 0, 0, 0, {};
      InitialInv();
      EmptyManifest();
      EmptyLogs(INITIAL);
      CoveredNow(INITIAL);
    }

    // DBImpl::Get at a snapshot, or at the last write.
    method Get(k: UserKey, snapshot: Option<SequenceNumber>) returns (r: Option<Value>)
      requires Ok() && (snapshot.Some? ==> snapshot.value in snapshots)
      ensures r == Read(AllEntries(State()), k, if snapshot.Some? then snapshot.value else lastSequence)
      ensures k !in leaked ==> r == Read(hist, k, if snapshot.Some? then snapshot.value else lastSequence)
    {
      var s := if snapshot.Some? then snapshot.value else lastSequence;
      ghost var db := State();
      Layers3(db, k, s);
      PartsOnce(db);
      if k !in leaked {
        ReadsWhole(db, k, s);
      }
      var e := RunGet(mem, k, s);
      if e.None? {
        if imm.Some? {
          e := RunGet(imm.value, k, s);
        } else {
          NewestNone(ImmEntries(db), k, s);
        }
      }
      if e.None? {
        e := Versions.Get(version, k, s);
      }
      r := ValueOf(e);
    }

    // DBImpl::NewIterator: its rows are the map that reads at its sequence number see.
    method NewIterator(snapshot: Option<SequenceNumber>) returns (it: DbIterator.DBIter)
      requires Ok() && (snapshot.Some? ==> snapshot.value in snapshots)
      ensures fresh(it) && fresh(it.iter) && it.Ok() && !it.valid
      ensures it.sequence == if snapshot.Some? then snapshot.value else lastSequence
      ensures Iterating.IsMapOf(it.Table(), AllEntries(State()), it.sequence)
      ensures forall k: UserKey ::
        k !in leaked ==> Read(AllEntries(State()), k, it.sequence) == Read(hist, k, it.sequence)
    {
      hide Inv, ManifestOk, LogsMatch, Covered, AllEntries, Iterating.IsMapOf;
      var s := if snapshot.Some? then snapshot.value else lastSequence;
      forall k: UserKey | k !in leaked ensures Read(AllEntries(State()), k, s) == Read(hist, k, s) {
        LiveSnapshots(State(), s);
        ReadsWhole(State(), k, s);
      }
      it := Iterating.NewIteratorOver(mem, imm, version, s, State());
    }

    // DBImpl::Write for the batch of a whole group, with or without a sync of the current log.
    method Write(ops: seq<WriteOp>, sync: bool)
      requires Ok() && lastSequence + |ops| < MAX_SEQUENCE
      modifies this`mem, this`lastSequence, this`hist, this`memSynced, this`memLog
      ensures Ok() && Step(old(State()), State())
      ensures lastSequence == old(lastSequence) + |ops| && hist == old(hist) + Stamped(ops, old(lastSequence), |ops|)
      ensures ReadsAfter(old(AllEntries(State())), ops, old(lastSequence), AllEntries(State()))
      ensures ReadsAfter(old(hist), ops, old(lastSequence), hist)
      ensures memSynced == (if sync then lastSequence else old(memSynced))
      ensures memLog == old(memLog) + [Batch(old(lastSequence), ops)]
    {
      hide Inv, Step, ManifestOk, LogsMatch, Covered, ReadsAfter, AllEntries, Stamped;
      ghost var a := State();
      MemBound(a);
      memLog := memLog + [Batch(lastSequence, ops)];
      var m := InsertInto(mem, ops, lastSequence);
      WriteIsStep(a, ops, m, sync);
      hist, lastSequence := hist + Stamped(ops, lastSequence, |ops|), lastSequence + |ops|;
      memSynced := if sync then lastSequence else memSynced;
      mem := m;
      WriteReads(a, State(), ops);
      LogWrite(a, State(), immLog, old(memLog), recorded, ops);
      CoveredWrite(a, State(), ops, recorded);
    }

    method GetSnapshot() returns (s: SequenceNumber)
      requires Ok()
      modifies this`snapshots
      ensures Ok() && Step(old(State()), State()) && s == lastSequence && snapshots == old(snapshots) + [s]
    {
      hide Inv, ManifestOk, LogsMatch, Covered;
      ghost var a := State();
      s := lastSequence;
      snapshots := snapshots + [s];
      StepKeeps(a, State());
      LogRetire(a, State(), immLog, memLog, recorded);
      CoveredSwitch(a, State(), recorded);
    }

    method ReleaseSnapshot(i: nat)
      requires Ok() && i < |snapshots|
      modifies this`snapshots
      ensures Ok() && Step(old(State()), State()) && snapshots == old(snapshots)[..i] + old(snapshots)[i + 1..]
    {
      hide Inv, ManifestOk, LogsMatch, Covered;
      ghost var a := State();
      snapshots := snapshots[..i] + snapshots[i + 1..];
      StepKeeps(a, State());
      LogRetire(a, State(), immLog, memLog, recorded);
      CoveredSwitch(a, State(), recorded);
    }

    // MakeRoomForWrite's switch to a new memtable and a new log; the old log is closed, not synced.
    method SwitchMemTable()
      requires Ok() && imm.None?
      modifies this`mem, this`imm, this`memLog, this`immLog, this`immSynced
      ensures Ok() && Step(old(State()), State()) && mem == [] && imm == Some(old(mem))
      ensures memLog == [] && immLog == old(memLog) && immSynced == old(memSynced)
    {
      hide Inv, ManifestOk, LogsMatch, Covered;
      ghost var a := State();
      LogSwitch(a, memLog, recorded);
      mem, imm := [], Some(mem);
      immLog, memLog, immSynced := memLog, [], memSynced;
      StepKeeps(a, State());
      CoveredSwitch(a, State(), recorded);
    }

    // DBImpl::CompactMemTable: the immutable memtable becomes a table at the level picked for it.
    method CompactMemTable(sizeOf: seq<Entry> -> nat)
      requires Ok() && imm.Some?
      modifies this`imm, this`version, this`nextFile, this`manifest, this`immLog, this`recorded
      ensures Ok() && Step(old(State()), State()) && imm == None && nextFile == old(nextFile) + 1 && immLog == []
      ensures if old(imm.value) == [] then version == old(version) else
        FlushedTo(old(version), old(imm.value), old(nextFile), maxFileSize, sizeOf, version)
    {
      hide Inv, Step, ManifestOk, LogsMatch, Covered;
      ghost var a := State();
      if imm.value == [] {
        // No table is built for an empty memtable.
        EmptyFlush(State(), manifest);
      } else {
        var v', e := FlushTable(imm.value, version, nextFile, manifest, maxFileSize, sizeOf, State());
        version, manifest := v', manifest + [e];
      }
      imm, nextFile := None, nextFile + 1;
      LogRetire(a, State(), immLog, memLog, recorded);
      immLog, recorded := [], lastSequence;
      CoveredNow(State());
    }

    // DBImpl::BackgroundCompaction once no immutable memtable is waiting.
    method BackgroundCompaction(task: Task, full: seq<Entry> -> bool, sizeOf: seq<Entry> -> nat) returns (worked: bool)
      requires Ok() && imm.None? && TaskOk(version, task)
      modifies this`version, this`nextFile, this`manifest, this`recorded, this`leaked, this`floor
      ensures Ok() && worked == HasWork(old(version), task)
      ensures if worked then Step(old(State()), State()) else State() == old(State())
      ensures worked ==> Worked(old(version), task, maxFileSize,
        if snapshots == [] then lastSequence else snapshots[0], full, sizeOf, old(nextFile), version, nextFile)
    {
      hide Inv, Step, ManifestOk, LogsMatch, Covered, Worked, HasWork, LogOk, VersionEntries;
      ghost var a, b := State(), State();
      var s := if snapshots == [] then lastSequence else snapshots[0];
      worked, version, nextFile, manifest, b :=
        RunTask(version, task, s, nextFile, maxFileSize, full, sizeOf, manifest, State());
      floor, leaked := b.floor, b.leaked;
      LogRetire(a, State(), immLog, memLog, recorded);
      if worked {
        recorded := lastSequence;
        CoveredNow(State());
      }
    }

    // A crash that leaves the manifest, the first n1 batches of the old log and the first n2 of the current
    // one, and DBImpl::Recover: exactly the flushed writes and those in what is left of each log come back.
    // That is a prefix of the writes just when the lost part of the old log, or the surviving part of the
    // current one, is without operations.
    method Reopen(n1: nat, n2: nat, full: seq<Entry> -> bool, sizeOf: seq<Entry> -> nat)
      requires Ok() && OnDisk(State(), immLog, memLog, n1, n2)
      modifies this`mem, this`imm, this`version, this`nextFile, this`lastSequence, this`snapshots, this`manifest,
        this`immLog, this`memLog, this`recorded, this`hist, this`immSynced, this`memSynced
      ensures Ok() && ComesBack(old(State()), State())
      ensures Left(old(State()), old(immLog[..n1]), old(memLog[..n2]), hist)
      ensures PrefixOf(hist, old(hist)) <==> NoOps(old(immLog[n1..])) || NoOps(old(memLog[..n2]))
      ensures AllEntries(State()) ==
        old(VersionEntries(version)) + LogEntries(old(immLog[..n1])) + LogEntries(old(memLog[..n2]))
      ensures ReadsReplayed(old(State()), old(immLog[..n1]), old(memLog[..n2]), State())
      ensures manifest != [] && manifest[0] == SnapshotEdit(old(version))
    {
      hide Inv, ManifestOk, LogsMatch, AllEntries, Covered, OnDisk, ComesBack, PrefixOf, NoOps, Left, VersionEntries,
        SnapshotEdit, LogEntries, LogOk, ReadsReplayed;
      var v, edits, next, last;
      ghost var c;
      v, edits, next, last, c :=
        RecoverAfterCrash(manifest, immLog, memLog, recorded, nextFile, n1, n2, full, sizeOf, State());
      version, manifest, nextFile, lastSequence := v, edits, next, last;
      mem, imm, snapshots := [], None, [];
      immLog, memLog, recorded := [], [], last;
      hist, immSynced, memSynced := c.hist, last, last;
      assert State() == c;
    }
  }
}
