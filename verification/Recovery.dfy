// Coming back from a crash.

module Recovery {
  // Replaying the manifest and the write-ahead logs
  // (VersionSet::Recover, DBImpl::RecoverLogFile).

  import opened DbFormat
  import opened Versions
  import opened Compactions
  import opened CompactionWork
  import opened VersionBuilder
  import opened Lsm
  import opened Installing
  import opened Manifests

  // ---- Logs ----

  // A logged batch; its first operation has sequence number base + 1.
  datatype Batch = Batch(base: SequenceNumber, ops: seq<WriteOp>)

  ghost predicate LogOk(log: seq<Batch>) {
    (forall i :: 0 <= i < |log| ==> log[i].base + |log[i].ops| <= MAX_SEQUENCE)
    && forall i, j :: 0 <= i < j < |log| ==> log[i].base + |log[i].ops| <= log[j].base
  }

  // The last sequence number in a log, or lo.
  function LogEnd(log: seq<Batch>, lo: nat): nat {
    if log == [] then lo else log[|log| - 1].base + |log[|log| - 1].ops|
  }

  ghost function BatchEntries(b: Batch): set<Entry>
    requires b.base + |b.ops| <= MAX_SEQUENCE
  {
    Stamped(b.ops, b.base, |b.ops|)
  }

  ghost function LogEntries(log: seq<Batch>): set<Entry>
    requires LogOk(log)
  {
    if log == [] then {} else LogEntries(log[..|log| - 1]) + BatchEntries(log[|log| - 1])
  }

  lemma {:induction false} LogBounds(log: seq<Batch>)
    requires LogOk(log)
    ensures forall e :: e in LogEntries(log) ==> log != [] && log[0].base < e.sn <= LogEnd(log, 0)
  {
    if log != [] {
      LogBounds(log[..|log| - 1]);
      StampedNumbers(log[|log| - 1].ops, log[|log| - 1].base, |log[|log| - 1].ops|);
    }
  }

  lemma LogParts(a: seq<Batch>, b: seq<Batch>)
    requires LogOk(a + b)
    ensures LogOk(a) && LogOk(b)
  {
    forall i, j | 0 <= i < j < |b| ensures b[i].base + |b[i].ops| <= b[j].base {
      assert (a + b)[|a| + i] == b[i] && (a + b)[|a| + j] == b[j];
    }
    forall i | 0 <= i < |b| ensures b[i].base + |b[i].ops| <= MAX_SEQUENCE {
      assert (a + b)[|a| + i] == b[i];
    }
    forall i, j | 0 <= i < j < |a| ensures a[i].base + |a[i].ops| <= a[j].base {
      assert (a + b)[i] == a[i] && (a + b)[j] == a[j];
    }
    forall i | 0 <= i < |a| ensures a[i].base + |a[i].ops| <= MAX_SEQUENCE {
      assert (a + b)[i] == a[i];
    }
  }

  lemma {:induction false} LogConcat(a: seq<Batch>, b: seq<Batch>)
    requires LogOk(a + b)
    ensures LogOk(a) && LogOk(b) && LogEntries(a + b) == LogEntries(a) + LogEntries(b)
  {
    hide LogOk, BatchEntries;
    LogParts(a, b);
    if b == [] {
      assert a + b == a;
      assert LogEntries(b) == {};
    } else {
      var init, last := b[..|b| - 1], b[|b| - 1];
      assert (a + b)[..|a + b| - 1] == a + init && a + b == (a + init) + [last] && b == init + [last];
      LogParts(a + init, [last]);
      LogParts(init, [last]);
      LogConcat(a, init);
    }
  }

  // What a key holds after all batches of a log, in order.
  function LogOutcome(log: seq<Batch>, k: UserKey, before: Option<Value>): Option<Value> {
    if log == [] then before else Outcome(log[|log| - 1].ops, k, LogOutcome(log[..|log| - 1], k, before))
  }

  // The entries of a log, on top of older ones, read as its operations say.
  lemma {:induction false} LogReads(E: set<Entry>, log: seq<Batch>, k: UserKey, t: nat)
    requires OneWrite(E) && LogOk(log) && Earlier(E, LogEntries(log))
    requires forall e :: e in E + LogEntries(log) ==> e.sn <= t
    ensures OneWrite(E + LogEntries(log))
    ensures Read(E + LogEntries(log), k, t) == LogOutcome(log, k, Read(E, k, t))
  {
    hide OneWrite, Read, Stamped, Outcome;
    if log == [] {
      assert E + LogEntries(log) == E;
    } else {
      var init, b := log[..|log| - 1], log[|log| - 1];
      LogReads(E, init, k, t);
      assert log == init + [b];
      LogBounds(init);
      StampedNumbers(b.ops, b.base, |b.ops|);
      assert init != [] ==> LogEnd(init, 0) <= b.base;
      BatchReads(E + LogEntries(init), b, k, t);
      assert E + LogEntries(log) == (E + LogEntries(init)) + BatchEntries(b);
    }
  }

  lemma BatchReads(F: set<Entry>, b: Batch, k: UserKey, t: nat)
    requires OneWrite(F) && b.base + |b.ops| <= MAX_SEQUENCE && Earlier(F, BatchEntries(b))
    requires forall e :: e in F + BatchEntries(b) ==> e.sn <= t
    ensures OneWrite(F + BatchEntries(b))
    ensures Read(F + BatchEntries(b), k, t) == Outcome(b.ops, k, Read(F, k, t))
  {
    hide OneWrite, Outcome, Newest;
    if b.ops == [] {
      OutcomeStep(b.ops, k, Read(F, k, t));
      assert F + BatchEntries(b) == F;
    } else {
      assert Stamp(b.ops[0], b.base + 1 + 0) in BatchEntries(b);
      assert Stamp(b.ops[|b.ops| - 1], b.base + 1 + (|b.ops| - 1)) in BatchEntries(b);
      ReadStamped(F, b.ops, b.base, |b.ops|, k);
      assert b.ops[..|b.ops|] == b.ops;
      StampedNumbers(b.ops, b.base, |b.ops|);
      ReadAbove(F, k, b.base, t);
      ReadAbove(F + BatchEntries(b), k, b.base + |b.ops|, t);
    }
  }

  // ---- Replaying logs into tables ----

  // Later tables hold later writes.
  ghost predicate Increasing(tables: seq<File>, hi: nat) {
    (forall i, e :: 0 <= i < |tables| && e in tables[i].run ==> e.sn <= hi)
    && forall i, j, a, b :: 0 <= i < j < |tables| && a in tables[i].run && b in tables[j].run ==> a.sn < b.sn
  }

  lemma IncreasingNewer(tables: seq<File>, hi: nat, first: nat)
    requires Increasing(tables, hi) && Numbered(tables, first)
    ensures Level0Recency(FileSet(tables)) && UniqueNumbers(FileSet(tables))
  {
    forall f, g | f in FileSet(tables) && g in FileSet(tables) && f.number > g.number
      ensures Newer(Elements(f.run), Elements(g.run))
    {
      var i :| 0 <= i < |tables| && tables[i] == f;
      var j :| 0 <= j < |tables| && tables[j] == g;
    }
  }

  // What replay has so far: finished tables, then the memtable, covering writes up to hi.
  ghost predicate Replayed(tables: seq<File>, mem: seq<Entry>, first: nat, lo: nat, hi: nat, E: set<Entry>) {
    Numbered(tables, first) && Increasing(tables, lo) && lo <= hi && Sorted(mem)
    && (forall e :: e in mem ==> lo < e.sn <= hi)
    && EntriesOf(FileSet(tables)) + Elements(mem) == E
  }

  // WriteLevel0Table during recovery; an empty memtable makes no table.
  method FlushReplayed(tables: seq<File>, mem: seq<Entry>, first: nat, sizeOf: seq<Entry> -> nat,
                       ghost lo: nat, ghost hi: nat, ghost E: set<Entry>)
    returns (r: seq<File>)
    requires Replayed(tables, mem, first, lo, hi, E)
    ensures Replayed(r, [], first, hi, hi, E)
    ensures r == tables || (mem != [] && r == tables + [FileMeta(first + |tables|, sizeOf(mem), mem)])
  {
    if mem == [] {
      return tables;
    }
    var f: File := FileMeta(first + |tables|, sizeOf(mem), mem);
    r := tables + [f];
    assert FileSet(r) == FileSet(tables) + {f};
    EntriesUnion(FileSet(tables), {f});
    assert EntriesOf({f}) == Elements(mem);
  }

  lemma ReplayBatch(tables: seq<File>, mem: seq<Entry>, mem': seq<Entry>, first: nat, lo: nat, hi: nat,
                    E: set<Entry>, b: Batch)
    requires Replayed(tables, mem, first, lo, hi, E) && hi <= b.base && b.base + |b.ops| <= MAX_SEQUENCE
    requires Sorted(mem') && Elements(mem') == Elements(mem) + BatchEntries(b)
    ensures Replayed(tables, mem', first, lo, b.base + |b.ops|, E + BatchEntries(b))
  {
    StampedNumbers(b.ops, b.base, |b.ops|);
    forall e | e in mem' ensures lo < e.sn <= b.base + |b.ops| {
      assert e in Elements(mem');
      assert e in Elements(mem) ==> e in mem;
    }
  }

  // One more table, of a memtable that was full.
  ghost predicate Spilled(before: seq<File>, after: seq<File>, full: seq<Entry> -> bool, sizeOf: seq<Entry> -> nat) {
    |after| == |before| + 1 && after[..|before|] == before && full(after[|before|].run)
    && after[|before|].size == sizeOf(after[|before|].run)
  }

  // The tables added are of memtables that were full.
  ghost predicate AllFull(before: seq<File>, after: seq<File>, full: seq<Entry> -> bool) {
    before <= after && forall i :: |before| <= i < |after| ==> full(after[i].run)
  }

  lemma FullStart(tables: seq<File>, full: seq<Entry> -> bool)
    ensures AllFull(tables, tables, full)
  {
  }

  lemma FullStep(tables0: seq<File>, before: seq<File>, after: seq<File>, full: seq<Entry> -> bool,
                 sizeOf: seq<Entry> -> nat)
    requires AllFull(tables0, before, full) && (after == before || Spilled(before, after, full, sizeOf))
    ensures AllFull(tables0, after, full)
  {
  }

  // One record of RecoverLogFile: insert the batch, spill the memtable if it is full.
  method RecoverBatch(b: Batch, tables0: seq<File>, mem0: seq<Entry>, first: nat,
                      full: seq<Entry> -> bool, sizeOf: seq<Entry> -> nat,
                      ghost lo0: nat, ghost hi0: nat, ghost E: set<Entry>)
    returns (tables: seq<File>, mem: seq<Entry>, ghost lo: nat)
    requires b.base + |b.ops| <= MAX_SEQUENCE && hi0 <= b.base && Replayed(tables0, mem0, first, lo0, hi0, E)
    ensures Replayed(tables, mem, first, lo, b.base + |b.ops|, E + BatchEntries(b))
    ensures mem == [] || (tables == tables0 && !full(mem) && Elements(mem) == Elements(mem0) + BatchEntries(b))
    ensures tables == tables0 || Spilled(tables0, tables, full, sizeOf)
  {
    mem := InsertInto(mem0, b.ops, b.base);
    ReplayBatch(tables0, mem0, mem, first, lo0, hi0, E, b);
    tables, lo := tables0, lo0;
    if full(mem) {
      tables := FlushReplayed(tables, mem, first, sizeOf, lo, b.base + |b.ops|, E + BatchEntries(b));
      mem, lo := [], b.base + |b.ops|;
    }
  }

  // One record further into a log.
  lemma LogTake(log: seq<Batch>, i: nat, lo: nat, E: set<Entry>)
    requires LogOk(log) && i < |log| && lo <= log[0].base
    ensures LogOk(log[..i]) && LogOk(log[..i + 1]) && log[i].base + |log[i].ops| <= MAX_SEQUENCE
    ensures E + LogEntries(log[..i + 1]) == E + LogEntries(log[..i]) + BatchEntries(log[i])
    ensures LogEnd(log[..i], lo) <= log[i].base
    ensures LogEnd(log[..i + 1], lo) == log[i].base + |log[i].ops|
    ensures LogEnd(log[..i], 0) <= LogEnd(log[..i + 1], 0) == log[i].base + |log[i].ops|
  {
    assert log[..i + 1][..i] == log[..i];
  }

  // In the tables, every key reads at s as the operations of the log leave it, starting from E0.
  ghost predicate ReadsOver(tables: seq<File>, log: seq<Batch>, E0: set<Entry>, s: nat) {
    forall k: UserKey :: Read(EntriesOf(FileSet(tables)), k, s) == LogOutcome(log, k, Read(E0, k, s))
  }

  // RecoverLogFile: insert every batch, and flush what is left.
  method RecoverLogFile(log: seq<Batch>, tables0: seq<File>, first: nat, full: seq<Entry> -> bool,
                        sizeOf: seq<Entry> -> nat,
                        maxSequence0: nat, ghost lo0: nat, ghost E0: set<Entry>)
    returns (tables: seq<File>, maxSequence: nat)
    requires LogOk(log) && Replayed(tables0, [], first, lo0, lo0, E0) && (log != [] ==> lo0 <= log[0].base)
    ensures maxSequence == if maxSequence0 < LogEnd(log, 0) then LogEnd(log, 0) else maxSequence0
    ensures Replayed(tables, [], first, LogEnd(log, lo0), LogEnd(log, lo0), E0 + LogEntries(log))
    ensures AllFull(tables0, tables, full) || (tables != [] && AllFull(tables0, tables[..|tables| - 1], full))
    ensures OneWrite(E0) ==> ReadsOver(tables, log, E0, LogEnd(log, lo0))
  {
    assert E0 + LogEntries(log[..0]) == E0 && LogEnd(log[..0], lo0) == lo0 && LogEnd(log[..0], 0) == 0;
    hide Replayed, LogOk, LogEnd, LogEntries, BatchEntries, AllFull, Spilled, ReadsOver, OneWrite;
    FullStart(tables0, full);
    tables, maxSequence := tables0, maxSequence0;
    var mem: seq<Entry> := [];
    ghost var lo: nat := lo0;
    for i := 0 to |log|
      invariant LogOk(log[..i])
      invariant Replayed(tables, mem, first, lo, LogEnd(log[..i], lo0), E0 + LogEntries(log[..i]))
      invariant maxSequence == if maxSequence0 < LogEnd(log[..i], 0) then LogEnd(log[..i], 0) else maxSequence0
      invariant AllFull(tables0, tables, full)
    {
      LogTake(log, i, lo0, E0);
      ghost var E := E0 + LogEntries(log[..i]);
      ghost var before := tables;
      tables, mem, lo := RecoverBatch(log[i], tables, mem, first, full, sizeOf, lo, LogEnd(log[..i], lo0), E);
      FullStep(tables0, before, tables, full, sizeOf);
      var lastSequence := log[i].base + |log[i].ops|;
      if lastSequence > maxSequence {
        maxSequence := lastSequence;
      }
    }
    assert log[..|log|] == log;
    ghost var spilled := tables;
    tables := FlushReplayed(tables, mem, first, sizeOf, lo, LogEnd(log, lo0), E0 + LogEntries(log));
    assert tables == spilled || tables[..|tables| - 1] == spilled;
    if OneWrite(E0) {
      AllReplayedReads(tables0, first, lo0, E0, log, tables);
    }
  }

  lemma AllReplayedReads(tables0: seq<File>, first: nat, lo0: nat, E0: set<Entry>, log: seq<Batch>,
                         tables: seq<File>)
    requires Replayed(tables0, [], first, lo0, lo0, E0) && OneWrite(E0) && LogOk(log)
    requires log != [] ==> lo0 <= log[0].base
    requires Replayed(tables, [], first, LogEnd(log, lo0), LogEnd(log, lo0), E0 + LogEntries(log))
    ensures ReadsOver(tables, log, E0, LogEnd(log, lo0))
  {
    hide Replayed, OneWrite, LogOk, LogEnd, LogEntries, LogOutcome, Read;
    forall k: UserKey
      ensures Read(EntriesOf(FileSet(tables)), k, LogEnd(log, lo0)) == LogOutcome(log, k, Read(E0, k, LogEnd(log, lo0)))
    {
      ReplayedReads(tables0, first, lo0, E0, log, tables, k);
    }
  }

  // The tables a log is replayed to read as its operations say.
  lemma ReplayedReads(tables0: seq<File>, first: nat, lo0: nat, E0: set<Entry>, log: seq<Batch>, tables: seq<File>,
                      k: UserKey)
    requires Replayed(tables0, [], first, lo0, lo0, E0) && OneWrite(E0) && LogOk(log)
    requires log != [] ==> lo0 <= log[0].base
    requires Replayed(tables, [], first, LogEnd(log, lo0), LogEnd(log, lo0), E0 + LogEntries(log))
    ensures Read(EntriesOf(FileSet(tables)), k, LogEnd(log, lo0)) == LogOutcome(log, k, Read(E0, k, LogEnd(log, lo0)))
  {
    hide LogOk, LogOutcome, LogEntries, OneWrite, Read;
    LogBounds(log);
    assert EntriesOf(FileSet(tables)) == EntriesOf(FileSet(tables)) + Elements([]) == E0 + LogEntries(log);
    assert EntriesOf(FileSet(tables0)) == EntriesOf(FileSet(tables0)) + Elements([]) == E0;
    LogReads(E0, log, k, LogEnd(log, lo0));
  }

  // ---- Replaying the manifest ----

  // VersionSet::Recover: one builder over the whole manifest rebuilds the current version exactly.
  method ReplayManifest(manifest: seq<Edit>, ghost v: Version, ghost nextFile: nat) returns (r: Version)
    requires ManifestOk(manifest, v, nextFile) && Shape(v)
    ensures r == v
  {
    assert forall l :: 0 <= l < NUM_LEVELS ==> FileSet(EMPTY_VERSION.levels[l]) == {};
    r := ReplayEdits(EMPTY_VERSION, manifest);
    ShapeSorted(v);
    SameVersion(r, v);
  }

  // A manifest that starts with a snapshot of a valid version is in order.
  lemma SnapshotManifest(v: Version, nextFile: nat)
    requires Valid(v) && forall l, g :: 0 <= l < NUM_LEVELS && g in v.levels[l] ==> g.number < nextFile
    ensures ManifestOk([SnapshotEdit(v)], v, nextFile)
  {
    hide LevelRecency, Level0Recency, OneWrite;
    var manifest := [SnapshotEdit(v)];
    ShapeSorted(v);
    LevelNumbers(v);
    ValidOnePlace(v);
    SnapshotEditOk(v);
    assert manifest[..0] == [];
    forall l: nat ensures AddedAfter(manifest, l) == if l < NUM_LEVELS then FileSet(v.levels[l]) else {} {
      SnapshotAdds(v, l);
    }
    forall l | 0 <= l < NUM_LEVELS
      ensures FreshAdds({}, manifest, l) && FileSet(v.levels[l]) == StepwiseLevel({}, manifest, l)
    {
      SnapshotAdds(v, l);
      SnapshotLevel(v, l);
    }
  }

  // A store's manifest that starts with a snapshot has walked from the version it describes to the
  // current one.
  lemma ManifestWalks(manifest: seq<Edit>, v0: Version, v: Version, nextFile: nat) returns (vs: seq<Version>)
    requires ManifestOk(manifest, v, nextFile) && Shape(v) && Based(v0)
    requires manifest != [] && manifest[0] == SnapshotEdit(v0)
    ensures Live(vs, manifest[1..]) && vs[0] == v0 && vs[|manifest| - 1] == v
  {
    hide ManifestOk, SnapshotEdit, BySmallest, FreshAdds, StepwiseLevel, Shape, EditOk, Live;
    var edits := manifest[1..];
    assert manifest == [SnapshotEdit(v0)] + edits;
    ManifestTail(manifest, v0, v, nextFile);
    vs := WalksThrough(v0, edits);
    assert edits[..|edits|] == edits;
    assert Based(v) by { ShapeSorted(v); }
    forall l | 0 <= l < NUM_LEVELS ensures FileSet(vs[|edits|].levels[l]) == FileSet(v.levels[l]) {
      LiveLevels(vs, edits, |edits|, l);
      AfterSnapshot(v0, edits, l);
    }
    LiveBased(vs, edits, |edits|);
    SameVersion(vs[|edits|], v);
  }

  // The edits after the snapshot, over the version it describes.
  lemma ManifestTail(manifest: seq<Edit>, v0: Version, v: Version, nextFile: nat)
    requires ManifestOk(manifest, v, nextFile) && Based(v0)
    requires manifest != [] && manifest[0] == SnapshotEdit(v0)
    ensures |v.levels| == NUM_LEVELS && forall i :: 0 <= i < |manifest[1..]| ==> EditOk(manifest[1..][i])
    ensures forall l :: 0 <= l < NUM_LEVELS ==>
      FreshAdds(FileSet(v0.levels[l]), manifest[1..], l) && FreshAdds({}, [SnapshotEdit(v0)] + manifest[1..], l)
      && FileSet(v.levels[l]) == StepwiseLevel({}, [SnapshotEdit(v0)] + manifest[1..], l)
  {
    hide SnapshotEdit, BySmallest, StepwiseLevel, FreshAdds, EditOk;
    var edits := manifest[1..];
    assert manifest == [SnapshotEdit(v0)] + edits;
    forall i | 0 <= i < |edits| ensures EditOk(edits[i]) {
      assert edits[i] == manifest[i + 1];
    }
    forall l | 0 <= l < NUM_LEVELS ensures FreshAdds(FileSet(v0.levels[l]), edits, l) {
      SnapshotTail(v0, edits, l);
    }
  }

  lemma LiveBased(vs: seq<Version>, edits: seq<Edit>, n: nat)
    requires Live(vs, edits) && n < |vs|
    ensures Based(vs[n])
  {
    hide BySmallest;
    LiveLevels(vs, edits, n, 0);
  }

  // ---- The whole recovery ----

  function Max(a: nat, b: nat): nat {
    if a < b then b else a
  }

  // The logs hold the memtables, and the last sequence number is the end of the logs, or the one
  // recorded in the manifest.
  ghost predicate LogsMatch(a: Db, immLog: seq<Batch>, memLog: seq<Batch>, recorded: SequenceNumber) {
    LogOk(immLog + memLog) && LogOk(immLog) && LogOk(memLog)
    && LogEntries(immLog) == ImmEntries(a) && LogEntries(memLog) == Elements(a.mem)
    && a.lastSequence == Max(recorded, LogEnd(immLog + memLog, 0))
  }

  // Each operation keeps the logs in step: a write appends its batch, a switch starts a new log,
  // a flush drops the old one.
  lemma LogWrite(a: Db, b: Db, immLog: seq<Batch>, memLog: seq<Batch>, recorded: SequenceNumber, ops: seq<WriteOp>)
    requires LogsMatch(a, immLog, memLog, recorded) && a.lastSequence + |ops| < MAX_SEQUENCE
    requires Elements(b.mem) == Elements(a.mem) + Stamped(ops, a.lastSequence, |ops|) && b.imm == a.imm
    requires b.lastSequence == a.lastSequence + |ops|
    ensures LogsMatch(b, immLog, memLog + [Batch(a.lastSequence, ops)], recorded)
  {
    var last := Batch(a.lastSequence, ops);
    var all := immLog + memLog;
    LogAppend(all, last);
    assert all + [last] == immLog + (memLog + [last]);
    LogConcat(immLog, memLog + [last]);
    assert (memLog + [last])[..|memLog|] == memLog;
  }

  lemma LogAppend(log: seq<Batch>, b: Batch)
    requires LogOk(log) && LogEnd(log, 0) <= b.base && b.base + |b.ops| <= MAX_SEQUENCE
    ensures LogOk(log + [b])
  {
    forall i | 0 <= i < |log| ensures log[i].base + |log[i].ops| <= b.base {
      assert i < |log| - 1 ==> log[i].base + |log[i].ops| <= log[|log| - 1].base;
    }
  }

  lemma LogSwitch(a: Db, memLog: seq<Batch>, recorded: SequenceNumber)
    requires LogsMatch(a, [], memLog, recorded)
    ensures LogsMatch(a.(mem := [], imm := Some(a.mem), immSynced := a.memSynced), memLog, [], recorded)
  {
    assert [] + memLog == memLog && memLog + [] == memLog;
  }

  lemma LogRetire(a: Db, b: Db, immLog: seq<Batch>, memLog: seq<Batch>, recorded: SequenceNumber)
    requires LogsMatch(a, immLog, memLog, recorded) && b.mem == a.mem && b.lastSequence == a.lastSequence
    ensures b.imm == None ==> LogsMatch(b, [], memLog, b.lastSequence)
    ensures b.imm == a.imm ==> LogsMatch(b, immLog, memLog, b.lastSequence)
    ensures b.imm == a.imm ==> LogsMatch(b, immLog, memLog, recorded)
  {
    assert [] + memLog == memLog;
    LogConcat(immLog, memLog);
    if memLog != [] {
      assert (immLog + memLog)[|immLog + memLog| - 1] == memLog[|memLog| - 1];
    }
  }

  lemma EmptyLogs(b: Db)
    requires b.mem == [] && b.imm == None
    ensures LogsMatch(b, [], [], b.lastSequence)
  {
    var none: seq<Batch> := [];
    assert none + none == none;
    assert LogEntries(none) == {} && Elements(b.mem) == {};
  }

  function RecoveryEdit(tables: seq<File>): Edit {
    Edit({}, seq(|tables|, i requires 0 <= i < |tables| => (0, tables[i])))
  }

  lemma RecoveryAdds(tables: seq<File>, l: nat)
    ensures AddedAt(RecoveryEdit(tables), l) == if l == 0 then FileSet(tables) else {}
  {
    forall f | f in FileSet(tables) ensures f in AddedAt(RecoveryEdit(tables), 0) {
      var i :| 0 <= i < |tables| && tables[i] == f;
      assert RecoveryEdit(tables).added[i] == (0, f);
    }
  }

  lemma RecoveryCompatible(v: Version, tables: seq<File>, first: nat)
    requires Valid(v) && Numbered(tables, first)
    requires forall l, g :: 0 <= l < NUM_LEVELS && g in v.levels[l] ==> g.number < first
    ensures Compatible(v, RecoveryEdit(tables)) && AddsFresh(v, RecoveryEdit(tables), first)
  {
    var e := RecoveryEdit(tables);
    hide NumbersName, OneWrite, Level0Recency, LevelRecency;
    ShapeSorted(v);
    LevelNumbers(v);
    forall l: nat ensures AddedAt(e, l) == if l == 0 then FileSet(tables) else {} {
      RecoveryAdds(tables, l);
    }
    forall l | 0 <= l < NUM_LEVELS
      ensures UniqueNumbers(FileSet(v.levels[l]) + AddedAt(e, l)) && FileSet(v.levels[l]) !! AddedAt(e, l)
    {
      assert forall f :: f in FileSet(v.levels[l]) ==> f in v.levels[l];
      if l > 0 {
        assert FileSet(v.levels[l]) + AddedAt(e, l) == FileSet(v.levels[l]);
      }
    }
  }

  lemma RecoveryInstalls(v: Version, tables: seq<File>, v': Version)
    requires Shape(v) && Applied(v, RecoveryEdit(tables), v')
    ensures AddsTables(v, FileSet(tables), v')
  {
    var e := RecoveryEdit(tables);
    ShapeSorted(v);
    forall l: nat | l < NUM_LEVELS
      ensures LevelAfter(FileSet(v.levels[l]), e, l) == FileSet(v.levels[l]) + if l == 0 then FileSet(tables) else {}
    {
      RecoveryAdds(tables, l);
    }
    forall l | 1 <= l < NUM_LEVELS ensures v'.levels[l] == v.levels[l] {
      SameSetSameList(v'.levels[l], v.levels[l]);
    }
  }

  // Replays both logs, oldest first.
  method ReplayLogs(immLog: seq<Batch>, memLog: seq<Batch>, recorded: SequenceNumber, first: nat,
                    full: seq<Entry> -> bool, sizeOf: seq<Entry> -> nat, ghost a: Db)
    returns (tables: seq<File>, lastSequence: nat)
    requires LogsMatch(a, immLog, memLog, recorded)
    ensures EntriesOf(FileSet(tables)) == Elements(a.mem) + ImmEntries(a) && lastSequence == a.lastSequence
    ensures Numbered(tables, first) && Level0Recency(FileSet(tables)) && UniqueNumbers(FileSet(tables))
  {
    hide Read, LogOutcome, OneWrite;
    assert EntriesOf(FileSet([])) == {};
    tables, lastSequence := RecoverLogFile(immLog, [], first, full, sizeOf, recorded, 0, {});
    assert {} + LogEntries(immLog) == LogEntries(immLog);
    LogOrder(immLog, memLog);
    tables, lastSequence :=
      RecoverLogFile(memLog, tables, first, full, sizeOf, lastSequence, LogEnd(immLog, 0), LogEntries(immLog));
    ghost var end := LogEnd(memLog, LogEnd(immLog, 0));
    IncreasingNewer(tables, end, first);
    assert EntriesOf(FileSet(tables)) + Elements([]) == EntriesOf(FileSet(tables));
  }

  lemma LogOrder(a: seq<Batch>, b: seq<Batch>)
    requires LogOk(a + b)
    ensures b != [] ==> LogEnd(a, 0) <= b[0].base && LogEnd(a + b, 0) == LogEnd(b, 0)
    ensures b == [] ==> a + b == a
  {
    if b != [] {
      assert (a + b)[|a|] == b[0];
      if a != [] { assert (a + b)[|a| - 1] == a[|a| - 1]; }
    }
  }

  // DBImpl::Recover from what is on disk: manifest, logs and the recorded sequence number.  The first
  // LogAndApply then starts a new manifest with a snapshot of the version the old one gave.
  method RecoverStore(manifest: seq<Edit>, immLog: seq<Batch>, memLog: seq<Batch>, recorded: SequenceNumber,
                      nextFile: nat, full: seq<Entry> -> bool, sizeOf: seq<Entry> -> nat, ghost a: Db)
    returns (v: Version, manifest': seq<Edit>, next: nat, lastSequence: nat)
    requires Inv(a) && ManifestOk(manifest, a.version, a.nextFile) && a.nextFile == nextFile
    requires LogsMatch(a, immLog, memLog, recorded)
    ensures lastSequence == a.lastSequence && AllEntries(Recovered(a, v, next)) == AllEntries(a)
    ensures Inv(Recovered(a, v, next)) && RecoverStep(a, Recovered(a, v, next)) && ManifestOk(manifest', v, next)
    ensures manifest' != [] && manifest'[0] == SnapshotEdit(a.version)
  {
    hide Inv, ManifestOk, Valid, LogsMatch, RecoverStep, SnapshotEdit;
    VersionOf(a);
    var base := ReplayManifest(manifest, a.version, nextFile);
    var tables;
    tables, lastSequence := ReplayLogs(immLog, memLog, recorded, nextFile, full, sizeOf, a);
    RecoveryCompatible(base, tables, nextFile);
    v := LogAndApply(base, RecoveryEdit(tables));
    RecoveryInstalls(base, tables, v);
    next := nextFile + |tables|;
    RecoveryIsStep(a, tables, v);
    SnapshotManifest(base, nextFile);
    manifest' := [SnapshotEdit(base), RecoveryEdit(tables)];
    assert manifest' == [SnapshotEdit(base)] + [RecoveryEdit(tables)];
    RecoveryManifest(a, [SnapshotEdit(base)], tables, v);
  }

  ghost function Recovered(a: Db, v: Version, next: nat): Db {
    a.(mem := [], imm := None, version := v, nextFile := next, snapshots := [])
  }

  lemma RecoveryIsStep(a: Db, tables: seq<File>, v: Version)
    requires Inv(a) && AddsTables(a.version, FileSet(tables), v) && Numbered(tables, a.nextFile)
    requires EntriesOf(FileSet(tables)) == Elements(a.mem) + ImmEntries(a)
    requires Level0Recency(FileSet(tables)) && UniqueNumbers(FileSet(tables))
    ensures Inv(Recovered(a, v, a.nextFile + |tables|)) && RecoverStep(a, Recovered(a, v, a.nextFile + |tables|))
    ensures Valid(v)
    ensures AllEntries(Recovered(a, v, a.nextFile + |tables|)) == AllEntries(a)
  {
    hide Inv, AddsTables, Level0Recency, AllEntries;
    var b := Recovered(a, v, a.nextFile + |tables|);
    assert Recovers(a, FileSet(tables), b);
    RecoverKeeps(a, b);
    VersionOf(b);
  }

  lemma RecoveryManifest(a: Db, manifest: seq<Edit>, tables: seq<File>, v: Version)
    requires Inv(a) && ManifestOk(manifest, a.version, a.nextFile) && Numbered(tables, a.nextFile) && Valid(v)
    requires Applied(a.version, RecoveryEdit(tables), v) && AddsTables(a.version, FileSet(tables), v)
    ensures ManifestOk(manifest + [RecoveryEdit(tables)], v, a.nextFile + |tables|)
  {
    hide Inv, ManifestOk, Level0Recency, LevelRecency, OneWrite;
    VersionOf(a);
    RecoveryCompatible(a.version, tables, a.nextFile);
    ValidOnePlace(v);
    forall l: nat, g | g in AddedAt(RecoveryEdit(tables), l)
      ensures l < NUM_LEVELS && g.number < a.nextFile + |tables| && g in v.levels[l]
    {
      RecoveryAdds(tables, l);
      assert g in FileSet(v.levels[0]);
    }
    ManifestStep(manifest, a.version, RecoveryEdit(tables), v, a.nextFile, a.nextFile + |tables|);
  }

  // ---- Logs cut by a crash ----

  // The first n1 batches of the old log and the first n2 of the current one survive, the synced ones among
  // them.
  ghost predicate OnDisk(a: Db, immLog: seq<Batch>, memLog: seq<Batch>, n1: nat, n2: nat) {
    n1 <= |immLog| && n2 <= |memLog|
    && (n1 < |immLog| ==> a.immSynced <= immLog[n1].base) && (n2 < |memLog| ==> a.memSynced <= memLog[n2].base)
  }

  // What the manifest records covers the files and the compactions.
  ghost predicate Covered(a: Db, recorded: nat) {
    a.floor <= recorded && forall e :: e in Flushed(a) ==> e.sn <= recorded
  }

  // Of a log, exactly the batches before the cut are kept.
  lemma CutEntries(log: seq<Batch>, k: nat, s: nat)
    requires LogOk(log) && k <= |log| && (k < |log| ==> s <= log[k].base) && (k > 0 ==> LogEnd(log[..k], 0) <= s)
    ensures LogOk(log[..k]) && UpTo(LogEntries(log), s) == LogEntries(log[..k])
  {
    assert log == log[..k] + log[k..];
    LogConcat(log[..k], log[k..]);
    LogBounds(log[..k]);
    LogBounds(log[k..]);
  }

  // Batch ends do not pass later batches' beginnings.
  lemma EndBefore(log: seq<Batch>, k: nat, m: nat)
    requires LogOk(log) && k <= m <= |log|
    ensures LogEnd(log[..k], 0) <= LogEnd(log[..m], 0) && (m < |log| ==> LogEnd(log[..m], 0) <= log[m].base)
  {
    assert k > 0 ==> log[..k][k - 1] == log[k - 1];
    assert m > 0 ==> log[..m][m - 1] == log[m - 1];
  }

  lemma LogPart(log: seq<Batch>, k: nat)
    requires LogOk(log) && k <= |log|
    ensures LogOk(log[..k]) && LogOk(log[k..]) && LogEntries(log) == LogEntries(log[..k]) + LogEntries(log[k..])
  {
    assert log == log[..k] + log[k..];
    LogConcat(log[..k], log[k..]);
  }

  // What is left of the two logs is in order.
  lemma CutOk(immLog: seq<Batch>, memLog: seq<Batch>, n1: nat, n2: nat)
    requires LogOk(immLog + memLog) && n1 <= |immLog| && n2 <= |memLog|
    ensures LogOk(immLog[..n1] + memLog[..n2])
  {
    var all, cut := immLog + memLog, immLog[..n1] + memLog[..n2];
    forall i | 0 <= i < |cut| ensures cut[i] == all[Place(|immLog|, n1, i)] {
    }
    forall i | 0 <= i < |cut| ensures cut[i].base + |cut[i].ops| <= MAX_SEQUENCE {
      assert cut[i] == all[Place(|immLog|, n1, i)];
    }
    forall i, j | 0 <= i < j < |cut| ensures cut[i].base + |cut[i].ops| <= cut[j].base {
      assert cut[i] == all[Place(|immLog|, n1, i)] && cut[j] == all[Place(|immLog|, n1, j)];
    }
  }

  function Place(p: nat, n1: nat, i: nat): nat
    requires n1 <= p
  {
    if i < n1 then i else i + p - n1
  }

  lemma LastEnd(a: seq<Batch>, b: seq<Batch>)
    ensures LogEnd(a + b, 0) == if b == [] then LogEnd(a, 0) else LogEnd(b, 0)
  {
    assert b == [] ==> a + b == a;
  }

  // The sequence number below which a log cut at n has everything.
  function CutAt(log: seq<Batch>, n: nat, end: nat): nat {
    if n < |log| then log[n].base else end
  }

  lemma CutLog(log: seq<Batch>, n: nat, end: nat)
    requires LogOk(log) && n <= |log| && LogEnd(log, 0) <= end
    ensures LogOk(log[..n]) && UpTo(LogEntries(log), CutAt(log, n, end)) == LogEntries(log[..n])
  {
    EndBefore(log, n, |log|);
    EndBefore(log, n, n);
    assert log[..|log|] == log;
    CutEntries(log, n, CutAt(log, n, end));
  }

  ghost predicate NoOps(log: seq<Batch>) {
    forall i :: 0 <= i < |log| ==> log[i].ops == []
  }

  lemma {:induction false} EmptyLogIff(log: seq<Batch>)
    requires LogOk(log)
    ensures LogEntries(log) == {} <==> NoOps(log)
  {
    if log != [] {
      var init, last := log[..|log| - 1], log[|log| - 1];
      EmptyLogIff(init);
      if last.ops != [] {
        assert Stamp(last.ops[0], last.base + 1) in BatchEntries(last);
      }
      assert NoOps(log) <==> NoOps(init) && last.ops == [];
    }
  }

  // The rest of a cut log is lost entirely, unless it holds no operation.
  lemma LostPart(log: seq<Batch>, n: nat)
    requires LogOk(log) && n <= |log|
    ensures LogOk(log[..n]) && LogOk(log[n..])
    ensures LogEntries(log[..n]) == LogEntries(log) <==> NoOps(log[n..])
  {
    LogPart(log, n);
    EmptyLogIff(log[n..]);
    LogBounds(log[..n]);
    LogBounds(log[n..]);
    EndBefore(log, n, n);
    if e :| e in LogEntries(log[n..]) {
      assert log[n..][0] == log[n];
      assert e !in LogEntries(log[..n]);
    }
  }

  // What comes back after the crash: the flushed writes and those in what is left of each log.
  ghost predicate Left(a: Db, immLog: seq<Batch>, memLog: seq<Batch>, hist: set<Entry>) {
    LogOk(immLog) && LogOk(memLog) && hist == Flushed(a) + LogEntries(immLog) + LogEntries(memLog)
  }

  ghost predicate ComesBack(a: Db, c: Db) {
    c.snapshots == [] && exists b :: LoseStep(a, b) && RecoverStep(b, c) && c.hist == b.hist
  }

  lemma LogFits(a: Db, immLog: seq<Batch>, memLog: seq<Batch>, recorded: SequenceNumber)
    requires LogsMatch(a, immLog, memLog, recorded)
    ensures LogEnd(immLog, 0) <= a.lastSequence && LogEnd(memLog, 0) <= a.lastSequence
  {
    LogOrder(immLog, memLog);
    LastEnd(immLog, memLog);
    assert memLog != [] ==> memLog[0].base <= LogEnd(memLog, 0) by {
      assert |memLog| > 1 ==> memLog[0].base + |memLog[0].ops| <= memLog[|memLog| - 1].base;
    }
  }

  // The last sequence number after the crash, the larger of the recorded one and the end of what is left.
  function LastLeft(immLog: seq<Batch>, memLog: seq<Batch>, n1: nat, n2: nat, recorded: nat): nat
    requires n1 <= |immLog| && n2 <= |memLog|
  {
    Max(recorded, LogEnd(immLog[..n1] + memLog[..n2], 0))
  }

  lemma LastLeftIs(a: Db, immLog: seq<Batch>, memLog: seq<Batch>, n1: nat, n2: nat, recorded: SequenceNumber)
    requires LogsMatch(a, immLog, memLog, recorded) && n1 <= |immLog| && n2 <= |memLog|
    ensures recorded <= LastLeft(immLog, memLog, n1, n2, recorded) <= a.lastSequence
    ensures LogOk(immLog[..n1] + memLog[..n2]) && LogOk(immLog[..n1]) && LogOk(memLog[..n2])
    ensures forall e :: e in LogEntries(immLog[..n1]) + LogEntries(memLog[..n2]) ==>
      e.sn <= LastLeft(immLog, memLog, n1, n2, recorded)
  {
    LogFits(a, immLog, memLog, recorded);
    CutOk(immLog, memLog, n1, n2);
    LogConcat(immLog[..n1], memLog[..n2]);
    LogBounds(immLog[..n1] + memLog[..n2]);
    LastEnd(immLog[..n1], memLog[..n2]);
    EndBefore(immLog, n1, |immLog|);
    EndBefore(memLog, n2, |memLog|);
    assert immLog[..|immLog|] == immLog && memLog[..|memLog|] == memLog;
  }

  // A crash that cuts the two logs loses their tails and nothing else; what is left is a prefix of the
  // writes exactly when the lost part of the old log, or the surviving part of the new one, is without
  // operations.
  lemma CrashIsLoss(a: Db, immLog: seq<Batch>, memLog: seq<Batch>, recorded: SequenceNumber, n1: nat, n2: nat)
    returns (b: Db)
    requires Inv(a) && LogsMatch(a, immLog, memLog, recorded) && Covered(a, recorded)
    requires OnDisk(a, immLog, memLog, n1, n2)
    ensures Inv(b) && LoseStep(a, b) && LogsMatch(b, immLog[..n1], memLog[..n2], recorded)
    ensures b == a.(mem := b.mem, imm := b.imm, hist := b.hist, lastSequence := b.lastSequence, snapshots := [],
                    immSynced := b.lastSequence, memSynced := b.lastSequence)
    ensures Left(a, immLog[..n1], memLog[..n2], b.hist)
    ensures PrefixOf(b.hist, a.hist) <==> NoOps(immLog[n1..]) || NoOps(memLog[..n2])
    ensures AllEntries(b) == VersionEntries(a.version) + LogEntries(immLog[..n1]) + LogEntries(memLog[..n2])
  {
    hide Valid, Faithful, LogOk, LogEntries, LogEnd, NoOps, Keep;
    LogFits(a, immLog, memLog, recorded);
    LastLeftIs(a, immLog, memLog, n1, n2, recorded);
    CutLog(immLog, n1, a.lastSequence);
    CutLog(memLog, n2, a.lastSequence);
    var s1, s2 := CutAt(immLog, n1, a.lastSequence), CutAt(memLog, n2, a.lastSequence);
    var last := LastLeft(immLog, memLog, n1, n2, recorded);
    b := Cut(a, s1, s2, last);
    CutLoses(a, s1, s2, last);
    assert LoseStep(a, b);
    LoseKeeps(a, b);
    CrashPrefixIff(a, s1, s2, b);
    LostPart(immLog, n1);
    EmptyLogIff(memLog[..n2]);
    assert b.mem == [] <==> Elements(b.mem) == {} by {
      if b.mem != [] { assert b.mem[0] in Elements(b.mem); }
    }
  }

  // ---- The manifest's record stays ahead of the files ----

  lemma CoveredNow(b: Db)
    requires Inv(b)
    ensures Covered(b, b.lastSequence)
  {
    hide Valid, Faithful, Layers;
  }

  lemma CoveredWrite(a: Db, b: Db, ops: seq<WriteOp>, recorded: nat)
    requires Inv(a) && Covered(a, recorded) && a.lastSequence + |ops| < MAX_SEQUENCE && b.imm == a.imm
      && b.floor == a.floor
    requires Elements(b.mem) == Elements(a.mem) + Stamped(ops, a.lastSequence, |ops|)
    requires b.hist == a.hist + Stamped(ops, a.lastSequence, |ops|)
    ensures Covered(b, recorded)
  {
    hide Valid, Faithful, Layers;
    StampedNumbers(ops, a.lastSequence, |ops|);
    assert Flushed(b) <= Flushed(a);
  }

  lemma CoveredSwitch(a: Db, b: Db, recorded: nat)
    requires Covered(a, recorded) && b.hist == a.hist && b.floor == a.floor
    requires (b.mem == a.mem && b.imm == a.imm) || (a.imm == None && b.mem == [] && b.imm == Some(a.mem))
    ensures Covered(b, recorded)
  {
    assert MemEntries(b) == MemEntries(a);
  }

  // Recovery from the manifest and what is left of the two logs.
  method RecoverAfterCrash(manifest: seq<Edit>, immLog: seq<Batch>, memLog: seq<Batch>, recorded: SequenceNumber,
                           nextFile: nat, n1: nat, n2: nat, full: seq<Entry> -> bool, sizeOf: seq<Entry> -> nat,
                           ghost a: Db)
    returns (v: Version, manifest': seq<Edit>, next: nat, last: SequenceNumber, ghost c: Db)
    requires Inv(a) && ManifestOk(manifest, a.version, a.nextFile) && a.nextFile == nextFile
    requires LogsMatch(a, immLog, memLog, recorded) && Covered(a, recorded)
    requires OnDisk(a, immLog, memLog, n1, n2)
    ensures c == a.(mem := [], imm := None, version := v, nextFile := next, lastSequence := last, snapshots := [],
                    hist := c.hist, immSynced := last, memSynced := last)
    ensures Inv(c) && ManifestOk(manifest', v, next) && LogsMatch(c, [], [], last) && Covered(c, last)
    ensures manifest' != [] && manifest'[0] == SnapshotEdit(a.version)
    ensures ComesBack(a, c) && Left(a, immLog[..n1], memLog[..n2], c.hist)
    ensures PrefixOf(c.hist, a.hist) <==> NoOps(immLog[n1..]) || NoOps(memLog[..n2])
    ensures AllEntries(c) == VersionEntries(a.version) + LogEntries(immLog[..n1]) + LogEntries(memLog[..n2])
    ensures ReadsReplayed(a, immLog[..n1], memLog[..n2], c)
  {
    hide Inv, ManifestOk, LogsMatch, AllEntries, Covered, LoseStep, RecoverStep, PrefixOf, NoOps, Left, VersionEntries,
      ReadsReplayed;
    ghost var b := CrashIsLoss(a, immLog, memLog, recorded, n1, n2);
    var lastSequence;
    v, manifest', next, lastSequence :=
      RecoverStore(manifest, immLog[..n1], memLog[..n2], recorded, nextFile, full, sizeOf, b);
    last := lastSequence;
    c := Recovered(b, v, next);
    EmptyLogs(c);
    CoveredNow(c);
    RecoveredReads(a, immLog, memLog, recorded, n1, n2, c);
  }

  // After recovery a key holds what the table files held, and then the batches left of each log put there.
  ghost predicate ReadsReplayed(a: Db, immLog: seq<Batch>, memLog: seq<Batch>, c: Db) {
    forall k: UserKey :: Read(AllEntries(c), k, c.lastSequence) ==
      LogOutcome(memLog, k, LogOutcome(immLog, k, Read(VersionEntries(a.version), k, a.lastSequence)))
  }

  lemma RecoveredReads(a: Db, immLog: seq<Batch>, memLog: seq<Batch>, recorded: SequenceNumber, n1: nat, n2: nat,
                       c: Db)
    requires Inv(a) && LogsMatch(a, immLog, memLog, recorded) && n1 <= |immLog| && n2 <= |memLog| && Inv(c)
    requires Left(a, immLog[..n1], memLog[..n2], c.hist)
    requires AllEntries(c) == VersionEntries(a.version) + LogEntries(immLog[..n1]) + LogEntries(memLog[..n2])
    ensures ReadsReplayed(a, immLog[..n1], memLog[..n2], c)
  {
    hide Valid, Files, Snapshots, Faithful, LogOk, LogEntries, LogOutcome, VersionEntries, AllEntries, Newer;
    var T, A, B, t := VersionEntries(a.version), LogEntries(immLog[..n1]), LogEntries(memLog[..n2]), c.lastSequence;
    LogPart(immLog, n1);
    LogPart(memLog, n2);
    LayersApart(a, T, A, B);
    StoredBelow(c);
    forall k: UserKey
      ensures Read(AllEntries(c), k, t) ==
        LogOutcome(memLog[..n2], k, LogOutcome(immLog[..n1], k, Read(T, k, a.lastSequence)))
    {
      LogReads(T, immLog[..n1], k, t);
      LogReads(T + A, memLog[..n2], k, t);
      SameLast(T, k, t, a.lastSequence);
    }
  }

  lemma SameLast(E: set<Entry>, k: UserKey, s: nat, t: nat)
    requires OneWrite(E) && forall e :: e in E ==> e.sn <= s && e.sn <= t
    ensures Read(E, k, s) == Read(E, k, t)
  {
    if s <= t {
      ReadAbove(E, k, s, t);
    } else {
      ReadAbove(E, k, t, s);
    }
  }

  lemma StoredBelow(c: Db)
    requires Inv(c)
    ensures OneWrite(AllEntries(c)) && forall e :: e in AllEntries(c) ==> e.sn <= c.lastSequence
  {
    hide Valid, Files, Snapshots, Faithful, Layers;
  }

  // Flushed writes are older than those of the old log, and these than those of the current one.
  lemma LayersApart(a: Db, T: set<Entry>, A: set<Entry>, B: set<Entry>)
    requires Inv(a) && T == VersionEntries(a.version) && A <= ImmEntries(a) && B <= Elements(a.mem)
    ensures Earlier(T, A) && Earlier(T + A, B) && OneWrite(T) && forall e :: e in T ==> e.sn <= a.lastSequence
  {
    hide Valid, Files, Snapshots, Faithful;
    TablesFlushed(a);
    OneWriteSubset(a.hist, T);
  }
}
