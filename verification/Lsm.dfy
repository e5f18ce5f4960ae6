// Whole runs of the store.

module Lsm {
  // Writes, memtable switches, flushes, compactions, moves and snapshots,
  // and what a read may rely on throughout (db/db_impl.cc).

  import opened DbFormat
  import opened Versions
  import opened Compactions

  // hist is every write made and not lost in a crash; immSynced and memSynced are the last sequence numbers
  // known to be on disk in the log of the immutable memtable and in the current log; floor is the largest
  // smallest-snapshot any compaction used; leaked holds the keys any compaction leaked (Compactions.Leaks).
  datatype Db = Db(mem: seq<Entry>, imm: Option<seq<Entry>>, version: Version, nextFile: nat,
                   lastSequence: SequenceNumber, snapshots: seq<SequenceNumber>,
                   hist: set<Entry>, immSynced: SequenceNumber, memSynced: SequenceNumber,
                   floor: SequenceNumber, leaked: set<UserKey>)

  ghost function ImmEntries(db: Db): set<Entry> {
    if db.imm.Some? then Elements(db.imm.value) else {}
  }

  ghost function MemEntries(db: Db): set<Entry> {
    Elements(db.mem) + ImmEntries(db)
  }

  // The writes that have left the memtables for table files.
  ghost function Flushed(db: Db): set<Entry> {
    db.hist - MemEntries(db)
  }

  ghost function AllEntries(db: Db): set<Entry> {
    Elements(db.mem) + (ImmEntries(db) + VersionEntries(db.version))
  }

  // The write history and what is stored of it.
  ghost predicate Stored(db: Db) {
    AllEntries(db) <= db.hist && OneWrite(db.hist)
    && db.immSynced <= db.lastSequence && db.memSynced <= db.lastSequence < MAX_SEQUENCE
    && forall e :: e in db.hist ==> 0 < e.sn <= db.lastSequence
  }

  ghost predicate Earlier(A: set<Entry>, B: set<Entry>) {
    forall a, b :: a in A && b in B ==> a.sn < b.sn
  }

  ghost predicate Layers(db: Db) {
    Sorted(db.mem) && (db.imm.Some? ==> Sorted(db.imm.value))
    && Newer(Elements(db.mem), ImmEntries(db) + VersionEntries(db.version))
    && Newer(ImmEntries(db), VersionEntries(db.version))
    && Earlier(ImmEntries(db), Elements(db.mem)) && Earlier(Flushed(db), MemEntries(db))
  }

  ghost predicate Files(db: Db) {
    Valid(db.version)
    && forall l, f :: 0 <= l < NUM_LEVELS && f in db.version.levels[l] ==> f.number < db.nextFile
  }

  ghost predicate Snapshots(db: Db) {
    db.floor <= db.lastSequence
    && (forall i :: 0 <= i < |db.snapshots| ==> db.floor <= db.snapshots[i] <= db.lastSequence)
    && forall i, j :: 0 <= i < j < |db.snapshots| ==> db.snapshots[i] <= db.snapshots[j]
  }

  // Every permitted read of a key from the table files gives what all flushed writes give.
  ghost predicate FaithfulFor(db: Db, k: UserKey) {
    forall t: SequenceNumber :: t >= db.floor ==> Read(VersionEntries(db.version), k, t) == Read(Flushed(db), k, t)
  }

  ghost predicate Faithful(db: Db) {
    forall k :: k !in db.leaked ==> FaithfulFor(db, k)
  }

  ghost predicate Inv(db: Db) {
    Stored(db) && Layers(db) && Files(db) && Snapshots(db) && Faithful(db)
  }

  const INITIAL := Db([], None, EMPTY_VERSION, 1, 0, [], {}, 0, 0, 0, {})

  // ---- Steps ----

  // The entries N take sequence numbers after lo, up to hi.
  ghost predicate Numbers(N: set<Entry>, lo: nat, hi: nat) {
    OneWrite(N) && forall e :: e in N ==> lo < e.sn <= hi
  }

  // A group of writes N gets the next sequence numbers and goes to the memtable, perhaps after the current
  // log is synced.
  ghost predicate Writes(a: Db, N: set<Entry>, b: Db) {
    b == a.(mem := b.mem, lastSequence := b.lastSequence, hist := a.hist + N, memSynced := b.memSynced)
    && (b.memSynced == a.memSynced || b.memSynced == b.lastSequence)
    && Sorted(b.mem) && Elements(b.mem) == Elements(a.mem) + N
    && a.lastSequence <= b.lastSequence < MAX_SEQUENCE && Numbers(N, a.lastSequence, b.lastSequence)
  }

  ghost predicate WriteStep(a: Db, b: Db) {
    exists N :: Writes(a, N, b)
  }

  // The full memtable becomes the immutable one and its log the old one, closed without a sync.
  ghost predicate SwitchStep(a: Db, b: Db) {
    a.imm == None && b == a.(mem := [], imm := Some(a.mem), immSynced := a.memSynced)
  }

  ghost predicate Added(v: Version, level: nat, f: File, v': Version)
    requires level < |v.levels|
  {
    |v'.levels| == |v.levels|
    && (forall l :: 0 <= l < |v.levels| && l != level ==> v'.levels[l] == v.levels[l])
    && FileSet(v'.levels[level]) == FileSet(v.levels[level]) + {f}
    && BySmallest(v'.levels[level])
  }

  ghost predicate Flushes(a: Db, level: nat, f: File, b: Db) {
    a.imm == Some(f.run) && Placeable(a.version, level, f) && f.number == a.nextFile
    && b == a.(imm := None, version := b.version, nextFile := b.nextFile)
    && b.nextFile == a.nextFile + 1 && Added(a.version, level, f, b.version)
  }

  ghost predicate FlushStep(a: Db, b: Db) {
    a.imm.Some?
    && if a.imm.value == [] then
         b == a.(imm := None, nextFile := b.nextFile) && a.nextFile <= b.nextFile
       else
         exists level, f :: Flushes(a, level, f, b)
  }

  // The sequence number of the oldest snapshot, or the last write.
  function SmallestSnapshot(db: Db): SequenceNumber {
    if db.snapshots == [] then db.lastSequence else db.snapshots[0]
  }

  ghost predicate Compacts(a: Db, c: Inputs, outs: set<File>, b: Db) {
    GoodInputs(a.version, c) && Compacted(a.version, c, SmallestSnapshot(a), outs)
    && Installed(a.version, c, outs, b.version) && Separated(outs) && UniqueNumbers(outs)
    && (forall f :: f in outs ==> a.nextFile <= f.number < b.nextFile)
    && b == a.(version := b.version, nextFile := b.nextFile, floor := SmallestSnapshot(a), leaked := b.leaked)
    && a.nextFile <= b.nextFile && b.leaked == a.leaked + LeakedKeys(a.version, c, SmallestSnapshot(a))
  }

  ghost predicate CompactStep(a: Db, b: Db) {
    exists c, outs :: Compacts(a, c, outs, b)
  }

  // A trivial move takes one file down a level unchanged.
  ghost predicate Moves(a: Db, c: Inputs, f: File, b: Db) {
    c.A == {f} && c.B == {} && GoodInputs(a.version, c) && Installed(a.version, c, {f}, b.version)
    && b == a.(version := b.version)
  }

  ghost predicate MoveStep(a: Db, b: Db) {
    exists c, f :: Moves(a, c, f, b)
  }

  // A crash: of each log, a tail since its last sync may be lost, with what the process held.  What is
  // left is on disk.
  ghost predicate Loses(a: Db, s1: nat, s2: nat, b: Db) {
    a.immSynced <= s1 && a.memSynced <= s2 && a.floor <= b.lastSequence <= a.lastSequence
    && b == a.(mem := b.mem, imm := b.imm, hist := b.hist, lastSequence := b.lastSequence, snapshots := [],
               immSynced := b.lastSequence, memSynced := b.lastSequence)
    && Sorted(b.mem) && Elements(b.mem) == UpTo(Elements(a.mem), s2)
    && b.imm.Some? == a.imm.Some? && (b.imm.Some? ==> Sorted(b.imm.value))
    && ImmEntries(b) == UpTo(ImmEntries(a), s1)
    && b.hist == Flushed(a) + MemEntries(b) && forall e :: e in b.hist ==> e.sn <= b.lastSequence
  }

  ghost function UpTo(E: set<Entry>, s: nat): set<Entry> {
    set e | e in E && e.sn <= s
  }

  ghost predicate LoseStep(a: Db, b: Db) {
    exists s1: nat, s2: nat :: Loses(a, s1, s2, b)
  }

  // A recovery: the logged memtables come back as level-0 tables, snapshots are gone.
  ghost predicate Recovers(a: Db, tables: set<File>, b: Db) {
    EntriesOf(tables) == Elements(a.mem) + ImmEntries(a) && UniqueNumbers(tables) && Level0Recency(tables)
    && (forall f :: f in tables ==> a.nextFile <= f.number < b.nextFile) && a.nextFile <= b.nextFile
    && AddsTables(a.version, tables, b.version)
    && b == a.(mem := [], imm := None, version := b.version, nextFile := b.nextFile, snapshots := [])
  }

  ghost predicate AddsTables(v: Version, tables: set<File>, v': Version) {
    |v.levels| == |v'.levels| == NUM_LEVELS
    && (forall l :: 1 <= l < NUM_LEVELS ==> v'.levels[l] == v.levels[l])
    && FileSet(v'.levels[0]) == FileSet(v.levels[0]) + tables && BySmallest(v'.levels[0])
  }

  ghost predicate RecoverStep(a: Db, b: Db) {
    exists tables :: Recovers(a, tables, b)
  }

  ghost predicate SnapshotStep(a: Db, b: Db) {
    b == a.(snapshots := a.snapshots + [a.lastSequence])
  }

  ghost predicate ReleaseStep(a: Db, b: Db) {
    exists i :: 0 <= i < |a.snapshots| && b == a.(snapshots := a.snapshots[..i] + a.snapshots[i + 1..])
  }

  ghost predicate Step(a: Db, b: Db) {
    WriteStep(a, b) || SwitchStep(a, b) || FlushStep(a, b) || CompactStep(a, b) || MoveStep(a, b)
    || SnapshotStep(a, b) || ReleaseStep(a, b) || RecoverStep(a, b) || LoseStep(a, b)
  }

  ghost predicate Run(trace: seq<Db>) {
    trace != [] && trace[0] == INITIAL && forall i :: 0 <= i < |trace| - 1 ==> Step(trace[i], trace[i + 1])
  }

  // ---- Reading through layers ----

  // With A newer than B, a read of both looks in A first.
  lemma Layered(A: set<Entry>, B: set<Entry>, k: UserKey, t: nat)
    requires Newer(A, B) && OneWrite(A + B)
    ensures Newest(A + B, k, t) == if Newest(A, k, t).Some? then Newest(A, k, t) else Newest(B, k, t)
  {
    NewestNone(A, k, t);
    if Newest(A, k, t).Some? {
      var e := Newest(A, k, t).value;
      assert IsNewest(A + B, k, t, e);
      NewestIs(A + B, k, t, e);
    } else {
      OneWriteSubset(A + B, B);
      ReadAgrees(A + B, B, k, t);
    }
  }

  lemma InitialInv()
    ensures Inv(INITIAL)
  {
    NothingIn(EMPTY_VERSION);
    assert AllEntries(INITIAL) == {};
  }

  lemma NothingIn(v: Version)
    requires |v.levels| == NUM_LEVELS && forall l :: 0 <= l < NUM_LEVELS ==> v.levels[l] == []
    ensures VersionEntries(v) == {} && Valid(v)
  {
    forall l | 0 <= l < NUM_LEVELS ensures LevelEntries(v, l) == {} && forall f :: f !in v.levels[l] {
      assert FileSet(v.levels[l]) == {};
    }
    assert VersionEntries(v) == {};
    assert Shape(v) && NumbersName(v) && Level0Recency(FileSet(v.levels[0]));
  }

  // ---- Each step keeps the invariant ----

  // Newer writes on both sides keep reads equal.
  lemma SameAbove(N: set<Entry>, A: set<Entry>, H: set<Entry>, k: UserKey, t: nat)
    requires Newer(N, A) && Newer(N, H) && OneWrite(N + H) && A <= H && Read(A, k, t) == Read(H, k, t)
    ensures Read(N + A, k, t) == Read(N + H, k, t)
  {
    OneWriteSubset(N + H, N + A);
    Layered(N, A, k, t);
    Layered(N, H, k, t);
  }

  // What a whole-store read sees, from what a read of the table files sees.
  lemma WholeRead(db: Db, k: UserKey, t: nat)
    requires Stored(db) && Layers(db) && Read(VersionEntries(db.version), k, t) == Read(Flushed(db), k, t)
    ensures Read(AllEntries(db), k, t) == Read(db.hist, k, t)
  {
    var N, A, H := MemEntries(db), VersionEntries(db.version), Flushed(db);
    TablesFlushed(db);
    assert N + A == AllEntries(db) && N + H == db.hist;
    SameAbove(N, A, H, k, t);
  }

  // Nothing in the table files is in a memtable.
  lemma TablesFlushed(db: Db)
    requires Stored(db) && Layers(db)
    ensures VersionEntries(db.version) <= Flushed(db)
    ensures Newer(MemEntries(db), VersionEntries(db.version)) && Newer(MemEntries(db), Flushed(db))
    ensures Elements(db.mem) !! ImmEntries(db)
  {
  }

  lemma WriteKeeps(a: Db, b: Db)
    requires Inv(a) && WriteStep(a, b)
    ensures Inv(b)
  {
    hide Valid;
    var N :| Writes(a, N, b);
    assert AllEntries(b) == N + AllEntries(a);
    assert Flushed(b) == Flushed(a);
  }

  lemma SwitchKeeps(a: Db, b: Db)
    requires Inv(a) && SwitchStep(a, b)
    ensures Inv(b)
  {
    hide Valid;
    assert AllEntries(b) == AllEntries(a);
    assert Elements(b.mem) == {} && ImmEntries(b) == Elements(a.mem) && ImmEntries(a) == {};
    assert MemEntries(b) == MemEntries(a) && Flushed(b) == Flushed(a);
  }

  lemma AddedEntries(v: Version, level: nat, f: File, v': Version)
    requires level < |v.levels| && Added(v, level, f, v')
    ensures LevelEntries(v', level) == LevelEntries(v, level) + Elements(f.run)
    ensures VersionEntries(v') == VersionEntries(v) + Elements(f.run)
  {
    EntriesUnion(FileSet(v.levels[level]), {f});
    assert EntriesOf({f}) == Elements(f.run);
    forall e | e in VersionEntries(v') ensures e in VersionEntries(v) + Elements(f.run) {
      var l :| 0 <= l < |v'.levels| && e in LevelEntries(v', l);
      assert e in LevelEntries(v, l) || e in Elements(f.run);
    }
    forall e | e in VersionEntries(v) + Elements(f.run) ensures e in VersionEntries(v') {
      if e in VersionEntries(v) {
        var l :| 0 <= l < |v.levels| && e in LevelEntries(v, l);
        assert e in LevelEntries(v', l);
      } else {
        assert e in LevelEntries(v', level);
      }
    }
  }

  // A table newer than the version keeps the version invariant wherever it may be placed.
  lemma FlushValid(v: Version, level: nat, f: File, v': Version)
    requires Valid(v) && Placeable(v, level, f) && Added(v, level, f, v')
    requires Newer(Elements(f.run), VersionEntries(v)) && OneWrite(VersionEntries(v) + Elements(f.run))
    requires forall l, g :: 0 <= l < NUM_LEVELS && g in v.levels[l] ==> g.number < f.number
    ensures Valid(v')
  {
    AddedEntries(v, level, f, v');
    FlushShape(v, level, f, v');
    FlushLevels(v, level, f, v');
    FlushNumbers(v, level, f, v');
    FlushLevel0(v, level, f, v');
  }

  lemma FlushShape(v: Version, level: nat, f: File, v': Version)
    requires Shape(v) && Placeable(v, level, f) && Added(v, level, f, v')
    ensures Shape(v')
  {
    if level > 0 {
      forall g, h | g in FileSet(v'.levels[level]) && h in FileSet(v'.levels[level]) && g != h ensures Apart(g, h) {
        FlushApart(v, level, f, g, h);
      }
      SortedAndApart(v'.levels[level]);
    }
  }

  lemma FlushLevels(v: Version, level: nat, f: File, v': Version)
    requires LevelRecency(v) && Placeable(v, level, f) && Added(v, level, f, v')
    requires Newer(Elements(f.run), VersionEntries(v))
    ensures LevelRecency(v')
  {
    forall l, m | 0 <= l < m < |v'.levels| ensures Newer(LevelEntries(v', l), LevelEntries(v', m)) {
      forall a, b | a in LevelEntries(v', l) && b in LevelEntries(v', m) && a.user == b.user ensures a.sn > b.sn {
        FlushRecency(v, level, f, v', l, m, a, b);
      }
    }
  }

  lemma FlushApart(v: Version, level: nat, f: File, g: File, h: File)
    requires Shape(v) && Placeable(v, level, f) && level > 0
    requires g in v.levels[level] || g == f
    requires h in v.levels[level] || h == f
    requires g != h
    ensures Apart(g, h)
  {
    assert ClearOf(v.levels[level], f);
    if g != f && h != f {
      InOrderApart(v.levels[level], g, h);
    }
  }

  lemma FlushRecency(v: Version, level: nat, f: File, v': Version, l: nat, m: nat, a: Entry, b: Entry)
    requires LevelRecency(v) && Placeable(v, level, f) && Added(v, level, f, v')
    requires Newer(Elements(f.run), VersionEntries(v))
    requires l < m < |v'.levels| && a in LevelEntries(v', l) && b in LevelEntries(v', m) && a.user == b.user
    ensures a.sn > b.sn
  {
    AddedEntries(v, level, f, v');
    if a in LevelEntries(v, l) && b in LevelEntries(v, m) {
      assert Newer(LevelEntries(v, l), LevelEntries(v, m));
    } else if b in LevelEntries(v, m) {
      LevelInVersion(v, m);
    } else {
      NoOverlapAbove(v, level, f, l, a, b);
    }
  }

  // A file placed at a level shares no key with anything at or above that level.
  lemma NoOverlapAbove(v: Version, level: nat, f: File, l: nat, a: Entry, b: Entry)
    requires Placeable(v, level, f) && level > 0 && l <= level && a in LevelEntries(v, l) && b in f.run
    ensures a.user != b.user
  {
    var i := FromLevel(v.levels[l], a);
    FileBounds(v.levels[l][i], a);
    FileBounds(f, b);
    assert ClearOf(v.levels[l], f);
  }

  lemma FlushNumbers(v: Version, level: nat, f: File, v': Version)
    requires NumbersName(v) && |v.levels| == NUM_LEVELS && level < NUM_LEVELS && Added(v, level, f, v')
    requires forall l, g :: 0 <= l < NUM_LEVELS && g in v.levels[l] ==> g.number < f.number
    ensures NumbersName(v')
  {
    forall l, m, g, h | 0 <= l < |v'.levels| && 0 <= m < |v'.levels| && g in v'.levels[l] && h in v'.levels[m]
      && g.number == h.number
      ensures g == h
    {
      assert g in FileSet(v'.levels[l]) && h in FileSet(v'.levels[m]);
    }
  }

  lemma FlushLevel0(v: Version, level: nat, f: File, v': Version)
    requires |v.levels| == NUM_LEVELS && level < NUM_LEVELS && Level0Recency(FileSet(v.levels[0]))
    requires Added(v, level, f, v') && Newer(Elements(f.run), VersionEntries(v))
    requires forall l, g :: 0 <= l < NUM_LEVELS && g in v.levels[l] ==> g.number < f.number
    ensures Level0Recency(FileSet(v'.levels[0]))
  {
    forall g, h | g in FileSet(v'.levels[0]) && h in FileSet(v'.levels[0]) && g.number > h.number
      ensures Newer(Elements(g.run), Elements(h.run))
    {
      assert g in FileSet(v.levels[0]) ==> g in v.levels[0];
      if g !in FileSet(v.levels[0]) {
        assert h in v.levels[0];
        assert Elements(h.run) <= LevelEntries(v, 0);
        LevelInVersion(v, 0);
      }
    }
  }

  lemma FlushKeeps(a: Db, b: Db)
    requires Inv(a) && FlushStep(a, b)
    ensures Inv(b) && AllEntries(b) == AllEntries(a)
  {
    if a.imm.value == [] {
      NothingFlushed(a, b);
    } else {
      var level, f :| Flushes(a, level, f, b);
      TableFlushed(a, level, f, b);
    }
  }

  lemma NothingFlushed(a: Db, b: Db)
    requires Inv(a) && a.imm == Some([]) && b == a.(imm := None, nextFile := b.nextFile) && a.nextFile <= b.nextFile
    ensures Inv(b) && AllEntries(b) == AllEntries(a)
  {
    hide Valid;
    assert ImmEntries(a) == {} && AllEntries(b) == AllEntries(a);
  }

  lemma TableFlushed(a: Db, level: nat, f: File, b: Db)
    requires Inv(a) && Flushes(a, level, f, b)
    ensures Inv(b) && AllEntries(b) == AllEntries(a)
  {
    hide Valid, Placeable, Added, Faithful;
    FlushVersion(a, level, f, b);
    assert AllEntries(b) == AllEntries(a);
    FlushFiles(a, level, f, b);
    MovedDown(a, ImmEntries(a), b);
  }

  // Writes leaving the memtables for the table files keep the files faithful.
  lemma MovedDown(a: Db, N: set<Entry>, b: Db)
    requires Stored(a) && Layers(a) && b.hist == a.hist && b.floor == a.floor && b.leaked == a.leaked
      && N <= MemEntries(a)
    requires MemEntries(b) == MemEntries(a) - N && VersionEntries(b.version) == VersionEntries(a.version) + N
    ensures Flushed(b) == Flushed(a) + N && (Faithful(a) ==> Faithful(b))
  {
    TablesFlushed(a);
    var A, H := VersionEntries(a.version), Flushed(a);
    assert N + A == VersionEntries(b.version) && N + H == Flushed(b);
    if Faithful(a) {
      forall k: UserKey, t: SequenceNumber | k !in b.leaked && t >= b.floor
        ensures Read(VersionEntries(b.version), k, t) == Read(Flushed(b), k, t)
      {
        assert FaithfulFor(a, k);
        SameAbove(N, A, H, k, t);
      }
    }
  }

  lemma FlushVersion(a: Db, level: nat, f: File, b: Db)
    requires Inv(a) && Flushes(a, level, f, b)
    ensures Valid(b.version) && VersionEntries(b.version) == VersionEntries(a.version) + Elements(f.run)
  {
    AddedEntries(a.version, level, f, b.version);
    OneWriteSubset(a.hist, VersionEntries(a.version) + Elements(f.run));
    FlushValid(a.version, level, f, b.version);
  }

  lemma FlushFiles(a: Db, level: nat, f: File, b: Db)
    requires Files(a) && Flushes(a, level, f, b)
    ensures forall l, g :: 0 <= l < NUM_LEVELS && g in b.version.levels[l] ==> g.number < b.nextFile
  {
    forall l, g | 0 <= l < NUM_LEVELS && g in b.version.levels[l] ensures g.number < b.nextFile {
      assert g in FileSet(b.version.levels[l]);
    }
  }

  // Replacing the version by a smaller one below the same memtables.
  lemma LayersKept(a: Db, b: Db)
    requires Stored(a) && Layers(a) && b.mem == a.mem && b.imm == a.imm && b.hist == a.hist
    requires b.lastSequence == a.lastSequence && b.immSynced == a.immSynced && b.memSynced == a.memSynced
    requires VersionEntries(b.version) <= VersionEntries(a.version)
    ensures Stored(b) && Layers(b)
  {
  }

  // DBImpl::Get: memtable, then immutable memtable, then version.
  lemma Layers3(db: Db, k: UserKey, t: nat)
    requires Stored(db) && Layers(db)
    ensures Newest(AllEntries(db), k, t) ==
      if Newest(Elements(db.mem), k, t).Some? then Newest(Elements(db.mem), k, t)
      else if Newest(ImmEntries(db), k, t).Some? then Newest(ImmEntries(db), k, t)
      else Newest(VersionEntries(db.version), k, t)
  {
    var below := ImmEntries(db) + VersionEntries(db.version);
    OneWriteSubset(db.hist, AllEntries(db));
    OneWriteSubset(db.hist, below);
    Layered(Elements(db.mem), below, k, t);
    Layered(ImmEntries(db), VersionEntries(db.version), k, t);
  }

  lemma CompactKeeps(a: Db, b: Db)
    requires Inv(a) && CompactStep(a, b)
    ensures Inv(b)
  {
    hide Compacts, Inv;
    var c, outs :| Compacts(a, c, outs, b);
    CompactionKeeps(a, c, outs, b);
  }

  lemma CompactionKeeps(a: Db, c: Inputs, outs: set<File>, b: Db)
    requires Inv(a) && Compacts(a, c, outs, b)
    ensures Inv(b)
  {
    hide Valid, GoodInputs, Compacted, Installed, LeakedKeys, Faithful, Layers, Newer, Separated, UniqueNumbers,
      VersionEntries;
    CompactVersion(a, c, outs, b);
    LayersKept(a, b);
    CompactFiles(a, c, outs, b);
    CompactFaithful(a, c, outs, b);
  }

  lemma CompactVersion(a: Db, c: Inputs, outs: set<File>, b: Db)
    requires Files(a) && Compacts(a, c, outs, b)
    ensures Valid(b.version) && VersionEntries(b.version) <= VersionEntries(a.version)
  {
    assert EntriesOf(outs) <= InputEntries(c);
    NewSubset(a.version, c, outs, b.version);
    InvariantKept(a.version, c, outs, b.version);
  }

  lemma CompactFaithful(a: Db, c: Inputs, outs: set<File>, b: Db)
    requires Valid(a.version) && Snapshots(a) && Faithful(a) && Compacts(a, c, outs, b)
    ensures Faithful(b)
  {
    assert Flushed(b) == Flushed(a);
    forall k | k !in b.leaked ensures FaithfulFor(b, k) {
      KeyPreserved(a.version, c, SmallestSnapshot(a), outs, b.version, k);
      assert FaithfulFor(a, k);
    }
  }

  lemma CompactFiles(a: Db, c: Inputs, outs: set<File>, b: Db)
    requires Files(a) && Compacts(a, c, outs, b)
    ensures forall l, g :: 0 <= l < NUM_LEVELS && g in b.version.levels[l] ==> g.number < b.nextFile
  {
    forall l, g | 0 <= l < NUM_LEVELS && g in b.version.levels[l] ensures g.number < b.nextFile {
      OldFile(a.version, c, outs, b.version, l, g);
    }
  }

  lemma MoveKeeps(a: Db, b: Db)
    requires Inv(a) && MoveStep(a, b)
    ensures Inv(b) && AllEntries(b) == AllEntries(a)
  {
    var c, f :| Moves(a, c, f, b);
    MoveVersion(a, c, f, b);
    SameEntries(a, b);
    MoveFiles(a, c, f, b);
  }

  lemma SameEntries(a: Db, b: Db)
    requires Stored(a) && Layers(a) && Faithful(a) && Snapshots(a)
    requires b == a.(version := b.version) && VersionEntries(b.version) == VersionEntries(a.version)
    ensures AllEntries(b) == AllEntries(a)
    ensures Stored(b) && Layers(b) && Faithful(b) && Snapshots(b)
  {
    LayersKept(a, b);
    assert AllEntries(b) == AllEntries(a);
    forall k | k !in b.leaked ensures FaithfulFor(b, k) {
      assert FaithfulFor(a, k);
    }
  }

  lemma MoveVersion(a: Db, c: Inputs, f: File, b: Db)
    requires Valid(a.version) && Moves(a, c, f, b)
    ensures Valid(b.version) && VersionEntries(b.version) == VersionEntries(a.version)
  {
    assert InputEntries(c) == EntriesOf({f});
    NewSubset(a.version, c, {f}, b.version);
    forall e | e in VersionEntries(a.version) ensures e in VersionEntries(b.version) {
      Survives(a.version, c, {f}, b.version, e);
    }
    MoveNumbers(a, c, f, b);
    InvariantKept(a.version, c, {f}, b.version);
  }

  lemma MoveFiles(a: Db, c: Inputs, f: File, b: Db)
    requires Files(a) && Moves(a, c, f, b)
    ensures forall l, g :: 0 <= l < NUM_LEVELS && g in b.version.levels[l] ==> g.number < b.nextFile
  {
    assert f in a.version.levels[c.level];
    forall l, g | 0 <= l < NUM_LEVELS && g in b.version.levels[l] ensures g.number < b.nextFile {
      OldFile(a.version, c, {f}, b.version, l, g);
    }
  }

  lemma MoveNumbers(a: Db, c: Inputs, f: File, b: Db)
    requires Valid(a.version) && Moves(a, c, f, b)
    ensures NumbersFree(a.version, c, {f})
  {
    var v := a.version;
    assert f in v.levels[c.level];
    forall l, g | 0 <= l < |v.levels| && g in v.levels[l] && g.number == f.number ensures g == f && l == c.level {
      assert g == f;
      var e := f.run[0];
      assert e in f.run;
      assert f in FileSet(v.levels[l]) && f in FileSet(v.levels[c.level]);
      OneLevel(v, l, c.level, e);
    }
  }

  lemma TablesEntries(v: Version, tables: set<File>, v': Version)
    requires AddsTables(v, tables, v')
    ensures LevelEntries(v', 0) == LevelEntries(v, 0) + EntriesOf(tables)
    ensures VersionEntries(v') == VersionEntries(v) + EntriesOf(tables)
  {
    EntriesUnion(FileSet(v.levels[0]), tables);
    forall e | e in VersionEntries(v') ensures e in VersionEntries(v) + EntriesOf(tables) {
      var l :| 0 <= l < |v'.levels| && e in LevelEntries(v', l);
      assert e in LevelEntries(v, l) || e in EntriesOf(tables);
    }
    forall e | e in VersionEntries(v) ensures e in VersionEntries(v') {
      var l :| 0 <= l < |v.levels| && e in LevelEntries(v, l);
      assert e in LevelEntries(v', l);
    }
    LevelInVersion(v', 0);
  }

  lemma RecoverKeeps(a: Db, b: Db)
    requires Inv(a) && RecoverStep(a, b)
    ensures Inv(b) && AllEntries(b) == AllEntries(a)
  {
    hide Valid, AddsTables, Level0Recency, Faithful, UniqueNumbers, Layers;
    var tables :| Recovers(a, tables, b);
    RecoverValid(a, tables, b);
    RecoveredEntries(a, tables, b);
    RecoveredFiles(a, tables, b);
    MovedDown(a, MemEntries(a), b);
  }

  lemma RecoveredEntries(a: Db, tables: set<File>, b: Db)
    requires Recovers(a, tables, b) && Stored(a)
    ensures VersionEntries(b.version) == AllEntries(a) == AllEntries(b) == VersionEntries(a.version) + MemEntries(a)
    ensures MemEntries(b) == {} && Layers(b) && Stored(b)
  {
    hide AddsTables, Level0Recency, UniqueNumbers, VersionEntries;
    TablesEntries(a.version, tables, b.version);
    assert Elements(b.mem) == {} && ImmEntries(b) == {};
  }

  lemma RecoverValid(a: Db, tables: set<File>, b: Db)
    requires Inv(a) && Recovers(a, tables, b)
    ensures Valid(b.version)
  {
    var v, v' := a.version, b.version;
    hide Inv, Faithful, NumbersName, Level0Recency, LevelRecency;
    RecoverFacts(a, tables);
    TablesEntries(v, tables, v');
    TablesNumbers(v, tables, v', a.nextFile);
    TablesLevels(v, tables, v');
    TablesLevel0(v, tables, v', a.nextFile);
  }

  lemma RecoverFacts(a: Db, tables: set<File>)
    requires Inv(a) && EntriesOf(tables) == Elements(a.mem) + ImmEntries(a)
    ensures Valid(a.version) && Newer(EntriesOf(tables), VersionEntries(a.version))
    ensures OneWrite(VersionEntries(a.version) + EntriesOf(tables))
    ensures forall l, g :: 0 <= l < NUM_LEVELS && g in a.version.levels[l] ==> g.number < a.nextFile
  {
    hide Valid, Faithful;
    OneWriteSubset(a.hist, VersionEntries(a.version) + EntriesOf(tables));
  }

  lemma TablesNumbers(v: Version, tables: set<File>, v': Version, next: nat)
    requires NumbersName(v) && AddsTables(v, tables, v') && UniqueNumbers(tables)
    requires forall l, g :: 0 <= l < NUM_LEVELS && g in v.levels[l] ==> g.number < next
    requires forall f :: f in tables ==> next <= f.number
    ensures NumbersName(v')
  {
    forall l, g | 0 <= l < NUM_LEVELS && g in v'.levels[l]
      ensures g in tables || (g in v.levels[l] && g.number < next)
    {
      assert g in FileSet(v'.levels[l]);
    }
  }

  lemma TablesLevels(v: Version, tables: set<File>, v': Version)
    requires LevelRecency(v) && AddsTables(v, tables, v') && Newer(EntriesOf(tables), VersionEntries(v))
    ensures LevelRecency(v')
  {
    TablesEntries(v, tables, v');
    forall l, m | 0 <= l < m < |v'.levels| ensures Newer(LevelEntries(v', l), LevelEntries(v', m)) {
      assert Newer(LevelEntries(v, l), LevelEntries(v, m));
      LevelInVersion(v, m);
    }
  }

  lemma TablesLevel0(v: Version, tables: set<File>, v': Version, next: nat)
    requires |v.levels| == NUM_LEVELS && Level0Recency(FileSet(v.levels[0])) && AddsTables(v, tables, v')
    requires Level0Recency(tables) && Newer(EntriesOf(tables), VersionEntries(v))
    requires forall l, g :: 0 <= l < NUM_LEVELS && g in v.levels[l] ==> g.number < next
    requires forall f :: f in tables ==> next <= f.number
    ensures Level0Recency(FileSet(v'.levels[0]))
  {
    forall f, g | f in FileSet(v'.levels[0]) && g in FileSet(v'.levels[0]) && f.number > g.number
      ensures Newer(Elements(f.run), Elements(g.run))
    {
      assert f !in tables ==> f in v.levels[0];
      assert g !in tables ==> g in v.levels[0];
      if f in tables && g !in tables {
        assert Elements(f.run) <= EntriesOf(tables);
        assert Elements(g.run) <= LevelEntries(v, 0);
        LevelInVersion(v, 0);
      }
    }
  }

  lemma RecoveredFiles(a: Db, tables: set<File>, b: Db)
    requires Files(a) && Recovers(a, tables, b)
    ensures forall l, g :: 0 <= l < NUM_LEVELS && g in b.version.levels[l] ==> g.number < b.nextFile
  {
    forall l, g | 0 <= l < NUM_LEVELS && g in b.version.levels[l] ensures g.number < b.nextFile {
      assert g in FileSet(b.version.levels[l]);
      assert g in tables || g in a.version.levels[l];
    }
  }

  lemma SnapshotKeeps(a: Db, b: Db)
    requires Inv(a) && (SnapshotStep(a, b) || ReleaseStep(a, b))
    ensures Inv(b) && AllEntries(b) == AllEntries(a)
  {
    hide Valid;
  }

  lemma StepKeeps(a: Db, b: Db)
    requires Inv(a) && Step(a, b)
    ensures Inv(b)
  {
    if WriteStep(a, b) {
      WriteKeeps(a, b);
    } else if SwitchStep(a, b) {
      SwitchKeeps(a, b);
    } else if FlushStep(a, b) {
      FlushKeeps(a, b);
    } else if CompactStep(a, b) {
      CompactKeeps(a, b);
    } else if MoveStep(a, b) {
      MoveKeeps(a, b);
    } else if RecoverStep(a, b) {
      RecoverKeeps(a, b);
    } else if LoseStep(a, b) {
      LoseKeeps(a, b);
    } else {
      SnapshotKeeps(a, b);
    }
  }

  // Every state of every run satisfies the invariant.
  lemma {:induction false} RunKeeps(trace: seq<Db>, i: nat)
    requires Run(trace) && i < |trace|
    ensures Inv(trace[i])
  {
    if i == 0 {
      InitialInv();
    } else {
      RunKeeps(trace, i - 1);
      assert Step(trace[i - 1], trace[i]);
      StepKeeps(trace[i - 1], trace[i]);
    }
  }

  // A read of an unleaked key at or above the floor sees exactly what the history of all writes says.
  lemma ReadsWhole(db: Db, k: UserKey, t: SequenceNumber)
    requires Inv(db) && k !in db.leaked && t >= db.floor
    ensures Read(AllEntries(db), k, t) == Read(db.hist, k, t)
  {
    assert FaithfulFor(db, k);
    WholeRead(db, k, t);
  }

  // In every run, a read of a key no compaction leaked, at any live snapshot or at the last write, sees
  // exactly what the history of all writes says.
  lemma RunReads(trace: seq<Db>, i: nat, k: UserKey, t: SequenceNumber)
    requires Run(trace) && i < |trace| && k !in trace[i].leaked
    requires t in trace[i].snapshots || t == trace[i].lastSequence
    ensures Read(AllEntries(trace[i]), k, t) == Read(trace[i].hist, k, t)
  {
    RunKeeps(trace, i);
    assert t >= trace[i].floor;
    ReadsWhole(trace[i], k, t);
  }

  // ---- Exactly when the table files stay faithful ----

  // Only a compaction adds leaked keys.
  lemma LeakedStep(a: Db, b: Db)
    requires Step(a, b)
    ensures b.leaked == a.leaked || (CompactStep(a, b) && a.leaked <= b.leaked)
  {
    hide Added, Compacted, Installed, GoodInputs, AddsTables, LeakedKeys, Placeable;
  }

  // A leaking compaction makes the files wrong about the key at the snapshot it ran with, which is live.
  lemma LeakUnfaithful(a: Db, b: Db, k: UserKey)
    requires Inv(a) && CompactStep(a, b) && k !in a.leaked && k in b.leaked
    ensures !FaithfulFor(b, k)
  {
    hide Compacts, Inv;
    var c, outs :| Compacts(a, c, outs, b);
    var d, e := LeakOf(a, c, outs, b, k);
    LeakShowsIn(a, c, outs, b, d, e);
    LeakParts(a, c, outs, b, k);
    var t := SmallestSnapshot(a);
    hide FaithfulFor;
    assert FaithfulFor(a, k) ==>
      Read(VersionEntries(a.version), k, t) == Read(Flushed(a), k, t) by { FaithfulAt(a, k, t); }
    assert FaithfulFor(b, k) ==>
      Read(VersionEntries(b.version), k, t) == Read(Flushed(b), k, t) by { FaithfulAt(b, k, t); }
  }

  lemma FaithfulAt(db: Db, k: UserKey, t: SequenceNumber)
    ensures FaithfulFor(db, k) && t >= db.floor ==> Read(VersionEntries(db.version), k, t) == Read(Flushed(db), k, t)
  {
  }

  lemma LeakOf(a: Db, c: Inputs, outs: set<File>, b: Db, k: UserKey) returns (d: Entry, e: Entry)
    requires Compacts(a, c, outs, b) && k !in a.leaked && k in b.leaked
    ensures Leaks(a.version, c, SmallestSnapshot(a), d, e) && d.user == k
  {
    hide Newer, Within, Compacted, Installed, Leaks;
    assert k in LeakedKeys(a.version, c, SmallestSnapshot(a));
    d, e :| Leaks(a.version, c, SmallestSnapshot(a), d, e) && d.user == k;
  }

  lemma LeakParts(a: Db, c: Inputs, outs: set<File>, b: Db, k: UserKey)
    requires Inv(a) && Compacts(a, c, outs, b) && k !in a.leaked
    ensures FaithfulFor(a, k) && Flushed(b) == Flushed(a) && a.floor <= SmallestSnapshot(a) == b.floor
  {
    hide Valid, GoodInputs, Compacted, Installed, LeakedKeys, FaithfulFor, Layers;
  }

  // In every run the table files have answered every permitted read of a key rightly all along exactly
  // when no compaction leaked that key.
  lemma {:induction false} FaithfulIff(trace: seq<Db>, i: nat, k: UserKey)
    requires Run(trace) && i < |trace|
    ensures k !in trace[i].leaked <==> forall j :: 0 <= j <= i ==> FaithfulFor(trace[j], k)
  {
    hide Inv, Step, CompactStep, FaithfulFor;
    RunKeeps(trace, i);
    UnleakedFaithful(trace[i], k);
    if i > 0 {
      FaithfulIff(trace, i - 1, k);
      RunKeeps(trace, i - 1);
      assert Step(trace[i - 1], trace[i]);
      LeakedStep(trace[i - 1], trace[i]);
      if k in trace[i].leaked && k !in trace[i - 1].leaked {
        LeakUnfaithful(trace[i - 1], trace[i], k);
      }
    }
  }

  lemma UnleakedFaithful(db: Db, k: UserKey)
    requires Inv(db)
    ensures k !in db.leaked ==> FaithfulFor(db, k)
  {
  }

  // A user sees the leak at once if no memtable holds a visible entry for the key: the read at the oldest
  // snapshot, or at the last write, returns a deleted value.
  lemma LeakVisible(a: Db, c: Inputs, outs: set<File>, b: Db, d: Entry, e: Entry)
    requires Inv(a) && Compacts(a, c, outs, b) && Leaks(a.version, c, SmallestSnapshot(a), d, e)
    requires d.user !in a.leaked
    requires forall o :: o in MemEntries(a) && o.user == d.user ==> o.sn > SmallestSnapshot(a)
    ensures Read(AllEntries(b), d.user, SmallestSnapshot(a)) == Some(e.value)
    ensures Read(b.hist, d.user, SmallestSnapshot(a)) == None
  {
    var k, s := d.user, SmallestSnapshot(a);
    hide Inv, Compacts, MemEntries, VersionEntries, AllEntries, Leaks;
    CompactionKeeps(a, c, outs, b);
    LeakShowsIn(a, c, outs, b, d, e);
    LeakParts(a, c, outs, b, k);
    SameMemory(a, c, outs, b);
    BelowMemory(a, k, s);
    BelowMemory(b, k, s);
    ReadsWhole(a, k, s);
  }

  lemma SameMemory(a: Db, c: Inputs, outs: set<File>, b: Db)
    requires Compacts(a, c, outs, b)
    ensures MemEntries(b) == MemEntries(a) && b.hist == a.hist
  {
    hide GoodInputs, Compacted, Installed, LeakedKeys;
  }

  // A read that no memtable answers is the read of the table files.
  lemma BelowMemory(db: Db, k: UserKey, s: nat)
    requires Inv(db) && forall o :: o in MemEntries(db) && o.user == k ==> o.sn > s
    ensures Read(AllEntries(db), k, s) == Read(VersionEntries(db.version), k, s)
  {
    hide Valid, Faithful, Files, Snapshots;
    NewestNone(MemEntries(db), k, s);
    TablesFlushed(db);
    assert AllEntries(db) == MemEntries(db) + VersionEntries(db.version);
    OneWriteSubset(db.hist, AllEntries(db));
    Layered(MemEntries(db), VersionEntries(db.version), k, s);
  }

  lemma LeakShowsIn(a: Db, c: Inputs, outs: set<File>, b: Db, d: Entry, e: Entry)
    requires Inv(a) && Compacts(a, c, outs, b) && Leaks(a.version, c, SmallestSnapshot(a), d, e)
    ensures Read(VersionEntries(a.version), d.user, SmallestSnapshot(a)) == None
    ensures Read(VersionEntries(b.version), d.user, SmallestSnapshot(a)) == Some(e.value)
  {
    LeakShows(a.version, c, SmallestSnapshot(a), outs, b.version, d, e);
  }

  // ---- Crashes ----

  lemma LoseKeeps(a: Db, b: Db)
    requires Inv(a) && LoseStep(a, b)
    ensures Inv(b)
  {
    hide Valid;
    var s1: nat, s2: nat :| Loses(a, s1, s2, b);
    LosesFlushed(a, s1, s2, b);
    assert AllEntries(b) <= b.hist by { TablesFlushed(a); }
    forall k | k !in b.leaked ensures FaithfulFor(b, k) {
      assert FaithfulFor(a, k);
    }
  }

  lemma LosesFlushed(a: Db, s1: nat, s2: nat, b: Db)
    requires Stored(a) && Layers(a) && Loses(a, s1, s2, b)
    ensures MemEntries(b) == UpTo(Elements(a.mem), s2) + UpTo(ImmEntries(a), s1)
    ensures MemEntries(b) <= MemEntries(a) && Flushed(b) == Flushed(a) && b.hist <= a.hist
  {
  }

  // Some write with the least sequence number.
  lemma {:induction false} LeastWrite(E: set<Entry>) returns (m: Entry)
    requires E != {}
    ensures m in E && forall e :: e in E ==> m.sn <= e.sn
    decreases |E|
  {
    m :| m in E;
    if exists e :: e in E && e.sn < m.sn {
      m := LeastWrite(E - {m});
    }
  }

  // What is left of the writes is all of them up to some number.
  ghost predicate PrefixOf(H: set<Entry>, all: set<Entry>) {
    exists last: nat :: H == UpTo(all, last)
  }

  // A crash leaves a prefix of the writes exactly when the old log came back whole or nothing of the new
  // one did.
  lemma CrashPrefixIff(a: Db, s1: nat, s2: nat, b: Db)
    requires Inv(a) && Loses(a, s1, s2, b)
    ensures PrefixOf(b.hist, a.hist) <==> ImmEntries(b) == ImmEntries(a) || b.mem == []
  {
    hide Valid, Faithful, Files, Snapshots;
    LosesFlushed(a, s1, s2, b);
    TablesFlushed(a);
    EmptyMem(b);
    if ImmEntries(b) == ImmEntries(a) || b.mem == [] {
      forall e, o | e in b.hist && o in a.hist && o !in b.hist ensures e.sn < o.sn {
      }
      NoGap(a.hist, b.hist);
    } else {
      var x :| x in ImmEntries(a) && x !in ImmEntries(b);
      var y :| y in Elements(b.mem);
      assert x.sn < y.sn && x !in b.hist && x in a.hist && y in b.hist;
    }
  }

  lemma EmptyMem(db: Db)
    ensures db.mem == [] <==> Elements(db.mem) == {}
  {
    if db.mem != [] { assert db.mem[0] in Elements(db.mem); }
  }

  // What is kept is a prefix if nothing lost is before anything kept.
  lemma NoGap(all: set<Entry>, kept: set<Entry>)
    requires kept <= all && (forall e :: e in all ==> e.sn > 0)
    requires forall e, o :: e in kept && o in all && o !in kept ==> e.sn < o.sn
    ensures PrefixOf(kept, all)
  {
    var lost := all - kept;
    if lost == {} {
      forall e | e in all ensures e in kept && e.sn <= MAX_SEQUENCE {
        assert e !in lost;
      }
      assert kept == UpTo(all, MAX_SEQUENCE);
    } else {
      var m := LeastWrite(lost);
      forall e | e in all ensures e in kept <==> e.sn <= m.sn - 1 {
        assert e in lost ==> m.sn <= e.sn;
      }
      assert kept == UpTo(all, m.sn - 1);
    }
  }

  // On disk: in a table file, or in the synced part of its log.
  ghost predicate Durable(db: Db, e: Entry) {
    e in db.hist
    && (e in ImmEntries(db) ==> e.sn <= db.immSynced) && (e in Elements(db.mem) ==> e.sn <= db.memSynced)
  }

  ghost function Keep(es: seq<Entry>, s: nat): seq<Entry> {
    if es == [] then []
    else Keep(es[..|es| - 1], s) + if es[|es| - 1].sn <= s then [es[|es| - 1]] else []
  }

  lemma {:induction false} KeepIs(es: seq<Entry>, s: nat)
    requires Sorted(es)
    ensures Sorted(Keep(es, s)) && Elements(Keep(es, s)) == UpTo(Elements(es), s)
  {
    if es != [] {
      var init, last := es[..|es| - 1], es[|es| - 1];
      SortedInit(es);
      hide Sorted;
      KeepIs(init, s);
      ElementsLast(init, last);
      ElementsLast(Keep(init, s), last);
      assert es == init + [last];
      forall e | e in Keep(init, s) ensures Less(e.Key(), last.Key()) {
        assert e in Elements(Keep(init, s));
      }
      SortedLast(Keep(init, s), last);
      UpToAdded(Elements(init), last, s);
      assert Keep(init, s) + [] == Keep(init, s);
    } else {
      assert Elements(Keep(es, s)) == {} == UpTo(Elements(es), s);
    }
  }

  lemma UpToAdded(E: set<Entry>, e: Entry, s: nat)
    ensures UpTo(E + {e}, s) == UpTo(E, s) + if e.sn <= s then {e} else {}
  {
  }

  lemma SortedInit(es: seq<Entry>)
    requires Sorted(es) && es != []
    ensures Sorted(es[..|es| - 1])
    ensures forall e :: e in es[..|es| - 1] ==> Less(e.Key(), es[|es| - 1].Key())
  {
  }

  lemma ElementsLast(es: seq<Entry>, last: Entry)
    ensures Elements(es + [last]) == Elements(es) + {last}
  {
  }

  lemma SortedLast(es: seq<Entry>, last: Entry)
    requires Sorted(es) && forall e :: e in es ==> Less(e.Key(), last.Key())
    ensures Sorted(es + [last])
  {
  }

  // The state left when the logs are cut at s1 and s2 and the last sequence number comes back as last.
  ghost function Cut(a: Db, s1: nat, s2: nat, last: SequenceNumber): Db {
    a.(mem := Keep(a.mem, s2), imm := if a.imm.Some? then Some(Keep(a.imm.value, s1)) else None,
       hist := Flushed(a) + UpTo(Elements(a.mem), s2) + UpTo(ImmEntries(a), s1),
       lastSequence := last, snapshots := [], immSynced := last, memSynced := last)
  }

  lemma CutLoses(a: Db, s1: nat, s2: nat, last: SequenceNumber)
    requires Inv(a) && a.immSynced <= s1 && a.memSynced <= s2 && a.floor <= last <= a.lastSequence
    requires forall e :: e in Flushed(a) ==> e.sn <= last
    requires forall e :: e in ImmEntries(a) && e.sn <= s1 ==> e.sn <= last
    requires forall e :: e in Elements(a.mem) && e.sn <= s2 ==> e.sn <= last
    ensures Loses(a, s1, s2, Cut(a, s1, s2, last))
  {
    hide Valid, Faithful, Files, Keep;
    TablesFlushed(a);
    KeepIs(a.mem, s2);
    if a.imm.Some? { KeepIs(a.imm.value, s1); }
    var b := Cut(a, s1, s2, last);
    assert ImmEntries(b) == UpTo(ImmEntries(a), s1);
    assert b.hist == Flushed(a) + MemEntries(b);
  }

  // A write survives every crash exactly when it is flushed or synced in its own log.
  lemma DurableIff(a: Db, e: Entry)
    requires Inv(a) && e in a.hist
    ensures Durable(a, e) <==> forall b :: LoseStep(a, b) ==> e in b.hist
  {
    hide Valid, Faithful, Files, Keep;
    if Durable(a, e) {
      forall b | LoseStep(a, b) ensures e in b.hist {
        var s1: nat, s2: nat :| Loses(a, s1, s2, b);
        LosesFlushed(a, s1, s2, b);
      }
    } else {
      var b := Cut(a, a.immSynced, a.memSynced, a.lastSequence);
      CutLoses(a, a.immSynced, a.memSynced, a.lastSequence);
      TablesFlushed(a);
      assert LoseStep(a, b) && e !in b.hist;
    }
  }

  lemma DurableStep(a: Db, b: Db, e: Entry)
    requires Inv(a) && Step(a, b) && Durable(a, e)
    ensures Durable(b, e)
  {
    if LoseStep(a, b) {
      LoseDurable(a, b, e);
    } else {
      hide Valid, Faithful, Placeable, Added, Compacted, Installed, GoodInputs, AddsTables, LeakedKeys, LoseStep;
    }
  }

  lemma LoseDurable(a: Db, b: Db, e: Entry)
    requires Inv(a) && LoseStep(a, b) && Durable(a, e)
    ensures Durable(b, e)
  {
    hide Valid, Faithful, Files;
    var s1: nat, s2: nat :| Loses(a, s1, s2, b);
    LosesFlushed(a, s1, s2, b);
  }

  // What is once durable is never lost, whatever crashes.
  lemma {:induction false} DurableForever(trace: seq<Db>, i: nat, j: nat, e: Entry)
    requires Run(trace) && i <= j < |trace| && Durable(trace[i], e)
    ensures Durable(trace[j], e)
  {
    hide Step, Durable;
    if i < j {
      DurableForever(trace, i, j - 1, e);
      RunKeeps(trace, j - 1);
      assert Step(trace[j - 1], trace[j]);
      DurableStep(trace[j - 1], trace[j], e);
    }
  }

  // A synced write makes every write so far durable exactly when the old log, if any is left, is on disk
  // already: the sync covers the current log alone.
  lemma SyncCovers(a: Db, N: set<Entry>, b: Db)
    requires Inv(a) && Writes(a, N, b) && b.memSynced == b.lastSequence
    ensures (forall e :: e in b.hist ==> Durable(b, e)) <==> forall e :: e in ImmEntries(a) ==> Durable(a, e)
  {
    hide Valid, Faithful, Files;
    TablesFlushed(a);
    assert forall e :: e in ImmEntries(a) ==> e in a.hist && e in b.hist;
  }

  // A write that is synced can come back without an earlier one: the first goes to a log that is closed
  // unsynced when the memtable is switched, the second to the new log, and the old log is lost.
  lemma SyncedNotPrefix(x: Entry, y: Entry) returns (trace: seq<Db>)
    requires x.sn == 1 && y.sn == 2
    ensures Run(trace) && |trace| == 5 && trace[3].memSynced == trace[3].lastSequence == 2
    ensures trace[3].hist == {x, y} && trace[4].hist == {y} && !PrefixOf(trace[4].hist, trace[3].hist)
  {
    var a := INITIAL.(mem := [x], lastSequence := 1, hist := {x});
    var b := a.(mem := [], imm := Some([x]));
    var c := b.(mem := [y], lastSequence := 2, hist := {x, y}, memSynced := 2);
    var d := c.(mem := [y], imm := Some([]), hist := {y}, immSynced := 2);
    trace := [INITIAL, a, b, c, d];
    assert Elements([x]) == {x} && Elements([y]) == {y} && Elements([]) == {};
    assert Writes(INITIAL, {x}, a) && Writes(b, {y}, c);
    assert c.hist - MemEntries(c) == {};
    assert UpTo({x}, 0) == {} && UpTo({y}, 2) == {y};
    assert Loses(c, 0, 2, d);
    assert Step(INITIAL, a) && Step(a, b) && Step(b, c) && Step(c, d);
    forall i | 0 <= i < 4 ensures Step(trace[i], trace[i + 1]) {
      assert i == 0 || i == 1 || i == 2 || i == 3;
    }
    RunKeeps(trace, 3);
    CrashPrefixIff(c, 0, 2, d);
    assert x in ImmEntries(c) && x !in ImmEntries(d);
  }

  // ---- Snapshots ----

  // Every write numbered up to t is durable, and so is something that keeps t from being handed out again.
  ghost predicate Anchored(db: Db, t: nat) {
    (forall e :: e in db.hist && e.sn <= t ==> Durable(db, e))
    && (t <= db.floor || exists e :: Durable(db, e) && t <= e.sn)
  }

  // Snapshot isolation: later writes never change what a sequence number denotes; across crashes, one up
  // to which everything is durable.
  lemma {:induction false} SnapshotStable(trace: seq<Db>, i: nat, j: nat, k: UserKey, t: SequenceNumber)
    requires Run(trace) && i <= j < |trace| && t <= trace[i].lastSequence
    requires Anchored(trace[i], t) || forall m :: i <= m < j ==> !LoseStep(trace[m], trace[m + 1])
    ensures Read(trace[j].hist, k, t) == Read(trace[i].hist, k, t)
    ensures Anchored(trace[i], t) ==> Anchored(trace[j], t)
    ensures t <= trace[j].lastSequence
  {
    hide Step, LoseStep, Anchored;
    if i < j {
      SnapshotStable(trace, i, j - 1, k, t);
      HistOnce(trace, j - 1);
      HistOnce(trace, j);
      RunKeeps(trace, j - 1);
      assert Step(trace[j - 1], trace[j]);
      if Anchored(trace[i], t) {
        AnchoredStep(trace[j - 1], trace[j], t);
      } else {
        assert !LoseStep(trace[j - 1], trace[j]);
        HistStep(trace[j - 1], trace[j], t);
      }
      ReadAgrees(trace[j - 1].hist, trace[j].hist, k, t);
    }
  }

  lemma HistOnce(trace: seq<Db>, i: nat)
    requires Run(trace) && i < |trace|
    ensures OneWrite(trace[i].hist)
  {
    RunKeeps(trace, i);
  }

  // Without a crash only new numbers appear and nothing goes.
  lemma HistStep(a: Db, b: Db, t: nat)
    requires Inv(a) && Step(a, b) && t <= a.lastSequence && !LoseStep(a, b)
    ensures forall e: Entry :: e.sn <= t ==> (e in a.hist <==> e in b.hist)
    ensures a.lastSequence <= b.lastSequence
  {
    hide Valid, Faithful, Placeable, Added, Compacted, Installed, GoodInputs, AddsTables, LeakedKeys;
  }

  lemma AnchoredStep(a: Db, b: Db, t: nat)
    requires Inv(a) && Step(a, b) && t <= a.lastSequence && Anchored(a, t)
    ensures forall e: Entry :: e.sn <= t ==> (e in a.hist <==> e in b.hist)
    ensures t <= b.lastSequence && Anchored(b, t)
  {
    FloorGrows(a, b);
    hide Step, LoseStep, Durable, Inv;
    forall e | Durable(a, e) ensures Durable(b, e) {
      DurableStep(a, b, e);
    }
    if LoseStep(a, b) {
      LoseBounds(a, b);
    } else {
      HistStep(a, b, t);
    }
    DurableIn(a);
    DurableIn(b);
    if t > a.floor {
      var e :| Durable(a, e) && t <= e.sn;
      assert Durable(b, e);
    }
  }

  lemma FloorGrows(a: Db, b: Db)
    requires Inv(a) && Step(a, b)
    ensures a.floor <= b.floor
  {
    hide Valid, Faithful, Placeable, Added, Compacted, Installed, GoodInputs, AddsTables, LeakedKeys;
  }

  lemma DurableIn(a: Db)
    ensures forall e :: Durable(a, e) ==> e in a.hist
  {
  }

  lemma LoseBounds(a: Db, b: Db)
    requires Inv(a) && LoseStep(a, b)
    ensures b.hist <= a.hist && a.floor <= b.lastSequence && forall e :: e in b.hist ==> e.sn <= b.lastSequence
  {
    hide Valid, Faithful, Files;
    var s1: nat, s2: nat :| Loses(a, s1, s2, b);
    LosesFlushed(a, s1, s2, b);
  }
}
