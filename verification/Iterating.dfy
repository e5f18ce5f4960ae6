// A user's iterator over the store.

module Iterating {
  // The memtables, every level-0 table and every deeper level
  // concatenated, merged and filtered (Version::AddIterators, DBImpl::NewIterator).

  import opened DbFormat
  import opened Versions
  import opened CompactionWork
  import opened Lsm
  import Merging
  import DbIterator

  // ---- Putting runs together ----

  ghost predicate Holds(runs: seq<seq<Entry>>, E: set<Entry>) {
    Merging.RunsOk(runs) && RunsFrom(runs, E)
  }

  // Runs of newer data beside runs of older data.
  lemma HoldsBoth(a: seq<seq<Entry>>, A: set<Entry>, b: seq<seq<Entry>>, B: set<Entry>)
    requires Holds(a, A) && Holds(b, B) && Newer(A, B)
    ensures Holds(a + b, A + B)
  {
    var runs := a + b;
    forall i, j | 0 <= i < j < |runs| ensures Merging.KeysApart(runs[i], runs[j]) {
      if i < |a| <= j {
        InRuns(a, A, i);
        InRuns(b, B, j - |a|);
        NewerApart(a[i], b[j - |a|]);
      }
    }
    forall e ensures e in A + B <==> Merging.FromRuns(runs, e) {
      FromEither(a, b, e);
    }
  }

  lemma InRuns(runs: seq<seq<Entry>>, E: set<Entry>, i: nat)
    requires RunsFrom(runs, E) && i < |runs|
    ensures Elements(runs[i]) <= E
  {
    forall e | e in runs[i] ensures e in E {
      assert Merging.FromRuns(runs, e);
    }
  }

  lemma FromEither(a: seq<seq<Entry>>, b: seq<seq<Entry>>, e: Entry)
    ensures Merging.FromRuns(a + b, e) <==> Merging.FromRuns(a, e) || Merging.FromRuns(b, e)
  {
    if Merging.FromRuns(a, e) {
      var i :| 0 <= i < |a| && e in a[i];
      assert e in (a + b)[i];
    }
    if Merging.FromRuns(b, e) {
      var i :| 0 <= i < |b| && e in b[i];
      assert e in (a + b)[|a| + i];
    }
  }

  lemma HoldsOne(run: seq<Entry>)
    requires Sorted(run)
    ensures Holds([run], Elements(run))
  {
    assert [run][0] == run;
  }

  lemma HoldsNone()
    ensures Holds([], {})
  {
  }

  // ---- The runs of a version ----

  function LevelZeroRuns(fs: seq<File>): seq<seq<Entry>> {
    seq(|fs|, i requires 0 <= i < |fs| => fs[i].run)
  }

  // A concatenated run for every nonempty level from l on.
  function LevelRuns(levels: seq<seq<File>>, l: nat): seq<seq<Entry>>
    requires l <= |levels|
    decreases |levels| - l
  {
    if l == |levels| then [] else (if levels[l] == [] then [] else [Flatten(levels[l])]) + LevelRuns(levels, l + 1)
  }

  ghost function Deeper(v: Version, l: nat): set<Entry> {
    set m, e | l <= m < |v.levels| && e in LevelEntries(v, m) :: e
  }

  lemma {:induction false} LevelRunsHold(v: Version, l: nat)
    requires Valid(v) && 1 <= l <= NUM_LEVELS
    ensures Holds(LevelRuns(v.levels, l), Deeper(v, l))
    decreases NUM_LEVELS - l
  {
    hide Holds, Newer, NumbersName, Level0Recency, OneWrite;
    if l == NUM_LEVELS {
      HoldsNone();
      assert Deeper(v, l) == {};
    } else {
      LevelRunsHold(v, l + 1);
      DeeperSplit(v, l);
      if v.levels[l] == [] {
        assert LevelEntries(v, l) == {} && {} + Deeper(v, l + 1) == Deeper(v, l + 1);
        assert [] + LevelRuns(v.levels, l + 1) == LevelRuns(v.levels, l + 1);
      } else {
        FlattenSorted(v.levels[l]);
        FlattenMembers(v.levels[l]);
        HoldsOne(Flatten(v.levels[l]));
        HoldsBoth([Flatten(v.levels[l])], LevelEntries(v, l), LevelRuns(v.levels, l + 1), Deeper(v, l + 1));
      }
    }
  }

  lemma DeeperSplit(v: Version, l: nat)
    requires LevelRecency(v) && l < |v.levels|
    ensures Deeper(v, l) == LevelEntries(v, l) + Deeper(v, l + 1) && Newer(LevelEntries(v, l), Deeper(v, l + 1))
  {
    forall a, b | a in LevelEntries(v, l) && b in Deeper(v, l + 1) && a.user == b.user ensures a.sn > b.sn {
      var m :| l + 1 <= m < |v.levels| && b in LevelEntries(v, m);
      assert Newer(LevelEntries(v, l), LevelEntries(v, m));
    }
  }

  lemma LevelZeroHolds(v: Version)
    requires Valid(v)
    ensures Holds(LevelZeroRuns(v.levels[0]), LevelEntries(v, 0))
  {
    var fs := v.levels[0];
    var runs := LevelZeroRuns(fs);
    forall i, j | 0 <= i < j < |runs| ensures Merging.KeysApart(runs[i], runs[j]) {
      Level0Apart(v, fs, i, j);
    }
    hide Valid;
    forall e ensures e in EntriesOf(FileSet(fs)) <==> Merging.FromRuns(runs, e) {
      if e in EntriesOf(FileSet(fs)) {
        var i := FromLevel(fs, e);
        assert e in runs[i];
      }
      if Merging.FromRuns(runs, e) {
        var i :| 0 <= i < |runs| && e in runs[i];
        InLevel(fs, i, e);
      }
    }
  }

  function VersionRuns(v: Version): seq<seq<Entry>>
    requires |v.levels| == NUM_LEVELS
  {
    LevelZeroRuns(v.levels[0]) + LevelRuns(v.levels, 1)
  }

  lemma VersionRunsHold(v: Version)
    requires Valid(v)
    ensures Holds(VersionRuns(v), VersionEntries(v))
  {
    hide Holds, Newer, Level0Recency, OneWrite, NumbersName;
    LevelZeroHolds(v);
    LevelRunsHold(v, 1);
    DeeperSplit(v, 0);
    HoldsBoth(LevelZeroRuns(v.levels[0]), LevelEntries(v, 0), LevelRuns(v.levels, 1), Deeper(v, 1));
    assert Deeper(v, 0) == VersionEntries(v);
  }

  // Version::AddIterators
  method AddIterators(v: Version, list: seq<seq<Entry>>) returns (r: seq<seq<Entry>>)
    requires |v.levels| == NUM_LEVELS
    ensures r == list + VersionRuns(v)
  {
    var fs := v.levels[0];
    r := list;
    for i := 0 to |fs|
      invariant r == list + LevelZeroRuns(fs)[..i]
    {
      r := r + [fs[i].run];
    }
    assert LevelZeroRuns(fs)[..|fs|] == LevelZeroRuns(fs);
    ghost var before := r;
    for level := 1 to NUM_LEVELS
      invariant before + LevelRuns(v.levels, 1) == r + LevelRuns(v.levels, level)
    {
      if v.levels[level] != [] {
        assert r + ([Flatten(v.levels[level])] + LevelRuns(v.levels, level + 1))
            == r + [Flatten(v.levels[level])] + LevelRuns(v.levels, level + 1);
        r := r + [Flatten(v.levels[level])];
      } else {
        assert [] + LevelRuns(v.levels, level + 1) == LevelRuns(v.levels, level + 1);
      }
    }
    assert r + [] == r;
    assert before + LevelRuns(v.levels, 1) == list + VersionRuns(v);
  }

  // ---- The runs of the store ----

  function StoreRuns(mem: seq<Entry>, imm: Option<seq<Entry>>, v: Version): seq<seq<Entry>>
    requires |v.levels| == NUM_LEVELS
  {
    [mem] + ((if imm.Some? then [imm.value] else []) + VersionRuns(v))
  }

  lemma StoreRunsHold(db: Db)
    requires Inv(db)
    ensures Holds(StoreRuns(db.mem, db.imm, db.version), AllEntries(db))
  {
    hide Holds, Faithful, Newer, Valid;
    assert |db.version.levels| == NUM_LEVELS && Valid(db.version) by { ValidShape(db); }
    VersionRunsHold(db.version);
    var imm := if db.imm.Some? then [db.imm.value] else [];
    if db.imm.Some? {
      HoldsOne(db.imm.value);
    } else {
      HoldsNone();
    }
    HoldsBoth(imm, ImmEntries(db), VersionRuns(db.version), VersionEntries(db.version));
    HoldsOne(db.mem);
    HoldsBoth([db.mem], Elements(db.mem), imm + VersionRuns(db.version), ImmEntries(db) + VersionEntries(db.version));
  }

  lemma ValidShape(db: Db)
    requires Inv(db)
    ensures Valid(db.version) && |db.version.levels| == NUM_LEVELS
  {
  }

  // The rows are a map in key order: exactly the keys a read at s finds in E, with what it finds.
  ghost predicate IsMapOf(rows: seq<Entry>, E: set<Entry>, s: SequenceNumber) {
    (forall i, j :: 0 <= i < j < |rows| ==> rows[i].user < rows[j].user)
    && forall k: UserKey, v: Value ::
         Read(E, k, s) == Some(v) <==> exists e :: e in rows && e.user == k && e.value == v
  }

  lemma ViewOfRuns(runs: seq<seq<Entry>>, E: set<Entry>, s: SequenceNumber)
    requires Holds(runs, E) && OneWrite(E)
    ensures IsMapOf(DbIterator.View(Merging.MergeAll(runs), s), E, s)
  {
    var es := Merging.MergeAll(runs);
    Merging.MergeAllMembers(runs);
    Merging.MergeAllSorted(runs);
    assert Elements(es) == E;
    DbIterator.RowsIncreasing(es, s, |es|);
    forall k: UserKey, v: Value
      ensures Read(E, k, s) == Some(v) <==> exists e :: e in DbIterator.View(es, s) && e.user == k && e.value == v
    {
      DbIterator.ViewIsMap(es, s, k, v);
    }
  }

  // NewInternalIterator and NewDBIterator
  method NewIteratorOver(mem: seq<Entry>, imm: Option<seq<Entry>>, v: Version, s: SequenceNumber, ghost db: Db)
    returns (it: DbIterator.DBIter)
    requires Inv(db) && db.mem == mem && db.imm == imm && db.version == v
    ensures fresh(it) && fresh(it.iter) && it.Ok() && !it.valid && it.sequence == s
    ensures IsMapOf(it.Table(), AllEntries(db), s)
  {
    ValidShape(db);
    hide Inv, Valid, DbIterator.View, AllEntries;
    StoreRunsHold(db);
    AllOnce(db);
    ViewOfRuns(StoreRuns(mem, imm, v), AllEntries(db), s);
    var list := [mem];
    if imm.Some? {
      list := list + [imm.value];
    }
    list := AddIterators(v, list);
    assert list == StoreRuns(mem, imm, v);
    var merged := new Merging.MergingIterator(list);
    it := new DbIterator.DBIter(merged, s);
  }

  lemma AllOnce(db: Db)
    requires Inv(db)
    ensures OneWrite(AllEntries(db))
  {
  }
}
