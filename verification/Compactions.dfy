// What one compaction does to a version.

module Compactions {
  // When it preserves reads (VersionSet::SetupOtherInputs, DBImpl::DoCompactionWork).

  import opened DbFormat
  import opened Versions

  predicate Overlaps(f: File, begin: Option<UserKey>, end: Option<UserKey>) {
    !(begin.Some? && f.Largest().user < begin.value) && !(end.Some? && f.Smallest().user > end.value)
  }

  // A table may be placed below level 0 only past levels it does not overlap.
  ghost predicate Placeable(v: Version, level: nat, f: File) {
    level + 1 < NUM_LEVELS == |v.levels|
    && (level > 0 ==> forall l :: 0 <= l <= level ==> ClearOf(v.levels[l], f))
  }

  ghost predicate ClearOf(fs: seq<File>, f: File) {
    forall i :: 0 <= i < |fs| ==> !Overlaps(fs[i], Some(f.Smallest().user), Some(f.Largest().user))
  }

  ghost predicate Within(F: set<File>, lo: UserKey, hi: UserKey) {
    forall f :: f in F ==> lo <= f.Smallest().user && f.Largest().user <= hi
  }

  // A compaction of files A of level L and B of level L+1.
  datatype Inputs = Inputs(level: nat, A: set<File>, B: set<File>, lo: UserKey, hi: UserKey)

  ghost predicate Selected(v: Version, c: Inputs) {
    c.level + 1 < |v.levels| == NUM_LEVELS
    && c.A <= FileSet(v.levels[c.level])
    && c.B <= FileSet(v.levels[c.level + 1])
  }

  ghost function Rest(v: Version, c: Inputs): set<File>
    requires Selected(v, c)
  {
    FileSet(v.levels[c.level]) - c.A
  }

  ghost function NextRest(v: Version, c: Inputs): set<File>
    requires Selected(v, c)
  {
    FileSet(v.levels[c.level + 1]) - c.B
  }

  // What the selection rules guarantee: nothing left behind at the level is older than a selected
  // entry for the same key, and B is every next-level file overlapping the user-key range of A.
  ghost predicate GoodInputs(v: Version, c: Inputs) {
    Selected(v, c)
    && Newer(EntriesOf(Rest(v, c)), EntriesOf(c.A))
    && Within(c.A, c.lo, c.hi)
    && forall f :: f in FileSet(v.levels[c.level + 1]) ==> (f in c.B <==> Overlaps(f, Some(c.lo), Some(c.hi)))
  }

  ghost function InputEntries(c: Inputs): set<Entry> {
    EntriesOf(c.A) + EntriesOf(c.B)
  }

  // Compaction::IsBaseLevelForKey: no file below the output level covers the key.
  ghost predicate BaseLevel(v: Version, level: nat, k: UserKey) {
    forall l, f :: level + 2 <= l < |v.levels| && f in v.levels[l] ==> !Covers(f, k)
  }

  // Rule (A): a newer entry for the same key is already visible at every live snapshot.
  ghost predicate Hidden(E: set<Entry>, s: nat, e: Entry) {
    exists o :: o in E && o.user == e.user && e.sn < o.sn <= s
  }

  // The two drop rules.
  ghost predicate Dropped(v: Version, c: Inputs, s: nat, e: Entry) {
    Hidden(InputEntries(c), s, e)
    || (e.kind.Deletion? && e.sn <= s && BaseLevel(v, c.level, e.user))
  }

  // The outputs hold exactly the entries that are not dropped.
  ghost predicate Compacted(v: Version, c: Inputs, s: nat, outs: set<File>) {
    forall e :: e in EntriesOf(outs) <==> e in InputEntries(c) && !Dropped(v, c, s, e)
  }

  // Some read at the smallest snapshot or later sees e.
  ghost predicate Seen(E: set<Entry>, s: nat, e: Entry) {
    exists t: nat :: t >= s && IsNewest(E, e.user, t, e)
  }

  // A deletion every read sees, with no file below the output level left to delete anything from.
  ghost predicate Spent(v: Version, level: nat, s: nat, e: Entry) {
    e.kind.Deletion? && e.sn <= s
    && forall l, f :: level + 2 <= l < |v.levels| && f in v.levels[l] ==>
         e.user < f.Smallest().user || f.Largest().user < e.user
  }

  // The outputs hold exactly the input entries that some read still sees, less spent deletions.
  ghost predicate Pruned(v: Version, c: Inputs, s: nat, outs: set<File>) {
    forall e :: e in EntriesOf(outs) <==>
      e in InputEntries(c) && Seen(InputEntries(c), s, e) && !Spent(v, c.level, s, e)
  }

  lemma DroppedIff(v: Version, c: Inputs, s: nat, e: Entry)
    requires e in InputEntries(c)
    ensures !Dropped(v, c, s, e) <==> Seen(InputEntries(c), s, e) && !Spent(v, c.level, s, e)
  {
    var E := InputEntries(c);
    if Hidden(E, s, e) {
      var o :| o in E && o.user == e.user && e.sn < o.sn <= s;
      assert forall t: nat :: t >= s ==> !IsNewest(E, e.user, t, e);
    } else {
      assert IsNewest(E, e.user, if e.sn > s then e.sn else s, e);
    }
    if BaseLevel(v, c.level, e.user) {
      forall l, f | c.level + 2 <= l < |v.levels| && f in v.levels[l]
        ensures e.user < f.Smallest().user || f.Largest().user < e.user
      {
        assert !Covers(f, e.user);
      }
    }
  }

  // What the drop rules do, in terms of reads alone.
  lemma CompactedIsPruned(v: Version, c: Inputs, s: nat, outs: set<File>)
    ensures Compacted(v, c, s, outs) <==> Pruned(v, c, s, outs)
  {
    hide Dropped, Seen, Spent;
    forall e | e in InputEntries(c)
      ensures !Dropped(v, c, s, e) <==> Seen(InputEntries(c), s, e) && !Spent(v, c.level, s, e)
    {
      DroppedIff(v, c, s, e);
    }
  }

  // Nothing overwritten at the smallest snapshot is left, and no key has two entries every read can see.
  lemma PrunedOnce(v: Version, c: Inputs, s: nat, outs: set<File>, e: Entry, o: Entry)
    requires Pruned(v, c, s, outs) && e in EntriesOf(outs) && o in InputEntries(c) && o.user == e.user
    ensures !(e.sn < o.sn <= s)
  {
  }

  // The version edit of a compaction, applied.
  ghost predicate Installed(v: Version, c: Inputs, outs: set<File>, v': Version)
    requires Selected(v, c)
  {
    |v'.levels| == |v.levels|
    && (forall l :: 0 <= l < |v.levels| && l != c.level && l != c.level + 1 ==> v'.levels[l] == v.levels[l])
    && FileSet(v'.levels[c.level]) == Rest(v, c)
    && FileSet(v'.levels[c.level + 1]) == NextRest(v, c) + outs
    && forall l :: 0 <= l < |v'.levels| ==> BySmallest(v'.levels[l])
  }

  // The one way a compaction can change a read: a tombstone in a selected next-level file is the
  // visible version of its key and may be dropped, while an unselected file of the same level,
  // not pulled in by the user-key overlap with A, still holds a value for that key.
  ghost predicate Leaks(v: Version, c: Inputs, s: nat, d: Entry, e: Entry)
    requires Selected(v, c)
  {
    d in EntriesOf(c.B) && d.kind.Deletion? && e.kind.Put? && d.user == e.user
    && IsNewest(VersionEntries(v), d.user, s, d)
    && IsNewest(EntriesOf(NextRest(v, c)), d.user, s, e)
    && BaseLevel(v, c.level, d.user)
  }

  // ---- Where the entries of the old and the new version are ----

  lemma EntriesUnion(F: set<File>, G: set<File>)
    ensures EntriesOf(F + G) == EntriesOf(F) + EntriesOf(G)
  {
  }

  lemma LevelSplit(v: Version, c: Inputs)
    requires Selected(v, c)
    ensures LevelEntries(v, c.level) == EntriesOf(Rest(v, c)) + EntriesOf(c.A)
    ensures LevelEntries(v, c.level + 1) == EntriesOf(NextRest(v, c)) + EntriesOf(c.B)
  {
    EntriesUnion(Rest(v, c), c.A);
    assert Rest(v, c) + c.A == FileSet(v.levels[c.level]);
    EntriesUnion(NextRest(v, c), c.B);
    assert NextRest(v, c) + c.B == FileSet(v.levels[c.level + 1]);
  }

  lemma NewLevels(v: Version, c: Inputs, outs: set<File>, v': Version)
    requires Selected(v, c) && Installed(v, c, outs, v')
    ensures LevelEntries(v', c.level) == EntriesOf(Rest(v, c))
    ensures LevelEntries(v', c.level + 1) == EntriesOf(NextRest(v, c)) + EntriesOf(outs)
  {
    EntriesUnion(NextRest(v, c), outs);
  }

  // Every entry of the new version is an old one, at the same level or one level down.
  lemma NewFromOld(v: Version, c: Inputs, outs: set<File>, v': Version, l: nat, e: Entry)
    requires Selected(v, c) && Installed(v, c, outs, v') && EntriesOf(outs) <= InputEntries(c)
    requires l < |v'.levels| && e in LevelEntries(v', l)
    ensures e in LevelEntries(v, l) || (l == c.level + 1 && e in EntriesOf(outs) && e in EntriesOf(c.A))
    ensures e in VersionEntries(v)
  {
    LevelSplit(v, c);
    NewLevels(v, c, outs, v');
    if l == c.level + 1 && e in EntriesOf(c.A) {
      assert e in LevelEntries(v, c.level);
    }
  }

  lemma NewSubset(v: Version, c: Inputs, outs: set<File>, v': Version)
    requires Selected(v, c) && Installed(v, c, outs, v') && EntriesOf(outs) <= InputEntries(c)
    ensures VersionEntries(v') <= VersionEntries(v)
  {
    forall e | e in VersionEntries(v') ensures e in VersionEntries(v) {
      var l :| 0 <= l < |v'.levels| && e in LevelEntries(v', l);
      NewFromOld(v, c, outs, v', l, e);
    }
  }

  // An old entry survives unless it was an input and dropped.
  lemma Survives(v: Version, c: Inputs, outs: set<File>, v': Version, e: Entry)
    requires Selected(v, c) && Installed(v, c, outs, v')
    requires e in VersionEntries(v) && (e in InputEntries(c) ==> e in EntriesOf(outs))
    ensures e in VersionEntries(v')
  {
    LevelSplit(v, c);
    NewLevels(v, c, outs, v');
    var l :| 0 <= l < |v.levels| && e in LevelEntries(v, l);
    if e in InputEntries(c) {
      assert e in LevelEntries(v', c.level + 1);
    } else {
      assert e in LevelEntries(v', l);
    }
  }

  lemma InputBounds(v: Version, c: Inputs, x: Entry)
    requires Within(c.A, c.lo, c.hi) && x in EntriesOf(c.A)
    ensures c.lo <= x.user <= c.hi
  {
    var f :| f in c.A && x in f.run;
    FileBounds(f, x);
  }

  // A key of A has all its next-level data in B.
  lemma NoKeyShared(v: Version, c: Inputs, x: Entry, y: Entry)
    requires GoodInputs(v, c) && x in EntriesOf(c.A) && y in EntriesOf(NextRest(v, c))
    ensures x.user != y.user
  {
    InputBounds(v, c, x);
    var g :| g in NextRest(v, c) && y in g.run;
    FileBounds(g, y);
  }

  lemma NotBelowBase(v: Version, level: nat, l: nat, y: Entry)
    requires BaseLevel(v, level, y.user) && level + 2 <= l < |v.levels|
    ensures y !in LevelEntries(v, l)
  {
    if y in LevelEntries(v, l) {
      var i := FromLevel(v.levels[l], y);
      var f: File := v.levels[l][i];
      FileBounds(f, y);
      assert f in v.levels[l] && Covers(f, y.user);
    }
  }

  // Data for x's key older than x is not at a shallower level.
  lemma NotAbove(v: Version, l: nat, m: nat, x: Entry, y: Entry)
    requires LevelRecency(v) && l < m < |v.levels|
    requires y in LevelEntries(v, l) && x in LevelEntries(v, m) && x.user == y.user
    ensures y.sn > x.sn
  {
    assert Newer(LevelEntries(v, l), LevelEntries(v, m));
  }

  // An unselected entry older than an input entry for the same key, with no data below the output
  // level, can only sit in an unselected file next to a selected one of the output level.
  lemma OlderLeftBehind(v: Version, c: Inputs, x: Entry, y: Entry)
    requires LevelRecency(v) && GoodInputs(v, c) && x in InputEntries(c)
    requires y in VersionEntries(v) && y !in InputEntries(c)
    requires x.user == y.user && y.sn < x.sn && BaseLevel(v, c.level, x.user)
    ensures x in EntriesOf(c.B) && y in EntriesOf(NextRest(v, c))
  {
    LevelSplit(v, c);
    var l :| 0 <= l < |v.levels| && y in LevelEntries(v, l);
    if l >= c.level + 2 {
      NotBelowBase(v, c.level, l, y);
    }
    if x in EntriesOf(c.A) {
      if l < c.level {
        NotAbove(v, l, c.level, x, y);
      } else if l == c.level + 1 {
        NoKeyShared(v, c, x, y);
      }
    } else {
      assert x in LevelEntries(v, c.level + 1);
    }
  }

  // ---- Reads ----

  lemma DroppedNewest(v: Version, c: Inputs, s: nat, t: nat, x: Entry)
    requires s <= t && Selected(v, c) && IsNewest(VersionEntries(v), x.user, t, x)
    requires x in InputEntries(c) && Dropped(v, c, s, x)
    ensures x.kind.Deletion? && x.sn <= s && BaseLevel(v, c.level, x.user)
  {
    if Hidden(InputEntries(c), s, x) {
      var o :| o in InputEntries(c) && o.user == x.user && x.sn < o.sn <= s;
      InputInVersion(v, c, o);
    }
  }

  lemma InputInVersion(v: Version, c: Inputs, o: Entry)
    requires Selected(v, c) && o in InputEntries(c)
    ensures o in VersionEntries(v)
  {
    LevelSplit(v, c);
    if o in EntriesOf(c.A) {
      assert o in LevelEntries(v, c.level);
    } else {
      assert o in LevelEntries(v, c.level + 1);
    }
  }

  // The user keys a compaction leaks.
  ghost function LeakedKeys(v: Version, c: Inputs, s: nat): set<UserKey>
    requires Selected(v, c)
  {
    set d, e | d in EntriesOf(c.B) && e in EntriesOf(NextRest(v, c)) && Leaks(v, c, s, d, e) :: d.user
  }

  ghost predicate LeakFree(v: Version, c: Inputs, s: nat)
    requires Selected(v, c)
  {
    forall d, e :: !Leaks(v, c, s, d, e)
  }

  // A read at t >= s whose newest entry was dropped still finds nothing, unless the compaction leaks its key.
  lemma NothingExposed(v: Version, c: Inputs, s: nat, t: nat, outs: set<File>, v': Version, x: Entry)
    requires LevelRecency(v) && OneWrite(VersionEntries(v)) && GoodInputs(v, c)
    requires InOrder(v.levels[c.level + 1])
    requires Compacted(v, c, s, outs) && Installed(v, c, outs, v') && s <= t && x.user !in LeakedKeys(v, c, s)
    requires IsNewest(VersionEntries(v), x.user, t, x)
    requires x in InputEntries(c) && Dropped(v, c, s, x)
    ensures Read(VersionEntries(v'), x.user, t) == None
  {
    DroppedNewest(v, c, s, t, x);
    NewSubset(v, c, outs, v');
    var E' := VersionEntries(v');
    if Read(E', x.user, t).Some? {
      var y := Newest(E', x.user, t).value;
      NotAnOutput(v, c, s, outs, v', x, y);
      OlderLeftBehind(v, c, x, y);
      forall o | o in EntriesOf(NextRest(v, c)) && o.user == x.user && o.sn <= s ensures o.sn <= y.sn {
        NewLevels(v, c, outs, v');
        assert o in LevelEntries(v', c.level + 1);
        assert o in E';
      }
      assert IsNewest(VersionEntries(v), x.user, s, x);
      assert IsNewest(EntriesOf(NextRest(v, c)), x.user, s, y);
      assert Leaks(v, c, s, x, y);
    }
  }

  // Two files of a sorted level share no entry.
  lemma NoSharedEntry(fs: seq<File>, f: File, g: File, e: Entry)
    requires InOrder(fs) && f in fs && g in fs && f != g && e in f.run
    ensures e !in g.run
  {
    var i :| 0 <= i < |fs| && fs[i] == f;
    var j :| 0 <= j < |fs| && fs[j] == g;
    assert Less(fs[i].Largest(), fs[j].Smallest()) || Less(fs[j].Largest(), fs[i].Smallest());
    FileBounds(f, e);
    if e in g.run {
      FileBounds(g, e);
    }
  }

  // Inputs leave the version, except through the outputs.
  lemma InputsGone(v: Version, c: Inputs, outs: set<File>, v': Version, e: Entry)
    requires LevelRecency(v) && GoodInputs(v, c) && InOrder(v.levels[c.level + 1])
    requires Installed(v, c, outs, v') && EntriesOf(outs) <= InputEntries(c)
    requires e in InputEntries(c) && e in VersionEntries(v')
    ensures e in EntriesOf(outs)
  {
    LevelSplit(v, c);
    NewLevels(v, c, outs, v');
    var m := if e in EntriesOf(c.A) then c.level else c.level + 1;
    assert e in LevelEntries(v, m);
    var l :| 0 <= l < |v'.levels| && e in LevelEntries(v', l);
    if e !in EntriesOf(outs) {
      NewFromOld(v, c, outs, v', l, e);
      OneLevel(v, l, m, e);
      if l == c.level + 1 {
        var f :| f in c.B && e in f.run;
        var g :| g in NextRest(v, c) && e in g.run;
        NoSharedEntry(v.levels[c.level + 1], f, g, e);
      }
    }
  }

  lemma OneLevel(v: Version, l: nat, m: nat, e: Entry)
    requires LevelRecency(v) && l < |v.levels| && m < |v.levels|
    requires e in LevelEntries(v, l) && e in LevelEntries(v, m)
    ensures l == m
  {
    assert l < m ==> Newer(LevelEntries(v, l), LevelEntries(v, m));
    assert m < l ==> Newer(LevelEntries(v, m), LevelEntries(v, l));
  }

  // A new-version entry for x's key, visible at s, was not an input: x hides it.
  lemma NotAnOutput(v: Version, c: Inputs, s: nat, outs: set<File>, v': Version, x: Entry, y: Entry)
    requires LevelRecency(v) && OneWrite(VersionEntries(v)) && GoodInputs(v, c)
    requires InOrder(v.levels[c.level + 1])
    requires Compacted(v, c, s, outs) && Installed(v, c, outs, v')
    requires x in InputEntries(c) && x.sn <= s && Dropped(v, c, s, x)
    requires IsNewest(VersionEntries(v), x.user, s, x)
    requires y in VersionEntries(v') && y.user == x.user && y.sn <= s
    ensures y.sn < x.sn && y !in InputEntries(c) && y in VersionEntries(v)
  {
    assert EntriesOf(outs) <= InputEntries(c);
    NewSubset(v, c, outs, v');
    assert y in InputEntries(c) && y.sn < x.sn ==> Hidden(InputEntries(c), s, y);
    if y in InputEntries(c) {
      InputsGone(v, c, outs, v', y);
    }
  }

  // A compaction keeps every read of a key at or above the smallest snapshot exactly when it does not
  // leak that key.
  lemma KeyPreserved(v: Version, c: Inputs, s: nat, outs: set<File>, v': Version, k: UserKey)
    requires Valid(v) && GoodInputs(v, c) && Compacted(v, c, s, outs) && Installed(v, c, outs, v')
    ensures k !in LeakedKeys(v, c, s) <==>
      forall t | t >= s :: Read(VersionEntries(v'), k, t) == Read(VersionEntries(v), k, t)
  {
    if k !in LeakedKeys(v, c, s) {
      forall t: nat | t >= s ensures Read(VersionEntries(v'), k, t) == Read(VersionEntries(v), k, t) {
        SameRead(v, c, s, t, outs, v', k);
      }
    } else {
      var d, e :| Leaks(v, c, s, d, e) && d.user == k;
      LeakShows(v, c, s, outs, v', d, e);
    }
  }

  lemma LeakFreeIff(v: Version, c: Inputs, s: nat)
    requires Selected(v, c)
    ensures LeakFree(v, c, s) <==> forall k :: k !in LeakedKeys(v, c, s)
  {
    if d, e :| Leaks(v, c, s, d, e) {
      assert d.user in LeakedKeys(v, c, s);
    }
  }

  // All reads are kept exactly when nothing leaks.
  lemma ReadsPreserved(v: Version, c: Inputs, s: nat, outs: set<File>, v': Version)
    requires Valid(v) && GoodInputs(v, c) && Compacted(v, c, s, outs) && Installed(v, c, outs, v')
    ensures LeakFree(v, c, s) <==>
      forall k, t | t >= s :: Read(VersionEntries(v'), k, t) == Read(VersionEntries(v), k, t)
  {
    hide Valid, Newer, Within, Compacted, Installed, LeakFree, LeakedKeys, Read, VersionEntries;
    LeakFreeIff(v, c, s);
    if k :| k in LeakedKeys(v, c, s) {
      KeyPreserved(v, c, s, outs, v', k);
      var t: nat :| t >= s && Read(VersionEntries(v'), k, t) != Read(VersionEntries(v), k, t);
    } else {
      forall k: UserKey, t: nat | t >= s ensures Read(VersionEntries(v'), k, t) == Read(VersionEntries(v), k, t) {
        KeyPreserved(v, c, s, outs, v', k);
      }
    }
  }

  lemma SameRead(v: Version, c: Inputs, s: nat, t: nat, outs: set<File>, v': Version, k: UserKey)
    requires LevelRecency(v) && OneWrite(VersionEntries(v)) && GoodInputs(v, c)
    requires InOrder(v.levels[c.level + 1])
    requires Compacted(v, c, s, outs) && Installed(v, c, outs, v') && s <= t && k !in LeakedKeys(v, c, s)
    ensures Read(VersionEntries(v'), k, t) == Read(VersionEntries(v), k, t)
  {
    var E, E' := VersionEntries(v), VersionEntries(v');
    assert EntriesOf(outs) <= InputEntries(c);
    NewSubset(v, c, outs, v');
    NewestNone(E, k, t);
    NewestNone(E', k, t);
    if Newest(E, k, t).Some? {
      var x := Newest(E, k, t).value;
      if x in InputEntries(c) && Dropped(v, c, s, x) {
        DroppedNewest(v, c, s, t, x);
        NothingExposed(v, c, s, t, outs, v', x);
      } else {
        Survives(v, c, outs, v', x);
        assert IsNewest(E', k, t, x);
        NewestIs(E', k, t, x);
      }
    }
  }

  // A leak brings back the value the tombstone had deleted.
  lemma LeakShows(v: Version, c: Inputs, s: nat, outs: set<File>, v': Version, d: Entry, e: Entry)
    requires LevelRecency(v) && OneWrite(VersionEntries(v)) && GoodInputs(v, c)
    requires InOrder(v.levels[c.level + 1])
    requires Compacted(v, c, s, outs) && Installed(v, c, outs, v') && Leaks(v, c, s, d, e)
    ensures Read(VersionEntries(v), d.user, s) == None
    ensures Read(VersionEntries(v'), d.user, s) == Some(e.value)
  {
    var E' := VersionEntries(v');
    NewestIs(VersionEntries(v), d.user, s, d);
    assert EntriesOf(outs) <= InputEntries(c);
    NewSubset(v, c, outs, v');
    NewLevels(v, c, outs, v');
    assert e in LevelEntries(v', c.level + 1);
    forall o | o in E' && o.user == d.user && o.sn <= s ensures o.sn <= e.sn {
      NotAnOutput(v, c, s, outs, v', d, o);
      OlderLeftBehind(v, c, d, o);
    }
    assert IsNewest(E', d.user, s, e);
    NewestIs(E', d.user, s, e);
  }

  // The premise a caller can check on file bounds and keys: no file left at the next level shares a
  // user key with a selected one.
  ghost predicate NoSharedKey(v: Version, c: Inputs)
    requires Selected(v, c)
  {
    forall a, b :: a in EntriesOf(c.B) && b in EntriesOf(NextRest(v, c)) ==> a.user != b.user
  }

  // It suffices, and between files in order it is just that no user key straddles two neighbouring
  // files of which one is selected: what AddBoundaryInputs would ensure if it were applied there too.
  lemma NoSharedKeyNoLeak(v: Version, c: Inputs, s: nat)
    requires Selected(v, c) && NoSharedKey(v, c)
    ensures LeakFree(v, c, s)
  {
  }

  lemma NoStraddleNoSharedKey(v: Version, c: Inputs)
    requires Selected(v, c) && InOrder(v.levels[c.level + 1])
    requires forall f, g :: f in c.B && g in NextRest(v, c) ==>
      f.Largest().user != g.Smallest().user && g.Largest().user != f.Smallest().user
    ensures NoSharedKey(v, c)
  {
    forall a, b | a in EntriesOf(c.B) && b in EntriesOf(NextRest(v, c)) ensures a.user != b.user {
      var f :| f in c.B && a in f.run;
      var g :| g in NextRest(v, c) && b in g.run;
      assert f in v.levels[c.level + 1] && g in v.levels[c.level + 1];
      FileBounds(f, a);
      FileBounds(g, b);
      InOrderApart(v.levels[c.level + 1], f, g);
    }
  }

  // ---- The invariant ----

  ghost predicate Apart(f: File, g: File) {
    Less(f.Largest(), g.Smallest()) || Less(g.Largest(), f.Smallest())
  }

  ghost predicate Separated(F: set<File>) {
    forall f, g :: f in F && g in F && f != g ==> Apart(f, g)
  }

  // Output numbers are new, or kept by a file that moves.
  ghost predicate NumbersFree(v: Version, c: Inputs, outs: set<File>) {
    UniqueNumbers(outs)
    && forall l, f, o ::
      0 <= l < |v.levels| && f in v.levels[l] && o in outs && o.number == f.number
      ==> o == f && l == c.level && f in c.A
  }

  lemma EndsIn(F: set<File>, f: File)
    requires f in F
    ensures f.run[0] in EntriesOf(F) && f.run[|f.run| - 1] in EntriesOf(F)
  {
    assert f.run[0] in f.run && f.run[|f.run| - 1] in f.run;
  }

  // An unselected next-level file lies wholly before or wholly after everything being merged.
  lemma RestOutside(v: Version, c: Inputs, f: File, x: Entry)
    requires GoodInputs(v, c) && InOrder(v.levels[c.level + 1]) && f in NextRest(v, c) && x in InputEntries(c)
    ensures f.Largest().user < c.lo ==> Less(f.Largest(), x.Key())
    ensures f.Smallest().user > c.hi ==> Less(x.Key(), f.Smallest())
  {
    FileBounds(f, f.run[0]);
    if x in EntriesOf(c.A) {
      InputBounds(v, c, x);
    } else {
      var g :| g in c.B && x in g.run;
      FileBounds(g, x);
      FileBounds(g, g.run[0]);
      InOrderApart(v.levels[c.level + 1], f, g);
    }
  }

  lemma InOrderApart(fs: seq<File>, f: File, g: File)
    requires InOrder(fs) && f in fs && g in fs && f != g
    ensures Apart(f, g)
  {
    var i :| 0 <= i < |fs| && fs[i] == f;
    var j :| 0 <= j < |fs| && fs[j] == g;
    assert i < j ==> Less(fs[i].Largest(), fs[j].Smallest());
    assert j < i ==> Less(fs[j].Largest(), fs[i].Smallest());
  }

  lemma OutputsFit(v: Version, c: Inputs, outs: set<File>)
    requires GoodInputs(v, c) && InOrder(v.levels[c.level + 1])
    requires Separated(outs) && EntriesOf(outs) <= InputEntries(c)
    ensures Separated(NextRest(v, c) + outs)
  {
    forall f, g | f in NextRest(v, c) + outs && g in NextRest(v, c) + outs && f != g
      ensures Apart(f, g)
    {
      if f in NextRest(v, c) && g in NextRest(v, c) {
        InOrderApart(v.levels[c.level + 1], f, g);
      } else if f in NextRest(v, c) {
        RestApart(v, c, outs, f, g);
      } else if g in NextRest(v, c) {
        RestApart(v, c, outs, g, f);
      }
    }
  }

  lemma RestApart(v: Version, c: Inputs, outs: set<File>, f: File, o: File)
    requires GoodInputs(v, c) && InOrder(v.levels[c.level + 1])
    requires EntriesOf(outs) <= InputEntries(c) && f in NextRest(v, c) && o in outs
    ensures Apart(f, o)
  {
    EndsIn(outs, o);
    RestOutside(v, c, f, o.run[0]);
    RestOutside(v, c, f, o.run[|o.run| - 1]);
  }

  lemma SortedAndApart(fs: seq<File>)
    requires BySmallest(fs) && Separated(FileSet(fs))
    ensures InOrder(fs)
  {
    forall i, j | 0 <= i < j < |fs| ensures Less(fs[i].Largest(), fs[j].Smallest()) {
      assert FileLess(fs[i], fs[j]);
      assert fs[i] in FileSet(fs) && fs[j] in FileSet(fs);
      FileBounds(fs[i], fs[i].run[0]);
      FileBounds(fs[j], fs[j].run[0]);
    }
  }

  lemma InOrderSorted(fs: seq<File>)
    requires InOrder(fs)
    ensures BySmallest(fs)
  {
    forall i, j | 0 <= i < j < |fs| ensures FileLess(fs[i], fs[j]) {
      OrderedEnds(fs, i, j);
    }
  }

  lemma RecencyPair(v: Version, c: Inputs, outs: set<File>, v': Version, l: nat, m: nat, a: Entry, b: Entry)
    requires LevelRecency(v) && GoodInputs(v, c) && Installed(v, c, outs, v') && EntriesOf(outs) <= InputEntries(c)
    requires l < m < |v'.levels| && a in LevelEntries(v', l) && b in LevelEntries(v', m) && a.user == b.user
    ensures a.sn > b.sn
  {
    NewFromOld(v, c, outs, v', l, a);
    NewFromOld(v, c, outs, v', m, b);
    LevelSplit(v, c);
    NewLevels(v, c, outs, v');
    var l0 := if a in LevelEntries(v, l) then l else c.level;
    var m0 := if b in LevelEntries(v, m) then m else c.level;
    assert a in LevelEntries(v, l0) && b in LevelEntries(v, m0);
    assert l0 < m0 ==> Newer(LevelEntries(v, l0), LevelEntries(v, m0));
  }

  lemma OneWriteSubset(E: set<Entry>, F: set<Entry>)
    requires OneWrite(E) && F <= E
    ensures OneWrite(F)
  {
  }

  lemma NumbersKept(v: Version, c: Inputs, outs: set<File>, v': Version)
    requires NumbersName(v) && Selected(v, c) && Installed(v, c, outs, v') && NumbersFree(v, c, outs)
    ensures NumbersName(v')
  {
    forall l, m, f, g | 0 <= l < |v'.levels| && 0 <= m < |v'.levels| && f in v'.levels[l] && g in v'.levels[m]
      && f.number == g.number
      ensures f == g
    {
      OldFile(v, c, outs, v', l, f);
      OldFile(v, c, outs, v', m, g);
    }
  }

  lemma OldFile(v: Version, c: Inputs, outs: set<File>, v': Version, l: nat, f: File)
    requires Selected(v, c) && Installed(v, c, outs, v') && l < |v'.levels| && f in v'.levels[l]
    ensures f in v.levels[l] || f in outs
  {
    assert f in FileSet(v'.levels[l]);
  }

  // Compactions and trivial moves keep the version invariant, recency included.
  lemma InvariantKept(v: Version, c: Inputs, outs: set<File>, v': Version)
    requires Valid(v) && GoodInputs(v, c) && Installed(v, c, outs, v')
    requires EntriesOf(outs) <= InputEntries(c) && Separated(outs) && NumbersFree(v, c, outs)
    ensures Valid(v')
  {
    OutputsFit(v, c, outs);
    forall l | 1 <= l < NUM_LEVELS ensures InOrder(v'.levels[l]) {
      if l == c.level {
        forall f, g | f in Rest(v, c) && g in Rest(v, c) && f != g ensures Apart(f, g) {
          InOrderApart(v.levels[l], f, g);
        }
        SortedAndApart(v'.levels[l]);
      } else if l == c.level + 1 {
        SortedAndApart(v'.levels[l]);
      }
    }
    NumbersKept(v, c, outs, v');
    NewSubset(v, c, outs, v');
    OneWriteSubset(VersionEntries(v), VersionEntries(v'));
    forall l, m | 0 <= l < m < |v'.levels| ensures Newer(LevelEntries(v', l), LevelEntries(v', m)) {
      forall a, b | a in LevelEntries(v', l) && b in LevelEntries(v', m) && a.user == b.user ensures a.sn > b.sn {
        RecencyPair(v, c, outs, v', l, m, a, b);
      }
    }
  }
}
