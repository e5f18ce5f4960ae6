// The manifest as a list of edits.

module Manifests {
  // A snapshot of a version, then every change to it
  // (VersionSet::Recover, VersionSet::WriteSnapshot).

  import opened DbFormat
  import opened Versions
  import opened Compactions
  import opened VersionBuilder

  // ---- One builder over many edits ----

  ghost predicate Based(v: Version) {
    |v.levels| == NUM_LEVELS && forall l :: 0 <= l < NUM_LEVELS ==> BySmallest(v.levels[l])
  }

  // Applied to v, the edits never add a (level, number) pair that was used at that level.
  ghost predicate FreshEdits(v: Version, edits: seq<Edit>) {
    Based(v) && (forall i :: 0 <= i < |edits| ==> EditOk(edits[i]))
    && forall l :: 0 <= l < NUM_LEVELS ==> FreshAdds(FileSet(v.levels[l]), edits, l)
  }

  lemma {:induction false} FreshPrefix(fs: set<File>, edits: seq<Edit>, n: nat, l: nat)
    requires FreshAdds(fs, edits, l) && n <= |edits|
    ensures FreshAdds(fs, edits[..n], l)
  {
    if n < |edits| {
      assert edits[..|edits| - 1][..n] == edits[..n];
      FreshPrefix(fs, edits[..|edits| - 1], n, l);
    } else {
      assert edits[..n] == edits;
    }
  }

  lemma FreshNext(fs: set<File>, edits: seq<Edit>, n: nat, l: nat)
    requires FreshAdds(fs, edits, l) && n < |edits|
    ensures FreshFor(AddedAfter(edits[..n], l), AddedAt(edits[n], l))
  {
    FreshPrefix(fs, edits, n + 1, l);
    assert edits[..n + 1][..n] == edits[..n];
    assert forall f :: f in AddedAfter(edits[..n], l) ==> f in fs + AddedAfter(edits[..n], l);
  }

  lemma {:induction false} FreshUnique(fs: set<File>, edits: seq<Edit>, l: nat)
    requires FreshAdds(fs, edits, l)
    ensures UniqueNumbers(fs + AddedAfter(edits, l)) && fs !! AddedAfter(edits, l)
  {
    if edits == [] {
      assert fs + {} == fs;
    } else {
      var init := edits[..|edits| - 1];
      FreshUnique(fs, init, l);
      assert fs + AddedAfter(edits, l) == fs + AddedAfter(init, l) + AddedAt(edits[|edits| - 1], l);
    }
  }

  // One builder over all the edits makes of every level what applying them one version at a time makes.
  method ReplayEdits(v: Version, edits: seq<Edit>) returns (r: Version)
    requires FreshEdits(v, edits)
    ensures Based(r)
    ensures forall l :: 0 <= l < NUM_LEVELS ==> FileSet(r.levels[l]) == StepwiseLevel(FileSet(v.levels[l]), edits, l)
  {
    var b := new Builder(v);
    for i := 0 to |edits|
      invariant b.Ok() && b.edits == edits[..i]
    {
      forall l | 0 <= l < NUM_LEVELS ensures FreshFor(AddedAfter(b.edits, l), AddedAt(edits[i], l)) {
        FreshNext(FileSet(v.levels[l]), edits, i, l);
      }
      b.Apply(edits[i]);
      assert edits[..i + 1] == edits[..i] + [edits[i]];
    }
    assert edits[..|edits|] == edits;
    forall l | 0 <= l < NUM_LEVELS
      ensures UniqueNumbers(FileSet(v.levels[l]) + AddedAfter(edits, l))
      ensures FileSet(v.levels[l]) !! AddedAfter(edits, l)
      ensures BuiltLevel(FileSet(v.levels[l]), edits, l) == StepwiseLevel(FileSet(v.levels[l]), edits, l)
    {
      FreshUnique(FileSet(v.levels[l]), edits, l);
      ReplayStepwise(FileSet(v.levels[l]), edits, l);
    }
    r := b.SaveTo();
  }

  lemma SameVersion(a: Version, b: Version)
    requires Based(a) && Based(b)
    requires forall l :: 0 <= l < NUM_LEVELS ==> FileSet(a.levels[l]) == FileSet(b.levels[l])
    ensures a == b
  {
    forall l | 0 <= l < NUM_LEVELS ensures a.levels[l] == b.levels[l] {
      SameSetSameList(a.levels[l], b.levels[l]);
    }
    assert a.levels == b.levels;
  }

  // ---- The live versions ----

  // The versions LogAndApply made one after another.
  ghost predicate Live(vs: seq<Version>, edits: seq<Edit>) {
    |vs| == |edits| + 1 && FreshEdits(vs[0], edits) && (forall i :: 0 <= i < |vs| ==> |vs[i].levels| == NUM_LEVELS)
    && forall i :: 0 <= i < |edits| ==> Applied(vs[i], edits[i], vs[i + 1])
  }

  lemma {:induction false} LiveLevels(vs: seq<Version>, edits: seq<Edit>, n: nat, l: nat)
    requires Live(vs, edits) && n <= |edits| && l < NUM_LEVELS
    ensures Based(vs[n]) && FileSet(vs[n].levels[l]) == StepwiseLevel(FileSet(vs[0].levels[l]), edits[..n], l)
  {
    if n == 0 {
      assert edits[..0] == [];
    } else {
      LiveLevels(vs, edits, n - 1, l);
      assert Applied(vs[n - 1], edits[n - 1], vs[n]);
      assert edits[..n][..n - 1] == edits[..n - 1];
    }
  }

  lemma LivePrefix(vs: seq<Version>, edits: seq<Edit>, n: nat)
    requires Live(vs, edits) && n <= |edits|
    ensures Live(vs[..n + 1], edits[..n])
  {
    forall l | 0 <= l < NUM_LEVELS ensures FreshAdds(FileSet(vs[0].levels[l]), edits[..n], l) {
      FreshPrefix(FileSet(vs[0].levels[l]), edits, n, l);
    }
  }

  // Applying all edits in one builder gives the last of the versions they made one at a time.
  method ReplayLive(v: Version, edits: seq<Edit>, ghost vs: seq<Version>) returns (r: Version)
    requires Live(vs, edits) && vs[0] == v
    ensures r == vs[|edits|]
  {
    r := ReplayEdits(v, edits);
    assert edits[..|edits|] == edits;
    LiveLevels(vs, edits, |edits|, 0);
    forall l | 0 <= l < NUM_LEVELS ensures FileSet(r.levels[l]) == FileSet(vs[|edits|].levels[l]) {
      LiveLevels(vs, edits, |edits|, l);
    }
    SameVersion(r, vs[|edits|]);
  }

  // A level in the builder's order is sorted and disjoint exactly when no two of its files overlap.
  lemma InOrderIff(fs: seq<File>)
    requires BySmallest(fs)
    ensures InOrder(fs) <==> Separated(FileSet(fs))
  {
    if InOrder(fs) {
      forall f, g | f in FileSet(fs) && g in FileSet(fs) && f != g ensures Apart(f, g) {
        InOrderApart(fs, f, g);
      }
    } else if Separated(FileSet(fs)) {
      SortedAndApart(fs);
    }
  }

  // The edit keeps a level of non-overlapping files so: what it adds overlaps neither itself nor anything
  // it leaves.
  ghost predicate KeepsApart(fs: set<File>, e: Edit, l: nat) {
    Separated(AddedAt(e, l))
    && forall f, g :: f in fs && (l, f.number) !in e.deleted && g in AddedAt(e, l) && f != g ==> Apart(f, g)
  }

  ghost predicate StartsAndStaysApart(vs: seq<Version>, edits: seq<Edit>, l: nat)
    requires Live(vs, edits) && l < NUM_LEVELS
  {
    InOrder(vs[0].levels[l])
    && forall i :: 0 <= i < |edits| ==> KeepsApart(FileSet(vs[i].levels[l]), edits[i], l)
  }

  // Levels above zero stay sorted and disjoint through every edit, and through one builder over all of
  // them, if each edit keeps them so.
  lemma {:induction false} LiveInOrder(vs: seq<Version>, edits: seq<Edit>, n: nat, l: nat)
    requires Live(vs, edits) && n <= |edits| && l < NUM_LEVELS && StartsAndStaysApart(vs, edits, l)
    ensures InOrder(vs[n].levels[l])
  {
    if n > 0 {
      LiveInOrder(vs, edits, n - 1, l);
      LiveLevels(vs, edits, n - 1, l);
      LiveLevels(vs, edits, n, l);
      FreshFiles(vs, edits, n - 1, l);
      StepInOrder(vs[n - 1].levels[l], edits[n - 1], l, vs[n].levels[l]);
    }
  }

  // What an edit adds was not at the level.
  lemma FreshFiles(vs: seq<Version>, edits: seq<Edit>, n: nat, l: nat)
    requires Live(vs, edits) && n < |edits| && l < NUM_LEVELS
    ensures forall f, g :: f in FileSet(vs[n].levels[l]) && g in AddedAt(edits[n], l) ==> f.number != g.number
    ensures Applied(vs[n], edits[n], vs[n + 1])
  {
    LiveLevels(vs, edits, n, l);
    FreshPrefix(FileSet(vs[0].levels[l]), edits, n + 1, l);
    assert edits[..n + 1][..n] == edits[..n];
    StepwiseWithin(FileSet(vs[0].levels[l]), edits[..n], l);
  }

  lemma {:induction false} StepwiseWithin(fs: set<File>, edits: seq<Edit>, l: nat)
    ensures StepwiseLevel(fs, edits, l) <= fs + AddedAfter(edits, l)
  {
    if edits != [] {
      StepwiseWithin(fs, edits[..|edits| - 1], l);
    }
  }

  // For one edit it is exactly the condition.
  lemma StepInOrder(fs: seq<File>, e: Edit, l: nat, fs': seq<File>)
    requires BySmallest(fs) && BySmallest(fs') && FileSet(fs') == LevelAfter(FileSet(fs), e, l) && InOrder(fs)
    requires forall f, g :: f in FileSet(fs) && g in AddedAt(e, l) ==> f.number != g.number
    ensures InOrder(fs') <==> KeepsApart(FileSet(fs), e, l)
  {
    InOrderIff(fs);
    InOrderIff(fs');
    forall f | f in FileSet(fs) + AddedAt(e, l)
      ensures f in FileSet(fs') <==> f in AddedAt(e, l) || (l, f.number) !in e.deleted
    {
      assert f in AddedAt(e, l) ==> AddsNumber(e, l, f.number);
    }
  }

  // ---- The snapshot that starts a manifest ----

  // The files of the levels from l on, with their level.
  function FilesFrom(v: Version, l: nat): seq<(nat, File)>
    requires l <= |v.levels|
    decreases |v.levels| - l
  {
    if l == |v.levels| then [] else LevelFiles(v.levels[l], l) + FilesFrom(v, l + 1)
  }

  function LevelFiles(fs: seq<File>, l: nat): seq<(nat, File)> {
    seq(|fs|, i requires 0 <= i < |fs| => (l, fs[i]))
  }

  // Every file of every level.
  function SnapshotEdit(v: Version): Edit {
    Edit({}, FilesFrom(v, 0))
  }

  lemma {:induction false} FilesFromMembers(v: Version, l: nat, x: (nat, File))
    requires l <= |v.levels|
    ensures x in FilesFrom(v, l) <==> l <= x.0 < |v.levels| && x.1 in v.levels[x.0]
    decreases |v.levels| - l
  {
    if l < |v.levels| {
      FilesFromMembers(v, l + 1, x);
      var fs := LevelFiles(v.levels[l], l);
      assert x in fs <==> x.0 == l && x.1 in v.levels[l] by {
        if x.0 == l && x.1 in v.levels[l] {
          var i :| 0 <= i < |v.levels[l]| && v.levels[l][i] == x.1;
          assert fs[i] == x;
        }
      }
    }
  }

  lemma SnapshotAdds(v: Version, l: nat)
    ensures AddedAt(SnapshotEdit(v), l) == if l < |v.levels| then FileSet(v.levels[l]) else {}
  {
    var e := SnapshotEdit(v);
    forall f: File ensures f in AddedAt(e, l) <==> l < |v.levels| && f in v.levels[l] {
      FilesFromMembers(v, 0, (l, f));
      if f in AddedAt(e, l) {
        var i :| 0 <= i < |e.added| && e.added[i].0 == l && e.added[i].1 == f;
        assert e.added[i] == (l, f);
      }
      if (l, f) in e.added {
        var i :| 0 <= i < |e.added| && e.added[i] == (l, f);
      }
    }
  }

  lemma SnapshotEditOk(v: Version)
    requires |v.levels| == NUM_LEVELS
    ensures EditOk(SnapshotEdit(v))
  {
    var e := SnapshotEdit(v);
    forall i | 0 <= i < |e.added| ensures e.added[i].0 < NUM_LEVELS {
      FilesFromMembers(v, 0, e.added[i]);
    }
  }

  // Applied to nothing, the snapshot gives the level back.
  lemma SnapshotLevel(v: Version, l: nat)
    requires |v.levels| == NUM_LEVELS && l < NUM_LEVELS && UniqueNumbers(FileSet(v.levels[l]))
    ensures StepwiseLevel({}, [SnapshotEdit(v)], l) == FileSet(v.levels[l])
    ensures FreshAdds({}, [SnapshotEdit(v)], l) && AddedAfter([SnapshotEdit(v)], l) == FileSet(v.levels[l])
  {
    SnapshotAdds(v, l);
    var edits := [SnapshotEdit(v)];
    assert edits[..0] == [];
    assert StepwiseLevel({}, [], l) == {} && AddedAfter([], l) == {};
  }

  // Edits after the snapshot do to the level what they do to the version it describes.
  lemma {:induction false} AfterSnapshot(v: Version, edits: seq<Edit>, l: nat)
    requires |v.levels| == NUM_LEVELS && l < NUM_LEVELS && FreshAdds(FileSet(v.levels[l]), edits, l)
    ensures FreshAdds({}, [SnapshotEdit(v)] + edits, l)
    ensures AddedAfter([SnapshotEdit(v)] + edits, l) == FileSet(v.levels[l]) + AddedAfter(edits, l)
    ensures StepwiseLevel({}, [SnapshotEdit(v)] + edits, l) == StepwiseLevel(FileSet(v.levels[l]), edits, l)
  {
    var snap := [SnapshotEdit(v)];
    if edits == [] {
      assert snap + edits == snap;
      SnapshotLevel(v, l);
    } else {
      var init, last := edits[..|edits| - 1], edits[|edits| - 1];
      AfterSnapshot(v, init, l);
      var all := snap + edits;
      assert all[..|all| - 1] == snap + init && all[|all| - 1] == last;
      assert {} + AddedAfter(snap + init, l) == FileSet(v.levels[l]) + AddedAfter(init, l);
    }
  }

  lemma SnapshotFresh(v: Version, edits: seq<Edit>)
    requires FreshEdits(v, edits)
    ensures FreshEdits(EMPTY_VERSION, [SnapshotEdit(v)] + edits)
  {
    hide SnapshotEdit, BySmallest, EditOk, FreshAdds;
    SnapshotEditOk(v);
    EmptyBased();
    forall l | 0 <= l < NUM_LEVELS ensures FreshAdds({}, [SnapshotEdit(v)] + edits, l) {
      AfterSnapshot(v, edits, l);
    }
  }

  lemma EmptyBased()
    ensures Based(EMPTY_VERSION) && forall l :: 0 <= l < NUM_LEVELS ==> FileSet(EMPTY_VERSION.levels[l]) == {}
  {
    forall l | 0 <= l < NUM_LEVELS ensures EMPTY_VERSION.levels[l] == [] {
    }
  }

  lemma SnapshotApplies(v: Version)
    requires Based(v)
    ensures Applied(EMPTY_VERSION, SnapshotEdit(v), v)
  {
    hide SnapshotEdit, BySmallest;
    EmptyBased();
    forall l | 0 <= l < NUM_LEVELS ensures FileSet(v.levels[l]) == LevelAfter({}, SnapshotEdit(v), l) {
      SnapshotAdds(v, l);
      SnapshotDeletes(v);
    }
  }

  lemma SnapshotDeletes(v: Version)
    ensures SnapshotEdit(v).deleted == {}
  {
  }

  // Seen from nothing, the manifest of a store that started from a version walks through the same
  // versions.
  lemma SnapshotLive(vs: seq<Version>, edits: seq<Edit>)
    requires Live(vs, edits)
    ensures Live([EMPTY_VERSION] + vs, [SnapshotEdit(vs[0])] + edits)
  {
    hide SnapshotEdit, FreshEdits, Applied;
    SnapshotFresh(vs[0], edits);
    assert Based(vs[0]) by { LiveLevels(vs, edits, 0, 0); }
    SnapshotApplies(vs[0]);
    var all, more := [EMPTY_VERSION] + vs, [SnapshotEdit(vs[0])] + edits;
    forall i | 0 <= i < |more| ensures Applied(all[i], more[i], all[i + 1]) {
      if i > 0 { assert Applied(vs[i - 1], edits[i - 1], vs[i]); }
    }
  }

  // ---- Every manifest walks through versions ----

  lemma FilesCompare(f: File, g: File)
    requires f.number != g.number
    ensures FileLess(f, g) || FileLess(g, f)
  {
  }

  lemma FilesTransitive(f: File, g: File, h: File)
    requires FileLess(f, g) && FileLess(g, h)
    ensures FileLess(f, h)
  {
  }

  lemma {:induction false} FirstFile(fs: set<File>) returns (f: File)
    requires fs != {} && UniqueNumbers(fs)
    ensures f in fs && forall g :: g in fs && g != f ==> FileLess(f, g)
    decreases |fs|
  {
    f :| f in fs;
    if fs != {f} {
      hide FileLess;
      var least := FirstFile(fs - {f});
      FilesCompare(f, least);
      if FileLess(f, least) {
        forall g | g in fs && g != f ensures FileLess(f, g) {
          if g != least { FilesTransitive(f, least, g); }
        }
      } else {
        f := least;
      }
    }
  }

  // Files with numbers of their own can be put in order.
  lemma {:induction false} InOrderOf(fs: set<File>) returns (s: seq<File>)
    requires UniqueNumbers(fs)
    ensures BySmallest(s) && FileSet(s) == fs
    decreases |fs|
  {
    hide BySmallest, FileLess, FileSet;
    if fs == {} {
      s := [];
      NoFiles();
    } else {
      var f := FirstFile(fs);
      var rest := InOrderOf(fs - {f});
      s := [f] + rest;
      FirstThenRest(fs, f, rest);
    }
  }

  lemma NoFiles()
    ensures BySmallest([]) && FileSet([]) == {}
  {
  }

  lemma FirstThenRest(fs: set<File>, f: File, rest: seq<File>)
    requires f in fs && BySmallest(rest) && FileSet(rest) == fs - {f}
    requires forall g :: g in fs && g != f ==> FileLess(f, g)
    ensures BySmallest([f] + rest) && FileSet([f] + rest) == fs
  {
    hide FileLess;
    var s := [f] + rest;
    forall i, j | 0 <= i < j < |s| ensures FileLess(s[i], s[j]) {
      assert s[j] == rest[j - 1] && rest[j - 1] in FileSet(rest);
      assert i > 0 ==> s[i] == rest[i - 1];
    }
    forall g ensures g in FileSet(s) <==> g in fs {
      assert g in FileSet(rest) <==> g in rest;
      assert g in FileSet(s) <==> g in s;
    }
  }

  lemma {:induction false} UniqueStep(fs: set<File>, edits: seq<Edit>, l: nat)
    requires FreshAdds(fs, edits, l)
    ensures UniqueNumbers(StepwiseLevel(fs, edits, l))
  {
    FreshUnique(fs, edits, l);
    StepwiseWithin(fs, edits, l);
  }

  // Fresh edits lead through versions, one for each of them.
  lemma {:induction false} WalksThrough(v: Version, edits: seq<Edit>) returns (vs: seq<Version>)
    requires FreshEdits(v, edits)
    ensures Live(vs, edits) && vs[0] == v
  {
    if edits == [] {
      vs := [v];
    } else {
      var n := |edits| - 1;
      forall l | 0 <= l < NUM_LEVELS ensures FreshAdds(FileSet(v.levels[l]), edits[..n], l) {
        FreshPrefix(FileSet(v.levels[l]), edits, n, l);
      }
      var before := WalksThrough(v, edits[..n]);
      var next := NextVersion(v, edits, before);
      vs := before + [next];
      forall i | 0 <= i < |edits| ensures Applied(vs[i], edits[i], vs[i + 1]) {
        if i < n { assert Applied(before[i], edits[..n][i], before[i + 1]); }
      }
    }
  }

  lemma NextVersion(v: Version, edits: seq<Edit>, before: seq<Version>) returns (next: Version)
    requires edits != [] && FreshEdits(v, edits) && Live(before, edits[..|edits| - 1]) && before[0] == v
    ensures |next.levels| == NUM_LEVELS && Applied(before[|edits| - 1], edits[|edits| - 1], next)
  {
    hide BySmallest, LevelAfter, Live, FreshEdits;
    var n := |edits| - 1;
    var levels: seq<seq<File>> := [];
    BeforeLevels(before, edits[..n]);
    for l := 0 to NUM_LEVELS
      invariant |levels| == l
      invariant forall m :: 0 <= m < l ==>
        BySmallest(levels[m]) && FileSet(levels[m]) == LevelAfter(FileSet(before[n].levels[m]), edits[n], m)
    {
      var fs := NextLevel(v, edits, before, l);
      levels := levels + [fs];
    }
    next := Version(levels);
  }

  lemma BeforeLevels(before: seq<Version>, edits: seq<Edit>)
    requires Live(before, edits)
    ensures |before| == |edits| + 1 && forall i :: 0 <= i < |before| ==> |before[i].levels| == NUM_LEVELS
  {
  }

  lemma NextLevel(v: Version, edits: seq<Edit>, before: seq<Version>, l: nat) returns (fs: seq<File>)
    requires edits != [] && FreshEdits(v, edits) && Live(before, edits[..|edits| - 1]) && before[0] == v
    requires l < NUM_LEVELS
    ensures |before| == |edits| && |before[|edits| - 1].levels| == NUM_LEVELS
    ensures BySmallest(fs)
    ensures FileSet(fs) == LevelAfter(FileSet(before[|edits| - 1].levels[l]), edits[|edits| - 1], l)
  {
    var n := |edits| - 1;
    LiveLevels(before, edits[..n], n, l);
    assert edits[..n][..n] == edits[..n];
    UniqueStep(FileSet(v.levels[l]), edits, l);
    fs := InOrderOf(LevelAfter(FileSet(before[n].levels[l]), edits[n], l));
  }

  // The edits behind a snapshot are fresh for the version it describes.
  lemma {:induction false} SnapshotTail(v: Version, edits: seq<Edit>, l: nat)
    requires |v.levels| == NUM_LEVELS && l < NUM_LEVELS && FreshAdds({}, [SnapshotEdit(v)] + edits, l)
    ensures FreshAdds(FileSet(v.levels[l]), edits, l)
    ensures AddedAfter([SnapshotEdit(v)] + edits, l) == FileSet(v.levels[l]) + AddedAfter(edits, l)
  {
    var all := [SnapshotEdit(v)] + edits;
    if edits == [] {
      assert all[..0] == [] && AddedAfter([], l) == {};
      SnapshotAdds(v, l);
    } else {
      var init, last := edits[..|edits| - 1], edits[|edits| - 1];
      assert all[..|all| - 1] == [SnapshotEdit(v)] + init && all[|all| - 1] == last;
      SnapshotTail(v, init, l);
      assert {} + AddedAfter(all[..|all| - 1], l) == FileSet(v.levels[l]) + AddedAfter(init, l);
    }
  }

  // VersionSet::Recover of a manifest that starts with a snapshot rebuilds the live version.
  method ReplaySnapshot(v: Version, edits: seq<Edit>, ghost vs: seq<Version>) returns (r: Version)
    requires Live(vs, edits) && vs[0] == v
    ensures r == vs[|edits|]
    ensures forall l :: 1 <= l < NUM_LEVELS && StartsAndStaysApart(vs, edits, l) ==> InOrder(r.levels[l])
  {
    SnapshotLive(vs, edits);
    r := ReplayLive(EMPTY_VERSION, [SnapshotEdit(v)] + edits, [EMPTY_VERSION] + vs);
    forall l | 1 <= l < NUM_LEVELS && StartsAndStaysApart(vs, edits, l) ensures InOrder(r.levels[l])
    {
      LiveInOrder(vs, edits, |edits|, l);
    }
  }
}
