// Running a compaction.

module CompactionWork {
  // The drop rules over the merged inputs, and the split into output files
  // (DBImpl::DoCompactionWork, Compaction::IsBaseLevelForKey, Compaction::ShouldStopBefore).

  import opened DbFormat
  import opened Versions
  import opened Compactions
  import opened Selection
  import opened Merging
  import opened OutputCuts

  function Flatten(fs: seq<File>): seq<Entry> {
    if fs == [] then [] else Flatten(fs[..|fs| - 1]) + fs[|fs| - 1].run
  }

  lemma {:induction false} FlattenMembers(fs: seq<File>)
    ensures Elements(Flatten(fs)) == EntriesOf(FileSet(fs))
  {
    if fs != [] {
      var init, last := fs[..|fs| - 1], fs[|fs| - 1];
      FlattenMembers(init);
      assert fs == init + [last];
      assert FileSet(fs) == FileSet(init) + {last};
      EntriesUnion(FileSet(init), {last});
      assert EntriesOf({last}) == Elements(last.run);
    }
  }

  // Concatenating a sorted level gives a sorted run.
  lemma {:induction false} FlattenSorted(fs: seq<File>)
    requires InOrder(fs)
    ensures Sorted(Flatten(fs))
  {
    if fs != [] {
      var init, last := fs[..|fs| - 1], fs[|fs| - 1];
      FlattenSorted(init);
      forall a, b | a in Flatten(init) && b in last.run ensures Less(a.Key(), b.Key()) {
        FlattenMembers(init);
        assert a in Elements(Flatten(init));
        var i := FromLevel(init, a);
        FileBounds(init[i], a);
        FileBounds(last, b);
        assert Less(fs[i].Largest(), last.Smallest());
      }
      SortedAppend(Flatten(init), last.run);
    }
  }

  lemma SortedAppend(a: seq<Entry>, b: seq<Entry>)
    requires Sorted(a) && Sorted(b)
    requires forall x, y :: x in a && y in b ==> Less(x.Key(), y.Key())
    ensures Sorted(a + b)
  {
    forall i, j | 0 <= i < j < |a + b| ensures Less((a + b)[i].Key(), (a + b)[j].Key()) {
      if i < |a| <= j {
        assert a[i] in a && b[j - |a|] in b;
      }
    }
  }

  // The entries of es that are kept.
  ghost function Kept(es: seq<Entry>, v: Version, c: Inputs, s: nat): seq<Entry> {
    if es == [] then
      []
    else
      var e := es[|es| - 1];
      Kept(es[..|es| - 1], v, c, s) + if Dropped(v, c, s, e) then [] else [e]
  }

  lemma {:induction false} KeptMembers(es: seq<Entry>, v: Version, c: Inputs, s: nat)
    ensures forall e :: e in Kept(es, v, c, s) <==> e in es && !Dropped(v, c, s, e)
  {
    if es != [] {
      KeptMembers(es[..|es| - 1], v, c, s);
      assert es == es[..|es| - 1] + [es[|es| - 1]];
    }
  }

  // In the merged order, an entry is hidden exactly when the entry just before it hides it.
  lemma HiddenByPrevious(es: seq<Entry>, s: nat, i: nat)
    requires Sorted(es) && OneWrite(Elements(es)) && i < |es|
    ensures Hidden(Elements(es), s, es[i]) <==> i > 0 && es[i - 1].user == es[i].user && es[i - 1].sn <= s
  {
    if i > 0 {
      assert Less(es[i - 1].Key(), es[i].Key());
      assert es[i - 1] in Elements(es) && es[i] in Elements(es);
    }
    forall o | o in Elements(es) && o.user == es[i].user && o.sn > es[i].sn
      ensures i > 0 && es[i - 1].user == es[i].user && es[i - 1].sn <= o.sn
    {
      var j :| 0 <= j < |es| && es[j] == o;
      SortedPair(es, i, j);
      assert j < i - 1 ==> Less(es[j].Key(), es[i - 1].Key());
    }
  }

  class Compaction {
    const version: Version
    const level: nat
    const grandparents: seq<File>
    const maxOverlap: nat
    const levelPtrs: array<nat>
    var grandparentIndex: nat
    var seenKey: bool
    var overlappedBytes: nat
    ghost var asked: Option<UserKey>
    ghost var since: InternalKey
    ghost var last: InternalKey

    // The cursors have passed only files wholly before the last key asked about.
    ghost predicate CursorsOk()
      reads this`asked, levelPtrs
    {
      Shape(version) && levelPtrs.Length == NUM_LEVELS
      && forall l :: level + 2 <= l < NUM_LEVELS ==> CursorOk(version.levels[l], levelPtrs[l], asked)
    }

    static ghost predicate CursorOk(fs: seq<File>, p: nat, asked: Option<UserKey>) {
      p <= |fs| && forall i :: 0 <= i < p ==> asked.Some? && fs[i].Largest().user < asked.value
    }

    ghost predicate Ok()
      reads this, levelPtrs
    {
      level + 1 < NUM_LEVELS && CursorsOk() && GrandparentsOk()
    }

    // The grandparents before the cursor are those that end before the last key, and since the key `since`
    // their bytes are counted.
    ghost predicate GrandparentsOk()
      reads this`grandparentIndex, this`seenKey, this`overlappedBytes, this`since, this`last
    {
      InOrder(grandparents) && grandparentIndex <= |grandparents|
      && if seenKey then
           (forall i :: 0 <= i < |grandparents| ==> (i < grandparentIndex <==> Less(grandparents[i].Largest(), last)))
           && overlappedBytes == Crossed(grandparents, since, last) && !Less(last, since)
         else
           grandparentIndex == 0 && overlappedBytes == 0
    }

    constructor (v: Version, lvl: nat, gps: seq<File>, maxFileSize: nat)
      requires Shape(v) && lvl + 1 < NUM_LEVELS && InOrder(gps)
      ensures Ok() && version == v && level == lvl && asked == None && fresh(levelPtrs) && !seenKey
      ensures grandparents == gps && maxOverlap == 10 * maxFileSize
    {
      version, level, grandparents, maxOverlap := v, lvl, gps, 10 * maxFileSize;
      levelPtrs := new nat[NUM_LEVELS](i => 0);
      grandparentIndex, seenKey, overlappedBytes := 0, false, 0;
      asked := None;
    }

    // For keys asked in nondecreasing order, the forward-only cursors answer the full question:
    // does any file below the output level cover the key?
    method IsBaseLevelForKey(k: UserKey) returns (r: bool)
      requires Ok() && (asked.Some? ==> asked.value <= k)
      modifies levelPtrs, this`asked
      ensures Ok() && asked == Some(k)
      ensures r <==> BaseLevel(version, level, k)
    {
      ghost var before := asked;
      asked := Some(k);
      for lvl := level + 2 to NUM_LEVELS
        invariant Ok() && asked == Some(k)
        invariant forall l, f :: level + 2 <= l < lvl && f in version.levels[l] ==> !Covers(f, k)
      {
        var files := version.levels[lvl];
        while levelPtrs[lvl] < |files|
          invariant Ok() && asked == Some(k)
          decreases |files| - levelPtrs[lvl]
        {
          var f := files[levelPtrs[lvl]];
          if k <= f.Largest().user {
            if k >= f.Smallest().user {
              assert f in version.levels[lvl] && Covers(f, k);
              return false;
            }
            break;
          }
          levelPtrs[lvl] := levelPtrs[lvl] + 1;
        }
        NoneCovers(files, levelPtrs[lvl], k);
      }
      return true;
    }

    // Stops the current output when the keys since the last stop span too many grandparent bytes.
    method ShouldStopBefore(key: InternalKey) returns (stop: bool)
      requires Ok() && (seenKey ==> Less(last, key))
      modifies this`grandparentIndex, this`seenKey, this`overlappedBytes, this`since, this`last
      ensures Ok() && seenKey && last == key
      ensures stop <==> old(seenKey) && Crossed(grandparents, old(since), key) > maxOverlap
      ensures since == if old(seenKey) && !stop then old(since) else key
    {
      hide Crossed, InOrder;
      ghost var from := if seenKey then since else key;
      ghost var n := grandparentIndex;
      CountedSoFar(key, from);
      while grandparentIndex < |grandparents| && Less(grandparents[grandparentIndex].Largest(), key)
        invariant n <= grandparentIndex <= |grandparents| && seenKey == old(seenKey)
        invariant forall i :: 0 <= i < grandparentIndex ==> Less(grandparents[i].Largest(), key)
        invariant seenKey ==> forall i :: n <= i < |grandparents| ==> !Less(grandparents[i].Largest(), since)
        invariant overlappedBytes == if seenKey then Crossed(grandparents[..grandparentIndex], from, key) else 0
      {
        if seenKey {
          CrossedNext(grandparents, from, key, grandparentIndex);
          overlappedBytes := overlappedBytes + grandparents[grandparentIndex].size;
        }
        grandparentIndex := grandparentIndex + 1;
      }
      forall i | grandparentIndex <= i < |grandparents| ensures !Less(grandparents[i].Largest(), key) {
        if i > grandparentIndex { OrderedEnds(grandparents, grandparentIndex, i); }
      }
      CrossedCursor(grandparents, from, key, grandparentIndex);
      CrossedNone(grandparents, key, key);
      seenKey := true;
      since, last := from, key;
      if overlappedBytes > maxOverlap {
        overlappedBytes := 0;
        since := key;
        stop := true;
      } else {
        stop := false;
      }
    }

    lemma CountedSoFar(key: InternalKey, from: InternalKey)
      requires GrandparentsOk() && (seenKey ==> Less(last, key) && from == since)
      ensures forall i :: 0 <= i < grandparentIndex ==> Less(grandparents[i].Largest(), key)
      ensures seenKey ==> overlappedBytes == Crossed(grandparents[..grandparentIndex], from, key)
      ensures seenKey ==> forall i :: grandparentIndex <= i < |grandparents| ==> !Less(grandparents[i].Largest(), since)
    {
      if seenKey {
        CrossedCursor(grandparents, since, last, grandparentIndex);
        CrossedBefore(grandparents[..grandparentIndex], since, last, key);
      }
    }
  }

  lemma NoneCovers(fs: seq<File>, p: nat, k: UserKey)
    requires InOrder(fs) && p <= |fs|
    requires forall i :: 0 <= i < p ==> fs[i].Largest().user < k
    requires p < |fs| ==> k < fs[p].Smallest().user
    ensures forall f :: f in fs ==> !Covers(f, k)
  {
    forall f | f in fs ensures !Covers(f, k) {
      var i :| 0 <= i < |fs| && fs[i] == f;
      if i > p {
        OrderedUsers(fs, p, i);
      }
    }
  }

  // ---- The merged input ----

  // The runs MakeInputIterator merges: each level-0 file by itself, a deeper level as one run.
  function InputRuns(level: nat, in0: seq<File>, in1: seq<File>): seq<seq<Entry>> {
    (if level == 0 then seq(|in0|, i requires 0 <= i < |in0| => in0[i].run) else [Flatten(in0)]) + [Flatten(in1)]
  }

  ghost predicate RunsFrom(runs: seq<seq<Entry>>, E: set<Entry>) {
    forall e :: e in E <==> FromRuns(runs, e)
  }

  // Entries at different places of a version have different internal keys.
  lemma NewerApart(a: seq<Entry>, b: seq<Entry>)
    requires Newer(Elements(a), Elements(b)) || Newer(Elements(b), Elements(a))
    ensures KeysApart(a, b)
  {
    forall i, j | 0 <= i < |a| && 0 <= j < |b| ensures a[i].Key() != b[j].Key() {
      assert a[i] in Elements(a) && b[j] in Elements(b);
    }
  }

  lemma InputRunsOk(v: Version, level: nat, in0: seq<File>, in1: seq<File>)
    requires Valid(v) && level + 1 < NUM_LEVELS
    requires FileSet(in0) <= FileSet(v.levels[level]) && FileSet(in1) <= FileSet(v.levels[level + 1])
    requires InOrder(in1) && (if level == 0 then BySmallest(in0) else InOrder(in0))
    ensures RunsOk(InputRuns(level, in0, in1))
    ensures RunsFrom(InputRuns(level, in0, in1), EntriesOf(FileSet(in0)) + EntriesOf(FileSet(in1)))
  {
    var runs := InputRuns(level, in0, in1);
    FlattenSorted(in1);
    FlattenMembers(in1);
    FlattenMembers(in0);
    if level > 0 { FlattenSorted(in0); }
    assert runs[|runs| - 1] == Flatten(in1);
    forall i, j | 0 <= i < j < |runs| ensures KeysApart(runs[i], runs[j]) {
      InputRunsApart(v, level, in0, in1, i, j);
    }
    hide Valid;
    forall e ensures e in EntriesOf(FileSet(in0)) + EntriesOf(FileSet(in1)) <==> FromRuns(runs, e) {
      if e in EntriesOf(FileSet(in0)) {
        var i := FromLevel(in0, e);
        assert if level == 0 then e in runs[i] else e in runs[0];
      }
      if e in EntriesOf(FileSet(in1)) {
        assert e in runs[|runs| - 1];
      }
      if FromRuns(runs, e) {
        var i :| 0 <= i < |runs| && e in runs[i];
        if i < |runs| - 1 && level == 0 {
          InLevel(in0, i, e);
        }
      }
    }
  }

  lemma DeeperOlder(v: Version, level: nat)
    requires Valid(v) && level + 1 < NUM_LEVELS
    ensures |v.levels| == NUM_LEVELS && Newer(LevelEntries(v, level), LevelEntries(v, level + 1))
  {
  }

  lemma NewerSubsets(A: set<Entry>, B: set<Entry>, a: set<Entry>, b: set<Entry>)
    requires Newer(A, B) && a <= A && b <= B
    ensures Newer(a, b)
  {
  }

  lemma InputRunsApart(v: Version, level: nat, in0: seq<File>, in1: seq<File>, i: nat, j: nat)
    requires Valid(v) && level + 1 < NUM_LEVELS
    requires FileSet(in0) <= FileSet(v.levels[level]) && FileSet(in1) <= FileSet(v.levels[level + 1])
    requires InOrder(in1) && (if level == 0 then BySmallest(in0) else InOrder(in0))
    requires i < j < |InputRuns(level, in0, in1)|
    ensures KeysApart(InputRuns(level, in0, in1)[i], InputRuns(level, in0, in1)[j])
  {
    hide Valid, BySmallest, InOrder, Newer, KeysApart;
    var runs := InputRuns(level, in0, in1);
    DeeperOlder(v, level);
    if j == |runs| - 1 {
      FlattenMembers(in1);
      FlattenMembers(in0);
      assert EntriesOf(FileSet(in1)) <= LevelEntries(v, level + 1);
      assert Elements(runs[i]) <= LevelEntries(v, level) by {
        if level == 0 { RunInLevel(v, in0, i); }
      }
      NewerSubsets(LevelEntries(v, level), LevelEntries(v, level + 1), Elements(runs[i]), Elements(runs[j]));
      NewerApart(runs[i], runs[j]);
    } else {
      Level0Apart(v, in0, i, j);
    }
  }

  lemma RunInLevel(v: Version, in0: seq<File>, i: nat)
    requires |v.levels| > 0 && FileSet(in0) <= FileSet(v.levels[0]) && i < |in0|
    ensures Elements(in0[i].run) <= LevelEntries(v, 0)
  {
    assert in0[i] in FileSet(in0);
  }

  lemma Level0Apart(v: Version, in0: seq<File>, i: nat, j: nat)
    requires Valid(v) && FileSet(in0) <= FileSet(v.levels[0]) && BySmallest(in0) && i < j < |in0|
    ensures KeysApart(in0[i].run, in0[j].run)
  {
    var f, g := in0[i], in0[j];
    assert FileLess(f, g);
    assert f in FileSet(in0) && g in FileSet(in0);
    assert f in v.levels[0] && g in v.levels[0];
    NewerApart(f.run, g.run);
  }

  // ---- The compaction loop ----

  lemma {:induction false} KeptSorted(es: seq<Entry>, v: Version, c: Inputs, s: nat)
    requires Sorted(es)
    ensures Sorted(Kept(es, v, c, s))
  {
    if es != [] {
      var init, e := es[..|es| - 1], es[|es| - 1];
      KeptSorted(init, v, c, s);
      KeptMembers(init, v, c, s);
      forall x, y | x in Kept(init, v, c, s) && y in [e] ensures Less(x.Key(), y.Key()) {
        assert x in init;
        var i :| 0 <= i < |init| && init[i] == x;
        SortedPair(es, i, |es| - 1);
      }
      SortedAppend(Kept(init, v, c, s), [e]);
    }
  }

  lemma SortedParts(a: seq<Entry>, b: seq<Entry>)
    requires Sorted(a + b)
    ensures Sorted(a) && Sorted(b)
    ensures forall i, j :: 0 <= i < |a| && 0 <= j < |b| ==> Less(a[i].Key(), b[j].Key())
  {
    forall i, j | 0 <= i < j < |a| ensures Less(a[i].Key(), a[j].Key()) {
      SortedPair(a + b, i, j);
    }
    forall i, j | 0 <= i < j < |b| ensures Less(b[i].Key(), b[j].Key()) {
      SortedPair(a + b, |a| + i, |a| + j);
    }
    forall i, j | 0 <= i < |a| && 0 <= j < |b| ensures Less(a[i].Key(), b[j].Key()) {
      SortedPair(a + b, i, |a| + j);
    }
  }

  // Cutting a sorted run into files gives files in order.
  lemma {:induction false} CutInOrder(fs: seq<File>)
    requires Sorted(Flatten(fs))
    ensures InOrder(fs)
  {
    if fs != [] {
      var init, last := fs[..|fs| - 1], fs[|fs| - 1];
      SortedParts(Flatten(init), last.run);
      CutInOrder(init);
      forall i | 0 <= i < |init| ensures Less(init[i].Largest(), last.Smallest()) {
        var e := init[i].run[|init[i].run| - 1];
        assert e in init[i].run;
        InLevel(init, i, e);
        FlattenMembers(init);
        assert e in Elements(Flatten(init));
        var j :| 0 <= j < |Flatten(init)| && Flatten(init)[j] == e;
      }
    }
  }

  ghost predicate Numbered(fs: seq<File>, first: nat) {
    forall i :: 0 <= i < |fs| ==> fs[i].number == first + i
  }

  // current_user_key and last_sequence_for_key after the first n merged entries.
  ghost predicate Tracks(es: seq<Entry>, n: int, current: Option<UserKey>, last: nat) {
    0 <= n <= |es|
    && if n == 0 then current == None else current == Some(es[n - 1].user) && last == es[n - 1].sn
  }

  // The drop decision for the merged entry at n, and the tracking of its key.
  method Judge(comp: Compaction, e: Entry, current0: Option<UserKey>, last0: nat, s: nat,
               ghost es: seq<Entry>, ghost n: nat, ghost c: Inputs)
    returns (current: Option<UserKey>, last: nat, drop: bool)
    requires comp.Ok() && c.level == comp.level && s < MAX_SEQUENCE
    requires Sorted(es) && OneWrite(Elements(es)) && Elements(es) == InputEntries(c)
    requires n < |es| && e == es[n] && Tracks(es, n, current0, last0)
    requires Asked(comp.asked, es, n)
    modifies comp`asked, comp.levelPtrs
    ensures comp.Ok() && Asked(comp.asked, es, n + 1) && Tracks(es, n + 1, current, last)
    ensures drop <==> Dropped(comp.version, c, s, e)
  {
    HiddenByPrevious(es, s, n);
    if n > 0 { SortedPair(es, n - 1, n); }
    current, last := current0, last0;
    if current != Some(e.user) {
      // First occurrence of this user key.
      current, last := Some(e.user), MAX_SEQUENCE;
    }
    drop := false;
    if last <= s {
      drop := true;
    } else if e.kind.Deletion? && e.sn <= s {
      drop := comp.IsBaseLevelForKey(e.user);
    }
    last := e.sn;
  }

  // Base-level questions so far were about keys already passed.
  ghost predicate Asked(asked: Option<UserKey>, es: seq<Entry>, n: int) {
    0 <= n <= |es| && (asked.Some? ==> n > 0 && asked.value <= es[n - 1].user)
  }

  // Finished outputs and the open builder hold what the first n merged entries keep.
  ghost predicate Written(outs: seq<File>, builder: seq<Entry>, first: nat,
                          es: seq<Entry>, n: int, v: Version, c: Inputs, s: nat) {
    0 <= n <= |es| && Flatten(outs) + builder == Kept(es[..n], v, c, s) && Numbered(outs, first)
  }

  lemma WriteStep(outs: seq<File>, builder: seq<Entry>, first: nat, es: seq<Entry>, n: int, v: Version, c: Inputs,
                  s: nat)
    requires Written(outs, builder, first, es, n, v, c, s) && n < |es|
    ensures Dropped(v, c, s, es[n]) ==> Written(outs, builder, first, es, n + 1, v, c, s)
    ensures !Dropped(v, c, s, es[n]) ==> Written(outs, builder + [es[n]], first, es, n + 1, v, c, s)
  {
    assert es[..n + 1][..n] == es[..n];
    assert Flatten(outs) + (builder + [es[n]]) == (Flatten(outs) + builder) + [es[n]];
  }

  // FinishCompactionOutputFile: the builder's entries become the next output file.
  method Finish(outs: seq<File>, builder: seq<Entry>, first: nat, sizeOf: seq<Entry> -> nat,
                ghost es: seq<Entry>, ghost n: int, ghost v: Version, ghost c: Inputs, ghost s: nat)
    returns (r: seq<File>)
    requires Sorted(es) && Written(outs, builder, first, es, n, v, c, s)
    ensures Written(r, [], first, es, n, v, c, s)
    ensures if builder == [] then r == outs else r == outs + [FileMeta(first + |outs|, sizeOf(builder), builder)]
  {
    if builder == [] {
      return outs;
    }
    forall i, j | 0 <= i < j < n ensures Less(es[..n][i].Key(), es[..n][j].Key()) {
      SortedPair(es, i, j);
    }
    KeptSorted(es[..n], v, c, s);
    SortedParts(Flatten(outs), builder);
    var f: File := FileMeta(first + |outs|, sizeOf(builder), builder);
    r := outs + [f];
    assert r[..|r| - 1] == outs;
    assert Flatten(r) + [] == Flatten(r);
  }

  // The cuts so far are right, and the file being built has not spanned too much up to the key `at`.
  ghost predicate Ready(comp: Compaction, full: seq<Entry> -> bool, outs: seq<File>, builder: seq<Entry>,
                        at: InternalKey)
    reads comp`since
  {
    CutSoFar(comp.grandparents, comp.maxOverlap, full, outs, builder, at)
    && Crossed(comp.grandparents, comp.since, at) <= comp.maxOverlap
    && (builder != [] ==> !Less(builder[0].Key(), comp.since))
  }

  ghost predicate CutUpTo(comp: Compaction, full: seq<Entry> -> bool, outs: seq<File>, builder: seq<Entry>,
                          es: seq<Entry>, n: int)
    reads comp
  {
    0 <= n <= |es|
    && if n == 0 then
         outs == [] && builder == [] && !comp.seenKey
       else
         comp.seenKey && comp.last == es[n - 1].Key() && Ready(comp, full, outs, builder, comp.last)
  }

  // Files have the sizes of their runs.
  ghost predicate Sized(outs: seq<File>, sizeOf: seq<Entry> -> nat) {
    forall f :: f in outs ==> f.size == sizeOf(f.run)
  }

  // ShouldStopBefore, and the output finished if so.
  method StopBefore(comp: Compaction, e: Entry, outs0: seq<File>, builder0: seq<Entry>, s: nat, first: nat,
                    full: seq<Entry> -> bool, sizeOf: seq<Entry> -> nat,
                    ghost es: seq<Entry>, ghost n: nat, ghost c: Inputs)
    returns (outs: seq<File>, builder: seq<Entry>)
    requires comp.Ok() && Sorted(es) && n < |es| && e == es[n] && CutUpTo(comp, full, outs0, builder0, es, n)
    requires Written(outs0, builder0, first, es, n, comp.version, c, s) && Sized(outs0, sizeOf)
    modifies comp`grandparentIndex, comp`seenKey, comp`overlappedBytes, comp`since, comp`last
    ensures comp.Ok() && comp.seenKey && comp.last == e.Key() && Ready(comp, full, outs, builder, e.Key())
    ensures Written(outs, builder, first, es, n, comp.version, c, s) && Sized(outs, sizeOf)
  {
    outs, builder := outs0, builder0;
    if n > 0 { SortedPair(es, n - 1, n); }
    ghost var before, since := comp.last, comp.since;
    ghost var fs, limit := comp.grandparents, comp.maxOverlap;
    var stop := comp.ShouldStopBefore(e.Key());
    if stop {
      outs := Finish(outs, builder, first, sizeOf, es, n, comp.version, c, s);
      if builder != [] {
        Closes(fs, limit, full, outs0, builder, outs[|outs| - 1]);
        assert Less(builder[|builder| - 1].Key(), e.Key());
        assert EndsBefore(fs, limit, full, builder, e.Key());
      } else if n > 0 {
        Passes(fs, limit, full, outs, builder, before, e.Key());
      }
      builder := [];
      CrossedNone(fs, e.Key(), e.Key());
    } else if n > 0 {
      Passes(fs, limit, full, outs, builder, before, e.Key());
    } else {
      CrossedNone(fs, e.Key(), e.Key());
    }
  }

  // One turn of the loop: maybe close the output, judge the entry, maybe write it.
  method CompactEntry(comp: Compaction, e: Entry, outs0: seq<File>, builder0: seq<Entry>,
                      current0: Option<UserKey>, last0: nat, s: nat, first: nat,
                      full: seq<Entry> -> bool, sizeOf: seq<Entry> -> nat,
                      ghost es: seq<Entry>, ghost n: nat, ghost c: Inputs)
    returns (outs: seq<File>, builder: seq<Entry>, current: Option<UserKey>, last: nat)
    requires comp.Ok() && c.level == comp.level && s < MAX_SEQUENCE
    requires Sorted(es) && OneWrite(Elements(es)) && Elements(es) == InputEntries(c)
    requires n < |es| && e == es[n] && Tracks(es, n, current0, last0) && Asked(comp.asked, es, n)
    requires Written(outs0, builder0, first, es, n, comp.version, c, s) && Sized(outs0, sizeOf)
    requires CutUpTo(comp, full, outs0, builder0, es, n)
    modifies comp, comp.levelPtrs
    ensures comp.Ok() && Asked(comp.asked, es, n + 1) && Tracks(es, n + 1, current, last)
    ensures Written(outs, builder, first, es, n + 1, comp.version, c, s) && Sized(outs, sizeOf)
    ensures CutUpTo(comp, full, outs, builder, es, n + 1)
  {
    hide Sorted, OneWrite, CutSoFar, Crossed, Written, Dropped, Tracks, Asked;
    ghost var v := comp.version;
    outs, builder := StopBefore(comp, e, outs0, builder0, s, first, full, sizeOf, es, n, c);
    var drop;
    current, last, drop := Judge(comp, e, current0, last0, s, es, n, c);
    WriteStep(outs, builder, first, es, n, v, c, s);
    if !drop {
      Grown(comp.grandparents, comp.maxOverlap, full, outs, builder, e, comp.since);
      ghost var outs1 := outs;
      builder := builder + [e];
      assert e.Key() == comp.last;
      if full(builder) {
        outs := Finish(outs, builder, first, sizeOf, es, n + 1, v, c, s);
        CloseFull(comp.grandparents, comp.maxOverlap, full, outs1, builder, outs[|outs| - 1], e.Key());
        builder := [];
      }
    }
  }

  lemma CloseFull(fs: seq<File>, limit: nat, full: seq<Entry> -> bool, outs: seq<File>, builder: seq<Entry>, f: File,
                  at: InternalKey)
    requires builder != [] && f.run == builder && Fits(fs, limit, full, builder) && full(builder)
    requires WellCut(fs, limit, full, outs)
    requires outs == [] || EndsBefore(fs, limit, full, outs[|outs| - 1].run, builder[0].Key())
    ensures CutSoFar(fs, limit, full, outs + [f], [], at)
  {
    Closes(fs, limit, full, outs, builder, f);
  }

  // Writes to freshly numbered files, in order, exactly the entries some permitted read sees, less the spent
  // deletions: no overwritten entry and no deletion of nothing.  The files are cut as large as they may be.
  method DoCompactionWork(comp: Compaction, input: MergingIterator, s: nat, first: nat,
                          full: seq<Entry> -> bool, sizeOf: seq<Entry> -> nat, ghost c: Inputs)
    returns (outs: seq<File>)
    requires comp.Ok() && comp.asked == None && !comp.seenKey && input.Ok() && c.level == comp.level && s < MAX_SEQUENCE
    requires Elements(input.Union()) == InputEntries(c) && OneWrite(InputEntries(c)) && Sorted(input.Union())
    modifies comp, comp.levelPtrs, input
    ensures Flatten(outs) == Kept(input.Union(), comp.version, c, s)
    ensures forall e :: e in Flatten(outs) <==>
      e in input.Union() && Seen(Elements(input.Union()), s, e) && !Spent(comp.version, comp.level, s, e)
    ensures forall e, o :: e in Flatten(outs) && o in input.Union() && o.user == e.user ==> !(e.sn < o.sn <= s)
    ensures InOrder(outs) && Numbered(outs, first) && Sized(outs, sizeOf)
    ensures WellCut(comp.grandparents, comp.maxOverlap, full, outs)
  {
    hide Sorted, OneWrite, InOrder, WellCut, Written, Tracks, Asked, CutUpTo, Seen, Spent, Kept, Sized, Numbered;
    ghost var es := input.Union();
    NothingYet(comp, full, es, first, comp.version, c, s);
    outs := [];
    var builder: seq<Entry> := [];
    var current: Option<UserKey>, last := None, MAX_SEQUENCE;
    input.SeekToFirst();
    while input.Valid()
      invariant comp.Ok() && input.Ok() && Tracks(es, input.at, current, last) && Asked(comp.asked, es, input.at)
      invariant Written(outs, builder, first, es, input.at, comp.version, c, s) && Sized(outs, sizeOf)
      invariant CutUpTo(comp, full, outs, builder, es, input.at)
      decreases |es| - input.at
    {
      var e := input.Current();
      outs, builder, current, last :=
        CompactEntry(comp, e, outs, builder, current, last, s, first, full, sizeOf, es, input.at, c);
      input.Next();
    }
    ghost var outs1 := outs;
    outs := Finish(outs, builder, first, sizeOf, es, |es|, comp.version, c, s);
    SizedMore(outs1, builder, first, sizeOf);
    AllCut(comp, full, outs1, builder, es, outs);
    AllWritten(outs, first, es, comp.version, c, s);
  }

  lemma NothingYet(comp: Compaction, full: seq<Entry> -> bool, es: seq<Entry>, first: nat, v: Version, c: Inputs,
                   s: nat)
    requires comp.asked == None && !comp.seenKey
    ensures Tracks(es, 0, None, MAX_SEQUENCE) && Asked(comp.asked, es, 0) && Written([], [], first, es, 0, v, c, s)
    ensures CutUpTo(comp, full, [], [], es, 0) && forall sizeOf: seq<Entry> -> nat :: Sized([], sizeOf)
  {
    assert es[..0] == [];
  }

  lemma SizedMore(outs: seq<File>, builder: seq<Entry>, first: nat, sizeOf: seq<Entry> -> nat)
    requires Sized(outs, sizeOf)
    ensures builder != [] && Sorted(builder) ==>
      Sized(outs + [FileMeta(first + |outs|, sizeOf(builder), builder)], sizeOf)
  {
  }

  lemma AllCut(comp: Compaction, full: seq<Entry> -> bool, outs: seq<File>, builder: seq<Entry>, es: seq<Entry>,
               all: seq<File>)
    requires CutUpTo(comp, full, outs, builder, es, |es|)
    requires builder == [] ==> all == outs
    requires builder != [] ==> |all| == |outs| + 1 && all[..|outs|] == outs && all[|outs|].run == builder
    ensures WellCut(comp.grandparents, comp.maxOverlap, full, all)
  {
    if builder != [] {
      assert all == outs + [all[|outs|]];
      Closes(comp.grandparents, comp.maxOverlap, full, outs, builder, all[|outs|]);
    }
  }

  lemma AllWritten(outs: seq<File>, first: nat, es: seq<Entry>, v: Version, c: Inputs, s: nat)
    requires Sorted(es) && Written(outs, [], first, es, |es|, v, c, s) && Elements(es) == InputEntries(c)
    ensures Flatten(outs) == Kept(es, v, c, s) && InOrder(outs)
    ensures forall e :: e in Flatten(outs) <==> e in es && Seen(Elements(es), s, e) && !Spent(v, c.level, s, e)
    ensures forall e, o :: e in Flatten(outs) && o in es && o.user == e.user ==> !(e.sn < o.sn <= s)
  {
    assert es[..|es|] == es && Flatten(outs) + [] == Flatten(outs);
    KeptSorted(es, v, c, s);
    CutInOrder(outs);
    KeptSeen(es, v, c, s);
  }

  lemma KeptSeen(es: seq<Entry>, v: Version, c: Inputs, s: nat)
    requires Elements(es) == InputEntries(c)
    ensures forall e :: e in Kept(es, v, c, s) <==> e in es && Seen(Elements(es), s, e) && !Spent(v, c.level, s, e)
    ensures forall e, o :: e in Kept(es, v, c, s) && o in es && o.user == e.user ==> !(e.sn < o.sn <= s)
  {
    KeptMembers(es, v, c, s);
    forall e ensures e in Kept(es, v, c, s) <==> e in es && Seen(Elements(es), s, e) && !Spent(v, c.level, s, e) {
      if e in es {
        assert e in Elements(es);
        DroppedIff(v, c, s, e);
      }
    }
    forall e, o | e in Kept(es, v, c, s) && o in es && o.user == e.user ensures !(e.sn < o.sn <= s) {
      assert Seen(Elements(es), s, e) && o in Elements(es);
    }
  }
}
