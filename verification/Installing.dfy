// Changes as version edits.

module Installing {
  // Flushes, compactions and moves as version edits logged in the manifest
  // (DBImpl::WriteLevel0Table, BackgroundCompaction, InstallCompactionResults, VersionSet::LogAndApply).

  import opened DbFormat
  import opened Versions
  import opened Compactions
  import opened Selection
  import opened Merging
  import opened CompactionWork
  import opened OutputCuts
  import opened VersionBuilder
  import opened Lsm

  // ---- The memtable ----

  // MemTable::Add: insert in internal-key order.
  method MemAdd(es: seq<Entry>, e: Entry) returns (r: seq<Entry>)
    requires Sorted(es) && forall o :: o in es ==> o.Key() != e.Key()
    ensures Sorted(r) && Elements(r) == Elements(es) + {e}
  {
    var p := 0;
    while p < |es| && Less(es[p].Key(), e.Key())
      invariant 0 <= p <= |es|
      invariant forall j :: 0 <= j < p ==> Less(es[j].Key(), e.Key())
    {
      p := p + 1;
    }
    forall j | p <= j < |es| ensures Less(e.Key(), es[j].Key()) {
      SortedPair(es, p, j);
      assert es[p] in es;
    }
    r := es[..p] + [e] + es[p..];
    PutIn(es, p, e);
  }

  lemma PutIn(es: seq<Entry>, p: nat, e: Entry)
    requires Sorted(es) && p <= |es|
    requires forall j :: 0 <= j < p ==> Less(es[j].Key(), e.Key())
    requires forall j :: p <= j < |es| ==> Less(e.Key(), es[j].Key())
    ensures Sorted(es[..p] + [e] + es[p..]) && Elements(es[..p] + [e] + es[p..]) == Elements(es) + {e}
  {
    hide Less;
    var a, b := es[..p], es[p..];
    assert es == a + b;
    SortedParts(a, b);
    SortedAppend(a, [e]);
    forall x, y | x in a + [e] && y in b ensures Less(x.Key(), y.Key()) {
      var j :| 0 <= j < |b| && b[j] == y;
      if x in a {
        var i :| 0 <= i < |a| && a[i] == x;
      }
    }
    SortedAppend(a + [e], b);
  }

  datatype WriteOp = WriteOp(key: UserKey, value: Option<Value>)

  // The entry for an operation given sequence number sn.
  function Stamp(op: WriteOp, sn: SequenceNumber): Entry {
    if op.value.Some? then Entry(op.key, sn, Put, op.value.value) else Entry(op.key, sn, Deletion, [])
  }

  ghost function Stamped(ops: seq<WriteOp>, last: SequenceNumber, n: nat): set<Entry>
    requires n <= |ops| && last + n <= MAX_SEQUENCE
  {
    set i | 0 <= i < n :: Stamp(ops[i], last + 1 + i)
  }

  lemma StampedNumbers(ops: seq<WriteOp>, last: SequenceNumber, n: nat)
    requires n <= |ops| && last + n <= MAX_SEQUENCE
    ensures Numbers(Stamped(ops, last, n), last, last + n)
  {
  }

  // What a key holds after the operations, in order, if it held `before`: the value of the last one on it.
  function Outcome(ops: seq<WriteOp>, k: UserKey, before: Option<Value>): Option<Value> {
    if ops == [] then
      before
    else
      var last := ops[|ops| - 1];
      if last.key == k then last.value else Outcome(ops[..|ops| - 1], k, before)
  }

  // An entry newer than all others decides reads of its key and no others.
  lemma ReadNewer(E: set<Entry>, e: Entry, s: nat, k: UserKey)
    requires OneWrite(E) && e.sn == s + 1 && forall o :: o in E ==> o.sn <= s
    ensures OneWrite(E + {e})
    ensures Read(E + {e}, k, s + 1) == if e.user == k then ValueOf(Some(e)) else Read(E, k, s)
  {
    if e.user == k {
      assert IsNewest(E + {e}, k, s + 1, e);
      NewestIs(E + {e}, k, s + 1, e);
    } else {
      ReadAgrees(E + {e}, E, k, s + 1);
      ReadAbove(E, k, s, s + 1);
    }
  }

  // All numbers from the last write on give the same read.
  lemma ReadAbove(E: set<Entry>, k: UserKey, s: nat, t: nat)
    requires OneWrite(E) && s <= t && forall o :: o in E ==> o.sn <= s
    ensures Newest(E, k, t) == Newest(E, k, s)
  {
    NewestNone(E, k, s);
    NewestNone(E, k, t);
    if Newest(E, k, s).Some? {
      var e := Newest(E, k, s).value;
      assert IsNewest(E, k, t, e);
      NewestIs(E, k, t, e);
    }
  }

  // Reading after the first n operations of a batch: what the last of them on the key left, deleted keys gone.
  lemma {:induction false} ReadStamped(E: set<Entry>, ops: seq<WriteOp>, last: SequenceNumber, n: nat, k: UserKey)
    requires OneWrite(E) && (forall e :: e in E ==> e.sn <= last)
    requires n <= |ops| && last + |ops| <= MAX_SEQUENCE
    ensures OneWrite(E + Stamped(ops, last, n))
    ensures Read(E + Stamped(ops, last, n), k, last + n) == Outcome(ops[..n], k, Read(E, k, last))
  {
    hide Outcome, OneWrite, Read, Stamped;
    OutcomeStep(ops[..n], k, Read(E, k, last));
    if n == 0 {
      NothingStamped(E, ops, last);
    } else {
      var e, F := Stamp(ops[n - 1], last + n), E + Stamped(ops, last, n - 1);
      ReadStamped(E, ops, last, n - 1, k);
      OneMoreStamped(ops, last, n - 1);
      assert E + Stamped(ops, last, n) == F + {e};
      StampedNumbers(ops, last, n - 1);
      ReadNewer(F, e, last + n - 1, k);
      assert ops[..n][..n - 1] == ops[..n - 1];
    }
  }

  lemma NothingStamped(E: set<Entry>, ops: seq<WriteOp>, last: SequenceNumber)
    ensures E + Stamped(ops, last, 0) == E
  {
  }

  lemma OneMoreStamped(ops: seq<WriteOp>, last: SequenceNumber, n: nat)
    requires n < |ops| && last + |ops| <= MAX_SEQUENCE
    ensures Stamped(ops, last, n + 1) == Stamped(ops, last, n) + {Stamp(ops[n], last + n + 1)}
  {
  }

  lemma OutcomeStep(ops: seq<WriteOp>, k: UserKey, before: Option<Value>)
    ensures Outcome(ops, k, before) ==
      if ops == [] then before
      else if ops[|ops| - 1].key == k then ops[|ops| - 1].value
      else Outcome(ops[..|ops| - 1], k, before)
  {
  }

  lemma StampedBelow(ops: seq<WriteOp>, last: SequenceNumber, n: nat)
    requires n <= |ops| && last + |ops| <= MAX_SEQUENCE
    ensures forall e: Entry :: e.sn <= last + n ==> (e in Stamped(ops, last, |ops|) <==> e in Stamped(ops, last, n))
  {
  }

  // ---- LogAndApply ----

  // The edit's additions collide with nothing at their level.
  ghost predicate Compatible(v: Version, e: Edit) {
    |v.levels| == NUM_LEVELS && EditOk(e)
    && (forall l :: 0 <= l < NUM_LEVELS ==> BySmallest(v.levels[l]))
    && forall l :: 0 <= l < NUM_LEVELS ==>
         UniqueNumbers(FileSet(v.levels[l]) + AddedAt(e, l)) && FileSet(v.levels[l]) !! AddedAt(e, l)
  }

  lemma OneEdit(fs: set<File>, e: Edit, l: nat)
    ensures AddedAfter([e], l) == AddedAt(e, l)
    ensures UniqueNumbers(fs + AddedAt(e, l)) && fs !! AddedAt(e, l) ==> BuiltLevel(fs, [e], l) == LevelAfter(fs, e, l)
  {
    assert [e][..0] == [];
    if UniqueNumbers(fs + AddedAt(e, l)) && fs !! AddedAt(e, l) {
      var A := AddedAt(e, l);
      assert forall f :: f in fs ==> f in fs + A;
      assert forall f :: f in A ==> f in fs + A;
      assert FreshAdds(fs, [], l) && FreshFor(fs + {}, A);
      assert fs + {} == fs;
      assert FreshAdds(fs, [e], l);
      ReplayStepwise(fs, [e], l);
    }
  }

  method LogAndApply(v: Version, e: Edit) returns (v': Version)
    requires Compatible(v, e)
    ensures Applied(v, e, v')
  {
    var b := new Builder(v);
    forall l | 0 <= l < NUM_LEVELS
      ensures FreshFor(AddedAfter([], l), AddedAt(e, l)) && AddedAfter([e], l) == AddedAt(e, l)
    {
      OneEdit(FileSet(v.levels[l]), e, l);
    }
    b.Apply(e);
    assert b.edits == [e];
    v' := b.SaveTo();
    forall l | 0 <= l < NUM_LEVELS
      ensures BuiltLevel(FileSet(v.levels[l]), [e], l) == LevelAfter(FileSet(v.levels[l]), e, l)
    {
      OneEdit(FileSet(v.levels[l]), e, l);
    }
  }

  lemma ShapeSorted(v: Version)
    requires Shape(v)
    ensures forall l :: 0 <= l < NUM_LEVELS ==> BySmallest(v.levels[l])
  {
    forall l | 0 <= l < NUM_LEVELS ensures BySmallest(v.levels[l]) {
      if l > 0 { InOrderSorted(v.levels[l]); }
    }
  }

  // ---- Edits and the steps they make ----

  function FlushEdit(level: nat, f: File): Edit {
    Edit({}, [(level, f)])
  }

  lemma FlushEditAdds(v: Version, level: nat, f: File)
    requires Valid(v) && level < NUM_LEVELS
    requires forall l, g :: 0 <= l < NUM_LEVELS && g in v.levels[l] ==> g.number < f.number
    ensures Compatible(v, FlushEdit(level, f))
    ensures forall v' :: Applied(v, FlushEdit(level, f), v') ==> Added(v, level, f, v')
  {
    var e := FlushEdit(level, f);
    ShapeSorted(v);
    forall l: nat | l < NUM_LEVELS
      ensures AddedAt(e, l) == (if l == level then {f} else {})
      ensures LevelAfter(FileSet(v.levels[l]), e, l) == FileSet(v.levels[l]) + AddedAt(e, l)
    {
      assert e.added[0] == (level, f);
    }
    LevelNumbers(v);
    forall v' | Applied(v, e, v') ensures Added(v, level, f, v') {
      forall l | 0 <= l < NUM_LEVELS && l != level ensures v'.levels[l] == v.levels[l] {
        SameSetSameList(v'.levels[l], v.levels[l]);
      }
    }
  }

  lemma LevelNumbers(v: Version)
    requires NumbersName(v)
    ensures forall l :: 0 <= l < |v.levels| ==> UniqueNumbers(FileSet(v.levels[l]))
  {
    forall l, f, g | 0 <= l < |v.levels| && f in FileSet(v.levels[l]) && g in FileSet(v.levels[l])
      && f.number == g.number
      ensures f == g
    {
      assert f in v.levels[l] && g in v.levels[l];
    }
  }

  // AddInputDeletions plus the outputs at the next level.
  ghost function NumbersOf(F: set<File>): set<nat> {
    set f | f in F :: f.number
  }

  ghost predicate CompactionEdit(e: Edit, level: nat, in0: seq<File>, in1: seq<File>, outs: seq<File>) {
    (forall l, n :: (l, n) in e.deleted <==>
      (l == level && n in NumbersOf(FileSet(in0))) || (l == level + 1 && n in NumbersOf(FileSet(in1))))
    && |e.added| == |outs| && forall i :: 0 <= i < |outs| ==> e.added[i] == (level + 1, outs[i])
  }

  method MakeCompactionEdit(level: nat, in0: seq<File>, in1: seq<File>, outs: seq<File>) returns (e: Edit)
    ensures CompactionEdit(e, level, in0, in1, outs)
  {
    var deleted: set<(nat, nat)> := {};
    for i := 0 to |in0|
      invariant forall l, n :: (l, n) in deleted <==> l == level && n in NumbersOf(FileSet(in0[..i]))
    {
      assert FileSet(in0[..i + 1]) == FileSet(in0[..i]) + {in0[i]} by { assert in0[..i + 1] == in0[..i] + [in0[i]]; }
      deleted := deleted + {(level, in0[i].number)};
    }
    assert in0[..|in0|] == in0;
    for i := 0 to |in1|
      invariant forall l, n :: (l, n) in deleted <==>
        (l == level && n in NumbersOf(FileSet(in0))) || (l == level + 1 && n in NumbersOf(FileSet(in1[..i])))
    {
      assert FileSet(in1[..i + 1]) == FileSet(in1[..i]) + {in1[i]} by { assert in1[..i + 1] == in1[..i] + [in1[i]]; }
      deleted := deleted + {(level + 1, in1[i].number)};
    }
    assert in1[..|in1|] == in1;
    e := Edit(deleted, seq(|outs|, i requires 0 <= i < |outs| => (level + 1, outs[i])));
  }

  lemma EditAdds(e: Edit, level: nat, in0: seq<File>, in1: seq<File>, outs: seq<File>)
    requires CompactionEdit(e, level, in0, in1, outs) && level + 1 < NUM_LEVELS
    ensures forall l: nat :: AddedAt(e, l) == if l == level + 1 then FileSet(outs) else {}
    ensures EditOk(e)
  {
    forall f | f in FileSet(outs) ensures f in AddedAt(e, level + 1) {
      var i :| 0 <= i < |outs| && outs[i] == f;
      assert e.added[i] == (level + 1, f);
    }
    forall d | d in e.deleted ensures d.0 < NUM_LEVELS {
      assert (d.0, d.1) in e.deleted;
    }
  }

  // A file of the level is deleted by number exactly when it is an input.
  lemma DeletedInput(v: Version, l: nat, A: set<File>, f: File)
    requires NumbersName(v) && l < |v.levels| && A <= FileSet(v.levels[l]) && f in FileSet(v.levels[l])
    ensures f.number in NumbersOf(A) <==> f in A
  {
    if f.number in NumbersOf(A) {
      var g :| g in A && g.number == f.number;
      assert g in v.levels[l] && f in v.levels[l];
    }
  }

  // Output numbers are in use at the input level at most.
  ghost predicate NumbersElsewhere(v: Version, level: nat, outs: set<File>) {
    forall l, g, o :: 0 <= l < |v.levels| && g in v.levels[l] && o in outs && o.number == g.number ==> l == level
  }

  // Applying a compaction's edit installs it.
  lemma EditInstalls(v: Version, c: Inputs, in0: seq<File>, in1: seq<File>, outs: seq<File>, e: Edit, v': Version)
    requires Valid(v) && Selected(v, c) && c.A == FileSet(in0) && c.B == FileSet(in1)
    requires CompactionEdit(e, c.level, in0, in1, outs) && Applied(v, e, v')
    requires NumbersElsewhere(v, c.level, FileSet(outs))
    ensures Installed(v, c, FileSet(outs), v')
  {
    EditAdds(e, c.level, in0, in1, outs);
    ShapeSorted(v);
    forall l | 0 <= l < NUM_LEVELS && l != c.level && l != c.level + 1 ensures v'.levels[l] == v.levels[l] {
      assert LevelAfter(FileSet(v.levels[l]), e, l) == FileSet(v.levels[l]) by {
        assert forall n :: (l, n) !in e.deleted;
      }
      SameSetSameList(v'.levels[l], v.levels[l]);
    }
    forall f ensures f in FileSet(v'.levels[c.level]) <==> f in Rest(v, c) {
      LevelAfterInputs(v, c, in0, in1, outs, e, f);
    }
    forall f ensures f in FileSet(v'.levels[c.level + 1]) <==> f in NextRest(v, c) + FileSet(outs) {
      NextAfterInputs(v, c, in0, in1, outs, e, f);
    }
  }

  lemma LevelAfterInputs(v: Version, c: Inputs, in0: seq<File>, in1: seq<File>, outs: seq<File>, e: Edit, f: File)
    requires NumbersName(v) && Selected(v, c) && c.A == FileSet(in0) && CompactionEdit(e, c.level, in0, in1, outs)
    ensures f in LevelAfter(FileSet(v.levels[c.level]), e, c.level) <==> f in Rest(v, c)
  {
    EditAdds(e, c.level, in0, in1, outs);
    if f in FileSet(v.levels[c.level]) {
      DeletedInput(v, c.level, c.A, f);
      assert (c.level, f.number) in e.deleted <==> f.number in NumbersOf(c.A);
      assert !AddsNumber(e, c.level, f.number);
    }
  }

  lemma NextAfterInputs(v: Version, c: Inputs, in0: seq<File>, in1: seq<File>, outs: seq<File>, e: Edit, f: File)
    requires NumbersName(v) && Selected(v, c) && c.B == FileSet(in1) && CompactionEdit(e, c.level, in0, in1, outs)
    requires NumbersElsewhere(v, c.level, FileSet(outs))
    ensures f in LevelAfter(FileSet(v.levels[c.level + 1]), e, c.level + 1) <==> f in NextRest(v, c) + FileSet(outs)
  {
    var next := c.level + 1;
    EditAdds(e, c.level, in0, in1, outs);
    if f in FileSet(outs) {
      assert AddsNumber(e, next, f.number);
    } else if f in FileSet(v.levels[next]) {
      assert forall o :: o in outs ==> o in FileSet(outs);
      DeletedInput(v, next, c.B, f);
      assert (next, f.number) in e.deleted <==> f.number in NumbersOf(c.B);
      assert f in v.levels[next];
      assert !AddsNumber(e, next, f.number);
    }
  }

  lemma EditCompatible(v: Version, level: nat, in0: seq<File>, in1: seq<File>, outs: seq<File>, e: Edit)
    requires Valid(v) && level + 1 < NUM_LEVELS && CompactionEdit(e, level, in0, in1, outs)
    requires UniqueNumbers(FileSet(outs))
    requires forall f, o :: f in v.levels[level + 1] && o in outs ==> o.number != f.number
    ensures Compatible(v, e)
  {
    EditAdds(e, level, in0, in1, outs);
    ShapeSorted(v);
    LevelNumbers(v);
    forall l | 0 <= l < NUM_LEVELS
      ensures UniqueNumbers(FileSet(v.levels[l]) + AddedAt(e, l)) && FileSet(v.levels[l]) !! AddedAt(e, l)
    {
      if l != level + 1 {
        assert FileSet(v.levels[l]) + AddedAt(e, l) == FileSet(v.levels[l]);
      }
    }
  }

  // ---- The manifest ----

  // Replaying the manifest gives the version, and no (level, number) pair was ever reused.
  ghost predicate ManifestOk(manifest: seq<Edit>, v: Version, nextFile: nat) {
    |v.levels| == NUM_LEVELS
    && (forall i :: 0 <= i < |manifest| ==> EditOk(manifest[i]))
    && (forall l :: 0 <= l < NUM_LEVELS ==>
          FreshAdds({}, manifest, l) && FileSet(v.levels[l]) == StepwiseLevel({}, manifest, l))
    && (forall l: nat, g :: g in AddedAfter(manifest, l) ==> g.number < nextFile)
    && forall l: nat, m, f, g ::
         0 <= m < NUM_LEVELS && f in v.levels[m] && g in AddedAfter(manifest, l) && g.number == f.number ==> l <= m
  }

  lemma EmptyManifest()
    ensures ManifestOk([], EMPTY_VERSION, 1)
  {
    forall l | 0 <= l < NUM_LEVELS ensures FileSet(EMPTY_VERSION.levels[l]) == {} {
    }
  }

  // An added file is new, or comes from a shallower level.
  ghost predicate AddsFresh(v: Version, e: Edit, nextFile: nat) {
    forall l: nat, g :: g in AddedAt(e, l) ==>
      g.number >= nextFile || exists m :: 0 <= m < l && m < |v.levels| && g in v.levels[m]
  }

  lemma ManifestStep(manifest: seq<Edit>, v: Version, e: Edit, v': Version, nextFile: nat, nextFile': nat)
    requires ManifestOk(manifest, v, nextFile) && Compatible(v, e) && Applied(v, e, v') && AddsFresh(v, e, nextFile)
    requires NumbersName(v') && nextFile <= nextFile'
    requires forall l: nat, g :: g in AddedAt(e, l) ==> l < NUM_LEVELS && g.number < nextFile' && g in v'.levels[l]
    requires OnePlace(v')
    ensures ManifestOk(manifest + [e], v', nextFile')
  {
    var all := manifest + [e];
    forall l | 0 <= l < NUM_LEVELS
      ensures FreshAdds({}, all, l) && FileSet(v'.levels[l]) == StepwiseLevel({}, all, l)
    {
      ManifestLevel(manifest, v, e, v', nextFile, l);
    }
    assert all[..|all| - 1] == manifest && all[|all| - 1] == e;
    forall l: nat, g | g in AddedAfter(all, l) ensures g.number < nextFile' {
      assert g in AddedAfter(manifest, l) || g in AddedAt(e, l);
    }
    forall l: nat, m, f, g | 0 <= m < NUM_LEVELS && f in v'.levels[m] && g in AddedAfter(all, l) && g.number == f.number
      ensures l <= m
    {
      ManifestDown(manifest, v, e, v', nextFile, l, m, f, g);
    }
  }

  lemma ManifestLevel(manifest: seq<Edit>, v: Version, e: Edit, v': Version, nextFile: nat, l: nat)
    requires ManifestOk(manifest, v, nextFile) && Compatible(v, e) && Applied(v, e, v') && AddsFresh(v, e, nextFile)
    requires l < NUM_LEVELS
    ensures FreshAdds({}, manifest + [e], l)
    ensures FileSet(v'.levels[l]) == StepwiseLevel({}, manifest + [e], l)
  {
    var all := manifest + [e];
    assert all[..|manifest|] == manifest && all[|manifest|] == e;
    forall f, g | f in AddedAfter(manifest, l) && g in AddedAt(e, l) ensures f.number != g.number {
      assert g.number >= nextFile || exists m :: 0 <= m < l && m < |v.levels| && g in v.levels[m];
    }
    assert {} + AddedAfter(manifest, l) == AddedAfter(manifest, l);
    assert AddedAt(e, l) <= FileSet(v.levels[l]) + AddedAt(e, l);
  }

  // No file is at two levels.
  ghost predicate OnePlace(v: Version) {
    forall l, m, f :: 0 <= l < |v.levels| && 0 <= m < |v.levels| && f in v.levels[l] && f in v.levels[m] ==> l == m
  }

  lemma ManifestDown(manifest: seq<Edit>, v: Version, e: Edit, v': Version, nextFile: nat, l: nat, m: nat, f: File,
                     g: File)
    requires ManifestOk(manifest, v, nextFile) && Applied(v, e, v') && AddsFresh(v, e, nextFile)
    requires NumbersName(v') && OnePlace(v')
    requires forall q: nat, h :: h in AddedAt(e, q) ==> q < NUM_LEVELS && h in v'.levels[q]
    requires m < NUM_LEVELS && f in v'.levels[m] && g in AddedAfter(manifest + [e], l) && g.number == f.number
    ensures l <= m
  {
    var all := manifest + [e];
    assert all[..|manifest|] == manifest && all[|manifest|] == e;
    if g in AddedAt(e, l) {
      assert g in v'.levels[l] && f == g;
    } else {
      assert g in AddedAfter(manifest, l);
      assert f in FileSet(v'.levels[m]);
      if f in AddedAt(e, m) {
        assert f.number >= nextFile || exists q :: 0 <= q < m && q < |v.levels| && f in v.levels[q];
      } else {
        assert f in v.levels[m];
      }
    }
  }

  lemma ValidOnePlace(v: Version)
    requires Valid(v)
    ensures OnePlace(v)
  {
    forall l, m, f | 0 <= l < |v.levels| && 0 <= m < |v.levels| && f in v.levels[l] && f in v.levels[m] ensures l == m {
      var e := f.run[0];
      assert e in f.run && f in FileSet(v.levels[l]) && f in FileSet(v.levels[m]);
      OneLevel(v, l, m, e);
    }
  }

  // ---- Edits against the manifest ----

  lemma FlushAddsFresh(v: Version, level: nat, f: File, nextFile: nat, v': Version)
    requires f.number == nextFile && level < |v.levels| && Added(v, level, f, v')
    ensures AddsFresh(v, FlushEdit(level, f), nextFile)
    ensures forall l: nat, g :: g in AddedAt(FlushEdit(level, f), l) ==> l == level && g == f && g in v'.levels[l]
  {
    assert f in FileSet(v'.levels[level]);
  }

  lemma CompactionAddsFresh(v: Version, c: Inputs, in0: seq<File>, in1: seq<File>, outs: seq<File>, e: Edit,
                            nextFile: nat, v': Version)
    requires Selected(v, c) && CompactionEdit(e, c.level, in0, in1, outs) && Installed(v, c, FileSet(outs), v')
    requires forall f :: f in outs ==> f.number >= nextFile || f in v.levels[c.level]
    ensures AddsFresh(v, e, nextFile)
    ensures forall l: nat, g :: g in AddedAt(e, l) ==> l == c.level + 1 && g in outs && g in v'.levels[l]
  {
    EditAdds(e, c.level, in0, in1, outs);
    forall l: nat, g | g in AddedAt(e, l) ensures l == c.level + 1 && g in outs && g in v'.levels[l] {
      assert g in FileSet(v'.levels[c.level + 1]);
    }
  }

  // ---- Work on values, for the store to install ----

  // Manual compaction of a key range, or an automatic one around a picked file.
  datatype Task =
    | Manual(level: nat, begin: Option<UserKey>, end: Option<UserKey>)
    | Auto(level: nat, picked: File)

  ghost predicate TaskOk(v: Version, t: Task) {
    t.level + 1 < NUM_LEVELS == |v.levels| && (t.Auto? ==> t.picked in v.levels[t.level])
  }

  ghost predicate HasWork(v: Version, t: Task)
    requires TaskOk(v, t)
  {
    t.Manual? ==> exists i :: 0 <= i < |v.levels[t.level]| && Overlaps(v.levels[t.level][i], t.begin, t.end)
  }

  // The files of its level a task starts from.
  ghost predicate StartOf(v: Version, t: Task, maxFileSize: nat, start: seq<File>)
    requires TaskOk(v, t)
  {
    match t
    case Manual(level, begin, end) =>
      if level == 0 then
        OverlapsFound(v.levels[0], true, begin, end, start)
      else
        CutShort(Overlapping(v.levels[level], begin, end), maxFileSize, start)
    case Auto(level, f) =>
      if level == 0 then
        OverlapsFound(v.levels[0], true, Some(f.Smallest().user), Some(f.Largest().user), start)
      else
        start == [f]
  }

  // The inputs are replaced: a single file without anything to merge or much below it moves down, unless the
  // compaction is manual; otherwise the pruned merge of the inputs goes to well cut files of the next level.
  ghost predicate Replaced(v: Version, level: nat, manual: bool, in0: seq<File>, in1: seq<File>,
                           grandparents: seq<File>, maxFileSize: nat, s: nat, full: seq<Entry> -> bool,
                           sizeOf: seq<Entry> -> nat, first: nat, c: Inputs, outs: seq<File>, v': Version, next: nat)
  {
    c.level == level && c.A == FileSet(in0) && c.B == FileSet(in1)
    && GoodInputs(v, c) && Installed(v, c, FileSet(outs), v')
    && if !manual && |in0| == 1 && |in1| == 0 && TotalFileSize(grandparents) <= 10 * maxFileSize then
         outs == in0 && next == first
       else
         Pruned(v, c, s, FileSet(outs)) && WellCut(Under(v, level), 10 * maxFileSize, full, outs)
         && Sized(outs, sizeOf) && Numbered(outs, first) && next == first + |outs|
  }

  // A compaction from these files of the level takes v to v'.
  ghost predicate CompactedFrom(v: Version, level: nat, manual: bool, start: seq<File>, maxFileSize: nat, s: nat,
                                full: seq<Entry> -> bool, sizeOf: seq<Entry> -> nat, first: nat, v': Version,
                                next: nat)
    requires level + 1 < NUM_LEVELS == |v.levels|
  {
    exists in0, in1, grandparents, c, outs ::
      SetUp(v, level, start, maxFileSize, in0, in1, grandparents)
      && Replaced(v, level, manual, in0, in1, grandparents, maxFileSize, s, full, sizeOf, first, c, outs, v', next)
  }

  // A task takes v to v'.
  ghost predicate Worked(v: Version, t: Task, maxFileSize: nat, s: nat, full: seq<Entry> -> bool,
                         sizeOf: seq<Entry> -> nat, first: nat, v': Version, next: nat)
    requires TaskOk(v, t)
  {
    exists start ::
      StartOf(v, t, maxFileSize, start)
      && CompactedFrom(v, t.level, t.Manual?, start, maxFileSize, s, full, sizeOf, first, v', next)
  }

  method Start(v: Version, t: Task, maxFileSize: nat) returns (start: seq<File>)
    requires Shape(v) && TaskOk(v, t)
    ensures start != [] <==> HasWork(v, t)
    ensures start != [] ==> GoodStart(v, t.level, start)
    ensures StartOf(v, t, maxFileSize, start)
  {
    match t
    case Manual(level, begin, end) =>
      start := CompactRange(v, level, begin, end, maxFileSize);
    case Auto(level, picked) =>
      start := PickCompaction(v, level, picked);
  }

  method RunTask(v: Version, t: Task, s: SequenceNumber, nextFile: nat, maxFileSize: nat,
                 full: seq<Entry> -> bool, sizeOf: seq<Entry> -> nat, manifest: seq<Edit>, ghost a: Db)
    returns (worked: bool, v': Version, next: nat, manifest': seq<Edit>, ghost b: Db)
    requires Inv(a) && ManifestOk(manifest, v, nextFile) && a.version == v && a.nextFile == nextFile
    requires TaskOk(v, t) && s == SmallestSnapshot(a)
    ensures b == a.(version := v', nextFile := next, floor := b.floor, leaked := b.leaked)
    ensures worked == HasWork(v, t)
    ensures if worked then Next(a, b, manifest') else b == a && manifest' == manifest
    ensures worked ==> Worked(v, t, maxFileSize, s, full, sizeOf, nextFile, v', next)
  {
    var start := Start(v, t, maxFileSize);
    worked, v', next, manifest', b := start != [], v, nextFile, manifest, a;
    if worked {
      var e;
      v', next, e, b :=
        RunCompaction(v, t.level, start, t.Manual?, s, nextFile, maxFileSize, full, sizeOf, manifest, a);
      manifest' := manifest + [e];
    }
  }

  // Set up the other inputs, then move the single input file or merge and rewrite.
  method RunCompaction(v: Version, level: nat, start: seq<File>, manual: bool, s: SequenceNumber, nextFile: nat,
                       maxFileSize: nat, full: seq<Entry> -> bool, sizeOf: seq<Entry> -> nat,
                       manifest: seq<Edit>, ghost a: Db)
    returns (v': Version, next: nat, e: Edit, ghost b: Db)
    requires Inv(a) && ManifestOk(manifest, v, nextFile) && a.version == v && a.nextFile == nextFile
    requires level + 1 < NUM_LEVELS && GoodStart(v, level, start) && s == SmallestSnapshot(a)
    ensures b == a.(version := v', nextFile := next, floor := b.floor, leaked := b.leaked)
    ensures Next(a, b, manifest + [e])
    ensures CompactedFrom(v, level, manual, start, maxFileSize, s, full, sizeOf, nextFile, v', next)
  {
    hide SetUp, Installed, Pruned, WellCut, Inv, Next, ManifestOk, GoodStart, Valid;
    VersionOf(a);
    ghost var c, outs;
    var in0, in1, grandparents;
    in0, in1, grandparents, c := PrepareInputs(v, level, start, maxFileSize);
    if !manual && IsTrivialMove(in0, in1, grandparents, maxFileSize) {
      assert in0 == [in0[0]] && in1 == [];
      v', e := InstallMove(v, level, in0[0], manifest, c, a);
      next, b, outs := nextFile, a.(version := v'), in0;
    } else {
      v', next, e, outs :=
        MergeAndInstall(v, level, in0, in1, grandparents, s, nextFile, maxFileSize, full, sizeOf, manifest, c, a);
      b := Shrunk(a, c, v', next);
    }
    assert Replaced(v, level, manual, in0, in1, grandparents, maxFileSize, s, full, sizeOf, nextFile, c, outs, v',
      next);
  }

  method PrepareInputs(v: Version, level: nat, start: seq<File>, maxFileSize: nat)
    returns (in0: seq<File>, in1: seq<File>, grandparents: seq<File>, ghost c: Inputs)
    requires Valid(v) && level + 1 < NUM_LEVELS && GoodStart(v, level, start)
    ensures CompactionReady(v, level, in0, in1, c)
    ensures |v.levels| == NUM_LEVELS && SetUp(v, level, start, maxFileSize, in0, in1, grandparents)
  {
    var smallest, largest;
    in0, in1, grandparents, smallest, largest := SetupOtherInputs(v, level, start, maxFileSize);
    c := Inputs(level, FileSet(in0), FileSet(in1), smallest.user, largest.user);
  }

  lemma VersionOf(a: Db)
    requires Inv(a)
    ensures Valid(a.version) && Shape(a.version) && SmallestSnapshot(a) < MAX_SEQUENCE
    ensures forall l, g :: 0 <= l < NUM_LEVELS && g in a.version.levels[l] ==> g.number < a.nextFile
  {
  }

  lemma MemBound(a: Db)
    requires Inv(a)
    ensures Sorted(a.mem) && forall e :: e in a.mem ==> e.sn <= a.lastSequence
  {
    forall e | e in a.mem ensures e.sn <= a.lastSequence {
      assert e in Elements(a.mem);
    }
  }

  lemma ImmSorted(a: Db)
    requires Inv(a) && a.imm.Some?
    ensures Sorted(a.imm.value)
  {
  }

  // DoCompactionWork and InstallCompactionResults.
  method MergeAndInstall(v: Version, level: nat, in0: seq<File>, in1: seq<File>, grandparents: seq<File>,
                         s: SequenceNumber, nextFile: nat, maxFileSize: nat,
                         full: seq<Entry> -> bool, sizeOf: seq<Entry> -> nat,
                         manifest: seq<Edit>, ghost c: Inputs, ghost a: Db)
    returns (v': Version, next: nat, e: Edit, outs: seq<File>)
    requires Inv(a) && ManifestOk(manifest, v, nextFile) && a.version == v && a.nextFile == nextFile
    requires CompactionReady(v, level, in0, in1, c) && s == SmallestSnapshot(a)
    requires Below(v, level, in0 + in1, grandparents)
    ensures Next(a, Shrunk(a, c, v', next), manifest + [e])
    ensures Installed(v, c, FileSet(outs), v') && Pruned(v, c, s, FileSet(outs))
    ensures WellCut(Under(v, level), 10 * maxFileSize, full, outs) && Sized(outs, sizeOf)
    ensures Numbered(outs, nextFile) && next == nextFile + |outs|
  {
    hide Inv, Valid, GoodInputs, ManifestOk, Outputs, Below, Installed, Pruned, WellCut, Sized, Numbered, Next, InOrder,
      BySmallest;
    VersionOf(a);
    outs := MergeTables(v, level, in0, in1, grandparents, s, nextFile, maxFileSize, full, sizeOf, c);
    v', e := InstallCompactionResults(v, level, in0, in1, outs, manifest, c, a);
    next := nextFile + |outs|;
  }

  // F is E after the operations, as reads see it: up to `last` nothing has changed, and after the first n of
  // them a key holds what the last of these on it left there.
  ghost predicate ReadsAfter(E: set<Entry>, ops: seq<WriteOp>, last: SequenceNumber, F: set<Entry>) {
    (forall k, t: nat :: t <= last ==> Read(F, k, t) == Read(E, k, t))
    && forall k, n: nat :: n <= |ops| ==> Read(F, k, last + n) == Outcome(ops[..n], k, Read(E, k, last))
  }

  lemma BatchRead(E: set<Entry>, ops: seq<WriteOp>, last: SequenceNumber)
    requires OneWrite(E) && (forall e :: e in E ==> e.sn <= last) && last + |ops| <= MAX_SEQUENCE
    ensures OneWrite(E + Stamped(ops, last, |ops|)) && ReadsAfter(E, ops, last, E + Stamped(ops, last, |ops|))
  {
    hide Outcome, Stamped;
    hide Stamp;
    ReadStamped(E, ops, last, |ops|, 0.0);
    var F := E + Stamped(ops, last, |ops|);
    forall k, t: nat | t <= last ensures Read(F, k, t) == Read(E, k, t) {
      StampedNumbers(ops, last, |ops|);
      ReadAgrees(F, E, k, t);
    }
    forall k, n: nat | n <= |ops| ensures Read(F, k, last + n) == Outcome(ops[..n], k, Read(E, k, last)) {
      ReadStamped(E, ops, last, n, k);
      StampedBelow(ops, last, n);
      ReadAgrees(F, E + Stamped(ops, last, n), k, last + n);
    }
  }

  // MemTableInserter over a whole batch, all of it newer than the memtable.
  method InsertInto(mem: seq<Entry>, ops: seq<WriteOp>, last: SequenceNumber) returns (m: seq<Entry>)
    requires Sorted(mem) && last + |ops| <= MAX_SEQUENCE && forall e :: e in mem ==> e.sn <= last
    ensures Sorted(m) && Elements(m) == Elements(mem) + Stamped(ops, last, |ops|)
    ensures OneWrite(Elements(mem)) ==> ReadsAfter(Elements(mem), ops, last, Elements(m))
  {
    if OneWrite(Elements(mem)) {
      BatchRead(Elements(mem), ops, last);
    }
    m := mem;
    for i := 0 to |ops|
      invariant Sorted(m) && Elements(m) == Elements(mem) + Stamped(ops, last, i)
    {
      var e := Stamp(ops[i], last + 1 + i);
      forall o | o in m ensures o.Key() != e.Key() {
        assert o in Elements(m);
      }
      m := MemAdd(m, e);
      assert Stamped(ops, last, i + 1) == Stamped(ops, last, i) + {e};
    }
  }

  // The state after the batch is a good successor.
  ghost predicate Written(a: Db, ops: seq<WriteOp>, m: seq<Entry>, sync: bool)
    requires a.lastSequence + |ops| < MAX_SEQUENCE
  {
    var last := a.lastSequence + |ops|;
    var b := a.(mem := m, lastSequence := last, hist := a.hist + Stamped(ops, a.lastSequence, |ops|),
                memSynced := if sync then last else a.memSynced);
    Inv(b) && Step(a, b)
  }

  lemma WriteIsStep(a: Db, ops: seq<WriteOp>, m: seq<Entry>, sync: bool)
    requires Inv(a) && a.lastSequence + |ops| < MAX_SEQUENCE
    requires Sorted(m) && Elements(m) == Elements(a.mem) + Stamped(ops, a.lastSequence, |ops|)
    ensures Written(a, ops, m, sync)
  {
    hide Valid, Faithful, Layers;
    StampedNumbers(ops, a.lastSequence, |ops|);
    var N := Stamped(ops, a.lastSequence, |ops|);
    var last := a.lastSequence + |ops|;
    var b := a.(mem := m, lastSequence := last, hist := a.hist + N, memSynced := if sync then last else a.memSynced);
    assert Writes(a, N, b);
    StepKeeps(a, b);
  }

  // What is stored and what was written both read as after the operations.
  lemma WriteReads(a: Db, b: Db, ops: seq<WriteOp>)
    requires Inv(a) && a.lastSequence + |ops| < MAX_SEQUENCE && b.imm == a.imm && b.version == a.version
    requires Elements(b.mem) == Elements(a.mem) + Stamped(ops, a.lastSequence, |ops|)
    requires b.hist == a.hist + Stamped(ops, a.lastSequence, |ops|)
    ensures ReadsAfter(AllEntries(a), ops, a.lastSequence, AllEntries(b))
    ensures ReadsAfter(a.hist, ops, a.lastSequence, b.hist)
  {
    hide Layers, Files, Snapshots, Faithful, Stamped, ReadsAfter, VersionEntries;
    OneWriteSubset(a.hist, AllEntries(a));
    BatchRead(a.hist, ops, a.lastSequence);
    BatchRead(AllEntries(a), ops, a.lastSequence);
    assert AllEntries(b) == AllEntries(a) + Stamped(ops, a.lastSequence, |ops|);
  }

  // A state, its successor, and their manifests.
  ghost predicate Next(a: Db, b: Db, manifest: seq<Edit>) {
    Inv(b) && Step(a, b) && ManifestOk(manifest, b.version, b.nextFile)
  }

  lemma EmptyFlush(a: Db, manifest: seq<Edit>)
    requires Inv(a) && ManifestOk(manifest, a.version, a.nextFile) && a.imm == Some([])
    ensures Next(a, a.(imm := None, nextFile := a.nextFile + 1), manifest)
  {
    var b := a.(imm := None, nextFile := a.nextFile + 1);
    assert FlushStep(a, b);
    StepKeeps(a, b);
  }

  // The run has become a file of the level it should go to.
  ghost predicate FlushedTo(v: Version, run: seq<Entry>, number: nat, maxFileSize: nat, sizeOf: seq<Entry> -> nat,
                            v': Version)
  {
    |v.levels| == NUM_LEVELS
    && exists level: nat, f: File ::
         f == FileMeta(number, sizeOf(run), run) && level < NUM_LEVELS && LevelFor(v, f, maxFileSize, level)
         && Added(v, level, f, v')
  }

  // WriteLevel0Table and LogAndApply for a nonempty memtable.
  method FlushTable(run: seq<Entry>, v: Version, nextFile: nat, manifest: seq<Edit>, maxFileSize: nat,
                    sizeOf: seq<Entry> -> nat, ghost a: Db)
    returns (v': Version, e: Edit)
    requires Inv(a) && ManifestOk(manifest, v, nextFile) && a.version == v && a.nextFile == nextFile
    requires a.imm == Some(run) && run != []
    ensures Next(a, a.(imm := None, version := v', nextFile := nextFile + 1), manifest + [e])
    ensures FlushedTo(v, run, nextFile, maxFileSize, sizeOf, v')
  {
    hide Inv, Valid, ManifestOk, Next, LevelFor;
    VersionOf(a);
    assert Sorted(run) by { ImmSorted(a); }
    var f: File := FileMeta(nextFile, sizeOf(run), run);
    var level := PickLevelForMemTableOutput(v, f, maxFileSize);
    FlushEditAdds(v, level, f);
    e := FlushEdit(level, f);
    v' := LogAndApply(v, e);
    FlushManifest(a, manifest, level, f, v');
  }

  // What SetupOtherInputs hands over.
  ghost predicate CompactionReady(v: Version, level: nat, in0: seq<File>, in1: seq<File>, c: Inputs) {
    level + 1 < NUM_LEVELS && c.level == level && c.A == FileSet(in0) && c.B == FileSet(in1)
    && GoodInputs(v, c) && InOrder(in1) && if level == 0 then BySmallest(in0) else InOrder(in0)
  }

  // The compaction proper: from input tables to output tables.
  method MergeTables(v: Version, level: nat, in0: seq<File>, in1: seq<File>, grandparents: seq<File>, s: SequenceNumber,
                     first: nat, maxFileSize: nat, full: seq<Entry> -> bool, sizeOf: seq<Entry> -> nat, ghost c: Inputs)
    returns (outs: seq<File>)
    requires Valid(v) && CompactionReady(v, level, in0, in1, c) && s < MAX_SEQUENCE
    requires Below(v, level, in0 + in1, grandparents)
    ensures Outputs(v, c, s, outs, first) && Pruned(v, c, s, FileSet(outs)) && Numbered(outs, first)
    ensures WellCut(Under(v, level), 10 * maxFileSize, full, outs) && Sized(outs, sizeOf)
  {
    InputRunsOk(v, level, in0, in1);
    GrandparentsInOrder(v, level, in0 + in1, grandparents);
    var comp := new Compaction(v, level, grandparents, maxFileSize);
    var input := new MergingIterator(InputRuns(level, in0, in1));
    MergedInputs(v, c, input.runs);
    outs := DoCompactionWork(comp, input, s, first, full, sizeOf, c);
    OutputsOk(v, c, s, input.Union(), outs, first);
    CompactedIsPruned(v, c, s, FileSet(outs));
    CutOverLevel(v, c, level, in0, in1, grandparents, 10 * maxFileSize, full, outs);
  }

  lemma GrandparentsInOrder(v: Version, level: nat, files: seq<File>, grandparents: seq<File>)
    requires Valid(v) && Below(v, level, files, grandparents)
    ensures InOrder(grandparents)
  {
    if level + 2 < NUM_LEVELS {
      var lo, hi :| IsSmallest(files, lo) && IsLargest(files, hi)
        && grandparents == Overlapping(v.levels[level + 2], Some(lo.user), Some(hi.user));
      OverlappingInOrder(v.levels[level + 2], Some(lo.user), Some(hi.user));
    }
  }

  // Well cut over the files below the compaction is well cut over their whole level.
  lemma CutOverLevel(v: Version, c: Inputs, level: nat, in0: seq<File>, in1: seq<File>, grandparents: seq<File>,
                     limit: nat, full: seq<Entry> -> bool, outs: seq<File>)
    requires |v.levels| == NUM_LEVELS && c.A == FileSet(in0) && c.B == FileSet(in1)
    requires Below(v, level, in0 + in1, grandparents) && WellCut(grandparents, limit, full, outs)
    requires EntriesOf(FileSet(outs)) <= InputEntries(c)
    ensures WellCut(Under(v, level), limit, full, outs)
  {
    hide Crossed, Less, EndsBefore, IsSmallest, IsLargest;
    var fs := Under(v, level);
    if level + 2 < NUM_LEVELS {
      var lo, hi :| IsSmallest(in0 + in1, lo) && IsLargest(in0 + in1, hi)
        && grandparents == Overlapping(fs, Some(lo.user), Some(hi.user));
      forall i | 0 <= i < |outs| ensures Fits(fs, limit, full, outs[i].run) {
        KeysInRange(c, in0, in1, lo, hi, outs, i);
        CrossedOverlapping(fs, lo.user, hi.user, outs[i].Smallest(), outs[i].Largest());
      }
      forall i | 0 <= i < |outs| - 1 ensures EndsBefore(fs, limit, full, outs[i].run, outs[i + 1].Smallest()) {
        EndsBelow(fs, lo, hi, limit, full, outs[i].run, outs[i + 1].Smallest());
      }
    }
  }

  lemma KeysInRange(c: Inputs, in0: seq<File>, in1: seq<File>, lo: InternalKey, hi: InternalKey, outs: seq<File>,
                    i: nat)
    requires c.A == FileSet(in0) && c.B == FileSet(in1) && EntriesOf(FileSet(outs)) <= InputEntries(c) && i < |outs|
    requires IsSmallest(in0 + in1, lo) && IsLargest(in0 + in1, hi)
    ensures lo.user <= outs[i].Smallest().user && outs[i].Largest().user <= hi.user
  {
    RangeEncloses(in0 + in1, lo, hi);
    EndsIn(FileSet(outs), outs[i]);
    forall e | e in InputEntries(c) ensures lo.user <= e.user <= hi.user {
      var f: File :| f in c.A + c.B && e in f.run;
      assert f in FileSet(in0 + in1);
      FileBounds(f, e);
    }
  }

  lemma EndsBelow(fs: seq<File>, lo: InternalKey, hi: InternalKey, limit: nat, full: seq<Entry> -> bool,
                  run: seq<Entry>, next: InternalKey)
    requires run != []
      && EndsBefore(Overlapping(fs, Some(lo.user), Some(hi.user)), limit, full, run, next)
    ensures EndsBefore(fs, limit, full, run, next)
  {
    if !full(run) {
      var a, b :| Less(run[|run| - 1].Key(), b) && !Less(next, b)
        && Crossed(Overlapping(fs, Some(lo.user), Some(hi.user)), a, b) > limit;
      CrossedOverlapping(fs, lo.user, hi.user, a, b);
    }
  }

  method InstallCompactionResults(v: Version, level: nat, in0: seq<File>, in1: seq<File>, outs: seq<File>,
                                  manifest: seq<Edit>, ghost c: Inputs, ghost a: Db)
    returns (v': Version, e: Edit)
    requires Inv(a) && ManifestOk(manifest, v, a.nextFile) && a.version == v
    requires CompactionReady(v, level, in0, in1, c) && Outputs(v, c, SmallestSnapshot(a), outs, a.nextFile)
    ensures Next(a, Shrunk(a, c, v', a.nextFile + |outs|), manifest + [e]) && Installed(v, c, FileSet(outs), v')
  {
    hide Inv, ManifestOk, Step, Valid, CompactionEdit, Installed, Compatible, Applied, Compacted;
    VersionOf(a);
    e := MakeCompactionEdit(level, in0, in1, outs);
    CompactionCompatible(a, c.level, in0, in1, outs, e);
    v' := LogAndApply(v, e);
    EditInstalls(v, c, in0, in1, outs, e, v');
    CompactionIsStep(a, c, outs, v');
    CompactionManifest(a, manifest, c, in0, in1, outs, e, v', a.nextFile + |outs|);
  }

  // The state after a compaction to v'.
  ghost function Shrunk(a: Db, c: Inputs, v': Version, next: nat): Db
    requires Selected(a.version, c)
  {
    a.(version := v', nextFile := next, floor := SmallestSnapshot(a),
       leaked := a.leaked + LeakedKeys(a.version, c, SmallestSnapshot(a)))
  }

  lemma CompactionIsStep(a: Db, c: Inputs, outs: seq<File>, v': Version)
    requires Inv(a) && GoodInputs(a.version, c) && Outputs(a.version, c, SmallestSnapshot(a), outs, a.nextFile)
    requires Installed(a.version, c, FileSet(outs), v')
    ensures Inv(Shrunk(a, c, v', a.nextFile + |outs|)) && Step(a, Shrunk(a, c, v', a.nextFile + |outs|)) && Valid(v')
  {
    var b := Shrunk(a, c, v', a.nextFile + |outs|);
    assert Compacts(a, c, FileSet(outs), b);
    StepKeeps(a, b);
  }

  method InstallMove(v: Version, level: nat, f: File, manifest: seq<Edit>, ghost c: Inputs, ghost a: Db)
    returns (v': Version, e: Edit)
    requires Inv(a) && ManifestOk(manifest, v, a.nextFile) && a.version == v
    requires CompactionReady(v, level, [f], [], c)
    ensures Next(a, a.(version := v'), manifest + [e]) && Installed(v, c, FileSet([f]), v')
  {
    e := MakeCompactionEdit(level, [f], [], [f]);
    assert FileSet([f]) == {f} && FileSet([]) == {};
    MoveCompatible(a, c, f, e);
    v' := LogAndApply(v, e);
    MoveInstalls(a, c, f, e, v');
    MoveIsStep(a, c, f, v');
    assert f in v.levels[level];
    CompactionManifest(a, manifest, c, [f], [], [f], e, v', a.nextFile);
  }

  lemma MoveIsStep(a: Db, c: Inputs, f: File, v': Version)
    requires Inv(a) && c.A == {f} && c.B == {} && GoodInputs(a.version, c) && Installed(a.version, c, {f}, v')
    ensures Inv(a.(version := v')) && Step(a, a.(version := v'))
  {
    var b := a.(version := v');
    assert Moves(a, c, f, b);
    StepKeeps(a, b);
  }

  lemma FlushManifest(a: Db, manifest: seq<Edit>, level: nat, f: File, v': Version)
    requires Inv(a) && ManifestOk(manifest, a.version, a.nextFile) && a.imm == Some(f.run)
    requires f.number == a.nextFile && Placeable(a.version, level, f) && Compatible(a.version, FlushEdit(level, f))
    requires Applied(a.version, FlushEdit(level, f), v') && Added(a.version, level, f, v')
    ensures Next(a, a.(imm := None, version := v', nextFile := a.nextFile + 1), manifest + [FlushEdit(level, f)])
  {
    var b := a.(imm := None, version := v', nextFile := a.nextFile + 1);
    FlushIsStep(a, level, f, b);
    FlushAddsFresh(a.version, level, f, a.nextFile, v');
    ValidOnePlace(v');
    ManifestStep(manifest, a.version, FlushEdit(level, f), v', a.nextFile, a.nextFile + 1);
  }

  lemma FlushIsStep(a: Db, level: nat, f: File, b: Db)
    requires Inv(a) && Flushes(a, level, f, b)
    ensures Inv(b) && Step(a, b)
  {
    assert f.run != [];
    assert FlushStep(a, b);
    StepKeeps(a, b);
  }

  lemma ValidNames(v: Version)
    requires Valid(v)
    ensures NumbersName(v)
  {
  }

  lemma CompactionManifest(a: Db, manifest: seq<Edit>, c: Inputs, in0: seq<File>, in1: seq<File>, outs: seq<File>,
                           e: Edit, v': Version, next: nat)
    requires Inv(a) && ManifestOk(manifest, a.version, a.nextFile) && Selected(a.version, c) && Valid(v')
    requires CompactionEdit(e, c.level, in0, in1, outs) && Compatible(a.version, e) && Applied(a.version, e, v')
    requires Installed(a.version, c, FileSet(outs), v') && a.nextFile <= next
    requires forall f :: f in outs ==> f.number < next && (f.number >= a.nextFile || f in a.version.levels[c.level])
    ensures ManifestOk(manifest + [e], v', next)
  {
    hide Valid, Faithful, Layers, ManifestOk, Applied, Compatible, Snapshots;
    CompactionAddsFresh(a.version, c, in0, in1, outs, e, a.nextFile, v');
    ValidNames(v');
    forall l: nat, g | g in AddedAt(e, l)
      ensures l < NUM_LEVELS && g.number < next && g in v'.levels[l]
    {
      assert l == c.level + 1 && g in outs;
    }
    ValidOnePlace(v');
    ManifestStep(manifest, a.version, e, v', a.nextFile, next);
  }

  // The merging iterator over the inputs walks exactly their entries, in order.
  lemma MergedInputs(v: Version, c: Inputs, runs: seq<seq<Entry>>)
    requires Valid(v) && Selected(v, c) && RunsOk(runs) && RunsFrom(runs, InputEntries(c))
    ensures Elements(MergeAll(runs)) == InputEntries(c) && Sorted(MergeAll(runs)) && OneWrite(InputEntries(c))
  {
    MergeAllMembers(runs);
    MergeAllSorted(runs);
    forall e | e in InputEntries(c) ensures e in VersionEntries(v) {
      InputInVersion(v, c, e);
    }
  }

  // What the compaction loop hands over for installation.
  ghost predicate Outputs(v: Version, c: Inputs, s: nat, outs: seq<File>, first: nat) {
    Compacted(v, c, s, FileSet(outs)) && Separated(FileSet(outs)) && UniqueNumbers(FileSet(outs))
    && forall f :: f in outs ==> first <= f.number < first + |outs|
  }

  lemma OutputsOk(v: Version, c: Inputs, s: nat, es: seq<Entry>, outs: seq<File>, first: nat)
    requires Elements(es) == InputEntries(c) && Flatten(outs) == Kept(es, v, c, s)
    requires InOrder(outs) && Numbered(outs, first)
    ensures Outputs(v, c, s, outs, first)
  {
    OutputsCompacted(v, c, s, es, outs);
    forall f, g | f in FileSet(outs) && g in FileSet(outs) && f != g ensures Apart(f, g) {
      InOrderApart(outs, f, g);
    }
  }

  lemma OutputsCompacted(v: Version, c: Inputs, s: nat, es: seq<Entry>, outs: seq<File>)
    requires Elements(es) == InputEntries(c) && Flatten(outs) == Kept(es, v, c, s)
    ensures Compacted(v, c, s, FileSet(outs))
  {
    FlattenMembers(outs);
    KeptMembers(es, v, c, s);
    forall e ensures e in EntriesOf(FileSet(outs)) <==> e in InputEntries(c) && !Dropped(v, c, s, e) {
      assert e in EntriesOf(FileSet(outs)) <==> e in Elements(Flatten(outs));
      assert e in InputEntries(c) <==> e in Elements(es);
    }
  }

  lemma CompactionCompatible(a: Db, level: nat, in0: seq<File>, in1: seq<File>, outs: seq<File>, e: Edit)
    requires Inv(a) && level + 1 < NUM_LEVELS && CompactionEdit(e, level, in0, in1, outs)
    requires UniqueNumbers(FileSet(outs)) && forall f :: f in outs ==> a.nextFile <= f.number
    ensures Compatible(a.version, e) && NumbersElsewhere(a.version, level, FileSet(outs))
  {
    EditCompatible(a.version, level, in0, in1, outs, e);
  }

  lemma MoveCompatible(a: Db, c: Inputs, f: File, e: Edit)
    requires Files(a) && Selected(a.version, c) && c.A == {f} && CompactionEdit(e, c.level, [f], [], [f])
    ensures Compatible(a.version, e) && NumbersElsewhere(a.version, c.level, FileSet([f]))
  {
    assert f in a.version.levels[c.level];
    ValidOnePlace(a.version);
    EditCompatible(a.version, c.level, [f], [], [f], e);
  }

  lemma MoveInstalls(a: Db, c: Inputs, f: File, e: Edit, v': Version)
    requires Files(a) && Selected(a.version, c) && c.A == {f} && c.B == {}
    requires CompactionEdit(e, c.level, [f], [], [f]) && Applied(a.version, e, v')
    requires NumbersElsewhere(a.version, c.level, FileSet([f]))
    ensures Installed(a.version, c, {f}, v')
  {
    assert FileSet([f]) == {f} && FileSet([]) == {};
    EditInstalls(a.version, c, [f], [], [f], e, v');
  }

  lemma LiveSnapshots(db: Db, s: SequenceNumber)
    requires Inv(db) && (s in db.snapshots || s == db.lastSequence)
    ensures s >= db.floor
  {
  }

  lemma PartsOnce(db: Db)
    requires Stored(db)
    ensures OneWrite(Elements(db.mem)) && OneWrite(ImmEntries(db)) && OneWrite(VersionEntries(db.version))
  {
  }
}
