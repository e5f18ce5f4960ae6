// Choosing the files of a compaction.

module Selection {
  // VersionSet::PickCompaction, CompactRange, SetupOtherInputs,
  // Version::GetOverlappingInputs, PickLevelForMemTableOutput.

  import opened DbFormat
  import opened Versions
  import opened Compactions

  // ---- Overlap tests ----

  lemma OrderedUsers(fs: seq<File>, i: nat, j: nat)
    requires InOrder(fs) && i < j < |fs|
    ensures fs[i].Smallest().user <= fs[i].Largest().user <= fs[j].Smallest().user <= fs[j].Largest().user
  {
    assert Less(fs[i].Largest(), fs[j].Smallest());
    FileBounds(fs[i], fs[i].run[0]);
    FileBounds(fs[j], fs[j].run[0]);
  }

  // The binary-search path for disjoint files answers what the full scan answers.
  method SomeFileOverlapsRange(disjoint: bool, fs: seq<File>, smallest: Option<UserKey>, largest: Option<UserKey>)
    returns (r: bool)
    requires disjoint ==> InOrder(fs)
    ensures r <==> exists i :: 0 <= i < |fs| && Overlaps(fs[i], smallest, largest)
  {
    if !disjoint {
      for i := 0 to |fs|
        invariant forall j :: 0 <= j < i ==> !Overlaps(fs[j], smallest, largest)
      {
        if Overlaps(fs[i], smallest, largest) {
          return true;
        }
      }
      return false;
    }
    var index := 0;
    if smallest.Some? {
      index := FindFile(fs, SeekKey(smallest.value, MAX_SEQUENCE));
    }
    assert forall i :: 0 <= i < index ==> !Overlaps(fs[i], smallest, largest);
    if index >= |fs| {
      return false;
    }
    r := !(largest.Some? && largest.value < fs[index].Smallest().user);
    assert r ==> Overlaps(fs[index], smallest, largest);
    forall i | index < i < |fs| ensures !r ==> !Overlaps(fs[i], smallest, largest) {
      OrderedUsers(fs, index, i);
    }
  }

  // ---- GetOverlappingInputs ----

  // The files overlapping a user-key range, in order.
  function Overlapping(fs: seq<File>, begin: Option<UserKey>, end: Option<UserKey>): seq<File> {
    if fs == [] then
      []
    else
      var f := fs[|fs| - 1];
      Overlapping(fs[..|fs| - 1], begin, end) + if Overlaps(f, begin, end) then [f] else []
  }

  lemma {:induction false} OverlappingMembers(fs: seq<File>, begin: Option<UserKey>, end: Option<UserKey>)
    ensures forall f :: f in Overlapping(fs, begin, end) <==> f in fs && Overlaps(f, begin, end)
  {
    if fs != [] {
      OverlappingMembers(fs[..|fs| - 1], begin, end);
      assert fs == fs[..|fs| - 1] + [fs[|fs| - 1]];
    }
  }

  lemma {:induction false} OverlappingInOrder(fs: seq<File>, begin: Option<UserKey>, end: Option<UserKey>)
    requires InOrder(fs)
    ensures InOrder(Overlapping(fs, begin, end))
  {
    if fs != [] {
      var init := fs[..|fs| - 1];
      OverlappingInOrder(init, begin, end);
      OverlappingMembers(init, begin, end);
      var r := Overlapping(init, begin, end);
      forall i | 0 <= i < |r| ensures Less(r[i].Largest(), fs[|fs| - 1].Smallest()) {
        assert r[i] in init;
        var j :| 0 <= j < |init| && init[j] == r[i];
        assert fs[j] == r[i];
      }
    }
  }

  lemma {:induction false} OverlappingBySmallest(fs: seq<File>, begin: Option<UserKey>, end: Option<UserKey>)
    requires BySmallest(fs)
    ensures BySmallest(Overlapping(fs, begin, end))
  {
    if fs != [] {
      var init := fs[..|fs| - 1];
      OverlappingBySmallest(init, begin, end);
      OverlappingMembers(init, begin, end);
      var r := Overlapping(init, begin, end);
      forall i | 0 <= i < |r| ensures FileLess(r[i], fs[|fs| - 1]) {
        assert r[i] in init;
        var j :| 0 <= j < |init| && init[j] == r[i];
        assert fs[j] == r[i];
      }
    }
  }

  predicate Inside(f: File, begin: Option<UserKey>, end: Option<UserKey>) {
    (begin.Some? ==> begin.value <= f.Smallest().user) && (end.Some? ==> f.Largest().user <= end.value)
  }

  // [b2, e2] contains [b, e]; None is unbounded.
  predicate Contains(b2: Option<UserKey>, e2: Option<UserKey>, b: Option<UserKey>, e: Option<UserKey>) {
    (b2.Some? ==> b.Some? && b2.value <= b.value) && (e2.Some? ==> e.Some? && e.value <= e2.value)
  }

  // Every file meeting the range lies inside it.
  ghost predicate ClosedRange(fs: seq<File>, begin: Option<UserKey>, end: Option<UserKey>) {
    forall i :: 0 <= i < |fs| && Overlaps(fs[i], begin, end) ==> Inside(fs[i], begin, end)
  }

  // Every closed range around the first range also contains the second.
  ghost predicate Least(fs: seq<File>, b0: Option<UserKey>, e0: Option<UserKey>, b: Option<UserKey>,
                        e: Option<UserKey>) {
    forall b2, e2 :: ClosedRange(fs, b2, e2) && Contains(b2, e2, b0, e0) ==> Contains(b2, e2, b, e)
  }

  // What a search for the range [begin, end] finds: the files meeting it or, at level 0, those meeting the
  // least closed range around it.
  ghost predicate OverlapsFound(fs: seq<File>, level0: bool, begin: Option<UserKey>, end: Option<UserKey>,
                                files: seq<File>) {
    if level0 then
      exists b, e :: ClosedRange(fs, b, e) && Contains(b, e, begin, end) && Least(fs, begin, end, b, e)
        && files == Overlapping(fs, b, e)
    else
      files == Overlapping(fs, begin, end)
  }

  ghost function StartsBelow(fs: seq<File>, begin: Option<UserKey>): set<int> {
    set i | 0 <= i < |fs| && begin.Some? && fs[i].Smallest().user < begin.value
  }

  ghost function EndsAbove(fs: seq<File>, end: Option<UserKey>): set<int> {
    set i | 0 <= i < |fs| && end.Some? && fs[i].Largest().user > end.value
  }

  lemma LeastGrows(fs: seq<File>, b0: Option<UserKey>, e0: Option<UserKey>, b: Option<UserKey>, e: Option<UserKey>,
                   i: nat)
    requires Least(fs, b0, e0, b, e) && i < |fs| && Overlaps(fs[i], b, e)
    ensures b.Some? ==>
      Least(fs, b0, e0, Some(if fs[i].Smallest().user < b.value then fs[i].Smallest().user else b.value), e)
    ensures e.Some? ==>
      Least(fs, b0, e0, b, Some(if fs[i].Largest().user > e.value then fs[i].Largest().user else e.value))
  {
    forall b2, e2 | ClosedRange(fs, b2, e2) && Contains(b2, e2, b0, e0)
      ensures Contains(b2, e2, b, e) && Inside(fs[i], b2, e2)
    {
      assert Overlaps(fs[i], b2, e2);
    }
  }

  // Above level 0, the files overlapping the range.  At level 0 the search restarts whenever a file
  // widens the range, and ends with the files of the smallest closed range around the given one.
  method GetOverlappingInputs(fs: seq<File>, level0: bool, begin: Option<UserKey>, end: Option<UserKey>)
    returns (inputs: seq<File>, ghost b: Option<UserKey>, ghost e: Option<UserKey>)
    ensures inputs == Overlapping(fs, b, e)
    ensures !level0 ==> b == begin && e == end
    ensures level0 ==> ClosedRange(fs, b, e) && Contains(b, e, begin, end) && Least(fs, begin, end, b, e)
    ensures OverlapsFound(fs, level0, begin, end, inputs)
  {
    var userBegin, userEnd := begin, end;
    inputs := [];
    var i := 0;
    while i < |fs|
      invariant 0 <= i <= |fs|
      invariant inputs == Overlapping(fs[..i], userBegin, userEnd)
      invariant !level0 ==> userBegin == begin && userEnd == end
      invariant level0 ==> forall j ::
        0 <= j < i && Overlaps(fs[j], userBegin, userEnd) ==> Inside(fs[j], userBegin, userEnd)
      invariant Contains(userBegin, userEnd, begin, end) && Least(fs, begin, end, userBegin, userEnd)
      decreases StartsBelow(fs, userBegin), EndsAbove(fs, userEnd), |fs| - i
    {
      var f := fs[i];
      assert fs[..i + 1][..i] == fs[..i];
      i := i + 1;
      if userBegin.Some? && f.Largest().user < userBegin.value {
      } else if userEnd.Some? && f.Smallest().user > userEnd.value {
      } else {
        inputs := inputs + [f];
        if level0 {
          LeastGrows(fs, begin, end, userBegin, userEnd, i - 1);
          if userBegin.Some? && f.Smallest().user < userBegin.value {
            assert i - 1 in StartsBelow(fs, userBegin);
            userBegin := Some(f.Smallest().user);
            assert i - 1 !in StartsBelow(fs, userBegin);
            inputs := [];
            i := 0;
          } else if userEnd.Some? && f.Largest().user > userEnd.value {
            assert i - 1 in EndsAbove(fs, userEnd);
            userEnd := Some(f.Largest().user);
            assert i - 1 !in EndsAbove(fs, userEnd);
            inputs := [];
            i := 0;
          }
        }
      }
    }
    assert fs[..|fs|] == fs;
    b, e := userBegin, userEnd;
    FoundIs(fs, level0, begin, end, b, e, inputs);
  }

  lemma FoundIs(fs: seq<File>, level0: bool, begin: Option<UserKey>, end: Option<UserKey>, b: Option<UserKey>,
                e: Option<UserKey>, files: seq<File>)
    requires files == Overlapping(fs, b, e) && (!level0 ==> b == begin && e == end)
    requires level0 ==> ClosedRange(fs, b, e) && Contains(b, e, begin, end) && Least(fs, begin, end, b, e)
    ensures OverlapsFound(fs, level0, begin, end, files)
  {
  }

  // ---- AddBoundaryInputs ----

  ghost predicate IsLargest(files: seq<File>, key: InternalKey) {
    (exists i :: 0 <= i < |files| && files[i].Largest() == key)
    && forall i :: 0 <= i < |files| ==> !Less(key, files[i].Largest())
  }

  method FindLargestKey(files: seq<File>) returns (key: InternalKey)
    requires files != []
    ensures IsLargest(files, key)
  {
    key := files[0].Largest();
    for i := 1 to |files|
      invariant IsLargest(files[..i], key)
    {
      if Less(key, files[i].Largest()) {
        key := files[i].Largest();
      }
      assert files[..i + 1][i] == files[i];
      assert forall j :: 0 <= j < i ==> files[..i + 1][j] == files[..i][j];
    }
    assert files[..|files|] == files;
  }

  // A file continuing the user key of `key` after it.
  predicate Boundary(f: File, key: InternalKey) {
    Less(key, f.Smallest()) && f.Smallest().user == key.user
  }

  method FindSmallestBoundaryFile(fs: seq<File>, key: InternalKey) returns (r: Option<File>)
    ensures r.None? ==> forall i :: 0 <= i < |fs| ==> !Boundary(fs[i], key)
    ensures r.Some? ==> r.value in fs && Boundary(r.value, key)
    ensures r.Some? ==> forall i ::
      0 <= i < |fs| && Boundary(fs[i], key) ==> !Less(fs[i].Smallest(), r.value.Smallest())
  {
    r := None;
    for i := 0 to |fs|
      invariant r.None? ==> forall j :: 0 <= j < i ==> !Boundary(fs[j], key)
      invariant r.Some? ==> r.value in fs && Boundary(r.value, key)
      invariant r.Some? ==> forall j ::
        0 <= j < i && Boundary(fs[j], key) ==> !Less(fs[j].Smallest(), r.value.Smallest())
    {
      if Boundary(fs[i], key) && (r.None? || Less(fs[i].Smallest(), r.value.Smallest())) {
        r := Some(fs[i]);
      }
    }
  }

  // No unselected file between two selected ones.
  ghost predicate Convex(fs: seq<File>, R: set<File>) {
    forall i, j, m :: 0 <= i < j < m < |fs| && fs[i] in R && fs[m] in R ==> fs[j] in R
  }

  ghost predicate NoBoundary(fs: seq<File>, files: seq<File>) {
    forall key :: IsLargest(files, key) ==> forall i :: 0 <= i < |fs| ==> !Boundary(fs[i], key)
  }

  // f is the first file that continues the largest user key of the files.
  ghost predicate NextBoundary(fs: seq<File>, files: seq<File>, f: File) {
    exists key :: IsLargest(files, key) && f in fs && Boundary(f, key)
      && forall i :: 0 <= i < |fs| && Boundary(fs[i], key) ==> !Less(fs[i].Smallest(), f.Smallest())
  }

  // r is the files and, after them, one boundary file after the other until there is none.
  ghost predicate BoundaryClosure(fs: seq<File>, files: seq<File>, r: seq<File>) {
    files <= r && NoBoundary(fs, r) && forall i :: |files| <= i < |r| ==> NextBoundary(fs, r[..i], r[i])
  }

  lemma LargestUnique(files: seq<File>, a: InternalKey, b: InternalKey)
    requires IsLargest(files, a) && IsLargest(files, b)
    ensures a == b
  {
    var i :| 0 <= i < |files| && files[i].Largest() == a;
    var j :| 0 <= j < |files| && files[j].Largest() == b;
    assert !Less(a, b) && !Less(b, a);
  }

  ghost function FilesAfter(fs: seq<File>, key: InternalKey): set<int> {
    set i | 0 <= i < |fs| && Less(key, fs[i].Smallest())
  }

  // Appending the smallest boundary file keeps the selection ordered and without gaps.
  lemma BoundaryStep(fs: seq<File>, files: seq<File>, key: InternalKey, f: File)
    requires IsLargest(files, key) && f in fs && Boundary(f, key)
    requires forall i :: 0 <= i < |fs| && Boundary(fs[i], key) ==> !Less(fs[i].Smallest(), f.Smallest())
    ensures IsLargest(files + [f], f.Largest())
    ensures FilesAfter(fs, f.Largest()) < FilesAfter(fs, key)
    ensures InOrder(files) ==> InOrder(files + [f])
    ensures InOrder(fs) && FileSet(files) <= FileSet(fs) && Convex(fs, FileSet(files))
      ==> Convex(fs, FileSet(files + [f]))
  {
    FileBounds(f, f.run[0]);
    assert (files + [f])[|files|] == f;
    var p :| 0 <= p < |fs| && fs[p] == f;
    assert p in FilesAfter(fs, key) && p !in FilesAfter(fs, f.Largest());
    if InOrder(fs) && FileSet(files) <= FileSet(fs) && Convex(fs, FileSet(files)) {
      forall i, j, m | 0 <= i < j < m < |fs| && fs[i] in FileSet(files + [f]) && fs[m] in FileSet(files + [f])
        ensures fs[j] in FileSet(files + [f])
      {
        BoundaryNoGap(fs, files, key, p, i, j, m);
      }
    }
  }

  lemma BoundaryNoGap(fs: seq<File>, files: seq<File>, key: InternalKey, p: nat, i: nat, j: nat, m: nat)
    requires IsLargest(files, key) && p < |fs| && Boundary(fs[p], key)
    requires forall q :: 0 <= q < |fs| && Boundary(fs[q], key) ==> !Less(fs[q].Smallest(), fs[p].Smallest())
    requires InOrder(fs) && FileSet(files) <= FileSet(fs) && Convex(fs, FileSet(files))
    requires i < j < m < |fs|
    requires fs[i] in files || fs[i] == fs[p]
    requires fs[m] in files || fs[m] == fs[p]
    ensures fs[j] in files || fs[j] == fs[p]
  {
    OrderedEnds(fs, i, j);
    OrderedEnds(fs, j, m);
    OrderedUsers(fs, j, m);
    var q :| 0 <= q < |files| && files[q].Largest() == key;
    assert files[q] in FileSet(files);
    var h :| 0 <= h < |fs| && fs[h] == files[q];
    if fs[m] in files && fs[i] in files {
      assert fs[m] in FileSet(files) && fs[i] in FileSet(files);
    } else if fs[m] == fs[p] {
      FromIndex(fs, m, p);
      if h > j && i < h {
        if fs[i] in files {
          assert fs[i] in FileSet(files);
        } else {
          FromIndex(fs, i, p);
        }
      }
    } else {
      FromIndex(fs, i, p);
    }
  }

  lemma FromIndex(fs: seq<File>, i: nat, p: nat)
    requires InOrder(fs) && i < |fs| && p < |fs| && fs[i] == fs[p]
    ensures i == p
  {
    var smallest, largest := fs[i].Smallest(), fs[p].Largest();
    FileBounds(fs[i], fs[i].run[0]);
  }

  lemma BoundaryAdded(fs: seq<File>, files: seq<File>, r: seq<File>, key: InternalKey, f: File)
    requires files <= r && IsLargest(r, key) && f in fs && Boundary(f, key)
    requires forall i :: 0 <= i < |fs| && Boundary(fs[i], key) ==> !Less(fs[i].Smallest(), f.Smallest())
    requires forall i :: |files| <= i < |r| ==> NextBoundary(fs, r[..i], r[i])
    ensures forall i :: |files| <= i < |r + [f]| ==> NextBoundary(fs, (r + [f])[..i], (r + [f])[i])
  {
    forall i | |files| <= i < |r + [f]| ensures NextBoundary(fs, (r + [f])[..i], (r + [f])[i]) {
      assert (r + [f])[..i] == r[..i];
    }
    assert (r + [f])[..|r|] == r;
  }

  // Extends the selection until its largest user key does not continue in another file.
  method AddBoundaryInputs(fs: seq<File>, files: seq<File>) returns (r: seq<File>)
    ensures BoundaryClosure(fs, files, r)
    ensures forall f :: f in r ==> f in files || f in fs
    ensures NoBoundary(fs, files) ==> r == files
    ensures InOrder(files) ==> InOrder(r)
    ensures InOrder(fs) && FileSet(files) <= FileSet(fs) && Convex(fs, FileSet(files)) ==> Convex(fs, FileSet(r))
  {
    hide Convex, InOrder, NextBoundary;
    r := files;
    if files == [] {
      return;
    }
    var largest := FindLargestKey(files);
    var searching := true;
    while searching
      invariant files <= r && IsLargest(r, largest)
      invariant forall i :: |files| <= i < |r| ==> NextBoundary(fs, r[..i], r[i])
      invariant forall f :: f in r ==> f in files || f in fs
      invariant NoBoundary(fs, files) ==> r == files
      invariant !searching ==> forall i :: 0 <= i < |fs| ==> !Boundary(fs[i], largest)
      invariant InOrder(files) ==> InOrder(r)
      invariant InOrder(fs) && FileSet(files) <= FileSet(fs) && Convex(fs, FileSet(files)) ==> Convex(fs, FileSet(r))
      decreases searching, FilesAfter(fs, largest)
    {
      var b := FindSmallestBoundaryFile(fs, largest);
      if b.Some? {
        BoundaryStep(fs, r, largest, b.value);
        BoundaryAdded(fs, files, r, largest, b.value);
        r := r + [b.value];
        largest := b.value.Largest();
      } else {
        searching := false;
      }
    }
    forall key | IsLargest(r, key) ensures key == largest {
      LargestUnique(r, key, largest);
    }
  }

  // ---- SetupOtherInputs ----

  ghost predicate IsSmallest(files: seq<File>, key: InternalKey) {
    (exists i :: 0 <= i < |files| && files[i].Smallest() == key)
    && forall i :: 0 <= i < |files| ==> !Less(files[i].Smallest(), key)
  }

  method GetRange(files: seq<File>) returns (smallest: InternalKey, largest: InternalKey)
    requires files != []
    ensures IsSmallest(files, smallest) && IsLargest(files, largest)
  {
    smallest := files[0].Smallest();
    largest := files[0].Largest();
    ghost var p, q := 0, 0;
    for i := 1 to |files|
      invariant 0 <= p < i && smallest == files[p].Smallest()
      invariant 0 <= q < i && largest == files[q].Largest()
      invariant forall j :: 0 <= j < i ==> !Less(files[j].Smallest(), smallest)
      invariant forall j :: 0 <= j < i ==> !Less(largest, files[j].Largest())
    {
      if Less(files[i].Smallest(), smallest) {
        smallest, p := files[i].Smallest(), i;
      }
      if Less(largest, files[i].Largest()) {
        largest, q := files[i].Largest(), i;
      }
    }
  }

  function TotalFileSize(files: seq<File>): nat {
    if files == [] then 0 else TotalFileSize(files[..|files| - 1]) + files[|files| - 1].size
  }

  lemma {:induction false} TotalOfConcat(a: seq<File>, b: seq<File>)
    ensures TotalFileSize(a + b) == TotalFileSize(a) + TotalFileSize(b)
    ensures forall f: File :: TotalFileSize([f]) == f.size
  {
    forall f: File ensures TotalFileSize([f]) == f.size {
      assert [f][..0] == [] && TotalFileSize([]) == 0;
    }
    if b == [] {
      assert a + b == a;
    } else {
      TotalOfConcat(a, b[..|b| - 1]);
      assert (a + b)[..|a + b| - 1] == a + b[..|b| - 1];
    }
  }

  // A legal first set of level inputs: closed under overlap at level 0, gap-free below.
  ghost predicate GoodStart(v: Version, level: nat, files: seq<File>)
    requires level < |v.levels|
  {
    files != []
    && if level == 0 then
         exists b, e :: ClosedRange(v.levels[0], b, e) && files == Overlapping(v.levels[0], b, e)
       else
         FileSet(files) <= FileSet(v.levels[level]) && InOrder(files)
         && Convex(v.levels[level], FileSet(files))
  }

  lemma ClosedNoBoundary(fs: seq<File>, begin: Option<UserKey>, end: Option<UserKey>)
    requires ClosedRange(fs, begin, end)
    ensures NoBoundary(fs, Overlapping(fs, begin, end))
  {
    var files := Overlapping(fs, begin, end);
    OverlappingMembers(fs, begin, end);
    forall key, i | IsLargest(files, key) && 0 <= i < |fs| ensures !Boundary(fs[i], key) {
      var j :| 0 <= j < |files| && files[j].Largest() == key;
      assert files[j] in files;
      var q :| 0 <= q < |fs| && fs[q] == files[j];
      FileBounds(fs[i], fs[i].run[0]);
      FileBounds(files[j], files[j].run[0]);
      if fs[i] in files {
        var p :| 0 <= p < |files| && files[p] == fs[i];
      }
    }
  }

  lemma ClosedDisjoint(fs: seq<File>, begin: Option<UserKey>, end: Option<UserKey>, a: Entry, b: Entry)
    requires ClosedRange(fs, begin, end)
    requires a in EntriesOf(FileSet(fs) - FileSet(Overlapping(fs, begin, end)))
    requires b in EntriesOf(FileSet(Overlapping(fs, begin, end)))
    ensures a.user != b.user
  {
    OverlappingMembers(fs, begin, end);
    var f: File :| f in FileSet(fs) - FileSet(Overlapping(fs, begin, end)) && a in f.run;
    var g: File :| g in FileSet(Overlapping(fs, begin, end)) && b in g.run;
    FileBounds(f, a);
    FileBounds(g, b);
    var q :| 0 <= q < |fs| && fs[q] == g;
    assert Overlaps(fs[q], begin, end);
    assert f in fs && !Overlaps(f, begin, end);
  }

  lemma ConvexNewer(fs: seq<File>, files: seq<File>, p: nat, q: nat, a: Entry, b: Entry)
    requires InOrder(fs) && FileSet(files) <= FileSet(fs) && Convex(fs, FileSet(files)) && NoBoundary(fs, files)
    requires p < |fs| && q < |fs| && fs[p] !in files && fs[q] in files
    requires a in fs[p].run && b in fs[q].run && a.user == b.user
    ensures p < q
  {
    if q < p {
      LargestExists(files);
      var key :| IsLargest(files, key);
      var t :| 0 <= t < |files| && files[t].Largest() == key;
      assert files[t] in FileSet(files);
      var h :| 0 <= h < |fs| && fs[h] == files[t];
      FileBounds(fs[p], a);
      FileBounds(fs[q], b);
      OrderedEnds(fs, q, p);
    }
  }

  lemma {:induction false} LargestExists(files: seq<File>)
    requires files != []
    ensures exists key :: IsLargest(files, key)
  {
    if |files| == 1 {
      assert IsLargest(files, files[0].Largest());
    } else {
      var init := files[..|files| - 1];
      LargestExists(init);
      var key :| IsLargest(init, key);
      var i :| 0 <= i < |init| && init[i].Largest() == key;
      var last := files[|files| - 1].Largest();
      forall j | 0 <= j < |files| - 1 ensures !Less(key, files[j].Largest()) {
        assert files[j] == init[j];
      }
      assert files[i] == init[i];
      assert IsLargest(files, if Less(key, last) then last else key);
    }
  }

  // Closure under overlap at level 0, or boundary files below, leave only newer data behind.
  lemma LeftBehindNewer(v: Version, level: nat, files: seq<File>)
    requires Shape(v) && level < |v.levels| && OneWrite(LevelEntries(v, level))
    requires GoodStart(v, level, files) && NoBoundary(v.levels[level], files)
    ensures Newer(EntriesOf(FileSet(v.levels[level]) - FileSet(files)), EntriesOf(FileSet(files)))
  {
    var fs := v.levels[level];
    forall a, b | a in EntriesOf(FileSet(fs) - FileSet(files)) && b in EntriesOf(FileSet(files)) && a.user == b.user
      ensures a.sn > b.sn
    {
      if level == 0 {
        var begin, end :| ClosedRange(fs, begin, end) && files == Overlapping(fs, begin, end);
        ClosedDisjoint(fs, begin, end, a, b);
      } else {
        var f: File :| f in FileSet(fs) - FileSet(files) && a in f.run;
        var g: File :| g in FileSet(files) && b in g.run;
        var p :| 0 <= p < |fs| && fs[p] == f;
        var q :| 0 <= q < |fs| && fs[q] == g;
        ConvexNewer(fs, files, p, q, a, b);
        EarlierNewer(fs, p, q, a, b);
      }
    }
  }

  lemma EarlierNewer(fs: seq<File>, p: nat, q: nat, a: Entry, b: Entry)
    requires InOrder(fs) && OneWrite(EntriesOf(FileSet(fs))) && p < q < |fs|
    requires a in fs[p].run && b in fs[q].run && a.user == b.user
    ensures a.sn > b.sn
  {
    assert Less(fs[p].Largest(), fs[q].Smallest());
    FileBounds(fs[p], a);
    FileBounds(fs[q], b);
    InLevel(fs, p, a);
    InLevel(fs, q, b);
  }

  // A range filter of a sorted level has no gaps.
  lemma OverlappingConvex(fs: seq<File>, begin: Option<UserKey>, end: Option<UserKey>)
    requires InOrder(fs)
    ensures Convex(fs, FileSet(Overlapping(fs, begin, end)))
    ensures FileSet(Overlapping(fs, begin, end)) <= FileSet(fs)
  {
    OverlappingMembers(fs, begin, end);
    forall i, j, m | 0 <= i < j < m < |fs| && fs[i] in FileSet(Overlapping(fs, begin, end))
      && fs[m] in FileSet(Overlapping(fs, begin, end))
      ensures fs[j] in FileSet(Overlapping(fs, begin, end))
    {
      OrderedUsers(fs, i, j);
      OrderedUsers(fs, j, m);
      assert fs[j] in fs && Overlaps(fs[j], begin, end);
    }
  }

  lemma GoodInputsHold(v: Version, level: nat, in0: seq<File>, in1: seq<File>, smallest: InternalKey,
                       largest: InternalKey)
    requires Shape(v) && OneWrite(VersionEntries(v)) && level + 1 < |v.levels|
    requires GoodStart(v, level, in0) && NoBoundary(v.levels[level], in0)
    requires IsSmallest(in0, smallest) && IsLargest(in0, largest)
    requires in1 == Overlapping(v.levels[level + 1], Some(smallest.user), Some(largest.user))
    ensures GoodInputs(v, Inputs(level, FileSet(in0), FileSet(in1), smallest.user, largest.user))
    ensures InOrder(in1)
  {
    LevelInVersion(v, level);
    OneWriteSubset(VersionEntries(v), LevelEntries(v, level));
    LeftBehindNewer(v, level, in0);
    StartSelected(v, level, in0);
    OverlappingMembers(v.levels[level + 1], Some(smallest.user), Some(largest.user));
    OverlappingInOrder(v.levels[level + 1], Some(smallest.user), Some(largest.user));
    RangeEncloses(in0, smallest, largest);
  }

  lemma StartSelected(v: Version, level: nat, files: seq<File>)
    requires level < |v.levels| && GoodStart(v, level, files)
    ensures FileSet(files) <= FileSet(v.levels[level])
  {
    if level == 0 {
      var b, e :| ClosedRange(v.levels[0], b, e) && files == Overlapping(v.levels[0], b, e);
      OverlappingMembers(v.levels[0], b, e);
    }
  }

  lemma StartOrdered(v: Version, level: nat, files: seq<File>)
    requires Shape(v) && level < |v.levels| && GoodStart(v, level, files)
    ensures if level == 0 then BySmallest(files) else InOrder(files)
  {
    if level == 0 {
      var b, e :| ClosedRange(v.levels[0], b, e) && files == Overlapping(v.levels[0], b, e);
      OverlappingBySmallest(v.levels[0], b, e);
    }
  }

  lemma RangeEncloses(files: seq<File>, smallest: InternalKey, largest: InternalKey)
    requires IsSmallest(files, smallest) && IsLargest(files, largest)
    ensures Within(FileSet(files), smallest.user, largest.user)
  {
    forall f | f in FileSet(files) ensures smallest.user <= f.Smallest().user && f.Largest().user <= largest.user {
      var i :| 0 <= i < |files| && files[i] == f;
    }
  }

  // AddBoundaryInputs on a legal selection gives a legal selection with no boundary left.
  method CloseBoundary(v: Version, level: nat, files: seq<File>) returns (r: seq<File>)
    requires Shape(v) && level < |v.levels| && GoodStart(v, level, files)
    ensures GoodStart(v, level, r) && BoundaryClosure(v.levels[level], files, r)
  {
    r := AddBoundaryInputs(v.levels[level], files);
    if level == 0 {
      ghost var b, e :| ClosedRange(v.levels[0], b, e) && files == Overlapping(v.levels[0], b, e);
      ClosedNoBoundary(v.levels[0], b, e);
    } else {
      assert FileSet(r) <= FileSet(v.levels[level]);
    }
  }

  lemma OverlapLegal(v: Version, level: nat, b: Option<UserKey>, e: Option<UserKey>)
    requires Shape(v) && level < |v.levels| && (level == 0 ==> ClosedRange(v.levels[0], b, e))
    requires Overlapping(v.levels[level], b, e) != []
    ensures GoodStart(v, level, Overlapping(v.levels[level], b, e))
  {
    if level > 0 {
      OverlappingConvex(v.levels[level], b, e);
      OverlappingInOrder(v.levels[level], b, e);
    }
  }

  // Files inside the requested range are among the files found.
  lemma OverlapKeeps(fs: seq<File>, files: seq<File>, b0: Option<UserKey>, e0: Option<UserKey>, b: Option<UserKey>,
                     e: Option<UserKey>)
    requires FileSet(files) <= FileSet(fs) && Contains(b, e, b0, e0)
    requires forall i :: 0 <= i < |files| ==> Overlaps(files[i], b0, e0)
    ensures FileSet(files) <= FileSet(Overlapping(fs, b, e))
  {
    OverlappingMembers(fs, b, e);
    forall f | f in FileSet(files) ensures f in FileSet(Overlapping(fs, b, e)) {
      var i :| 0 <= i < |files| && files[i] == f;
      assert f in FileSet(fs);
    }
  }

  lemma InRange(files: seq<File>, more: seq<File>, smallest: InternalKey, largest: InternalKey)
    requires IsSmallest(files + more, smallest) && IsLargest(files + more, largest)
    ensures forall i :: 0 <= i < |files| ==> Overlaps(files[i], Some(smallest.user), Some(largest.user))
  {
    forall i | 0 <= i < |files| ensures Overlaps(files[i], Some(smallest.user), Some(largest.user)) {
      assert (files + more)[i] == files[i];
      FileBounds(files[i], files[i].run[0]);
    }
  }

  // r is the files meeting the user-key range of the given ones.
  ghost predicate MeetsRange(fs: seq<File>, files: seq<File>, r: seq<File>) {
    exists lo, hi :: IsSmallest(files, lo) && IsLargest(files, hi) && r == Overlapping(fs, Some(lo.user), Some(hi.user))
  }

  // The larger set of level inputs: all that meets the range of everything chosen so far, closed again.
  ghost predicate Enlarged(v: Version, level: nat, base: seq<File>, base1: seq<File>, r: seq<File>)
    requires level < |v.levels|
  {
    exists lo, hi, found ::
      IsSmallest(base + base1, lo) && IsLargest(base + base1, hi)
      && OverlapsFound(v.levels[level], level == 0, Some(lo.user), Some(hi.user), found)
      && BoundaryClosure(v.levels[level], found, r)
  }

  // The inputs grow from (base, base1) to (r, r1) when that adds level files, few bytes and no further
  // next-level file.
  ghost predicate Grows(base: seq<File>, base1: seq<File>, r: seq<File>, r1: seq<File>, maxFileSize: nat) {
    base1 != [] && |r| > |base| && TotalFileSize(base1) + TotalFileSize(r) < 25 * maxFileSize && |r1| == |base1|
  }

  // The inputs grew from (base, base1), or they are these because the larger set was not worth it.
  ghost predicate GrownFrom(v: Version, level: nat, base: seq<File>, base1: seq<File>, in0: seq<File>, in1: seq<File>,
                            maxFileSize: nat)
    requires level + 1 < |v.levels|
  {
    (Enlarged(v, level, base, base1, in0) && Grows(base, base1, in0, in1, maxFileSize))
    || (in0 == base && in1 == base1
        && (base1 == [] || exists r ::
              Enlarged(v, level, base, base1, r)
              && forall r1 :: MeetsRange(v.levels[level + 1], r, r1) ==> !Grows(base, base1, r, r1, maxFileSize)))
  }

  // The level-(L+2) files under the whole compaction.
  ghost predicate Below(v: Version, level: nat, files: seq<File>, grandparents: seq<File>)
    requires |v.levels| == NUM_LEVELS
  {
    if level + 2 < NUM_LEVELS then MeetsRange(v.levels[level + 2], files, grandparents) else grandparents == []
  }

  // What SetupOtherInputs makes of a start.
  ghost predicate SetUp(v: Version, level: nat, start: seq<File>, maxFileSize: nat, in0: seq<File>, in1: seq<File>,
                        grandparents: seq<File>)
    requires level + 1 < |v.levels| == NUM_LEVELS
  {
    (exists base, base1 ::
       BoundaryClosure(v.levels[level], start, base) && MeetsRange(v.levels[level + 1], base, base1)
       && GrownFrom(v, level, base, base1, in0, in1, maxFileSize))
    && MeetsRange(v.levels[level + 1], in0, in1) && Below(v, level, in0 + in1, grandparents)
  }

  // Growing the level inputs takes in no other file of the next level.
  lemma GrowsAlone(v: Version, level: nat, base: seq<File>, base1: seq<File>, in0: seq<File>, in1: seq<File>,
                   maxFileSize: nat)
    requires Shape(v) && level + 1 < |v.levels|
    requires MeetsRange(v.levels[level + 1], base, base1) && MeetsRange(v.levels[level + 1], in0, in1)
    requires Enlarged(v, level, base, base1, in0) && Grows(base, base1, in0, in1, maxFileSize)
    requires GoodStart(v, level, base)
    ensures FileSet(base) <= FileSet(in0) && in1 == base1
  {
    hide Shape, MeetsRange, Enlarged, GoodStart;
    StartSelected(v, level, base);
    EnlargedKeeps(v, level, base, base1, in0);
    WiderMeetsMore(v.levels[level + 1], base, base1, in0, in1);
  }

  lemma EnlargedKeeps(v: Version, level: nat, base: seq<File>, base1: seq<File>, r: seq<File>)
    requires level < |v.levels| && Enlarged(v, level, base, base1, r) && FileSet(base) <= FileSet(v.levels[level])
    ensures FileSet(base) <= FileSet(r)
  {
    hide Least, ClosedRange, NoBoundary, NextBoundary;
    var lo, hi, found :| IsSmallest(base + base1, lo) && IsLargest(base + base1, hi)
      && OverlapsFound(v.levels[level], level == 0, Some(lo.user), Some(hi.user), found)
      && BoundaryClosure(v.levels[level], found, r);
    var b, e := Some(lo.user), Some(hi.user);
    if level == 0 {
      b, e :| ClosedRange(v.levels[0], b, e) && Contains(b, e, Some(lo.user), Some(hi.user))
        && Least(v.levels[0], Some(lo.user), Some(hi.user), b, e) && found == Overlapping(v.levels[0], b, e);
    }
    InRange(base, base1, lo, hi);
    OverlapKeeps(v.levels[level], base, Some(lo.user), Some(hi.user), b, e);
    assert forall f :: f in found ==> f in r;
  }

  lemma {:induction false} WiderFindsMore(fs: seq<File>, b: Option<UserKey>, e: Option<UserKey>, b2: Option<UserKey>,
                                          e2: Option<UserKey>)
    requires forall f: File :: Overlaps(f, b, e) ==> Overlaps(f, b2, e2)
    ensures |Overlapping(fs, b, e)| <= |Overlapping(fs, b2, e2)|
    ensures |Overlapping(fs, b, e)| == |Overlapping(fs, b2, e2)| ==> Overlapping(fs, b, e) == Overlapping(fs, b2, e2)
  {
    if fs != [] {
      WiderFindsMore(fs[..|fs| - 1], b, e, b2, e2);
    }
  }

  lemma NarrowerRange(files: seq<File>, more: seq<File>, lo: InternalKey, hi: InternalKey, lo2: InternalKey,
                      hi2: InternalKey)
    requires FileSet(files) <= FileSet(more) && IsSmallest(files, lo) && IsLargest(files, hi)
    requires IsSmallest(more, lo2) && IsLargest(more, hi2)
    ensures lo2.user <= lo.user && hi.user <= hi2.user
  {
    RangeEncloses(more, lo2, hi2);
    var i :| 0 <= i < |files| && files[i].Smallest() == lo;
    var j :| 0 <= j < |files| && files[j].Largest() == hi;
    assert files[i] in FileSet(files) && files[j] in FileSet(files);
  }

  // More files meet at least as much.
  lemma WiderMeetsMore(fs: seq<File>, files: seq<File>, met: seq<File>, more: seq<File>, met2: seq<File>)
    requires FileSet(files) <= FileSet(more) && MeetsRange(fs, files, met) && MeetsRange(fs, more, met2)
    ensures |met| <= |met2| && (|met| == |met2| ==> met == met2)
  {
    var lo, hi :| IsSmallest(files, lo) && IsLargest(files, hi) && met == Overlapping(fs, Some(lo.user), Some(hi.user));
    var lo2, hi2 :|
      IsSmallest(more, lo2) && IsLargest(more, hi2) && met2 == Overlapping(fs, Some(lo2.user), Some(hi2.user));
    hide IsSmallest, IsLargest, Overlapping, Within;
    NarrowerRange(files, more, lo, hi, lo2, hi2);
    WiderFindsMore(fs, Some(lo.user), Some(hi.user), Some(lo2.user), Some(hi2.user));
  }

  // SetupOtherInputs: close the level inputs, take the overlapping next-level files, and grow the
  // level inputs when that costs no further next-level file.
  method SetupOtherInputs(v: Version, level: nat, start: seq<File>, maxFileSize: nat)
    returns (in0: seq<File>, in1: seq<File>, grandparents: seq<File>, smallest: InternalKey, largest: InternalKey)
    requires Shape(v) && OneWrite(VersionEntries(v)) && level + 1 < |v.levels| && GoodStart(v, level, start)
    ensures GoodInputs(v, Inputs(level, FileSet(in0), FileSet(in1), smallest.user, largest.user))
    ensures FileSet(start) <= FileSet(in0) && InOrder(in1)
    ensures if level == 0 then BySmallest(in0) else InOrder(in0)
    ensures IsSmallest(in0, smallest) && IsLargest(in0, largest)
    ensures |v.levels| == NUM_LEVELS && SetUp(v, level, start, maxFileSize, in0, in1, grandparents)
  {
    hide IsSmallest, IsLargest, Overlapping, GoodInputs, BoundaryClosure, GrownFrom, OneWrite, InOrder;
    var base := CloseBoundary(v, level, start);
    var lo, hi := GetRange(base);
    ghost var b, e;
    var base1;
    base1, b, e := GetOverlappingInputs(v.levels[level + 1], false, Some(lo.user), Some(hi.user));
    assert MeetsRange(v.levels[level + 1], base, base1);
    in0, in1 := Grow(v, level, base, base1, maxFileSize);
    smallest, largest := GetRange(in0);
    RangeMet(v.levels[level + 1], in0, in1, smallest, largest);
    GoodInputsHold(v, level, in0, in1, smallest, largest);
    StartOrdered(v, level, in0);
    grandparents := [];
    if level + 2 < NUM_LEVELS {
      var allStart, allLimit := GetRange(in0 + in1);
      grandparents, b, e := GetOverlappingInputs(v.levels[level + 2], false, Some(allStart.user), Some(allLimit.user));
    }
  }

  lemma RangeMet(fs: seq<File>, files: seq<File>, r: seq<File>, lo: InternalKey, hi: InternalKey)
    requires MeetsRange(fs, files, r) && IsSmallest(files, lo) && IsLargest(files, hi)
    ensures r == Overlapping(fs, Some(lo.user), Some(hi.user))
  {
    var lo2, hi2 :| IsSmallest(files, lo2) && IsLargest(files, hi2)
      && r == Overlapping(fs, Some(lo2.user), Some(hi2.user));
    LargestUnique(files, hi, hi2);
    var i :| 0 <= i < |files| && files[i].Smallest() == lo;
    var j :| 0 <= j < |files| && files[j].Smallest() == lo2;
    assert !Less(lo, lo2) && !Less(lo2, lo);
  }

  // Grows the level inputs when that costs no further next-level file.
  method Grow(v: Version, level: nat, base: seq<File>, base1: seq<File>, maxFileSize: nat)
    returns (in0: seq<File>, in1: seq<File>)
    requires Shape(v) && level + 1 < |v.levels| && GoodStart(v, level, base) && NoBoundary(v.levels[level], base)
    requires MeetsRange(v.levels[level + 1], base, base1)
    ensures GoodStart(v, level, in0) && NoBoundary(v.levels[level], in0) && FileSet(base) <= FileSet(in0)
    ensures MeetsRange(v.levels[level + 1], in0, in1)
    ensures GrownFrom(v, level, base, base1, in0, in1, maxFileSize)
  {
    hide IsSmallest, IsLargest, Overlapping, Shape, NoBoundary, GoodStart, Enlarged;
    var next := v.levels[level + 1];
    in0, in1 := base, base1;
    if base1 != [] {
      var allStart, allLimit := GetRange(base + base1);
      var expanded0 := Expand(v, level, base, base1, allStart, allLimit);
      if |expanded0| > |base| && TotalFileSize(base1) + TotalFileSize(expanded0) < 25 * maxFileSize {
        var newStart, newLimit := GetRange(expanded0);
        ghost var b, e;
        var expanded1;
        expanded1, b, e := GetOverlappingInputs(next, false, Some(newStart.user), Some(newLimit.user));
        assert MeetsRange(next, expanded0, expanded1);
        forall r1 | MeetsRange(next, expanded0, r1) ensures r1 == expanded1 {
          RangeMet(next, expanded0, r1, newStart, newLimit);
        }
        if |expanded1| == |base1| {
          in0, in1 := expanded0, expanded1;
        }
      }
      assert Enlarged(v, level, base, base1, expanded0);
    }
  }

  method Expand(v: Version, level: nat, in0: seq<File>, in1: seq<File>, allStart: InternalKey, allLimit: InternalKey)
    returns (r: seq<File>)
    requires Shape(v) && level < |v.levels| && GoodStart(v, level, in0)
    requires IsSmallest(in0 + in1, allStart) && IsLargest(in0 + in1, allLimit)
    ensures GoodStart(v, level, r) && NoBoundary(v.levels[level], r) && FileSet(in0) <= FileSet(r)
    ensures Enlarged(v, level, in0, in1, r)
  {
    ghost var b, e;
    var found;
    found, b, e := GetOverlappingInputs(v.levels[level], level == 0, Some(allStart.user), Some(allLimit.user));
    InRange(in0, in1, allStart, allLimit);
    StartSelected(v, level, in0);
    OverlapKeeps(v.levels[level], in0, Some(allStart.user), Some(allLimit.user), b, e);
    assert in0[0] in FileSet(in0);
    OverlapLegal(v, level, b, e);
    r := CloseBoundary(v, level, found);
  }

  // ---- Placing a flushed memtable, and picking a compaction ----

  const MAX_MEM_COMPACT_LEVEL: nat := 2

  // A file of the level shares part of the user-key range of f.
  ghost predicate Meets(fs: seq<File>, f: File) {
    exists i :: 0 <= i < |fs| && fs[i].Smallest().user <= f.Largest().user && f.Smallest().user <= fs[i].Largest().user
  }

  // A flushed table stays at this level: the next level holds part of its range, or the one after that too
  // many bytes of it.
  ghost predicate StaysAt(v: Version, level: nat, f: File, maxFileSize: nat)
    requires level + 1 < NUM_LEVELS == |v.levels|
  {
    Meets(v.levels[level + 1], f)
    || (level + 2 < NUM_LEVELS && BytesMet(v.levels[level + 2], f) > 10 * maxFileSize)
  }

  // The bytes of the files of the level that share part of the range of f.
  ghost function BytesMet(fs: seq<File>, f: File): nat {
    if fs == [] then
      0
    else
      var g := fs[|fs| - 1];
      BytesMet(fs[..|fs| - 1], f)
      + if g.Smallest().user <= f.Largest().user && f.Smallest().user <= g.Largest().user then g.size else 0
  }

  lemma {:induction false} BytesOverlapping(fs: seq<File>, f: File)
    ensures TotalFileSize(Overlapping(fs, Some(f.Smallest().user), Some(f.Largest().user))) == BytesMet(fs, f)
  {
    if fs != [] {
      var init, g := fs[..|fs| - 1], fs[|fs| - 1];
      BytesOverlapping(init, f);
      var found := Overlapping(init, Some(f.Smallest().user), Some(f.Largest().user));
      TotalOfConcat(found, [g]);
      assert found + [] == found;
    }
  }

  // The level for a flushed table: it goes down from level 0 as far as nothing keeps it.
  ghost predicate LevelFor(v: Version, f: File, maxFileSize: nat, level: nat)
    requires |v.levels| == NUM_LEVELS
  {
    level <= 2
    && (level > 0 ==> !Meets(v.levels[0], f))
    && (forall l :: 0 <= l < level ==> !StaysAt(v, l, f, maxFileSize))
    && (level == 2 || StaysAt(v, level, f, maxFileSize) || (level == 0 && Meets(v.levels[0], f)))
  }

  method PickLevelForMemTableOutput(v: Version, f: File, maxFileSize: nat) returns (level: nat)
    requires Shape(v)
    ensures Placeable(v, level, f) && LevelFor(v, f, maxFileSize, level)
  {
    var lo, hi := f.Smallest().user, f.Largest().user;
    level := 0;
    var overlap := SomeFileOverlapsRange(false, v.levels[0], Some(lo), Some(hi));
    if overlap {
      return;
    }
    assert ClearOf(v.levels[0], f);
    while level < MAX_MEM_COMPACT_LEVEL
      invariant level <= MAX_MEM_COMPACT_LEVEL && !Meets(v.levels[0], f)
      invariant forall l :: 0 <= l <= level ==> ClearOf(v.levels[l], f)
      invariant forall l :: 0 <= l < level ==> !StaysAt(v, l, f, maxFileSize)
    {
      overlap := SomeFileOverlapsRange(true, v.levels[level + 1], Some(lo), Some(hi));
      if overlap {
        break;
      }
      assert ClearOf(v.levels[level + 1], f);
      if level + 2 < NUM_LEVELS {
        ghost var b, e;
        var overlaps;
        overlaps, b, e := GetOverlappingInputs(v.levels[level + 2], false, Some(lo), Some(hi));
        BytesOverlapping(v.levels[level + 2], f);
        if TotalFileSize(overlaps) > 10 * maxFileSize {
          break;
        }
      }
      level := level + 1;
    }
  }

  // The one-file start of an automatic compaction, closed under overlap at level 0.
  method PickCompaction(v: Version, level: nat, picked: File) returns (start: seq<File>)
    requires Shape(v) && level + 1 < NUM_LEVELS && picked in v.levels[level]
    ensures GoodStart(v, level, start) && picked in start
    ensures if level > 0 then start == [picked] else
      OverlapsFound(v.levels[0], true, Some(picked.Smallest().user), Some(picked.Largest().user), start)
  {
    start := [picked];
    if level == 0 {
      var smallest, largest := GetRange(start);
      FileBounds(picked, picked.run[0]);
      ghost var b, e;
      start, b, e := GetOverlappingInputs(v.levels[0], true, Some(smallest.user), Some(largest.user));
      OverlappingMembers(v.levels[0], b, e);
      assert Overlaps(picked, b, e);
    } else {
      SingleConvex(v.levels[level], picked);
    }
  }

  lemma SingleConvex(fs: seq<File>, f: File)
    requires InOrder(fs) && f in fs
    ensures InOrder([f]) && FileSet([f]) <= FileSet(fs) && Convex(fs, FileSet([f]))
  {
    forall i, m | 0 <= i < m < |fs| ensures fs[i] != fs[m] {
      OrderedEnds(fs, i, m);
    }
  }

  // fs[i] is past the compaction pointer, if there is one.
  predicate PastPointer(fs: seq<File>, pointer: Option<InternalKey>, i: nat)
    requires i < |fs|
  {
    pointer.None? || Less(pointer.value, fs[i].Largest())
  }

  // The round-robin choice of a size compaction: the first file past the compaction pointer, or round
  // again to the first of the level.
  method PickBySize(v: Version, level: nat, pointer: Option<InternalKey>) returns (picked: File, ghost i: nat)
    requires level < |v.levels| && v.levels[level] != []
    ensures i < |v.levels[level]| && picked == v.levels[level][i]
    ensures forall j :: 0 <= j < i ==> !PastPointer(v.levels[level], pointer, j)
    ensures PastPointer(v.levels[level], pointer, i)
      || (i == 0 && forall j :: 0 <= j < |v.levels[level]| ==> !PastPointer(v.levels[level], pointer, j))
  {
    for n := 0 to |v.levels[level]|
      invariant forall j :: 0 <= j < n ==> !PastPointer(v.levels[level], pointer, j)
    {
      if PastPointer(v.levels[level], pointer, n) {
        return v.levels[level][n], n;
      }
    }
    picked, i := v.levels[level][0], 0;
  }

  // The shortest nonempty beginning of the files that is large enough, or all of them.
  ghost predicate CutShort(files: seq<File>, maxFileSize: nat, r: seq<File>) {
    r <= files && (files != [] ==> r != [])
    && (r == files || TotalFileSize(r) >= maxFileSize)
    && forall n :: 0 < n < |r| ==> TotalFileSize(r[..n]) < maxFileSize
  }

  // Manual compaction: the overlapping files, cut short above level 0 once they are large enough.
  method CompactRange(v: Version, level: nat, begin: Option<UserKey>, end: Option<UserKey>, maxFileSize: nat)
    returns (start: seq<File>)
    requires Shape(v) && level + 1 < NUM_LEVELS
    ensures start == [] <==> !exists i :: 0 <= i < |v.levels[level]| && Overlaps(v.levels[level][i], begin, end)
    ensures start != [] ==> GoodStart(v, level, start)
    ensures if level == 0 then OverlapsFound(v.levels[0], true, begin, end, start)
      else CutShort(Overlapping(v.levels[level], begin, end), maxFileSize, start)
  {
    ghost var b, e;
    start, b, e := GetOverlappingInputs(v.levels[level], level == 0, begin, end);
    OverlappingMembers(v.levels[level], b, e);
    if start == [] {
      assert forall i :: 0 <= i < |v.levels[level]| ==> v.levels[level][i] in v.levels[level];
      return;
    }
    OverlapLegal(v, level, b, e);
    if level == 0 {
      StartMeets(v.levels[0], begin, end, b, e, start);
      return;
    }
    assert start[0] in start;
    ghost var all := start;
    start := CutInputs(start, maxFileSize);
    assert start == all[..|start|];
    PrefixLegal(v, level, all, |start|);
  }

  method CutInputs(files: seq<File>, maxFileSize: nat) returns (r: seq<File>)
    ensures CutShort(files, maxFileSize, r)
  {
    var total := 0;
    for i := 0 to |files|
      invariant total == TotalFileSize(files[..i])
      invariant forall n :: 0 < n <= i ==> TotalFileSize(files[..n]) < maxFileSize
    {
      assert files[..i + 1][..i] == files[..i];
      total := total + files[i].size;
      if total >= maxFileSize {
        r := files[..i + 1];
        assert forall n :: 0 < n < |r| ==> r[..n] == files[..n];
        return;
      }
    }
    r := files;
  }

  lemma PrefixLegal(v: Version, level: nat, files: seq<File>, n: nat)
    requires Shape(v) && 0 < level < |v.levels| && GoodStart(v, level, files) && 0 < n <= |files|
    ensures GoodStart(v, level, files[..n])
  {
    var fs := v.levels[level];
    forall i, j, m | 0 <= i < j < m < |fs| && fs[i] in FileSet(files[..n]) && fs[m] in FileSet(files[..n])
      ensures fs[j] in FileSet(files[..n])
    {
      var q :| 0 <= q < n && files[q] == fs[m];
      assert fs[i] in FileSet(files) && fs[m] in FileSet(files);
      assert fs[j] in FileSet(files);
      var p :| 0 <= p < |files| && files[p] == fs[j];
      OrderedEnds(fs, j, m);
      if q < p { OrderedEnds(files, q, p); }
      assert files[..n][p] == fs[j];
    }
  }

  // If the widened level-0 range meets a file, so does the range asked for.
  lemma StartMeets(fs: seq<File>, b0: Option<UserKey>, e0: Option<UserKey>, b: Option<UserKey>, e: Option<UserKey>,
                   start: seq<File>)
    requires Least(fs, b0, e0, b, e) && start == Overlapping(fs, b, e) && start != []
    ensures exists i :: 0 <= i < |fs| && Overlaps(fs[i], b0, e0)
  {
    if !exists i :: 0 <= i < |fs| && Overlaps(fs[i], b0, e0) {
      assert ClosedRange(fs, b0, e0) && Contains(b0, e0, b0, e0);
      OverlappingMembers(fs, b, e);
      assert start[0] in start;
      var i :| 0 <= i < |fs| && fs[i] == start[0];
      assert Overlaps(fs[i], b0, e0);
    }
  }

  // Compaction::IsTrivialMove.
  predicate IsTrivialMove(in0: seq<File>, in1: seq<File>, grandparents: seq<File>, maxFileSize: nat) {
    |in0| == 1 && |in1| == 0 && TotalFileSize(grandparents) <= 10 * maxFileSize
  }
}
