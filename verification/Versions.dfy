// A version: seven levels of sorted tables, and point lookup in it (db/version_set.cc).

module Versions {
  import opened DbFormat

  const NUM_LEVELS: nat := 7

  // FileMetaData together with the table's contents; smallest and largest are its end entries.
  datatype FileMeta = FileMeta(number: nat, size: nat, run: seq<Entry>) {
    ghost predicate Valid() {
      run != [] && Sorted(run)
    }

    function Smallest(): InternalKey
      requires run != []
    {
      run[0].Key()
    }

    function Largest(): InternalKey
      requires run != []
    {
      run[|run| - 1].Key()
    }
  }

  // A table is never empty, and is sorted.
  type File = f: FileMeta | f.Valid() witness FileMeta(0, 0, [Entry(0.0, 0, Put, [])])

  datatype Version = Version(levels: seq<seq<File>>)

  const EMPTY_VERSION := Version([[], [], [], [], [], [], []])

  ghost function FileSet(fs: seq<File>): set<File> {
    set f | f in fs
  }

  ghost function EntriesOf(F: set<File>): set<Entry> {
    set f, e | f in F && e in f.run :: e
  }

  ghost function LevelEntries(v: Version, l: nat): set<Entry>
    requires l < |v.levels|
  {
    EntriesOf(FileSet(v.levels[l]))
  }

  ghost function VersionEntries(v: Version): set<Entry> {
    set l, e | 0 <= l < |v.levels| && e in LevelEntries(v, l) :: e
  }

  // Levels above zero: files in key order, no two sharing an internal key.
  ghost predicate InOrder(fs: seq<File>) {
    forall i, j :: 0 <= i < j < |fs| ==> Less(fs[i].Largest(), fs[j].Smallest())
  }

  // Where both hold entries for a key, every entry of A is newer than every entry of B.
  ghost predicate Newer(A: set<Entry>, B: set<Entry>) {
    forall a, b :: a in A && b in B && a.user == b.user ==> a.sn > b.sn
  }

  // BySmallestKey: smallest key first, ties broken by file number.
  predicate FileLess(f: File, g: File) {
    Less(f.Smallest(), g.Smallest()) || (f.Smallest() == g.Smallest() && f.number < g.number)
  }

  ghost predicate BySmallest(fs: seq<File>) {
    forall i, j :: 0 <= i < j < |fs| ==> FileLess(fs[i], fs[j])
  }

  ghost predicate Shape(v: Version) {
    |v.levels| == NUM_LEVELS
    && BySmallest(v.levels[0])
    && forall l :: 1 <= l < NUM_LEVELS ==> InOrder(v.levels[l])
  }

  // File numbers name files.
  ghost predicate NumbersName(v: Version) {
    forall l, m, f, g ::
      0 <= l < |v.levels| && 0 <= m < |v.levels| && f in v.levels[l] && g in v.levels[m]
      && f.number == g.number
      ==> f == g
  }

  ghost predicate UniqueNumbers(F: set<File>) {
    forall f, g :: f in F && g in F && f.number == g.number ==> f == g
  }

  // A level-0 file with a larger number holds newer data.
  ghost predicate Level0Recency(F: set<File>) {
    forall f, g :: f in F && g in F && f.number > g.number ==> Newer(Elements(f.run), Elements(g.run))
  }

  // Entries never overtake each other on the way down.
  ghost predicate LevelRecency(v: Version) {
    forall l, m :: 0 <= l < m < |v.levels| ==> Newer(LevelEntries(v, l), LevelEntries(v, m))
  }

  ghost predicate Valid(v: Version) {
    Shape(v) && NumbersName(v) && OneWrite(VersionEntries(v))
    && Level0Recency(FileSet(v.levels[0])) && LevelRecency(v)
  }

  lemma FileBounds(f: File, e: Entry)
    requires e in f.run
    ensures !Less(e.Key(), f.Smallest()) && !Less(f.Largest(), e.Key())
    ensures f.Smallest().user <= e.user <= f.Largest().user
  {
    var i :| 0 <= i < |f.run| && f.run[i] == e;
    if i > 0 { assert Less(f.run[0].Key(), f.run[i].Key()); }
    if i < |f.run| - 1 { assert Less(f.run[i].Key(), f.run[|f.run| - 1].Key()); }
  }

  lemma InLevel(fs: seq<File>, i: nat, e: Entry)
    requires i < |fs| && e in fs[i].run
    ensures e in EntriesOf(FileSet(fs))
  {
    assert fs[i] in FileSet(fs);
  }

  lemma FromLevel(fs: seq<File>, e: Entry) returns (i: nat)
    requires e in EntriesOf(FileSet(fs))
    ensures i < |fs| && e in fs[i].run
  {
    var f :| f in FileSet(fs) && e in f.run;
    i :| 0 <= i < |fs| && fs[i] == f;
  }

  lemma OneWriteFile(fs: seq<File>, f: File)
    requires f in fs && OneWrite(EntriesOf(FileSet(fs)))
    ensures OneWrite(Elements(f.run))
  {
    var p :| 0 <= p < |fs| && fs[p] == f;
    forall e | e in f.run ensures e in EntriesOf(FileSet(fs)) {
      InLevel(fs, p, e);
    }
  }

  lemma OrderedEnds(fs: seq<File>, i: nat, j: nat)
    requires InOrder(fs) && i < j < |fs|
    ensures Less(fs[i].Largest(), fs[j].Largest()) && Less(fs[i].Smallest(), fs[j].Smallest())
  {
    assert Less(fs[i].Largest(), fs[j].Smallest());
    FileBounds(fs[i], fs[i].run[0]);
    FileBounds(fs[j], fs[j].run[0]);
  }

  // Earliest file whose largest key is at or after the key.
  method FindFile(fs: seq<File>, key: InternalKey) returns (index: nat)
    requires InOrder(fs)
    ensures index <= |fs|
    ensures forall i :: 0 <= i < index ==> Less(fs[i].Largest(), key)
    ensures forall i :: index <= i < |fs| ==> !Less(fs[i].Largest(), key)
  {
    var left, right := 0, |fs|;
    while left < right
      invariant 0 <= left <= right <= |fs|
      invariant forall i :: 0 <= i < left ==> Less(fs[i].Largest(), key)
      invariant forall i :: right <= i < |fs| ==> !Less(fs[i].Largest(), key)
    {
      var mid := (left + right) / 2;
      forall i | 0 <= i < mid ensures Less(fs[i].Largest(), fs[mid].Largest()) {
        OrderedEnds(fs, i, mid);
      }
      forall i | mid < i < |fs| ensures Less(fs[mid].Largest(), fs[i].Largest()) {
        OrderedEnds(fs, mid, i);
      }
      if Less(fs[mid].Largest(), key) {
        left := mid + 1;
      } else {
        right := mid;
      }
    }
    index := right;
  }

  // What FindFile establishes for a lookup of k at snapshot s.
  ghost predicate Found(fs: seq<File>, k: UserKey, s: SequenceNumber, index: nat) {
    index <= |fs|
    && (forall i :: 0 <= i < index ==> Less(fs[i].Largest(), SeekKey(k, s)))
    && (forall i :: index <= i < |fs| ==> !Less(fs[i].Largest(), SeekKey(k, s)))
  }

  // Files before the found one hold nothing visible.
  lemma BeforeFound(fs: seq<File>, k: UserKey, s: SequenceNumber, index: nat, i: nat, e: Entry)
    requires Found(fs, k, s, index) && i < index && e in fs[i].run && e.user == k
    ensures e.sn > s
  {
    FileBounds(fs[i], e);
  }

  // Entries for k in later files are older than the found file's last entry, which is visible.
  lemma AfterFound(fs: seq<File>, k: UserKey, s: SequenceNumber, index: nat, i: nat, e: Entry)
    requires InOrder(fs) && Found(fs, k, s, index) && index < i < |fs| && e in fs[i].run && e.user == k
    ensures fs[index].Largest().user == k && e.sn <= fs[index].Largest().sn <= s
    ensures fs[index].Smallest().user <= k
  {
    FileBounds(fs[i], e);
    assert Less(fs[index].Largest(), fs[i].Smallest());
    FileBounds(fs[index], fs[index].run[0]);
  }

  lemma LevelMiss(fs: seq<File>, k: UserKey, s: SequenceNumber, index: nat)
    requires InOrder(fs) && Found(fs, k, s, index)
    requires index == |fs| || k < fs[index].Smallest().user
    ensures Newest(EntriesOf(FileSet(fs)), k, s) == None
  {
    forall e | e in EntriesOf(FileSet(fs)) ensures e.user == k ==> e.sn > s {
      if e.user == k {
        var i := FromLevel(fs, e);
        if i < index {
          BeforeFound(fs, k, s, index, i, e);
        } else if i == index {
          FileBounds(fs[i], e);
        } else {
          AfterFound(fs, k, s, index, i, e);
        }
      }
    }
    NewestNone(EntriesOf(FileSet(fs)), k, s);
  }

  lemma LevelHit(fs: seq<File>, k: UserKey, s: SequenceNumber, index: nat)
    requires InOrder(fs) && OneWrite(EntriesOf(FileSet(fs)))
    requires Found(fs, k, s, index) && index < |fs|
    ensures Newest(EntriesOf(FileSet(fs)), k, s) == Newest(Elements(fs[index].run), k, s)
  {
    var E, R := EntriesOf(FileSet(fs)), Elements(fs[index].run);
    forall e | e in R ensures e in E {
      InLevel(fs, index, e);
    }
    forall e | e in E && e.user == k && e.sn <= s ensures Dominated(R, k, s, e) {
      var i := FromLevel(fs, e);
      if i < index {
        BeforeFound(fs, k, s, index, i, e);
      } else if i == index {
        assert e in R;
      } else {
        AfterFound(fs, k, s, index, i, e);
        assert fs[index].run[|fs[index].run| - 1] in R;
      }
    }
    NewestInSubset(E, R, k, s);
  }

  // R holds an entry for k visible at s that is no older than e.
  ghost predicate Dominated(R: set<Entry>, k: UserKey, s: SequenceNumber, e: Entry) {
    exists o :: o in R && o.user == k && e.sn <= o.sn <= s
  }

  lemma NewestInSubset(E: set<Entry>, R: set<Entry>, k: UserKey, s: SequenceNumber)
    requires OneWrite(E) && R <= E
    requires forall e {:trigger Dominated(R, k, s, e)} ::
      e in E && e.user == k && e.sn <= s ==> Dominated(R, k, s, e)
    ensures Newest(E, k, s) == Newest(R, k, s)
  {
    NewestNone(R, k, s);
    if Newest(E, k, s).Some? {
      assert Dominated(R, k, s, Newest(E, k, s).value);
      var e := Newest(R, k, s).value;
      forall o | o in E && o.user == k && o.sn <= s ensures o.sn <= e.sn {
        assert Dominated(R, k, s, o);
      }
      assert IsNewest(E, k, s, e);
      NewestIs(E, k, s, e);
    } else {
      NewestNone(E, k, s);
    }
  }

  // Version::Get inside one level above zero.
  method SortedLevelGet(fs: seq<File>, k: UserKey, s: SequenceNumber) returns (r: Option<Entry>)
    requires InOrder(fs) && OneWrite(EntriesOf(FileSet(fs)))
    ensures r == Newest(EntriesOf(FileSet(fs)), k, s)
  {
    var index := FindFile(fs, SeekKey(k, s));
    if index >= |fs| || k < fs[index].Smallest().user {
      LevelMiss(fs, k, s, index);
      r := None;
    } else {
      LevelHit(fs, k, s, index);
      OneWriteFile(fs, fs[index]);
      r := RunGet(fs[index].run, k, s);
    }
  }

  predicate NewestFirst(fs: seq<File>) {
    forall i, j :: 0 <= i < j < |fs| ==> fs[i].number >= fs[j].number
  }

  method InsertByNumber(fs: seq<File>, f: File) returns (r: seq<File>)
    requires NewestFirst(fs)
    ensures NewestFirst(r) && multiset(r) == multiset(fs) + multiset{f}
  {
    var p := 0;
    while p < |fs| && fs[p].number >= f.number
      invariant 0 <= p <= |fs|
      invariant forall j :: 0 <= j < p ==> fs[j].number >= f.number
    {
      p := p + 1;
    }
    r := fs[..p] + [f] + fs[p..];
    InsertedFile(fs, f, p);
  }

  lemma InsertedFile(fs: seq<File>, f: File, p: nat)
    requires p <= |fs|
    ensures multiset(fs[..p] + [f] + fs[p..]) == multiset(fs) + multiset{f}
  {
    assert fs == fs[..p] + fs[p..];
  }

  // std::sort by decreasing file number.
  method SortNewestFirst(fs: seq<File>) returns (r: seq<File>)
    ensures NewestFirst(r) && multiset(r) == multiset(fs)
  {
    r := [];
    for i := 0 to |fs|
      invariant NewestFirst(r) && multiset(r) == multiset(fs[..i])
    {
      assert fs[..i + 1] == fs[..i] + [fs[i]];
      r := InsertByNumber(r, fs[i]);
    }
    assert fs[..|fs|] == fs;
  }

  lemma SameMembers(a: seq<File>, b: seq<File>)
    requires multiset(a) == multiset(b)
    ensures forall f :: f in a <==> f in b
  {
    forall f: File ensures f in a <==> f in b {
      assert f in a <==> f in multiset(a);
      assert f in b <==> f in multiset(b);
    }
  }

  predicate Covers(f: File, k: UserKey) {
    f.Smallest().user <= k <= f.Largest().user
  }

  // The level-0 files whose range covers k.
  method Covering(fs: seq<File>, k: UserKey) returns (r: seq<File>)
    ensures forall f :: f in r <==> f in fs && Covers(f, k)
  {
    r := [];
    for i := 0 to |fs|
      invariant forall f :: f in r <==> f in fs[..i] && Covers(f, k)
    {
      assert fs[..i + 1] == fs[..i] + [fs[i]];
      if Covers(fs[i], k) {
        r := r + [fs[i]];
      }
    }
    assert fs[..|fs|] == fs;
  }

  // The first covering file, newest first, with a visible entry for k holds the newest one.
  lemma Level0Hit(fs: seq<File>, files: seq<File>, k: UserKey, s: SequenceNumber, i: nat)
    requires OneWrite(EntriesOf(FileSet(fs))) && Level0Recency(FileSet(fs)) && NewestFirst(files)
    requires UniqueNumbers(FileSet(fs))
    requires forall f :: f in files <==> f in fs && Covers(f, k)
    requires i < |files|
    requires forall j :: 0 <= j < i ==> Newest(Elements(files[j].run), k, s) == None
    requires Newest(Elements(files[i].run), k, s) != None
    ensures Newest(EntriesOf(FileSet(fs)), k, s) == Newest(Elements(files[i].run), k, s)
  {
    var E, f := EntriesOf(FileSet(fs)), files[i];
    NewestNone(Elements(f.run), k, s);
    var e := Newest(Elements(f.run), k, s).value;
    assert f in files;
    var p :| 0 <= p < |fs| && fs[p] == f;
    InLevel(fs, p, e);
    forall o | o in E && o.user == k && o.sn <= s ensures o.sn <= e.sn {
      Level0Older(fs, files, k, s, i, e, o);
    }
    assert IsNewest(E, k, s, e);
    NewestIs(E, k, s, e);
  }

  lemma Level0Older(fs: seq<File>, files: seq<File>, k: UserKey, s: SequenceNumber, i: nat, e: Entry, o: Entry)
    requires Level0Recency(FileSet(fs)) && UniqueNumbers(FileSet(fs)) && NewestFirst(files)
    requires forall f :: f in files <==> f in fs && Covers(f, k)
    requires i < |files| && IsNewest(Elements(files[i].run), k, s, e)
    requires forall j :: 0 <= j < i ==> Newest(Elements(files[j].run), k, s) == None
    requires o in EntriesOf(FileSet(fs)) && o.user == k && o.sn <= s
    ensures o.sn <= e.sn
  {
    var q := FromLevel(fs, o);
    var f, g := files[i], fs[q];
    FileBounds(g, o);
    assert f in files && g in files;
    var j :| 0 <= j < |files| && files[j] == g;
    assert o in Elements(g.run);
    if j < i {
      NewestNone(Elements(g.run), k, s);
    } else if j > i {
      assert f in FileSet(fs) && g in FileSet(fs);
      if f.number != g.number {
        assert Newer(Elements(f.run), Elements(g.run));
      }
    }
  }

  lemma Level0Miss(fs: seq<File>, files: seq<File>, k: UserKey, s: SequenceNumber)
    requires forall f :: f in files <==> f in fs && Covers(f, k)
    requires forall j :: 0 <= j < |files| ==> Newest(Elements(files[j].run), k, s) == None
    ensures Newest(EntriesOf(FileSet(fs)), k, s) == None
  {
    forall e | e in EntriesOf(FileSet(fs)) ensures e.user == k ==> e.sn > s {
      if e.user == k {
        var q := FromLevel(fs, e);
        FileBounds(fs[q], e);
        assert fs[q] in files;
        var j :| 0 <= j < |files| && files[j] == fs[q];
        NewestNone(Elements(files[j].run), k, s);
        assert e in Elements(files[j].run);
      }
    }
    NewestNone(EntriesOf(FileSet(fs)), k, s);
  }

  // Version::Get inside level 0: covering files, newest first.
  method Level0Get(fs: seq<File>, k: UserKey, s: SequenceNumber) returns (r: Option<Entry>)
    requires OneWrite(EntriesOf(FileSet(fs))) && Level0Recency(FileSet(fs))
    requires UniqueNumbers(FileSet(fs))
    ensures r == Newest(EntriesOf(FileSet(fs)), k, s)
  {
    var tmp := Covering(fs, k);
    var files := SortNewestFirst(tmp);
    SameMembers(files, tmp);
    for i := 0 to |files|
      invariant forall j :: 0 <= j < i ==> Newest(Elements(files[j].run), k, s) == None
    {
      assert files[i] in files;
      OneWriteFile(fs, files[i]);
      r := RunGet(files[i].run, k, s);
      if r.Some? {
        Level0Hit(fs, files, k, s, i);
        return;
      }
    }
    Level0Miss(fs, files, k, s);
    r := None;
  }

  lemma LevelInVersion(v: Version, l: nat)
    requires l < |v.levels|
    ensures LevelEntries(v, l) <= VersionEntries(v)
  {
  }

  lemma FirstLevelHit(v: Version, k: UserKey, s: SequenceNumber, level: nat)
    requires LevelRecency(v) && OneWrite(VersionEntries(v)) && level < |v.levels|
    requires forall l :: 0 <= l < level ==> Newest(LevelEntries(v, l), k, s) == None
    requires Newest(LevelEntries(v, level), k, s) != None
    ensures Newest(VersionEntries(v), k, s) == Newest(LevelEntries(v, level), k, s)
  {
    var E := VersionEntries(v);
    var e := Newest(LevelEntries(v, level), k, s).value;
    NewestNone(LevelEntries(v, level), k, s);
    forall o | o in E && o.user == k && o.sn <= s ensures o.sn <= e.sn {
      var m :| 0 <= m < |v.levels| && o in LevelEntries(v, m);
      NewestNone(LevelEntries(v, m), k, s);
      if m > level { assert Newer(LevelEntries(v, level), LevelEntries(v, m)); }
    }
    assert IsNewest(E, k, s, e);
    NewestIs(E, k, s, e);
  }

  lemma NoLevelHit(v: Version, k: UserKey, s: SequenceNumber)
    requires forall l :: 0 <= l < |v.levels| ==> Newest(LevelEntries(v, l), k, s) == None
    ensures Newest(VersionEntries(v), k, s) == None
  {
    forall e | e in VersionEntries(v) ensures e.user == k ==> e.sn > s {
      var m :| 0 <= m < |v.levels| && e in LevelEntries(v, m);
      NewestNone(LevelEntries(v, m), k, s);
    }
    NewestNone(VersionEntries(v), k, s);
  }

  // Version::Get: the first level holding a visible entry holds the newest one.
  method Get(v: Version, k: UserKey, s: SequenceNumber) returns (r: Option<Entry>)
    requires Valid(v)
    ensures r == Newest(VersionEntries(v), k, s)
  {
    for level := 0 to NUM_LEVELS
      invariant forall l :: 0 <= l < level ==> Newest(LevelEntries(v, l), k, s) == None
    {
      LevelInVersion(v, level);
      if level == 0 {
        r := Level0Get(v.levels[0], k, s);
      } else {
        r := SortedLevelGet(v.levels[level], k, s);
      }
      if r.Some? {
        FirstLevelHit(v, k, s, level);
        return;
      }
    }
    NoLevelHit(v, k, s);
    r := None;
  }
}
