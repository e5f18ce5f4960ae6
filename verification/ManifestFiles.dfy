// The manifest file.

module ManifestFiles {
  // Version edits as records, written on the way and read back by recovery
  // (VersionSet::LogAndApply, VersionSet::WriteSnapshot and VersionSet::Recover in db/version_set.cc).

  import opened DbFormat
  import opened Coding
  import opened Versions
  import opened VersionBuilder
  import opened Manifests
  import opened KeyEmbedding
  import E = VersionEdits
  import LogFormat
  import LogCrash

  // ---- Records and the edits they describe ----

  ghost predicate Spells(k: Bytes, key: InternalKey) {
    Proper(k) && ParsedKey(k) == key
  }

  ghost predicate DescribesFile(m: E.NewFile, level: nat, f: File) {
    m.level == level && m.number == f.number && m.size == f.size
    && Spells(m.smallest, f.Smallest()) && Spells(m.largest, f.Largest())
  }

  ghost predicate Describes(m: E.Edit, e: Edit) {
    (forall d :: d in m.deleted <==> d in e.deleted) && |m.added| == |e.added|
    && forall i :: 0 <= i < |e.added| ==> DescribesFile(m.added[i], e.added[i].0, e.added[i].1)
  }

  // The bytes of an added file: tag 7, level, number, size, and the least and the largest key.
  lemma FileRecord(m: E.NewFile, level: nat, f: File)
    requires DescribesFile(m, level, f)
    ensures E.ItemBytes(E.AddedFile(m)) ==
      [7] + (Varint(level) + Varint(f.number) + Varint(f.size) + Prefixed(m.smallest) + Prefixed(m.largest))
    ensures ParsedKey(m.smallest) == f.run[0].Key() && ParsedKey(m.largest) == f.run[|f.run| - 1].Key()
  {
    hide Prefixed;
  }

  // The tables by number, with every file the edit adds among them.
  ghost predicate Present(tables: map<nat, seq<Entry>>, e: Edit) {
    forall i :: 0 <= i < |e.added| ==>
      e.added[i].1.number in tables && tables[e.added[i].1.number] == e.added[i].1.run
  }

  // A decoded record is the edit it describes: the files' numbers name tables, and the record repeats
  // their sizes and ends.
  method EditFor(m: E.Edit, tables: map<nat, seq<Entry>>, ghost e: Edit) returns (r: Edit)
    requires Describes(m, e) && Present(tables, e)
    ensures r == e
    ensures forall i :: 0 <= i < |r.added| ==> DescribesFile(m.added[i], r.added[i].0, r.added[i].1)
  {
    var added: seq<(nat, File)> := [];
    for i := 0 to |m.added|
      invariant added == e.added[..i]
    {
      assert DescribesFile(m.added[i], e.added[i].0, e.added[i].1);
      var f: File := FileMeta(m.added[i].number, m.added[i].size, tables[m.added[i].number]);
      added := added + [(m.added[i].level, f)];
    }
    var deleted := set d | d in m.deleted;
    r := Edit(deleted, added);
    assert e.added[..|e.added|] == e.added;
  }

  // ---- Describing an edit ----

  // A spelling for every user key of the edit's files.
  ghost predicate Spelled(e: Edit, name: UserKey -> Bytes) {
    forall i :: 0 <= i < |e.added| ==> forall k :: k in {e.added[i].1.Smallest(), e.added[i].1.Largest()} ==>
      Rank(name(k.user)) == k.user && |name(k.user)| + 8 < TWO32
  }

  ghost predicate Small(e: Edit) {
    (forall d :: d in e.deleted ==> d.0 < NUM_LEVELS && d.1 < TWO64)
    && forall i :: 0 <= i < |e.added| ==>
         e.added[i].0 < NUM_LEVELS && e.added[i].1.number < TWO64 && e.added[i].1.size < TWO64
  }

  function KeyBytes(k: InternalKey, name: UserKey -> Bytes): Bytes {
    name(k.user) + EncodeFixed(k.Tag(), 8)
  }

  lemma KeyBytesSpell(k: InternalKey, name: UserKey -> Bytes)
    requires Rank(name(k.user)) == k.user
    ensures Spells(KeyBytes(k, name), k) && |KeyBytes(k, name)| == |name(k.user)| + 8
  {
    hide Rank, EncodeFixed, Proper, ParsedKey, InternalKey.Tag;
    TagBytesParse(name(k.user), k.sn, k.kind);
    assert k == InternalKey(Rank(name(k.user)), k.sn, k.kind);
  }

  method DescribeFile(level: nat, f: File, name: UserKey -> Bytes) returns (m: E.NewFile)
    requires level < NUM_LEVELS && f.number < TWO64 && f.size < TWO64
    requires forall k :: k in {f.Smallest(), f.Largest()} ==>
      Rank(name(k.user)) == k.user && |name(k.user)| + 8 < TWO32
    ensures DescribesFile(m, level, f) && E.ItemOk(E.AddedFile(m))
  {
    hide Rank, Spells, KeyBytes;
    assert f.Smallest() in {f.Smallest(), f.Largest()} && f.Largest() in {f.Smallest(), f.Largest()};
    KeyBytesSpell(f.Smallest(), name);
    KeyBytesSpell(f.Largest(), name);
    m := E.NewFile(level, f.number, f.size, KeyBytes(f.Smallest(), name), KeyBytes(f.Largest(), name));
  }

  // VersionEdit::AddFile and DeleteFile for a whole edit.
  method Describe(e: Edit, name: UserKey -> Bytes) returns (m: E.Edit)
    requires Spelled(e, name) && Small(e)
    ensures Describes(m, e) && E.EditOk(m)
    ensures m == E.CLEARED.(deleted := m.deleted, added := m.added)
  {
    hide Rank, DescribesFile;
    var deleted := DeletedInOrder(e.deleted);
    var added: seq<E.NewFile> := [];
    for i := 0 to |e.added|
      invariant |added| == i
      invariant forall j :: 0 <= j < i ==>
        DescribesFile(added[j], e.added[j].0, e.added[j].1) && E.ItemOk(E.AddedFile(added[j]))
    {
      var f := DescribeFile(e.added[i].0, e.added[i].1, name);
      added := added + [f];
    }
    m := E.CLEARED.(deleted := deleted, added := added);
    ItemsOk(m);
  }

  lemma ItemsOk(m: E.Edit)
    requires m == E.CLEARED.(deleted := m.deleted, added := m.added)
    requires forall d :: d in m.deleted ==> E.ItemOk(E.DeletedFile(d.0, d.1))
    requires forall j :: 0 <= j < |m.added| ==> E.ItemOk(E.AddedFile(m.added[j]))
    requires forall i, j :: 0 <= i < j < |m.deleted| ==> E.Before(m.deleted[i], m.deleted[j])
    ensures E.EditOk(m)
  {
    hide E.ItemOk;
    forall it | it in E.Items(m) ensures E.ItemOk(it) {
      assert it in E.DeletedItems(m.deleted) || it in E.AddedItems(m.added);
    }
  }

  method DeletedInOrder(deleted: set<(nat, nat)>) returns (r: seq<(nat, nat)>)
    ensures forall d :: d in r <==> d in deleted
    ensures forall i, j :: 0 <= i < j < |r| ==> E.Before(r[i], r[j])
  {
    r := [];
    var left := deleted;
    while left != {}
      invariant left <= deleted && forall d :: d in r <==> d in deleted - left
      invariant forall i, j :: 0 <= i < j < |r| ==> E.Before(r[i], r[j])
      decreases left
    {
      var d :| d in left;
      InsertedIn(r, d);
      r := E.InsertDeleted(r, d);
      left := left - {d};
    }
  }

  lemma {:induction false} InsertedIn(s: seq<(nat, nat)>, x: (nat, nat))
    requires forall i, j :: 0 <= i < j < |s| ==> E.Before(s[i], s[j])
    ensures forall d :: d in E.Inserted(s, x) <==> d in s || d == x
    ensures forall i, j :: 0 <= i < j < |E.Inserted(s, x)| ==> E.Before(E.Inserted(s, x)[i], E.Inserted(s, x)[j])
  {
    if s != [] {
      InsertedIn(s[1..], x);
      assert s == [s[0]] + s[1..];
      if s[0] != x && !E.Before(x, s[0]) {
        var r := E.Inserted(s[1..], x);
        forall j | 0 <= j < |r| ensures E.Before(s[0], r[j]) {
          assert r[j] in r;
        }
      }
    }
  }

  // ---- The file ----

  // What LogAndApply puts in every record: the log to replay from, and the counters.
  ghost predicate Filled(m: E.Edit) {
    m.comparator == None && m.logNumber.Some? && m.nextFile.Some? && m.lastSequence.Some?
  }

  // The records of a manifest that starts from v: its snapshot, then the edits.
  ghost predicate IsManifest(ms: seq<E.Edit>, comparator: Bytes, v: Version, edits: seq<Edit>) {
    |ms| == |edits| + 1 && (forall i :: 0 <= i < |ms| ==> E.EditOk(ms[i]))
    && Describes(ms[0], SnapshotEdit(v)) && ms[0].comparator == Some(comparator)
    && ms[0].logNumber == ms[0].nextFile == ms[0].lastSequence == None
    && forall i :: 1 <= i < |ms| ==> Describes(ms[i], edits[i - 1]) && Filled(ms[i])
  }

  ghost predicate AllPresent(tables: map<nat, seq<Entry>>, v: Version, edits: seq<Edit>) {
    Present(tables, SnapshotEdit(v)) && forall i :: 0 <= i < |edits| ==> Present(tables, edits[i])
  }

  datatype RecoverResult =
    | Recovered(version: Version, nextFile: nat, logNumber: nat, lastSequence: nat)
    | Corruption
    | InvalidArgument

  // The last value given for a field.
  function Later(was: Option<nat>, more: Option<nat>): Option<nat> {
    if more.Some? then more else was
  }

  // VersionSet::Recover on the decoded records, by a store with this comparator.
  method RecoverFrom(ms: seq<E.Edit>, comparator: Bytes, tables: map<nat, seq<Entry>>,
                     ghost all: seq<E.Edit>, ghost written: Bytes, ghost vs: seq<Version>, ghost edits: seq<Edit>)
    returns (r: RecoverResult)
    requires |vs| == |edits| + 1 && Live(vs, edits)
    requires IsManifest(all, written, vs[0], edits) && AllPresent(tables, vs[0], edits) && ms <= all
    ensures r == Outcome(|ms|, all, vs, edits, written, comparator)
  {
    hide Describes, Present, Live, SnapshotEdit, Filled, E.EditOk;
    ghost var done := [SnapshotEdit(vs[0])] + edits;
    var es: seq<Edit> := [];
    var logNumber: Option<nat>, nextFile: Option<nat>, lastSequence: Option<nat> := None, None, None;
    for i := 0 to |ms|
      invariant es == done[..i] && (i > 0 ==> written == comparator)
      invariant i <= 1 ==> logNumber == None && nextFile == None && lastSequence == None
      invariant i > 1 ==> Filled(all[i - 1]) && logNumber == all[i - 1].logNumber
      invariant i > 1 ==> nextFile == all[i - 1].nextFile && lastSequence == all[i - 1].lastSequence
    {
      RecordAt(all, written, vs[0], edits, tables, i);
      assert ms[i] == all[i];
      if ms[i].comparator.Some? && ms[i].comparator.value != comparator {
        return InvalidArgument;
      }
      var e := EditFor(ms[i], tables, done[i]);
      es := es + [e];
      logNumber := Later(logNumber, ms[i].logNumber);
      nextFile := Later(nextFile, ms[i].nextFile);
      lastSequence := Later(lastSequence, ms[i].lastSequence);
      FilledIs(all[i]);
    }
    if nextFile == None || logNumber == None || lastSequence == None {
      if |ms| > 1 { FilledIs(all[|ms| - 1]); }
      return Corruption;
    }
    FilledIs(all[|ms| - 1]);
    SnapshotLive(vs, edits);
    LivePrefix([EMPTY_VERSION] + vs, done, |ms|);
    var v := ReplayLive(EMPTY_VERSION, es, ([EMPTY_VERSION] + vs)[..|ms| + 1]);
    r := Recovered(v, nextFile.value + 1, logNumber.value, lastSequence.value);
  }

  lemma FilledIs(m: E.Edit)
    ensures Filled(m) <==> m.comparator == None && m.logNumber.Some? && m.nextFile.Some? && m.lastSequence.Some?
  {
  }

  lemma RecordAt(ms: seq<E.Edit>, comparator: Bytes, v: Version, edits: seq<Edit>, tables: map<nat, seq<Entry>>, i: nat)
    requires IsManifest(ms, comparator, v, edits) && AllPresent(tables, v, edits) && i < |ms|
    ensures var e := ([SnapshotEdit(v)] + edits)[i]; Describes(ms[i], e) && Present(tables, e)
    ensures ms[i].comparator == if i == 0 then Some(comparator) else None
    ensures i == 0 ==> ms[i].logNumber == ms[i].nextFile == ms[i].lastSequence == None
    ensures i > 0 ==> Filled(ms[i])
  {
    hide Describes, Present, SnapshotEdit;
    assert i > 0 ==> Describes(ms[i], edits[i - 1]) && Filled(ms[i]) && Present(tables, edits[i - 1]);
  }

  // What w whole records give: the version after the last of them, with its counters.  A snapshot alone has
  // no counters, and a manifest written under another comparator is turned away.
  ghost function Outcome(w: nat, ms: seq<E.Edit>, vs: seq<Version>, edits: seq<Edit>, written: Bytes, comparator: Bytes)
    : RecoverResult
    requires Live(vs, edits) && IsManifest(ms, written, vs[0], edits) && w <= |ms|
  {
    if w > 0 && written != comparator then InvalidArgument
    else if w < 2 then Corruption
    else
      assert Filled(ms[w - 1]);
      Recovered(vs[w - 1], ms[w - 1].nextFile.value + 1, ms[w - 1].logNumber.value, ms[w - 1].lastSequence.value)
  }

  // A manifest cut at any byte and read back: recovery rebuilds exactly the version that was live when the
  // last whole record had been applied.
  method CrashAndRecover(ms: seq<E.Edit>, comparator: Bytes, tables: map<nat, seq<Entry>>, n: nat,
                         ghost written: Bytes, ghost vs: seq<Version>, ghost edits: seq<Edit>)
    returns (r: RecoverResult)
    requires |vs| == |edits| + 1 && Live(vs, edits)
    requires IsManifest(ms, written, vs[0], edits) && AllPresent(tables, vs[0], edits)
    requires n <= |LogFormat.Records(E.EditRecords(ms), 0)|
    ensures r == Outcome(LogCrash.Whole(E.EditRecords(ms), 0, n), ms, vs, edits, written, comparator)
  {
    hide Describes, AllPresent, Live, SnapshotEdit, Filled, E.EditOk, LogFormat.Records, LogCrash.Whole, Outcome;
    var back, drops := E.CrashAndReadManifest(ms, n);
    r := RecoverFrom(back.value, comparator, tables, ms, written, vs, edits);
  }
}
