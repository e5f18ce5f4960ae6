// A version on which the selection rules pick a compaction that brings a deleted value back.

module LeakExample {
  import opened DbFormat
  import opened Versions
  import opened Compactions
  import opened Selection

  const TOMBSTONE := Entry(2.0, 3, Deletion, [])
  const OLD_VALUE := Entry(2.0, 2, Put, [7])

  // Level 0 holds key 1; level 1 splits the history of key 2 over two files.
  const UPPER: File := FileMeta(3, 10, [Entry(1.0, 5, Put, [])])
  const FIRST: File := FileMeta(2, 10, [Entry(1.0, 1, Put, []), TOMBSTONE])
  const SECOND: File := FileMeta(1, 10, [OLD_VALUE])

  function Example(): Version {
    Version([[UPPER], [FIRST, SECOND], [], [], [], [], []])
  }

  // Only FIRST overlaps the user-key range of UPPER.
  const CHOICE := Inputs(0, {UPPER}, {FIRST}, 1.0, 1.0)

  const NEW_ONE := Entry(1.0, 5, Put, [])
  const OLD_ONE := Entry(1.0, 1, Put, [])

  lemma Runs()
    ensures EntriesOf({UPPER}) == {NEW_ONE}
    ensures EntriesOf({FIRST}) == {OLD_ONE, TOMBSTONE}
    ensures EntriesOf({SECOND}) == {OLD_VALUE}
  {
    assert EntriesOf({UPPER}) == Elements(UPPER.run) && Elements([NEW_ONE]) == {NEW_ONE};
    assert EntriesOf({FIRST}) == Elements(FIRST.run) && Elements([OLD_ONE, TOMBSTONE]) == {OLD_ONE, TOMBSTONE};
    assert EntriesOf({SECOND}) == Elements(SECOND.run) && Elements([OLD_VALUE]) == {OLD_VALUE};
  }

  ghost function FilesAt(l: nat): set<File> {
    if l == 0 then {UPPER} else if l == 1 then {FIRST} + {SECOND} else {}
  }

  ghost function EntriesAt(l: nat): set<Entry> {
    if l == 0 then {NEW_ONE} else if l == 1 then {OLD_ONE, TOMBSTONE} + {OLD_VALUE} else {}
  }

  lemma LevelContents(l: nat)
    requires l < NUM_LEVELS
    ensures FileSet(Example().levels[l]) == FilesAt(l) && LevelEntries(Example(), l) == EntriesAt(l)
  {
    var fs := Example().levels[l];
    assert fs == if l == 0 then [UPPER] else if l == 1 then [FIRST, SECOND] else [];
    assert FileSet(fs) == FilesAt(l);
    Runs();
    EntriesUnion({FIRST}, {SECOND});
  }

  lemma ExampleEntries()
    ensures VersionEntries(Example()) == EntriesAt(0) + EntriesAt(1)
  {
    forall e | e in VersionEntries(Example()) ensures e in EntriesAt(0) + EntriesAt(1) {
      var l :| 0 <= l < |Example().levels| && e in LevelEntries(Example(), l);
      LevelContents(l);
    }
    LevelContents(0);
    LevelContents(1);
    LevelInVersion(Example(), 0);
    LevelInVersion(Example(), 1);
  }

  lemma ExampleShape()
    ensures Shape(Example())
  {
    var v := Example();
    assert Less(FIRST.Largest(), SECOND.Smallest());
    assert v.levels[0] == [UPPER] && v.levels[1] == [FIRST, SECOND];
    forall l | 1 <= l < NUM_LEVELS ensures InOrder(v.levels[l]) {
      assert l > 1 ==> v.levels[l] == [];
    }
  }

  lemma ExampleFile(l: nat, f: File)
    requires l < NUM_LEVELS && f in Example().levels[l]
    ensures f == UPPER || f == FIRST || f == SECOND
  {
    assert Example().levels[l] == if l == 0 then [UPPER] else if l == 1 then [FIRST, SECOND] else [];
  }

  lemma ExampleNumbers()
    ensures NumbersName(Example())
  {
    hide Example;
    assert |Example().levels| == NUM_LEVELS by { ExampleShape(); }
    forall l, f | 0 <= l < NUM_LEVELS && f in Example().levels[l] ensures f == UPPER || f == FIRST || f == SECOND {
      ExampleFile(l, f);
    }
  }

  lemma ExampleRecency()
    ensures LevelRecency(Example()) && Level0Recency(FileSet(Example().levels[0]))
  {
    var v := Example();
    LevelContents(0);
    forall l, m | 0 <= l < m < |v.levels| ensures Newer(LevelEntries(v, l), LevelEntries(v, m)) {
      LevelContents(l);
      LevelContents(m);
    }
  }

  lemma ExampleOnce()
    ensures OneWrite(EntriesAt(0) + EntriesAt(1))
  {
  }

  lemma ExampleValid()
    ensures Valid(Example())
  {
    hide LevelRecency, Level0Recency, NumbersName, Shape, Example, OneWrite, EntriesAt;
    ExampleEntries();
    ExampleOnce();
    ExampleShape();
    ExampleNumbers();
    ExampleRecency();
  }

  lemma ExampleInputs()
    ensures GoodInputs(Example(), CHOICE) && NextRest(Example(), CHOICE) == {SECOND}
  {
    hide Example;
    assert |Example().levels| == NUM_LEVELS by { ExampleShape(); }
    LevelContents(0);
    LevelContents(1);
    assert FIRST != SECOND;
    assert Rest(Example(), CHOICE) == {};
  }

  lemma ExampleBase()
    ensures BaseLevel(Example(), 0, 2.0)
  {
    forall l | 2 <= l < NUM_LEVELS ensures Example().levels[l] == [] {
    }
  }

  // The selection satisfies every rule, yet it leaks: by LeakShows, deleted key 2 reads as [7] afterwards.
  lemma SelectionCanLeak()
    ensures Valid(Example()) && GoodInputs(Example(), CHOICE)
    ensures Leaks(Example(), CHOICE, 5, TOMBSTONE, OLD_VALUE)
  {
    hide Valid, GoodInputs, BaseLevel, Example, Selected;
    ExampleValid();
    ExampleEntries();
    ExampleInputs();
    ExampleBase();
    Runs();
  }

  // The selection code itself picks it: an automatic compaction of level 0 comes out as CHOICE.
  method SelectionPicksIt(maxFileSize: nat) returns (in0: seq<File>, in1: seq<File>)
    ensures FileSet(in0) == CHOICE.A && FileSet(in1) == CHOICE.B
  {
    hide GoodInputs, Shape, OneWrite;
    var v := Version([[UPPER], [FIRST, SECOND], [], [], [], [], []]);
    assert v == Example();
    assert Shape(v) && OneWrite(VersionEntries(v)) by { ExampleFacts(); }
    assert v.levels[0] == [UPPER];
    var start := PickCompaction(v, 0, UPPER);
    var grandparents, smallest, largest;
    in0, in1, grandparents, smallest, largest := SetupOtherInputs(v, 0, start, maxFileSize);
    OnlyChoice(in0, in1, start, smallest, largest);
  }

  lemma ExampleFacts()
    ensures Shape(Example()) && OneWrite(VersionEntries(Example()))
  {
    hide Example, OneWrite, EntriesAt;
    ExampleShape();
    ExampleEntries();
    ExampleOnce();
  }

  lemma OnlyChoice(in0: seq<File>, in1: seq<File>, start: seq<File>, smallest: InternalKey, largest: InternalKey)
    requires GoodInputs(Example(), Inputs(0, FileSet(in0), FileSet(in1), smallest.user, largest.user))
    requires UPPER in start && FileSet(start) <= FileSet(in0) && IsSmallest(in0, smallest) && IsLargest(in0, largest)
    ensures FileSet(in0) == CHOICE.A && FileSet(in1) == CHOICE.B
  {
    LevelContents(0);
    LevelContents(1);
    assert UPPER in FileSet(start);
    assert FileSet(in0) == {UPPER};
    OneFile(in0, smallest, largest);
    forall f ensures f in FileSet(in1) <==> f == FIRST {
    }
  }

  lemma OneFile(in0: seq<File>, smallest: InternalKey, largest: InternalKey)
    requires FileSet(in0) == {UPPER} && IsSmallest(in0, smallest) && IsLargest(in0, largest)
    ensures smallest.user == 1.0 && largest.user == 1.0
  {
    forall i | 0 <= i < |in0| ensures in0[i] == UPPER {
      assert in0[i] in FileSet(in0);
    }
    assert UPPER.run[0] == NEW_ONE && |UPPER.run| == 1;
  }

  // Whatever files the compaction then writes, a read of key 2 changes from not found to [7].
  lemma DeletedValueReturns(outs: set<File>, v': Version)
    requires Compacted(Example(), CHOICE, 5, outs) && Installed(Example(), CHOICE, outs, v')
    ensures Read(VersionEntries(Example()), 2.0, 5) == None
    ensures Read(VersionEntries(v'), 2.0, 5) == Some([7])
  {
    hide GoodInputs, LevelRecency, OneWrite, Shape, NumbersName, Level0Recency, Example, Leaks, Compacted, Installed,
      Read;
    SelectionCanLeak();
    ExampleFacts();
    assert InOrder(Example().levels[1]) by { NextInOrder(); }
    LeakShows(Example(), CHOICE, 5, outs, v', TOMBSTONE, OLD_VALUE);
  }

  lemma NextInOrder()
    ensures |Example().levels| == NUM_LEVELS && InOrder(Example().levels[1])
  {
    ExampleShape();
  }
}
