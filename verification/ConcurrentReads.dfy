// Lock-free reads of the memtable.

module ConcurrentReads {
  // Reads of the memtable while its one writer links a node in (db/skiplist.h): every
  // load and every store of a link is one step of its own.

  import opened DbFormat
  import opened SkipLists
  import opened MemTables

  // Insert, after its search: `next` levels are linked so far.
  datatype Writer = Idle | Linking(entry: Entry, height: nat, next: nat)

  // A search (FindGreaterOrEqual without prev) or a scan (SeekToFirst, then Next to the end).
  datatype Reader =
    | Searching(key: InternalKey, at: Option<Entry>, level: nat)
    | Found(key: InternalKey, result: Option<Entry>)
    | Scanning(run: seq<Entry>)
    | Scanned(run: seq<Entry>)

  type Levels = ls: seq<set<Entry>> | |ls| == MAX_HEIGHT witness seq(MAX_HEIGHT, i => {})

  datatype State = State(levels: Levels, writer: Writer, readers: map<nat, Reader>)

  ghost predicate Initial(s: State) {
    s == State(seq(MAX_HEIGHT, i => {}), Idle, map[])
  }

  ghost predicate NewEntry(E: set<Entry>, e: Entry) {
    forall o :: o in E ==> o.sn != e.sn
  }

  ghost predicate BeginInsert(s: State, s': State) {
    && s.writer.Idle? && s'.writer.Linking? && s'.writer.next == 0 && 1 <= s'.writer.height <= MAX_HEIGHT
    && NewEntry(s.levels[0], s'.writer.entry)
    && s' == s.(writer := s'.writer)
  }

  ghost predicate Publish(s: State, s': State) {
    && s.writer.Linking? && s.writer.next < s.writer.height <= MAX_HEIGHT
    && s' == s.(levels := s.levels[s.writer.next := s.levels[s.writer.next] + {s.writer.entry}],
                writer := s.writer.(next := s.writer.next + 1))
  }

  ghost predicate EndInsert(s: State, s': State) {
    s.writer.Linking? && s.writer.next == s.writer.height && s' == s.(writer := Idle)
  }

  // A reader may start from any height it happens to load: the levels above are empty.
  ghost predicate StartRead(s: State, s': State, id: nat, r: Reader) {
    && id !in s.readers && s' == s.(readers := s.readers[id := r])
    && match r {
         case Searching(_, at, level) => at.None? && level < MAX_HEIGHT
         case Scanning(run) => run == []
         case _ => false
       }
  }

  // One load of a link, and what the reader does with it.
  ghost predicate Follow(E: set<Entry>, r: Reader, next: Option<Entry>, r': Reader) {
    match r
    case Searching(key, at, level) =>
      IsSuccessor(E, at, next)
      && r' == (if next.Some? && Less(next.value.Key(), key) then Searching(key, next, level)
                else if level == 0 then Found(key, next)
                else Searching(key, at, level - 1))
    case Scanning(run) =>
      IsSuccessor(E, Last(run), next)
      && r' == (if next.Some? then Scanning(run + [next.value]) else Scanned(run))
    case _ => false
  }

  function LevelOf(r: Reader): nat {
    if r.Searching? then r.level else 0
  }

  ghost predicate Load(s: State, s': State, id: nat, next: Option<Entry>) {
    && id in s.readers && id in s'.readers && LevelOf(s.readers[id]) < MAX_HEIGHT
    && Follow(s.levels[LevelOf(s.readers[id])], s.readers[id], next, s'.readers[id])
    && s' == s.(readers := s.readers[id := s'.readers[id]])
  }

  ghost predicate Step(s: State, s': State) {
    || BeginInsert(s, s') || Publish(s, s') || EndInsert(s, s')
    || (exists id, r :: StartRead(s, s', id, r))
    || (exists id, next :: Load(s, s', id, next))
  }

  ghost predicate WriterOk(s: State)
  {
    s.writer.Linking? ==>
      && s.writer.next <= s.writer.height <= MAX_HEIGHT
      && (s.writer.next == 0 ==> NewEntry(s.levels[0], s.writer.entry))
      && (forall i :: 0 <= i < s.writer.next ==> s.writer.entry in s.levels[i])
  }

  ghost predicate ReaderOk(levels: Levels, r: Reader)
  {
    match r
    case Searching(key, at, level) =>
      level < MAX_HEIGHT && (at.Some? ==> at.value in levels[level] && Less(at.value.Key(), key))
    case _ => true
  }

  ghost predicate Nested(levels: Levels) {
    forall i, j :: 0 <= i <= j < |levels| ==> levels[j] <= levels[i]
  }

  ghost predicate Inv(s: State) {
    && Nested(s.levels) && OneWrite(s.levels[0]) && WriterOk(s)
    && forall id :: id in s.readers ==> ReaderOk(s.levels, s.readers[id])
  }

  lemma InitialInv(s: State)
    requires Initial(s)
    ensures Inv(s)
  {
  }

  lemma PublishKeeps(s: State, s': State)
    requires Inv(s) && Publish(s, s')
    ensures Inv(s') && s.levels[0] <= s'.levels[0]
  {
    var w := s.writer;
    forall i, j | 0 <= i <= j < |s'.levels|
      ensures s'.levels[j] <= s'.levels[i]
    {
      assert s.levels[j] <= s.levels[i];
      if j == w.next && i < j {
        assert w.entry in s.levels[i];
      }
    }
    forall id | id in s'.readers
      ensures ReaderOk(s'.levels, s'.readers[id])
    {
      assert ReaderOk(s.levels, s.readers[id]);
    }
  }

  lemma LoadKeeps(s: State, s': State, id: nat, next: Option<Entry>)
    requires Inv(s) && Load(s, s', id, next)
    ensures Inv(s') && s.levels[0] <= s'.levels[0]
  {
    var r, r' := s.readers[id], s'.readers[id];
    assert ReaderOk(s.levels, r);
    assert ReaderOk(s.levels, r') by {
      if r.Searching? && r'.Searching? && r'.level < r.level {
        assert s.levels[r.level] <= s.levels[r'.level];
      }
    }
    forall i | i in s'.readers
      ensures ReaderOk(s'.levels, s'.readers[i])
    {
      if i != id {
        assert ReaderOk(s.levels, s.readers[i]);
      }
    }
  }

  lemma StepKeeps(s: State, s': State)
    requires Inv(s) && Step(s, s')
    ensures Inv(s') && s.levels[0] <= s'.levels[0]
  {
    if Publish(s, s') {
      PublishKeeps(s, s');
    } else if id, next :| Load(s, s', id, next) {
      LoadKeeps(s, s', id, next);
    } else if id, r :| StartRead(s, s', id, r) {
      assert forall i :: i in s.readers ==> ReaderOk(s.levels, s.readers[i]);
    }
  }

  ghost predicate Run(run: seq<State>) {
    && run != [] && Initial(run[0])
    && forall i :: 0 <= i < |run| - 1 ==> Step(run[i], run[i + 1])
  }

  // In every state of every interleaving the list is in order, and entries only get added.
  lemma {:induction false} RunKeeps(run: seq<State>, i: nat, j: nat)
    requires Run(run) && i <= j < |run|
    ensures Inv(run[i]) && Inv(run[j]) && run[i].levels[0] <= run[j].levels[0]
    decreases j
  {
    if j == 0 {
      InitialInv(run[0]);
    } else {
      RunKeeps(run, if i == j then j - 1 else i, j - 1);
      StepKeeps(run[j - 1], run[j]);
    }
  }

  // A step leaves a reader alone or is that reader's own load.
  lemma ReaderStep(s: State, s': State, id: nat)
    requires Inv(s) && Step(s, s') && id in s.readers
    ensures id in s'.readers
    ensures s'.readers[id] == s.readers[id] || exists next :: Load(s, s', id, next)
  {
    if i, next :| Load(s, s', i, next) {
      assert i == id || s'.readers[id] == s.readers[id];
    }
  }

  lemma {:induction false} KeyStays(run: seq<State>, id: nat, i: nat, j: nat)
    requires Run(run) && i <= j < |run|
    requires id in run[i].readers && run[i].readers[id].Searching?
    ensures id in run[j].readers && (run[j].readers[id].Searching? || run[j].readers[id].Found?)
    ensures run[j].readers[id].key == run[i].readers[id].key
    decreases j
  {
    hide Inv;
    if i < j {
      KeyStays(run, id, i, j - 1);
      RunKeeps(run, i, j - 1);
      ReaderStep(run[j - 1], run[j], id);
    }
  }

  // A search that raced with inserts gives the exact answer of some moment while it ran.
  lemma {:induction false} FoundAtAMoment(run: seq<State>, id: nat, i: nat, j: nat) returns (m: nat)
    requires Run(run) && i < j < |run|
    requires id in run[i].readers && run[i].readers[id].Searching?
    requires id in run[j].readers && run[j].readers[id].Found?
    ensures i <= m < j && IsFirst(run[m].levels[0], run[i].readers[id].key, run[j].readers[id].result)
    decreases j
  {
    hide Inv, Load, IsFirst;
    KeyStays(run, id, i, j - 1);
    RunKeeps(run, i, j - 1);
    ReaderStep(run[j - 1], run[j], id);
    if run[j - 1].readers[id].Found? {
      FoundStays(run[j - 1], run[j], id);
      m := FoundAtAMoment(run, id, i, j - 1);
    } else {
      m := j - 1;
      LastLoad(run[m], run[j], id);
    }
  }

  lemma FoundStays(s: State, s': State, id: nat)
    requires id in s.readers && s.readers[id].Found? && id in s'.readers
    requires s'.readers[id] == s.readers[id] || exists next :: Load(s, s', id, next)
    ensures s'.readers[id] == s.readers[id]
  {
  }

  lemma LastLoad(s: State, s': State, id: nat)
    requires Inv(s) && id in s.readers && s.readers[id].Searching? && id in s'.readers && s'.readers[id].Found?
    requires exists next :: Load(s, s', id, next)
    ensures IsFirst(s.levels[0], s.readers[id].key, s'.readers[id].result)
  {
    var r := s.readers[id];
    assert ReaderOk(s.levels, r);
    forall e | e in s.levels[0] && !Less(e.Key(), r.key)
      ensures Past(r.at, e)
    {
    }
  }

  // While one entry is being inserted a search answers for the list without it or with it.
  lemma OldOrNew(run: seq<State>, id: nat, i: nat, j: nat, e: Entry)
    requires Run(run) && i < j < |run|
    requires id in run[i].readers && run[i].readers[id].Searching?
    requires id in run[j].readers && run[j].readers[id].Found?
    requires run[j].levels[0] <= run[i].levels[0] + {e}
    ensures var E, key, r := run[i].levels[0], run[i].readers[id].key, run[j].readers[id].result;
            IsFirst(E, key, r) || IsFirst(E + {e}, key, r)
  {
    var m := FoundAtAMoment(run, id, i, j);
    RunKeeps(run, i, m);
    RunKeeps(run, m, j);
    assert run[m].levels[0] == run[i].levels[0] || run[m].levels[0] == run[i].levels[0] + {e};
  }

  // MemTable::Get without a lock: as long as what is inserted meanwhile is newer than the
  // snapshot, the answer is the one for the entries there at the start.
  lemma GetDuringInserts(run: seq<State>, id: nat, i: nat, j: nat, k: UserKey, s: SequenceNumber)
    requires Run(run) && i < j < |run|
    requires id in run[i].readers && run[i].readers[id].Searching? && run[i].readers[id].key == SeekKey(k, s)
    requires id in run[j].readers && run[j].readers[id].Found?
    requires forall e :: e in run[j].levels[0] && e !in run[i].levels[0] ==> e.sn > s
    ensures var r := run[j].readers[id].result;
            Newest(run[i].levels[0], k, s) == if r.Some? && r.value.user == k then r else None
  {
    var m := FoundAtAMoment(run, id, i, j);
    RunKeeps(run, i, m);
    RunKeeps(run, m, j);
    FirstIsNewest(run[m].levels[0], k, s, run[j].readers[id].result);
    ReadAgrees(run[i].levels[0], run[m].levels[0], k, s);
  }

  // What a scan holds: `before` is the list when it started, E the list now.
  ghost predicate ScanOk(before: set<Entry>, E: set<Entry>, v: seq<Entry>) {
    && Sorted(v) && Elements(v) <= E
    && forall e :: e in before && e !in v ==> Past(Last(v), e)
  }

  lemma ScanOn(before: set<Entry>, E: set<Entry>, v: seq<Entry>, e: Entry)
    requires ScanOk(before, E, v) && IsSuccessor(E, Last(v), Some(e)) && before <= E
    ensures ScanOk(before, E, v + [e])
  {
    forall i | 0 <= i < |v|
      ensures Less(v[i].Key(), e.Key())
    {
      assert i < |v| - 1 ==> Less(v[i].Key(), v[|v| - 1].Key());
    }
    assert Last(v + [e]) == Some(e);
  }

  lemma {:induction false} ScanKeeps(run: seq<State>, id: nat, i: nat, j: nat)
    requires Run(run) && i <= j < |run|
    requires id in run[i].readers && run[i].readers[id] == Scanning([])
    ensures id in run[j].readers && (run[j].readers[id].Scanning? || run[j].readers[id].Scanned?)
    ensures ScanOk(run[i].levels[0], run[j].levels[0], run[j].readers[id].run)
    ensures run[j].readers[id].Scanned? ==> run[i].levels[0] <= Elements(run[j].readers[id].run)
    decreases j
  {
    RunKeeps(run, i, j);
    if i < j {
      ScanKeeps(run, id, i, j - 1);
      RunKeeps(run, i, j - 1);
      RunKeeps(run, j - 1, j);
      ReaderStep(run[j - 1], run[j], id);
      ScanLoad(run[i].levels[0], run[j - 1], run[j], id);
    }
  }

  lemma ScanLoad(before: set<Entry>, s: State, s': State, id: nat)
    requires before <= s.levels[0] <= s'.levels[0]
    requires id in s.readers && id in s'.readers && (s.readers[id].Scanning? || s.readers[id].Scanned?)
    requires ScanOk(before, s.levels[0], s.readers[id].run)
    requires s.readers[id].Scanned? ==> before <= Elements(s.readers[id].run)
    requires s'.readers[id] == s.readers[id] || exists next :: Load(s, s', id, next)
    ensures s'.readers[id].Scanning? || s'.readers[id].Scanned?
    ensures ScanOk(before, s'.levels[0], s'.readers[id].run)
    ensures s'.readers[id].Scanned? ==> before <= Elements(s'.readers[id].run)
  {
    if next :| Load(s, s', id, next) && next.Some? {
      ScanOn(before, s.levels[0], s.readers[id].run, next.value);
    }
  }

  // A scan that raced with inserts: in order, everything that was there, nothing made up.
  lemma ScanDuringInserts(run: seq<State>, id: nat, i: nat, j: nat)
    requires Run(run) && i <= j < |run|
    requires id in run[i].readers && run[i].readers[id] == Scanning([])
    requires id in run[j].readers && run[j].readers[id].Scanned?
    ensures Sorted(run[j].readers[id].run)
    ensures run[i].levels[0] <= Elements(run[j].readers[id].run) <= run[j].levels[0]
  {
    ScanKeeps(run, id, i, j);
  }

  ghost function Ahead(F: set<Entry>, at: Option<Entry>): set<Entry> {
    set e | e in F && Past(at, e)
  }

  // However the inserts fall, each load brings a search nearer to its end.
  lemma LoadProgress(s: State, s': State, id: nat, next: Option<Entry>, F: set<Entry>)
    requires Inv(s) && Load(s, s', id, next) && s.levels[0] <= F
    requires s.readers[id].Searching? && s'.readers[id].Searching?
    ensures var r, r' := s.readers[id], s'.readers[id];
            r'.level < r.level || (r'.level == r.level && |Ahead(F, r'.at)| < |Ahead(F, r.at)|)
  {
    var r, r' := s.readers[id], s'.readers[id];
    if r'.level == r.level {
      var e := r'.at.value;
      assert s.levels[r.level] <= s.levels[0];
      assert e in Ahead(F, r.at) && e !in Ahead(F, r'.at);
      assert Ahead(F, r'.at) <= Ahead(F, r.at);
      SmallerSet(Ahead(F, r'.at), Ahead(F, r.at));
    }
  }
}
