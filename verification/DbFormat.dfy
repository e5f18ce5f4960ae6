// Internal keys, entries and the meaning of a read (db/dbformat.h, db/dbformat.cc).

module DbFormat {
  datatype Option<+T> = None | Some(value: T)

  type byte = x: int | 0 <= x < 256

  // User keys are only ever compared.  A comparator's order on byte strings is a countable
  // total order, and every countable total order embeds into the reals.
  type UserKey = real

  type Value = seq<byte>

  const MAX_SEQUENCE: nat := 0x100_0000_0000_0000 - 1

  type SequenceNumber = n: nat | n <= MAX_SEQUENCE

  datatype Kind = Deletion | Put

  datatype InternalKey = InternalKey(user: UserKey, sn: SequenceNumber, kind: Kind) {
    // The packed trailer: sequence number in the high bits, type in the low eight.
    function Tag(): nat {
      256 * sn + if kind.Put? then 1 else 0
    }
  }

  // InternalKeyComparator: increasing user key, then decreasing trailer.
  predicate Less(a: InternalKey, b: InternalKey) {
    a.user < b.user || (a.user == b.user && a.Tag() > b.Tag())
  }

  // The key a lookup of `k` at snapshot `s` seeks to: type kValueTypeForSeek.
  function SeekKey(k: UserKey, s: SequenceNumber): InternalKey {
    InternalKey(k, s, Put)
  }

  datatype Entry = Entry(user: UserKey, sn: SequenceNumber, kind: Kind, value: Value) {
    function Key(): InternalKey {
      InternalKey(user, sn, kind)
    }
  }

  ghost predicate Sorted(es: seq<Entry>) {
    forall i, j :: 0 <= i < j < |es| ==> Less(es[i].Key(), es[j].Key())
  }

  // In a sorted run, a smaller key is earlier, and so is a newer entry for the same key.
  lemma SortedPair(es: seq<Entry>, i: nat, j: nat)
    requires Sorted(es) && i < |es| && j < |es|
    ensures i < j ==> Less(es[i].Key(), es[j].Key())
    ensures j < i ==> Less(es[j].Key(), es[i].Key())
  {
  }

  // Every sequence number was given to at most one write.
  ghost predicate OneWrite(E: set<Entry>) {
    forall a, b :: a in E && b in E && a.sn == b.sn ==> a == b
  }

  // e is what a read of k at snapshot s sees in E.
  ghost predicate IsNewest(E: set<Entry>, k: UserKey, s: nat, e: Entry) {
    e in E && e.user == k && e.sn <= s
    && forall o :: o in E && o.user == k && o.sn <= s ==> o.sn <= e.sn
  }

  ghost function Newest(E: set<Entry>, k: UserKey, s: nat): Option<Entry> {
    if exists e :: IsNewest(E, k, s, e) then
      var e :| IsNewest(E, k, s, e); Some(e)
    else
      None
  }

  function ValueOf(o: Option<Entry>): Option<Value> {
    if o.Some? && o.value.kind.Put? then Some(o.value.value) else None
  }

  // The user-visible result: a value, or "not found" for a missing or deleted key.
  ghost function Read(E: set<Entry>, k: UserKey, s: nat): Option<Value> {
    ValueOf(Newest(E, k, s))
  }

  lemma NewestIs(E: set<Entry>, k: UserKey, s: nat, e: Entry)
    requires OneWrite(E) && IsNewest(E, k, s, e)
    ensures Newest(E, k, s) == Some(e)
  {
  }

  // A finite set with a candidate has a newest candidate.
  lemma NewestExists(E: set<Entry>, k: UserKey, s: nat, c: Entry)
    requires c in E && c.user == k && c.sn <= s
    ensures exists e :: IsNewest(E, k, s, e)
    decreases s - c.sn
  {
    if o :| o in E && o.user == k && c.sn < o.sn <= s {
      NewestExists(E, k, s, o);
    } else {
      assert IsNewest(E, k, s, c);
    }
  }

  lemma NewestNone(E: set<Entry>, k: UserKey, s: nat)
    ensures Newest(E, k, s).None? <==> forall e :: e in E && e.user == k ==> e.sn > s
  {
    if c :| c in E && c.user == k && c.sn <= s {
      NewestExists(E, k, s, c);
    }
  }

  // Reads depend only on the entries of the key at or below the snapshot.
  lemma ReadAgrees(E: set<Entry>, F: set<Entry>, k: UserKey, s: nat)
    requires OneWrite(E) && OneWrite(F)
    requires forall e: Entry :: e.user == k && e.sn <= s ==> (e in E <==> e in F)
    ensures Newest(E, k, s) == Newest(F, k, s)
  {
    NewestNone(E, k, s);
    NewestNone(F, k, s);
    if Newest(E, k, s).Some? {
      var e := Newest(E, k, s).value;
      assert IsNewest(F, k, s, e);
      NewestIs(F, k, s, e);
    }
  }

  function Elements(es: seq<Entry>): set<Entry> {
    set e | e in es
  }

  // In a sorted run, the first entry not before the lookup key decides the read.
  lemma FirstDecides(es: seq<Entry>, k: UserKey, s: SequenceNumber, n: nat)
    requires Sorted(es) && OneWrite(Elements(es)) && n <= |es|
    requires forall i :: 0 <= i < n ==> Less(es[i].Key(), SeekKey(k, s))
    requires n < |es| ==> !Less(es[n].Key(), SeekKey(k, s))
    ensures Newest(Elements(es), k, s) == if n < |es| && es[n].user == k then Some(es[n]) else None
  {
    forall o | o in Elements(es) && o.user == k && o.sn <= s
      ensures n < |es| && es[n].user == k && o.sn <= es[n].sn
    {
      var j :| 0 <= j < |es| && es[j] == o;
      if n < j { SortedPair(es, n, j); }
    }
    if n < |es| && es[n].user == k {
      assert IsNewest(Elements(es), k, s, es[n]);
      NewestIs(Elements(es), k, s, es[n]);
    } else {
      NewestNone(Elements(es), k, s);
    }
  }

  // One sorted run answers a lookup by seeking to (k, s): Table::InternalGet followed by
  // SaveValue, and MemTable::Get.
  method RunGet(es: seq<Entry>, k: UserKey, s: SequenceNumber) returns (r: Option<Entry>)
    requires Sorted(es) && OneWrite(Elements(es))
    ensures r == Newest(Elements(es), k, s)
  {
    var i := 0;
    while i < |es| && Less(es[i].Key(), SeekKey(k, s))
      invariant 0 <= i <= |es|
      invariant forall j :: 0 <= j < i ==> Less(es[j].Key(), SeekKey(k, s))
    {
      i := i + 1;
    }
    FirstDecides(es, k, s, i);
    r := if i < |es| && es[i].user == k then Some(es[i]) else None;
  }
}
