// The user-level iterator (db/db_iter.cc) over a merged run of internal entries.

module DbIterator {
  import opened DbFormat
  import opened Merging

  // ---- What a user sees at a snapshot ----

  predicate Visible(es: seq<Entry>, s: SequenceNumber, i: int)
    requires 0 <= i < |es|
  {
    es[i].sn <= s
  }

  // es[i] is the newest visible entry of its key, and a value.
  ghost predicate Shown(es: seq<Entry>, s: SequenceNumber, i: int) {
    0 <= i < |es| && Visible(es, s, i) && es[i].kind.Put?
    && forall j :: 0 <= j < i && Visible(es, s, j) ==> es[j].user != es[i].user
  }

  // The rows of the first n entries, in order.
  ghost function Rows(es: seq<Entry>, s: SequenceNumber, n: nat): seq<Entry>
    requires n <= |es|
  {
    if n == 0 then [] else Rows(es, s, n - 1) + if Shown(es, s, n - 1) then [es[n - 1]] else []
  }

  ghost function View(es: seq<Entry>, s: SequenceNumber): seq<Entry> {
    Rows(es, s, |es|)
  }

  lemma {:induction false} RowsMembers(es: seq<Entry>, s: SequenceNumber, n: nat)
    requires n <= |es|
    ensures forall e :: e in Rows(es, s, n) <==> exists i :: 0 <= i < n && Shown(es, s, i) && es[i] == e
  {
    if n > 0 {
      RowsMembers(es, s, n - 1);
    }
  }

  lemma UsersOrdered(es: seq<Entry>, i: nat, j: nat)
    requires Sorted(es) && i <= j < |es|
    ensures es[i].user <= es[j].user && (i < j && es[i].user == es[j].user ==> es[j].sn <= es[i].sn)
  {
    assert i < j ==> Less(es[i].Key(), es[j].Key());
  }

  // One row per key, in key order.
  lemma {:induction false} RowsIncreasing(es: seq<Entry>, s: SequenceNumber, n: nat)
    requires Sorted(es) && n <= |es|
    ensures forall i, j :: 0 <= i < j < |Rows(es, s, n)| ==> Rows(es, s, n)[i].user < Rows(es, s, n)[j].user
  {
    if n > 0 {
      RowsIncreasing(es, s, n - 1);
      RowsMembers(es, s, n - 1);
      var r := Rows(es, s, n - 1);
      if Shown(es, s, n - 1) {
        forall i | 0 <= i < |r| ensures r[i].user < es[n - 1].user {
          assert r[i] in r;
          var p :| 0 <= p < n - 1 && Shown(es, s, p) && es[p] == r[i];
          UsersOrdered(es, p, n - 1);
          assert Visible(es, s, p);
        }
      }
    }
  }

  // The rows are exactly the keys a point read finds, with the value it finds.
  lemma ViewIsMap(es: seq<Entry>, s: SequenceNumber, k: UserKey, v: Value)
    requires Sorted(es) && OneWrite(Elements(es))
    ensures Read(Elements(es), k, s) == Some(v) <==> exists e :: e in View(es, s) && e.user == k && e.value == v
  {
    RowsMembers(es, s, |es|);
    if Read(Elements(es), k, s) == Some(v) {
      var e := Newest(Elements(es), k, s).value;
      var i :| 0 <= i < |es| && es[i] == e;
      NewestShown(es, s, i);
      assert e in View(es, s);
    }
    if e :| e in View(es, s) && e.user == k && e.value == v {
      var i :| 0 <= i < |es| && Shown(es, s, i) && es[i] == e;
      ShownNewest(es, s, i);
    }
  }

  lemma NewestShown(es: seq<Entry>, s: SequenceNumber, i: nat)
    requires Sorted(es) && OneWrite(Elements(es)) && i < |es| && es[i].kind.Put?
    requires IsNewest(Elements(es), es[i].user, s, es[i])
    ensures Shown(es, s, i)
  {
    forall j | 0 <= j < i && Visible(es, s, j) ensures es[j].user != es[i].user {
      assert es[j] in Elements(es);
      assert Less(es[j].Key(), es[i].Key());
    }
  }

  lemma ShownNewest(es: seq<Entry>, s: SequenceNumber, i: nat)
    requires Sorted(es) && OneWrite(Elements(es)) && Shown(es, s, i)
    ensures Newest(Elements(es), es[i].user, s) == Some(es[i])
  {
    forall o | o in Elements(es) && o.user == es[i].user && o.sn <= s ensures o.sn <= es[i].sn {
      var j :| 0 <= j < |es| && es[j] == o;
      if i < j { UsersOrdered(es, i, j); }
    }
    assert IsNewest(Elements(es), es[i].user, s, es[i]);
    NewestIs(Elements(es), es[i].user, s, es[i]);
  }

  // ---- Rows between two positions ----

  // No row strictly after lo and before hi.
  ghost predicate NoRow(es: seq<Entry>, s: SequenceNumber, lo: int, hi: int) {
    forall j :: lo < j < hi ==> !Shown(es, s, j)
  }

  lemma {:induction false} RowsSkip(es: seq<Entry>, s: SequenceNumber, lo: nat, hi: nat)
    requires lo <= hi <= |es| && NoRow(es, s, lo - 1, hi)
    ensures Rows(es, s, hi) == Rows(es, s, lo)
  {
    if lo < hi {
      RowsSkip(es, s, lo, hi - 1);
      assert !Shown(es, s, hi - 1);
    }
  }

  lemma {:induction false} RowsPrefix(es: seq<Entry>, s: SequenceNumber, lo: nat, hi: nat)
    requires lo <= hi <= |es|
    ensures Rows(es, s, lo) <= Rows(es, s, hi)
  {
    if lo < hi {
      RowsPrefix(es, s, lo, hi - 1);
    }
  }

  // A shown entry's row.
  lemma RowAt(es: seq<Entry>, s: SequenceNumber, i: nat)
    requires Shown(es, s, i)
    ensures |Rows(es, s, i)| < |View(es, s)| && View(es, s)[|Rows(es, s, i)|] == es[i]
  {
    RowsPrefix(es, s, i + 1, |es|);
    assert Rows(es, s, i + 1)[|Rows(es, s, i)|] == es[i];
  }

  // From one shown entry to the next one: the next row.
  lemma NextRow(es: seq<Entry>, s: SequenceNumber, i: nat, j: nat)
    requires Shown(es, s, i) && i < j <= |es| && NoRow(es, s, i, j)
    ensures |Rows(es, s, j)| == |Rows(es, s, i)| + 1
  {
    RowsSkip(es, s, i + 1, j);
  }

  class DBIter {
    const iter: MergingIterator
    const sequence: SequenceNumber
    var savedKey: Option<UserKey>
    var savedValue: Value
    var forward: bool
    var valid: bool
    ghost var cur: int
    ghost var row: int

    ghost function Entries(): seq<Entry> {
      iter.Union()
    }

    ghost function Table(): seq<Entry> {
      View(Entries(), sequence)
    }

    ghost predicate Ok()
      reads this, iter
    {
      iter.Ok() && Sorted(Entries()) && -1 <= row <= |Table()|
      && (valid ==> Shown(Entries(), sequence, cur) && row == |Rows(Entries(), sequence, cur)|)
      && (valid && forward ==> iter.at == cur)
      && (valid && !forward ==>
            savedKey == Some(Entries()[cur].user) && savedValue == Entries()[cur].value
            && JustBefore(Entries(), sequence, iter.at, cur))
    }

    constructor (it: MergingIterator, s: SequenceNumber)
      requires it.Ok()
      ensures Ok() && iter == it && sequence == s && !valid
    {
      iter, sequence := it, s;
      savedKey, savedValue, forward, valid := None, [], true, false;
      cur, row := -1, -1;
      MergeAllSorted(it.runs);
    }

    function Key(): UserKey
      requires Ok() && valid
      reads this, iter
      ensures Key() == Entries()[cur].user
    {
      if forward then iter.Current().user else savedKey.value
    }

    function CurrentValue(): Value
      requires Ok() && valid
      reads this, iter
      ensures CurrentValue() == Entries()[cur].value
    {
      if forward then iter.Current().value else savedValue
    }

    // The current row is what the user sees.
    lemma AtRow()
      requires Ok() && valid
      ensures 0 <= row < |Table()| && Table()[row].user == Key() && Table()[row].value == CurrentValue()
    {
      RowAt(Entries(), sequence, cur);
    }

    // Scans forward to the first row after `base`.
    method FindNextUserEntry(skip0: Option<UserKey>, ghost base: int, ghost d0: int)
      requires iter.Ok() && iter.Valid() && Sorted(Entries()) && forward
      requires Scan(Entries(), sequence, skip0, d0, base, iter.at)
      modifies this`savedKey, this`valid, this`cur, iter
      ensures iter.Ok() && NoRow(Entries(), sequence, base, iter.at)
      ensures valid ==> iter.at == cur && base < cur && Shown(Entries(), sequence, cur)
      ensures !valid ==> iter.at == |Entries()|
    {
      hide Scan, NoRow, Shown;
      ghost var es := Entries();
      var skip := skip0;
      ghost var d := d0;
      while true
        invariant iter.Ok() && iter.Valid()
        invariant Scan(es, sequence, skip, d, base, iter.at)
        decreases |es| - iter.at
      {
        var e := iter.Current();
        ScanNoRow(es, sequence, skip, d, base, iter.at);
        ScanStep(es, sequence, skip, d, base, iter.at);
        if e.sn <= sequence {
          if e.kind.Deletion? {
            skip, d := Some(e.user), iter.at;
          } else if skip.Some? && e.user <= skip.value {
          } else {
            valid, cur, savedKey := true, iter.at, None;
            return;
          }
        }
        iter.Next();
        if !iter.Valid() {
          break;
        }
      }
      ScanNoRow(es, sequence, skip, d, base, iter.at);
      savedKey, valid := None, false;
    }

    // Scans backward from the inner position to the last row at or before it.
    method FindPrevUserEntry()
      requires iter.Ok() && iter.at < |Entries()| && Sorted(Entries()) && !forward
      modifies this, iter
      ensures iter.Ok() && row == old(row) && (valid <==> !forward)
      ensures valid ==> cur <= old(iter.at) && Shown(Entries(), sequence, cur)
      ensures valid ==> NoRow(Entries(), sequence, cur, old(iter.at) + 1)
      ensures valid ==> savedKey == Some(Entries()[cur].user) && savedValue == Entries()[cur].value
      ensures valid ==> JustBefore(Entries(), sequence, iter.at, cur)
      ensures !valid ==> NoRow(Entries(), sequence, -1, old(iter.at) + 1)
    {
      ghost var es, p := Entries(), iter.at;
      ghost var c := -1;
      var valueType := Deletion;
      while iter.Valid()
        invariant iter.Ok() && iter.at < |es| && row == old(row) && !forward
        invariant Back(es, sequence, valueType, savedKey, savedValue, c, iter.at, p)
        decreases iter.at
      {
        var e := iter.Current();
        BackStep(es, sequence, valueType, savedKey, savedValue, c, iter.at, p);
        if e.sn <= sequence {
          if valueType != Deletion && e.user < savedKey.value {
            break;
          }
          valueType := e.kind;
          if valueType == Deletion {
            savedKey, savedValue := None, [];
          } else {
            savedKey, savedValue := Some(e.user), e.value;
          }
          c := iter.at;
        }
        iter.Prev();
      }
      if valueType == Deletion {
        valid, savedKey, savedValue, forward := false, None, [], true;
      } else {
        valid, cur := true, c;
      }
    }

    // Next: the next row, or past the last one.
    method Next()
      requires Ok() && valid
      modifies this, iter
      ensures Ok() && row == old(row) + 1 && (valid <==> row < |Table()|)
    {
      hide Scan, NoRow, Rows;
      ghost var es := Entries();
      ghost var base := cur;
      if !forward {
        forward := true;
        if !iter.Valid() {
          iter.SeekToFirst();
        } else {
          iter.Next();
        }
        if !iter.Valid() {
          // The row being left lies ahead.
          assert false;
        }
      } else {
        savedKey := Some(iter.Current().user);
      }
      LeaveRow(es, sequence, iter.at, base);
      FindNextUserEntry(savedKey, base, base);
      NextRow(es, sequence, base, iter.at);
      row := row + 1;
      RowsPrefix(es, sequence, iter.at, |es|);
      if valid { RowAt(es, sequence, cur); }
    }

    // Moves the inner iterator off the entries of the current key.
    method StepOffKey()
      requires Ok() && valid && forward
      modifies this`savedKey, iter
      ensures iter.Ok() && iter.at < cur
      ensures NoRow(Entries(), sequence, iter.at, cur)
    {
      ghost var es := Entries();
      savedKey := Some(iter.Current().user);
      while true
        invariant iter.Ok() && iter.Valid() && iter.at <= cur && savedKey == Some(es[cur].user)
        invariant forall j :: iter.at <= j < cur ==> es[j].user >= es[cur].user
        decreases iter.at
      {
        iter.Prev();
        if !iter.Valid() || iter.Current().user < savedKey.value {
          break;
        }
      }
      SameKeyNoRow(es, sequence, iter.at, cur);
    }

    // Prev: the previous row, or before the first one.
    method Prev()
      requires Ok() && valid
      modifies this, iter
      ensures Ok() && row == old(row) - 1 && (valid <==> row >= 0)
    {
      ghost var es, base := Entries(), cur;
      RowsPrefix(es, sequence, base, |es|);
      if forward {
        StepOffKey();
        if !iter.Valid() {
          row := row - 1;
          valid, savedKey, savedValue := false, None, [];
          PrevRow(es, sequence, -1, base, -1);
          return;
        }
        forward := false;
      }
      ghost var p := iter.at;
      assert NoRow(es, sequence, p, base);
      FindPrevUserEntry();
      PrevRow(es, sequence, if valid then cur else -1, base, p);
      row := row - 1;
    }

    // Seek: the first row at or after the key.
    method Seek(target: UserKey)
      requires Ok()
      modifies this, iter
      ensures Ok() && 0 <= row && (valid <==> row < |Table()|)
      ensures forall i :: 0 <= i < row ==> Table()[i].user < target
      ensures forall i :: row <= i < |Table()| ==> target <= Table()[i].user
    {
      hide Scan, NoRow, Shown, Rows;
      ghost var es := Entries();
      forward, savedValue, savedKey := true, [], None;
      iter.Seek(SeekKey(target, sequence));
      ghost var p := iter.at;
      SeekFresh(es, sequence, target, p);
      if iter.Valid() {
        FindNextUserEntry(None, p - 1, -1);
      } else {
        valid := false;
      }
      Arrive(es, sequence, p, iter.at);
      row := |Rows(es, sequence, iter.at)|;
      if valid { RowAt(es, sequence, cur); }
      SeekRows(es, sequence, target, p);
    }

    method SeekToFirst()
      requires Ok()
      modifies this, iter
      ensures Ok() && row == 0 && (valid <==> |Table()| > 0)
    {
      ghost var es := Entries();
      forward, savedValue := true, [];
      iter.SeekToFirst();
      if iter.Valid() {
        FindNextUserEntry(None, -1, -1);
      } else {
        valid := false;
      }
      Arrive(es, sequence, 0, iter.at);
      row := 0;
      if valid { RowAt(es, sequence, cur); }
    }

    method SeekToLast()
      requires Ok()
      modifies this, iter
      ensures Ok() && row == |Table()| - 1 && (valid <==> |Table()| > 0)
    {
      ghost var es := Entries();
      forward, savedValue := false, [];
      iter.SeekToLast();
      FindPrevUserEntry();
      LastRow(es, sequence, if valid then cur else -1);
      row := |Table()| - 1;
    }
  }

  // Reverse mode: only invisible entries lie between the inner position and the current row.
  ghost predicate JustBefore(es: seq<Entry>, s: SequenceNumber, at: int, c: int) {
    -1 <= at < c < |es|
    && (forall j :: at < j < c ==> !Visible(es, s, j))
    && (at >= 0 ==> Visible(es, s, at) && es[at].user < es[c].user)
  }

  // Entry d is visible, has the key being skipped, and nothing visible so far has a greater key.
  ghost predicate Skipping(es: seq<Entry>, s: SequenceNumber, k: UserKey, d: int, base: int, q: int) {
    0 <= d < |es| && Visible(es, s, d) && es[d].user == k && (d <= base || d < q)
    && forall j :: 0 <= j < q && j < |es| && Visible(es, s, j) ==> es[j].user <= k
  }

  // Nothing visible so far shares a key with what follows.
  ghost predicate Fresh(es: seq<Entry>, s: SequenceNumber, q: int) {
    0 <= q && forall j :: 0 <= j < q < |es| && Visible(es, s, j) ==> es[j].user < es[q].user
  }

  // The scan starts at or before row `base`, whose key is being skipped.
  ghost predicate Leaving(es: seq<Entry>, s: SequenceNumber, skip: Option<UserKey>, base: int, q: int) {
    0 <= q <= base < |es| && es[base].kind.Put? && skip == Some(es[base].user)
    && forall j :: q <= j < base ==> !Visible(es, s, j)
  }

  // The state of a forward scan standing at q: no row in (base, q).
  ghost predicate Scan(es: seq<Entry>, s: SequenceNumber, skip: Option<UserKey>, d: int, base: int, q: int) {
    NoRow(es, s, base, q)
    && (skip.Some? ==> Skipping(es, s, skip.value, d, base, q))
    && (skip.None? ==> Fresh(es, s, q))
    && (base < q || Leaving(es, s, skip, base, q))
  }

  lemma ScanNoRow(es: seq<Entry>, s: SequenceNumber, skip: Option<UserKey>, d: int, base: int, q: int)
    requires Scan(es, s, skip, d, base, q)
    ensures NoRow(es, s, base, q)
  {
  }

  lemma ScanStep(es: seq<Entry>, s: SequenceNumber, skip: Option<UserKey>, d: int, base: int, q: nat)
    requires Sorted(es) && q < |es| && Scan(es, s, skip, d, base, q)
    ensures es[q].sn > s ==> Scan(es, s, skip, d, base, q + 1)
    ensures es[q].sn <= s && es[q].kind.Deletion? ==> Scan(es, s, Some(es[q].user), q, base, q + 1)
    ensures es[q].sn <= s && es[q].kind.Put? && skip.Some? && es[q].user <= skip.value
      ==> Scan(es, s, skip, d, base, q + 1)
    ensures es[q].sn <= s && es[q].kind.Put? && !(skip.Some? && es[q].user <= skip.value)
      ==> Shown(es, s, q) && base < q
  {
    forall j | 0 <= j <= q ensures es[j].user <= es[q].user {
      UsersOrdered(es, j, q);
    }
    if q + 1 < |es| {
      UsersOrdered(es, q, q + 1);
    }
    if skip.Some? && d < q {
      UsersOrdered(es, d, q);
    }
  }

  // A reverse scan from p standing at q: c is the newest visible entry seen, and the only
  // candidate row.
  ghost predicate Back(es: seq<Entry>, s: SequenceNumber, kind: Kind, key: Option<UserKey>, value: Value, c: int,
                       q: int, p: int) {
    -1 <= q <= p < |es|
    && (forall j :: q < j <= p && Shown(es, s, j) ==> kind.Put? && j == c)
    && (kind.Put? ==>
          q < c <= p && Visible(es, s, c) && es[c].kind.Put? && key == Some(es[c].user) && value == es[c].value
          && forall j :: q < j < c ==> !Visible(es, s, j))
  }

  lemma BackStep(es: seq<Entry>, s: SequenceNumber, kind: Kind, key: Option<UserKey>, value: Value, c: int, q: nat,
                 p: int)
    requires Sorted(es) && Back(es, s, kind, key, value, c, q, p)
    ensures !Visible(es, s, q) ==> Back(es, s, kind, key, value, c, q - 1, p)
    ensures Visible(es, s, q) && kind.Put? && es[q].user < key.value ==> JustBefore(es, s, q, c) && Shown(es, s, c)
    ensures Visible(es, s, q) && !(kind.Put? && es[q].user < key.value) && es[q].kind.Put?
      ==> Back(es, s, Put, Some(es[q].user), es[q].value, q, q - 1, p)
    ensures Visible(es, s, q) && !(kind.Put? && es[q].user < key.value) && es[q].kind.Deletion?
      ==> Back(es, s, Deletion, None, [], q, q - 1, p)
  {
    if kind.Put? {
      UsersOrdered(es, q, c);
      forall j | 0 <= j <= q ensures es[j].user <= es[q].user {
        UsersOrdered(es, j, q);
      }
    }
  }

  // Next starts its scan at or just before the current row, skipping its key.
  lemma LeaveRow(es: seq<Entry>, s: SequenceNumber, q: nat, base: nat)
    requires Sorted(es) && Shown(es, s, base) && q <= base && forall j :: q <= j < base ==> !Visible(es, s, j)
    ensures Scan(es, s, Some(es[base].user), base, base, q)
  {
    forall j | 0 <= j < q ensures es[j].user <= es[base].user {
      UsersOrdered(es, j, base);
    }
  }

  // Entries of the current row's key before it are no rows.
  lemma SameKeyNoRow(es: seq<Entry>, s: SequenceNumber, q: int, base: nat)
    requires Sorted(es) && Shown(es, s, base) && -1 <= q < base
    requires forall j :: q < j < base ==> es[j].user >= es[base].user
    ensures NoRow(es, s, q, base)
  {
    forall j | q < j < base ensures !Shown(es, s, j) {
      UsersOrdered(es, j, base);
    }
  }

  lemma PrevRow(es: seq<Entry>, s: SequenceNumber, c: int, base: nat, p: int)
    requires Shown(es, s, base) && -1 <= c <= p < base && NoRow(es, s, p, base) && NoRow(es, s, c, p + 1)
    requires c >= 0 ==> Shown(es, s, c)
    ensures c >= 0 ==> |Rows(es, s, base)| == |Rows(es, s, c)| + 1
    ensures c == -1 ==> Rows(es, s, base) == []
  {
    assert NoRow(es, s, c, base);
    if c >= 0 {
      NextRow(es, s, c, base);
    } else {
      RowsSkip(es, s, 0, base);
    }
  }

  lemma LastRow(es: seq<Entry>, s: SequenceNumber, c: int)
    requires -1 <= c < |es| && NoRow(es, s, c, |es|) && (c >= 0 ==> Shown(es, s, c))
    ensures c >= 0 ==> |View(es, s)| == |Rows(es, s, c)| + 1
    ensures c == -1 ==> View(es, s) == []
  {
    if c >= 0 {
      NextRow(es, s, c, |es|);
    } else {
      RowsSkip(es, s, 0, |es|);
    }
  }

  lemma SeekFresh(es: seq<Entry>, s: SequenceNumber, target: UserKey, p: int)
    requires Sorted(es) && Split(es, p, From(SeekKey(target, s)))
    ensures Scan(es, s, None, -1, p - 1, p)
  {
  }

  lemma Arrive(es: seq<Entry>, s: SequenceNumber, p: nat, q: nat)
    requires p <= q <= |es| && NoRow(es, s, p - 1, q)
    ensures Rows(es, s, q) == Rows(es, s, p)
  {
    RowsSkip(es, s, p, q);
  }

  // Rows before the seek position are below the target, the others are not.
  lemma SeekRows(es: seq<Entry>, s: SequenceNumber, target: UserKey, p: nat)
    requires Sorted(es) && Split(es, p, From(SeekKey(target, s)))
    ensures |Rows(es, s, p)| <= |View(es, s)|
    ensures forall i :: 0 <= i < |Rows(es, s, p)| ==> View(es, s)[i].user < target
    ensures forall i :: |Rows(es, s, p)| <= i < |View(es, s)| ==> target <= View(es, s)[i].user
  {
    RowsPrefix(es, s, p, |es|);
    RowsMembers(es, s, p);
    var r := Rows(es, s, p);
    forall i | 0 <= i < |r| ensures View(es, s)[i].user < target {
      assert r[i] in r && View(es, s)[i] == r[i];
    }
    RowsFrom(es, s, target, p, |es|);
  }

  lemma {:induction false} RowsFrom(es: seq<Entry>, s: SequenceNumber, target: UserKey, p: nat, n: nat)
    requires p <= n <= |es| && Split(es, p, From(SeekKey(target, s)))
    ensures |Rows(es, s, p)| <= |Rows(es, s, n)|
    ensures forall i :: |Rows(es, s, p)| <= i < |Rows(es, s, n)| ==> target <= Rows(es, s, n)[i].user
  {
    if p < n {
      RowsFrom(es, s, target, p, n - 1);
    }
  }
}
