// The memtable.

module MemTables {
  // The memtable over its skip list (db/memtable.cc), and what a reader sees while the one
  // writer is inserting (db/skiplist.h: reads take no lock).

  import opened DbFormat
  import opened SkipLists

  // A sorted run is determined by its entries, so a memtable and its scan say the same.
  lemma {:induction false} SortedUnique(a: seq<Entry>, b: seq<Entry>)
    requires Sorted(a) && Sorted(b) && Elements(a) == Elements(b)
    ensures a == b
    decreases |a|
  {
    assert forall e :: e in a <==> e in Elements(b);
    assert forall e :: e in b <==> e in Elements(a);
    NoElements(a);
    NoElements(b);
    if a != [] && b != [] {
      LeastFirst(a);
      LeastFirst(b);
      assert a[0] in b && b[0] in a;
      RestElements(a);
      RestElements(b);
      SortedUnique(a[1..], b[1..]);
      assert a == [a[0]] + a[1..] && b == [b[0]] + b[1..];
    }
  }

  lemma NoElements(a: seq<Entry>)
    ensures Elements(a) == {} <==> a == []
  {
    if a != [] {
      assert a[0] in Elements(a);
    }
  }

  lemma LeastFirst(a: seq<Entry>)
    requires Sorted(a) && a != []
    ensures forall e :: e in a ==> e == a[0] || Less(a[0].Key(), e.Key())
  {
  }

  lemma RestElements(a: seq<Entry>)
    requires Sorted(a) && a != []
    ensures Sorted(a[1..]) && Elements(a[1..]) == Elements(a) - {a[0]}
  {
    assert a == [a[0]] + a[1..];
    assert forall i :: 1 <= i < |a| ==> Less(a[0].Key(), a[i].Key());
    assert forall i :: 0 <= i < |a[1..]| ==> a[1..][i] == a[i + 1];
  }

  // The first entry at or after (k, s) is the newest one visible to s, or belongs to another
  // user key when there is none.
  lemma FirstIsNewest(E: set<Entry>, k: UserKey, s: SequenceNumber, r: Option<Entry>)
    requires OneWrite(E) && IsFirst(E, SeekKey(k, s), r)
    ensures Newest(E, k, s) == if r.Some? && r.value.user == k then r else None
  {
    if r.Some? && r.value.user == k {
      assert IsNewest(E, k, s, r.value);
      NewestIs(E, k, s, r.value);
    } else {
      forall e | e in E && e.user == k
        ensures e.sn > s
      {
        assert e.sn <= s ==> !Less(e.Key(), SeekKey(k, s));
      }
      NewestNone(E, k, s);
    }
  }

  class MemTable {
    const table: SkipList

    ghost predicate Ok()
      reads this, table, table.all
    {
      table.Ok() && OneWrite(table.Contents())
    }

    constructor ()
      ensures Ok() && fresh(table) && fresh(table.all) && table.Contents() == {}
    {
      table := new SkipList();
    }

    // MemTable::Add; sequence numbers are handed out once.
    method Add(e: Entry, height: nat)
      requires Ok() && 1 <= height <= MAX_HEIGHT
      requires forall o :: o in table.Contents() ==> o.sn != e.sn
      modifies table`maxHeight, table`levels, table`all, table.all
      ensures Ok() && fresh(table.all - old(table.all))
      ensures table.Contents() == old(table.Contents()) + {e}
    {
      table.Insert(e, height);
    }

    method Get(k: UserKey, s: SequenceNumber) returns (r: Option<Entry>)
      requires Ok()
      ensures r == Newest(table.Contents(), k, s)
    {
      var iter := new ListIterator(table);
      iter.Seek(SeekKey(k, s));
      FirstIsNewest(table.Contents(), k, s, EntryOf(iter.node));
      if iter.node != null && iter.node.entry.user == k {
        r := Some(iter.node.entry);
      } else {
        r := None;
      }
    }

    // The scan with which BuildTable writes the memtable out.
    method Scan() returns (run: seq<Entry>)
      requires Ok()
      ensures Sorted(run) && Elements(run) == table.Contents()
    {
      var iter := new ListIterator(table);
      iter.SeekToFirst();
      run := [];
      while iter.node != null
        modifies iter
        invariant iter.Ok() && Walked(table.Contents(), run)
        invariant IsSuccessor(table.Contents(), Last(run), EntryOf(iter.node))
        decreases |table.Contents() - Elements(run)|
      {
        ghost var before := run;
        WalkOn(table.Contents(), run, iter.node.entry);
        run := run + [iter.node.entry];
        SmallerSet(table.Contents() - Elements(run), table.Contents() - Elements(before));
        iter.Next();
      }
      WalkEnds(table.Contents(), run);
    }
  }

  function Last(run: seq<Entry>): Option<Entry> {
    if run == [] then None else Some(run[|run| - 1])
  }

  // run is a front part of E in order.
  ghost predicate Walked(E: set<Entry>, run: seq<Entry>) {
    && Sorted(run) && Elements(run) <= E
    && forall e :: e in E && e !in run ==> Past(Last(run), e)
  }

  lemma WalkOn(E: set<Entry>, run: seq<Entry>, e: Entry)
    requires Walked(E, run) && IsSuccessor(E, Last(run), Some(e))
    ensures Walked(E, run + [e]) && e !in run
    ensures Elements(run + [e]) == Elements(run) + {e}
  {
    forall i | 0 <= i < |run|
      ensures Less(run[i].Key(), e.Key())
    {
      if i < |run| - 1 {
        assert Less(run[i].Key(), run[|run| - 1].Key());
      }
    }
  }

  lemma WalkEnds(E: set<Entry>, run: seq<Entry>)
    requires Walked(E, run) && IsSuccessor(E, Last(run), None)
    ensures Elements(run) == E
  {
  }
}
