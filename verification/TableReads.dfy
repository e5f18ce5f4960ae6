// A table file read as a run.

module TableReads {
  // A lookup in a table file, read as a lookup in the run of entries the file stands for
  // (TableCache::Get with SaveValue, db/table_cache.cc and db/version_set.cc).

  import opened DbFormat
  import opened Coding
  import opened BlockFormat
  import opened BlockIterator
  import opened KeyOrder
  import opened KeyEmbedding
  import TableBuilding
  import Tables
  import TwoLevel
  import Filters

  ghost predicate Stands(t: Tables.Table, es: seq<Entry>) {
    t.Ok() && AllProper(t.Pairs()) && RunFor(t.Pairs()) == es && OneWrite(Elements(es))
  }

  lemma RunInOrder(t: Tables.Table, es: seq<Entry>)
    requires Stands(t, es)
    ensures Sorted(es)
  {
    hide InternalLess, RunFor, AllProper;
    TableInOrder(t);
    RunSorted(t.Pairs());
  }

  lemma TableInOrder(t: Tables.Table)
    requires t.Ok()
    ensures forall i, j :: 0 <= i < j < |t.Pairs()| ==> InternalLess(t.Pairs()[i].key, t.Pairs()[j].key)
  {
    hide InternalLess, TableBuilding.IsTable, Tables.Table.Ok;
    t.OkParts();
  }

  // The first pair at or after the lookup key, as entries.
  lemma FoundEntry(t: Tables.Table, es: seq<Entry>, user: Bytes, s: SequenceNumber, n: nat)
    requires Stands(t, es) && FirstFrom(t.Pairs(), InternalLess, SeekBytes(user, s), n)
    ensures n <= |es| == |t.Pairs()| && (n < |es| ==> Proper(t.Pairs()[n].key) && es[n] == EntryFor(t.Pairs()[n]))
    ensures n < |es| ==> (es[n].user == Rank(user) <==> User(t.Pairs()[n].key) == user)
    ensures Newest(Elements(es), Rank(user), s) == if n < |es| && es[n].user == Rank(user) then Some(es[n]) else None
  {
    var ps, k := t.Pairs(), SeekBytes(user, s);
    RunInOrder(t, es);
    hide InternalLess, Less, Rank, Tables.Table.Ok, SeekBytes, User, Sorted;
    SeekBytesParse(user, s);
    forall i | 0 <= i < |ps| ensures InternalLess(ps[i].key, k) <==> Less(es[i].Key(), SeekKey(Rank(user), s)) {
      ParsedOrder(ps[i].key, k);
    }
    if n < |ps| {
      RankSame(User(ps[n].key), user);
    }
    FirstDecides(es, Rank(user), s, n);
  }

  // Looking a user key up in the file finds the newest visible entry of the run, as RunGet does.
  method TableGet(t: Tables.Table, user: Bytes, s: SequenceNumber, ghost es: seq<Entry>) returns (r: Option<Entry>)
    requires Stands(t, es)
    ensures Sorted(es) && r == Newest(Elements(es), Rank(user), s)
  {
    RunInOrder(t, es);
    assert t.Ok();
    hide Stands, InternalLess, Rank, Tables.Table.Ok, SeekBytes, User, FirstFrom, ParsedKey;
    SeekBytesParse(user, s);
    var k := SeekBytes(user, s);
    var p, n := t.InternalGet(k);
    FoundEntry(t, es, user, s, n);
    r := None;
    if p.Some? && User(p.value.key) == user {
      r := Some(EntryFor(p.value));
    }
  }

  // A file built from a run of proper pairs, opened again, stands for that run.
  method BuildAndGet(ps: seq<Pair>, restartInterval: nat, blockSize: nat, policy: Option<Filters.Policy>, name: Bytes,
                     user: Bytes, s: SequenceNumber)
    returns (file: Bytes, r: Option<Entry>)
    requires TableBuilding.InOrder(ps) && TableBuilding.Fitting(ps) && AllProper(ps) && OneWrite(Elements(RunFor(ps)))
    requires restartInterval > 0 && |TableBuilding.FILTER_PREFIX + name| < TWO32
    requires policy.Some? ==> Filters.NoFalseNegatives(policy.value)
    ensures |file| < TWO32 ==> r == Newest(Elements(RunFor(ps)), Rank(user), s)
  {
    hide TableBuilding.IsTable, TableBuilding.InOrder, TableBuilding.Fitting, Tables.Fits, Filters.NoFalseNegatives,
      Tables.Table.Ok, Rank, RunFor, AllProper;
    ghost var l;
    file, l := TwoLevel.BuildTable(ps, restartInterval, blockSize, policy, name);
    r := None;
    if |file| < TWO32 {
      TwoLevel.SmallFits(file, l);
      var t := new Tables.Table(file, policy, name, true, l);
      r := TableGet(t, user, s, RunFor(ps));
    }
  }
}
