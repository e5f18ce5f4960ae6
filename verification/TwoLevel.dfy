// The two-level iterator: an index iterator whose values are opened as block iterators
// (table/two_level_iterator.cc).

module TwoLevel {
  import opened DbFormat
  import opened Coding
  import opened BlockFormat
  import opened BlockIterator
  import opened KeyOrder
  import opened TableFormat
  import opened Filters
  import opened TableBuilding
  import opened Tables

  class TwoLevelIterator {
    const table: Table
    const indexIter: Iter
    var dataIter: Iter?
    var dataBlockHandle: Bytes
    ghost var b: nat  // the block dataIter is over

    ghost function Blocks(): seq<seq<Pair>> {
      table.l.blocks
    }

    ghost predicate Fixed()
      reads this, indexIter
    {
      table.Ok() && indexIter.Ok() && indexIter.pairs == table.l.index && indexIter.lt == InternalLess
      && |table.l.index| == |Blocks()|
    }

    ghost predicate Data()
      reads this, indexIter, dataIter
    {
      dataIter != null ==>
        dataIter.Ok() && dataIter != indexIter && dataIter.lt == InternalLess && b < |Blocks()| == |table.l.index|
        && dataIter.pairs == Blocks()[b] && dataBlockHandle == table.l.index[b].value
    }

    // Both iterators agree on the block, or there is none.
    ghost predicate Together()
      reads this, indexIter, dataIter
    {
      if dataIter == null then indexIter.at == |indexIter.pairs| else indexIter.at == b
    }

    ghost predicate Ok()
      reads this, indexIter, dataIter
    {
      Fixed() && Data() && (dataIter != null ==> dataIter.at < |Blocks()[b]| && indexIter.at == b)
    }

    // Where the iterator stands among all pairs, or past them when it is not valid.
    ghost function At(): nat
      requires Data()
      reads this, indexIter, dataIter
    {
      if dataIter == null then |Concat(Blocks())| else StartOf(Blocks(), b) + dataIter.at
    }

    predicate Valid()
      reads this, dataIter
    {
      dataIter != null && dataIter.Valid()
    }

    constructor (t: Table)
      requires t.Ok()
      ensures Ok() && dataIter == null && table == t && fresh(indexIter)
    {
      hide Table.Ok, Iter.Ok, InternalLess;
      t.OkParts();
      var it := t.IndexIterator();
      table, indexIter, dataIter, dataBlockHandle, b := t, it, null, [], 0;
    }

    // Opens the block of the index entry, unless it is open already.
    method InitDataBlock()
      requires Fixed() && Data()
      modifies this`dataIter, this`dataBlockHandle, this`b
      ensures Fixed() && Data() && Together()
      ensures dataIter != null ==> dataIter == old(dataIter) || fresh(dataIter)
    {
      hide Iter.Ok, Iter.Valid, Table.Ok, InternalLess;
      indexIter.ValidIs();
      if !indexIter.Valid() {
        dataIter := null;
      } else {
        var entry := indexIter.Current();
        if dataIter != null && entry.value == dataBlockHandle {
          SameHandle(table, b, indexIter.at);
        } else {
          var it := table.BlockReader(entry.value, indexIter.at);
          dataBlockHandle, dataIter, b := entry.value, it, indexIter.at;
        }
      }
    }

    // The position meant while dataIter may stand past the end of its block.
    ghost predicate Reaches(n: nat)
      reads this, indexIter, dataIter
    {
      Fixed() && Data() && Together()
      && if dataIter == null then n == |Concat(Blocks())| else n == StartOf(Blocks(), b) + dataIter.at
    }

    // On to the first pair of the next block, as often as needed.
    method SkipEmptyDataBlocksForward(ghost n: nat)
      requires Reaches(n)
      modifies this`dataIter, this`dataBlockHandle, this`b, indexIter, dataIter
      ensures Ok() && At() == n && (Valid() <==> n < |Concat(Blocks())|)
      ensures dataIter != null ==> dataIter == old(dataIter) || fresh(dataIter)
    {
      hide Iter.Ok, Iter.Valid, Iter.OnEntry, Table.Ok, InternalLess, Concat;
      ghost var start := dataIter;
      while dataIter == null || !dataIter.Valid()
        invariant Reaches(n)
        invariant dataIter != null ==> dataIter == start || fresh(dataIter)
        decreases |indexIter.pairs| - indexIter.at, dataIter != null
      {
        indexIter.ValidIs();
        if !indexIter.Valid() {
          dataIter := null;
          return;
        }
        dataIter.ValidIs();
        NextBlock(table, b);
        indexIter.Next();
        InitDataBlock();
        if dataIter != null {
          dataIter.SeekToFirst();
        }
      }
      NextBlock(table, b);
      dataIter.ValidIs();
    }

    // The position meant while dataIter may stand before the start of its block.
    ghost predicate FallsBack(n: int)
      reads this, indexIter, dataIter
    {
      Fixed() && Data() && Together()
      && if dataIter == null then n == -1
         else n == StartOf(Blocks(), b) + if dataIter.at < |Blocks()[b]| then dataIter.at as int else -1
    }

    // Back to the last pair of the previous block, as often as needed.
    method SkipEmptyDataBlocksBackward(ghost n: int)
      requires FallsBack(n)
      modifies this`dataIter, this`dataBlockHandle, this`b, indexIter, dataIter
      ensures Ok() && (Valid() <==> n >= 0) && (n >= 0 ==> At() == n < |Concat(Blocks())|)
      ensures dataIter != null ==> dataIter == old(dataIter) || fresh(dataIter)
    {
      hide Iter.Ok, Iter.Valid, Iter.OnEntry, Table.Ok, InternalLess, Concat;
      ghost var start := dataIter;
      while dataIter == null || !dataIter.Valid()
        invariant FallsBack(n)
        invariant dataIter != null ==> dataIter == start || fresh(dataIter)
        decreases if dataIter == null then 0 else indexIter.at + 1
      {
        indexIter.ValidIs();
        if !indexIter.Valid() {
          dataIter := null;
          return;
        }
        dataIter.ValidIs();
        Boundaries(Blocks());
        if b > 0 { NextBlock(table, b - 1); }
        indexIter.Prev();
        InitDataBlock();
        if dataIter != null {
          dataIter.SeekToLast();
        }
      }
      NextBlock(table, b);
      dataIter.ValidIs();
    }

    // key() and value().
    method Current() returns (p: Pair)
      requires Ok() && Valid()
      ensures At() < |Concat(Blocks())| && p == Concat(Blocks())[At()]
    {
      hide Iter.Ok, Iter.Valid, Table.Ok, Concat, InternalLess;
      p := dataIter.Current();
      ConcatAt(Blocks(), b, dataIter.at);
    }

    method SeekToFirst()
      requires Ok()
      modifies this`dataIter, this`dataBlockHandle, this`b, indexIter, dataIter
      ensures Ok() && At() == 0 && (Valid() <==> 0 < |Concat(Blocks())|)
      ensures dataIter != null ==> dataIter == old(dataIter) || fresh(dataIter)
    {
      hide Iter.Ok, Iter.Valid, Table.Ok, Concat, InternalLess;
      indexIter.SeekToFirst();
      InitDataBlock();
      Boundaries(Blocks());
      if dataIter != null {
        dataIter.SeekToFirst();
      }
      SkipEmptyDataBlocksForward(0);
    }

    method SeekToLast()
      requires Ok()
      modifies this`dataIter, this`dataBlockHandle, this`b, indexIter, dataIter
      ensures Ok() && (Valid() <==> 0 < |Concat(Blocks())|) && (Valid() ==> At() == |Concat(Blocks())| - 1)
      ensures dataIter != null ==> dataIter == old(dataIter) || fresh(dataIter)
    {
      hide Iter.Ok, Iter.Valid, Table.Ok, Concat, InternalLess;
      indexIter.SeekToLast();
      InitDataBlock();
      Boundaries(Blocks());
      if dataIter != null {
        NextBlock(table, b);
        dataIter.SeekToLast();
      }
      SkipEmptyDataBlocksBackward(|Concat(Blocks())| - 1);
    }

    // The first pair not below the target.
    method Seek(target: Bytes)
      requires Ok()
      modifies this`dataIter, this`dataBlockHandle, this`b, indexIter, dataIter
      ensures Ok() && FirstFrom(Concat(Blocks()), InternalLess, target, At())
        && (Valid() <==> At() < |Concat(Blocks())|)
      ensures dataIter != null ==> dataIter == old(dataIter) || fresh(dataIter)
    {
      hide Iter.Ok, Iter.Valid, Table.Ok, Concat, InternalLess, Transitive, Increasing, FirstFrom, Indexed, InOrder,
        Fitting;
      InternalIsTransitive();
      table.OkParts();
      IndexIncreasing(Blocks(), table.l.handles, table.l.index);
      indexIter.Seek(target);
      InitDataBlock();
      ghost var n: nat := |Concat(Blocks())|;
      if dataIter != null {
        BlockInOrder(Blocks(), b);
        dataIter.Seek(target);
        FoundAt(Blocks(), table.l.handles, table.l.index, target, b, dataIter.at);
        n := StartOf(Blocks(), b) + dataIter.at;
      } else {
        NotFoundAtAll(Blocks(), table.l.handles, table.l.index, target);
      }
      SkipEmptyDataBlocksForward(n);
    }

    method Next()
      requires Ok() && Valid()
      modifies this`dataIter, this`dataBlockHandle, this`b, indexIter, dataIter
      ensures Ok() && At() == old(At()) + 1 && (Valid() <==> At() < |Concat(Blocks())|)
      ensures dataIter != null ==> dataIter == old(dataIter) || fresh(dataIter)
    {
      hide Iter.Ok, Iter.Valid, Iter.OnEntry, Table.Ok, Concat, InternalLess;
      ghost var n := At() + 1;
      dataIter.ValidIs();
      dataIter.Next();
      SkipEmptyDataBlocksForward(n);
    }

    // The exact inverse of Next; before the first pair the iterator is not valid.
    method Prev()
      requires Ok() && Valid()
      modifies this`dataIter, this`dataBlockHandle, this`b, indexIter, dataIter
      ensures Ok() && (Valid() <==> old(At()) > 0) && (Valid() ==> At() == old(At()) - 1)
      ensures dataIter != null ==> dataIter == old(dataIter) || fresh(dataIter)
    {
      hide Iter.Ok, Iter.Valid, Iter.OnEntry, Table.Ok, Concat, InternalLess;
      ghost var n := At() - 1;
      dataIter.ValidIs();
      dataIter.Prev();
      SkipEmptyDataBlocksBackward(n);
    }
  }

  // Leaving block b behind leads to the start of the next one.
  lemma NextBlock(t: Table, b: nat)
    requires t.Ok() && b < |t.l.blocks|
    ensures |t.l.index| == |t.l.blocks| && t.l.blocks[b] != []
    ensures StartOf(t.l.blocks, b) + |t.l.blocks[b]| == StartOf(t.l.blocks, b + 1)
    ensures b + 1 == |t.l.blocks| ==> StartOf(t.l.blocks, b + 1) == |Concat(t.l.blocks)|
    ensures StartOf(t.l.blocks, b) < StartOf(t.l.blocks, b + 1) <= |Concat(t.l.blocks)|
  {
    hide Holds, BlockBytes, Indexed, InOrder, Concat;
    ConcatParts(t.l.blocks, b);
    Boundaries(t.l.blocks);
  }

  // Index values name blocks uniquely.
  lemma SameHandle(t: Table, a: nat, b: nat)
    requires t.Ok() && a < |t.l.index| == |t.l.blocks| && b < |t.l.index| && t.l.index[a].value == t.l.index[b].value
    ensures a == b
  {
    hide IsTable, GetHandle, HandleBytes, Holds, Good, BlockBytes, Increasing;
    BlockGood(t.file, t.l, a);
    BlockGood(t.file, t.l, b);
    HandlesApart(t.file, t.l, a, b);
  }

  lemma HandlesApart(file: Bytes, l: Layout, a: nat, b: nat)
    requires IsTable(file, l) && a < |l.handles| && b < |l.handles| && l.handles[a] == l.handles[b]
    ensures a == b
  {
  }

  // Opening a table file and scanning it gives exactly its pairs back.
  method ScanTable(file: Bytes, policy: Option<Policy>, name: Bytes, ghost l: Layout) returns (back: seq<Pair>)
    requires IsTable(file, l) && Fits(file, l) && SamePolicy(l, policy, name)
    ensures back == Concat(l.blocks)
  {
    hide InternalLess, Concat, IsTable, Fits, Iter.Ok, Iter.Valid, NoFalseNegatives, Table.Ok;
    var t := new Table(file, policy, name, true, l);
    var it := new TwoLevelIterator(t);
    ghost var ps := Concat(l.blocks);
    back := [];
    it.SeekToFirst();
    while it.Valid()
      invariant it.Ok() && fresh(it) && fresh(it.indexIter) && (it.dataIter != null ==> fresh(it.dataIter))
      invariant it.table == t && it.At() <= |ps| && back == ps[..it.At()] && (it.Valid() <==> it.At() < |ps|)
      decreases |ps| - it.At()
    {
      var p := it.Current();
      back := back + [p];
      it.Next();
    }
  }

  // BuildTable's loop over an iterator.
  method BuildTable(ps: seq<Pair>, restartInterval: nat, blockSize: nat, policy: Option<Policy>, name: Bytes)
    returns (file: Bytes, ghost l: Layout)
    requires InOrder(ps) && Fitting(ps) && restartInterval > 0 && |FILTER_PREFIX + name| < TWO32
    ensures IsTable(file, l) && Concat(l.blocks) == ps && l.interval == restartInterval
      && (l.filter.Some? <==> policy.Some?)
    ensures l.filter.Some? ==> l.filter.value.policy == policy.value && l.filter.value.name == name
    ensures CutInBlocks(l.blocks, blockSize, restartInterval)
  {
    hide InternalLess, Concat, IsTable, TableBuilder.FilterOk, TableBuilder.Parts, Built, LargeEnough, TooSmall;
    hide CutInBlocks;
    NothingCut(blockSize, restartInterval);
    var builder := new TableBuilder(restartInterval, blockSize, policy, name);
    for i := 0 to |ps|
      invariant builder.Ok() && fresh(builder) && fresh(builder.dataBlock) && fresh(builder.indexBlock)
      invariant builder.filterBlock != null ==> fresh(builder.filterBlock)
      invariant builder.All() == ps[..i] && builder.interval == restartInterval && builder.blockSize == blockSize
      invariant CutBySize(builder.blocks, builder.dataBlock.pairs, blockSize, restartInterval)
    {
      assert i > 0 ==> LastKey(ps[..i]) == ps[i - 1].key;
      builder.Add(ps[i].key, ps[i].value);
      assert ps[..i + 1] == ps[..i] + [ps[i]];
    }
    assert ps[..|ps|] == ps;
    AllCut(builder.blocks, builder.dataBlock.pairs, blockSize, restartInterval);
    l := builder.Finish();
    file := builder.file;
  }

  // All data blocks are just large enough, except that the last one may be too small.
  ghost predicate CutInBlocks(blocks: seq<seq<Pair>>, size: nat, interval: nat)
    requires interval > 0
  {
    forall i :: 0 <= i < |blocks| ==>
      LargeEnough(blocks[i], size, interval) || (i == |blocks| - 1 && TooSmall(blocks[i], size, interval))
  }

  lemma NothingCut(size: nat, interval: nat)
    requires interval > 0
    ensures CutBySize([], [], size, interval)
  {
  }

  lemma AllCut(blocks: seq<seq<Pair>>, data: seq<Pair>, size: nat, interval: nat)
    requires interval > 0 && CutBySize(blocks, data, size, interval)
    ensures CutInBlocks(AllBlocks(blocks, data), size, interval)
  {
    hide LargeEnough, TooSmall;
  }

  lemma SmallFits(file: Bytes, l: Layout)
    requires IsTable(file, l) && |file| < TWO32
    ensures Fits(file, l)
  {
    hide BlockBytes, Indexed, InOrder, Fitting, StoredTrailer, Concat;
    forall b | 0 <= b < |l.handles| ensures l.handles[b].size < TWO32 {
      assert Holds(file, l.handles[b], BlockBytes(l.blocks[b], l.interval));
    }
  }

  // A table built from any pairs in order, opened and scanned, gives exactly those pairs back.
  method BuildAndScan(ps: seq<Pair>, restartInterval: nat, blockSize: nat, policy: Option<Policy>, name: Bytes)
    returns (file: Bytes, back: seq<Pair>)
    requires InOrder(ps) && Fitting(ps) && restartInterval > 0 && |FILTER_PREFIX + name| < TWO32
    requires policy.Some? ==> NoFalseNegatives(policy.value)
    ensures |file| < TWO32 ==> back == ps
  {
    hide InternalLess, Concat, IsTable, Fits, NoFalseNegatives, InOrder, Fitting;
    ghost var l;
    file, l := BuildTable(ps, restartInterval, blockSize, policy, name);
    back := [];
    if |file| < TWO32 {
      SmallFits(file, l);
      back := ScanTable(file, policy, name, l);
    }
  }
}
