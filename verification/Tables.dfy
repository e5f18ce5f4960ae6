// Reading a table: opening it, point lookup, and the two-level iterator (table/table.cc,
// table/two_level_iterator.cc).

module Tables {
  import opened DbFormat
  import opened Coding
  import opened BlockFormat
  import opened BlockIterator
  import opened KeyOrder
  import opened Filters
  import opened FilterBlocks
  import opened TableFormat
  import opened TableBuilding

  // ---- Positions ----

  function StartOf(blocks: seq<seq<Pair>>, b: nat): nat
    requires b <= |blocks|
  {
    |Concat(blocks[..b])|
  }

  lemma {:induction false} ConcatParts(blocks: seq<seq<Pair>>, b: nat)
    requires b < |blocks|
    ensures StartOf(blocks, b) + |blocks[b]| == StartOf(blocks, b + 1) <= |Concat(blocks)|
    ensures Concat(blocks)[StartOf(blocks, b)..StartOf(blocks, b + 1)] == blocks[b]
  {
    var init := blocks[..|blocks| - 1];
    assert blocks[..b + 1][..b] == blocks[..b];
    if b == |blocks| - 1 {
      assert blocks[..b + 1] == blocks;
    } else {
      ConcatParts(init, b);
      assert init[..b] == blocks[..b] && init[..b + 1] == blocks[..b + 1];
      var lo, hi := StartOf(blocks, b), StartOf(blocks, b + 1);
      assert Concat(blocks)[lo..hi] == Concat(init)[lo..hi];
    }
  }

  lemma ConcatAt(blocks: seq<seq<Pair>>, b: nat, i: nat)
    requires b < |blocks| && i < |blocks[b]|
    ensures StartOf(blocks, b) + i < StartOf(blocks, b + 1) <= |Concat(blocks)|
    ensures Concat(blocks)[StartOf(blocks, b) + i] == blocks[b][i]
  {
    hide Concat;
    ConcatParts(blocks, b);
    assert Concat(blocks)[StartOf(blocks, b)..StartOf(blocks, b + 1)][i] == blocks[b][i];
  }

  lemma Boundaries(blocks: seq<seq<Pair>>)
    ensures StartOf(blocks, 0) == 0 && StartOf(blocks, |blocks|) == |Concat(blocks)|
  {
    assert blocks[..|blocks|] == blocks;
  }

  lemma InternalIsTransitive()
    ensures Transitive(InternalLess)
  {
    forall a, b, c | InternalLess(a, b) && InternalLess(b, c)
      ensures InternalLess(a, c)
    {
      InternalTransitive(a, b, c);
    }
  }

  // ---- What a table's parts satisfy ----

  lemma BlockInOrder(blocks: seq<seq<Pair>>, b: nat)
    requires InOrder(Concat(blocks)) && Fitting(Concat(blocks)) && b < |blocks|
    ensures Increasing(blocks[b], InternalLess) && forall i ::
      0 <= i < |blocks[b]| ==> Small(blocks[b][i]) && |blocks[b][i].key| >= 8
  {
    hide Concat, InternalLess;
    ConcatParts(blocks, b);
    var lo := StartOf(blocks, b);
    assert forall i ::
      0 <= i < |blocks[b]| ==> blocks[b][i] == Concat(blocks)[lo..lo + |blocks[b]|][i] == Concat(blocks)[lo + i];
  }

  // The last key of a block is before the first of the next.
  lemma BlocksApart(blocks: seq<seq<Pair>>, b: nat)
    requires InOrder(Concat(blocks)) && b + 1 < |blocks| && blocks[b] != [] && blocks[b + 1] != []
    ensures InternalLess(LastKey(blocks[b]), blocks[b + 1][0].key)
  {
    hide Concat, InternalLess;
    ConcatAt(blocks, b, |blocks[b]| - 1);
    ConcatAt(blocks, b + 1, 0);
  }

  // a is not after b.
  predicate NotAfter(a: Bytes, b: Bytes) {
    a == b || InternalLess(a, b)
  }

  lemma NotAfterLess(a: Bytes, b: Bytes, c: Bytes)
    requires NotAfter(a, b) && InternalLess(b, c)
    ensures InternalLess(a, c)
  {
    if a != b { InternalTransitive(a, b, c); }
  }

  lemma LessNotAfter(a: Bytes, b: Bytes, c: Bytes)
    requires InternalLess(a, b) && NotAfter(b, c)
    ensures InternalLess(a, c)
  {
    if b != c { InternalTransitive(a, b, c); }
  }

  lemma NotAfterLast(ps: seq<Pair>, i: nat)
    requires Increasing(ps, InternalLess) && i < |ps|
    ensures NotAfter(ps[i].key, LastKey(ps)) && NotAfter(ps[0].key, ps[i].key)
  {
  }

  // An index key covers its block and stays before the next block.
  lemma IndexCovers(blocks: seq<seq<Pair>>, handles: seq<Handle>, index: seq<Pair>, b: nat)
    requires Indexed(blocks, handles, index) && |index| == |blocks| && b < |blocks|
    requires InOrder(Concat(blocks)) && Fitting(Concat(blocks))
    ensures blocks[b] != [] && NotAfter(LastKey(blocks[b]), index[b].key)
    ensures b + 1 < |blocks| ==>
      (blocks[b + 1] != [] && InternalLess(index[b].key, blocks[b + 1][0].key)
       && Separates(LastKey(blocks[b]), index[b].key, blocks[b + 1][0].key))
  {
    hide InOrder, Fitting, Concat;
    assert Points(blocks, handles, index, b);
    if b + 1 < |blocks| {
      BlocksApart(blocks, b);
      SeparatesOrder(LastKey(blocks[b]), index[b].key, blocks[b + 1][0].key);
    }
  }

  lemma {:induction false} IndexInOrder(blocks: seq<seq<Pair>>, handles: seq<Handle>, index: seq<Pair>, a: nat, b: nat)
    requires Indexed(blocks, handles, index) && |index| == |blocks| && a < b < |blocks|
    requires InOrder(Concat(blocks)) && Fitting(Concat(blocks))
    ensures InternalLess(index[a].key, index[b].key)
    decreases b
  {
    hide InOrder, Fitting, Concat, InternalLess, Indexed, Separates;
    IndexCovers(blocks, handles, index, b - 1);
    IndexCovers(blocks, handles, index, b);
    BlockInOrder(blocks, b);
    NotAfterLast(blocks[b], 0);
    LessNotAfter(index[b - 1].key, blocks[b][0].key, LastKey(blocks[b]));
    LessNotAfter(index[b - 1].key, LastKey(blocks[b]), index[b].key);
    if a < b - 1 {
      IndexInOrder(blocks, handles, index, a, b - 1);
      InternalTransitive(index[a].key, index[b - 1].key, index[b].key);
    }
  }

  lemma IndexIncreasing(blocks: seq<seq<Pair>>, handles: seq<Handle>, index: seq<Pair>)
    requires Indexed(blocks, handles, index) && |index| == |blocks|
    requires InOrder(Concat(blocks)) && Fitting(Concat(blocks))
    ensures Increasing(index, InternalLess) && forall i :: 0 <= i < |index| ==> Small(index[i])
  {
    hide InOrder, Fitting, Concat, InternalLess;
    forall a, b | 0 <= a < b < |index|
      ensures InternalLess(index[a].key, index[b].key)
    {
      IndexInOrder(blocks, handles, index, a, b);
    }
    forall i | 0 <= i < |index|
      ensures Small(index[i])
    {
      assert Points(blocks, handles, index, i);
      HandleLength(handles[i]);
    }
  }

  // ---- Where a target falls ----

  // Everything before block b is below the target when the index says so.
  lemma EarlierBelow(blocks: seq<seq<Pair>>, handles: seq<Handle>, index: seq<Pair>, k: Bytes, b: nat)
    requires Indexed(blocks, handles, index) && |index| == |blocks| && b <= |blocks|
    requires InOrder(Concat(blocks)) && Fitting(Concat(blocks))
    requires forall i :: 0 <= i < b ==> InternalLess(index[i].key, k)
    ensures StartOf(blocks, b) <= |Concat(blocks)|
    ensures forall n :: 0 <= n < StartOf(blocks, b) ==> InternalLess(Concat(blocks)[n].key, k)
  {
    hide Concat, InternalLess, Indexed, Separates, Fitting;
    Boundaries(blocks);
    if b > 0 {
      IndexCovers(blocks, handles, index, b - 1);
      ConcatAt(blocks, b - 1, |blocks[b - 1]| - 1);
      ConcatParts(blocks, b - 1);
      NotAfterLess(LastKey(blocks[b - 1]), index[b - 1].key, k);
      var last := StartOf(blocks, b) - 1;
      forall n | 0 <= n < last
        ensures InternalLess(Concat(blocks)[n].key, k)
      {
        InternalTransitive(Concat(blocks)[n].key, Concat(blocks)[last].key, k);
      }
    }
  }

  // The first entry not below k, given the index entry and the block entry the seeks found.
  lemma FoundAt(blocks: seq<seq<Pair>>, handles: seq<Handle>, index: seq<Pair>, k: Bytes, b: nat, j: nat)
    requires Indexed(blocks, handles, index) && |index| == |blocks| && b < |blocks|
    requires InOrder(Concat(blocks)) && Fitting(Concat(blocks))
    requires FirstFrom(index, InternalLess, k, b) && FirstFrom(blocks[b], InternalLess, k, j)
    ensures FirstFrom(Concat(blocks), InternalLess, k, StartOf(blocks, b) + j)
    ensures j < |blocks[b]| ==>
      StartOf(blocks, b) + j < |Concat(blocks)| && Concat(blocks)[StartOf(blocks, b) + j] == blocks[b][j]
    ensures j == |blocks[b]| ==>
      (StartOf(blocks, b) + j == StartOf(blocks, b + 1)
       && (b + 1 < |blocks| ==> blocks[b + 1] != [] && StartOf(blocks, b + 1) < |Concat(blocks)|
                                && Concat(blocks)[StartOf(blocks, b + 1)] == blocks[b + 1][0]
                                && User(blocks[b + 1][0].key) != User(k) && !InternalLess(blocks[b + 1][0].key, k)))
    ensures j == |blocks[b]| && b + 1 == |blocks| ==> StartOf(blocks, b) + j == |Concat(blocks)|
  {
    hide Concat, InternalLess, Indexed, Separates, Fitting, InOrder;
    EarlierBelow(blocks, handles, index, k, b);
    ConcatParts(blocks, b);
    Boundaries(blocks);
    var n := StartOf(blocks, b) + j;
    forall m | 0 <= m < n
      ensures InternalLess(Concat(blocks)[m].key, k)
    {
      if m >= StartOf(blocks, b) {
        ConcatAt(blocks, b, m - StartOf(blocks, b));
      }
    }
    if j < |blocks[b]| {
      ConcatAt(blocks, b, j);
    } else if b + 1 < |blocks| {
      IndexCovers(blocks, handles, index, b);
      ConcatAt(blocks, b + 1, 0);
      GapHasNoEntry(LastKey(blocks[b]), index[b].key, blocks[b + 1][0].key, k);
      InternalAsymmetric(k, blocks[b + 1][0].key);
    }
  }

  lemma NotFoundAtAll(blocks: seq<seq<Pair>>, handles: seq<Handle>, index: seq<Pair>, k: Bytes)
    requires Indexed(blocks, handles, index) && |index| == |blocks|
    requires InOrder(Concat(blocks)) && Fitting(Concat(blocks))
    requires FirstFrom(index, InternalLess, k, |index|)
    ensures FirstFrom(Concat(blocks), InternalLess, k, |Concat(blocks)|)
  {
    EarlierBelow(blocks, handles, index, k, |blocks|);
    Boundaries(blocks);
  }

  // ---- Blocks in the file ----

  // Offsets fit 64 bits, and every block fits the 32-bit sizes used inside blocks and filters.
  ghost predicate Fits(file: Bytes, l: Layout) {
    |file| < TWO64 && l.indexHandle.size < TWO32 && l.meta.size < TWO32
    && (forall b :: 0 <= b < |l.handles| ==> l.handles[b].size < TWO32)
    && (l.filter.Some? ==> l.filter.value.handle.size < TWO32)
  }

  lemma BlockGood(file: Bytes, l: Layout, b: nat)
    requires IsTable(file, l) && Fits(file, l) && b < |l.blocks|
    ensures |l.handles| == |l.blocks| == |l.index| && l.index[b].value == HandleBytes(l.handles[b])
    ensures GetHandle(l.index[b].value) == Some(Parsed(l.handles[b], []))
    ensures l.interval > 0 && Holds(file, l.handles[b], BlockBytes(l.blocks[b], l.interval))
    ensures Good(BlockBytes(l.blocks[b], l.interval), l.blocks[b], l.interval) && Increasing(l.blocks[b], InternalLess)
  {
    hide BlockBytes, Concat, InternalLess, StoredTrailer, HandleBytes, GetHandle;
    assert Points(l.blocks, l.handles, l.index, b);
    BlockInOrder(l.blocks, b);
    HandleRoundTrip(l.handles[b], []);
    assert HandleBytes(l.handles[b]) + [] == HandleBytes(l.handles[b]);
  }

  lemma IndexGood(file: Bytes, l: Layout)
    requires IsTable(file, l) && Fits(file, l)
    ensures Good(BlockBytes(l.index, 1), l.index, 1) && Increasing(l.index, InternalLess)
    ensures Holds(file, l.indexHandle, BlockBytes(l.index, 1))
    ensures l.indexHandle.offset < TWO64 && l.indexHandle.size < TWO64
  {
    hide BlockBytes, Concat, InternalLess, StoredTrailer;
    IndexIncreasing(l.blocks, l.handles, l.index);
  }

  lemma MetaGood(file: Bytes, l: Layout)
    requires IsTable(file, l) && Fits(file, l)
    ensures l.interval > 0 && Good(BlockBytes(MetaPairs(l.filter), l.interval), MetaPairs(l.filter), l.interval)
    ensures Holds(file, l.meta, BlockBytes(MetaPairs(l.filter), l.interval))
    ensures Increasing(MetaPairs(l.filter), BytesLess) && l.meta.offset < TWO64 && l.meta.size < TWO64
    ensures l.filter.Some? ==>
      Holds(file, l.filter.value.handle, FilterBytes(OnUserKeys(l.filter.value.policy), l.filter.value.groups))
    ensures l.filter.Some? ==> |FilterBytes(OnUserKeys(l.filter.value.policy), l.filter.value.groups)| < TWO32
    ensures l.filter.Some? ==> GetHandle(HandleBytes(l.filter.value.handle)) == Some(Parsed(l.filter.value.handle, []))
  {
    hide BlockBytes, Concat, InternalLess, StoredTrailer, HandleBytes, GetHandle, FilterBytes, Indexed, Stored;
    assert l.interval > 0 by { StoredInterval(file, l); }
    if l.filter.Some? {
      HandleLength(l.filter.value.handle);
      HandleRoundTrip(l.filter.value.handle, []);
      assert HandleBytes(l.filter.value.handle) + [] == HandleBytes(l.filter.value.handle);
    }
  }

  lemma StoredInterval(file: Bytes, l: Layout)
    requires IsTable(file, l)
    ensures l.interval > 0
  {
  }

  lemma PrefixedNames(a: Bytes, b: Bytes)
    ensures FILTER_PREFIX + a == FILTER_PREFIX + b <==> a == b
  {
    assert (FILTER_PREFIX + a)[|FILTER_PREFIX|..] == a;
    assert (FILTER_PREFIX + b)[|FILTER_PREFIX|..] == b;
  }

  lemma BytesAreTransitive()
    ensures Transitive(BytesLess)
  {
    forall a, b, c | BytesLess(a, b) && BytesLess(b, c)
      ensures BytesLess(a, c)
    {
      BytesTransitive(a, b, c);
    }
  }

  // A policy by name: the reader's is the writer's whenever the names agree.
  ghost predicate SamePolicy(l: Layout, policy: Option<Policy>, name: Bytes) {
    (policy.Some? ==> NoFalseNegatives(policy.value))
    && (policy.Some? && l.filter.Some? && l.filter.value.name == name ==> l.filter.value.policy == policy.value)
  }

  // The filter for the 2 kB of file a position is in: made of the user keys of the blocks that start there.
  function FilterAt(f: Filtered, offset: nat): Bytes {
    if offset / 2048 >= |f.groups| || f.groups[offset / 2048] == [] then []
    else f.policy.create(UserKeys(f.groups[offset / 2048]))
  }

  class Table {
    const file: Bytes
    const verify: bool
    const policy: Option<Policy>
    const indexData: Bytes
    const filter: Option<Bytes>
    ghost const l: Layout

    ghost predicate Ok() {
      && IsTable(file, l) && Fits(file, l) && indexData == BlockBytes(l.index, 1)
      && (filter.Some? ==>
            policy.Some? && NoFalseNegatives(policy.value) && l.filter.Some? && l.filter.value.policy == policy.value
            && filter.value == FilterBytes(OnUserKeys(policy.value), l.filter.value.groups))
    }

    // Table::Open and ReadMeta.
    constructor (contents: Bytes, filterPolicy: Option<Policy>, name: Bytes, verifyChecksums: bool,
                 ghost layout: Layout)
      requires IsTable(contents, layout) && Fits(contents, layout) && SamePolicy(layout, filterPolicy, name)
      ensures Ok() && l == layout && file == contents
      ensures filter.Some? <==> filterPolicy.Some? && layout.filter.Some? && layout.filter.value.name == name
    {
      hide IsTable, BlockBytes, GetFooter, Holds, NoFalseNegatives;
      FooterReads(contents, layout);
      var footer := GetFooter(contents[|contents| - FOOTER..]).value;
      IndexGood(contents, layout);
      HeldReads(contents, footer.index, BlockBytes(layout.index, 1), verifyChecksums);
      var index := ReadBlock(contents, footer.index, verifyChecksums).value;
      var found := None;
      if filterPolicy.Some? {
        found := ReadMeta(contents, footer.meta, name, verifyChecksums, layout);
      }
      file, verify, policy, indexData, filter := contents, verifyChecksums, filterPolicy, index, found;
      l := layout;
    }

    ghost function Pairs(): seq<Pair> {
      Concat(l.blocks)
    }

    // BlockReader: the block an index entry points at.
    method BlockReader(indexValue: Bytes, ghost b: nat) returns (it: Iter)
      requires Ok() && b < |l.blocks| == |l.index| && indexValue == l.index[b].value
      ensures fresh(it) && it.Ok() && it.at == |it.pairs| && it.pairs == l.blocks[b] && it.lt == InternalLess
      ensures Increasing(it.pairs, InternalLess)
    {
      hide IsTable, BlockBytes, GetHandle, HandleBytes, Holds, InternalLess, FilterBytes, Good;
      BlockGood(file, l, b);
      var handle := GetHandle(indexValue).value.value;
      HeldReads(file, handle, BlockBytes(l.blocks[b], l.interval), verify);
      var contents := ReadBlock(file, handle, verify).value;
      it := new Iter(contents, InternalLess, l.blocks[b], l.interval);
    }

    // A fresh iterator over the index block.
    method IndexIterator() returns (it: Iter)
      requires Ok()
      ensures fresh(it) && it.Ok() && it.at == |it.pairs| && it.pairs == l.index && it.lt == InternalLess
      ensures Increasing(it.pairs, InternalLess)
    {
      hide IsTable, BlockBytes, Holds, InternalLess, FilterBytes, Good;
      IndexGood(file, l);
      it := new Iter(indexData, InternalLess, l.index, 1);
    }

    // InternalGet: nothing, or the first pair not below k.  Nothing is returned only when that
    // pair is missing or belongs to another user key.
    method InternalGet(k: Bytes) returns (r: Option<Pair>, ghost n: nat)
      requires Ok() && |k| >= 8
      ensures FirstFrom(Pairs(), InternalLess, k, n)
      ensures r.Some? ==> n < |Pairs()| && r.value == Pairs()[n]
      ensures r.None? ==> n == |Pairs()| || User(Pairs()[n].key) != User(k)
    {
      hide IsTable, InternalLess, Concat, GetHandle, Iter.Ok, Iter.Valid, MayMatch, FirstFrom, Increasing, Transitive,
           Indexed, InOrder, Fitting, Table.Ok, FilterAt, User;
      InternalIsTransitive();
      var iiter := IndexIterator();
      iiter.Seek(k);
      iiter.ValidIs();
      OkParts();
      r := None;
      if !iiter.Valid() {
        FirstBound(l.index, k, iiter.at);
        NotFoundAtAll(l.blocks, l.handles, l.index, k);
        return None, |Pairs()|;
      }
      var entry := iiter.Current();
      ghost var b := iiter.at;
      BlockInOrder(l.blocks, b);
      ghost var j := FirstIn(l.blocks[b], k);
      FirstBound(l.blocks[b], k, j);
      FoundAt(l.blocks, l.handles, l.index, k, b, j);
      n := StartOf(l.blocks, b) + j;
      var may := AskFilter(entry.value, k, b);
      if may {
        r := SeekBlock(entry.value, k, b, j);
      }
    }

    lemma OkParts()
      requires Ok()
      ensures Indexed(l.blocks, l.handles, l.index) && |l.index| == |l.blocks| == |l.handles|
      ensures InOrder(Concat(l.blocks)) && Fitting(Concat(l.blocks))
    {
      hide IsTable, Indexed, InOrder, Fitting, Concat;
      TableParts(file, l);
    }

    // The filter's answer for the block an index entry points at.
    method AskFilter(indexValue: Bytes, k: Bytes, ghost b: nat) returns (may: bool)
      requires Ok() && b < |l.blocks| == |l.index| && indexValue == l.index[b].value
      ensures !may ==> forall i :: 0 <= i < |l.blocks[b]| ==> User(l.blocks[b][i].key) != User(k)
      ensures |l.handles| == |l.blocks| && (filter.None? ==> may)
      ensures filter.Some? ==>
        may == l.filter.value.policy.mayMatch(User(k), FilterAt(l.filter.value, l.handles[b].offset))
    {
      hide IsTable, GetHandle, MayMatch, NoFalseNegatives, FilterBytes, Good, Holds, Increasing;
      BlockGood(file, l, b);
      var handle := GetHandle(indexValue).value.value;
      may := filter.None? || MayMatch(OnUserKeys(policy.value), filter.value, handle.offset, k);
      if filter.Some? {
        FilterAsked(b, k);
      }
      if !may {
        FilterMisses(b, k);
      }
    }

    method SeekBlock(indexValue: Bytes, k: Bytes, ghost b: nat, ghost j: nat) returns (r: Option<Pair>)
      requires Ok() && b < |l.blocks| == |l.index| && indexValue == l.index[b].value
      requires FirstFrom(l.blocks[b], InternalLess, k, j)
      ensures r == if j < |l.blocks[b]| then Some(l.blocks[b][j]) else None
    {
      hide IsTable, InternalLess, Iter.Ok, Iter.Valid, FirstFrom, Increasing, Transitive, Table.Ok;
      InternalIsTransitive();
      var it := BlockReader(indexValue, b);
      it.Seek(k);
      it.ValidIs();
      FirstUnique(l.blocks[b], k, j, it.at);
      FirstBound(l.blocks[b], k, j);
      r := None;
      if it.Valid() {
        var p := it.Current();
        r := Some(p);
      }
    }

    lemma FilterAsked(b: nat, k: Bytes)
      requires Ok() && b < |l.blocks| == |l.handles| && filter.Some?
      ensures MayMatch(OnUserKeys(policy.value), filter.value, l.handles[b].offset, k) <==>
        l.filter.value.policy.mayMatch(User(k), FilterAt(l.filter.value, l.handles[b].offset))
    {
      hide BlockBytes, Concat, InternalLess, StoredTrailer, HandleBytes, FilterBytes, Indexed, MayMatch;
      MetaGood(file, l);
      var f := l.filter.value;
      assert f.started[b] in f.started && l.blocks[b][0].key in f.started[b].keys by {
        assert KeysOf(l.blocks[b])[0] == l.blocks[b][0].key;
      }
      AsksItsFilter(OnUserKeys(policy.value), l.filter.value.groups, l.handles[b].offset, k);
    }

    // A block whose filter turns k away has no pair with k's user key.
    lemma FilterMisses(b: nat, k: Bytes)
      requires Ok() && b < |l.blocks| == |l.handles|
      requires filter.Some? && !MayMatch(OnUserKeys(policy.value), filter.value, l.handles[b].offset, k)
      ensures forall i :: 0 <= i < |l.blocks[b]| ==> User(l.blocks[b][i].key) != User(k)
    {
      hide BlockBytes, Concat, InternalLess, StoredTrailer, HandleBytes, FilterBytes, Indexed, Stored,
        NoFalseNegatives, MayMatch;
      var f := l.filter.value;
      MetaGood(file, l);
      OnUserKeysSafe(policy.value);
      forall i | 0 <= i < |l.blocks[b]|
        ensures User(l.blocks[b][i].key) != User(k)
      {
        var key := l.blocks[b][i].key;
        assert f.started[b] in f.started && KeysOf(l.blocks[b])[i] == key && key in f.started[b].keys;
        BlockKeysMatch(OnUserKeys(policy.value), f.started, f.groups, f.started[b], key);
        SameUserSameMatch(policy.value, filter.value, l.handles[b].offset, key, k);
      }
    }
  }

  lemma SameUserSameMatch(p: Policy, contents: Bytes, offset: nat, a: Bytes, b: Bytes)
    ensures User(a) == User(b) ==>
      MayMatch(OnUserKeys(p), contents, offset, a) == MayMatch(OnUserKeys(p), contents, offset, b)
  {
    hide User, DecodeFixed, Down;
  }

  lemma TableParts(file: Bytes, l: Layout)
    requires IsTable(file, l)
    ensures Indexed(l.blocks, l.handles, l.index) && |l.index| == |l.blocks| == |l.handles|
    ensures InOrder(Concat(l.blocks)) && Fitting(Concat(l.blocks))
  {
  }

  lemma FirstBound(ps: seq<Pair>, k: Bytes, j: nat)
    requires FirstFrom(ps, InternalLess, k, j)
    ensures j <= |ps|
  {
  }

  // The first position in ps not below k.
  lemma {:induction false} FirstIn(ps: seq<Pair>, k: Bytes) returns (j: nat)
    requires Increasing(ps, InternalLess)
    ensures FirstFrom(ps, InternalLess, k, j)
  {
    j := 0;
    while j < |ps| && InternalLess(ps[j].key, k)
      invariant j <= |ps| && forall i :: 0 <= i < j ==> InternalLess(ps[i].key, k)
    {
      j := j + 1;
    }
  }

  lemma FirstUnique(ps: seq<Pair>, k: Bytes, i: nat, j: nat)
    requires FirstFrom(ps, InternalLess, k, i) && FirstFrom(ps, InternalLess, k, j)
    ensures i == j
  {
  }

  lemma FooterReads(file: Bytes, l: Layout)
    requires IsTable(file, l) && Fits(file, l)
    ensures |file| >= FOOTER && GetFooter(file[|file| - FOOTER..]) == Some(Footer(l.meta, l.indexHandle))
  {
    hide BlockBytes, Concat, StoredTrailer, FooterBytes, GetFooter, Indexed, Stored, FilterBytes;
    FooterRoundTrip(l.meta, l.indexHandle);
  }

  // The filter under this policy name, if the table has one.
  method ReadMeta(file: Bytes, meta: Handle, name: Bytes, verify: bool, ghost l: Layout) returns (filter: Option<Bytes>)
    requires IsTable(file, l) && Fits(file, l) && meta == l.meta
    ensures filter.Some? <==> l.filter.Some? && l.filter.value.name == name
    ensures filter.Some? ==> filter.value == FilterBytes(OnUserKeys(l.filter.value.policy), l.filter.value.groups)
  {
    hide IsTable, BlockBytes, GetHandle, HandleBytes, Holds, BytesLess, FilterBytes, Good, Iter.Ok, Iter.Valid,
      Transitive,
         Increasing;
    MetaGood(file, l);
    ghost var pairs := MetaPairs(l.filter);
    HeldReads(file, meta, BlockBytes(pairs, l.interval), verify);
    var contents := ReadBlock(file, meta, verify).value;
    var it := new Iter(contents, BytesLess, pairs, l.interval);
    BytesAreTransitive();
    var key := FILTER_PREFIX + name;
    it.Seek(key);
    it.ValidIs();
    BytesIrreflexive(key);
    if l.filter.Some? { PrefixedNames(l.filter.value.name, name); }
    filter := None;
    if it.Valid() {
      var p := it.Current();
      if p.key == key {
        var handle := GetHandle(p.value).value.value;
        HeldReads(file, handle, FilterBytes(OnUserKeys(l.filter.value.policy), l.filter.value.groups), verify);
        filter := ReadBlock(file, handle, verify);
      }
    }
  }
}
