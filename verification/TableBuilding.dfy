// Writing a table: data blocks, delayed index entries, filter, footer (table/table_builder.cc).

module TableBuilding {
  import opened DbFormat
  import opened Coding
  import opened BlockFormat
  import opened Blocks
  import opened KeyOrder
  import opened Filters
  import opened FilterBlocks
  import opened TableFormat

  // ---- What a table holds ----

  function Concat(blocks: seq<seq<Pair>>): seq<Pair> {
    if blocks == [] then [] else Concat(blocks[..|blocks| - 1]) + blocks[|blocks| - 1]
  }

  ghost predicate InOrder(ps: seq<Pair>) {
    forall i, j :: 0 <= i < j < |ps| ==> InternalLess(ps[i].key, ps[j].key)
  }

  ghost predicate Fitting(ps: seq<Pair>) {
    forall i :: 0 <= i < |ps| ==> |ps[i].key| >= 8 && Small(ps[i])
  }

  function LastKey(ps: seq<Pair>): Bytes
    requires ps != []
  {
    ps[|ps| - 1].key
  }

  // Every finished block is in the file at its handle, one after the other.
  ghost predicate Stored(file: Bytes, blocks: seq<seq<Pair>>, handles: seq<Handle>, interval: nat) {
    interval > 0 && |blocks| == |handles|
    && (forall i, j :: 0 <= i < j < |handles| ==> handles[i].offset < handles[j].offset)
    && forall i :: 0 <= i < |blocks| ==> blocks[i] != [] && Holds(file, handles[i], BlockBytes(blocks[i], interval))
  }

  // Index entry i points at block i and stands between it and what comes after.
  ghost predicate Points(blocks: seq<seq<Pair>>, handles: seq<Handle>, index: seq<Pair>, i: nat)
    requires i < |blocks| == |handles| && i < |index|
  {
    blocks[i] != [] && index[i].value == HandleBytes(handles[i]) && 8 <= |index[i].key| < TWO32
    && Succeeds(LastKey(blocks[i]), index[i].key)
    && (i + 1 < |blocks| ==> blocks[i + 1] != [] && Separates(LastKey(blocks[i]), index[i].key, blocks[i + 1][0].key))
  }

  ghost predicate Indexed(blocks: seq<seq<Pair>>, handles: seq<Handle>, index: seq<Pair>) {
    |index| <= |blocks| == |handles| && forall i :: 0 <= i < |index| ==> Points(blocks, handles, index, i)
  }

  // The keys the filter was told about, block by block.
  function KeysOf(ps: seq<Pair>): (r: seq<Bytes>)
    ensures |r| == |ps| && forall i :: 0 <= i < |ps| ==> r[i] == ps[i].key
  {
    seq(|ps|, i requires 0 <= i < |ps| => ps[i].key)
  }

  ghost predicate Told(started: seq<Started>, blocks: seq<seq<Pair>>, handles: seq<Handle>) {
    |blocks| == |handles| <= |started|
    && forall i :: 0 <= i < |blocks| ==> started[i] == Started(handles[i].offset, KeysOf(blocks[i]))
  }

  // ---- Filters on internal keys ----

  function UserKeys(keys: seq<Bytes>): (r: seq<Bytes>)
    ensures |r| == |keys| && forall i :: 0 <= i < |keys| ==> r[i] == User(keys[i])
  {
    seq(|keys|, i requires 0 <= i < |keys| => User(keys[i]))
  }

  // InternalFilterPolicy: the policy sees user keys only.
  function OnUserKeys(p: Policy): Policy {
    Policy(keys => p.create(UserKeys(keys)), (key, filter) => p.mayMatch(User(key), filter))
  }

  lemma OnUserKeysSafe(p: Policy)
    requires NoFalseNegatives(p)
    ensures NoFalseNegatives(OnUserKeys(p))
  {
    forall keys: seq<Bytes>, key | key in keys
      ensures OnUserKeys(p).mayMatch(key, OnUserKeys(p).create(keys))
    {
      var i :| 0 <= i < |keys| && keys[i] == key;
      assert UserKeys(keys)[i] == User(key);
      assert User(key) in UserKeys(keys);
    }
  }

  // ---- The finished table ----

  // "filter."
  const FILTER_PREFIX: Bytes := [102, 105, 108, 116, 101, 114, 46]

  datatype Filtered = Filtered(name: Bytes, policy: Policy, handle: Handle, groups: seq<seq<Bytes>>,
                               started: seq<Started>)

  datatype Layout = Layout(blocks: seq<seq<Pair>>, handles: seq<Handle>, index: seq<Pair>, interval: nat,
                           meta: Handle, indexHandle: Handle, filter: Option<Filtered>)

  function MetaFor(name: Bytes, h: Option<Handle>): seq<Pair> {
    if h.None? then [] else [Pair(FILTER_PREFIX + name, HandleBytes(h.value))]
  }

  function MetaPairs(f: Option<Filtered>): seq<Pair> {
    if f.None? then [] else MetaFor(f.value.name, Some(f.value.handle))
  }

  ghost predicate FilterIn(file: Bytes, f: Filtered, blocks: seq<seq<Pair>>, handles: seq<Handle>) {
    Holds(file, f.handle, FilterBytes(OnUserKeys(f.policy), f.groups)) && Filed(f.started, f.groups)
    && Sourced(f.started, f.groups) && Told(f.started, blocks, handles) && |FILTER_PREFIX + f.name| < TWO32
  }

  ghost predicate IsTable(file: Bytes, l: Layout) {
    Stored(file, l.blocks, l.handles, l.interval) && |l.index| == |l.blocks|
    && Indexed(l.blocks, l.handles, l.index) && InOrder(Concat(l.blocks)) && Fitting(Concat(l.blocks))
    && Holds(file, l.indexHandle, BlockBytes(l.index, 1))
    && Holds(file, l.meta, BlockBytes(MetaPairs(l.filter), l.interval))
    && (l.filter.Some? ==> FilterIn(file, l.filter.value, l.blocks, l.handles))
    && |file| >= FOOTER && file[|file| - FOOTER..] == FooterBytes(l.meta, l.indexHandle)
  }

  // ---- A table being built ----

  // pending says that the last block still waits for its index entry.
  ghost predicate Built(file: Bytes, interval: nat, blocks: seq<seq<Pair>>, handles: seq<Handle>,
                        index: seq<Pair>, data: seq<Pair>, pending: bool) {
    var n := |blocks|;
    Stored(file, blocks, handles, interval) && Indexed(blocks, handles, index)
    && InOrder(Concat(blocks) + data) && Fitting(Concat(blocks) + data)
    && (if pending then n > 0 && |index| == n - 1 && data == []
        else |index| == n && (n > 0 ==> data != [] && Separates(LastKey(blocks[n - 1]), index[n - 1].key, data[0].key)))
  }

  lemma BuiltEmpty(interval: nat)
    requires interval > 0
    ensures Built([], interval, [], [], [], [], false)
  {
  }

  lemma BuiltSoFar(file: Bytes, interval: nat, blocks: seq<seq<Pair>>, handles: seq<Handle>,
                   index: seq<Pair>, data: seq<Pair>, pending: bool)
    requires Built(file, interval, blocks, handles, index, data, pending)
    ensures |handles| == |blocks| && (pending ==> blocks != [] && data == [] && blocks[|blocks| - 1] != [])
    ensures pending ==> LastKey(Concat(blocks)) == LastKey(blocks[|blocks| - 1])
    ensures Concat(blocks) + data != [] ==>
      |LastKey(Concat(blocks) + data)| >= 8 && |LastKey(Concat(blocks) + data)| < TWO32
    ensures forall i :: 0 <= i < |data| ==> Small(data[i])
  {
    hide Holds, BlockBytes, Separates, Indexed, InOrder;
    var all := Concat(blocks) + data;
    forall i | 0 <= i < |data|
      ensures Small(data[i])
    {
      assert all[|Concat(blocks)| + i] == data[i];
    }
  }

  // One more pair, after the index entry that was waiting for it.
  lemma BuiltAdd(file: Bytes, interval: nat, blocks: seq<seq<Pair>>, handles: seq<Handle>,
                 index: seq<Pair>, data: seq<Pair>, pending: bool, p: Pair, sep: Bytes)
    requires Built(file, interval, blocks, handles, index, data, pending)
    requires |p.key| >= 8 && Small(p)
    requires Concat(blocks) + data != [] ==> InternalLess(LastKey(Concat(blocks) + data), p.key)
    requires pending ==> |handles| == |blocks| && blocks[|blocks| - 1] != [] && 8 <= |sep| < TWO32
                         && Separates(LastKey(blocks[|blocks| - 1]), sep, p.key)
    ensures Built(file, interval, blocks, handles,
                  if pending then index + [Pair(sep, HandleBytes(handles[|blocks| - 1]))] else index, data + [p], false)
  {
    hide Separates, Succeeds, InternalLess, Stored, Indexed, Points, InOrder, Fitting, HandleBytes;
    InOrderAdd(Concat(blocks) + data, p);
    assert Concat(blocks) + data + [p] == Concat(blocks) + (data + [p]);
    if pending {
      SeparatesSucceeds(LastKey(blocks[|blocks| - 1]), sep, p.key);
      IndexedAdd(blocks, handles, index, sep);
    }
  }

  lemma IndexedAdd(blocks: seq<seq<Pair>>, handles: seq<Handle>, index: seq<Pair>, sep: Bytes)
    requires Indexed(blocks, handles, index) && |index| == |blocks| - 1 && blocks[|blocks| - 1] != []
      && 8 <= |sep| < TWO32
    requires Succeeds(LastKey(blocks[|blocks| - 1]), sep)
    ensures Indexed(blocks, handles, index + [Pair(sep, HandleBytes(handles[|blocks| - 1]))])
  {
    var more := index + [Pair(sep, HandleBytes(handles[|blocks| - 1]))];
    forall i | 0 <= i < |more|
      ensures Points(blocks, handles, more, i)
    {
      assert i < |index| ==> Points(blocks, handles, index, i);
    }
  }

  lemma SeparatesSucceeds(a: Bytes, sep: Bytes, b: Bytes)
    requires Separates(a, sep, b)
    ensures Succeeds(a, sep)
  {
  }

  lemma InOrderAdd(ps: seq<Pair>, p: Pair)
    requires InOrder(ps) && (ps != [] ==> InternalLess(LastKey(ps), p.key))
    requires Fitting(ps) && |p.key| >= 8 && Small(p)
    ensures InOrder(ps + [p]) && Fitting(ps + [p])
  {
    forall i | 0 <= i < |ps|
      ensures InternalLess(ps[i].key, p.key)
    {
      if i < |ps| - 1 {
        InternalTransitive(ps[i].key, LastKey(ps), p.key);
      }
    }
  }

  // The data block goes to the file and waits for its index entry.
  lemma BuiltFlush(file: Bytes, interval: nat, blocks: seq<seq<Pair>>, handles: seq<Handle>,
                   index: seq<Pair>, data: seq<Pair>, more: Bytes, h: Handle)
    requires Built(file, interval, blocks, handles, index, data, false) && data != []
    requires interval > 0 && h.offset == |file| && Holds(file + more, h, BlockBytes(data, interval))
    ensures Built(file + more, interval, blocks + [data], handles + [h], index, [], true)
  {
    hide Holds, BlockBytes, Separates, Succeeds, InOrder, Fitting;
    var bs, hs := blocks + [data], handles + [h];
    assert bs[..|bs| - 1] == blocks;
    assert Concat(bs) + [] == Concat(blocks) + data;
    forall i | 0 <= i < |bs|
      ensures bs[i] != [] && Holds(file + more, hs[i], BlockBytes(bs[i], interval))
    {
      if i < |blocks| {
        HeldLater(file, more, handles[i], BlockBytes(blocks[i], interval));
      }
    }
    forall i | 0 <= i < |blocks|
      ensures handles[i].offset < |file|
    {
      HeldInside(file, handles[i], BlockBytes(blocks[i], interval));
    }
    forall i | 0 <= i < |index|
      ensures Points(bs, hs, index, i)
    {
      assert Points(blocks, handles, index, i);
    }
  }

  lemma BuiltLater(file: Bytes, more: Bytes, interval: nat, blocks: seq<seq<Pair>>, handles: seq<Handle>)
    requires Stored(file, blocks, handles, interval)
    ensures Stored(file + more, blocks, handles, interval)
  {
    hide Holds, BlockBytes;
    forall i | 0 <= i < |blocks|
      ensures blocks[i] != [] && Holds(file + more, handles[i], BlockBytes(blocks[i], interval))
    {
      HeldLater(file, more, handles[i], BlockBytes(blocks[i], interval));
    }
  }

  // What the filter builder has been told: finished blocks, and the keys of the current one.
  ghost predicate ToldSoFar(started: seq<Started>, blocks: seq<seq<Pair>>, handles: seq<Handle>, at: nat,
                            data: seq<Pair>) {
    Told(started, blocks, handles) && |started| == |blocks| + 1 && started[|blocks|] == Started(at, KeysOf(data))
  }

  lemma ToldKey(a: seq<Started>, b: seq<Started>, blocks: seq<seq<Pair>>, handles: seq<Handle>, at: nat,
                data: seq<Pair>, p: Pair)
    requires ToldSoFar(a, blocks, handles, at, data) && |b| == |a| && b[..|a| - 1] == a[..|a| - 1]
    requires b[|a| - 1] == a[|a| - 1].(keys := a[|a| - 1].keys + [p.key])
    ensures ToldSoFar(b, blocks, handles, at, data + [p])
  {
    assert KeysOf(data + [p]) == KeysOf(data) + [p.key];
    forall i | 0 <= i < |blocks|
      ensures b[i] == Started(handles[i].offset, KeysOf(blocks[i]))
    {
      assert b[..|a| - 1][i] == a[..|a| - 1][i];
    }
  }

  lemma ToldBlock(a: seq<Started>, blocks: seq<seq<Pair>>, handles: seq<Handle>, at: nat, data: seq<Pair>, h: Handle,
                  next: nat)
    requires ToldSoFar(a, blocks, handles, at, data) && h.offset == at
    ensures ToldSoFar(a + [Started(next, [])], blocks + [data], handles + [h], next, [])
  {
    assert KeysOf([]) == [];
  }

  function AllBlocks(blocks: seq<seq<Pair>>, data: seq<Pair>): seq<seq<Pair>> {
    if data == [] then blocks else blocks + [data]
  }

  // The pairs are not yet a block of this size, and neither are the first few of them.
  ghost predicate TooSmall(ps: seq<Pair>, size: nat, interval: nat)
    requires interval > 0
  {
    forall n :: 0 < n <= |ps| ==> |BlockBytes(ps[..n], interval)| < size
  }

  ghost predicate LargeEnough(ps: seq<Pair>, size: nat, interval: nat)
    requires interval > 0
  {
    ps != [] && |BlockBytes(ps, interval)| >= size && TooSmall(ps[..|ps| - 1], size, interval)
  }

  // Every finished block is just large enough, and the pairs after the last one are too few.
  ghost predicate CutBySize(blocks: seq<seq<Pair>>, data: seq<Pair>, size: nat, interval: nat) {
    interval > 0 && TooSmall(data, size, interval)
    && forall i :: 0 <= i < |blocks| ==> LargeEnough(blocks[i], size, interval)
  }

  lemma CutAdd(blocks: seq<seq<Pair>>, data: seq<Pair>, size: nat, interval: nat, p: Pair)
    requires interval > 0
    ensures CutBySize(blocks, data, size, interval) ==>
      if |BlockBytes(data + [p], interval)| >= size then CutBySize(blocks + [data + [p]], [], size, interval)
      else CutBySize(blocks, data + [p], size, interval)
  {
    hide BlockBytes;
    var more := data + [p];
    assert more[..|more| - 1] == data && more[..|more|] == more;
    assert forall n :: 0 < n <= |data| ==> more[..n] == data[..n];
  }

  class TableBuilder {
    const interval: nat
    const blockSize: nat
    const policy: Option<Policy>
    const name: Bytes
    const dataBlock: BlockBuilder
    const indexBlock: BlockBuilder
    const filterBlock: FilterBlockBuilder?
    var file: Bytes
    var offset: nat
    var lastKey: Bytes
    var numEntries: nat
    var closed: bool
    var pendingIndexEntry: bool
    var pendingHandle: Handle
    ghost var blocks: seq<seq<Pair>>
    ghost var handles: seq<Handle>

    // The pairs added so far.
    ghost function All(): seq<Pair>
      reads this, dataBlock
    {
      Concat(blocks) + dataBlock.pairs
    }

    ghost predicate FilterOk()
      reads this, dataBlock, filterBlock
    {
      (filterBlock != null <==> policy.Some?)
      && (filterBlock != null ==>
            filterBlock.Ok() && filterBlock.policy == OnUserKeys(policy.value)
            && ToldSoFar(filterBlock.blocks, blocks, handles, |file|, dataBlock.pairs)
            && |file| / BASE == |filterBlock.groups|)
    }

    ghost predicate Parts()
      reads this, dataBlock, indexBlock
    {
      dataBlock != indexBlock && dataBlock.Ok() && indexBlock.Ok() && dataBlock.interval == interval
      && indexBlock.interval == 1 && offset == |file| && |FILTER_PREFIX + name| < TWO32
    }

    ghost predicate Ok()
      reads this, dataBlock, indexBlock, filterBlock
    {
      && Parts() && FilterOk() && !closed
      && Built(file, interval, blocks, handles, indexBlock.pairs, dataBlock.pairs, pendingIndexEntry)
      && (pendingIndexEntry ==> |handles| > 0 && pendingHandle == handles[|handles| - 1])
      && numEntries == |All()| && (numEntries > 0 ==> lastKey == LastKey(All()))
    }

    constructor (restartInterval: nat, size: nat, filterPolicy: Option<Policy>, policyName: Bytes)
      requires restartInterval > 0 && |FILTER_PREFIX + policyName| < TWO32
      ensures Ok() && All() == [] && interval == restartInterval && policy == filterPolicy && name == policyName
      ensures blockSize == size && blocks == [] && dataBlock.pairs == []
      ensures fresh(dataBlock) && fresh(indexBlock) && (filterBlock != null ==> fresh(filterBlock))
    {
      hide Built, BlockBuilder.Ok, FilterBlockBuilder.Ok;
      interval, blockSize, policy, name := restartInterval, size, filterPolicy, policyName;
      dataBlock := new BlockBuilder(restartInterval);
      indexBlock := new BlockBuilder(1);
      var filter: FilterBlockBuilder? := null;
      if filterPolicy.Some? {
        filter := new FilterBlockBuilder(OnUserKeys(filterPolicy.value));
        filter.StartBlock(0);
      }
      filterBlock := filter;
      file, offset, lastKey, numEntries, closed := [], 0, [], 0, false;
      pendingIndexEntry, pendingHandle := false, Handle(0, 0);
      blocks, handles := [], [];
      new;
      BuiltEmpty(interval);
      assert KeysOf([]) == [];
    }

    // The index entry of the previous block, as short as the two keys around it allow.
    method EmitIndexEntry(key: Bytes) returns (ghost sep: Bytes)
      requires Parts() && |handles| == |blocks| > 0 && blocks[|blocks| - 1] != []
      requires lastKey == LastKey(blocks[|blocks| - 1]) && 8 <= |lastKey| < TWO32 && |key| >= 8
      requires pendingIndexEntry && pendingHandle == handles[|handles| - 1]
      modifies this`lastKey, this`pendingIndexEntry, indexBlock
      ensures Parts() && !pendingIndexEntry && 8 <= |sep| < TWO32
      ensures Separates(LastKey(blocks[|blocks| - 1]), sep, key)
      ensures indexBlock.pairs == old(indexBlock.pairs) + [Pair(sep, HandleBytes(pendingHandle))]
    {
      hide BlockBuilder.Ok, Separates, HandleBytes;
      lastKey := InternalSeparator(lastKey, key);
      sep := lastKey;
      var handleEncoding := EncodeHandle(pendingHandle);
      HandleLength(pendingHandle);
      indexBlock.Add(lastKey, handleEncoding);
      pendingIndexEntry := false;
    }

    method AddPair(key: Bytes, value: Bytes)
      requires Ok() && |key| >= 8 && Small(Pair(key, value)) && (numEntries > 0 ==> InternalLess(lastKey, key))
      modifies this`lastKey, this`numEntries, this`pendingIndexEntry, dataBlock, indexBlock, filterBlock
      ensures Ok() && All() == old(All()) + [Pair(key, value)] && !pendingIndexEntry
      ensures blocks == old(blocks) && dataBlock.pairs == old(dataBlock.pairs) + [Pair(key, value)]
    {
      hide Built, InternalLess, Separates, ToldSoFar, FilterBlockBuilder.Ok, BlockBuilder.Ok, Filed, Sourced,
        HandleBytes, OnUserKeys;
      ghost var p := Pair(key, value);
      ghost var index, data, pending := indexBlock.pairs, dataBlock.pairs, pendingIndexEntry;
      BuiltSoFar(file, interval, blocks, handles, index, data, pending);
      ghost var sep: Bytes := [];
      if pendingIndexEntry {
        assert All() == Concat(blocks);
        sep := EmitIndexEntry(key);
      }
      BuiltAdd(file, interval, blocks, handles, index, data, pending, p, sep);
      if filterBlock != null {
        TellKey(key, p);
      }
      lastKey := key;
      numEntries := numEntries + 1;
      dataBlock.Add(key, value);
    }

    method TellKey(key: Bytes, ghost p: Pair)
      requires FilterOk() && filterBlock != null && p.key == key
      modifies filterBlock
      ensures filterBlock.Ok() && filterBlock.groups == old(filterBlock.groups)
      ensures ToldSoFar(filterBlock.blocks, blocks, handles, |file|, dataBlock.pairs + [p])
    {
      ghost var started := filterBlock.blocks;
      filterBlock.AddKey(key);
      ToldKey(started, filterBlock.blocks, blocks, handles, |file|, dataBlock.pairs, p);
    }

    // The current block becomes final.
    method Flush()
      requires Ok()
      modifies this`file, this`offset, this`pendingIndexEntry, this`pendingHandle, this`blocks, this`handles,
        dataBlock, filterBlock
      ensures Ok() && All() == old(All()) && dataBlock.pairs == [] && (pendingIndexEntry <==> blocks != [])
      ensures blocks == AllBlocks(old(blocks), old(dataBlock.pairs))
    {
      hide Built, Separates, ToldSoFar, FilterBlockBuilder.Ok, BlockBuilder.Ok, Holds, StoredTrailer, BlockBytes,
        Body, Concat;
      dataBlock.EmptyIs();
      ghost var index, data, pending := indexBlock.pairs, dataBlock.pairs, pendingIndexEntry;
      BuiltPending(file, interval, blocks, handles, index, data, pending);
      if dataBlock.Empty() {
        return;
      }
      ghost var before := file;
      var contents := dataBlock.Finish();
      file, pendingHandle := WriteRawBlock(file, contents);
      offset := offset + |contents| + TRAILER;
      dataBlock.Reset();
      pendingIndexEntry := true;
      assert file == before + (contents + StoredTrailer(contents));
      BuiltFlush(before, interval, blocks, handles, index, data, contents + StoredTrailer(contents), pendingHandle);
      if filterBlock != null {
        TellBlock(|before|, data);
      }
      ConcatAdd(blocks, data);
      blocks, handles := blocks + [data], handles + [pendingHandle];
    }

    method TellBlock(ghost at: nat, ghost data: seq<Pair>)
      requires filterBlock != null && filterBlock.Ok() && ToldSoFar(filterBlock.blocks, blocks, handles, at, data)
      requires at / BASE == |filterBlock.groups| && at <= offset && pendingHandle.offset == at
      modifies filterBlock
      ensures filterBlock.Ok() && ToldSoFar(filterBlock.blocks, blocks + [data], handles + [pendingHandle], offset, [])
      ensures offset / BASE == |filterBlock.groups|
    {
      hide ToldSoFar, FilterBlockBuilder.Ok;
      ToldBlock(filterBlock.blocks, blocks, handles, at, data, pendingHandle, offset);
      filterBlock.StartBlock(offset);
    }

    // The filter block, when there is a policy.
    method WriteFilter() returns (filterHandle: Option<Handle>, ghost filtered: Option<Filtered>)
      requires FilterOk() && |FILTER_PREFIX + name| < TWO32
      modifies this`file, filterBlock
      ensures Extends(old(file), file) && MetaFor(name, filterHandle) == MetaPairs(filtered)
      ensures filtered.Some? <==> policy.Some?
      ensures filtered.Some? ==> FilterIn(file, filtered.value, blocks, handles)
                                 && filtered.value.policy == policy.value && filtered.value.name == name
    {
      hide FilterBytes, Holds, FilterBlockBuilder.Ok, Filed, Sourced, HandleBytes, Extends;
      filterHandle, filtered := None, None;
      ExtendsSelf(file);
      if filterBlock != null {
        ghost var started := filterBlock.blocks;
        var contents;
        ghost var groups;
        contents, groups := filterBlock.Finish();
        var handle;
        file, handle := AppendBlock(file, contents);
        filterHandle := Some(handle);
        filtered := Some(Filtered(name, policy.value, handle, groups, started));
      }
    }

    // The last index entry, and the index block.
    method WriteIndex(at: Bytes) returns (r: Bytes, handle: Handle)
      requires indexBlock.Ok() && indexBlock.interval == 1
        && |indexBlock.pairs| + (if pendingIndexEntry then 1 else 0) == |blocks| == |handles|
      requires Indexed(blocks, handles, indexBlock.pairs)
      requires pendingIndexEntry ==>
        blocks != [] && pendingHandle == handles[|handles| - 1] && blocks[|blocks| - 1] != []
      requires pendingIndexEntry ==> lastKey == LastKey(blocks[|blocks| - 1]) && 8 <= |lastKey| < TWO32
      modifies this`lastKey, this`pendingIndexEntry, indexBlock
      ensures Extends(at, r) && Holds(r, handle, BlockBytes(indexBlock.pairs, 1))
      ensures |indexBlock.pairs| == |blocks| && Indexed(blocks, handles, indexBlock.pairs)
    {
      hide Indexed, Succeeds, HandleBytes, BlockBytes, BlockBuilder.Ok, Holds, Extends;
      ghost var index := indexBlock.pairs;
      if pendingIndexEntry {
        lastKey := InternalSuccessor(lastKey);
        var handleEncoding := EncodeHandle(pendingHandle);
        HandleLength(pendingHandle);
        indexBlock.Add(lastKey, handleEncoding);
        pendingIndexEntry := false;
        IndexedAdd(blocks, handles, index, lastKey);
      }
      var contents := indexBlock.Finish();
      r, handle := AppendBlock(at, contents);
    }

    // The rest of the file; afterwards the builder is closed.
    method Finish() returns (ghost l: Layout)
      requires Ok()
      modifies this, dataBlock, indexBlock, filterBlock
      ensures closed && IsTable(file, l) && Concat(l.blocks) == old(All()) && l.interval == interval
      ensures (l.filter.Some? <==> policy.Some?) && l.blocks == AllBlocks(old(blocks), old(dataBlock.pairs))
      ensures l.filter.Some? ==> l.filter.value.policy == policy.value && l.filter.value.name == name
    {
      hide Built, FilterIn, Holds, Extends, BlockBytes, Indexed, Stored, InOrder, Fitting, BlockBuilder.Ok,
        FilterBlockBuilder.Ok,
        FooterBytes, ToldSoFar, IsTable, InternalLess, AllBlocks, MetaFor, MetaPairs, Filed, Sourced;
      Flush();
      closed := true;
      BuiltWhole(file, interval, blocks, handles, indexBlock.pairs, pendingIndexEntry);
      ghost var data := file;
      var filterHandle;
      ghost var filtered;
      filterHandle, filtered := WriteFilter();
      ghost var withFilter := file;
      var meta, index;
      file, meta := WriteMeta(file, interval, name, filterHandle);
      ghost var withMeta := file;
      file, index := WriteIndex(file);
      ghost var withIndex := file;
      file := WriteFooter(file, meta, index);
      offset := |file|;
      l := Layout(blocks, handles, indexBlock.pairs, interval, meta, index, filtered);
      TableIs(file, l, data, withFilter, withMeta, withIndex);
    }

    // A block is finished by the pair that makes it large enough, so the one being filled is not.
    method Add(key: Bytes, value: Bytes)
      requires Ok() && |key| >= 8 && Small(Pair(key, value)) && (numEntries > 0 ==> InternalLess(lastKey, key))
      modifies this, dataBlock, indexBlock, filterBlock
      ensures Ok() && All() == old(All()) + [Pair(key, value)]
      ensures old(CutBySize(blocks, dataBlock.pairs, blockSize, interval)) ==>
        CutBySize(blocks, dataBlock.pairs, blockSize, interval)
    {
      hide Built, FilterOk, BlockBytes, InternalLess;
      CutAdd(blocks, dataBlock.pairs, blockSize, interval, Pair(key, value));
      AddPair(key, value);
      dataBlock.SizeIsExact();
      if dataBlock.CurrentSizeEstimate() >= blockSize {
        Flush();
      }
    }
  }

  // What Finish puts together.
  lemma TableIs(file: Bytes, l: Layout, data: Bytes, filtered: Bytes, metaed: Bytes, indexed: Bytes)
    requires Stored(data, l.blocks, l.handles, l.interval) && |l.index| == |l.blocks| && l.interval > 0
    requires Indexed(l.blocks, l.handles, l.index) && InOrder(Concat(l.blocks)) && Fitting(Concat(l.blocks))
    requires Extends(data, filtered) && (l.filter.Some? ==> FilterIn(filtered, l.filter.value, l.blocks, l.handles))
    requires Extends(filtered, metaed) && Holds(metaed, l.meta, BlockBytes(MetaPairs(l.filter), l.interval))
    requires Extends(metaed, indexed) && Holds(indexed, l.indexHandle, BlockBytes(l.index, 1))
    requires Extends(indexed, file) && |file| >= FOOTER && file[|file| - FOOTER..] == FooterBytes(l.meta, l.indexHandle)
    ensures IsTable(file, l)
  {
    hide Stored, Indexed, InOrder, Fitting, Extends, Holds, BlockBytes, FilterBytes, FooterBytes;
    ExtendsOn(metaed, indexed, file);
    ExtendsOn(filtered, metaed, file);
    ExtendsOn(data, filtered, file);
    StoredOn(data, file, l.blocks, l.handles, l.interval);
    HeldOn(indexed, file, l.indexHandle, BlockBytes(l.index, 1));
    HeldOn(metaed, file, l.meta, BlockBytes(MetaPairs(l.filter), l.interval));
    if l.filter.Some? {
      var f := l.filter.value;
      HeldOn(filtered, file, f.handle, FilterBytes(OnUserKeys(f.policy), f.groups));
    }
  }

  // b is a with more at the end.
  ghost predicate Extends(a: Bytes, b: Bytes) {
    |a| <= |b| && b[..|a|] == a
  }

  lemma ExtendsSelf(a: Bytes)
    ensures Extends(a, a)
  {
    assert a[..|a|] == a;
  }

  // After the last flush.
  lemma BuiltWhole(file: Bytes, interval: nat, blocks: seq<seq<Pair>>, handles: seq<Handle>, index: seq<Pair>,
                   pending: bool)
    requires Built(file, interval, blocks, handles, index, [], pending)
    ensures Stored(file, blocks, handles, interval) && Indexed(blocks, handles, index) && interval > 0
    ensures InOrder(Concat(blocks)) && Fitting(Concat(blocks))
    ensures |index| + (if pending then 1 else 0) == |blocks| == |handles|
    ensures pending ==>
      blocks != [] && blocks[|blocks| - 1] != [] && LastKey(blocks[|blocks| - 1]) == LastKey(Concat(blocks))
    ensures Concat(blocks) != [] ==> 8 <= |LastKey(Concat(blocks))| < TWO32
  {
    assert Concat(blocks) + [] == Concat(blocks);
    BuiltSoFar(file, interval, blocks, handles, index, [], pending);
  }

  lemma ExtendsOn(a: Bytes, b: Bytes, c: Bytes)
    requires Extends(a, b) && Extends(b, c)
    ensures Extends(a, c)
  {
    assert c[..|a|] == c[..|b|][..|a|];
  }

  lemma HeldOn(a: Bytes, b: Bytes, h: Handle, contents: Bytes)
    requires Holds(a, h, contents) && Extends(a, b)
    ensures Holds(b, h, contents)
  {
    hide Holds, StoredTrailer;
    assert b == a + b[|a|..];
    HeldLater(a, b[|a|..], h, contents);
  }

  lemma StoredOn(a: Bytes, b: Bytes, blocks: seq<seq<Pair>>, handles: seq<Handle>, interval: nat)
    requires Stored(a, blocks, handles, interval) && Extends(a, b)
    ensures Stored(b, blocks, handles, interval)
  {
    hide Stored;
    assert b == a + b[|a|..];
    BuiltLater(a, b[|a|..], interval, blocks, handles);
  }

  method AppendBlock(file: Bytes, contents: Bytes) returns (r: Bytes, handle: Handle)
    ensures Extends(file, r) && Holds(r, handle, contents)
  {
    r, handle := WriteRawBlock(file, contents);
    assert r[..|file|] == file;
  }

  // The metaindex block maps the policy's name to the filter block.
  method WriteMeta(file: Bytes, interval: nat, name: Bytes, filterHandle: Option<Handle>)
    returns (r: Bytes, handle: Handle)
    requires interval > 0 && |FILTER_PREFIX + name| < TWO32
    ensures Extends(file, r) && Holds(r, handle, BlockBytes(MetaFor(name, filterHandle), interval))
  {
    hide BlockBytes, Holds, Extends, BlockBuilder.Ok, HandleBytes;
    var metaIndexBlock := new BlockBuilder(interval);
    if filterHandle.Some? {
      var handleEncoding := EncodeHandle(filterHandle.value);
      HandleLength(filterHandle.value);
      metaIndexBlock.Add(FILTER_PREFIX + name, handleEncoding);
    }
    assert metaIndexBlock.pairs == MetaFor(name, filterHandle);
    var contents := metaIndexBlock.Finish();
    r, handle := AppendBlock(file, contents);
  }

  method WriteFooter(file: Bytes, meta: Handle, index: Handle) returns (r: Bytes)
    ensures Extends(file, r) && |r| >= FOOTER && r[|r| - FOOTER..] == FooterBytes(meta, index)
  {
    r := file + FooterBytes(meta, index);
    assert r[..|file|] == file;
  }

  lemma BuiltPending(file: Bytes, interval: nat, blocks: seq<seq<Pair>>, handles: seq<Handle>,
                     index: seq<Pair>, data: seq<Pair>, pending: bool)
    requires Built(file, interval, blocks, handles, index, data, pending)
    ensures if data != [] then !pending else pending <==> blocks != []
    ensures interval > 0
  {
  }

  lemma ConcatAdd(blocks: seq<seq<Pair>>, data: seq<Pair>)
    ensures Concat(blocks + [data]) + [] == Concat(blocks) + data
  {
    assert (blocks + [data])[..|blocks|] == blocks;
  }
}
