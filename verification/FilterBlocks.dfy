// The filter block: one filter for every 2 KB of table file (table/filter_block.cc).

module FilterBlocks {
  import opened DbFormat
  import opened Coding
  import opened BlockFormat
  import opened Filters

  const BASE_LG: byte := 11
  const BASE: nat := 2048

  // A filter for no keys is no bytes at all.
  function FilterOf(p: Policy, keys: seq<Bytes>): Bytes {
    if keys == [] then [] else p.create(keys)
  }

  // The filters of consecutive ranges, end to end.
  function FilterData(p: Policy, groups: seq<seq<Bytes>>): Bytes {
    if groups == [] then []
    else FilterData(p, groups[..|groups| - 1]) + FilterOf(p, groups[|groups| - 1])
  }

  function FilterOffsets(p: Policy, groups: seq<seq<Bytes>>): (r: seq<nat>)
    ensures |r| == |groups|
  {
    if groups == [] then []
    else FilterOffsets(p, groups[..|groups| - 1]) + [|FilterData(p, groups[..|groups| - 1])|]
  }

  // The finished block.
  function FilterBytes(p: Policy, groups: seq<seq<Bytes>>): Bytes {
    var data := FilterData(p, groups);
    data + Fixed32s(FilterOffsets(p, groups) + [|data|]) + [BASE_LG]
  }

  lemma {:induction false} FilterPart(p: Policy, groups: seq<seq<Bytes>>, i: nat)
    requires i < |groups|
    ensures var data, offsets := FilterData(p, groups), FilterOffsets(p, groups) + [|FilterData(p, groups)|];
            offsets[i] <= offsets[i + 1] <= |data| && data[offsets[i]..offsets[i + 1]] == FilterOf(p, groups[i])
  {
    hide FilterOf;
    var init := groups[..|groups| - 1];
    if i < |groups| - 1 {
      FilterPart(p, init, i);
      var data, offsets := FilterData(p, init), FilterOffsets(p, init) + [|FilterData(p, init)|];
      assert offsets == FilterOffsets(p, groups);
      assert FilterData(p, groups)[offsets[i]..offsets[i + 1]] == data[offsets[i]..offsets[i + 1]];
    }
  }

  // Keys one after the other, as the builder stores them.
  function Flat(keys: seq<Bytes>): Bytes {
    if keys == [] then [] else Flat(keys[..|keys| - 1]) + keys[|keys| - 1]
  }

  function Ends(keys: seq<Bytes>): (r: seq<nat>)
    ensures |r| == |keys|
  {
    if keys == [] then [] else Ends(keys[..|keys| - 1]) + [|Flat(keys[..|keys| - 1])|]
  }

  lemma {:induction false} FlatPart(keys: seq<Bytes>, i: nat)
    requires i < |keys|
    ensures var ends := Ends(keys) + [|Flat(keys)|];
            ends[i] <= ends[i + 1] <= |Flat(keys)| && Flat(keys)[ends[i]..ends[i + 1]] == keys[i]
  {
    var init := keys[..|keys| - 1];
    if i < |keys| - 1 {
      FlatPart(init, i);
      var ends := Ends(init) + [|Flat(init)|];
      assert ends == Ends(keys);
      assert Flat(keys)[ends[i]..ends[i + 1]] == Flat(init)[ends[i]..ends[i + 1]];
    }
  }

  // A data block started at `offset`, and the keys added since.
  datatype Started = Started(offset: nat, keys: seq<Bytes>)

  // Every block's keys are in the filter of the range its offset falls in.
  ghost predicate Filed(blocks: seq<Started>, groups: seq<seq<Bytes>>) {
    forall b, key :: b in blocks && key in b.keys ==> b.offset / BASE < |groups| && key in groups[b.offset / BASE]
  }

  // And the filters are for no other keys.
  ghost predicate Sourced(blocks: seq<Started>, groups: seq<seq<Bytes>>) {
    forall g, key :: 0 <= g < |groups| && key in groups[g] ==>
      exists b :: b in blocks && b.offset / BASE == g && key in b.keys
  }

  class FilterBlockBuilder {
    const policy: Policy
    var keys: Bytes
    var start: seq<nat>
    var result: Bytes
    var filterOffsets: seq<nat>
    ghost var groups: seq<seq<Bytes>>
    ghost var pending: seq<Bytes>
    ghost var blocks: seq<Started>

    ghost predicate Ok()
      reads this
    {
      && keys == Flat(pending) && start == Ends(pending)
      && result == FilterData(policy, groups) && filterOffsets == FilterOffsets(policy, groups)
      && Filed(blocks, groups + [pending]) && Sourced(blocks, groups + [pending])
    }

    constructor (p: Policy)
      ensures Ok() && policy == p && groups == [] && pending == [] && blocks == []
    {
      policy := p;
      keys, start, result, filterOffsets := [], [], [], [];
      groups, pending, blocks := [], [], [];
    }

    method GenerateFilter()
      requires Ok()
      modifies this`keys, this`start, this`result, this`filterOffsets, this`groups, this`pending
      ensures Ok() && groups == old(groups) + [old(pending)] && pending == []
    {
      ghost var was := pending;
      ghost var g := groups + [pending];
      assert g[..|g| - 1] == groups;
      FiledOn(blocks, groups, pending);
      SourcedOn(blocks, groups, pending);
      if |start| == 0 {
        filterOffsets := filterOffsets + [|result|];
        groups, pending := g, [];
        return;
      }
      var tmpKeys := Unflatten(keys, start, was);
      filterOffsets := filterOffsets + [|result|];
      result := result + policy.create(tmpKeys);
      keys, start := [], [];
      groups, pending := g, [];
    }

    // A block is about to be written at this offset.
    method StartBlock(blockOffset: nat)
      requires Ok() && blockOffset / BASE >= |groups|
      modifies this`keys, this`start, this`result, this`filterOffsets, this`groups, this`pending, this`blocks
      ensures Ok() && blocks == old(blocks) + [Started(blockOffset, [])] && |groups| == blockOffset / BASE
    {
      var filterIndex := blockOffset / BASE;
      while filterIndex > |filterOffsets|
        invariant Ok() && |groups| <= filterIndex && blocks == old(blocks)
        decreases filterIndex - |groups|
      {
        GenerateFilter();
      }
      SourcedStart(blocks, groups + [pending], blockOffset);
      blocks := blocks + [Started(blockOffset, [])];
    }

    method AddKey(key: Bytes)
      requires Ok() && blocks != [] && blocks[|blocks| - 1].offset / BASE == |groups|
      modifies this`keys, this`start, this`pending, this`blocks
      ensures Ok() && blocks != [] && blocks[..|blocks| - 1] == old(blocks[..|blocks| - 1])
      ensures |blocks| == old(|blocks|) && groups == old(groups)
      ensures blocks[|blocks| - 1] == old(blocks[|blocks| - 1]).(keys := old(blocks[|blocks| - 1]).keys + [key])
    {
      ghost var n := |blocks| - 1;
      ghost var b := blocks[n];
      ghost var after := blocks[..n] + [b.(keys := b.keys + [key])];
      FiledAdd(blocks, groups, pending, key);
      SourcedAdd(blocks, groups, pending, key);
      start := start + [|keys|];
      keys := keys + key;
      ghost var more := pending + [key];
      assert more[..|more| - 1] == pending;
      pending, blocks := more, after;
    }

    // All filters, then where each starts.
    method Finish() returns (contents: Bytes, ghost all: seq<seq<Bytes>>)
      requires Ok()
      modifies this
      ensures contents == FilterBytes(policy, all) && Filed(blocks, all) && blocks == old(blocks)
      ensures Sourced(blocks, all)
    {
      hide FilterData, FilterOffsets, Fixed32s, EncodeFixed, Filed, Sourced, FilterBytes;
      NoKeys(pending);
      if start != [] {
        GenerateFilter();
      }
      FiledDone(blocks, groups);
      SourcedDone(blocks, groups);
      all := groups;
      var arrayOffset := |result|;
      result := AppendWords(result, filterOffsets);
      FilterBytesAre(policy, all);
      result := result + EncodeFixed(arrayOffset, 4);
      result := result + [BASE_LG];
      contents := result;
    }
  }

  lemma NoKeys(pending: seq<Bytes>)
    ensures Ends(pending) == [] <==> pending == []
  {
  }

  lemma FilterBytesAre(p: Policy, groups: seq<seq<Bytes>>)
    ensures var data := FilterData(p, groups);
            FilterBytes(p, groups) == data + Fixed32s(FilterOffsets(p, groups)) + EncodeFixed(|data|, 4) + [BASE_LG]
  {
    hide FilterData, FilterOffsets, EncodeFixed;
    var words := FilterOffsets(p, groups) + [|FilterData(p, groups)|];
    assert words[..|words| - 1] == FilterOffsets(p, groups);
  }

  method AppendWords(dst: Bytes, xs: seq<nat>) returns (r: Bytes)
    ensures r == dst + Fixed32s(xs)
  {
    hide EncodeFixed;
    r := dst;
    for i := 0 to |xs|
      invariant r == dst + Fixed32s(xs[..i])
    {
      assert xs[..i + 1][..i] == xs[..i];
      r := r + EncodeFixed(xs[i], 4);
    }
    assert xs[..|xs|] == xs;
  }

  // GenerateFilter's list of keys out of the flattened ones.
  method Unflatten(keys: Bytes, start: seq<nat>, ghost pending: seq<Bytes>) returns (r: seq<Bytes>)
    requires keys == Flat(pending) && start == Ends(pending)
    ensures r == pending
  {
    hide Flat, Ends;
    var ends := start + [|keys|];
    r := [];
    for i := 0 to |start|
      invariant r == pending[..i]
    {
      FlatPart(pending, i);
      r := r + [keys[ends[i]..ends[i + 1]]];
    }
  }

  lemma FiledOn(blocks: seq<Started>, groups: seq<seq<Bytes>>, pending: seq<Bytes>)
    requires Filed(blocks, groups + [pending])
    ensures Filed(blocks, groups + [pending] + [[]])
  {
  }

  lemma FiledDone(blocks: seq<Started>, groups: seq<seq<Bytes>>)
    requires Filed(blocks, groups + [[]])
    ensures Filed(blocks, groups)
  {
  }

  lemma FiledAdd(blocks: seq<Started>, groups: seq<seq<Bytes>>, pending: seq<Bytes>, key: Bytes)
    requires Filed(blocks, groups + [pending]) && blocks != [] && blocks[|blocks| - 1].offset / BASE == |groups|
    ensures var n := |blocks| - 1;
            Filed(blocks[..n] + [blocks[n].(keys := blocks[n].keys + [key])], groups + [pending + [key]])
  {
    var n := |blocks| - 1;
    assert blocks[n] in blocks;
    assert forall b :: b in blocks[..n] ==> b in blocks;
  }

  lemma SourcedOn(blocks: seq<Started>, groups: seq<seq<Bytes>>, pending: seq<Bytes>)
    requires Sourced(blocks, groups + [pending])
    ensures Sourced(blocks, groups + [pending] + [[]])
  {
    var all := groups + [pending] + [[]];
    forall g, key | 0 <= g < |all| && key in all[g]
      ensures exists b :: b in blocks && b.offset / BASE == g && key in b.keys
    {
      assert key in (groups + [pending])[g];
    }
  }

  lemma SourcedDone(blocks: seq<Started>, groups: seq<seq<Bytes>>)
    requires Sourced(blocks, groups + [[]])
    ensures Sourced(blocks, groups)
  {
    forall g, key | 0 <= g < |groups| && key in groups[g]
      ensures exists b :: b in blocks && b.offset / BASE == g && key in b.keys
    {
      assert key in (groups + [[]])[g];
    }
  }

  lemma SourcedStart(blocks: seq<Started>, groups: seq<seq<Bytes>>, offset: nat)
    requires Sourced(blocks, groups)
    ensures Sourced(blocks + [Started(offset, [])], groups)
  {
    forall g, key | 0 <= g < |groups| && key in groups[g]
      ensures exists b :: b in blocks + [Started(offset, [])] && b.offset / BASE == g && key in b.keys
    {
      var b :| b in blocks && b.offset / BASE == g && key in b.keys;
      assert b in blocks + [Started(offset, [])];
    }
  }

  lemma SourcedAdd(blocks: seq<Started>, groups: seq<seq<Bytes>>, pending: seq<Bytes>, key: Bytes)
    requires Sourced(blocks, groups + [pending]) && blocks != [] && blocks[|blocks| - 1].offset / BASE == |groups|
    ensures var n := |blocks| - 1;
            Sourced(blocks[..n] + [blocks[n].(keys := blocks[n].keys + [key])], groups + [pending + [key]])
  {
    var n := |blocks| - 1;
    var last := blocks[n].(keys := blocks[n].keys + [key]);
    var after, all := blocks[..n] + [last], groups + [pending + [key]];
    assert last in after;
    forall g, k | 0 <= g < |all| && k in all[g]
      ensures exists b :: b in after && b.offset / BASE == g && k in b.keys
    {
      if g == |groups| && k == key {
        assert key in last.keys;
      } else {
        assert k in (groups + [pending])[g];
        var b :| b in blocks && b.offset / BASE == g && k in b.keys;
        if b in blocks[..n] {
          assert b in after;
        } else {
          assert b == blocks[n] && k in last.keys;
        }
      }
    }
  }

  // ---- Reading ----

  function Down(x: nat, bits: nat): nat {
    if bits == 0 then x else Down(x / 2, bits - 1)
  }

  lemma DownBase(x: nat)
    ensures Down(x, 11) == x / BASE
  {
    hide Down;
    DownThree(x, 8);
    DownThree(x / 8, 5);
    DownThree(x / 64, 2);
    DownTwo(x / 512);
  }

  lemma DownTwo(x: nat)
    ensures Down(x, 2) == x / 4
  {
    assert Down(x, 2) == Down(x / 2, 1) == Down(x / 2 / 2, 0);
  }

  lemma DownThree(x: nat, bits: nat)
    ensures Down(x, bits + 3) == Down(x / 8, bits)
  {
    assert Down(x, bits + 3) == Down(x / 2, bits + 2) == Down(x / 2 / 2, bits + 1);
  }

  function Word32(bs: Bytes, i: nat): nat
    requires i + 4 <= |bs|
  {
    DecodeFixed(bs[i..i + 4])
  }

  // FilterBlockReader on any contents: whatever is malformed may match.
  predicate MayMatch(p: Policy, contents: Bytes, blockOffset: nat, key: Bytes) {
    var n := |contents|;
    n < 5 || Word32(contents, n - 5) > n - 5
    || (var arrayOffset := Word32(contents, n - 5);
        var index := Down(blockOffset, contents[n - 1]);
        index >= (n - 5 - arrayOffset) / 4
        || (var start := Word32(contents, arrayOffset + 4 * index);
            var limit := Word32(contents, arrayOffset + 4 * index + 4);
            if start <= limit && limit <= arrayOffset then p.mayMatch(key, contents[start..limit])
            else start != limit))
  }

  lemma WordAt(before: Bytes, xs: seq<nat>, after: Bytes, i: nat)
    requires i < |xs| && xs[i] < TWO32
    ensures |Fixed32s(xs)| == 4 * |xs|
    ensures Word32(before + Fixed32s(xs) + after, |before| + 4 * i) == xs[i]
  {
    hide EncodeFixed, DecodeFixed, Span, Fixed32s;
    Fixed32At(xs, i);
    var all := before + Fixed32s(xs) + after;
    assert all[|before| + 4 * i..|before| + 4 * i + 4] == Fixed32s(xs)[4 * i..4 * i + 4];
    FourBytes();
    FixedRoundTrip(xs[i], 4);
  }

  lemma FourBytes()
    ensures Span(4) == TWO32
  {
    assert Span(2) == 65536;
  }

  // The reader asks the filter of the range an offset is in.
  lemma AsksItsFilter(p: Policy, groups: seq<seq<Bytes>>, offset: nat, key: Bytes)
    requires offset / BASE < |groups| && |FilterBytes(p, groups)| < TWO32
    ensures MayMatch(p, FilterBytes(p, groups), offset, key) <==> p.mayMatch(key, FilterOf(p, groups[offset / BASE]))
  {
    hide FilterData, FilterOffsets, Fixed32s, DecodeFixed, Down, FilterOf;
    var contents, data := FilterBytes(p, groups), FilterData(p, groups);
    var words := FilterOffsets(p, groups) + [|data|];
    var n, m := |contents|, |groups|;
    var index := offset / BASE;
    Fixed32Length(words);
    WordAt(data, words, [BASE_LG], m);
    DownBase(offset);
    FilterPart(p, groups, index);
    assert n - 5 == |data| + 4 * m;
    WordAt(data, words, [BASE_LG], index);
    WordAt(data, words, [BASE_LG], index + 1);
    assert contents[words[index]..words[index + 1]] == data[words[index]..words[index + 1]];
  }

  // No key of a block is ever turned away at that block's offset.
  lemma BlockKeysMatch(p: Policy, blocks: seq<Started>, groups: seq<seq<Bytes>>, b: Started, key: Bytes)
    requires NoFalseNegatives(p) && Filed(blocks, groups) && b in blocks && key in b.keys
    requires |FilterBytes(p, groups)| < TWO32
    ensures MayMatch(p, FilterBytes(p, groups), b.offset, key)
  {
    hide FilterBytes, MayMatch;
    FiledKey(blocks, groups, b, key);
    AsksItsFilter(p, groups, b.offset, key);
  }

  lemma FiledKey(blocks: seq<Started>, groups: seq<seq<Bytes>>, b: Started, key: Bytes)
    requires Filed(blocks, groups) && b in blocks && key in b.keys
    ensures b.offset / BASE < |groups| && key in groups[b.offset / BASE]
  {
  }
}
