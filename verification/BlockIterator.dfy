// Iterating over a finished block: forward parsing, backward over restart points, binary search
// (table/block.cc).

module BlockIterator {
  import opened DbFormat
  import opened Coding
  import opened BlockFormat
  import opened Blocks

  // ---- Reading a block that was built ----

  ghost predicate Good(data: Bytes, ps: seq<Pair>, interval: nat) {
    interval > 0 && data == BlockBytes(ps, interval) && |data| < TWO32 && forall i :: 0 <= i < |ps| ==> Small(ps[i])
  }

  function Limit(ps: seq<Pair>, interval: nat): nat
    requires interval > 0
  {
    |Body(ps, |ps|, interval)|
  }

  lemma BodyIn(data: Bytes, ps: seq<Pair>, interval: nat)
    requires Good(data, ps, interval)
    ensures Limit(ps, interval) <= |data| && data[..Limit(ps, interval)] == Body(ps, |ps|, interval)
  {
    hide Body, Fixed32s, Restarts;
  }

  // Entry i is read back from its offset.
  lemma ReadEntry(data: Bytes, ps: seq<Pair>, interval: nat, i: nat)
    requires Good(data, ps, interval) && i < |ps|
    ensures var lo, hi, limit := Offset(ps, i, interval), Offset(ps, i + 1, interval), Limit(ps, interval);
      lo + 3 <= hi <= limit <= |data|
      && var m := SharedAt(ps, i, interval);
      GetHead(data[lo..limit]) ==
        Some(Head(m, |ps[i].key| - m, |ps[i].value|, ps[i].key[m..] + ps[i].value + data[hi..limit]))
      && hi - lo == |EntryBytes(ps[i], m)|
  {
    hide EntryBytes, Shared, GetHead;
    var n := |ps|;
    var lo, hi, limit, m := Offset(ps, i, interval), Offset(ps, i + 1, interval), Limit(ps, interval),
      SharedAt(ps, i, interval);
    BodyIn(data, ps, interval);
    EntryAt(ps, i, interval, n);
    Offsets(ps, i, i + 1, interval);
    var tail := data[hi..limit];
    assert data[lo..hi] == data[..limit][lo..hi] == EntryBytes(ps[i], m);
    assert data[lo..limit] == EntryBytes(ps[i], m) + tail;
    HeadRoundTrip(ps[i], m, tail);
  }

  // Where the pieces of an entry are in the data.
  lemma EntryPieces(data: Bytes, ps: seq<Pair>, interval: nat, i: nat)
    requires Good(data, ps, interval) && i < |ps|
    ensures var lo, hi, limit := Offset(ps, i, interval), Offset(ps, i + 1, interval), Limit(ps, interval);
      lo < hi <= limit <= |data|
      && var h := GetHead(data[lo..limit]);
      var m := SharedAt(ps, i, interval);
      h.Some? && h.value.shared == m && h.value.nonShared == |ps[i].key| - m && h.value.valueLength == |ps[i].value|
      && var p := limit - |h.value.rest|;
      lo <= p && p + h.value.nonShared + h.value.valueLength == hi
      && data[p..p + h.value.nonShared] == ps[i].key[m..] && data[p + h.value.nonShared..hi] == ps[i].value
  {
    hide EntryBytes, Shared, GetHead, Body;
    ReadEntry(data, ps, interval, i);
    var lo, hi, limit, m := Offset(ps, i, interval), Offset(ps, i + 1, interval), Limit(ps, interval),
      SharedAt(ps, i, interval);
    EntryLength(ps[i], m);
    var a, b := ps[i].key[m..], ps[i].value;
    var p := limit - |a + b + data[hi..limit]|;
    PieceAt(data, ps, interval, i, p);
  }

  lemma EntryLength(p: Pair, n: nat)
    requires n <= |p.key|
    ensures |EntryBytes(p, n)| > |p.key| - n + |p.value|
  {
  }

  lemma PieceAt(data: Bytes, ps: seq<Pair>, interval: nat, i: nat, p: nat)
    requires Good(data, ps, interval) && i < |ps|
    requires p == Offset(ps, i + 1, interval) - |ps[i].value| - (|ps[i].key| - SharedAt(ps, i, interval))
    ensures var hi, m := Offset(ps, i + 1, interval), SharedAt(ps, i, interval);
      hi <= |data| && p + |ps[i].key| - m <= hi
      && data[p..p + |ps[i].key| - m] == ps[i].key[m..] && data[p + |ps[i].key| - m..hi] == ps[i].value
  {
    hide Shared, EntryBytes, Body, SharedAt;
    var n := |ps|;
    var lo, hi, limit, m := Offset(ps, i, interval), Offset(ps, i + 1, interval), Limit(ps, interval),
      SharedAt(ps, i, interval);
    BodyIn(data, ps, interval);
    EntryAt(ps, i, interval, n);
    var bs := EntryBytes(ps[i], m);
    assert data[lo..hi] == data[..limit][lo..hi] == bs;
    EntryEnds(ps[i], m);
    TailPieces(data, lo, hi, bs, ps[i].key[m..], ps[i].value);
  }

  lemma EntryEnds(p: Pair, n: nat)
    requires n <= |p.key|
    ensures var bs, a, b := EntryBytes(p, n), p.key[n..], p.value;
      |a| + |b| <= |bs| && bs[|bs| - |a| - |b|..] == a + b
  {
  }

  lemma TailPieces(data: Bytes, lo: nat, hi: nat, bs: Bytes, a: Bytes, b: Bytes)
    requires lo <= hi <= |data| && data[lo..hi] == bs && |a| + |b| <= |bs| && bs[|bs| - |a| - |b|..] == a + b
    ensures data[hi - |b| - |a|..hi - |b|] == a && data[hi - |b|..hi] == b
  {
    var t := bs[|bs| - |a| - |b|..];
    assert data[hi - |b| - |a|..hi] == t;
    assert t[..|a|] == a && t[|a|..] == b;
    assert data[hi - |b| - |a|..hi - |b|] == data[hi - |b| - |a|..hi][..|a|];
    assert data[hi - |b|..hi] == data[hi - |b| - |a|..hi][|a|..];
  }

  // Restart r is the offset of the r-th starting entry.
  lemma ReadRestart(data: Bytes, ps: seq<Pair>, interval: nat, r: nat)
    requires Good(data, ps, interval) && r < |Restarts(ps, |ps|, interval)|
    ensures var limit := Limit(ps, interval);
      limit + 4 * r + 4 <= |data|
        && DecodeFixed(data[limit + 4 * r..limit + 4 * r + 4]) == Restarts(ps, |ps|, interval)[r]
    ensures Restarts(ps, |ps|, interval)[r] <= Limit(ps, interval)
  {
    hide Body, DecodeFixed, EncodeFixed, Span, Restarts;
    var rs, limit := Restarts(ps, |ps|, interval), Limit(ps, interval);
    Fixed32At(rs, r);
    RestartBound(ps, interval, r);
    var body, points, count := Body(ps, |ps|, interval), Fixed32s(rs), EncodeFixed(|rs|, 4);
    assert data[limit + 4 * r..limit + 4 * r + 4] == points[4 * r..4 * r + 4];
    assert Span(4) == TWO32 by { FourBytes(); }
    FixedRoundTrip(rs[r], 4);
  }

  lemma FourBytes()
    ensures Span(4) == TWO32
  {
    assert Span(2) == 65536;
  }

  lemma RestartBound(ps: seq<Pair>, interval: nat, r: nat)
    requires interval > 0 && r < |Restarts(ps, |ps|, interval)|
    ensures Restarts(ps, |ps|, interval)[r] <= Limit(ps, interval)
  {
    if ps != [] {
      RestartsAre(ps, |ps|, interval);
      var i := Starts(|ps|, interval)[r];
      Offsets(ps, i, |ps|, interval);
    }
  }

  // Block::Block reads the shape off the end of the contents.
  method Open(data: Bytes, ghost ps: seq<Pair>, ghost interval: nat) returns (restarts: nat, numRestarts: nat)
    requires Good(data, ps, interval)
    ensures restarts == Limit(ps, interval) && numRestarts == |Restarts(ps, |ps|, interval)| > 0
  {
    hide Body, DecodeFixed, EncodeFixed, Span, Restarts;
    ghost var rs := Restarts(ps, |ps|, interval);
    Fixed32Length(rs);
    AtLeastOne(ps, interval);
    assert data[|data| - 4..] == EncodeFixed(|rs|, 4);
    assert Span(4) == TWO32 by { FourBytes(); }
    FixedRoundTrip(|rs|, 4);
    numRestarts := DecodeFixed(data[|data| - 4..]);
    restarts := |data| - (1 + numRestarts) * 4;
  }

  lemma {:induction false} AtLeastOne(ps: seq<Pair>, interval: nat)
    requires interval > 0
    ensures |Restarts(ps, |ps|, interval)| > 0
  {
    if ps != [] {
      RestartsAre(ps, |ps|, interval);
      StartsIs(|ps|, interval);
    }
  }

  // ---- Orders on keys ----

  ghost predicate Transitive(lt: (Bytes, Bytes) -> bool) {
    forall a, b, c :: lt(a, b) && lt(b, c) ==> lt(a, c)
  }

  ghost predicate Increasing(ps: seq<Pair>, lt: (Bytes, Bytes) -> bool) {
    forall i, j :: 0 <= i < j < |ps| ==> lt(ps[i].key, ps[j].key)
  }

  // Position n is the first with a key not below the target.
  ghost predicate FirstFrom(ps: seq<Pair>, lt: (Bytes, Bytes) -> bool, target: Bytes, n: nat) {
    n <= |ps| && (forall i :: 0 <= i < n ==> lt(ps[i].key, target)) && (n < |ps| ==> !lt(ps[n].key, target))
  }

  class Iter {
    const data: Bytes
    const restarts: nat
    const numRestarts: nat
    const lt: (Bytes, Bytes) -> bool
    var current: nat
    var restartIndex: nat
    var key: Bytes
    var valueStart: nat
    var valueLength: nat
    ghost const pairs: seq<Pair>
    ghost const interval: nat
    ghost var at: nat  // the entry stood on, or |pairs|

    ghost predicate Fixed() {
      interval > 0 && Good(data, pairs, interval) && restarts == Limit(pairs, interval)
      && numRestarts == |Restarts(pairs, |pairs|, interval)| > 0
    }

    // The last restart before, or at, entry i; or one such that the next is not before i.
    ghost predicate Bracketed(r: nat, i: nat)
      requires Fixed() && i <= |pairs|
    {
      r < numRestarts && Restart(r) <= Offset(pairs, i, interval)
      && (r + 1 < numRestarts ==> Offset(pairs, i, interval) <= Restart(r + 1))
    }

    ghost function Restart(r: nat): nat
      requires Fixed() && r < numRestarts
    {
      Restarts(pairs, |pairs|, interval)[r]
    }

    ghost predicate OnEntry()
      reads this
    {
      Fixed() && at < |pairs| && current == Offset(pairs, at, interval) && key == pairs[at].key
      && valueStart + valueLength == Offset(pairs, at + 1, interval) <= |data|
      && data[valueStart..valueStart + valueLength] == pairs[at].value && Bracketed(restartIndex, at)
    }

    ghost predicate AtEnd()
      reads this
    {
      Fixed() && at == |pairs| && current == restarts
    }

    ghost predicate Ok()
      reads this
    {
      OnEntry() || AtEnd()
    }

    // Just before entry j, with what it needs of the entry before.
    ghost predicate Before(j: nat)
      reads this
    {
      Fixed() && j <= |pairs| && valueStart + valueLength == Offset(pairs, j, interval)
      && restartIndex < numRestarts && Restart(restartIndex) <= Offset(pairs, j, interval)
      && (j < |pairs| && Phase(j, interval) != 0 ==> j > 0 && key == pairs[j - 1].key)
    }

    constructor (contents: Bytes, order: (Bytes, Bytes) -> bool, ghost ps: seq<Pair>, ghost blockInterval: nat)
      requires Good(contents, ps, blockInterval)
      ensures Ok() && AtEnd() && pairs == ps && interval == blockInterval && data == contents && lt == order
    {
      var limit, n := Open(contents, ps, blockInterval);
      data, restarts, numRestarts, lt := contents, limit, n, order;
      current, restartIndex, key, valueStart, valueLength := limit, n, [], 0, 0;
      pairs, interval, at := ps, blockInterval, |ps|;
    }

    predicate Valid()
      reads this
    {
      current < restarts
    }

    lemma ValidIs()
      requires Ok()
      ensures at <= |pairs| && (Valid() <==> at < |pairs|) && (at < |pairs| ==> OnEntry())
    {
      hide Body;
      if at < |pairs| {
        Offsets(pairs, at, |pairs|, interval);
      }
    }

    // key() and value().
    method Current() returns (p: Pair)
      requires Ok() && Valid()
      ensures at < |pairs| && p == pairs[at]
    {
      hide Good, Limit, Offset, Bracketed;
      ValidIs();
      p := Pair(key, data[valueStart..valueStart + valueLength]);
    }

    function NextEntryOffset(): nat
      reads this
    {
      valueStart + valueLength
    }

    method GetRestartPoint(index: nat) returns (offset: nat)
      requires Fixed() && index < numRestarts
      ensures offset == Restart(index)
    {
      hide Restarts, Limit, DecodeFixed;
      ReadRestart(data, pairs, interval, index);
      offset := DecodeFixed(data[restarts + 4 * index..restarts + 4 * index + 4]);
    }

    // Parses the entry at NextEntryOffset.
    method ParseNextKey(ghost j: nat) returns (ok: bool)
      requires Before(j)
      modifies this`current, this`restartIndex, this`key, this`valueStart, this`valueLength, this`at
      ensures Ok() && at == j && ok == (j < |pairs|)
    {
      hide Restarts, GetHead, SharedAt, Shared, Body, Good, Limit, Offset;
      current := NextEntryOffset();
      at := j;
      PastEnd(data, pairs, interval, j);
      if current >= restarts {
        current, restartIndex := restarts, numRestarts;
        return false;
      }
      EntryPieces(data, pairs, interval, j);
      var head := DecodeEntry(data[current..restarts]);
      var start := restarts - |head.value.rest|;
      Rebuilt(pairs, interval, j, key);
      key := key[..head.value.shared] + data[start..start + head.value.nonShared];
      valueStart, valueLength := start + head.value.nonShared, head.value.valueLength;
      AdvanceRestart(j);
      ok := true;
    }

    method AdvanceRestart(ghost j: nat)
      requires Fixed() && j < |pairs| && current == Offset(pairs, j, interval)
      requires restartIndex < numRestarts && Restart(restartIndex) <= current
      modifies this`restartIndex
      ensures Bracketed(restartIndex, j)
    {
      hide Restarts, Body, Good, Limit, Offset;
      while restartIndex + 1 < numRestarts
        invariant restartIndex < numRestarts && Restart(restartIndex) <= current
        decreases numRestarts - restartIndex
      {
        var point := GetRestartPoint(restartIndex + 1);
        if point >= current {
          break;
        }
        restartIndex := restartIndex + 1;
      }
    }

    // Just before the starting entry of a restart.
    method SeekToRestartPoint(index: nat) returns (ghost j: nat)
      requires Fixed() && index < numRestarts
      modifies this`restartIndex, this`key, this`valueStart, this`valueLength
      ensures Before(j) && Restart(index) == Offset(pairs, j, interval) && restartIndex == index
      ensures j < |pairs| ==> Phase(j, interval) == 0
      ensures index == 0 ==> j == 0
    {
      hide Body, Good, Limit, Phase;
      key, restartIndex := [], index;
      valueStart := GetRestartPoint(index);
      valueLength := 0;
      j := StartEntry(pairs, interval, index);
    }

    method SeekToFirst()
      requires Ok()
      modifies this`current, this`restartIndex, this`key, this`valueStart, this`valueLength, this`at
      ensures Ok() && at == 0
    {
      ghost var j := SeekToRestartPoint(0);
      var _ := ParseNextKey(j);
    }

    method Next()
      requires OnEntry()
      modifies this`current, this`restartIndex, this`key, this`valueStart, this`valueLength, this`at
      ensures Ok() && at == old(at) + 1
    {
      hide Restarts, Good, Body, Limit;
      Offsets(pairs, at, at + 1, interval);
      var _ := ParseNextKey(at + 1);
    }

    // From just before entry j, parses up to the last entry before `limit`'s.
    method ScanTo(ghost j: nat, target: nat, ghost last: nat)
      requires Before(j) && j <= last < |pairs| && Offset(pairs, last + 1, interval) == target
      modifies this`current, this`restartIndex, this`key, this`valueStart, this`valueLength, this`at
      ensures OnEntry() && at == last
    {
      hide Restarts, Good, Body, Limit;
      ghost var k: nat := j;
      var more := true;
      while more
        invariant k <= last && if more then Before(k) else OnEntry() && at == last
        decreases more, last - k
      {
        OffsetOrder(pairs, k + 1, last + 1, interval);
        var ok := ParseNextKey(k);
        more := ok && NextEntryOffset() < target;
        if more {
          Offsets(pairs, k, k + 1, interval);
          k := k + 1;
        }
      }
    }

    // The exact inverse of Next; before the first entry it leaves the iterator invalid.
    method Prev()
      requires OnEntry()
      modifies this`current, this`restartIndex, this`key, this`valueStart, this`valueLength, this`at
      ensures Ok() && at == if old(at) == 0 then |pairs| else old(at) - 1
    {
      hide Good, Body, Limit, Phase;
      var original := current;
      ghost var was := at;
      FirstRestart(pairs, interval);
      var point := GetRestartPoint(restartIndex);
      while point >= original
        invariant restartIndex < numRestarts && point == Restart(restartIndex)
          && original == Offset(pairs, was, interval)
        decreases restartIndex
      {
        if restartIndex == 0 {
          current, restartIndex := restarts, numRestarts;
          OffsetOrder(pairs, 0, was, interval);
          at := |pairs|;
          return;
        }
        restartIndex := restartIndex - 1;
        point := GetRestartPoint(restartIndex);
      }
      ghost var j := SeekToRestartPoint(restartIndex);
      OffsetOrder(pairs, j, was, interval);
      ScanTo(j, original, was - 1);
    }

    method SeekToLast()
      requires Ok()
      modifies this`current, this`restartIndex, this`key, this`valueStart, this`valueLength, this`at
      ensures Ok() && at == if pairs == [] then 0 else |pairs| - 1
    {
      hide Good, Body, Phase;
      ghost var j := SeekToRestartPoint(numRestarts - 1);
      if restarts == 0 {
        // An empty block: the first parse finds nothing.
        EmptyLimit(pairs, interval);
        var _ := ParseNextKey(j);
      } else {
        EmptyLimit(pairs, interval);
        LastStart(pairs, interval, j);
        ScanTo(j, restarts, |pairs| - 1);
      }
    }

    // Lands on the first entry whose key is not below the target, or past the end.
    method Seek(target: Bytes)
      requires Ok() && Increasing(pairs, lt) && Transitive(lt)
      modifies this`current, this`restartIndex, this`key, this`valueStart, this`valueLength, this`at
      ensures Ok() && FirstFrom(pairs, lt, target, at)
    {
      hide Good, Body, Limit, Phase, Transitive, Increasing;
      var left: nat, right: nat := 0, numRestarts - 1;
      ghost var low: nat := StartEntry(pairs, interval, 0);
      while left < right
        invariant left <= right < numRestarts
        invariant low <= |pairs| && Restart(left) == Offset(pairs, low, interval)
        invariant low > 0 ==> low < |pairs| && lt(pairs[low].key, target)
        decreases right - left
      {
        var mid := (left + right + 1) / 2;
        ghost var j := StartEntry(pairs, interval, mid);
        var below := KeyBelow(mid, target, j);
        if below {
          left, low := mid, j;
        } else {
          right := mid - 1;
        }
      }
      ghost var j := SeekToRestartPoint(left);
      OffsetOrder(pairs, j, low, interval);
      AllBelow(pairs, lt, target, low);
      Scan(target, j);
    }

    // Compares the whole key stored at a restart.
    method KeyBelow(index: nat, target: Bytes, ghost j: nat) returns (below: bool)
      requires Fixed() && index < numRestarts && j < |pairs| && Restart(index) == Offset(pairs, j, interval)
      requires Phase(j, interval) == 0
      ensures below == lt(pairs[j].key, target)
    {
      hide Good, Body, Limit, GetHead, Shared, Restarts, Offset;
      var offset := GetRestartPoint(index);
      PastEnd(data, pairs, interval, j);
      EntryPieces(data, pairs, interval, j);
      var head := DecodeEntry(data[offset..restarts]);
      assert head.value.shared == 0;
      var start := restarts - |head.value.rest|;
      var midKey := data[start..start + head.value.nonShared];
      assert midKey == pairs[j].key[0..] == pairs[j].key;
      below := lt(midKey, target);
    }

    // Parses forward to the first key not below the target.
    method Scan(target: Bytes, ghost j: nat)
      requires Before(j) && forall i :: 0 <= i < j ==> lt(pairs[i].key, target)
      modifies this`current, this`restartIndex, this`key, this`valueStart, this`valueLength, this`at
      ensures Ok() && FirstFrom(pairs, lt, target, at)
    {
      hide Restarts, Good, Body, Limit;
      ghost var k: nat := j;
      while true
        invariant Before(k) && forall i :: 0 <= i < k ==> lt(pairs[i].key, target)
        decreases |pairs| - k
      {
        var ok := ParseNextKey(k);
        if !ok {
          return;
        }
        if !lt(key, target) {
          return;
        }
        Offsets(pairs, k, k + 1, interval);
        k := k + 1;
      }
    }
  }

  lemma AllBelow(ps: seq<Pair>, lt: (Bytes, Bytes) -> bool, target: Bytes, n: nat)
    requires Increasing(ps, lt) && Transitive(lt) && n <= |ps| && (n > 0 ==> n < |ps| && lt(ps[n].key, target))
    ensures forall i :: 0 <= i < n ==> lt(ps[i].key, target)
  {
    forall i | 0 <= i < n ensures lt(ps[i].key, target) {
      assert lt(ps[i].key, ps[n].key);
    }
  }

  lemma PastEnd(data: Bytes, ps: seq<Pair>, interval: nat, j: nat)
    requires interval > 0 && j <= |ps|
    ensures Offset(ps, j, interval) >= Limit(ps, interval) <==> j == |ps|
    ensures Offset(ps, |ps|, interval) == Limit(ps, interval)
  {
    Offsets(ps, j, |ps|, interval);
  }

  lemma OffsetOrder(ps: seq<Pair>, i: nat, j: nat, interval: nat)
    requires interval > 0 && i <= |ps| && j <= |ps|
    ensures Offset(ps, i, interval) < Offset(ps, j, interval) <==> i < j
    ensures Offset(ps, i, interval) == Offset(ps, j, interval) <==> i == j
  {
    if i <= j { Offsets(ps, i, j, interval); } else { Offsets(ps, j, i, interval); }
  }

  // The shared part of the previous key and the stored part make the key.
  lemma Rebuilt(ps: seq<Pair>, interval: nat, j: nat, key: Bytes)
    requires interval > 0 && j < |ps| && (Phase(j, interval) != 0 ==> j > 0 && key == ps[j - 1].key)
    ensures var m := SharedAt(ps, j, interval); m <= |key| && m <= |ps[j].key| && key[..m] + ps[j].key[m..] == ps[j].key
  {
  }

  // The entry a restart points at.
  lemma StartEntry(ps: seq<Pair>, interval: nat, r: nat) returns (j: nat)
    requires interval > 0 && r < |Restarts(ps, |ps|, interval)|
    ensures j <= |ps| && Restarts(ps, |ps|, interval)[r] == Offset(ps, j, interval)
    ensures (j < |ps| ==> Phase(j, interval) == 0) && (r == 0 ==> j == 0) && (ps != [] || r > 0 ==> j < |ps|)
  {
    if ps == [] {
      j := 0;
    } else {
      StartsIs(|ps|, interval);
      RestartsAre(ps, |ps|, interval);
      j := Starts(|ps|, interval)[r];
    }
  }

  lemma FirstRestart(ps: seq<Pair>, interval: nat)
    requires interval > 0
    ensures |Restarts(ps, |ps|, interval)| > 0 && Restarts(ps, |ps|, interval)[0] == 0
  {
    AtLeastOne(ps, interval);
    var j := StartEntry(ps, interval, 0);
  }

  lemma EmptyLimit(ps: seq<Pair>, interval: nat)
    requires interval > 0
    ensures Limit(ps, interval) == 0 <==> ps == []
  {
    Offsets(ps, 0, |ps|, interval);
  }

  lemma LastStart(ps: seq<Pair>, interval: nat, j: nat)
    requires interval > 0 && ps != [] && j <= |ps|
    requires exists r ::
      0 <= r < |Restarts(ps, |ps|, interval)| && Restarts(ps, |ps|, interval)[r] == Offset(ps, j, interval)
    ensures j < |ps| && Offset(ps, |ps|, interval) == Limit(ps, interval)
  {
    var r :| 0 <= r < |Restarts(ps, |ps|, interval)| && Restarts(ps, |ps|, interval)[r] == Offset(ps, j, interval);
    RestartsAre(ps, |ps|, interval);
    var i := Starts(|ps|, interval)[r];
    OffsetOrder(ps, i, j, interval);
  }

  // A block built from any pairs gives exactly those pairs back, first to last.
  method BuildAndRead(ps: seq<Pair>, interval: nat, order: (Bytes, Bytes) -> bool) returns (back: seq<Pair>)
    requires interval > 0 && |BlockBytes(ps, interval)| < TWO32 && forall i :: 0 <= i < |ps| ==> Small(ps[i])
    ensures back == ps
  {
    hide Body, Restarts, Limit;
    var builder := new BlockBuilder(interval);
    for i := 0 to |ps|
      invariant builder.Ok() && fresh(builder) && builder.interval == interval && builder.pairs == ps[..i]
    {
      builder.Add(ps[i].key, ps[i].value);
      assert ps[..i + 1] == ps[..i] + [ps[i]];
    }
    assert ps[..|ps|] == ps;
    var contents := builder.Finish();
    var it := new Iter(contents, order, ps, interval);
    back := [];
    it.SeekToFirst();
    it.ValidIs();
    while it.Valid()
      invariant it.Ok() && fresh(it) && it.pairs == ps && it.at <= |ps| && back == ps[..it.at]
      invariant it.Valid() <==> it.at < |ps|
      decreases |ps| - it.at
    {
      var p := it.Current();
      back := back + [p];
      it.Next();
      it.ValidIs();
    }
  }
}
