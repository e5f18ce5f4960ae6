// Building a table block and iterating over its bytes (table/block_builder.cc, table/block.cc).

module Blocks {
  import opened DbFormat
  import opened Coding
  import opened BlockFormat

  // Earlier entries do not depend on later ones.
  lemma {:induction false} BodyPrefix(ps: seq<Pair>, p: Pair, n: nat, interval: nat)
    requires n <= |ps| && interval > 0
    ensures Body(ps + [p], n, interval) == Body(ps, n, interval)
  {
    hide EntryBytes, Phase;
    if n > 0 {
      BodyPrefix(ps, p, n - 1, interval);
    }
  }

  lemma {:induction false} RestartsPrefix(ps: seq<Pair>, p: Pair, n: nat, interval: nat)
    requires n <= |ps| && interval > 0
    ensures Restarts(ps + [p], n, interval) == Restarts(ps, n, interval)
  {
    if n > 0 {
      RestartsPrefix(ps, p, n - 1, interval);
      BodyPrefix(ps, p, n - 1, interval);
    }
  }

  class BlockBuilder {
    const interval: nat
    var buffer: Bytes
    var restarts: seq<nat>
    var counter: nat
    var finished: bool
    var lastKey: Bytes
    ghost var pairs: seq<Pair>

    ghost predicate Ok()
      reads this
    {
      interval > 0 && !finished
      && buffer == Body(pairs, |pairs|, interval) && restarts == Restarts(pairs, |pairs|, interval)
      && lastKey == (if pairs == [] then [] else pairs[|pairs| - 1].key)
      && counter == if pairs == [] then 0 else Phase(|pairs| - 1, interval) + 1
    }

    constructor (blockRestartInterval: nat)
      requires blockRestartInterval > 0
      ensures Ok() && pairs == [] && interval == blockRestartInterval
    {
      interval := blockRestartInterval;
      buffer, restarts, counter, finished, lastKey := [], [0], 0, false, [];
      pairs := [];
    }

    method Add(key: Bytes, value: Bytes)
      requires Ok() && |key| < TWO32 && |value| < TWO32
      modifies this`buffer, this`restarts, this`counter, this`lastKey, this`pairs
      ensures Ok() && pairs == old(pairs) + [Pair(key, value)]
    {
      hide Body, Phase, Shared, SharedAt, EntryBytes, Restarts;
      ghost var p := Pair(key, value);
      NextEntry(pairs, p, interval);
      var shared := 0;
      if counter < interval {
        shared := CommonPrefix(lastKey, key);
      } else {
        restarts := restarts + [|buffer|];
        counter := 0;
      }
      var entry := EncodeEntry(key, value, shared);
      buffer := buffer + entry;
      lastKey := lastKey[..shared] + key[shared..];
      counter := counter + 1;
      pairs := pairs + [p];
    }

    predicate Empty()
      reads this
    {
      buffer == []
    }

    lemma EmptyIs()
      requires Ok()
      ensures Empty() <==> pairs == []
    {
      Offsets(pairs, 0, |pairs|, interval);
    }

    function CurrentSizeEstimate(): nat
      reads this
    {
      |buffer| + 4 * |restarts| + 4
    }

    // How large the finished block will be.
    lemma SizeIsExact()
      requires Ok()
      ensures CurrentSizeEstimate() == |BlockBytes(pairs, interval)|
    {
      hide Body;
      Fixed32Length(restarts);
    }

    method Reset()
      requires interval > 0
      modifies this
      ensures Ok() && pairs == []
    {
      buffer, restarts, counter, finished, lastKey := [], [0], 0, false, [];
      pairs := [];
    }

    method Finish() returns (contents: Bytes)
      requires Ok()
      modifies this`buffer, this`finished
      ensures contents == BlockBytes(old(pairs), interval)
    {
      hide EncodeFixed, Body;
      ghost var body := buffer;
      for i := 0 to |restarts|
        invariant buffer == body + Fixed32s(restarts[..i])
      {
        assert restarts[..i + 1][..i] == restarts[..i];
        buffer := buffer + EncodeFixed(restarts[i], 4);
      }
      assert restarts[..|restarts|] == restarts;
      buffer := buffer + EncodeFixed(|restarts|, 4);
      finished := true;
      contents := buffer;
    }
  }

  method CommonPrefix(a: Bytes, b: Bytes) returns (shared: nat)
    ensures shared == Shared(a, b) && shared <= |a| && shared <= |b| && a[..shared] == b[..shared]
  {
    var minLength := if |a| < |b| then |a| else |b|;
    shared := 0;
    while shared < minLength && a[shared] == b[shared]
      invariant shared <= minLength && a[..shared] == b[..shared]
    {
      assert a[..shared + 1] == a[..shared] + [a[shared]];
      assert b[..shared + 1] == b[..shared] + [b[shared]];
      shared := shared + 1;
    }
    SharedIs(a, b, shared);
  }

  method EncodeEntry(key: Bytes, value: Bytes, shared: nat) returns (r: Bytes)
    requires |key| < TWO32 && |value| < TWO32 && shared <= |key|
    ensures r == EntryBytes(Pair(key, value), shared)
  {
    hide Varint;
    var a := EncodeVarint32(shared);
    var b := EncodeVarint32(|key| - shared);
    var c := EncodeVarint32(|value|);
    r := a + b + c + key[shared..] + value;
  }

  // What appending one entry adds to the body and the restarts.
  lemma NextEntry(ps: seq<Pair>, p: Pair, interval: nat)
    requires interval > 0
    ensures var n, qs := |ps|, ps + [p];
      var m := SharedAt(qs, n, interval);
      Body(qs, n + 1, interval) == Body(ps, n, interval) + EntryBytes(p, m)
      && Restarts(qs, n + 1, interval) == Restarts(ps, n, interval)
           + (if n > 0 && Phase(n, interval) == 0 then [|Body(ps, n, interval)|] else [])
      && (n > 0 ==>
        Phase(n, interval) == if Phase(n - 1, interval) + 1 == interval then 0 else Phase(n - 1, interval) + 1)
      && m == (if n == 0 || Phase(n, interval) == 0 then 0 else Shared(ps[n - 1].key, p.key)) && Phase(0, interval) == 0
  {
    var n, qs := |ps|, ps + [p];
    hide EntryBytes, Shared;
    BodyPrefix(ps, p, n, interval);
    BodyPrefix(ps, p, 0, interval);
    RestartsPrefix(ps, p, n, interval);
  }

  // The longest common prefix, found from the left.
  lemma {:induction false} SharedIs(a: Bytes, b: Bytes, n: nat)
    requires n <= |a| && n <= |b| && a[..n] == b[..n] && (n == |a| || n == |b| || a[n] != b[n])
    ensures n == Shared(a, b)
    decreases |a|
  {
    if a != [] && b != [] && n > 0 {
      assert a[0] == a[..n][0] == b[..n][0] == b[0];
      assert a[1..][..n - 1] == a[..n][1..] == b[..n][1..] == b[1..][..n - 1];
      SharedIs(a[1..], b[1..], n - 1);
    }
  }
}
