// Bloom filters and the filter block of a table (util/bloom.cc, table/filter_block.cc).

module Filters {
  import opened DbFormat
  import opened Coding
  import opened BlockFormat

  // A filter policy: what it stores for some keys, and its answer for a key.
  datatype Policy = Policy(create: seq<Bytes> -> Bytes, mayMatch: (Bytes, Bytes) -> bool)

  ghost predicate NoFalseNegatives(p: Policy) {
    forall keys, key :: key in keys ==> p.mayMatch(key, p.create(keys))
  }

  // ---- Bloom filters ----

  type Word = n: nat | n < TWO32

  // Addition in 32 bits.
  function Plus(a: Word, b: Word): Word {
    (a + b) % TWO32
  }

  function Modulo(x: nat, n: nat): (r: nat)
    requires n > 0
    ensures r < n
  {
    x % n
  }

  // The probes of a key: h, h + delta, h + 2 delta, ...
  function Probe(h: Word, delta: Word, j: nat): Word {
    if j == 0 then h else Plus(Probe(h, delta, j - 1), delta)
  }

  // Rotation right by 17 bits.
  function Rotated(h: Word): Word {
    h / 0x2_0000 + h % 0x2_0000 * 0x8000
  }

  function Mask(pos: nat): bv8 {
    1 << (pos % 8)
  }

  function SetBit(a: seq<bv8>, pos: nat): (r: seq<bv8>)
    requires pos < 8 * |a|
    ensures |r| == |a|
  {
    a[pos / 8 := a[pos / 8] | Mask(pos)]
  }

  predicate BitAt(a: seq<bv8>, pos: nat)
    requires pos < 8 * |a|
  {
    a[pos / 8] & Mask(pos) != 0
  }

  lemma OrKeeps(x: bv8, m: bv8, n: bv8)
    ensures x & n != 0 ==> (x | m) & n != 0
    ensures n != 0 ==> (x | n) & n != 0
  {
  }

  lemma MaskNonzero(pos: nat)
    ensures Mask(pos) != 0
  {
    var k := pos % 8;
    assert k == 0 || k == 1 || k == 2 || k == 3 || k == 4 || k == 5 || k == 6 || k == 7;
  }

  lemma SetBitKeeps(a: seq<bv8>, pos: nat, other: nat)
    requires pos < 8 * |a| && other < 8 * |a|
    ensures BitAt(SetBit(a, pos), pos)
    ensures BitAt(a, other) ==> BitAt(SetBit(a, pos), other)
  {
    hide Mask;
    MaskNonzero(pos);
    OrKeeps(a[pos / 8], Mask(pos), Mask(pos));
    OrKeeps(a[pos / 8], Mask(pos), Mask(other));
  }

  function Position(h: Word, j: nat, bits: nat): (r: nat)
    requires bits > 0
    ensures r < bits
  {
    Modulo(Probe(h, Rotated(h), j), bits)
  }

  function AddProbes(a: seq<bv8>, h: Word, k: nat): (r: seq<bv8>)
    requires |a| > 0
    ensures |r| == |a|
  {
    if k == 0 then a else SetBit(AddProbes(a, h, k - 1), Position(h, k - 1, 8 * |a|))
  }

  function AddKeys(a: seq<bv8>, keys: seq<Bytes>, hash: Bytes -> Word, k: nat): (r: seq<bv8>)
    requires |a| > 0
    ensures |r| == |a|
  {
    if keys == [] then a else AddProbes(AddKeys(a, keys[..|keys| - 1], hash, k), hash(keys[|keys| - 1]), k)
  }

  ghost predicate AllProbes(a: seq<bv8>, h: Word, k: nat)
    requires |a| > 0
  {
    forall j :: 0 <= j < k ==> BitAt(a, Position(h, j, 8 * |a|))
  }

  lemma {:induction false} ProbesSet(a: seq<bv8>, h: Word, k: nat, other: nat)
    requires |a| > 0 && other < 8 * |a|
    ensures AllProbes(AddProbes(a, h, k), h, k)
    ensures BitAt(a, other) ==> BitAt(AddProbes(a, h, k), other)
  {
    hide SetBit, BitAt, Position;
    if k > 0 {
      var b := AddProbes(a, h, k - 1);
      ProbesSet(a, h, k - 1, other);
      SetBitKeeps(b, Position(h, k - 1, 8 * |a|), other);
      forall j | 0 <= j < k
        ensures BitAt(AddProbes(a, h, k), Position(h, j, 8 * |a|))
      {
        SetBitKeeps(b, Position(h, k - 1, 8 * |a|), Position(h, j, 8 * |a|));
      }
    }
  }

  // Every probe of every added key is set.
  lemma {:induction false} KeysSet(a: seq<bv8>, keys: seq<Bytes>, hash: Bytes -> Word, k: nat, i: nat)
    requires |a| > 0 && i < |keys|
    ensures AllProbes(AddKeys(a, keys, hash, k), hash(keys[i]), k)
  {
    hide BitAt, Position, AddProbes;
    var init, h := keys[..|keys| - 1], hash(keys[i]);
    var b, last := AddKeys(a, init, hash, k), hash(keys[|keys| - 1]);
    if i < |keys| - 1 {
      KeysSet(a, init, hash, k, i);
      forall j | 0 <= j < k
        ensures BitAt(AddKeys(a, keys, hash, k), Position(h, j, 8 * |a|))
      {
        ProbesSet(b, last, k, Position(h, j, 8 * |a|));
      }
    } else {
      ProbesSet(b, last, k, 0);
    }
  }

  function Packed(a: seq<bv8>): (r: Bytes)
    ensures |r| == |a|
  {
    seq(|a|, i requires 0 <= i < |a| => a[i] as byte)
  }

  function Unpacked(bs: Bytes): (r: seq<bv8>)
    ensures |r| == |bs|
  {
    seq(|bs|, i requires 0 <= i < |bs| => bs[i] as bv8)
  }

  lemma ByteBack(x: bv8)
    ensures (x as byte) as bv8 == x
  {
  }

  lemma UnpackPacked(a: seq<bv8>)
    ensures Unpacked(Packed(a)) == a
  {
    forall i | 0 <= i < |a|
      ensures Unpacked(Packed(a))[i] == a[i]
    {
      ByteBack(a[i]);
    }
  }

  // BloomFilterPolicy: the number of probes is bits_per_key * ln 2, kept between 1 and 30.
  function ProbeCount(bitsPerKey: nat): (k: nat)
    ensures 1 <= k <= 30
  {
    var k := (bitsPerKey as real * 0.69).Floor;
    if k < 1 then 1 else if k > 30 then 30 else k
  }

  // At least 64 bits, in whole bytes.
  function ArraySize(keyCount: nat, bitsPerKey: nat): (bytes: nat)
    ensures bytes >= 8
  {
    var bits := keyCount * bitsPerKey;
    ((if bits < 64 then 64 else bits) + 7) / 8
  }

  function BloomFilter(keys: seq<Bytes>, hash: Bytes -> Word, bitsPerKey: nat): (r: Bytes)
    ensures |r| >= 9
  {
    var k := ProbeCount(bitsPerKey);
    Packed(AddKeys(seq(ArraySize(|keys|, bitsPerKey), i => 0), keys, hash, k)) + [k]
  }

  // KeyMayMatch on any bytes.
  predicate BloomMatch(key: Bytes, filter: Bytes, hash: Bytes -> Word) {
    |filter| >= 2
    && var n := |filter| - 1;
       filter[n] > 30
       || forall j :: 0 <= j < filter[n] ==> BitAt(Unpacked(filter[..n]), Position(hash(key), j, 8 * n))
  }

  // A key the filter was made for always matches.
  lemma BloomNoFalseNegatives(keys: seq<Bytes>, key: Bytes, hash: Bytes -> Word, bitsPerKey: nat)
    requires key in keys
    ensures BloomMatch(key, BloomFilter(keys, hash, bitsPerKey), hash)
  {
    hide BitAt, Position;
    var i :| 0 <= i < |keys| && keys[i] == key;
    var k := ProbeCount(bitsPerKey);
    var a := AddKeys(seq(ArraySize(|keys|, bitsPerKey), i => 0), keys, hash, k);
    KeysSet(seq(ArraySize(|keys|, bitsPerKey), i => 0), keys, hash, k, i);
    UnpackPacked(a);
    assert (Packed(a) + [k])[..|a|] == Packed(a);
  }

  lemma SetBitIs(a: seq<bv8>, pos: nat)
    requires pos < 8 * |a|
    ensures pos / 8 < |a| && SetBit(a, pos) == a[pos / 8 := a[pos / 8] | Mask(pos)]
  {
  }

  // The probes of one key, set in place.
  method SetProbes(a: array<bv8>, h: Word, k: nat)
    requires a.Length > 0
    modifies a
    ensures a[..] == AddProbes(old(a[..]), h, k)
  {
    hide SetBit, Mask, Modulo, Plus, Rotated;
    var bits := 8 * a.Length;
    var delta := Rotated(h);
    var probe := h;
    for j := 0 to k
      invariant probe == Probe(h, delta, j) && a[..] == AddProbes(old(a[..]), h, j)
    {
      var bitpos := Modulo(probe, bits);
      SetBitIs(a[..], bitpos);
      a[bitpos / 8] := a[bitpos / 8] | Mask(bitpos);
      probe := Plus(probe, delta);
    }
  }

  // CreateFilter's loops.
  method CreateFilter(keys: seq<Bytes>, hash: Bytes -> Word, bitsPerKey: nat) returns (dst: Bytes)
    ensures dst == BloomFilter(keys, hash, bitsPerKey)
  {
    hide AddProbes, ArraySize, ProbeCount;
    var bytes := ArraySize(|keys|, bitsPerKey);
    var k := ProbeCount(bitsPerKey);
    var a := new bv8[bytes](i => 0);
    ghost var zeros: seq<bv8> := seq(bytes, i => 0);
    assert a[..] == zeros;
    for i := 0 to |keys|
      invariant a[..] == AddKeys(zeros, keys[..i], hash, k)
    {
      SetProbes(a, hash(keys[i]), k);
      assert keys[..i + 1][..i] == keys[..i];
    }
    assert keys[..|keys|] == keys;
    dst := Packed(a[..]) + [k];
  }

  lemma BitIs(bs: Bytes, pos: nat)
    requires pos < 8 * |bs|
    ensures pos / 8 < |bs| && (BitAt(Unpacked(bs), pos) <==> (bs[pos / 8] as bv8) & Mask(pos) != 0)
  {
    hide Mask;
  }

  lemma BloomMiss(key: Bytes, filter: Bytes, hash: Bytes -> Word, j: nat)
    requires |filter| >= 2 && j < filter[|filter| - 1] <= 30
    requires var n := |filter| - 1; !BitAt(Unpacked(filter[..n]), Position(hash(key), j, 8 * n))
    ensures !BloomMatch(key, filter, hash)
  {
  }

  lemma BloomHit(key: Bytes, filter: Bytes, hash: Bytes -> Word)
    requires |filter| >= 2 && filter[|filter| - 1] <= 30
    requires var n := |filter| - 1;
             forall j :: 0 <= j < filter[n] ==> BitAt(Unpacked(filter[..n]), Position(hash(key), j, 8 * n))
    ensures BloomMatch(key, filter, hash)
  {
  }

  method KeyMayMatch(key: Bytes, filter: Bytes, hash: Bytes -> Word) returns (r: bool)
    ensures r == BloomMatch(key, filter, hash)
  {
    if |filter| < 2 {
      return false;
    }
    var n := |filter| - 1;
    var bits := 8 * n;
    var k := filter[n];
    if k > 30 {
      return true;
    }
    hide Mask, BitAt, Modulo, Plus, Unpacked, Rotated, BloomMatch;
    var h := hash(key);
    var delta := Rotated(h);
    var probe := h;
    for j := 0 to k
      invariant probe == Probe(h, delta, j)
      invariant forall i :: 0 <= i < j ==> BitAt(Unpacked(filter[..n]), Position(h, i, 8 * n))
    {
      var bitpos := Modulo(probe, bits);
      BitIs(filter[..n], bitpos);
      if (filter[bitpos / 8] as bv8) & Mask(bitpos) == 0 {
        BloomMiss(key, filter, hash, j);
        return false;
      }
      probe := Plus(probe, delta);
    }
    BloomHit(key, filter, hash);
    r := true;
  }

  function Bloom(hash: Bytes -> Word, bitsPerKey: nat): Policy {
    Policy(keys => BloomFilter(keys, hash, bitsPerKey), (key, filter) => BloomMatch(key, filter, hash))
  }

  lemma BloomIsSafe(hash: Bytes -> Word, bitsPerKey: nat)
    ensures NoFalseNegatives(Bloom(hash, bitsPerKey))
  {
    forall keys: seq<Bytes>, key | key in keys
      ensures Bloom(hash, bitsPerKey).mayMatch(key, Bloom(hash, bitsPerKey).create(keys))
    {
      BloomNoFalseNegatives(keys, key, hash, bitsPerKey);
    }
  }

  // ---- The filter has no other bits ----

  function BitMask(k: nat): bv8
    requires k < 8
  {
    if k == 0 then 1 else if k == 1 then 2 else if k == 2 then 4 else if k == 3 then 8
    else if k == 4 then 16 else if k == 5 then 32 else if k == 6 then 64 else 128
  }

  lemma MaskIs(pos: nat)
    ensures Mask(pos) == BitMask(pos % 8)
  {
    var k := pos % 8;
    assert k == 0 || k == 1 || k == 2 || k == 3 || k == 4 || k == 5 || k == 6 || k == 7;
  }

  lemma MasksApart(p: nat, q: nat)
    requires p < 8 && q < 8
    ensures BitMask(p) & BitMask(q) != 0 <==> p == q
  {
  }

  lemma OrSplits(x: bv8, m: bv8, n: bv8)
    ensures (x | m) & n != 0 <==> x & n != 0 || m & n != 0
  {
  }

  lemma SetBitExact(a: seq<bv8>, pos: nat, other: nat)
    requires pos < 8 * |a| && other < 8 * |a|
    ensures BitAt(SetBit(a, pos), other) <==> BitAt(a, other) || other == pos
  {
    hide Mask, BitMask;
    SetBitIs(a, pos);
    SameByte(pos, other);
    if pos / 8 == other / 8 {
      OrSplits(a[pos / 8], Mask(pos), Mask(other));
    }
  }

  lemma SameByte(pos: nat, other: nat)
    ensures pos / 8 == other / 8 ==> (Mask(pos) & Mask(other) != 0 <==> pos == other)
  {
    hide Mask, BitMask;
    MaskIs(pos);
    MaskIs(other);
    MasksApart(pos % 8, other % 8);
  }

  lemma {:induction false} ProbesExact(a: seq<bv8>, h: Word, k: nat, other: nat)
    requires |a| > 0 && other < 8 * |a|
    ensures BitAt(AddProbes(a, h, k), other) <==>
      BitAt(a, other) || exists j :: 0 <= j < k && Position(h, j, 8 * |a|) == other
  {
    hide SetBit, BitAt, Position;
    if k > 0 {
      ProbesExact(a, h, k - 1, other);
      SetBitExact(AddProbes(a, h, k - 1), Position(h, k - 1, 8 * |a|), other);
    }
  }

  ghost predicate Probed(keys: seq<Bytes>, hash: Bytes -> Word, k: nat, bits: nat, pos: nat)
    requires bits > 0
  {
    exists i, j :: 0 <= i < |keys| && 0 <= j < k && Position(hash(keys[i]), j, bits) == pos
  }

  lemma {:induction false} KeysExact(a: seq<bv8>, keys: seq<Bytes>, hash: Bytes -> Word, k: nat, other: nat)
    requires |a| > 0 && other < 8 * |a|
    ensures BitAt(AddKeys(a, keys, hash, k), other) <==> BitAt(a, other) || Probed(keys, hash, k, 8 * |a|, other)
  {
    hide BitAt, Position, AddProbes;
    if keys != [] {
      var init, last := keys[..|keys| - 1], keys[|keys| - 1];
      KeysExact(a, init, hash, k, other);
      ProbesExact(AddKeys(a, init, hash, k), hash(last), k, other);
      if i, j :| 0 <= i < |init| && 0 <= j < k && Position(hash(init[i]), j, 8 * |a|) == other {
        assert keys[i] == init[i];
      }
      if j :| 0 <= j < k && Position(hash(last), j, 8 * |a|) == other {
        assert keys[|keys| - 1] == last;
      }
      if i, j :| 0 <= i < |keys| && 0 <= j < k && Position(hash(keys[i]), j, 8 * |a|) == other {
        assert i < |init| ==> init[i] == keys[i];
      }
    }
  }

  lemma {:induction false} ProbeSum(h: Word, delta: Word, j: nat)
    ensures Probe(h, delta, j) == (h + j * delta) % TWO32
  {
    if j > 0 {
      ProbeSum(h, delta, j - 1);
      WrapAdd(h + (j - 1) * delta, delta);
      assert (j - 1) * delta + delta == j * delta;
    } else {
      assert j * delta == 0;
    }
  }

  // Probe j of a hash h is h plus j times h rotated right by 17 bits, in 32 bits.
  lemma ProbeIs(h: Word, j: nat)
    ensures Probe(h, Rotated(h), j) == (h + j * (h / 0x2_0000 + h % 0x2_0000 * 0x8000)) % TWO32
  {
    ProbeSum(h, Rotated(h), j);
  }

  lemma WrapAdd(x: nat, y: nat)
    ensures (x % TWO32 + y) % TWO32 == (x + y) % TWO32
  {
  }

  // Of the filter's bits exactly the probes of its keys are set, and its last byte is the number of probes.
  lemma BloomExact(keys: seq<Bytes>, hash: Bytes -> Word, bitsPerKey: nat, pos: nat)
    requires pos < 8 * ArraySize(|keys|, bitsPerKey)
    ensures var f, n, k := BloomFilter(keys, hash, bitsPerKey), ArraySize(|keys|, bitsPerKey), ProbeCount(bitsPerKey);
      |f| == n + 1 && f[n] == k && (BitAt(Unpacked(f[..n]), pos) <==> Probed(keys, hash, k, 8 * n, pos))
  {
    hide BitAt, AddKeys, Probed, ProbeCount;
    var n, k := ArraySize(|keys|, bitsPerKey), ProbeCount(bitsPerKey);
    var zeros: seq<bv8> := seq(n, i => 0);
    var a := AddKeys(zeros, keys, hash, k);
    KeysExact(zeros, keys, hash, k, pos);
    assert !BitAt(zeros, pos) by { NoBit(zeros, pos); }
    UnpackPacked(a);
    assert (Packed(a) + [k])[..n] == Packed(a);
  }

  lemma NoBit(a: seq<bv8>, pos: nat)
    requires pos < 8 * |a| && forall i :: 0 <= i < |a| ==> a[i] == 0
    ensures !BitAt(a, pos)
  {
    hide Mask;
  }

  lemma SizesExample()
    ensures ProbeCount(10) == 6 && ProbeCount(1) == 1 && ProbeCount(100) == 30
    ensures ArraySize(1, 10) == 8 && ArraySize(100, 10) == 125
  {
  }
}
