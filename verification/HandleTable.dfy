// The cache's hash table: an array of singly linked buckets (util/cache.cc, HandleTable).

module HandleTable {
  import opened DbFormat
  import opened Coding
  import opened CacheHandles

  predicate Matches(h: Handle, key: Bytes, hash: nat) {
    h.hash == hash && h.key == key
  }

  // No two entries have the same key and hash.
  ghost predicate OneEach(E: set<Handle>) {
    forall g, h :: g in E && h in E && Matches(g, h.key, h.hash) ==> g == h
  }

  // The entry for a key, or null.
  ghost predicate IsEntry(E: set<Handle>, key: Bytes, hash: nat, r: Handle?) {
    if r == null then forall h :: h in E ==> !Matches(h, key, hash) else r in E && Matches(r, key, hash)
  }

  // ---- Chains ----

  function At(c: seq<Handle>, i: nat): Handle? {
    if i < |c| then c[i] else null
  }

  // The bucket that starts at h.
  ghost predicate Chain(h: Handle?, c: seq<Handle>)
    reads c`nextHash
  {
    h == At(c, 0) && Distinct(c) && forall i: nat :: i < |c| ==> c[i].nextHash == At(c, i + 1)
  }

  ghost predicate AllIn(cs: seq<seq<Handle>>, E: set<Handle>) {
    forall b, i :: 0 <= b < |cs| && 0 <= i < |cs[b]| ==> cs[b][i] in E
  }

  ghost predicate Chains(list: array<Handle?>, cs: seq<seq<Handle>>, E: set<Handle>)
    requires AllIn(cs, E)
    reads list, E`nextHash
  {
    list.Length == |cs| && forall b :: 0 <= b < |cs| ==> Chain(list[b], cs[b])
  }

  // Each entry is in the bucket of its hash, and nothing else is in any bucket.
  ghost predicate Placed(cs: seq<seq<Handle>>, E: set<Handle>) {
    |cs| > 0 && AllIn(cs, E)
    && (forall b: nat, i: nat :: b < |cs| && i < |cs[b]| ==> cs[b][i].hash % |cs| == b)
    && forall h :: h in E ==> h in cs[h.hash % |cs|]
  }

  lemma PlacedAt(cs: seq<seq<Handle>>, E: set<Handle>, b: nat, h: Handle)
    requires Placed(cs, E) && b < |cs|
    ensures AllIn(cs, E)
    ensures h in cs[b] ==> h in E && h.hash % |cs| == b
    ensures h in E && h.hash % |cs| == b ==> h in cs[b]
  {
  }

  // The entries E are exactly what the buckets hold.
  ghost predicate Filed(list: array<Handle?>, cs: seq<seq<Handle>>, E: set<Handle>)
    reads list, E`nextHash
  {
    Placed(cs, E) && Chains(list, cs, E)
  }

  // A pointer to a link.
  datatype Slot = Start(bucket: nat) | NextOf(h: Handle)

  // The link to position i of a bucket.
  ghost predicate SlotTo(c: seq<Handle>, b: nat, i: nat, slot: Slot) {
    i <= |c| && slot == if i == 0 then Start(b) else NextOf(c[i - 1])
  }

  function Load(list: array<Handle?>, slot: Slot): Handle?
    requires slot.Start? ==> slot.bucket < list.Length
    reads list, if slot.NextOf? then {slot.h} else {}
  {
    if slot.Start? then list[slot.bucket] else slot.h.nextHash
  }

  method Store(list: array<Handle?>, slot: Slot, h: Handle?)
    requires slot.Start? ==> slot.bucket < list.Length
    modifies list, (if slot.NextOf? then {slot.h} else {})`nextHash
    ensures slot.Start? ==> list[..] == old(list[..])[slot.bucket := h]
    ensures slot.NextOf? ==> list[..] == old(list[..]) && slot.h.nextHash == h
  {
    if slot.Start? {
      list[slot.bucket] := h;
    } else {
      slot.h.nextHash := h;
    }
  }

  // The first i with a match, or the end of the chain.
  ghost predicate FirstMatch(c: seq<Handle>, key: Bytes, hash: nat, i: nat) {
    i <= |c| && (i < |c| ==> Matches(c[i], key, hash)) && forall j :: 0 <= j < i ==> !Matches(c[j], key, hash)
  }

  // ---- Choosing a bucket ----

  predicate PowerOfTwo(n: nat) {
    n == 1 || (n > 1 && n % 2 == 0 && PowerOfTwo(n / 2))
  }

  // Bitwise and, bit by bit.
  function And(a: nat, b: nat): nat {
    if a == 0 || b == 0 then 0 else 2 * And(a / 2, b / 2) + (a % 2) * (b % 2)
  }

  // Masking with a power of two less one is the remainder modulo it.
  lemma {:induction false} MaskIsModulo(hash: nat, n: nat)
    requires PowerOfTwo(n)
    ensures n > 0 && And(hash, n - 1) == hash % n
  {
    if n > 1 && hash > 0 {
      var m := n / 2;
      MaskIsModulo(hash / 2, m);
      AndOdd(hash, m - 1);
      HalfModulo(hash, m);
      assert n == 2 * m;
    } else if n > 1 {
      SmallModulo(n);
    }
  }

  lemma SmallModulo(n: nat)
    requires n > 0
    ensures 0 % n == 0
  {
  }

  lemma AndOdd(a: nat, b: nat)
    ensures And(a, 2 * b + 1) == 2 * And(a / 2, b) + a % 2
  {
    hide PowerOfTwo;
  }

  lemma HalfModulo(h: nat, m: nat)
    requires m > 0
    ensures h % (2 * m) == 2 * (h / 2 % m) + h % 2
  {
    var q: nat, r: nat := h / 2 / m, h / 2 % m;
    Division(h / 2, m);
    assert (2 * m) * q == 2 * (m * q);
    Remainder(h, 2 * m, q, 2 * r + h % 2);
  }

  lemma Division(h: nat, m: nat)
    requires m > 0
    ensures h == m * (h / m) + h % m
  {
  }

  lemma Remainder(h: nat, n: nat, q: nat, r: nat)
    requires n > 0 && r < n && h == n * q + r
    ensures h % n == r
  {
    Division(h, n);
    var d := h / n - q;
    assert n * d == n * (h / n) - n * q;
    AtLeast(n, d);
  }

  // A nonzero multiple of n is at least n away from zero.
  lemma AtLeast(n: nat, d: int)
    ensures d > 0 ==> n * d >= n
    ensures d < 0 ==> n * d + n <= 0
  {
    if d > 0 {
      Product(n, d - 1);
    } else if d < 0 {
      Product(n, -d - 1);
    }
  }

  lemma Product(n: int, k: int)
    requires n >= 0 && k >= 0
    ensures n * k >= 0 && n * (k + 1) == n * k + n && n * (-k - 1) == -(n * k) - n
  {
  }

  method FindPointer(list: array<Handle?>, key: Bytes, hash: nat, ghost cs: seq<seq<Handle>>, ghost E: set<Handle>)
    returns (slot: Slot, ghost i: nat)
    requires Filed(list, cs, E) && PowerOfTwo(list.Length)
    ensures FirstMatch(cs[hash % |cs|], key, hash, i) && SlotTo(cs[hash % |cs|], hash % |cs|, i, slot)
    ensures slot.Start? ==> slot.bucket < list.Length
    ensures Load(list, slot) == At(cs[hash % |cs|], i)
    ensures IsEntry(E, key, hash, Load(list, slot))
  {
    MaskIsModulo(hash, list.Length);
    BucketChain(list, cs, E, hash % |cs|);
    hide And, PowerOfTwo, Filed, Placed, IsEntry;
    var bucket := And(hash, list.Length - 1);
    ghost var b := hash % |cs|;
    ghost var c := cs[b];
    slot, i := Start(bucket), 0;
    var h := list[bucket];
    while h != null && !(h.hash == hash && h.key == key)
      invariant i <= |c| && SlotTo(c, b, i, slot) && h == At(c, i) && Load(list, slot) == h
      invariant forall j :: 0 <= j < i ==> !Matches(c[j], key, hash)
      decreases |c| - i
    {
      slot := NextOf(h);
      h := h.nextHash;
      i := i + 1;
    }
    FoundEntry(list, cs, E, key, hash, i);
  }

  lemma FoundEntry(list: array<Handle?>, cs: seq<seq<Handle>>, E: set<Handle>, key: Bytes, hash: nat, i: nat)
    requires Filed(list, cs, E) && FirstMatch(cs[hash % |cs|], key, hash, i)
    ensures IsEntry(E, key, hash, At(cs[hash % |cs|], i))
  {
    hide Chains;
    forall h | h in E && Matches(h, key, hash) ensures h in cs[hash % |cs|] {
      PlacedAt(cs, E, hash % |cs|, h);
    }
    if i < |cs[hash % |cs|]| {
      PlacedAt(cs, E, hash % |cs|, cs[hash % |cs|][i]);
    }
  }

  lemma PlacedPush(cs: seq<seq<Handle>>, E: set<Handle>, h: Handle)
    requires Placed(cs, E) && h !in E
    ensures var b := h.hash % |cs|; Placed(cs[b := [h] + cs[b]], E + {h})
    ensures forall d :: 0 <= d < |cs| ==> h !in cs[d]
  {
    var b := h.hash % |cs|;
    var ds := cs[b := [h] + cs[b]];
    forall g | g in E + {h} ensures g in ds[g.hash % |ds|] {
      if g != h { PlacedAt(cs, E, g.hash % |cs|, g); }
    }
  }

  lemma ChainPush(h: Handle, c: seq<Handle>)
    requires Chain(h.nextHash, c) && h !in c
    ensures Chain(h, [h] + c)
  {
  }

  // Puts h at the front of its bucket.
  method Push(list: array<Handle?>, h: Handle, ghost cs: seq<seq<Handle>>, ghost E: set<Handle>)
    requires Filed(list, cs, E) && h !in E && PowerOfTwo(list.Length)
    modifies list, h`nextHash
    ensures var b := h.hash % |cs|; Filed(list, cs[b := [h] + cs[b]], E + {h})
  {
    MaskIsModulo(h.hash, list.Length);
    hide And, PowerOfTwo;
    var b := And(h.hash, list.Length - 1);
    ghost var ds := cs[b := [h] + cs[b]];
    PlacedPush(cs, E, h);
    hide Placed, Chain;
    h.nextHash := list[b];
    assert Chain(h.nextHash, cs[b]);
    ChainPush(h, cs[b]);
    list[b] := h;
    forall d | 0 <= d < |ds| ensures Chain(list[d], ds[d]) {
      assert old(Chain(list[d], cs[d]));
    }
  }

  ghost function Minus(E: set<Handle>, r: Handle?): set<Handle> {
    if r == null then E else E - {r}
  }

  ghost function SetOf(c: seq<Handle>): set<Handle> {
    set h | h in c
  }

  // A tail to put behind the first i entries of bucket b.
  ghost predicate TailFits(tail: seq<Handle>, cs: seq<seq<Handle>>, b: nat, i: nat, E: set<Handle>)
    requires b < |cs|
  {
    i <= |cs[b]|
    && (forall k :: 0 <= k < |tail| ==> tail[k] !in cs[b][..i] && tail[k].hash % |cs| == b)
    && forall k :: 0 <= k < |tail| ==> tail[k] in cs[b] || tail[k] !in E
  }

  lemma PlacedSplice(cs: seq<seq<Handle>>, E: set<Handle>, b: nat, i: nat, tail: seq<Handle>)
    requires Placed(cs, E) && b < |cs| && TailFits(tail, cs, b, i, E) && Distinct(cs[b])
    ensures Placed(cs[b := cs[b][..i] + tail], E - SetOf(cs[b][i..]) + SetOf(tail))
    ensures forall d :: 0 <= d < |cs| && d != b ==> forall k :: 0 <= k < |cs[b]| ==> cs[b][k] !in cs[d]
  {
    var c := cs[b];
    var ds: seq<seq<Handle>> := cs[b := c[..i] + tail];
    var F := E - SetOf(c[i..]) + SetOf(tail);
    forall d: nat, k: nat | d < |ds| && k < |ds[d]| ensures ds[d][k] in F && ds[d][k].hash % |ds| == d {
      if d != b {
        PlacedAt(cs, E, d, cs[d][k]);
        PlacedAt(cs, E, b, cs[d][k]);
        assert forall g :: g in c[i..] ==> g in c;
      }
    }
    forall g | g in F ensures g in ds[g.hash % |ds|] {
      PlacedAt(cs, E, b, g);
      assert g in c ==> g in c[..i] || g in c[i..];
    }
  }

  // Puts a tail behind the first i entries of one bucket.
  method Relink(list: array<Handle?>, slot: Slot, x: Handle?, ghost c: seq<Handle>, ghost b: nat, ghost i: nat,
                ghost tail: seq<Handle>)
    requires b < list.Length && Chain(list[b], c) && SlotTo(c, b, i, slot) && Chain(x, tail)
    requires forall k :: 0 <= k < |tail| ==> tail[k] !in c[..i]
    modifies list, (if slot.NextOf? then {slot.h} else {})`nextHash
    ensures Chain(list[b], c[..i] + tail) && forall d :: 0 <= d < list.Length && d != b ==> list[d] == old(list[d])
  {
    assert i > 0 ==> c[i - 1] in c[..i];
    Store(list, slot, x);
  }

  // Replaces the part of a bucket from position i on.
  method Splice(list: array<Handle?>, slot: Slot, x: Handle?, ghost cs: seq<seq<Handle>>, ghost E: set<Handle>,
                ghost b: nat, ghost i: nat, ghost tail: seq<Handle>)
    requires Filed(list, cs, E) && b < |cs| && SlotTo(cs[b], b, i, slot)
    requires TailFits(tail, cs, b, i, E) && Chain(x, tail)
    modifies list, (if slot.NextOf? then {slot.h} else {})`nextHash
    ensures i <= |cs[b]| && Filed(list, cs[b := cs[b][..i] + tail], E - SetOf(cs[b][i..]) + SetOf(tail))
  {
    ghost var c := cs[b];
    ghost var ds := cs[b := c[..i] + tail];
    assert Chain(list[b], c);
    PlacedSplice(cs, E, b, i, tail);
    Relink(list, slot, x, c, b, i, tail);
    hide Placed, Chain, TailFits;
    forall d | 0 <= d < |ds| && d != b ensures Chain(list[d], ds[d]) {
      assert old(Chain(list[d], cs[d]));
      assert i > 0 ==> c[i - 1] !in cs[d];
    }
  }

  // Files h in place of any entry with its key.
  method PlaceIn(list: array<Handle?>, h: Handle, ghost cs: seq<seq<Handle>>, ghost E: set<Handle>)
    returns (old_: Handle?, ghost ds: seq<seq<Handle>>)
    requires Filed(list, cs, E) && h !in E && PowerOfTwo(list.Length)
    modifies list, E`nextHash, h`nextHash
    ensures IsEntry(E, h.key, h.hash, old_) && Filed(list, ds, Minus(E, old_) + {h}) && list.Length == |ds|
  {
    hide Placed, Filed, TailFits, FirstMatch, IsEntry, PowerOfTwo, Chain, Distinct, Matches;
    FiledSize(list, cs, E);
    FiledPlaced(list, cs, E);
    var slot, i := FindPointer(list, h.key, h.hash, cs, E);
    ghost var b := h.hash % |cs|;
    ghost var c := cs[b];
    BucketChain(list, cs, E, b);
    ChainStart(list[b], c);
    TailPlaced(cs, E, b, i, h);
    assert i > 0 ==> c[i - 1] in E;
    old_ := Load(list, slot);
    h.nextHash := if old_ == null then null else old_.nextHash;
    ghost var rest := if i < |c| then c[i + 1..] else [];
    SuffixChain(c, i, h.nextHash);
    ChainPush(h, rest);
    assert Filed(list, cs, E);
    Splice(list, slot, h, cs, E, b, i, [h] + rest);
    ds := cs[b := c[..i] + ([h] + rest)];
    FiledSize(list, ds, Minus(E, old_) + {h});
  }

  method RemoveFrom(list: array<Handle?>, key: Bytes, hash: nat, ghost cs: seq<seq<Handle>>, ghost E: set<Handle>)
    returns (r: Handle?, ghost ds: seq<seq<Handle>>)
    requires Filed(list, cs, E) && PowerOfTwo(list.Length)
    modifies list, E`nextHash
    ensures IsEntry(E, key, hash, r) && Filed(list, ds, Minus(E, r)) && list.Length == |ds|
  {
    FiledSize(list, cs, E);
    var slot, i := FindPointer(list, key, hash, cs, E);
    ghost var b := hash % |cs|;
    ghost var c := cs[b];
    BucketChain(list, cs, E, b);
    hide Placed, Filed, TailFits, FirstMatch, IsEntry;
    assert i > 0 ==> c[i - 1] in E;
    r, ds := Load(list, slot), cs;
    if r != null {
      SuffixChain(c, i, r.nextHash);
      assert Placed(cs, E) by { FiledPlaced(list, cs, E); }
      TailCut(cs, E, b, i);
      Splice(list, slot, r.nextHash, cs, E, b, i, c[i + 1..]);
      ds := cs[b := c[..i] + c[i + 1..]];
      FiledSize(list, ds, Minus(E, r));
    }
  }

  lemma FiledPlaced(list: array<Handle?>, cs: seq<seq<Handle>>, E: set<Handle>)
    requires Filed(list, cs, E)
    ensures Placed(cs, E)
  {
  }

  // One entry in, the entry with its key out.
  lemma Replaced(E: set<Handle>, h: Handle, r: Handle?)
    requires OneEach(E) && h !in E && IsEntry(E, h.key, h.hash, r)
    ensures OneEach(Minus(E, r) + {h}) && |Minus(E, r) + {h}| == |E| + if r == null then 1 else 0
    ensures Minus(E, r) <= E
  {
  }

  lemma Removed(E: set<Handle>, key: Bytes, hash: nat, r: Handle?)
    requires OneEach(E) && IsEntry(E, key, hash, r)
    ensures OneEach(Minus(E, r)) && |Minus(E, r)| == |E| - if r == null then 0 else 1
  {
  }

  // Resize's inner loop: one bucket after another entry by entry into the new buckets.
  method RefileBucket(list: array<Handle?>, newList: array<Handle?>, i: nat, ghost chains: seq<seq<Handle>>,
                      ghost entries: set<Handle>, ghost cs0: seq<seq<Handle>>, ghost moved0: set<Handle>)
    returns (ghost cs: seq<seq<Handle>>, ghost moved: set<Handle>)
    requires AllIn(chains, entries) && Placed(chains, entries) && i < list.Length == |chains| && newList != list
      && PowerOfTwo(newList.Length)
    requires Unmoved(list, chains, entries, i, 0) && Moved(chains, entries, i, 0, moved0)
    requires Chain(list[i], chains[i]) && Filed(newList, cs0, moved0)
    modifies newList, entries`nextHash
    ensures Unmoved(list, chains, entries, i + 1, 0) && Moved(chains, entries, i + 1, 0, moved)
    ensures (i + 1 < list.Length ==> Chain(list[i + 1], chains[i + 1])) && Filed(newList, cs, moved)
  {
    hide PowerOfTwo, Placed, Filed, Moved, Chain, AllIn;
    cs, moved := cs0, moved0;
    var h := list[i];
    ghost var k: nat := 0;
    ghost var c := chains[i];
    ChainStart(h, c);
    while h != null
      invariant k <= |c| && h == At(c, k) && Distinct(c)
      invariant Unmoved(list, chains, entries, i, k) && Moved(chains, entries, i, k, moved) && Filed(newList, cs, moved)
      decreases |c| - k
    {
      var next := h.nextHash;
      InEntries(chains, entries, i, k);
      FiledSize(newList, cs, moved);
      MoveOne(list, newList, h, chains, entries, i, k, cs, moved);
      cs := cs[h.hash % |cs| := [h] + cs[h.hash % |cs|]];
      moved := moved + {h};
      h, k := next, k + 1;
    }
    BucketDone(chains, entries, i, moved);
    NextBucket(list, chains, entries, i, k);
  }

  lemma NextBucket(list: array<Handle?>, cs: seq<seq<Handle>>, E: set<Handle>, i: nat, k: nat)
    requires AllIn(cs, E) && i < |cs| && Unmoved(list, cs, E, i, k)
    ensures Unmoved(list, cs, E, i + 1, 0) && (i + 1 < list.Length ==> Chain(list[i + 1], cs[i + 1]))
  {
    assert i + 1 < |cs| ==> Chain(list[i + 1], cs[i + 1]);
  }

  // The double loop of Resize.
  method Refile(list: array<Handle?>, newList: array<Handle?>, ghost chains: seq<seq<Handle>>,
                ghost entries: set<Handle>)
    returns (ghost cs: seq<seq<Handle>>)
    requires Filed(list, chains, entries) && newList != list && newList.Length > 0 && PowerOfTwo(newList.Length)
    requires forall b :: 0 <= b < newList.Length ==> newList[b] == null
    modifies newList, entries`nextHash
    ensures Filed(newList, cs, entries)
  {
    hide PowerOfTwo;
    cs := seq(newList.Length, _ => []);
    ghost var moved: set<Handle> := {};
    EmptyFiled(newList, cs);
    ChainsApart(list, chains, entries);
    hide Placed, Filed, Moved, Chain, Unmoved;
    assert Moved(chains, entries, 0, 0, moved) by { NothingMoved(chains, entries); }
    for i := 0 to list.Length
      invariant Unmoved(list, chains, entries, i, 0) && Moved(chains, entries, i, 0, moved)
      invariant (i < list.Length ==> Chain(list[i], chains[i])) && Filed(newList, cs, moved)
    {
      cs, moved := RefileBucket(list, newList, i, chains, entries, cs, moved);
    }
    AllMoved(chains, entries, moved);
  }

  // ---- The table ----

  class Table {
    var list: array<Handle?>
    var elems: nat
    ghost var chains: seq<seq<Handle>>
    ghost var entries: set<Handle>

    ghost predicate Ok()
      reads this, list, entries`nextHash
    {
      Filed(list, chains, entries) && elems == |entries| && OneEach(entries)
      && PowerOfTwo(list.Length) && list.Length >= 4 && |entries| <= list.Length
    }

    constructor ()
      ensures Ok() && entries == {} && fresh(list)
    {
      list := new Handle?[4](_ => null);
      elems := 0;
      chains, entries := [[], [], [], []], {};
    }

    method Lookup(key: Bytes, hash: nat) returns (r: Handle?)
      requires Ok()
      ensures IsEntry(entries, key, hash, r)
    {
      var slot, i := FindPointer(list, key, hash, chains, entries);
      r := Load(list, slot);
    }

    // Files h, in place of any entry with its key, which is returned.
    method Insert(h: Handle) returns (old_: Handle?)
      requires Ok() && h !in entries
      modifies this, list, entries`nextHash, h`nextHash
      ensures Ok() && (list == old(list) || fresh(list))
      ensures list.Length == old(list.Length)
        || (|entries| > old(list.Length) && list.Length / 2 < |entries| <= list.Length)
      ensures IsEntry(old(entries), h.key, h.hash, old_) && entries == Minus(old(entries), old_) + {h}
    {
      hide Filed, PowerOfTwo, OneEach, IsEntry, Minus;
      old_, chains := PlaceIn(list, h, chains, entries);
      Replaced(entries, h, old_);
      entries := Minus(entries, old_) + {h};
      if old_ == null {
        elems := elems + 1;
        if elems > list.Length {
          Resize();
        }
      }
    }

    method Remove(key: Bytes, hash: nat) returns (r: Handle?)
      requires Ok()
      modifies this`elems, this`chains, this`entries, list, entries`nextHash
      ensures Ok() && IsEntry(old(entries), key, hash, r) && entries == Minus(old(entries), r)
    {
      hide Filed, PowerOfTwo, OneEach, IsEntry;
      r, chains := RemoveFrom(list, key, hash, chains, entries);
      Removed(entries, key, hash, r);
      entries := Minus(entries, r);
      if r != null {
        elems := elems - 1;
      }
    }

    // Doubles the buckets until there are as many as entries, and files every entry again.
    method Resize()
      requires Filed(list, chains, entries) && elems == |entries|
      modifies this`list, this`chains, entries`nextHash
      ensures Filed(list, chains, entries) && fresh(list) && PowerOfTwo(list.Length) && list.Length >= 4
      ensures list.Length >= elems && (list.Length == 4 || list.Length / 2 < elems)
    {
      hide Filed;
      var newLength := 4;
      while newLength < elems
        invariant PowerOfTwo(newLength) && newLength >= 4 && (newLength == 4 || newLength / 2 < elems)
      {
        newLength := newLength * 2;
      }
      var newList := new Handle?[newLength](_ => null);
      ghost var cs := Refile(list, newList, chains, entries);
      list, chains := newList, cs;
    }
  }

  // What is left of bucket i from position k on, and the buckets after it, when the entries before
  // have moved to the new buckets.
  ghost predicate Unmoved(list: array<Handle?>, cs: seq<seq<Handle>>, E: set<Handle>, i: nat, k: nat)
    requires AllIn(cs, E)
    reads list, E`nextHash
  {
    list.Length == |cs| && (forall b :: i < b < |cs| ==> Chain(list[b], cs[b]))
    && (i < |cs| ==> k <= |cs[i]| && forall j: nat :: k <= j < |cs[i]| ==> cs[i][j].nextHash == At(cs[i], j + 1))
  }

  ghost predicate Moved(cs: seq<seq<Handle>>, E: set<Handle>, i: nat, k: nat, moved: set<Handle>) {
    |cs| > 0 && moved <= E && (i < |cs| ==> k <= |cs[i]|)
    && forall h :: h in E ==> (h in moved <==> h.hash % |cs| < i || (i < |cs| && h in cs[i][..k]))
  }

  // One entry moves to the front of its new bucket.
  method MoveOne(list: array<Handle?>, newList: array<Handle?>, h: Handle, ghost old_: seq<seq<Handle>>,
                 ghost E: set<Handle>,
                 ghost i: nat, ghost k: nat, ghost cs: seq<seq<Handle>>, ghost moved: set<Handle>)
    requires Placed(old_, E) && Unmoved(list, old_, E, i, k) && Moved(old_, E, i, k, moved) && list != newList
    requires i < |old_| && k < |old_[i]| && h == old_[i][k] && Distinct(old_[i]) && Filed(newList, cs, moved)
      && PowerOfTwo(newList.Length)
    modifies newList, h`nextHash
    ensures Unmoved(list, old_, E, i, k + 1) && Moved(old_, E, i, k + 1, moved + {h})
    ensures Filed(newList, cs[h.hash % |cs| := [h] + cs[h.hash % |cs|]], moved + {h})
  {
    MovedNext(old_, E, i, k, moved);
    Push(newList, h, cs, moved);
    hide Placed, Filed, Moved;
    forall b | i < b < |old_| ensures Chain(list[b], old_[b]) {
      assert old(Chain(list[b], old_[b]));
    }
  }

  lemma MovedNext(cs: seq<seq<Handle>>, E: set<Handle>, i: nat, k: nat, moved: set<Handle>)
    requires Placed(cs, E) && Moved(cs, E, i, k, moved) && i < |cs| && k < |cs[i]| && Distinct(cs[i])
    ensures cs[i][k] !in moved && Moved(cs, E, i, k + 1, moved + {cs[i][k]}) && cs[i][k] in E
    ensures forall b :: i < b < |cs| ==> cs[i][k] !in cs[b]
    ensures forall j :: k < j < |cs[i]| ==> cs[i][j] != cs[i][k]
  {
    var h := cs[i][k];
    PlacedAt(cs, E, i, h);
    assert cs[i][..k + 1] == cs[i][..k] + [h];
    forall b | i < b < |cs| ensures h !in cs[b] {
      PlacedAt(cs, E, b, h);
    }
  }

  lemma BucketDone(cs: seq<seq<Handle>>, E: set<Handle>, i: nat, moved: set<Handle>)
    requires Placed(cs, E) && i < |cs| && Moved(cs, E, i, |cs[i]|, moved)
    ensures Moved(cs, E, i + 1, 0, moved)
  {
    assert cs[i][..|cs[i]|] == cs[i];
    forall h | h in E ensures h.hash % |cs| == i ==> h in cs[i] {
      PlacedAt(cs, E, i, h);
    }
    forall h | h in E && h in cs[i] ensures h.hash % |cs| == i {
      PlacedAt(cs, E, i, h);
    }
  }

  lemma BucketChain(list: array<Handle?>, cs: seq<seq<Handle>>, E: set<Handle>, b: nat)
    requires Filed(list, cs, E) && b < |cs|
    ensures Chain(list[b], cs[b]) && Distinct(cs[b])
    ensures forall k :: 0 <= k < |cs[b]| ==> cs[b][k] in E && cs[b][k].hash % |cs| == b
  {
  }

  lemma EmptyFiled(list: array<Handle?>, cs: seq<seq<Handle>>)
    requires list.Length == |cs| > 0 && forall b :: 0 <= b < |cs| ==> list[b] == null && cs[b] == []
    ensures Filed(list, cs, {})
  {
  }

  lemma ChainsApart(list: array<Handle?>, cs: seq<seq<Handle>>, E: set<Handle>)
    requires Filed(list, cs, E)
    ensures Placed(cs, E) && AllIn(cs, E) && Unmoved(list, cs, E, 0, 0) && list.Length == |cs| > 0
      && Chain(list[0], cs[0])
    ensures forall b :: 0 <= b < |cs| ==> Chain(list[b], cs[b])
  {
  }

  lemma NothingMoved(cs: seq<seq<Handle>>, E: set<Handle>)
    requires Placed(cs, E)
    ensures Moved(cs, E, 0, 0, {})
  {
  }

  lemma AllMoved(cs: seq<seq<Handle>>, E: set<Handle>, moved: set<Handle>)
    requires Moved(cs, E, |cs|, 0, moved)
    ensures moved == E
  {
    forall h | h in E ensures h in moved {
      assert h.hash % |cs| < |cs|;
    }
  }

  lemma ChainStart(h: Handle?, c: seq<Handle>)
    requires Chain(h, c)
    ensures h == At(c, 0) && Distinct(c) && forall j: nat :: j < |c| ==> c[j].nextHash == At(c, j + 1)
  {
  }

  lemma InEntries(cs: seq<seq<Handle>>, E: set<Handle>, i: nat, k: nat)
    requires AllIn(cs, E) && i < |cs| && k < |cs[i]|
    ensures cs[i][k] in E
  {
  }

  lemma FiledSize(list: array<Handle?>, cs: seq<seq<Handle>>, E: set<Handle>)
    requires Filed(list, cs, E)
    ensures list.Length == |cs| > 0
  {
  }

  lemma SuffixChain(c: seq<Handle>, i: nat, x: Handle?)
    requires Distinct(c) && i <= |c| && (forall k: nat :: k < |c| ==> c[k].nextHash == At(c, k + 1))
    requires x == if i < |c| then c[i].nextHash else null
    ensures Chain(x, if i < |c| then c[i + 1..] else [])
  {
  }

  lemma TailPlaced(cs: seq<seq<Handle>>, E: set<Handle>, b: nat, i: nat, h: Handle)
    requires Placed(cs, E) && b < |cs| && b == h.hash % |cs| && i <= |cs[b]| && h !in E && Distinct(cs[b])
    ensures var c := cs[b];
      var tail := [h] + if i < |c| then c[i + 1..] else [];
      TailFits(tail, cs, b, i, E) && E - SetOf(c[i..]) + SetOf(tail) == Minus(E, At(c, i)) + {h}
  {
    var c := cs[b];
    var tail := [h] + if i < |c| then c[i + 1..] else [];
    forall g | g in Minus(E, At(c, i)) + {h} ensures g in E - SetOf(c[i..]) + SetOf(tail) {
      if g in c[i..] && g != h {
        var k :| i <= k < |c| && c[k] == g;
        assert tail[k - i] == g;
      }
    }
    assert tail[0] == h;
  }

  lemma TailCut(cs: seq<seq<Handle>>, E: set<Handle>, b: nat, i: nat)
    requires Placed(cs, E) && b < |cs| && i < |cs[b]| && Distinct(cs[b])
    ensures var c := cs[b];
      TailFits(c[i + 1..], cs, b, i, E) && E - SetOf(c[i..]) + SetOf(c[i + 1..]) == E - {c[i]}
  {
    var c := cs[b];
    forall g | g in E - {c[i]} ensures g in E - SetOf(c[i..]) + SetOf(c[i + 1..]) {
      if g in c[i..] {
        var k :| i <= k < |c| && c[k] == g;
        assert c[i + 1..][k - i - 1] == g;
      }
    }
  }
}
