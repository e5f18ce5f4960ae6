// Table blocks as bytes: prefix-compressed entries with restart points (table/block_builder.cc,
// table/block.cc).

module BlockFormat {
  import opened DbFormat
  import opened Coding

  datatype Pair = Pair(key: Bytes, value: Bytes)

  // ---- Prefix compression ----

  function Shared(a: Bytes, b: Bytes): (n: nat)
    ensures n <= |a| && n <= |b| && a[..n] == b[..n]
    ensures n < |a| && n < |b| ==> a[n] != b[n]
  {
    if a == [] || b == [] || a[0] != b[0] then 0 else 1 + Shared(a[1..], b[1..])
  }

  // Bytes of an entry that shares its first n key bytes with the previous one.
  function EntryBytes(p: Pair, n: nat): (r: Bytes)
    requires n <= |p.key|
    ensures |r| >= 3
  {
    Varint(n) + Varint(|p.key| - n) + Varint(|p.value|) + p.key[n..] + p.value
  }

  // i modulo the restart interval.
  function Phase(i: nat, interval: nat): (r: nat)
    requires interval > 0
    ensures r < interval
  {
    if i == 0 then 0 else if Phase(i - 1, interval) + 1 == interval then 0 else Phase(i - 1, interval) + 1
  }

  lemma {:induction false} PhaseIsModulo(i: nat, interval: nat)
    requires interval > 0
    ensures i % interval == Phase(i, interval)
  {
    if i > 0 {
      PhaseIsModulo(i - 1, interval);
      var q := (i - 1) / interval;
      assert i - 1 == q * interval + (i - 1) % interval;
      if Phase(i - 1, interval) + 1 == interval {
        assert i == (q + 1) * interval;
        Division(i, interval, q + 1, 0);
      } else {
        Division(i, interval, q, Phase(i, interval));
      }
    } else {
      Division(0, interval, 0, 0);
    }
  }

  lemma Division(m: nat, d: nat, q: nat, r: nat)
    requires d > 0 && r < d && m == q * d + r
    ensures m / d == q && m % d == r
  {
    var k := m / d;
    assert m == k * d + m % d;
    assert k < q ==> (k + 1) * d <= q * d;
    assert k > q ==> (q + 1) * d <= k * d;
  }

  // How much entry i shares: nothing at a restart point, every `interval` entries.
  function SharedAt(ps: seq<Pair>, i: nat, interval: nat): (n: nat)
    requires i < |ps| && interval > 0
    ensures n <= |ps[i].key|
  {
    if Phase(i, interval) == 0 then 0 else Shared(ps[i - 1].key, ps[i].key)
  }

  // The first n entries.
  function Body(ps: seq<Pair>, n: nat, interval: nat): Bytes
    requires n <= |ps| && interval > 0
  {
    if n == 0 then [] else Body(ps, n - 1, interval) + EntryBytes(ps[n - 1], SharedAt(ps, n - 1, interval))
  }

  // Where entry i starts.
  function Offset(ps: seq<Pair>, i: nat, interval: nat): nat
    requires i <= |ps| && interval > 0
  {
    |Body(ps, i, interval)|
  }

  lemma {:induction false} Offsets(ps: seq<Pair>, i: nat, j: nat, interval: nat)
    requires i <= j <= |ps| && interval > 0
    ensures Offset(ps, i, interval) <= Offset(ps, j, interval)
    ensures i < j ==> Offset(ps, i, interval) + 3 <= Offset(ps, j, interval)
    ensures Body(ps, j, interval)[..Offset(ps, i, interval)] == Body(ps, i, interval)
  {
    hide EntryBytes, SharedAt;
    if i < j {
      Offsets(ps, i, j - 1, interval);
    }
  }

  // The bytes of entry i are where it starts.
  lemma EntryAt(ps: seq<Pair>, i: nat, interval: nat, n: nat)
    requires i < n <= |ps| && interval > 0
    ensures var lo, hi := Offset(ps, i, interval), Offset(ps, i + 1, interval);
      lo <= hi <= Offset(ps, n, interval)
      && Body(ps, n, interval)[lo..hi] == EntryBytes(ps[i], SharedAt(ps, i, interval))
  {
    hide EntryBytes, SharedAt;
    Offsets(ps, i + 1, n, interval);
    Offsets(ps, i, i + 1, interval);
    var lo, hi := Offset(ps, i, interval), Offset(ps, i + 1, interval);
    assert Body(ps, n, interval)[lo..hi] == Body(ps, n, interval)[..hi][lo..];
  }

  // The entries, of the first n, that are restart points.
  function Starts(n: nat, interval: nat): seq<nat>
    requires interval > 0
  {
    if n == 0 then [] else Starts(n - 1, interval) + if Phase(n - 1, interval) == 0 then [n - 1] else []
  }

  lemma {:induction false} StartsIs(n: nat, interval: nat)
    requires interval > 0
    ensures var st := Starts(n, interval);
      (forall r, t :: 0 <= r < t < |st| ==> st[r] < st[t])
      && (forall r :: 0 <= r < |st| ==> st[r] < n && Phase(st[r], interval) == 0)
      && (n > 0 ==> st != [] && st[0] == 0) && forall i: nat :: i < n && Phase(i, interval) == 0 ==> i in st
  {
    if n > 0 {
      StartsIs(n - 1, interval);
      var st, more := Starts(n - 1, interval), if Phase(n - 1, interval) == 0 then [n - 1] else [];
      forall i: nat | i < n && Phase(i, interval) == 0 ensures i in st + more {
        assert i < n - 1 ==> i in st;
      }
    }
  }

  // The restart array: where those entries start; an empty block still has one.
  function Restarts(ps: seq<Pair>, n: nat, interval: nat): seq<nat>
    requires n <= |ps| && interval > 0
  {
    if n == 0 then [0]
    else if n == 1 then [Offset(ps, 0, interval)]
    else Restarts(ps, n - 1, interval) + if Phase(n - 1, interval) == 0 then [Offset(ps, n - 1, interval)] else []
  }

  lemma {:induction false} RestartsAre(ps: seq<Pair>, n: nat, interval: nat)
    requires 0 < n <= |ps| && interval > 0
    ensures var st, rs := Starts(n, interval), Restarts(ps, n, interval);
      |rs| == |st| && forall r :: 0 <= r < |st| ==> st[r] < n && rs[r] == Offset(ps, st[r], interval)
  {
    hide Offset;
    StartsIs(n, interval);
    if n > 1 {
      RestartsAre(ps, n - 1, interval);
    } else {
      assert Starts(1, interval) == Starts(0, interval) + [0];
    }
  }

  function Fixed32s(xs: seq<nat>): Bytes {
    if xs == [] then [] else Fixed32s(xs[..|xs| - 1]) + EncodeFixed(xs[|xs| - 1], 4)
  }

  // The finished block.
  function BlockBytes(ps: seq<Pair>, interval: nat): Bytes
    requires interval > 0
  {
    var rs := Restarts(ps, |ps|, interval);
    Body(ps, |ps|, interval) + Fixed32s(rs) + EncodeFixed(|rs|, 4)
  }

  // ---- Reading entries back ----

  // The three lengths at the head of an entry, and what follows them.
  datatype Head = Head(shared: nat, nonShared: nat, valueLength: nat, rest: Bytes)

  // DecodeEntry on any bytes up to the limit: three varints, then enough bytes for key and value.
  function GetHead(bs: Bytes): (r: Option<Head>)
    ensures r.Some? ==> |r.value.rest| < |bs|
  {
    if |bs| < 3 then None
    else
      var a := GetVarint32(bs);
      if a.None? then None
      else
        var b := GetVarint32(a.value.rest);
        if b.None? then None
        else
          var c := GetVarint32(b.value.rest);
          if c.None? || |c.value.rest| % TWO32 < (b.value.value + c.value.value) % TWO32 then None
          else Some(Head(a.value.value, b.value.value, c.value.value, c.value.rest))
  }

  // Three single-byte lengths need no varint decoding.
  lemma OneByte(bs: Bytes)
    requires bs != [] && bs[0] < 128
    ensures GetVarint32(bs) == Some(Parsed(bs[0] as nat, bs[1..]))
  {
  }

  method DecodeEntry(bs: Bytes) returns (r: Option<Head>)
    ensures r == GetHead(bs)
  {
    hide GetVarint32;
    if |bs| < 3 {
      return None;
    }
    var shared, nonShared, valueLength, rest;
    if bs[0] < 128 && bs[1] < 128 && bs[2] < 128 {
      OneByte(bs);
      OneByte(bs[1..]);
      OneByte(bs[1..][1..]);
      assert bs[1..][1..][1..] == bs[3..];
      shared, nonShared, valueLength, rest := bs[0] as nat, bs[1] as nat, bs[2] as nat, bs[3..];
    } else {
      var a := ParseVarint32(bs);
      if a.None? {
        return None;
      }
      var b := ParseVarint32(a.value.rest);
      if b.None? {
        return None;
      }
      var c := ParseVarint32(b.value.rest);
      if c.None? {
        return None;
      }
      shared, nonShared, valueLength, rest := a.value.value, b.value.value, c.value.value, c.value.rest;
    }
    if |rest| % TWO32 < (nonShared + valueLength) % TWO32 {
      return None;
    }
    r := Some(Head(shared, nonShared, valueLength, rest));
  }

  predicate Small(p: Pair) {
    |p.key| < TWO32 && |p.value| < TWO32
  }

  lemma HeadRoundTrip(p: Pair, n: nat, rest: Bytes)
    requires Small(p) && n <= |p.key| && |EntryBytes(p, n) + rest| < TWO32
    ensures GetHead(EntryBytes(p, n) + rest) == Some(Head(n, |p.key| - n, |p.value|, p.key[n..] + p.value + rest))
  {
    hide GetVarint32, Varint;
    var bs := EntryBytes(p, n) + rest;
    var tail := p.key[n..] + p.value + rest;
    assert bs == Varint(n) + (Varint(|p.key| - n) + (Varint(|p.value|) + tail));
    Varint32RoundTrip(n, Varint(|p.key| - n) + (Varint(|p.value|) + tail));
    Varint32RoundTrip(|p.key| - n, Varint(|p.value|) + tail);
    Varint32RoundTrip(|p.value|, tail);
    NoWrap(|p.key| - n + |p.value|, |tail|);
  }

  lemma NoWrap(a: nat, b: nat)
    requires a <= b < TWO32
    ensures a % TWO32 <= b % TWO32
  {
  }

  // ---- The restart array ----

  lemma {:induction false} Fixed32At(xs: seq<nat>, i: nat)
    requires i < |xs|
    ensures |Fixed32s(xs)| == 4 * |xs| && Fixed32s(xs)[4 * i..4 * i + 4] == EncodeFixed(xs[i], 4)
  {
    hide EncodeFixed;
    var n := |xs| - 1;
    Fixed32Length(xs[..n]);
    if i < n {
      Fixed32At(xs[..n], i);
      assert Fixed32s(xs)[4 * i..4 * i + 4] == Fixed32s(xs[..n])[4 * i..4 * i + 4];
    }
  }

  lemma {:induction false} Fixed32Length(xs: seq<nat>)
    ensures |Fixed32s(xs)| == 4 * |xs|
  {
    hide EncodeFixed;
    if xs != [] {
      Fixed32Length(xs[..|xs| - 1]);
    }
  }
}
