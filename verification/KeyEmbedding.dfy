// Byte keys as ordered keys.

module KeyEmbedding {
  // Byte keys as the ordered keys the store's model uses: a string's rank is a real number between 0 and 1,
  // and comparing ranks is comparing strings (util/comparator.cc, db/dbformat.h).

  import opened DbFormat
  import opened Coding
  import opened BlockFormat
  import opened KeyOrder

  // Each byte is a digit after the point in base 257, one more than the byte so that a prefix comes first.
  function Rank(a: Bytes): (r: real)
    ensures 0.0 <= r < 1.0
    ensures a != [] ==> r > 0.0
  {
    if a == [] then 0.0 else ((a[0] as int + 1) as real + Rank(a[1..])) / 257.0
  }

  // The bytewise order is the order of the ranks.
  lemma {:induction false} RankOrder(a: Bytes, b: Bytes)
    ensures BytesLess(a, b) <==> Rank(a) < Rank(b)
  {
    if a != [] && b != [] {
      var x, y := (a[0] as int + 1) as real, (b[0] as int + 1) as real;
      assert Rank(a) == (x + Rank(a[1..])) / 257.0 && Rank(b) == (y + Rank(b[1..])) / 257.0;
      if a[0] == b[0] {
        RankOrder(a[1..], b[1..]);
      } else if a[0] < b[0] {
        assert x + 1.0 <= y;
      } else {
        assert y + 1.0 <= x;
      }
    }
  }

  lemma RankSame(a: Bytes, b: Bytes)
    ensures Rank(a) == Rank(b) <==> a == b
  {
    RankOrder(a, b);
    RankOrder(b, a);
    BytesTotal(a, b);
  }

  // ---- Internal keys ----

  // What ParseInternalKey accepts: a type byte that is a deletion or a value.
  predicate Proper(k: Bytes) {
    |k| >= 8 && Tag(k) % 256 <= 1
  }

  lemma EightBytes()
    ensures Span(8) == 256 * (MAX_SEQUENCE + 1)
  {
    assert Span(4) == 0x1_0000_0000;
    assert Span(5) == 0x100_0000_0000;
    assert Span(6) == 0x1_0000_0000_0000;
    assert Span(7) == 0x100_0000_0000_0000;
  }

  lemma TagBound(k: Bytes)
    ensures Tag(k) / 256 <= MAX_SEQUENCE
  {
    if |k| >= 8 {
      DecodeBound(k[|k| - 8..]);
      EightBytes();
    }
  }

  function ParsedKey(k: Bytes): InternalKey
    requires Proper(k)
  {
    TagBound(k);
    InternalKey(Rank(User(k)), Tag(k) / 256, if Tag(k) % 256 == 1 then Put else Deletion)
  }

  lemma ParsedTag(k: Bytes)
    requires Proper(k)
    ensures ParsedKey(k).Tag() == Tag(k)
  {
    hide DecodeFixed, User;
  }

  // The order on internal keys is kept.
  lemma ParsedOrder(a: Bytes, b: Bytes)
    requires Proper(a) && Proper(b)
    ensures InternalLess(a, b) <==> Less(ParsedKey(a), ParsedKey(b))
  {
    hide DecodeFixed, User, Rank, BytesLess, Tag;
    ParsedTag(a);
    ParsedTag(b);
    RankOrder(User(a), User(b));
    RankSame(User(a), User(b));
  }

  function SeekBytes(user: Bytes, s: SequenceNumber): Bytes {
    user + EncodeFixed(256 * s + 1, 8)
  }

  // A user key and a packed trailer make an internal key.
  lemma TagBytesParse(user: Bytes, sn: SequenceNumber, kind: Kind)
    ensures var k := user + EncodeFixed(InternalKey(Rank(user), sn, kind).Tag(), 8);
      Proper(k) && ParsedKey(k) == InternalKey(Rank(user), sn, kind) && User(k) == user
  {
    hide Rank, EncodeFixed, DecodeFixed;
    EightBytes();
    var tag := InternalKey(Rank(user), sn, kind).Tag();
    var tail := EncodeFixed(tag, 8);
    FixedRoundTrip(tag, 8);
    var k := user + tail;
    assert k[|k| - 8..] == tail && k[..|k| - 8] == user;
  }

  // The lookup key for a user key at a sequence number.
  lemma SeekBytesParse(user: Bytes, s: SequenceNumber)
    ensures Proper(SeekBytes(user, s)) && ParsedKey(SeekBytes(user, s)) == SeekKey(Rank(user), s)
    ensures User(SeekBytes(user, s)) == user
  {
    hide Rank, EncodeFixed, DecodeFixed, ParsedKey, Proper;
    TagBytesParse(user, s, Put);
  }

  // ---- Tables of pairs as runs of entries ----

  ghost predicate AllProper(ps: seq<Pair>) {
    forall i :: 0 <= i < |ps| ==> Proper(ps[i].key)
  }

  function EntryFor(p: Pair): (e: Entry)
    requires Proper(p.key)
    ensures e.Key() == ParsedKey(p.key) && e.value == p.value
  {
    var k := ParsedKey(p.key);
    Entry(k.user, k.sn, k.kind, p.value)
  }

  function RunFor(ps: seq<Pair>): (es: seq<Entry>)
    requires AllProper(ps)
    ensures |es| == |ps| && forall i :: 0 <= i < |ps| ==> es[i] == EntryFor(ps[i])
  {
    seq(|ps|, i requires 0 <= i < |ps| => EntryFor(ps[i]))
  }

  // Pairs in internal-key order are a sorted run.
  lemma RunSorted(ps: seq<Pair>)
    requires AllProper(ps) && forall i, j :: 0 <= i < j < |ps| ==> InternalLess(ps[i].key, ps[j].key)
    ensures Sorted(RunFor(ps))
  {
    hide InternalLess, Less, ParsedKey, Proper, EntryFor;
    forall i, j | 0 <= i < j < |ps| ensures Less(RunFor(ps)[i].Key(), RunFor(ps)[j].Key()) {
      ParsedOrder(ps[i].key, ps[j].key);
    }
  }
}
