// Order and shortening of keys as bytes (util/comparator.cc, db/dbformat.cc).

module KeyOrder {
  import opened DbFormat
  import opened Coding

  // ---- User keys: the bytewise comparator ----

  predicate BytesLess(a: Bytes, b: Bytes) {
    if b == [] then false
    else if a == [] then true
    else if a[0] != b[0] then a[0] < b[0]
    else BytesLess(a[1..], b[1..])
  }

  lemma {:induction false} BytesIrreflexive(a: Bytes)
    ensures !BytesLess(a, a)
  {
    if a != [] {
      BytesIrreflexive(a[1..]);
    }
  }

  lemma {:induction false} BytesTransitive(a: Bytes, b: Bytes, c: Bytes)
    requires BytesLess(a, b) && BytesLess(b, c)
    ensures BytesLess(a, c)
  {
    if a != [] && a[0] == b[0] == c[0] {
      BytesTransitive(a[1..], b[1..], c[1..]);
    }
  }

  lemma {:induction false} BytesTotal(a: Bytes, b: Bytes)
    ensures BytesLess(a, b) || a == b || BytesLess(b, a)
  {
    if a != [] && b != [] && a[0] == b[0] {
      BytesTotal(a[1..], b[1..]);
      assert a == [a[0]] + a[1..] && b == [b[0]] + b[1..];
    }
  }

  // The first difference decides.
  lemma {:induction false} FirstDifference(a: Bytes, b: Bytes, i: nat)
    requires i < |a| && i < |b| && a[..i] == b[..i] && a[i] < b[i]
    ensures BytesLess(a, b)
    decreases i
  {
    if i > 0 {
      assert a[0] == a[..i][0] == b[..i][0] == b[0];
      assert a[1..][..i - 1] == a[..i][1..] == b[..i][1..] == b[1..][..i - 1];
      FirstDifference(a[1..], b[1..], i - 1);
    }
  }

  lemma DifferOnce(a: Bytes, b: Bytes, n: nat)
    requires n <= |a| && n <= |b| && a[..n] == b[..n] && (n < |a| && n < |b| ==> a[n] != b[n])
    ensures forall i :: 0 <= i < |a| && i < |b| && a[..i] == b[..i] && a[i] != b[i] ==> i == n
  {
    SameBelow(a, b, n);
    forall i | 0 <= i < |a| && i < |b| && a[..i] == b[..i] && a[i] != b[i]
      ensures i == n
    {
      SameBelow(a, b, i);
    }
  }

  lemma SameBelow(a: Bytes, b: Bytes, n: nat)
    requires n <= |a| && n <= |b|
    ensures a[..n] == b[..n] ==> forall j :: 0 <= j < n ==> a[j] == b[j]
  {
    if a[..n] == b[..n] {
      forall j | 0 <= j < n
        ensures a[j] == b[j]
      {
        assert a[..n][j] == b[..n][j];
      }
    }
  }

  // At i, the first difference, there is room for a byte in between.
  predicate RoomAt(start: Bytes, limit: Bytes, i: nat) {
    i < |start| && i < |limit| && start[..i] == limit[..i] && start[i] as int + 1 < limit[i]
  }

  // A key strictly between, cut after the first difference, or the start itself.
  method FindShortestSeparator(start: Bytes, limit: Bytes) returns (r: Bytes)
    ensures r == start || (|r| <= |start| && BytesLess(start, r) && BytesLess(r, limit))
    ensures forall i: nat :: RoomAt(start, limit, i) ==> r == start[..i] + [start[i] + 1]
    ensures r != start ==> exists i: nat :: RoomAt(start, limit, i)
  {
    var minLength := if |start| < |limit| then |start| else |limit|;
    var diff := 0;
    while diff < minLength && start[diff] == limit[diff]
      invariant diff <= minLength && start[..diff] == limit[..diff]
    {
      assert start[..diff + 1] == start[..diff] + [start[diff]];
      assert limit[..diff + 1] == limit[..diff] + [limit[diff]];
      diff := diff + 1;
    }
    r := start;
    DifferOnce(start, limit, diff);
    assert forall i: nat :: RoomAt(start, limit, i) ==> i == diff;
    if diff < minLength && start[diff] < 255 && start[diff] + 1 < limit[diff] {
      r := start[..diff] + [start[diff] + 1];
      assert r[..diff] == start[..diff];
      FirstDifference(start, r, diff);
      FirstDifference(r, limit, diff);
      assert RoomAt(start, limit, diff);
    }
  }

  // A greater and no longer key, except after a run of 0xff bytes.
  method FindShortSuccessor(key: Bytes) returns (r: Bytes)
    ensures if forall i :: 0 <= i < |key| ==> key[i] == 255 then r == key else |r| <= |key| && BytesLess(key, r)
    ensures forall i :: 0 <= i < |key| && key[i] != 255 && (forall j :: 0 <= j < i ==> key[j] == 255) ==>
      r == key[..i] + [key[i] + 1]
  {
    for i := 0 to |key|
      invariant forall j :: 0 <= j < i ==> key[j] == 255
    {
      if key[i] != 255 {
        r := key[..i] + [key[i] + 1];
        assert r[..i] == key[..i];
        FirstDifference(key, r, i);
        return;
      }
    }
    r := key;
  }

  // ---- Internal keys: user key, then the packed trailer ----

  function User(k: Bytes): Bytes {
    if |k| < 8 then [] else k[..|k| - 8]
  }

  function Tag(k: Bytes): nat {
    if |k| < 8 then 0 else DecodeFixed(k[|k| - 8..])
  }

  predicate InternalLess(a: Bytes, b: Bytes) {
    BytesLess(User(a), User(b)) || (User(a) == User(b) && Tag(a) > Tag(b))
  }

  lemma InternalTransitive(a: Bytes, b: Bytes, c: Bytes)
    requires InternalLess(a, b) && InternalLess(b, c)
    ensures InternalLess(a, c)
  {
    if BytesLess(User(a), User(b)) && BytesLess(User(b), User(c)) {
      BytesTransitive(User(a), User(b), User(c));
    }
  }

  lemma InternalIrreflexive(a: Bytes)
    ensures !InternalLess(a, a)
  {
    BytesIrreflexive(User(a));
  }

  lemma InternalAsymmetric(a: Bytes, b: Bytes)
    ensures !(InternalLess(a, b) && InternalLess(b, a))
  {
    if InternalLess(a, b) && InternalLess(b, a) {
      InternalTransitive(a, b, a);
      InternalIrreflexive(a);
    }
  }

  lemma InternalTotal(a: Bytes, b: Bytes)
    requires |a| >= 8 && |b| >= 8
    ensures InternalLess(a, b) || a == b || InternalLess(b, a)
  {
    BytesTotal(User(a), User(b));
    if User(a) == User(b) && Tag(a) == Tag(b) {
      FixedOnto(a[|a| - 8..]);
      FixedOnto(b[|b| - 8..]);
      assert a == User(a) + a[|a| - 8..] && b == User(b) + b[|b| - 8..];
    }
  }

  const MAX_TAG: nat := 256 * MAX_SEQUENCE + 1

  lemma MadeKey(user: Bytes, tag: nat)
    ensures User(user + EncodeFixed(tag, 8)) == user && |user + EncodeFixed(tag, 8)| == |user| + 8
  {
  }

  // Where an index key stands: on the last key before it, or with a user key of its own that
  // comes strictly between the two user keys.
  ghost predicate Separates(before: Bytes, key: Bytes, after: Bytes) {
    key == before || (BytesLess(User(before), User(key)) && BytesLess(User(key), User(after)))
  }

  ghost predicate Succeeds(before: Bytes, key: Bytes) {
    key == before || BytesLess(User(before), User(key))
  }

  // The least internal key with a user key: the largest number, the type of a value.
  lemma MaxTag()
    ensures EncodeFixed(MAX_TAG, 8) == [1, 255, 255, 255, 255, 255, 255, 255]
  {
    assert EncodeFixed(0xff_ffff_ffff, 5) == [255] + EncodeFixed(0xffff_ffff, 4);
    assert EncodeFixed(0xffff_ffff_ffff, 6) == [255] + EncodeFixed(0xff_ffff_ffff, 5);
    assert EncodeFixed(0xff_ffff_ffff_ffff, 7) == [255] + EncodeFixed(0xffff_ffff_ffff, 6);
    assert EncodeFixed(MAX_TAG, 8) == [1] + EncodeFixed(0xff_ffff_ffff_ffff, 7);
  }

  method InternalSeparator(start: Bytes, limit: Bytes) returns (r: Bytes)
    requires |start| >= 8 && |limit| >= 8
    ensures Separates(start, r, limit) && 8 <= |r| <= |start|
    ensures forall i: nat :: RoomAt(User(start), User(limit), i) && i + 1 < |User(start)| ==>
      r == User(start)[..i] + [User(start)[i] + 1] + [1, 255, 255, 255, 255, 255, 255, 255]
    ensures r != start ==> exists i: nat :: RoomAt(User(start), User(limit), i) && i + 1 < |User(start)|
  {
    hide EncodeFixed;
    MaxTag();
    var user := User(start);
    var tmp := FindShortestSeparator(user, User(limit));
    r := start;
    if |tmp| < |user| && BytesLess(user, tmp) {
      MadeKey(tmp, MAX_TAG);
      r := tmp + EncodeFixed(MAX_TAG, 8);
      BytesIrreflexive(user);
    }
  }

  method InternalSuccessor(key: Bytes) returns (r: Bytes)
    requires |key| >= 8
    ensures Succeeds(key, r) && 8 <= |r| <= |key|
    ensures forall i ::
      0 <= i < |User(key)| - 1 && User(key)[i] != 255 && (forall j :: 0 <= j < i ==> User(key)[j] == 255) ==>
      r == User(key)[..i] + [User(key)[i] + 1] + [1, 255, 255, 255, 255, 255, 255, 255]
  {
    hide EncodeFixed;
    MaxTag();
    var user := User(key);
    var tmp := FindShortSuccessor(user);
    r := key;
    if |tmp| < |user| && BytesLess(user, tmp) {
      MadeKey(tmp, MAX_TAG);
      r := tmp + EncodeFixed(MAX_TAG, 8);
    }
  }

  // What the index relies on: the separator is not before the last key and before the next.
  lemma SeparatesOrder(before: Bytes, key: Bytes, after: Bytes)
    requires Separates(before, key, after) && InternalLess(before, after)
    ensures !InternalLess(key, before) && InternalLess(key, after)
  {
    if key == before {
      InternalIrreflexive(before);
    } else {
      InternalAsymmetric(before, key);
    }
  }

  // A target in the gap a shortened separator opens has no entry after the gap.
  lemma GapHasNoEntry(before: Bytes, key: Bytes, after: Bytes, target: Bytes)
    requires Separates(before, key, after) && InternalLess(before, target) && !InternalLess(key, target)
    ensures User(target) != User(after) && InternalLess(target, after)
  {
    BytesTotal(User(target), User(key));
    if BytesLess(User(target), User(key)) {
      BytesTransitive(User(target), User(key), User(after));
    }
    BytesIrreflexive(User(after));
  }
}
