// Version edits as bytes.

module VersionEdits {
  // What an edit's bytes are, and the manifest as a log of edits (db/version_edit.cc,
  // VersionSet::Recover in db/version_set.cc).

  import opened DbFormat
  import opened Coding
  import LogFormat
  import LogCrash
  import LogFile
  import LogLayout
  import LogReplay

  const LEVELS: nat := 7

  datatype NewFile = NewFile(level: nat, number: nat, size: nat, smallest: Bytes, largest: Bytes)

  // deleted is an ordered set of (level, number).
  datatype Edit = Edit(comparator: Option<Bytes>, logNumber: Option<nat>, prevLogNumber: Option<nat>,
                       nextFile: Option<nat>, lastSequence: Option<nat>, pointers: seq<(nat, Bytes)>,
                       deleted: seq<(nat, nat)>, added: seq<NewFile>)

  const CLEARED: Edit := Edit(None, None, None, None, None, [], [], [])

  // ---- Items ----

  datatype Item =
    | Comparator(name: Bytes)
    | LogNumber(n: nat)
    | PrevLogNumber(n: nat)
    | NextFileNumber(n: nat)
    | LastSequence(n: nat)
    | CompactPointer(level: nat, key: Bytes)
    | DeletedFile(level: nat, number: nat)
    | AddedFile(file: NewFile)

  function TagOf(it: Item): (r: nat)
    ensures 0 < r < 10
  {
    match it
    case Comparator(_) => 1
    case LogNumber(_) => 2
    case NextFileNumber(_) => 3
    case LastSequence(_) => 4
    case CompactPointer(_, _) => 5
    case DeletedFile(_, _) => 6
    case AddedFile(_) => 7
    case PrevLogNumber(_) => 9
  }

  function BodyOf(it: Item): Bytes {
    match it
    case Comparator(name) => Prefixed(name)
    case LogNumber(n) => Varint(n)
    case PrevLogNumber(n) => Varint(n)
    case NextFileNumber(n) => Varint(n)
    case LastSequence(n) => Varint(n)
    case CompactPointer(level, key) => Varint(level) + Prefixed(key)
    case DeletedFile(level, number) => Varint(level) + Varint(number)
    case AddedFile(f) =>
      Varint(f.level) + Varint(f.number) + Varint(f.size) + Prefixed(f.smallest) + Prefixed(f.largest)
  }

  function ItemBytes(it: Item): Bytes {
    Varint(TagOf(it)) + BodyOf(it)
  }

  predicate ItemOk(it: Item) {
    match it
    case Comparator(name) => |name| < TWO32
    case CompactPointer(level, key) => level < LEVELS && |key| < TWO32
    case DeletedFile(level, number) => level < LEVELS && number < TWO64
    case AddedFile(f) =>
      f.level < LEVELS && f.number < TWO64 && f.size < TWO64 && |f.smallest| < TWO32 && |f.largest| < TWO32
    case _ => it.n < TWO64
  }

  function GetLevel(bs: Bytes): (r: Option<Parsed<nat>>)
    ensures r.Some? ==> |r.value.rest| < |bs|
  {
    var v := GetVarint32(bs);
    if v.None? || v.value.value >= LEVELS then None else v
  }

  function GetFile(bs: Bytes): (r: Option<Parsed<Item>>)
    ensures r.Some? ==> |r.value.rest| < |bs|
  {
    var level := GetLevel(bs);
    if level.None? then None
    else
      var number := GetVarint64(level.value.rest);
      if number.None? then None
      else
        var size := GetVarint64(number.value.rest);
        if size.None? then None
        else
          var smallest := GetPrefixed(size.value.rest);
          if smallest.None? then None
          else
            var largest := GetPrefixed(smallest.value.rest);
            if largest.None? then None
            else
              Some(Parsed(AddedFile(NewFile(level.value.value, number.value.value, size.value.value,
                smallest.value.value,
                                            largest.value.value)), largest.value.rest))
  }

  // What follows a tag, on any bytes; an unknown tag is an error.
  function GetBody(tag: nat, bs: Bytes): (r: Option<Parsed<Item>>)
    ensures r.Some? ==> |r.value.rest| < |bs|
  {
    if tag == 1 then
      var name := GetPrefixed(bs);
      if name.None? then None else Some(Parsed(Comparator(name.value.value), name.value.rest))
    else if tag == 2 || tag == 3 || tag == 4 || tag == 9 then
      var n := GetVarint64(bs);
      if n.None? then None
      else
        var v := n.value.value;
        Some(Parsed(if tag == 2 then LogNumber(v) else if tag == 3 then NextFileNumber(v)
                    else if tag == 4 then LastSequence(v) else PrevLogNumber(v), n.value.rest))
    else if tag == 5 || tag == 6 then
      var level := GetLevel(bs);
      if level.None? then None
      else if tag == 5 then
        var key := GetPrefixed(level.value.rest);
        if key.None? then None else Some(Parsed(CompactPointer(level.value.value, key.value.value), key.value.rest))
      else
        var number := GetVarint64(level.value.rest);
        if number.None? then None
        else Some(Parsed(DeletedFile(level.value.value, number.value.value), number.value.rest))
    else if tag == 7 then GetFile(bs)
    else None
  }

  lemma FileReads(f: NewFile, rest: Bytes)
    requires ItemOk(AddedFile(f))
    ensures GetFile(BodyOf(AddedFile(f)) + rest) == Some(Parsed(AddedFile(f), rest))
  {
    hide Varint, Prefixed, GetVarint32, GetVarint64, GetPrefixed;
    var d := Prefixed(f.largest) + rest;
    var c := Prefixed(f.smallest) + d;
    var b := Varint(f.size) + c;
    var a := Varint(f.number) + b;
    assert BodyOf(AddedFile(f)) + rest == Varint(f.level) + a;
    Varint32RoundTrip(f.level, a);
    Varint64RoundTrip(f.number, b);
    Varint64RoundTrip(f.size, c);
    PrefixedRoundTrip(f.smallest, d);
    PrefixedRoundTrip(f.largest, rest);
  }

  lemma BodyReads(it: Item, rest: Bytes)
    requires ItemOk(it)
    ensures GetBody(TagOf(it), BodyOf(it) + rest) == Some(Parsed(it, rest))
  {
    hide Varint, Prefixed, GetVarint32, GetVarint64, GetPrefixed, GetFile;
    match it
    case Comparator(name) => PrefixedRoundTrip(name, rest);
    case LogNumber(n) => Varint64RoundTrip(n, rest);
    case PrevLogNumber(n) => Varint64RoundTrip(n, rest);
    case NextFileNumber(n) => Varint64RoundTrip(n, rest);
    case LastSequence(n) => Varint64RoundTrip(n, rest);
    case CompactPointer(level, key) =>
      assert BodyOf(it) + rest == Varint(level) + (Prefixed(key) + rest);
      Varint32RoundTrip(level, Prefixed(key) + rest);
      PrefixedRoundTrip(key, rest);
    case DeletedFile(level, number) =>
      assert BodyOf(it) + rest == Varint(level) + (Varint(number) + rest);
      Varint32RoundTrip(level, Varint(number) + rest);
      Varint64RoundTrip(number, rest);
    case AddedFile(f) => FileReads(f, rest);
  }

  // ---- Edits ----

  predicate Before(a: (nat, nat), b: (nat, nat)) {
    a.0 < b.0 || (a.0 == b.0 && a.1 < b.1)
  }

  // std::set::insert.
  function Inserted(s: seq<(nat, nat)>, x: (nat, nat)): seq<(nat, nat)> {
    if s == [] then [x]
    else if s[0] == x then s
    else if Before(x, s[0]) then [x] + s
    else [s[0]] + Inserted(s[1..], x)
  }

  // What reading an item does to the edit.
  function With(e: Edit, it: Item): Edit {
    match it
    case Comparator(name) => e.(comparator := Some(name))
    case LogNumber(n) => e.(logNumber := Some(n))
    case PrevLogNumber(n) => e.(prevLogNumber := Some(n))
    case NextFileNumber(n) => e.(nextFile := Some(n))
    case LastSequence(n) => e.(lastSequence := Some(n))
    case CompactPointer(level, key) => e.(pointers := e.pointers + [(level, key)])
    case DeletedFile(level, number) => e.(deleted := Inserted(e.deleted, (level, number)))
    case AddedFile(f) => e.(added := e.added + [f])
  }

  function WithAll(e: Edit, items: seq<Item>): Edit
    decreases |items|
  {
    if items == [] then e else WithAll(With(e, items[0]), items[1..])
  }

  // DecodeFrom on any bytes, on top of what the edit holds.
  function Decode(bs: Bytes, e: Edit): Option<Edit>
    decreases |bs|
  {
    var tag := GetVarint32(bs);
    if tag.None? then if bs == [] then Some(e) else None
    else
      var it := GetBody(tag.value.value, tag.value.rest);
      if it.None? then None else Decode(it.value.rest, With(e, it.value.value))
  }

  function PointerItems(ps: seq<(nat, Bytes)>): seq<Item> {
    seq(|ps|, i requires 0 <= i < |ps| => CompactPointer(ps[i].0, ps[i].1))
  }

  function DeletedItems(ds: seq<(nat, nat)>): seq<Item> {
    seq(|ds|, i requires 0 <= i < |ds| => DeletedFile(ds[i].0, ds[i].1))
  }

  function AddedItems(fs: seq<NewFile>): seq<Item> {
    seq(|fs|, i requires 0 <= i < |fs| => AddedFile(fs[i]))
  }

  function HeadItems(e: Edit): seq<Item> {
    (if e.comparator.Some? then [Comparator(e.comparator.value)] else [])
    + (if e.logNumber.Some? then [LogNumber(e.logNumber.value)] else [])
    + (if e.prevLogNumber.Some? then [PrevLogNumber(e.prevLogNumber.value)] else [])
    + (if e.nextFile.Some? then [NextFileNumber(e.nextFile.value)] else [])
    + (if e.lastSequence.Some? then [LastSequence(e.lastSequence.value)] else [])
  }

  // In the order EncodeTo writes them.
  function Items(e: Edit): seq<Item> {
    HeadItems(e) + PointerItems(e.pointers) + DeletedItems(e.deleted) + AddedItems(e.added)
  }

  function AllBytes(items: seq<Item>): Bytes {
    if items == [] then [] else AllBytes(items[..|items| - 1]) + ItemBytes(items[|items| - 1])
  }

  function EditBytes(e: Edit): Bytes {
    AllBytes(Items(e))
  }

  // Fields in range, and the deleted files in the order of the set.
  ghost predicate EditOk(e: Edit) {
    (forall it :: it in Items(e) ==> ItemOk(it))
    && forall i, j :: 0 <= i < j < |e.deleted| ==> Before(e.deleted[i], e.deleted[j])
  }

  lemma {:induction false} AllBytesFirst(items: seq<Item>)
    requires items != []
    ensures AllBytes(items) == ItemBytes(items[0]) + AllBytes(items[1..])
  {
    hide ItemBytes;
    var init, last := items[..|items| - 1], ItemBytes(items[|items| - 1]);
    if |items| == 1 {
      assert AllBytes(init) == [] && AllBytes(items[1..]) == [];
    } else {
      AllBytesFirst(init);
      var first, middle := ItemBytes(items[0]), AllBytes(init[1..]);
      assert init[0] == items[0] && init[1..] == items[1..][..|items| - 2];
      assert AllBytes(items[1..]) == middle + last;
      assert (first + middle) + last == first + (middle + last);
    }
  }

  lemma DecodeOne(it: Item, rest: Bytes, e: Edit)
    requires ItemOk(it)
    ensures Decode(ItemBytes(it) + rest, e) == Decode(rest, With(e, it))
  {
    hide ItemOk, With, GetVarint32, GetBody, Varint, TagOf, BodyOf;
    assert ItemBytes(it) + rest == Varint(TagOf(it)) + (BodyOf(it) + rest);
    Varint32RoundTrip(TagOf(it), BodyOf(it) + rest);
    BodyReads(it, rest);
  }

  lemma {:induction false} DecodeItems(items: seq<Item>, e: Edit)
    requires forall it :: it in items ==> ItemOk(it)
    ensures Decode(AllBytes(items), e) == Some(WithAll(e, items))
    decreases |items|
  {
    hide ItemOk, With, ItemBytes, Decode;
    if items == [] {
      NoTag(e);
    } else {
      AllBytesFirst(items);
      DecodeOne(items[0], AllBytes(items[1..]), e);
      DecodeItems(items[1..], With(e, items[0]));
    }
  }

  lemma NoTag(e: Edit)
    ensures Decode([], e) == Some(e)
  {
  }

  lemma {:induction false} WithParts(e: Edit, a: seq<Item>, b: seq<Item>)
    ensures WithAll(e, a + b) == WithAll(WithAll(e, a), b)
    decreases |a|
  {
    hide With;
    if a == [] {
      assert a + b == b;
    } else {
      assert (a + b)[0] == a[0] && (a + b)[1..] == a[1..] + b;
      WithParts(With(e, a[0]), a[1..], b);
    }
  }

  lemma {:induction false} InsertLast(s: seq<(nat, nat)>, x: (nat, nat))
    requires forall i :: 0 <= i < |s| ==> Before(s[i], x)
    ensures Inserted(s, x) == s + [x]
  {
    if s != [] {
      assert Before(s[0], x);
      InsertLast(s[1..], x);
      assert s == [s[0]] + s[1..];
    }
  }

  lemma {:induction false} WithPointers(e: Edit, ps: seq<(nat, Bytes)>)
    ensures WithAll(e, PointerItems(ps)) == e.(pointers := e.pointers + ps)
    decreases |ps|
  {
    if ps != [] {
      assert PointerItems(ps)[1..] == PointerItems(ps[1..]);
      WithPointers(With(e, PointerItems(ps)[0]), ps[1..]);
      assert e.pointers + [ps[0]] + ps[1..] == e.pointers + ps;
    } else {
      assert e.pointers + ps == e.pointers;
    }
  }

  lemma {:induction false} WithDeleted(e: Edit, ds: seq<(nat, nat)>)
    requires forall i, j :: 0 <= i < j < |ds| ==> Before(ds[i], ds[j])
    requires forall i, j :: 0 <= i < |e.deleted| && 0 <= j < |ds| ==> Before(e.deleted[i], ds[j])
    ensures WithAll(e, DeletedItems(ds)) == e.(deleted := e.deleted + ds)
    decreases |ds|
  {
    if ds != [] {
      InsertLast(e.deleted, ds[0]);
      assert DeletedItems(ds)[1..] == DeletedItems(ds[1..]);
      WithDeleted(With(e, DeletedItems(ds)[0]), ds[1..]);
      assert e.deleted + [ds[0]] + ds[1..] == e.deleted + ds;
    } else {
      assert e.deleted + ds == e.deleted;
    }
  }

  lemma {:induction false} WithAdded(e: Edit, fs: seq<NewFile>)
    ensures WithAll(e, AddedItems(fs)) == e.(added := e.added + fs)
    decreases |fs|
  {
    if fs != [] {
      assert AddedItems(fs)[1..] == AddedItems(fs[1..]);
      WithAdded(With(e, AddedItems(fs)[0]), fs[1..]);
      assert e.added + [fs[0]] + fs[1..] == e.added + fs;
    } else {
      assert e.added + fs == e.added;
    }
  }

  lemma WithHead(e: Edit, base: Edit)
    requires base.comparator.None? && base.logNumber.None? && base.prevLogNumber.None? && base.nextFile.None?
      && base.lastSequence.None?
    ensures WithAll(base, HeadItems(e))
            == base.(comparator := e.comparator, logNumber := e.logNumber, prevLogNumber := e.prevLogNumber,
                     nextFile := e.nextFile, lastSequence := e.lastSequence)
  {
    var a := if e.comparator.Some? then [Comparator(e.comparator.value)] else [];
    var b := if e.logNumber.Some? then [LogNumber(e.logNumber.value)] else [];
    var c := if e.prevLogNumber.Some? then [PrevLogNumber(e.prevLogNumber.value)] else [];
    var d := if e.nextFile.Some? then [NextFileNumber(e.nextFile.value)] else [];
    var f := if e.lastSequence.Some? then [LastSequence(e.lastSequence.value)] else [];
    WithParts(base, a + b + c + d, f);
    WithParts(base, a + b + c, d);
    WithParts(base, a + b, c);
    WithParts(base, a, b);
  }

  // Decoding an encoded edit gives it back; compact pointers are appended to those the object
  // already had, which Clear does not remove.
  lemma EditRoundTrip(e: Edit, was: seq<(nat, Bytes)>)
    requires EditOk(e)
    ensures Decode(EditBytes(e), CLEARED.(pointers := was)) == Some(e.(pointers := was + e.pointers))
  {
    hide ItemOk, With, Decode, HeadItems, PointerItems, DeletedItems, AddedItems;
    var base := CLEARED.(pointers := was);
    var head, ps, ds := HeadItems(e), PointerItems(e.pointers), DeletedItems(e.deleted);
    DecodeItems(Items(e), base);
    WithParts(base, head + ps + ds, AddedItems(e.added));
    WithParts(base, head + ps, ds);
    WithParts(base, head, ps);
    WithHead(e, base);
    WithPointers(WithAll(base, head), e.pointers);
    WithDeleted(WithAll(base, head + ps), e.deleted);
    WithAdded(WithAll(base, head + ps + ds), e.added);
    assert [] + e.deleted == e.deleted && [] + e.added == e.added;
  }

  // ---- Reading and writing step by step ----

  method ParseLevel(input: Bytes) returns (r: Option<Parsed<nat>>)
    ensures r == GetLevel(input)
  {
    r := ParseVarint32(input);
    if r.Some? && r.value.value >= LEVELS {
      r := None;
    }
  }

  method ParseFile(input: Bytes) returns (r: Option<Parsed<Item>>)
    ensures r == GetFile(input)
  {
    hide GetVarint32, GetVarint64, GetPrefixed, GetLevel;
    var level := ParseLevel(input);
    if level.None? { return None; }
    var number := ParseVarint64(level.value.rest);
    if number.None? { return None; }
    var size := ParseVarint64(number.value.rest);
    if size.None? { return None; }
    var smallest := GetLengthPrefixedSlice(size.value.rest);
    if smallest.None? { return None; }
    var largest := GetLengthPrefixedSlice(smallest.value.rest);
    if largest.None? { return None; }
    var f := NewFile(level.value.value, number.value.value, size.value.value, smallest.value.value,
      largest.value.value);
    r := Some(Parsed(AddedFile(f), largest.value.rest));
  }

  // One case of DecodeFrom's switch.
  method ParseBody(tag: nat, input: Bytes) returns (r: Option<Parsed<Item>>)
    ensures r == GetBody(tag, input)
  {
    hide GetVarint32, GetVarint64, GetPrefixed, GetLevel, GetFile;
    r := None;
    if tag == 1 {
      var name := GetLengthPrefixedSlice(input);
      if name.Some? { r := Some(Parsed(Comparator(name.value.value), name.value.rest)); }
    } else if tag == 2 || tag == 3 || tag == 4 || tag == 9 {
      var n := ParseVarint64(input);
      if n.Some? {
        var v := n.value.value;
        var it := if tag == 2 then LogNumber(v) else if tag == 3 then NextFileNumber(v)
                  else if tag == 4 then LastSequence(v) else PrevLogNumber(v);
        r := Some(Parsed(it, n.value.rest));
      }
    } else if tag == 5 || tag == 6 {
      var level := ParseLevel(input);
      if level.Some? && tag == 5 {
        var key := GetLengthPrefixedSlice(level.value.rest);
        if key.Some? { r := Some(Parsed(CompactPointer(level.value.value, key.value.value), key.value.rest)); }
      } else if level.Some? {
        var number := ParseVarint64(level.value.rest);
        if number.Some? { r := Some(Parsed(DeletedFile(level.value.value, number.value.value), number.value.rest)); }
      }
    } else if tag == 7 {
      r := ParseFile(input);
    }
  }

  lemma InsertedAfter(s: seq<(nat, nat)>, x: (nat, nat), i: nat)
    requires i < |s| && s[i] != x && !Before(x, s[i])
    ensures s[..i] + Inserted(s[i..], x) == s[..i + 1] + Inserted(s[i + 1..], x)
  {
    assert s[i..][1..] == s[i + 1..] && s[..i + 1] == s[..i] + [s[i]];
  }

  lemma InsertedHere(s: seq<(nat, nat)>, x: (nat, nat), i: nat)
    requires i <= |s| && (i < |s| ==> s[i] == x || Before(x, s[i]))
    ensures s[..i] + Inserted(s[i..], x) == if i < |s| && s[i] == x then s else s[..i] + [x] + s[i..]
  {
    assert s == s[..i] + s[i..];
    assert s[..i] + ([x] + s[i..]) == s[..i] + [x] + s[i..];
  }

  method InsertDeleted(s: seq<(nat, nat)>, x: (nat, nat)) returns (r: seq<(nat, nat)>)
    ensures r == Inserted(s, x)
  {
    hide Inserted, Before;
    var i := 0;
    assert s[..0] + Inserted(s[0..], x) == Inserted(s, x) by {
      assert s[0..] == s;
    }
    while i < |s| && s[i] != x && !Before(x, s[i])
      invariant i <= |s| && Inserted(s, x) == s[..i] + Inserted(s[i..], x)
    {
      InsertedAfter(s, x, i);
      i := i + 1;
    }
    InsertedHere(s, x, i);
    if i < |s| && s[i] == x {
      r := s;
    } else {
      r := s[..i] + [x] + s[i..];
    }
  }

  method PutFile(dst: Bytes, f: NewFile) returns (r: Bytes)
    requires ItemOk(AddedFile(f))
    ensures r == dst + BodyOf(AddedFile(f))
  {
    hide Varint, Prefixed;
    var level := EncodeVarint32(f.level);
    var number := EncodeVarint64(f.number);
    var size := EncodeVarint64(f.size);
    r := PutLengthPrefixedSlice(level + number + size, f.smallest);
    r := PutLengthPrefixedSlice(r, f.largest);
    r := dst + r;
  }

  method PutBody(dst: Bytes, it: Item) returns (r: Bytes)
    requires ItemOk(it)
    ensures r == dst + BodyOf(it)
  {
    hide Varint, Prefixed;
    var a, b;
    match it
    case Comparator(name) => r := PutLengthPrefixedSlice(dst, name);
    case CompactPointer(level, key) =>
      a := EncodeVarint32(level);
      r := PutLengthPrefixedSlice(dst + a, key);
    case DeletedFile(level, number) =>
      a := EncodeVarint32(level);
      b := EncodeVarint64(number);
      r := dst + a + b;
    case AddedFile(f) => r := PutFile(dst, f);
    case _ =>
      a := EncodeVarint64(it.n);
      r := dst + a;
  }

  // A tag and what follows it.
  method PutItem(dst: Bytes, it: Item, ghost base: Bytes, ghost done: seq<Item>) returns (r: Bytes)
    requires ItemOk(it) && dst == base + AllBytes(done)
    ensures r == base + AllBytes(done + [it])
  {
    hide BodyOf, ItemOk, Varint;
    var tag := EncodeVarint32(TagOf(it));
    r := PutBody(dst + tag, it);
    assert (done + [it])[..|done|] == done;
  }

  method PutItems(dst: Bytes, items: seq<Item>, ghost base: Bytes, ghost done: seq<Item>) returns (r: Bytes)
    requires (forall it :: it in items ==> ItemOk(it)) && dst == base + AllBytes(done)
    ensures r == base + AllBytes(done + items)
  {
    hide ItemOk, AllBytes;
    r := dst;
    assert done + items[..0] == done;
    for i := 0 to |items|
      invariant r == base + AllBytes(done + items[..i])
    {
      r := PutItem(r, items[i], base, done + items[..i]);
      assert done + items[..i + 1] == done + items[..i] + [items[i]];
    }
    assert items[..|items|] == items;
  }

  class VersionEdit {
    var comparator: Option<Bytes>
    var logNumber: Option<nat>
    var prevLogNumber: Option<nat>
    var nextFile: Option<nat>
    var lastSequence: Option<nat>
    var pointers: seq<(nat, Bytes)>
    var deleted: seq<(nat, nat)>
    var added: seq<NewFile>

    function View(): Edit
      reads this
    {
      Edit(comparator, logNumber, prevLogNumber, nextFile, lastSequence, pointers, deleted, added)
    }

    constructor ()
      ensures View() == CLEARED
    {
      comparator, logNumber, prevLogNumber, nextFile, lastSequence := None, None, None, None, None;
      pointers, deleted, added := [], [], [];
    }

    // An edit with the given fields.
    constructor Of(e: Edit)
      ensures View() == e
    {
      comparator, logNumber, prevLogNumber, nextFile, lastSequence :=
        e.comparator, e.logNumber, e.prevLogNumber, e.nextFile, e.lastSequence;
      pointers, deleted, added := e.pointers, e.deleted, e.added;
    }

    method Clear()
      modifies this
      ensures View() == CLEARED.(pointers := old(pointers))
    {
      comparator, logNumber, prevLogNumber, nextFile, lastSequence := None, None, None, None, None;
      deleted, added := [], [];
    }

    // One item into its field.
    method Take(it: Item)
      modifies this
      ensures View() == With(old(View()), it)
    {
      match it
      case Comparator(name) => comparator := Some(name);
      case LogNumber(n) => logNumber := Some(n);
      case PrevLogNumber(n) => prevLogNumber := Some(n);
      case NextFileNumber(n) => nextFile := Some(n);
      case LastSequence(n) => lastSequence := Some(n);
      case CompactPointer(level, key) => pointers := pointers + [(level, key)];
      case DeletedFile(level, number) => deleted := InsertDeleted(deleted, (level, number));
      case AddedFile(f) => added := added + [f];
    }

    // The result says whether the bytes were well formed.
    method DecodeFrom(src: Bytes) returns (ok: bool)
      modifies this
      ensures var r := Decode(src, CLEARED.(pointers := old(pointers))); (ok <==> r.Some?) && (ok ==> View() == r.value)
    {
      hide GetVarint32, GetBody, With;
      Clear();
      var input := src;
      ghost var start := View();
      while true
        invariant Decode(src, start) == Decode(input, View())
        decreases |input|
      {
        var tag := ParseVarint32(input);
        if tag.None? {
          return input == [];
        }
        var it := ParseBody(tag.value.value, tag.value.rest);
        if it.None? {
          return false;
        }
        Take(it.value.value);
        input := it.value.rest;
      }
    }

    // Field by field, then list by list.
    method EncodeTo(dst: Bytes) returns (r: Bytes)
      requires EditOk(View())
      ensures r == dst + EditBytes(View())
    {
      hide ItemOk, AllBytes, HeadItems, PointerItems, DeletedItems, AddedItems;
      ghost var all := Items(View());
      ghost var head := HeadItems(View());
      assert forall it :: it in PointerItems(pointers) ==> it in all;
      assert forall it :: it in DeletedItems(deleted) ==> it in all;
      assert forall it :: it in AddedItems(added) ==> it in all;
      r := EncodeHead(dst);
      r := PutItems(r, PointerItems(pointers), dst, head);
      r := PutItems(r, DeletedItems(deleted), dst, head + PointerItems(pointers));
      r := PutItems(r, AddedItems(added), dst, head + PointerItems(pointers) + DeletedItems(deleted));
    }

    method EncodeHead(dst: Bytes) returns (r: Bytes)
      requires forall it :: it in HeadItems(View()) ==> ItemOk(it)
      ensures r == dst + AllBytes(HeadItems(View()))
    {
      hide ItemOk, AllBytes;
      var a := if comparator.Some? then [Comparator(comparator.value)] else [];
      var b := if logNumber.Some? then [LogNumber(logNumber.value)] else [];
      var c := if prevLogNumber.Some? then [PrevLogNumber(prevLogNumber.value)] else [];
      var d := if nextFile.Some? then [NextFileNumber(nextFile.value)] else [];
      var f := if lastSequence.Some? then [LastSequence(lastSequence.value)] else [];
      assert HeadItems(View()) == a + b + c + d + f;
      assert dst == dst + AllBytes([]) by { NoBytes(dst); }
      r := PutItems(dst, a, dst, []);
      assert [] + a == a;
      r := PutItems(r, b, dst, a);
      r := PutItems(r, c, dst, a + b);
      r := PutItems(r, d, dst, a + b + c);
      r := PutItems(r, f, dst, a + b + c + d);
    }
  }

  lemma NoBytes(dst: Bytes)
    ensures dst == dst + AllBytes([])
  {
  }

  // ---- The manifest ----

  function EditRecords(edits: seq<Edit>): (r: seq<Bytes>)
    ensures |r| == |edits|
  {
    seq(|edits|, i requires 0 <= i < |edits| => EditBytes(edits[i]))
  }

  // Every record as a fresh edit; None when one is malformed.
  function DecodeAll(records: seq<Bytes>): Option<seq<Edit>> {
    if records == [] then Some([])
    else
      var init, last := DecodeAll(records[..|records| - 1]), Decode(records[|records| - 1], CLEARED);
      if init.None? || last.None? then None else Some(init.value + [last.value])
  }

  lemma {:induction false} RecordsDecode(edits: seq<Edit>)
    requires forall i :: 0 <= i < |edits| ==> EditOk(edits[i])
    ensures DecodeAll(EditRecords(edits)) == Some(edits)
  {
    hide EditOk, Decode, EditBytes;
    if edits != [] {
      var n := |edits| - 1;
      assert EditRecords(edits)[..n] == EditRecords(edits[..n]);
      RecordsDecode(edits[..n]);
      EditRoundTrip(edits[n], []);
      Same(edits[n]);
      assert edits == edits[..n] + [edits[n]];
    }
  }

  lemma Same(e: Edit)
    ensures CLEARED.(pointers := []) == CLEARED && e.(pointers := [] + e.pointers) == e
  {
  }

  // LogAndApply's part in the manifest: one record for each edit.
  method WriteManifest(edits: seq<Edit>) returns (contents: Bytes)
    requires forall i :: 0 <= i < |edits| ==> EditOk(edits[i])
    ensures contents == LogFormat.Records(EditRecords(edits), 0)
  {
    hide LogLayout.Laid, LogFormat.Encode, EditBytes, EditOk;
    var writer := new LogFile.Writer([]);
    assert EditRecords(edits[..0]) == [];
    for i := 0 to |edits|
      invariant writer.Ok() && fresh(writer) && writer.dest == LogFormat.Records(EditRecords(edits[..i]), 0)
    {
      var edit := new VersionEdit.Of(edits[i]);
      var record := edit.EncodeTo([]);
      assert [] + EditBytes(edits[i]) == EditBytes(edits[i]);
      writer.AddRecord(record);
      assert EditRecords(edits[..i + 1]) == EditRecords(edits[..i]) + [EditBytes(edits[i])];
      LogFormat.RecordsAppend(EditRecords(edits[..i]), EditBytes(edits[i]), 0);
    }
    assert edits[..|edits|] == edits;
    contents := writer.dest;
  }

  // VersionSet::Recover's loop over the records.
  method ReadManifest(contents: Bytes) returns (edits: Option<seq<Edit>>, drops: seq<LogFormat.Drop>)
    ensures edits == DecodeAll(LogFormat.ReadAll(contents, 0).0) && drops == LogFormat.ReadAll(contents, 0).1
  {
    hide LogFormat.ReadAll, Decode;
    var records;
    records, drops := LogReplay.ReadLog(contents);
    edits := Some([]);
    for i := 0 to |records|
      invariant edits == DecodeAll(records[..i])
    {
      assert records[..i + 1][..i] == records[..i];
      if edits.Some? {
        var edit := new VersionEdit();
        var ok := edit.DecodeFrom(records[i]);
        assert CLEARED.(pointers := []) == CLEARED;
        edits := if ok then Some(edits.value + [edit.View()]) else None;
      }
    }
    assert records[..|records|] == records;
  }

  // A manifest cut at any byte gives back exactly the edits whose records are whole.
  method CrashAndReadManifest(edits: seq<Edit>, n: nat) returns (back: Option<seq<Edit>>, drops: seq<LogFormat.Drop>)
    requires forall i :: 0 <= i < |edits| ==> EditOk(edits[i])
    requires n <= |LogFormat.Records(EditRecords(edits), 0)|
    ensures back == Some(edits[..LogCrash.Whole(EditRecords(edits), 0, n)]) && drops == []
  {
    hide LogFormat.Records, LogFormat.ReadAll, EditOk, EditRecords, LogCrash.Whole, DecodeAll;
    var contents := WriteManifest(edits);
    back, drops := ReadManifest(contents[..n]);
    assert contents[..n][0..] == contents[..n];
    LogCrash.CrashSafe(EditRecords(edits), contents[..n], 0);
    var w := LogCrash.Whole(EditRecords(edits), 0, n);
    RecordsPrefix(edits, w);
    RecordsDecode(edits[..w]);
  }

  lemma RecordsPrefix(edits: seq<Edit>, w: nat)
    requires w <= |edits|
    ensures EditRecords(edits)[..w] == EditRecords(edits[..w])
  {
  }
}
