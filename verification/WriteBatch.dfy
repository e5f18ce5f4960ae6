// Write batches as bytes (db/write_batch.cc).

module WriteBatch {
  import opened DbFormat
  import opened Coding

  datatype Op = PutOp(key: Bytes, value: Bytes) | DeleteOp(key: Bytes)

  datatype Outcome = Done | TooSmall | BadPut | BadDelete | UnknownTag | WrongCount

  const HEADER: nat := 12

  const TYPE_DELETION: byte := 0

  const TYPE_VALUE: byte := 1

  // ---- What the bytes mean ----

  // Operation sizes fit their length prefix.
  predicate Fits(op: Op) {
    |op.key| < TWO32 && (op.PutOp? ==> |op.value| < TWO32)
  }

  function OpBytes(op: Op): (r: Bytes)
    ensures r != []
  {
    match op
    case PutOp(key, value) => [TYPE_VALUE] + Prefixed(key) + Prefixed(value)
    case DeleteOp(key) => [TYPE_DELETION] + Prefixed(key)
  }

  function OpsBytes(ops: seq<Op>): Bytes {
    if ops == [] then [] else OpsBytes(ops[..|ops| - 1]) + OpBytes(ops[|ops| - 1])
  }

  // The representation of a batch.
  function BatchBytes(sn: nat, ops: seq<Op>): Bytes {
    EncodeFixed(sn, 8) + EncodeFixed(|ops|, 4) + OpsBytes(ops)
  }

  predicate AllFit(ops: seq<Op>) {
    forall i :: 0 <= i < |ops| ==> Fits(ops[i])
  }

  // ---- Reading any bytes ----

  // One operation off the front.
  function GetOp(bs: Bytes): (r: (Outcome, Option<Parsed<Op>>))
    requires bs != []
    ensures r.0.Done? <==> r.1.Some?
    ensures r.1.Some? ==> |r.1.value.rest| < |bs|
  {
    var key := GetPrefixed(bs[1..]);
    if bs[0] == TYPE_VALUE then
      if key.None? then (BadPut, None)
      else
        var value := GetPrefixed(key.value.rest);
        if value.None? then (BadPut, None)
        else (Done, Some(Parsed(PutOp(key.value.value, value.value.value), value.value.rest)))
    else if bs[0] == TYPE_DELETION then
      if key.None? then (BadDelete, None) else (Done, Some(Parsed(DeleteOp(key.value.value), key.value.rest)))
    else (UnknownTag, None)
  }

  // The operations handed over before the bytes ran out or went bad, and how it ended.
  function GetOps(bs: Bytes): (r: (seq<Op>, Outcome))
    decreases |bs|
  {
    if bs == [] then ([], Done)
    else
      var one := GetOp(bs);
      if one.1.None? then ([], one.0)
      else
        var tail := GetOps(one.1.value.rest);
        ([one.1.value.value] + tail.0, tail.1)
  }

  // The count field as the source's int.
  function CountOf(rep: Bytes): int
    requires |rep| >= HEADER
  {
    var c := DecodeFixed(rep[8..12]);
    if c < 0x8000_0000 then c else c - TWO32
  }

  function SequenceOf(rep: Bytes): nat
    requires |rep| >= HEADER
  {
    DecodeFixed(rep[..8])
  }

  function Parse(rep: Bytes): (seq<Op>, Outcome) {
    if |rep| < HEADER then ([], TooSmall)
    else
      var r := GetOps(rep[HEADER..]);
      if r.1.Done? && |r.0| != CountOf(rep) then (r.0, WrongCount) else r
  }

  lemma OpRoundTrip(op: Op, rest: Bytes)
    requires Fits(op)
    ensures GetOp(OpBytes(op) + rest) == (Done, Some(Parsed(op, rest)))
  {
    hide Prefixed, GetPrefixed;
    var bs := OpBytes(op) + rest;
    match op {
      case PutOp(key, value) =>
        assert bs[1..] == Prefixed(key) + (Prefixed(value) + rest);
        PrefixedRoundTrip(key, Prefixed(value) + rest);
        PrefixedRoundTrip(value, rest);
      case DeleteOp(key) =>
        assert bs[1..] == Prefixed(key) + rest;
        PrefixedRoundTrip(key, rest);
    }
  }

  // Reading continues where an encoded list of operations ends.
  lemma {:induction false} OpsRoundTrip(ops: seq<Op>, rest: Bytes)
    requires AllFit(ops)
    ensures GetOps(OpsBytes(ops) + rest) == (ops + GetOps(rest).0, GetOps(rest).1)
    decreases |ops|
  {
    hide OpBytes, GetOp;
    if ops == [] {
      assert OpsBytes(ops) + rest == rest;
      assert ops + GetOps(rest).0 == GetOps(rest).0;
    } else {
      var init, last := ops[..|ops| - 1], ops[|ops| - 1];
      assert OpsBytes(ops) + rest == OpsBytes(init) + (OpBytes(last) + rest);
      OpsRoundTrip(init, OpBytes(last) + rest);
      OpRoundTrip(last, rest);
      assert init + ([last] + GetOps(rest).0) == ops + GetOps(rest).0;
    }
  }

  lemma BatchRoundTrip(sn: nat, ops: seq<Op>)
    requires AllFit(ops) && sn < 0x1_0000_0000_0000_0000 && |ops| < 0x8000_0000
    ensures |BatchBytes(sn, ops)| >= HEADER && SequenceOf(BatchBytes(sn, ops)) == sn
    ensures CountOf(BatchBytes(sn, ops)) == |ops| && Parse(BatchBytes(sn, ops)) == (ops, Done)
  {
    hide OpsBytes, GetOps, EncodeFixed, DecodeFixed, Span;
    Spans();
    var rep := BatchBytes(sn, ops);
    FixedRoundTrip(sn, 8);
    FixedRoundTrip(|ops|, 4);
    assert rep[..8] == EncodeFixed(sn, 8) && rep[8..12] == EncodeFixed(|ops|, 4);
    assert rep[12..] == OpsBytes(ops) + [];
    OpsRoundTrip(ops, []);
    EndOfOps();
    assert ops + [] == ops;
  }

  lemma EndOfOps()
    ensures GetOps([]) == ([], Done)
  {
  }

  lemma Spans()
    ensures Span(8) == 0x1_0000_0000_0000_0000 && Span(4) == TWO32
  {
    assert Span(2) == 256 * 256;
    assert Span(4) == 256 * (256 * Span(2));
    assert Span(6) == 256 * (256 * Span(4));
  }

  lemma OpsConcat(a: seq<Op>, b: seq<Op>)
    ensures OpsBytes(a + b) == OpsBytes(a) + OpsBytes(b)
    decreases |b|
  {
    hide OpBytes;
    if b == [] {
      assert a + b == a;
    } else {
      assert (a + b)[..|a + b| - 1] == a + b[..|b| - 1];
      OpsConcat(a, b[..|b| - 1]);
    }
  }

  // ---- The batch object ----

  class Batch {
    var rep: Bytes
    ghost var sn: nat
    ghost var ops: seq<Op>

    ghost predicate Ok()
      reads this
    {
      rep == BatchBytes(sn, ops) && AllFit(ops) && |ops| < 0x8000_0000 && sn < 0x1_0000_0000_0000_0000
    }

    constructor ()
      ensures Ok() && ops == [] && sn == 0
    {
      rep := EncodeFixed(0, 12);
      sn, ops := 0, [];
      new;
      Blank();
    }

    lemma Blank()
      ensures EncodeFixed(0, 12) == BatchBytes(0, [])
    {
      assert EncodeFixed(0, 10) == [0, 0, 0, 0, 0, 0, 0, 0, 0, 0] by {
        assert EncodeFixed(0, 2) == [0, 0];
        assert EncodeFixed(0, 4) == [0, 0, 0, 0];
        assert EncodeFixed(0, 6) == [0, 0, 0, 0, 0, 0];
        assert EncodeFixed(0, 8) == [0, 0, 0, 0, 0, 0, 0, 0];
      }
    }

    // SetCount over the count of a good batch.
    method SetCount(n: nat)
      requires |rep| >= HEADER && n < TWO32
      modifies this`rep
      ensures rep == old(rep)[..8] + EncodeFixed(n, 4) + old(rep)[12..]
    {
      rep := rep[..8] + EncodeFixed(n, 4) + rep[12..];
    }

    method SetSequence(s: nat)
      requires Ok() && s < 0x1_0000_0000_0000_0000
      modifies this`rep, this`sn
      ensures Ok() && sn == s
    {
      hide EncodeFixed, OpsBytes;
      rep := EncodeFixed(s, 8) + rep[8..];
      sn := s;
    }

    method Put(key: Bytes, value: Bytes)
      requires Ok() && |ops| < 0x7fff_ffff && |key| < TWO32 && |value| < TWO32
      modifies this`rep, this`ops
      ensures Ok() && ops == old(ops) + [PutOp(key, value)]
    {
      hide EncodeFixed, Prefixed, OpsBytes, BatchBytes;
      BatchRoundTrip(sn, ops);
      AppendedOne(sn, ops, PutOp(key, value));
      SetCount(CountOf(rep) + 1);
      ghost var base := rep;
      rep := rep + [TYPE_VALUE];
      rep := PutLengthPrefixedSlice(rep, key);
      rep := PutLengthPrefixedSlice(rep, value);
      assert rep == base + OpBytes(PutOp(key, value));
      ops := ops + [PutOp(key, value)];
    }

    method Delete(key: Bytes)
      requires Ok() && |ops| < 0x7fff_ffff && |key| < TWO32
      modifies this`rep, this`ops
      ensures Ok() && ops == old(ops) + [DeleteOp(key)]
    {
      hide EncodeFixed, Prefixed, OpsBytes, BatchBytes;
      BatchRoundTrip(sn, ops);
      AppendedOne(sn, ops, DeleteOp(key));
      SetCount(CountOf(rep) + 1);
      ghost var base := rep;
      rep := rep + [TYPE_DELETION];
      rep := PutLengthPrefixedSlice(rep, key);
      assert rep == base + OpBytes(DeleteOp(key));
      ops := ops + [DeleteOp(key)];
    }

    // WriteBatchInternal::Append, as used to build a group's batch.
    method Append(src: Batch)
      requires Ok() && src.Ok() && |ops| + |src.ops| < 0x8000_0000
      modifies this`rep, this`ops
      ensures Ok() && ops == old(ops + src.ops)
    {
      hide EncodeFixed, OpsBytes;
      ghost var added := src.ops;
      BatchRoundTrip(sn, ops);
      BatchRoundTrip(src.sn, src.ops);
      var tail := src.rep[HEADER..];
      SetCount(CountOf(rep) + CountOf(src.rep));
      rep := rep + tail;
      ops := ops + added;
      Appended(sn, old(ops), added);
    }

    lemma AppendedOne(s: nat, a: seq<Op>, op: Op)
      ensures |BatchBytes(s, a)| >= 12
      ensures BatchBytes(s, a + [op])
           == BatchBytes(s, a)[..8] + EncodeFixed(|a| + 1, 4) + BatchBytes(s, a)[12..] + OpBytes(op)
    {
      hide EncodeFixed, OpBytes;
      Appended(s, a, [op]);
      assert [op][..0] == [];
      assert OpsBytes([op]) == OpBytes(op);
    }

    lemma Appended(s: nat, a: seq<Op>, b: seq<Op>)
      ensures BatchBytes(s, a + b)
           == BatchBytes(s, a)[..8] + EncodeFixed(|a + b|, 4) + BatchBytes(s, a)[12..] + OpsBytes(b)
    {
      hide EncodeFixed, OpsBytes;
      OpsConcat(a, b);
    }
  }

  // Iterate, handing each operation to the handler in turn.
  method Iterate(rep: Bytes) returns (ops: seq<Op>, end: Outcome)
    ensures (ops, end) == Parse(rep)
  {
    hide GetOps, GetOp;
    if |rep| < HEADER {
      return [], TooSmall;
    }
    var input := rep[HEADER..];
    ops := [];
    assert ops + GetOps(input).0 == GetOps(input).0;
    while input != []
      invariant GetOps(rep[HEADER..]) == (ops + GetOps(input).0, GetOps(input).1)
      decreases |input|
    {
      OneMore(input);
      var op, status, rest := ReadOp(input);
      if status != Done {
        assert ops + [] == ops;
        return ops, status;
      }
      assert (ops + [op]) + GetOps(rest).0 == ops + ([op] + GetOps(rest).0);
      ops, input := ops + [op], rest;
    }
    EndOfOps();
    assert ops + [] == ops;
    end := if |ops| != CountOf(rep) then WrongCount else Done;
  }

  lemma OneMore(bs: Bytes)
    requires bs != []
    ensures var one := GetOp(bs);
      if one.1.None? then GetOps(bs) == ([], one.0)
      else GetOps(bs) == ([one.1.value.value] + GetOps(one.1.value.rest).0, GetOps(one.1.value.rest).1)
  {
  }

  // One turn of Iterate's loop.
  method ReadOp(input: Bytes) returns (op: Op, status: Outcome, rest: Bytes)
    requires input != []
    ensures status == GetOp(input).0 && (status.Done? ==> GetOp(input).1 == Some(Parsed(op, rest)) && |rest| < |input|)
  {
    hide GetPrefixed;
    op, rest := DeleteOp([]), input;
    var key := GetLengthPrefixedSlice(input[1..]);
    if input[0] == TYPE_VALUE {
      if key.None? {
        return op, BadPut, rest;
      }
      var value := GetLengthPrefixedSlice(key.value.rest);
      if value.None? {
        return op, BadPut, rest;
      }
      return PutOp(key.value.value, value.value.value), Done, value.value.rest;
    } else if input[0] == TYPE_DELETION {
      if key.None? {
        return op, BadDelete, rest;
      }
      return DeleteOp(key.value.value), Done, key.value.rest;
    }
    status := UnknownTag;
  }
}
