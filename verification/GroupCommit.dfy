// The writer queue.

module GroupCommit {
  // One leader logs and applies the batches of a group of writers (db/db_impl.cc,
  // DBImpl::Write and BuildBatchGroup).

  import opened DbFormat
  import opened Coding
  import opened WriteBatch

  // A call of Write; None is the batch-less call that only waits for its turn.
  datatype Request = Request(id: nat, ops: Option<seq<Op>>, sync: bool)

  // A log record: its operations are numbered from base + 1.
  datatype Record = Record(base: nat, ops: seq<Op>)

  datatype Status = Succeeded | Failed

  // A completed call; a successful one with a batch has its operations in record `at` from `offset` on.
  datatype Completion = Completion(request: Request, status: Status, at: nat, offset: nat)

  // The leader's group while it logs and applies with the mutex released.
  datatype Group = Group(n: nat, record: Record)

  // log is every record that may be found on replay; applied those in the memtable; synced counts
  // the records known to be on disk.  enqueued is history.
  datatype Queue = Queue(waiting: seq<Request>, group: Option<Group>, lastSequence: nat, log: seq<Record>,
                         applied: seq<Record>, synced: nat, broken: bool, faults: nat,
                         enqueued: seq<Request>, completed: seq<Completion>)

  function OpsOf(r: Request): seq<Op> {
    if r.ops.Some? then r.ops.value else []
  }

  function AllOps(rs: seq<Request>): seq<Op> {
    if rs == [] then [] else AllOps(rs[..|rs| - 1]) + OpsOf(rs[|rs| - 1])
  }

  // ---- Which writers make a group ----

  function ByteSize(ops: seq<Op>): nat {
    |BatchBytes(0, ops)|
  }

  // The size a group may grow to, given its first batch's size.
  function MaxSize(size: nat): nat {
    if size <= 0x2_0000 then size + 0x2_0000 else 0x10_0000
  }

  // Bytes of the batches of the first n requests.
  function SizeOf(rs: seq<Request>): nat {
    if rs == [] then 0
    else SizeOf(rs[..|rs| - 1]) + if rs[|rs| - 1].ops.Some? then ByteSize(rs[|rs| - 1].ops.value) else 0
  }

  // Request k may not join a group led by the first request and holding all before k.
  ghost predicate Stops(rs: seq<Request>, k: nat)
    requires 0 < k < |rs| && rs[0].ops.Some?
  {
    (rs[k].sync && !rs[0].sync)
    || (rs[k].ops.Some? && SizeOf(rs[..k + 1]) > MaxSize(ByteSize(rs[0].ops.value)))
  }

  ghost predicate Joined(rs: seq<Request>, n: nat) {
    0 < n <= |rs| && rs[0].ops.Some? && forall k :: 0 < k < n ==> !Stops(rs, k)
  }

  // The longest group.
  ghost predicate GroupSize(rs: seq<Request>, n: nat) {
    Joined(rs, n) && (n < |rs| ==> Stops(rs, n))
  }

  // What the limits are: a request that wants a sync joins no leader that does not; the batches joined come to
  // at most 1 MB, or to at most 128 kB more than a leader's batch that is no larger than that; and whoever may
  // join does.
  lemma GroupLimits(rs: seq<Request>, n: nat)
    requires GroupSize(rs, n)
    ensures forall k :: 0 < k < n && rs[k].sync ==> rs[0].sync
    ensures forall k :: 0 < k < n && rs[k].ops.Some? ==>
      var lead := |BatchBytes(0, rs[0].ops.value)|;
      SizeOf(rs[..k + 1]) <= if lead <= 131072 then lead + 131072 else 1048576
    ensures n < |rs| ==>
      var lead := |BatchBytes(0, rs[0].ops.value)|;
      (rs[n].sync && !rs[0].sync)
      || (rs[n].ops.Some? && SizeOf(rs[..n + 1]) > if lead <= 131072 then lead + 131072 else 1048576)
  {
    hide BatchBytes, SizeOf;
    forall k | 0 < k < n
      ensures rs[k].sync ==> rs[0].sync
      ensures rs[k].ops.Some? ==> SizeOf(rs[..k + 1]) <= MaxSize(|BatchBytes(0, rs[0].ops.value)|)
    {
      assert !Stops(rs, k);
    }
  }

  // The size of a group is the bytes of its batches.
  lemma SizesAdd(rs: seq<Request>, r: Request)
    ensures SizeOf([]) == 0
    ensures SizeOf(rs + [r]) == SizeOf(rs) + if r.ops.Some? then |BatchBytes(0, r.ops.value)| else 0
  {
    hide BatchBytes;
    assert (rs + [r])[..|rs|] == rs;
  }

  // ---- Steps ----

  ghost predicate Enqueue(a: Queue, r: Request, b: Queue) {
    (forall i :: 0 <= i < |a.enqueued| ==> a.enqueued[i].id != r.id)
    && b == a.(waiting := a.waiting + [r], enqueued := a.enqueued + [r])
  }

  // The front writer's turn ends at once: no room (or an earlier sync error), or nothing to write.
  ghost predicate Alone(a: Queue, b: Queue) {
    a.group.None? && a.waiting != []
    && exists status: Status ::
      (a.broken || a.waiting[0].ops.Some? ==> status.Failed?)
      && b == a.(waiting := a.waiting[1..], completed := a.completed + [Completion(a.waiting[0], status, 0, 0)])
  }

  ghost predicate Lead(a: Queue, b: Queue) {
    a.group.None? && !a.broken && exists n: nat :: LeadsGroup(a, n, b)
  }

  ghost predicate LeadsGroup(a: Queue, n: nat, b: Queue) {
    GroupSize(a.waiting, n) && b == a.(group := Some(Group(n, Record(a.lastSequence, AllOps(a.waiting[..n])))))
  }

  function Completions(rs: seq<Request>, status: Status, at: nat): (cs: seq<Completion>)
    ensures |cs| == |rs| && forall i ::
      0 <= i < |rs| ==> cs[i].request == rs[i] && cs[i].status == status && cs[i].at == at
  {
    if rs == [] then []
    else
      var init := rs[..|rs| - 1];
      Completions(init, status, at) + [Completion(rs[|rs| - 1], status, at, |AllOps(init)|)]
  }

  // How logging and applying went.  A failed append may still leave the record in the file.
  datatype Outcome = Good | AppendFailed(inFile: bool) | SyncFailed

  ghost predicate Finish(a: Queue, outcome: Outcome, b: Queue) {
    a.group.Some? && 0 < a.group.value.n <= |a.waiting|
    && var g, sync := a.group.value, a.waiting[0].sync;
    (outcome.SyncFailed? ==> sync)
    && var logged := if outcome == AppendFailed(false) then a.log else a.log + [g.record];
    b == a.(waiting := a.waiting[g.n..], group := None, lastSequence := a.lastSequence + |g.record.ops|, log := logged,
            applied := if outcome.Good? then a.applied + [g.record] else a.applied,
            synced := if outcome.Good? && sync then |logged| else a.synced,
            broken := a.broken || outcome.SyncFailed?, faults := a.faults + if outcome.Good? then 0 else 1,
            completed := a.completed
              + Completions(a.waiting[..g.n], if outcome.Good? then Succeeded else Failed, |a.log|))
  }

  ghost predicate Step(a: Queue, b: Queue) {
    (exists r :: Enqueue(a, r, b)) || Alone(a, b) || Lead(a, b) || exists outcome :: Finish(a, outcome, b)
  }

  // ---- The invariant ----

  function Requests(cs: seq<Completion>): (rs: seq<Request>)
    ensures |rs| == |cs|
  {
    seq(|cs|, i requires 0 <= i < |cs| => cs[i].request)
  }

  // Everyone completes once, in the order of arrival.
  ghost predicate InTurn(q: Queue) {
    q.enqueued == Requests(q.completed) + q.waiting
    && forall i, j :: 0 <= i < j < |q.enqueued| ==> q.enqueued[i].id != q.enqueued[j].id
  }

  // Records take disjoint, increasing ranges of sequence numbers, none beyond the last.
  ghost predicate Numbered(log: seq<Record>, last: nat) {
    forall i :: 0 <= i < |log| ==>
      log[i].base + |log[i].ops| <= last && forall j :: i < j < |log| ==> log[i].base + |log[i].ops| <= log[j].base
  }

  // A successful call's operations are in its record, which is applied, and synced if it asked for that.
  ghost predicate Kept(q: Queue, c: Completion) {
    c.status.Succeeded? && c.request.ops.Some? ==>
      var ops := c.request.ops.value;
      c.at < |q.log| && c.offset + |ops| <= |q.log[c.at].ops| && q.log[c.at].ops[c.offset..c.offset + |ops|] == ops
      && q.log[c.at] in q.applied && (c.request.sync ==> c.at < q.synced)
  }

  ghost predicate GroupOk(q: Queue) {
    q.group.Some? ==>
      Joined(q.waiting, q.group.value.n)
      && q.group.value.record == Record(q.lastSequence, AllOps(q.waiting[..q.group.value.n]))
  }

  function LogOps(log: seq<Record>): seq<Op> {
    if log == [] then [] else LogOps(log[..|log| - 1]) + log[|log| - 1].ops
  }

  // What the successful calls wrote, in the order they completed.
  function Written(cs: seq<Completion>): seq<Op> {
    if cs == [] then []
    else Written(cs[..|cs| - 1]) + if cs[|cs| - 1].status.Succeeded? then OpsOf(cs[|cs| - 1].request) else []
  }

  // Without faults the log is exactly what is applied, holds what the successful calls wrote, in
  // order, and numbers it from 1 without a gap.
  ghost predicate Exact(q: Queue) {
    q.faults == 0 ==>
      q.log == q.applied && !q.broken && LogOps(q.log) == Written(q.completed) && q.lastSequence == |LogOps(q.log)|
      && forall i :: 0 <= i < |q.log| ==> q.log[i].base == |LogOps(q.log[..i])|
  }

  ghost predicate Wrote(c: Completion) {
    c.status.Succeeded? && c.request.ops.Some?
  }

  // Later calls have later numbers.
  ghost predicate Before(c: Completion, d: Completion) {
    Wrote(c) && Wrote(d) ==>
      c.at < d.at || (c.at == d.at && c.offset + |c.request.ops.value| <= d.offset)
  }

  ghost predicate InOrder(cs: seq<Completion>) {
    forall i, j :: 0 <= i < j < |cs| ==> Before(cs[i], cs[j])
  }

  ghost predicate Inv(q: Queue) {
    InTurn(q) && Numbered(q.log, q.lastSequence) && q.synced <= |q.log|
    && (forall i :: 0 <= i < |q.completed| ==> Kept(q, q.completed[i])) && InOrder(q.completed)
    && GroupOk(q) && Exact(q) && forall r :: r in q.applied ==> r in q.log
  }

  const INITIAL := Queue([], None, 0, [], [], 0, false, 0, [], [])

  // ---- Every step keeps the invariant ----

  lemma JoinedStill(rs: seq<Request>, r: Request, n: nat)
    requires Joined(rs, n)
    ensures Joined(rs + [r], n) && (rs + [r])[..n] == rs[..n]
  {
    forall k | 0 < k < n ensures !Stops(rs + [r], k) {
      assert (rs + [r])[..k + 1] == rs[..k + 1];
      assert !Stops(rs, k);
    }
  }

  lemma EnqueueKeeps(a: Queue, r: Request, b: Queue)
    requires Inv(a) && Enqueue(a, r, b)
    ensures Inv(b)
  {
    hide Numbered, InOrder, Exact, Stops;
    assert Requests(a.completed) + a.waiting + [r] == Requests(b.completed) + b.waiting;
    if a.group.Some? {
      JoinedStill(a.waiting, r, a.group.value.n);
    }
    assert Exact(b) by { SameExact(a, b); }
  }

  lemma SameExact(a: Queue, b: Queue)
    requires Exact(a) && b.faults == a.faults && b.log == a.log && b.applied == a.applied && b.broken == a.broken
    requires b.completed == a.completed && b.lastSequence == a.lastSequence
    ensures Exact(b)
  {
  }

  lemma AloneKeeps(a: Queue, b: Queue)
    requires Inv(a) && Alone(a, b)
    ensures Inv(b)
  {
    hide Numbered, GroupOk;
    var c := b.completed[|a.completed|];
    assert !Wrote(c);
    assert b.completed[..|b.completed| - 1] == a.completed;
    assert Requests(a.completed) + a.waiting == Requests(b.completed) + b.waiting;
    assert GroupOk(b) by { NoGroup(b); }
  }

  lemma NoGroup(q: Queue)
    requires q.group.None?
    ensures GroupOk(q)
  {
  }

  lemma LeadKeeps(a: Queue, b: Queue)
    requires Inv(a) && Lead(a, b)
    ensures Inv(b)
  {
    hide Numbered, InOrder, Exact;
    assert Exact(b) by { SameExact(a, b); }
  }

  // ---- Finishing a group ----

  // Each member's operations are a slice of the group's.
  lemma {:induction false} Slices(rs: seq<Request>, status: Status, at: nat, i: nat)
    requires i < |rs|
    ensures var c := Completions(rs, status, at)[i];
      c.offset + |OpsOf(rs[i])| <= |AllOps(rs)| && AllOps(rs)[c.offset..c.offset + |OpsOf(rs[i])|] == OpsOf(rs[i])
    decreases |rs|
  {
    var n := |rs| - 1;
    hide OpsOf;
    if i < n {
      Slices(rs[..n], status, at, i);
      var c := Completions(rs[..n], status, at)[i];
      assert Completions(rs, status, at)[i] == c;
      assert AllOps(rs)[c.offset..c.offset + |OpsOf(rs[i])|] == AllOps(rs[..n])[c.offset..c.offset + |OpsOf(rs[i])|];
    }
  }

  lemma {:induction false} SlicesInOrder(rs: seq<Request>, status: Status, at: nat, i: nat, j: nat)
    requires i < j < |rs|
    ensures var cs := Completions(rs, status, at); cs[i].offset + |OpsOf(rs[i])| <= cs[j].offset
    decreases |rs|
  {
    hide OpsOf, AllOps, Completions;
    CompletionsStep(rs, status, at);
    if j < |rs| - 1 {
      SlicesInOrder(rs[..|rs| - 1], status, at, i, j);
    } else {
      Slices(rs[..|rs| - 1], status, at, i);
    }
  }

  lemma CompletionsStep(rs: seq<Request>, status: Status, at: nat)
    requires rs != []
    ensures var init := rs[..|rs| - 1];
      Completions(rs, status, at) ==
        Completions(init, status, at) + [Completion(rs[|rs| - 1], status, at, |AllOps(init)|)]
  {
  }

  lemma WrittenOne(cs: seq<Completion>, c: Completion)
    ensures Written(cs + [c]) == Written(cs) + if c.status.Succeeded? then OpsOf(c.request) else []
  {
    assert (cs + [c])[..|cs|] == cs;
  }

  lemma {:induction false} WrittenAll(cs: seq<Completion>, rs: seq<Request>, at: nat)
    ensures Written(cs + Completions(rs, Succeeded, at)) == Written(cs) + AllOps(rs)
    decreases |rs|
  {
    hide Written, OpsOf;
    if rs == [] {
      assert cs + [] == cs;
    } else {
      var init, last := rs[..|rs| - 1], Completion(rs[|rs| - 1], Succeeded, at, |AllOps(rs[..|rs| - 1])|);
      var all := cs + Completions(rs, Succeeded, at);
      assert all == (cs + Completions(init, Succeeded, at)) + [last];
      WrittenAll(cs, init, at);
      WrittenOne(cs + Completions(init, Succeeded, at), last);
      assert (Written(cs) + AllOps(init)) + OpsOf(last.request) == Written(cs) + (AllOps(init) + OpsOf(last.request));
    }
  }

  lemma FinishTurn(a: Queue, outcome: Outcome, b: Queue)
    requires InTurn(a) && Finish(a, outcome, b)
    ensures InTurn(b)
  {
    assert Requests(a.completed) + a.waiting == Requests(b.completed) + b.waiting;
  }

  lemma FinishNumbered(a: Queue, outcome: Outcome, b: Queue)
    requires Numbered(a.log, a.lastSequence) && GroupOk(a) && Finish(a, outcome, b)
    ensures Numbered(b.log, b.lastSequence)
  {
  }

  // No member of a synced group is left unsynced, and no sync request follows an unsynced leader.
  lemma FinishKept(a: Queue, outcome: Outcome, b: Queue, i: nat)
    requires (forall k :: 0 <= k < |a.completed| ==> Kept(a, a.completed[k])) && a.synced <= |a.log|
    requires GroupOk(a) && Finish(a, outcome, b) && i < |b.completed|
    ensures Kept(b, b.completed[i])
  {
    hide Completions, AllOps, Stops, SizeOf;
    if i < |a.completed| {
      assert Kept(a, a.completed[i]);
      StillKept(a, b, a.completed[i]);
    } else if outcome.Good? {
      NewKept(a, b, i - |a.completed|);
    }
  }

  lemma StillKept(a: Queue, b: Queue, c: Completion)
    requires Kept(a, c) && a.log <= b.log && a.applied <= b.applied && a.synced <= b.synced
    ensures Kept(b, c)
  {
    assert forall r :: r in a.applied ==> r in b.applied;
  }

  lemma NewKept(a: Queue, b: Queue, k: nat)
    requires GroupOk(a) && Finish(a, Good, b) && k < a.group.value.n
    ensures Kept(b, Completions(a.waiting[..a.group.value.n], Succeeded, |a.log|)[k])
  {
    hide Completions, AllOps, SizeOf;
    var g := a.group.value;
    Slices(a.waiting[..g.n], Succeeded, |a.log|, k);
    assert k > 0 ==> !Stops(a.waiting, k);
    assert b.applied[|a.applied|] == g.record;
  }

  lemma FinishInOrder(a: Queue, outcome: Outcome, b: Queue)
    requires InOrder(a.completed) && (forall k :: 0 <= k < |a.completed| ==> Kept(a, a.completed[k]))
    requires Finish(a, outcome, b)
    ensures InOrder(b.completed)
  {
    var rs := a.waiting[..a.group.value.n];
    var status := if outcome.Good? then Succeeded else Failed;
    forall i, j | 0 <= i < j < |b.completed| ensures Before(b.completed[i], b.completed[j]) {
      if i >= |a.completed| {
        SlicesInOrder(rs, status, |a.log|, i - |a.completed|, j - |a.completed|);
      } else {
        assert Kept(a, a.completed[i]);
        assert j < |a.completed| ==> Before(a.completed[i], a.completed[j]);
      }
    }
  }

  lemma FinishExact(a: Queue, outcome: Outcome, b: Queue)
    requires Exact(a) && GroupOk(a) && Finish(a, outcome, b)
    ensures Exact(b)
  {
    if b.faults == 0 {
      var g := a.group.value;
      WrittenAll(a.completed, a.waiting[..g.n], |a.log|);
      assert b.log[..|a.log|] == a.log;
      forall i | 0 <= i < |b.log| ensures b.log[i].base == |LogOps(b.log[..i])| {
        assert i < |a.log| ==> b.log[..i] == a.log[..i];
      }
    }
  }

  lemma FinishKeeps(a: Queue, outcome: Outcome, b: Queue)
    requires Inv(a) && Finish(a, outcome, b)
    ensures Inv(b)
  {
    hide InTurn, Numbered, Kept, InOrder, GroupOk, Exact;
    FinishTurn(a, outcome, b);
    FinishNumbered(a, outcome, b);
    forall i | 0 <= i < |b.completed| ensures Kept(b, b.completed[i]) {
      FinishKept(a, outcome, b, i);
    }
    FinishInOrder(a, outcome, b);
    FinishExact(a, outcome, b);
    NoGroup(b);
  }

  lemma StepKeeps(a: Queue, b: Queue)
    requires Inv(a) && Step(a, b)
    ensures Inv(b)
  {
    hide Inv, Enqueue, Alone, Lead, Finish;
    if r :| Enqueue(a, r, b) {
      EnqueueKeeps(a, r, b);
    } else if Alone(a, b) {
      AloneKeeps(a, b);
    } else if Lead(a, b) {
      LeadKeeps(a, b);
    } else {
      var outcome :| Finish(a, outcome, b);
      FinishKeeps(a, outcome, b);
    }
  }

  // ---- Whole runs ----

  ghost predicate Run(trace: seq<Queue>) {
    trace != [] && trace[0] == INITIAL && forall i :: 0 <= i < |trace| - 1 ==> Step(trace[i], trace[i + 1])
  }

  lemma {:induction false} RunKeeps(trace: seq<Queue>, i: nat)
    requires Run(trace) && i < |trace|
    ensures Inv(trace[i])
  {
    hide Step;
    if i == 0 {
      assert Requests([]) + [] == [];
    } else {
      RunKeeps(trace, i - 1);
      assert Step(trace[i - 1], trace[i]);
      StepKeeps(trace[i - 1], trace[i]);
    }
  }

  // The first sequence number of a successful call's operations.
  function FirstNumber(q: Queue, c: Completion): nat
    requires c.at < |q.log|
  {
    q.log[c.at].base + c.offset + 1
  }

  // Every call that arrived has completed exactly once or still waits, all in order of arrival.
  lemma CompletesOnce(trace: seq<Queue>, t: nat)
    requires Run(trace) && t < |trace|
    ensures var q := trace[t];
      q.enqueued == Requests(q.completed) + q.waiting
      && forall i, j :: 0 <= i < j < |q.enqueued| ==> q.enqueued[i].id != q.enqueued[j].id
  {
    hide Exact, GroupOk, InOrder, Numbered;
    RunKeeps(trace, t);
  }

  // Calls complete in order of arrival; the successful ones have disjoint ranges of
  // sequence numbers in that order; and what was to be synced is.
  lemma CommitsInOrder(trace: seq<Queue>, t: nat, i: nat, j: nat)
    requires Run(trace) && t < |trace| && i < j < |trace[t].completed|
    requires Wrote(trace[t].completed[i]) && Wrote(trace[t].completed[j])
    ensures var q := trace[t];
      var c, d := q.completed[i], q.completed[j];
      j < |q.enqueued| && c.request == q.enqueued[i] && d.request == q.enqueued[j] && c.request.id != d.request.id
      && c.at < |q.log| && d.at < |q.log| && FirstNumber(q, c) + |c.request.ops.value| <= FirstNumber(q, d)
      && (c.request.sync ==> c.at < q.synced)
  {
    hide Exact, GroupOk;
    RunKeeps(trace, t);
    var q := trace[t];
    assert Kept(q, q.completed[i]) && Kept(q, q.completed[j]) && Before(q.completed[i], q.completed[j]);
  }

  // Without I/O faults, replaying the log gives exactly the operations of the successful calls, in
  // order of arrival, numbered from 1 without a gap.
  lemma ReplayIsCommits(trace: seq<Queue>, t: nat)
    requires Run(trace) && t < |trace| && trace[t].faults == 0
    ensures var q := trace[t];
      q.applied == q.log && LogOps(q.log) == Written(q.completed) && q.lastSequence == |LogOps(q.log)|
      && forall i :: 0 <= i < |q.log| ==> q.log[i].base == |LogOps(q.log[..i])|
  {
    RunKeeps(trace, t);
  }

  // ---- BuildBatchGroup over batch objects ----

  datatype Writer = Writer(batch: Batch?, sync: bool)

  // The writer object of a request.
  ghost predicate Asks(w: Writer, r: Request)
    reads if w.batch != null then {w.batch} else {}
  {
    w.sync == r.sync && (w.batch == null <==> r.ops.None?)
    && (w.batch != null ==> w.batch.Ok() && w.batch.ops == r.ops.value)
  }

  lemma SizeOfBatch(b: Batch)
    requires b.Ok()
    ensures |b.rep| == ByteSize(b.ops)
  {
  }

  lemma GroupNext(rs: seq<Request>, k: nat)
    requires k < |rs|
    ensures SizeOf(rs[..k + 1]) == SizeOf(rs[..k]) + if rs[k].ops.Some? then ByteSize(rs[k].ops.value) else 0
    ensures AllOps(rs[..k + 1]) == AllOps(rs[..k]) + OpsOf(rs[k])
  {
    assert rs[..k + 1][..k] == rs[..k];
  }

  lemma GroupOfOne(rs: seq<Request>)
    requires rs != [] && rs[0].ops.Some?
    ensures Joined(rs, 1) && SizeOf(rs[..1]) == ByteSize(rs[0].ops.value) && AllOps(rs[..1]) == rs[0].ops.value
  {
    assert rs[..1] == [rs[0]] && [rs[0]][..0] == [];
  }

  lemma JoinMore(rs: seq<Request>, n: nat)
    requires Joined(rs, n) && n < |rs|
    ensures Stops(rs, n) ==
      ((rs[n].sync && !rs[0].sync)
       || (rs[n].ops.Some? && SizeOf(rs[..n + 1]) > MaxSize(ByteSize(rs[0].ops.value))))
    ensures !Stops(rs, n) ==> Joined(rs, n + 1)
  {
  }

  lemma {:induction false} OpsShrink(rs: seq<Request>, k: nat)
    requires k <= |rs|
    ensures |AllOps(rs[..k])| <= |AllOps(rs)|
  {
    if k == |rs| {
      assert rs[..k] == rs;
    } else {
      assert rs[..|rs| - 1][..k] == rs[..k];
      OpsShrink(rs[..|rs| - 1], k);
    }
  }

  // Joins the waiting batches behind the first while they may join; the callers' batches are only read.
  method BuildBatchGroup(writers: seq<Writer>, tmp: Batch, ghost rs: seq<Request>) returns (result: Batch, n: nat)
    requires |writers| == |rs| > 0 && writers[0].batch != null && tmp.Ok() && tmp.ops == []
    requires forall i :: 0 <= i < |rs| ==> Asks(writers[i], rs[i]) && writers[i].batch != tmp
    requires |AllOps(rs)| < 0x8000_0000
    modifies tmp
    ensures GroupSize(rs, n) && result.Ok() && result.ops == AllOps(rs[..n])
    ensures result == tmp || result == writers[0].batch
  {
    hide ByteSize, BatchBytes, AllFit, Joined, Stops, AllOps, SizeOf;
    var first := writers[0].batch;
    result := first;
    SizeOfBatch(first);
    var size := |first.rep|;
    var maxSize := if size <= 0x2_0000 then size + 0x2_0000 else 0x10_0000;
    GroupOfOne(rs);
    n := 1;
    while n < |writers|
      invariant 1 <= n <= |writers| && Joined(rs, n) && size == SizeOf(rs[..n])
      invariant maxSize == MaxSize(ByteSize(rs[0].ops.value))
      invariant result.Ok() && result.ops == AllOps(rs[..n])
        && (result == tmp || (result == first && tmp.ops == [] && tmp.Ok()))
      invariant forall i :: 0 <= i < |rs| ==> Asks(writers[i], rs[i])
    {
      var w := writers[n];
      GroupNext(rs, n);
      JoinMore(rs, n);
      if w.sync && !writers[0].sync {
        break;
      }
      if w.batch != null {
        SizeOfBatch(w.batch);
        size := size + |w.batch.rep|;
        if size > maxSize {
          break;
        }
        OpsShrink(rs, n + 1);
        if result == first {
          tmp.Append(first);
          assert [] + first.ops == first.ops;
          result := tmp;
        }
        result.Append(w.batch);
      } else {
        assert AllOps(rs[..n]) + [] == AllOps(rs[..n]);
      }
      n := n + 1;
    }
  }

  // The loop at the end of Write: the group's writers leave the queue, each told the outcome.
  method PopGroup(waiting: seq<Request>, n: nat, status: Status, at: nat)
    returns (rest: seq<Request>, told: seq<Completion>)
    requires 0 < n <= |waiting|
    ensures rest == waiting[n..] && told == Completions(waiting[..n], status, at)
  {
    rest, told := waiting, [];
    var offset, popped := 0, 0;
    assert Completions(waiting[..0], status, at) == [];
    while popped < n
      invariant 0 <= popped <= n && rest == waiting[popped..]
      invariant told == Completions(waiting[..popped], status, at) && offset == |AllOps(waiting[..popped])|
    {
      var ready := rest[0];
      rest := rest[1..];
      assert waiting[..popped + 1][..popped] == waiting[..popped];
      told := told + [Completion(ready, status, at, offset)];
      offset, popped := offset + |OpsOf(ready)|, popped + 1;
    }
  }
}
