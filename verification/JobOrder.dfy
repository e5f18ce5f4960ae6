// First come, first served.

module JobOrder {
  // In what order jobs of the worker pool start and report back, over histories of submissions and starts
  // (libuv src/threadpool.c, QUEUE_INSERT_TAIL and QUEUE_HEAD).

  import opened Threadpool

  ghost predicate Before<T>(s: seq<T>, x: T, y: T) {
    forall p, q :: 0 <= p < |s| && 0 <= q < |s| && s[p] == x && s[q] == y ==> p < q
  }

  lemma BeforeRemove<T>(s: seq<T>, i: nat, x: T, y: T)
    requires Before(s, x, y) && i < |s|
    ensures Before(s[..i] + s[i + 1..], x, y)
    ensures forall z :: z in s[..i] + s[i + 1..] ==> z in s
  {
    var r := s[..i] + s[i + 1..];
    forall p, q | 0 <= p < |r| && 0 <= q < |r| && r[p] == x && r[q] == y ensures p < q {
      assert s[if p < i then p else p + 1] == x && s[if q < i then q else q + 1] == y;
    }
  }

  // ---- Jobs waiting for a worker ----

  // A submitted job never changes queues.
  ghost predicate StaysKind(p: Pool, j: Job, kind: Kind) {
    j in p.submitted && if kind.Fast? then j !in p.slowPending else Work(j) !in p.wq
  }

  // Of two jobs still waiting in the same queue, j is ahead of k.
  ghost predicate Ahead(p: Pool, j: Job, k: Job, kind: Kind) {
    j != k && StaysKind(p, j, kind) && StaysKind(p, k, kind)
    && if kind.Fast? then Before(p.wq, Work(j), Work(k)) else Before(p.slowPending, j, k)
  }

  // What one step may do to the two queues.
  ghost predicate Shifts(a: Pool, b: Pool) {
    (b.wq == a.wq
     || (a.wq != [] && (b.wq == a.wq[1..] || b.wq == a.wq[1..] + [SlowMessage]))
     || b.wq == a.wq + [SlowMessage]
     || (exists j :: j !in a.submitted && b.wq == a.wq + [Work(j)])
     || (exists k :: 0 <= k < |a.wq| && b.wq == a.wq[..k] + a.wq[k + 1..]))
    && (b.slowPending == a.slowPending
        || (exists j :: j !in a.submitted && b.slowPending == a.slowPending + [j])
        || (exists k :: 0 <= k < |a.slowPending| && b.slowPending == a.slowPending[..k] + a.slowPending[k + 1..]))
    && a.submitted <= b.submitted
  }

  lemma StepShifts(a: Pool, b: Pool)
    requires Step(a, b)
    ensures Shifts(a, b)
  {
    hide Signals;
    if j, kind :| Submit(a, j, kind, b) {
      assert b.wq == a.wq || b.wq == a.wq + [SlowMessage] || b.wq == a.wq + [Work(j)];
    } else if i: nat :| WorkerStep(a, i, b) {
      if a.wq != [] {
        assert a.wq[..0] + a.wq[1..] == a.wq[1..];
      }
      if a.slowPending != [] {
        assert a.slowPending[..0] + a.slowPending[1..] == a.slowPending[1..];
      }
      WorkerShifts(a, i, b);
    }
  }

  lemma WorkerShifts(a: Pool, i: nat, b: Pool)
    requires WorkerStep(a, i, b)
    ensures Shifts(a, b)
  {
    hide Signals;
    if TakeSlow(a, i, b) {
      var ws :| TakesSlow(a, i, ws, b);
      assert a.slowPending[..0] + a.slowPending[1..] == a.slowPending[1..];
    }
  }

  lemma ShiftStays(a: Pool, b: Pool, j: Job, kind: Kind)
    requires Shifts(a, b) && StaysKind(a, j, kind)
    ensures StaysKind(b, j, kind)
  {
  }

  lemma ShiftAhead(a: Pool, b: Pool, j: Job, k: Job, kind: Kind)
    requires Shifts(a, b) && Ahead(a, j, k, kind)
    ensures Ahead(b, j, k, kind)
  {
    ShiftStays(a, b, j, kind);
    ShiftStays(a, b, k, kind);
    if kind.Fast? {
      FastAhead(a, b, j, k);
    } else {
      SlowAhead(a, b, j, k);
    }
  }

  lemma FastAhead(a: Pool, b: Pool, j: Job, k: Job)
    requires Shifts(a, b) && Ahead(a, j, k, Fast)
    ensures Before(b.wq, Work(j), Work(k))
  {
    if a.wq != [] {
      BeforeRemove(a.wq, 0, Work(j), Work(k));
      assert a.wq[..0] + a.wq[1..] == a.wq[1..];
    }
    if i: nat :| i < |a.wq| && b.wq == a.wq[..i] + a.wq[i + 1..] {
      BeforeRemove(a.wq, i, Work(j), Work(k));
    }
  }

  lemma SlowAhead(a: Pool, b: Pool, j: Job, k: Job)
    requires Shifts(a, b) && Ahead(a, j, k, SlowIo)
    ensures Before(b.slowPending, j, k)
  {
    if i: nat :| i < |a.slowPending| && b.slowPending == a.slowPending[..i] + a.slowPending[i + 1..] {
      BeforeRemove(a.slowPending, i, j, k);
    }
  }

  // A job that has just been posted is behind all that wait in its queue.
  lemma JoinsBehind(a: Pool, j: Job, k: Job, kind: Kind, b: Pool)
    requires Inv(a) && Submit(a, k, kind, b) && StaysKind(a, j, kind)
    ensures Ahead(b, j, k, kind)
  {
    hide Sum, Signals;
    NowhereYet(a, k);
  }

  lemma NowhereYet(p: Pool, k: Job)
    requires Inv(p) && k !in p.submitted
    ensures Work(k) !in p.wq && k !in p.slowPending
  {
    hide Sum;
    assert Places(p, k) == 0;
    SumZero(p.wq, Asks(k));
    SumZero(p.slowPending, Is(k));
  }

  lemma JoinsItsKind(a: Pool, j: Job, kind: Kind, b: Pool)
    requires Inv(a) && Submit(a, j, kind, b)
    ensures StaysKind(b, j, kind)
  {
    hide Sum, Signals;
    NowhereYet(a, j);
  }

  ghost predicate SubmittedAt(trace: seq<Pool>, i: nat, j: Job, kind: Kind) {
    i + 1 < |trace| && Submit(trace[i], j, kind, trace[i + 1])
  }

  // The job's work is called.
  ghost predicate StartedAt(trace: seq<Pool>, i: nat, j: Job) {
    i + 1 < |trace| && j !in trace[i].started && j in trace[i + 1].started
  }

  // uv_cancel has taken the job from its queue; it will be, or has been, reported as cancelled.
  ghost predicate Cancelled(p: Pool, j: Job) {
    Finished(j, true) in p.done
    || exists h :: 0 <= h < |p.loops|
         && (Finished(j, true) in p.loops[h].queue || Finished(j, true) in p.loops[h].local
             || j in p.loops[h].cancelling)
  }

  lemma {:induction false} KeepsKind(trace: seq<Pool>, nthreads: nat, i: nat, n: nat, j: Job, kind: Kind)
    requires Run(trace, nthreads) && SubmittedAt(trace, i, j, kind) && i < n < |trace|
    ensures StaysKind(trace[n], j, kind)
  {
    hide Step, StaysKind, Shifts, Inv, Submit, Initial;
    RunKeeps(trace, nthreads, i);
    if n == i + 1 {
      JoinsItsKind(trace[i], j, kind, trace[n]);
    } else {
      KeepsKind(trace, nthreads, i, n - 1, j, kind);
      assert Step(trace[n - 1], trace[n]);
      StepShifts(trace[n - 1], trace[n]);
      ShiftStays(trace[n - 1], trace[n], j, kind);
    }
  }

  lemma {:induction false} StaysAhead(trace: seq<Pool>, nthreads: nat, i1: nat, i2: nat, n: nat, j: Job, k: Job,
                                      kind: Kind)
    requires Run(trace, nthreads) && SubmittedAt(trace, i1, j, kind) && SubmittedAt(trace, i2, k, kind)
    requires i1 < i2 < n < |trace|
    ensures Ahead(trace[n], j, k, kind)
  {
    hide Step, StaysKind, Shifts, Ahead, Inv, Submit, Initial;
    if n == i2 + 1 {
      KeepsKind(trace, nthreads, i1, i2, j, kind);
      RunKeeps(trace, nthreads, i2);
      JoinsBehind(trace[i2], j, k, kind, trace[n]);
    } else {
      StaysAhead(trace, nthreads, i1, i2, n - 1, j, k, kind);
      assert Step(trace[n - 1], trace[n]);
      StepShifts(trace[n - 1], trace[n]);
      ShiftAhead(trace[n - 1], trace[n], j, k, kind);
    }
  }

  // A worker takes only the first of a queue.
  lemma FirstStarts(a: Pool, b: Pool, j: Job, k: Job, kind: Kind)
    requires Inv(a) && Step(a, b) && Ahead(a, j, k, kind) && k !in a.started && k in b.started
    ensures Work(j) !in a.wq && j !in a.slowPending
  {
    hide Sum, Signals, Inv, Step;
    NothingElseStarts(a, b);
    var i: nat :| TakeFast(a, i, b) || TakeSlow(a, i, b);
  }

  // A job that waits for no worker has started or is cancelled.
  lemma NotWaiting(p: Pool, j: Job)
    requires Inv(p) && j in p.submitted && Work(j) !in p.wq && j !in p.slowPending
    ensures j in p.started || Cancelled(p, j)
  {
    hide Sum;
    assert Places(p, j) == 1;
    SumZero(p.wq, Asks(j));
    SumZero(p.slowPending, Is(j));
    SumZero(p.workers, Runs(j));
    SumZero(p.loops, InLoop(j));
    SumZero(p.done, Reports(j));
    if i :| 0 <= i < |p.done| && Reports(j)(p.done[i]) > 0 {
      assert p.done[i] in p.done;
    } else if h :| 0 <= h < |p.loops| && InLoop(j)(p.loops[h]) > 0 {
      SumZero(p.loops[h].queue, Reports(j));
      SumZero(p.loops[h].local, Reports(j));
      SumZero(p.loops[h].cancelling, Is(j));
      assert LoopHistory(p, p.loops[h]);
      assert forall m :: 0 <= m < |p.loops[h].queue| ==> p.loops[h].queue[m] in p.loops[h].queue;
      assert forall m :: 0 <= m < |p.loops[h].local| ==> p.loops[h].local[m] in p.loops[h].local;
    }
  }

  // In every interleaving, of two fast jobs or two slow jobs the one submitted first has been started or
  // cancelled before the other is started.
  lemma StartsInOrder(trace: seq<Pool>, nthreads: nat, i1: nat, i2: nat, m: nat, j: Job, k: Job, kind: Kind)
    requires Run(trace, nthreads) && i1 < i2
    requires SubmittedAt(trace, i1, j, kind) && SubmittedAt(trace, i2, k, kind) && StartedAt(trace, m, k)
    ensures j in trace[m].started || Cancelled(trace[m], j)
  {
    hide Step, StaysKind, Inv, Cancelled;
    RunKeeps(trace, nthreads, m);
    StartsLater(trace, nthreads, i2, m, k, kind);
    StaysAhead(trace, nthreads, i1, i2, m, j, k, kind);
    assert Step(trace[m], trace[m + 1]);
    FirstStarts(trace[m], trace[m + 1], j, k, kind);
    assert j in trace[m].submitted by { KeepsKind(trace, nthreads, i1, m, j, kind); InIts(trace[m], j, kind); }
    NotWaiting(trace[m], j);
  }

  lemma InIts(p: Pool, j: Job, kind: Kind)
    requires StaysKind(p, j, kind)
    ensures j in p.submitted
  {
  }

  // A job is submitted before it starts.
  lemma StartsLater(trace: seq<Pool>, nthreads: nat, i: nat, m: nat, k: Job, kind: Kind)
    requires Run(trace, nthreads) && SubmittedAt(trace, i, k, kind) && StartedAt(trace, m, k)
    ensures i < m
  {
    hide Step, Signals, Sum;
    if m <= i {
      RunKeeps(trace, nthreads, i);
      RunKeeps(trace, nthreads, m + 1);
      StaysStarted(trace, nthreads, m + 1, i + 1, k);
      RunKeeps(trace, nthreads, i + 1);
      assert Step(trace[i], trace[i + 1]);
      SubmitStartsNone(trace[i], k, kind, trace[i + 1]);
    }
  }

  lemma SubmitStartsNone(a: Pool, k: Job, kind: Kind, b: Pool)
    requires Submit(a, k, kind, b) && Inv(a)
    ensures k !in b.started
  {
    hide Sum, Signals;
  }

  lemma {:induction false} StaysStarted(trace: seq<Pool>, nthreads: nat, m: nat, n: nat, k: Job)
    requires Run(trace, nthreads) && m <= n < |trace| && k in trace[m].started
    ensures k in trace[n].started
  {
    hide Step;
    if m < n {
      StaysStarted(trace, nthreads, m, n - 1, k);
      assert Step(trace[n - 1], trace[n]);
      StartedGrows(trace[n - 1], trace[n]);
    }
  }

  lemma StartedGrows(a: Pool, b: Pool)
    requires Step(a, b)
    ensures a.started <= b.started
  {
    hide Signals;
  }

  // ---- Jobs reported back ----

  // The callbacks made, and behind them those one loop has still to make, in order.
  function Reportings(p: Pool, h: nat): seq<Finished>
    requires h < |p.loops|
  {
    p.done + p.loops[h].local + p.loops[h].queue
  }

  // Jobs are reported to the loop they came from.
  ghost predicate AtHome(p: Pool) {
    forall h :: 0 <= h < |p.loops| ==> LoopAtHome(p.loops[h], h)
  }

  ghost predicate LoopAtHome(l: Loop, h: nat) {
    (forall f :: f in l.queue || f in l.local ==> f.job.home == h) && forall j :: j in l.cancelling ==> j.home == h
  }

  lemma AtHomeStep(a: Pool, b: Pool)
    requires AtHome(a) && Step(a, b)
    ensures AtHome(b) && |b.loops| == |a.loops|
  {
    hide Signals, LoopAtHome;
    if j, kind :| Submit(a, j, kind, b) {
    } else if i: nat :| WorkerStep(a, i, b) {
      WorkerStaysHome(a, i, b);
    } else if j :| Cancel(a, j, b) {
      CancelledHome(a, j, b);
    } else {
      var g :| CancelPost(a, g, b) || Collect(a, g, b) || CallBack(a, g, b);
      LoopStaysHome(a, g, b);
    }
  }

  lemma WorkerStaysHome(a: Pool, i: nat, b: Pool)
    requires AtHome(a) && WorkerStep(a, i, b)
    ensures AtHome(b) && |b.loops| == |a.loops|
  {
    hide Signals, LoopAtHome;
    if PostBack(a, i, b) {
      PostedHome(a.loops[a.workers[i].job.home], a.workers[i].job);
    }
  }

  lemma PostedHome(l: Loop, j: Job)
    requires LoopAtHome(l, j.home)
    ensures LoopAtHome(l.(queue := l.queue + [Finished(j, false)]), j.home)
  {
  }

  lemma CancelledHome(a: Pool, j: Job, b: Pool)
    requires AtHome(a) && Cancel(a, j, b)
    ensures AtHome(b) && |b.loops| == |a.loops|
  {
    assert LoopAtHome(a.loops[j.home], j.home);
    assert LoopAtHome(b.loops[j.home], j.home);
  }

  lemma LoopStaysHome(a: Pool, g: nat, b: Pool)
    requires AtHome(a) && (CancelPost(a, g, b) || Collect(a, g, b) || CallBack(a, g, b))
    ensures AtHome(b) && |b.loops| == |a.loops|
  {
    assert LoopAtHome(a.loops[g], g);
    assert LoopAtHome(b.loops[g], g);
  }

  lemma {:induction false} AllAtHome(trace: seq<Pool>, nthreads: nat, i: nat)
    requires Run(trace, nthreads) && i < |trace|
    ensures AtHome(trace[i]) && |trace[i].loops| == |trace[0].loops|
  {
    hide Step;
    if i > 0 {
      AllAtHome(trace, nthreads, i - 1);
      assert Step(trace[i - 1], trace[i]);
      AtHomeStep(trace[i - 1], trace[i]);
    }
  }

  // A job is reported once.
  lemma ReportedOnce(p: Pool, h: nat, x: nat, y: nat)
    requires Inv(p) && h < |p.loops| && x < y < |Reportings(p, h)|
    ensures Reportings(p, h)[x].job != Reportings(p, h)[y].job
  {
    hide Sum;
    var r, l, j := Reportings(p, h), p.loops[h], Reportings(p, h)[x].job;
    SumConcat(p.done + l.local, l.queue, Reports(j));
    SumConcat(p.done, l.local, Reports(j));
    SumAt(p.loops, h, InLoop(j));
    assert Places(p, j) <= 1;
    if r[y].job == j {
      SumTwo(r, x, y, Reports(j));
    }
  }

  // What one step may do to the reports of a loop.
  ghost predicate ReportShifts(a: Pool, b: Pool, h: nat)
    requires h < |a.loops| && h < |b.loops|
  {
    var r, s := Reportings(a, h), Reportings(b, h);
    s == r
    || (exists f :: s == r + [f])
    || (exists f: Finished :: f.job.home != h && s == r[..|a.done|] + [f] + r[|a.done|..])
    || exists i :: 0 <= i < |r| && r[i].cancelled && s == r[..i] + r[i + 1..]
  }

  lemma StepReports(a: Pool, b: Pool, h: nat)
    requires AtHome(a) && Step(a, b) && h < |a.loops| == |b.loops|
    ensures ReportShifts(a, b, h)
  {
    hide Signals, AtHome;
    if j, kind :| Submit(a, j, kind, b) {
      assert Reportings(b, h) == Reportings(a, h);
    } else if i: nat :| WorkerStep(a, i, b) {
      WorkerReports(a, i, b, h);
    } else if j :| Cancel(a, j, b) {
      CancelReports(a, j, b, h);
    } else {
      var g :| CancelPost(a, g, b) || Collect(a, g, b) || CallBack(a, g, b);
      LoopReports(a, g, b, h);
    }
  }

  lemma WorkerReports(a: Pool, i: nat, b: Pool, h: nat)
    requires WorkerStep(a, i, b) && h < |a.loops| == |b.loops|
    ensures ReportShifts(a, b, h)
  {
    hide Signals;
    if PostBack(a, i, b) && a.workers[i].job.home == h {
      assert Reportings(b, h) == Reportings(a, h) + [Finished(a.workers[i].job, false)];
    } else {
      assert Reportings(b, h) == Reportings(a, h);
    }
  }

  lemma CancelReports(a: Pool, j: Job, b: Pool, h: nat)
    requires Cancel(a, j, b) && h < |a.loops| == |b.loops|
    ensures ReportShifts(a, b, h)
  {
    hide ReportShifts;
    if k: nat :| CancelQueued(a, j, k, b) {
      CancelQueuedReports(a, j, k, b, h);
    } else if k: nat :| CancelLocal(a, j, k, b) {
      CancelLocalReports(a, j, k, b, h);
    } else {
      assert Reportings(b, h) == Reportings(a, h);
      SameReports(a, b, h);
    }
  }

  lemma SameReports(a: Pool, b: Pool, h: nat)
    requires h < |a.loops| && h < |b.loops| && Reportings(b, h) == Reportings(a, h)
    ensures ReportShifts(a, b, h)
  {
  }

  lemma CancelQueuedReports(a: Pool, j: Job, k: nat, b: Pool, h: nat)
    requires j.home < |a.loops| && CancelQueued(a, j, k, b) && h < |a.loops| == |b.loops|
    ensures ReportShifts(a, b, h)
  {
    var l, r := a.loops[h], Reportings(a, h);
    if j.home == h {
      var m := |a.done| + |l.local| + k;
      assert Reportings(b, h) == r[..m] + r[m + 1..] && r[m] == l.queue[k];
    } else {
      assert Reportings(b, h) == r;
    }
  }

  lemma CancelLocalReports(a: Pool, j: Job, k: nat, b: Pool, h: nat)
    requires j.home < |a.loops| && CancelLocal(a, j, k, b) && h < |a.loops| == |b.loops|
    ensures ReportShifts(a, b, h)
  {
    var l, r := a.loops[h], Reportings(a, h);
    if j.home == h {
      var m := |a.done| + k;
      assert Reportings(b, h) == r[..m] + r[m + 1..] && r[m] == l.local[k];
    } else {
      assert Reportings(b, h) == r;
    }
  }

  lemma LoopReports(a: Pool, g: nat, b: Pool, h: nat)
    requires AtHome(a) && (CancelPost(a, g, b) || Collect(a, g, b) || CallBack(a, g, b))
    requires h < |a.loops| == |b.loops|
    ensures ReportShifts(a, b, h)
  {
    var l, r, n := a.loops[h], Reportings(a, h), |a.done|;
    if CancelPost(a, g, b) && g == h {
      assert Reportings(b, h) == r + [Finished(l.cancelling[0], true)];
    } else if CallBack(a, g, b) && g != h {
      var f := a.loops[g].local[0];
      assert f in a.loops[g].local;
      assert Reportings(b, h) == r[..n] + [f] + r[n..];
    } else if CallBack(a, g, b) {
      assert [l.local[0]] + l.local[1..] == l.local;
      assert Reportings(b, h) == r;
    } else {
      assert Reportings(b, h) == r;
    }
  }

  // j's work has been reported done, and k's report, if there is one, comes behind it.
  ghost predicate First(r: seq<Finished>, j: Job, k: Job) {
    Finished(j, false) in r
    && forall x, y :: 0 <= x < |r| && 0 <= y < |r| && r[x].job == j && r[y].job == k ==> x < y
  }

  lemma FirstAppend(r: seq<Finished>, f: Finished, j: Job, k: Job)
    requires First(r, j, k) && f.job != j
    ensures First(r + [f], j, k)
  {
  }

  lemma FirstInsert(r: seq<Finished>, n: nat, f: Finished, j: Job, k: Job)
    requires First(r, j, k) && n <= |r| && f.job != j && f.job != k
    ensures First(r[..n] + [f] + r[n..], j, k)
  {
    var s := r[..n] + [f] + r[n..];
    var z :| 0 <= z < |r| && r[z] == Finished(j, false);
    assert s[if z < n then z else z + 1] == r[z];
    forall x, y | 0 <= x < |s| && 0 <= y < |s| && s[x].job == j && s[y].job == k ensures x < y {
      assert r[if x < n then x else x - 1] == s[x] && r[if y < n then y else y - 1] == s[y];
    }
  }

  lemma FirstRemove(r: seq<Finished>, i: nat, j: Job, k: Job)
    requires First(r, j, k) && i < |r| && r[i].cancelled
    ensures First(r[..i] + r[i + 1..], j, k)
  {
    var s := r[..i] + r[i + 1..];
    var z :| 0 <= z < |r| && r[z] == Finished(j, false);
    assert s[if z < i then z else z - 1] == r[z];
    forall x, y | 0 <= x < |s| && 0 <= y < |s| && s[x].job == j && s[y].job == k ensures x < y {
      assert r[if x < i then x else x + 1] == s[x] && r[if y < i then y else y + 1] == s[y];
    }
  }

  lemma StaysFirst(a: Pool, b: Pool, j: Job, k: Job)
    requires j.home < |a.loops| == |b.loops| && j.home == k.home && Inv(b)
    requires First(Reportings(a, j.home), j, k) && ReportShifts(a, b, j.home)
    ensures First(Reportings(b, j.home), j, k)
  {
    hide Inv, First;
    var h, n := j.home, |a.done|;
    var r, s := Reportings(a, h), Reportings(b, h);
    if s == r {
    } else if f :| s == r + [f] {
      NotAgain(b, h, r, f, j, k);
      FirstAppend(r, f, j, k);
    } else if f: Finished :| f.job.home != h && s == r[..n] + [f] + r[n..] {
      FirstInsert(r, n, f, j, k);
    } else {
      var i :| 0 <= i < |r| && r[i].cancelled && s == r[..i] + r[i + 1..];
      FirstRemove(r, i, j, k);
    }
  }

  lemma NotAgain(b: Pool, h: nat, r: seq<Finished>, f: Finished, j: Job, k: Job)
    requires Inv(b) && h < |b.loops| && Reportings(b, h) == r + [f] && First(r, j, k)
    ensures f.job != j
  {
    hide Inv;
    var z :| 0 <= z < |r| && r[z] == Finished(j, false);
    ReportedOnce(b, h, z, |r|);
  }

  lemma {:induction false} ReportStaysFirst(trace: seq<Pool>, nthreads: nat, i: nat, m: nat, j: Job, k: Job)
    requires Run(trace, nthreads) && i <= m < |trace| && j.home == k.home < |trace[0].loops|
    requires |trace[i].loops| == |trace[0].loops| && First(Reportings(trace[i], j.home), j, k)
    ensures |trace[m].loops| == |trace[0].loops| && First(Reportings(trace[m], j.home), j, k)
  {
    hide Step, First, ReportShifts, Inv;
    if i < m {
      ReportStaysFirst(trace, nthreads, i, m - 1, j, k);
      AllAtHome(trace, nthreads, m - 1);
      AllAtHome(trace, nthreads, m);
      RunKeeps(trace, nthreads, m);
      assert Step(trace[m - 1], trace[m]);
      StepReports(trace[m - 1], trace[m], j.home);
      StaysFirst(trace[m - 1], trace[m], j, k);
    }
  }

  // In every interleaving, of two jobs of one loop the one reported done first is called back first.
  lemma CallbacksInOrder(trace: seq<Pool>, nthreads: nat, i: nat, m: nat, j: Job, k: Job, y: nat)
    requires Run(trace, nthreads) && i <= m < |trace| && j.home == k.home < |trace[i].loops|
    requires Finished(j, false) in trace[i].loops[j.home].queue
    requires forall f :: f in Reportings(trace[i], j.home) ==> f.job != k
    requires y < |trace[m].done| && trace[m].done[y].job == k
    ensures exists x :: 0 <= x < y && trace[m].done[x] == Finished(j, false)
  {
    hide Step, Inv, Sum;
    AllAtHome(trace, nthreads, i);
    AllAtHome(trace, nthreads, m);
    ReportStaysFirst(trace, nthreads, i, m, j, k);
    var r := Reportings(trace[m], j.home);
    var x :| 0 <= x < |r| && r[x] == Finished(j, false);
    assert r[y] == trace[m].done[y];
  }
}
