// The worker pool as code.

module WorkerPool {
  // The worker pool's functions as code over shared queues; each critical section is a run of the
  // protocol's steps (libuv src/threadpool.c).

  import opened Threadpool

  // A run of steps from a to b.
  ghost predicate Path(a: Pool, trace: seq<Pool>, b: Pool) {
    trace != [] && trace[0] == a && trace[|trace| - 1] == b
    && forall i :: 0 <= i < |trace| - 1 ==> Step(trace[i], trace[i + 1])
  }

  lemma PathStep(a: Pool, trace: seq<Pool>, b: Pool, c: Pool)
    requires Path(a, trace, b) && Step(b, c)
    ensures Path(a, trace + [c], c)
  {
    hide Step;
  }

  class Threads {
    var workers: seq<Worker>
    var holder: int
    var wq: seq<Item>
    var slowPending: seq<Job>
    var idleThreads: nat
    var slowRunning: nat
    var loops: seq<Loop>
    ghost var submitted: set<Job>
    ghost var started: set<Job>
    var done: seq<Finished>

    ghost function State(): Pool
      reads this
    {
      Pool(workers, holder, wq, slowPending, idleThreads, slowRunning, loops, submitted, started, done)
    }

    // init_threads
    constructor (nthreads: nat, nloops: nat)
      requires nthreads > 0
      ensures Initial(State(), nthreads) && |loops| == nloops && Inv(State())
    {
      workers, holder := seq(nthreads, _ => Ready), FREE;
      wq, slowPending, idleThreads, slowRunning := [], [], 0, 0;
      loops := seq(nloops, _ => Loop([], [], []));
      submitted, started, done := {}, {}, [];
      new;
      InitialInv(State(), nthreads);
    }

    // uv_cond_signal
    method Signal()
      modifies this`workers
      ensures if exists i :: 0 <= i < |old(workers)| && old(workers)[i].Waiting?
              then exists i ::
                0 <= i < |old(workers)| && old(workers)[i].Waiting? && workers == old(workers)[i := Woken]
              else workers == old(workers)
    {
      if i: nat :| i < |workers| && workers[i].Waiting? {
        workers := workers[i := Woken];
      }
    }

    // post, for a new job
    method Post(j: Job, kind: Kind)
      requires Inv(State()) && holder == FREE && j !in submitted && j.home < |loops|
      modifies this`wq, this`slowPending, this`workers, this`submitted
      ensures Inv(State()) && Submit(old(State()), j, kind, State()) && submitted == old(submitted) + {j}
    {
      hide Inv, Step, Signals;
      ghost var a := State();
      submitted := submitted + {j};
      var q := Work(j);
      var scheduled := false;
      if kind == SlowIo {
        slowPending := slowPending + [j];
        scheduled := SlowMessage in wq;
        q := SlowMessage;
      }
      if !scheduled {
        wq := wq + [q];
        if idleThreads > 0 {
          Signal();
        }
        assert Signals(a, workers) by { SignalDone(a, workers); }
      }
      assert Submit(a, j, kind, State());
      assert Step(a, State()) by { IsSubmit(a, j, kind, State()); }
      StepKeeps(a, State());
    }

    // The worker's critical section, from taking the mutex at the top of its loop to giving it up:
    // it ends waiting or with a job to run.
    method Section(i: nat) returns (ghost trace: seq<Pool>)
      requires Inv(State()) && holder == FREE && i < |workers| && (workers[i].Ready? || workers[i].Woken?)
      modifies this`workers, this`holder, this`wq, this`slowPending, this`idleThreads, this`slowRunning, this`started
      ensures Inv(State()) && holder == FREE && Path(old(State()), trace, State())
      ensures i < |workers| && (workers[i].Waiting? || workers[i].Running?)
    {
      hide Inv, Step, Path;
      ghost var a := State();
      trace := [a];
      PathStart(a);
      Lock(i);
      trace := trace + [State()];
      PathStep(a, [a], a, State());
      while holder == i
        invariant Inv(State()) && Path(a, trace, State()) && i < |workers|
        invariant holder == i || (holder == FREE && (workers[i].Waiting? || workers[i].Running?))
        decreases holder, |wq|, if wq != [] && wq[0].SlowMessage? then 1 else 0
      {
        ghost var b := State();
        Turn(i);
        PathStep(a, trace, b, State());
        trace := trace + [State()];
      }
    }

    method Lock(i: nat)
      requires Inv(State()) && holder == FREE && i < |workers| && (workers[i].Ready? || workers[i].Woken?)
      modifies this`workers, this`holder, this`idleThreads
      ensures Inv(State()) && Step(old(State()), State()) && holder == i && |workers| == |old(workers)|
    {
      hide Inv, Step;
      ghost var a := State();
      if workers[i].Woken? {
        IdleCounted(a, i);
        idleThreads := idleThreads - 1;
        workers := workers[i := Ready];
      }
      holder := i;
      IsWorkerStep(a, i, State());
      StepKeeps(a, State());
    }

    // One turn of the worker's outer loop.
    method Turn(i: nat)
      requires Inv(State()) && holder == i < |workers|
      modifies this`workers, this`holder, this`wq, this`slowPending, this`idleThreads, this`slowRunning, this`started
      ensures Inv(State()) && Step(old(State()), State()) && i < |workers|
      ensures holder == i || (holder == FREE && (workers[i].Waiting? || workers[i].Running?))
      ensures holder == i ==>
        |wq| < |old(wq)| || (|wq| == |old(wq)| && old(wq) != [] && old(wq)[0].SlowMessage? && wq[0].Work?)
    {
      hide Inv, Step, Signals;
      ghost var a := State();
      HolderReady(a);
      var threshold := (|workers| + 1) / 2;
      if wq == [] || (wq == [SlowMessage] && slowRunning >= threshold) {
        idleThreads := idleThreads + 1;
        workers, holder := workers[i := Waiting], FREE;
      } else {
        var q := wq[0];
        wq := wq[1..];
        if q.Work? {
          started := started + {q.job};
          workers, holder := workers[i := Running(q.job, false)], FREE;
        } else if slowRunning >= threshold {
          NextIsWork(a);
          wq := wq + [q];
        } else if slowPending != [] {
          TakeSlowJob(i, a);
        }
      }
      IsWorkerStep(a, i, State());
      StepKeeps(a, State());
    }

    // The message has been taken from wq; take a slow job.
    method TakeSlowJob(i: nat, ghost a: Pool)
      requires holder == i < |workers| && slowPending != [] && workers[i].Ready?
      requires a.wq != [] && a.wq[0].SlowMessage? && State() == a.(wq := a.wq[1..]) && !AtThreshold(a)
      modifies this`workers, this`holder, this`wq, this`slowPending, this`slowRunning, this`started
      ensures TakeSlow(a, i, State()) && holder == FREE && |workers| == |a.workers| && workers[i].Running?
    {
      hide Signals;
      slowRunning := slowRunning + 1;
      var j := slowPending[0];
      slowPending := slowPending[1..];
      if slowPending != [] {
        wq := wq + [SlowMessage];
        if idleThreads > 0 {
          Signal();
        }
        SignalDone(a, workers);
      }
      ghost var ws := workers;
      started := started + {j};
      workers, holder := workers[i := Running(j, true)], FREE;
      assert TakesSlow(a, i, ws, State());
    }

    // After the work: tell the loop, then take the mutex again.
    method Return(i: nat) returns (ghost trace: seq<Pool>)
      requires Inv(State()) && holder == FREE && i < |workers| && workers[i].Running? && workers[i].job.home < |loops|
      modifies this`workers, this`holder, this`slowRunning, this`loops
      ensures Inv(State()) && holder == i && Path(old(State()), trace, State())
      ensures slowRunning == old(slowRunning) - if old(workers)[i].slow then 1 else 0
    {
      hide Inv, Step, Path;
      ghost var a := State();
      PathStart(a);
      var j, slow := workers[i].job, workers[i].slow;
      loops := loops[j.home := loops[j.home].(queue := loops[j.home].queue + [Finished(j, false)])];
      workers := workers[i := Posted(slow)];
      ghost var b := State();
      IsWorkerStep(a, i, b);
      StepKeeps(a, b);
      PathStep(a, [a], a, b);
      holder, workers := i, workers[i := Ready];
      if slow {
        SlowCounted(b, i);
        slowRunning := slowRunning - 1;
      }
      IsWorkerStep(b, i, State());
      StepKeeps(b, State());
      PathStep(a, [a] + [b], b, State());
      trace := [a] + [b] + [State()];
    }

    // uv__work_cancel, called on the job's loop: UV_EBUSY or 0.
    method WorkCancel(j: Job) returns (cancelled: bool, ghost trace: seq<Pool>)
      requires Inv(State()) && holder == FREE && j.home < |loops| && loops[j.home].cancelling == []
      modifies this`wq, this`slowPending, this`loops
      ensures Inv(State()) && Path(old(State()), trace, State())
      ensures cancelled <==> old(Queued(State(), j))
      ensures j.home < |loops|
      ensures if cancelled then loops[j.home].queue != []
        && loops[j.home].queue[|loops[j.home].queue| - 1] == Finished(j, true)
              else State() == old(State())
    {
      hide Inv, Step, Path;
      ghost var a := State();
      PathStart(a);
      trace := [a];
      cancelled := Unqueue(j);
      if cancelled {
        ghost var b := State();
        var l := loops[j.home];
        loops := loops[j.home := l.(queue := l.queue + [Finished(j, true)], cancelling := [])];
        IsLoopStep(b, j.home, State());
        StepKeeps(b, State());
        PathStep(a, [a], a, b);
        PathStep(a, [a] + [b], b, State());
        trace := [a] + [b] + [State()];
      }
    }

    // The first section of uv__work_cancel, under both mutexes.
    method Unqueue(j: Job) returns (cancelled: bool)
      requires Inv(State()) && holder == FREE && j.home < |loops| && loops[j.home].cancelling == []
      modifies this`wq, this`slowPending, this`loops
      ensures cancelled <==> old(Queued(State(), j))
      ensures |loops| == |old(loops)|
      ensures cancelled ==> Inv(State()) && Step(old(State()), State()) && loops[j.home].cancelling == [j]
      ensures !cancelled ==> State() == old(State())
    {
      hide Inv, Step;
      ghost var a := State();
      var l := loops[j.home];
      cancelled := true;
      if k: nat :| k < |wq| && wq[k] == Work(j) {
        wq := wq[..k] + wq[k + 1..];
        loops := loops[j.home := l.(cancelling := [j])];
        assert CancelFast(a, j, State());
      } else if k: nat :| k < |slowPending| && slowPending[k] == j {
        slowPending := slowPending[..k] + slowPending[k + 1..];
        loops := loops[j.home := l.(cancelling := [j])];
        assert CancelSlow(a, j, State());
      } else if k: nat :| k < |l.queue| && l.queue[k] == Finished(j, true) {
        loops := loops[j.home := l.(queue := l.queue[..k] + l.queue[k + 1..], cancelling := [j])];
        assert CancelQueued(a, j, k, State());
      } else if k: nat :| k < |l.local| && l.local[k] == Finished(j, true) {
        loops := loops[j.home := l.(local := l.local[..k] + l.local[k + 1..], cancelling := [j])];
        assert CancelLocal(a, j, k, State());
      } else {
        cancelled := false;
      }
      if cancelled {
        IsCancel(a, j, State());
        StepKeeps(a, State());
      }
    }

    // uv__work_done: every job queued when it starts gets its callback, in order.
    method WorkDone(h: nat) returns (ghost trace: seq<Pool>)
      requires Inv(State()) && h < |loops| && loops[h].cancelling == [] && loops[h].local == []
      modifies this`loops, this`done
      ensures Inv(State()) && Path(old(State()), trace, State())
      ensures done == old(done) + old(loops)[h].queue && h < |loops| && loops[h] == Loop([], [], [])
    {
      hide Inv, Step, Path;
      ghost var a := State();
      PathStart(a);
      ghost var all := loops[h].queue;
      loops := loops[h := loops[h].(queue := [], local := loops[h].queue)];
      IsLoopStep(a, h, State());
      StepKeeps(a, State());
      PathStep(a, [a], a, State());
      trace := [a] + [State()];
      while loops[h].local != []
        invariant h < |loops| && Inv(State()) && Path(a, trace, State())
        invariant loops[h].queue == [] && loops[h].cancelling == [] && done + loops[h].local == old(done) + all
        decreases |loops[h].local|
      {
        ghost var b := State();
        var q := loops[h].local[0];
        loops := loops[h := loops[h].(local := loops[h].local[1..])];
        done := done + [q];
        assert [q] + loops[h].local == b.loops[h].local;
        IsLoopStep(b, h, State());
        StepKeeps(b, State());
        PathStep(a, trace, b, State());
        trace := trace + [State()];
      }
    }
  }

  // Whether uv_cancel would succeed: the job is still linked and its work is not NULL.
  ghost predicate Queued(p: Pool, j: Job)
    requires j.home < |p.loops|
  {
    Work(j) in p.wq || j in p.slowPending || Finished(j, true) in p.loops[j.home].queue
    || Finished(j, true) in p.loops[j.home].local
  }

  lemma PathStart(a: Pool)
    ensures Path(a, [a], a)
  {
  }

  lemma IsSubmit(a: Pool, j: Job, kind: Kind, b: Pool)
    requires Submit(a, j, kind, b)
    ensures Step(a, b)
  {
  }

  lemma IsWorkerStep(a: Pool, i: nat, b: Pool)
    requires WorkerStep(a, i, b)
    ensures Step(a, b)
  {
  }

  lemma IsCancel(a: Pool, j: Job, b: Pool)
    requires Cancel(a, j, b)
    ensures Step(a, b)
  {
  }

  lemma IsLoopStep(a: Pool, h: nat, b: Pool)
    requires CancelPost(a, h, b) || Collect(a, h, b) || CallBack(a, h, b)
    ensures Step(a, b)
  {
  }

  lemma SignalDone(a: Pool, ws: seq<Worker>)
    requires if a.idleThreads > 0 && exists i :: 0 <= i < |a.workers| && a.workers[i].Waiting?
             then exists i :: 0 <= i < |a.workers| && a.workers[i].Waiting? && ws == a.workers[i := Woken]
             else ws == a.workers
    ensures Signals(a, ws)
  {
  }

  lemma IdleCounted(a: Pool, i: nat)
    requires Inv(a) && i < |a.workers| && a.workers[i].Woken?
    ensures a.idleThreads > 0
  {
    SumZero(a.workers, IdleOne);
  }

  lemma SlowCounted(a: Pool, i: nat)
    requires Inv(a) && i < |a.workers| && a.workers[i].Posted? && a.workers[i].slow
    ensures a.slowRunning > 0
  {
    SumZero(a.workers, SlowOne);
  }

  lemma HolderReady(a: Pool)
    requires Inv(a) && 0 <= a.holder < |a.workers|
    ensures a.workers[a.holder].Ready?
  {
  }

  // There is one message at most, so behind it comes a job.
  lemma NextIsWork(a: Pool)
    requires Inv(a) && |a.wq| > 1 && a.wq[0].SlowMessage?
    ensures a.wq[1].Work?
  {
    hide Sum;
    if a.wq[1].SlowMessage? {
      SumTwo(a.wq, 0, 1, MessageOne);
    }
  }
}
