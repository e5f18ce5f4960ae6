// libuv's worker pool, a protocol.

module Threadpool {
  // Atomic steps under the mutexes (libuv src/threadpool.c), and what every
  // interleaving of them keeps.

  // One submission of work, by the loop it reports to.
  datatype Job = Job(id: nat, home: nat)

  // An entry of wq: a job, or run_slow_work_message.
  datatype Item = Work(job: Job) | SlowMessage

  datatype Kind = Fast | SlowIo

  // Where a worker thread is: at the top of its loop, in uv_cond_wait (signalled or not), running a
  // job, or past handing the job to its loop but not yet holding the mutex again.
  datatype Worker =
    | Ready
    | Waiting
    | Woken
    | Running(job: Job, slow: bool)
    | Posted(slow: bool)

  // A job handed back to its loop; cancelled says work == uv__cancelled rather than NULL.
  datatype Finished = Finished(job: Job, cancelled: bool)

  // One loop's side: its wq, the list uv__work_done is going through, and a uv__work_cancel past its
  // first section.
  datatype Loop = Loop(queue: seq<Finished>, local: seq<Finished>, cancelling: seq<Job>)

  // submitted, started and done are history: jobs ever posted, jobs whose work was called, and the
  // done callbacks made.
  datatype Pool = Pool(workers: seq<Worker>, holder: int, wq: seq<Item>, slowPending: seq<Job>,
                       idleThreads: nat, slowRunning: nat, loops: seq<Loop>,
                       submitted: set<Job>, started: set<Job>, done: seq<Finished>)

  const FREE: int := -1

  function Threshold(p: Pool): nat {
    (|p.workers| + 1) / 2
  }

  predicate AtThreshold(p: Pool) {
    p.slowRunning >= Threshold(p)
  }

  // The condition of the worker's inner while.
  predicate NothingToDo(p: Pool) {
    p.wq == [] || (p.wq == [SlowMessage] && AtThreshold(p))
  }

  // ---- Counting ----

  function Sum<T>(s: seq<T>, f: T -> nat): nat {
    if s == [] then 0 else Sum(s[..|s| - 1], f) + f(s[|s| - 1])
  }

  lemma {:induction false} SumConcat<T>(a: seq<T>, b: seq<T>, f: T -> nat)
    ensures Sum(a + b, f) == Sum(a, f) + Sum(b, f)
    decreases |b|
  {
    if b == [] {
      assert a + b == a;
    } else {
      assert (a + b)[..|a + b| - 1] == a + b[..|b| - 1];
      SumConcat(a, b[..|b| - 1], f);
    }
  }

  lemma SumOne<T>(x: T, f: T -> nat)
    ensures Sum([x], f) == f(x)
  {
    assert [x][..0] == [];
  }

  lemma SumAt<T>(s: seq<T>, i: nat, f: T -> nat)
    requires i < |s|
    ensures Sum(s, f) == Sum(s[..i] + s[i + 1..], f) + f(s[i])
  {
    hide Sum;
    assert s == s[..i] + ([s[i]] + s[i + 1..]);
    SumConcat(s[..i], [s[i]] + s[i + 1..], f);
    SumConcat([s[i]], s[i + 1..], f);
    SumOne(s[i], f);
    SumConcat(s[..i], s[i + 1..], f);
  }

  lemma SumUpdate<T>(s: seq<T>, i: nat, x: T, f: T -> nat)
    requires i < |s|
    ensures Sum(s[i := x], f) + f(s[i]) == Sum(s, f) + f(x)
  {
    var t := s[i := x];
    assert s[..i] + s[i + 1..] == t[..i] + t[i + 1..];
    SumAt(s, i, f);
    SumAt(t, i, f);
  }

  lemma SumFirst<T>(s: seq<T>, f: T -> nat)
    requires s != []
    ensures Sum(s, f) == f(s[0]) + Sum(s[1..], f)
  {
    SumAt(s, 0, f);
    assert s[..0] + s[1..] == s[1..];
  }

  lemma {:induction false} SumZero<T>(s: seq<T>, f: T -> nat)
    ensures Sum(s, f) == 0 <==> forall i :: 0 <= i < |s| ==> f(s[i]) == 0
  {
    if s != [] {
      SumZero(s[..|s| - 1], f);
    }
  }

  function SlowOne(w: Worker): nat {
    if (w.Running? || w.Posted?) && w.slow then 1 else 0
  }

  function WaitingOne(w: Worker): nat {
    if w.Waiting? then 1 else 0
  }

  function IdleOne(w: Worker): nat {
    if w.Waiting? || w.Woken? then 1 else 0
  }

  // Awake and about to look at wq.
  function AwakeOne(w: Worker): nat {
    if w.Woken? || w.Ready? then 1 else 0
  }

  function MessageOne(i: Item): nat {
    if i.SlowMessage? then 1 else 0
  }

  // Occurrences of one job.
  function Runs(j: Job): Worker -> nat {
    (w: Worker) => if w.Running? && w.job == j then 1 else 0
  }

  function Asks(j: Job): Item -> nat {
    (i: Item) => if i == Work(j) then 1 else 0
  }

  function Is(j: Job): Job -> nat {
    (o: Job) => if o == j then 1 else 0
  }

  function Reports(j: Job): Finished -> nat {
    (f: Finished) => if f.job == j then 1 else 0
  }

  function InLoop(j: Job): Loop -> nat {
    (l: Loop) => Sum(l.queue, Reports(j)) + Sum(l.local, Reports(j)) + Sum(l.cancelling, Is(j))
  }

  // ---- The invariant ----

  // How many places a job is in.
  function Places(p: Pool, j: Job): nat {
    Sum(p.wq, Asks(j)) + Sum(p.slowPending, Is(j)) + Sum(p.workers, Runs(j)) + Sum(p.loops, InLoop(j))
    + Sum(p.done, Reports(j))
  }

  // Every job submitted is in exactly one place.
  ghost predicate Conserved(p: Pool) {
    forall j :: Places(p, j) == if j in p.submitted then 1 else 0
  }

  ghost predicate SlowOk(p: Pool) {
    p.slowRunning == Sum(p.workers, SlowOne) <= Threshold(p)
    && Sum(p.wq, MessageOne) <= 1 && (p.slowPending != [] ==> Sum(p.wq, MessageOne) == 1)
  }

  // Entries of wq a worker could take now.
  function Runnable(p: Pool): int {
    |p.wq| - if Sum(p.wq, MessageOne) > 0 && AtThreshold(p) then 1 else 0
  }

  // While a worker sleeps unsignalled, enough are awake for everything that can run.
  ghost predicate Awake(p: Pool) {
    p.idleThreads == Sum(p.workers, IdleOne)
    && (Sum(p.workers, WaitingOne) > 0 ==> Runnable(p) <= Sum(p.workers, AwakeOne))
  }

  ghost predicate Holds(p: Pool) {
    |p.workers| > 0 && (p.holder == FREE || (0 <= p.holder < |p.workers| && p.workers[p.holder].Ready?))
  }

  ghost predicate StatusOk(p: Pool, fs: seq<Finished>) {
    forall i :: 0 <= i < |fs| ==> (fs[i].cancelled <==> fs[i].job !in p.started)
  }

  // A job was started exactly when it is running or finished without being cancelled.
  ghost predicate History(p: Pool) {
    p.started <= p.submitted
    && (forall i :: 0 <= i < |p.wq| && p.wq[i].Work? ==> p.wq[i].job !in p.started)
    && (forall i :: 0 <= i < |p.slowPending| ==> p.slowPending[i] !in p.started)
    && (forall i :: 0 <= i < |p.workers| && p.workers[i].Running? ==> p.workers[i].job in p.started)
    && (forall l :: 0 <= l < |p.loops| ==> LoopHistory(p, p.loops[l]))
    && StatusOk(p, p.done)
  }

  ghost predicate LoopHistory(p: Pool, l: Loop) {
    StatusOk(p, l.queue) && StatusOk(p, l.local)
    && |l.cancelling| <= 1 && forall i :: 0 <= i < |l.cancelling| ==> l.cancelling[i] !in p.started
  }

  ghost predicate Inv(p: Pool) {
    Conserved(p) && SlowOk(p) && Awake(p) && Holds(p) && History(p)
  }

  // ---- Steps ----

  // uv_cond_signal, made only when some thread is idle: an unsignalled waiter, if any, wakes.
  ghost predicate Signals(a: Pool, ws: seq<Worker>) {
    if a.idleThreads == 0 || !exists i :: 0 <= i < |a.workers| && a.workers[i].Waiting? then ws == a.workers
    else exists i :: 0 <= i < |a.workers| && a.workers[i].Waiting? && ws == a.workers[i := Woken]
  }

  // post, from uv__work_submit.
  ghost predicate Submit(a: Pool, j: Job, kind: Kind, b: Pool) {
    a.holder == FREE && j !in a.submitted && j.home < |a.loops|
    && if kind == SlowIo && SlowMessage in a.wq then
         b == a.(slowPending := a.slowPending + [j], submitted := a.submitted + {j})
       else
         Signals(a, b.workers)
         && b == a.(wq := a.wq + [if kind == SlowIo then SlowMessage else Work(j)],
                    slowPending := if kind == SlowIo then a.slowPending + [j] else a.slowPending,
                    workers := b.workers, submitted := a.submitted + {j})
  }

  // A wait may end without a signal.
  ghost predicate Spurious(a: Pool, i: nat, b: Pool) {
    i < |a.workers| && a.workers[i].Waiting? && b == a.(workers := a.workers[i := Woken])
  }

  // A worker at the top of its loop, or coming back from its wait, gets the mutex.
  ghost predicate Acquire(a: Pool, i: nat, b: Pool) {
    a.holder == FREE && i < |a.workers|
    && if a.workers[i].Woken? then
         a.idleThreads > 0 && b == a.(holder := i, idleThreads := a.idleThreads - 1, workers := a.workers[i := Ready])
       else a.workers[i].Ready? && b == a.(holder := i)
  }

  ghost predicate Wait(a: Pool, i: nat, b: Pool) {
    a.holder == i < |a.workers| && NothingToDo(a)
    && b == a.(holder := FREE, idleThreads := a.idleThreads + 1, workers := a.workers[i := Waiting])
  }

  ghost predicate TakeFast(a: Pool, i: nat, b: Pool) {
    a.holder == i < |a.workers| && a.wq != [] && a.wq[0].Work?
    && b == a.(holder := FREE, wq := a.wq[1..], workers := a.workers[i := Running(a.wq[0].job, false)],
               started := a.started + {a.wq[0].job})
  }

  // The message goes behind all other work.
  ghost predicate Rotate(a: Pool, i: nat, b: Pool) {
    a.holder == i && !NothingToDo(a) && a.wq[0].SlowMessage? && AtThreshold(a)
    && b == a.(wq := a.wq[1..] + [SlowMessage])
  }

  // The slow jobs the message was for have all been cancelled.
  ghost predicate DropMessage(a: Pool, i: nat, b: Pool) {
    a.holder == i && a.wq != [] && a.wq[0].SlowMessage? && !AtThreshold(a) && a.slowPending == []
    && b == a.(wq := a.wq[1..])
  }

  ghost predicate TakeSlow(a: Pool, i: nat, b: Pool) {
    a.holder == i < |a.workers| && a.wq != [] && a.wq[0].SlowMessage? && !AtThreshold(a) && a.slowPending != []
    && exists ws :: TakesSlow(a, i, ws, b)
  }

  // If there is more slow work the message is queued again; ws is the workers after its signal.
  ghost predicate TakesSlow(a: Pool, i: nat, ws: seq<Worker>, b: Pool)
    requires i < |a.workers| && a.wq != [] && a.slowPending != []
  {
    var more := |a.slowPending| > 1;
    (if more then Signals(a, ws) else ws == a.workers) && i < |ws|
    && b == a.(holder := FREE, wq := if more then a.wq[1..] + [SlowMessage] else a.wq[1..],
               slowPending := a.slowPending[1..], slowRunning := a.slowRunning + 1,
               workers := ws[i := Running(a.slowPending[0], true)], started := a.started + {a.slowPending[0]})
  }

  // The job is done: its loop is told, under the loop's own mutex.
  ghost predicate PostBack(a: Pool, i: nat, b: Pool) {
    i < |a.workers| && a.workers[i].Running? && a.workers[i].job.home < |a.loops|
    && var j := a.workers[i].job;
    b == a.(workers := a.workers[i := Posted(a.workers[i].slow)],
            loops := a.loops[j.home := a.loops[j.home].(queue := a.loops[j.home].queue + [Finished(j, false)])])
  }

  ghost predicate Relock(a: Pool, i: nat, b: Pool) {
    a.holder == FREE && i < |a.workers| && a.workers[i].Posted? && (a.workers[i].slow ==> a.slowRunning > 0)
    && b == a.(holder := i, workers := a.workers[i := Ready],
               slowRunning := if a.workers[i].slow then a.slowRunning - 1 else a.slowRunning)
  }

  // uv__work_cancel's first section, when the job is still queued somewhere: waiting for a worker, or
  // already cancelled and waiting for its callback.
  ghost predicate Cancel(a: Pool, j: Job, b: Pool) {
    a.holder == FREE && j.home < |a.loops| && a.loops[j.home].cancelling == []
    && (CancelFast(a, j, b) || CancelSlow(a, j, b) || CancelAgain(a, j, b))
  }

  ghost predicate CancelFast(a: Pool, j: Job, b: Pool)
    requires j.home < |a.loops|
  {
    exists k :: 0 <= k < |a.wq| && a.wq[k] == Work(j)
      && b == a.(wq := a.wq[..k] + a.wq[k + 1..], loops := a.loops[j.home := a.loops[j.home].(cancelling := [j])])
  }

  ghost predicate CancelSlow(a: Pool, j: Job, b: Pool)
    requires j.home < |a.loops|
  {
    exists k :: 0 <= k < |a.slowPending| && a.slowPending[k] == j
      && b == a.(slowPending := a.slowPending[..k] + a.slowPending[k + 1..],
                 loops := a.loops[j.home := a.loops[j.home].(cancelling := [j])])
  }

  ghost predicate CancelAgain(a: Pool, j: Job, b: Pool)
    requires j.home < |a.loops|
  {
    (exists k :: CancelQueued(a, j, k, b)) || (exists k :: CancelLocal(a, j, k, b))
  }

  ghost predicate CancelQueued(a: Pool, j: Job, k: nat, b: Pool)
    requires j.home < |a.loops|
  {
    var l := a.loops[j.home];
    k < |l.queue| && l.queue[k] == Finished(j, true)
    && b == a.(loops := a.loops[j.home := l.(queue := l.queue[..k] + l.queue[k + 1..], cancelling := [j])])
  }

  ghost predicate CancelLocal(a: Pool, j: Job, k: nat, b: Pool)
    requires j.home < |a.loops|
  {
    var l := a.loops[j.home];
    k < |l.local| && l.local[k] == Finished(j, true)
    && b == a.(loops := a.loops[j.home := l.(local := l.local[..k] + l.local[k + 1..], cancelling := [j])])
  }

  // Its second section.
  ghost predicate CancelPost(a: Pool, h: nat, b: Pool) {
    h < |a.loops| && |a.loops[h].cancelling| == 1
    && var l := a.loops[h];
    b == a.(loops := a.loops[h := l.(queue := l.queue + [Finished(l.cancelling[0], true)], cancelling := [])])
  }

  // uv__work_done takes the whole queue, then calls back one by one.
  ghost predicate Collect(a: Pool, h: nat, b: Pool) {
    h < |a.loops| && a.loops[h].cancelling == [] && a.loops[h].local == []
    && b == a.(loops := a.loops[h := a.loops[h].(queue := [], local := a.loops[h].queue)])
  }

  ghost predicate CallBack(a: Pool, h: nat, b: Pool) {
    h < |a.loops| && a.loops[h].cancelling == [] && a.loops[h].local != []
    && b == a.(loops := a.loops[h := a.loops[h].(local := a.loops[h].local[1..])],
               done := a.done + [a.loops[h].local[0]])
  }

  ghost predicate WorkerStep(a: Pool, i: nat, b: Pool) {
    Spurious(a, i, b) || Acquire(a, i, b) || Wait(a, i, b) || TakeFast(a, i, b) || Rotate(a, i, b)
    || DropMessage(a, i, b) || TakeSlow(a, i, b) || PostBack(a, i, b) || Relock(a, i, b)
  }

  ghost predicate Step(a: Pool, b: Pool) {
    (exists j, kind :: Submit(a, j, kind, b))
    || (exists i :: WorkerStep(a, i, b))
    || (exists j :: Cancel(a, j, b))
    || (exists h :: CancelPost(a, h, b) || Collect(a, h, b) || CallBack(a, h, b))
  }

  // ---- Every step keeps the invariant ----

  // Replacing one worker's state.
  lemma WorkerChange(ws: seq<Worker>, i: nat, w: Worker)
    requires i < |ws|
    ensures Sum(ws[i := w], SlowOne) + SlowOne(ws[i]) == Sum(ws, SlowOne) + SlowOne(w)
    ensures Sum(ws[i := w], WaitingOne) + WaitingOne(ws[i]) == Sum(ws, WaitingOne) + WaitingOne(w)
    ensures Sum(ws[i := w], IdleOne) + IdleOne(ws[i]) == Sum(ws, IdleOne) + IdleOne(w)
    ensures Sum(ws[i := w], AwakeOne) + AwakeOne(ws[i]) == Sum(ws, AwakeOne) + AwakeOne(w)
    ensures forall j :: Sum(ws[i := w], Runs(j)) + Runs(j)(ws[i]) == Sum(ws, Runs(j)) + Runs(j)(w)
  {
    SumUpdate(ws, i, w, SlowOne);
    SumUpdate(ws, i, w, WaitingOne);
    SumUpdate(ws, i, w, IdleOne);
    SumUpdate(ws, i, w, AwakeOne);
    forall j ensures Sum(ws[i := w], Runs(j)) + Runs(j)(ws[i]) == Sum(ws, Runs(j)) + Runs(j)(w) {
      SumUpdate(ws, i, w, Runs(j));
    }
  }

  // A signal moves nothing but one waiter, if there is one.
  lemma SignalKeeps(a: Pool, ws: seq<Worker>)
    requires Awake(a) && Signals(a, ws)
    ensures |ws| == |a.workers|
    ensures Sum(ws, SlowOne) == Sum(a.workers, SlowOne) && Sum(ws, IdleOne) == Sum(a.workers, IdleOne)
    ensures forall j :: Sum(ws, Runs(j)) == Sum(a.workers, Runs(j))
    ensures Sum(ws, WaitingOne) == 0 || Sum(ws, AwakeOne) == Sum(a.workers, AwakeOne) + 1
    ensures Sum(ws, WaitingOne) > 0 ==> Sum(a.workers, WaitingOne) > 0
    ensures forall i ::
      0 <= i < |ws| ==> if a.workers[i].Waiting? then ws[i].Waiting? || ws[i].Woken? else ws[i] == a.workers[i]
  {
    hide Sum;
    if exists i :: 0 <= i < |a.workers| && a.workers[i].Waiting? {
      SumZero(a.workers, IdleOne);
      SumZero(a.workers, WaitingOne);
      var i :| 0 <= i < |a.workers| && a.workers[i].Waiting? && ws == a.workers[i := Woken];
      WorkerChange(a.workers, i, Woken);
    } else {
      SumZero(a.workers, WaitingOne);
    }
  }

  lemma SubmitKeeps(a: Pool, j: Job, kind: Kind, b: Pool)
    requires Inv(a) && Submit(a, j, kind, b)
    ensures Inv(b)
  {
    hide Sum, Signals, InLoop;
    SumZero(a.wq, MessageOne);
    if !(kind == SlowIo && SlowMessage in a.wq) {
      var item := if kind == SlowIo then SlowMessage else Work(j);
      SignalKeeps(a, b.workers);
      SumConcat(a.wq, [item], MessageOne);
      SumOne(item, MessageOne);
    }
    forall o ensures Places(b, o) == if o in b.submitted then 1 else 0 {
      SubmitPlaces(a, j, kind, b, o);
    }
  }

  lemma SubmitPlaces(a: Pool, j: Job, kind: Kind, b: Pool, o: Job)
    requires Conserved(a) && Awake(a) && Submit(a, j, kind, b)
    ensures Places(b, o) == Places(a, o) + if o == j then 1 else 0
  {
    hide Sum, Signals, InLoop;
    SumConcat(a.slowPending, [j], Is(o));
    SumOne(j, Is(o));
    if !(kind == SlowIo && SlowMessage in a.wq) {
      var item := if kind == SlowIo then SlowMessage else Work(j);
      SignalKeeps(a, b.workers);
      SumConcat(a.wq, [item], Asks(o));
      SumOne(item, Asks(o));
    }
  }

  // Steps that move one worker and leave jobs where they are.
  lemma SpuriousKeeps(a: Pool, i: nat, b: Pool)
    requires Inv(a) && Spurious(a, i, b)
    ensures Inv(b)
  {
    hide Sum, InLoop;
    WorkerChange(a.workers, i, Woken);
    SamePlaces(a, b);
  }

  lemma SamePlaces(a: Pool, b: Pool)
    requires Conserved(a) && b.submitted == a.submitted
    requires forall j :: Places(b, j) == Places(a, j)
    ensures Conserved(b)
  {
  }

  lemma AcquireKeeps(a: Pool, i: nat, b: Pool)
    requires Inv(a) && Acquire(a, i, b)
    ensures Inv(b)
  {
    hide Sum, InLoop;
    WorkerChange(a.workers, i, Ready);
    assert b.workers == a.workers[i := Ready];
    SamePlaces(a, b);
  }

  lemma WaitKeeps(a: Pool, i: nat, b: Pool)
    requires Inv(a) && Wait(a, i, b)
    ensures Inv(b)
  {
    hide Sum, InLoop;
    WorkerChange(a.workers, i, Waiting);
    SumZero(a.wq, MessageOne);
    SumOne(SlowMessage, MessageOne);
    SamePlaces(a, b);
  }

  lemma RotateKeeps(a: Pool, i: nat, b: Pool)
    requires Inv(a) && Rotate(a, i, b)
    ensures Inv(b)
  {
    hide Sum, InLoop;
    SumFirst(a.wq, MessageOne);
    SumConcat(a.wq[1..], [SlowMessage], MessageOne);
    SumOne(SlowMessage, MessageOne);
    forall j ensures Places(b, j) == Places(a, j) {
      SumFirst(a.wq, Asks(j));
      SumConcat(a.wq[1..], [SlowMessage], Asks(j));
      SumOne(SlowMessage, Asks(j));
    }
    SamePlaces(a, b);
  }

  lemma DropKeeps(a: Pool, i: nat, b: Pool)
    requires Inv(a) && DropMessage(a, i, b)
    ensures Inv(b)
  {
    hide Sum, InLoop;
    SumFirst(a.wq, MessageOne);
    forall j ensures Places(b, j) == Places(a, j) {
      SumFirst(a.wq, Asks(j));
    }
    SamePlaces(a, b);
  }

  lemma RelockKeeps(a: Pool, i: nat, b: Pool)
    requires Inv(a) && Relock(a, i, b)
    ensures Inv(b)
  {
    hide Sum, InLoop;
    WorkerChange(a.workers, i, Ready);
    SamePlaces(a, b);
  }

  // Taking a job off the front of wq or of the slow queue starts it, for the first time.
  lemma TakeFastKeeps(a: Pool, i: nat, b: Pool)
    requires Inv(a) && TakeFast(a, i, b)
    ensures Inv(b) && a.wq[0].job !in a.started
  {
    hide Sum, InLoop;
    var j := a.wq[0].job;
    WorkerChange(a.workers, i, Running(j, false));
    SumFirst(a.wq, MessageOne);
    forall o ensures Places(b, o) == Places(a, o) {
      SumFirst(a.wq, Asks(o));
    }
    SamePlaces(a, b);
    PlaceOfWork(a, j);
    SumZero(a.slowPending, Is(j));
    StartHistory(a, j, b);
  }

  // A job about to be started is nowhere else, so starting it changes no one else's history.
  lemma StartHistory(a: Pool, j: Job, b: Pool)
    requires History(a) && b.started == a.started + {j} && j in a.submitted && b.submitted == a.submitted
    requires b.loops == a.loops && b.done == a.done && |b.workers| == |a.workers|
    requires Sum(a.loops, InLoop(j)) == 0 && Sum(a.done, Reports(j)) == 0
    requires forall i :: 0 <= i < |b.wq| && b.wq[i].Work? ==> b.wq[i] in a.wq && b.wq[i].job != j
    requires forall i :: 0 <= i < |b.slowPending| ==> b.slowPending[i] in a.slowPending && b.slowPending[i] != j
    requires forall i ::
      0 <= i < |b.workers| && b.workers[i].Running? ==> b.workers[i].job == j || b.workers[i] == a.workers[i]
    ensures History(b)
  {
    hide Sum;
    SumZero(a.loops, InLoop(j));
    SumZero(a.done, Reports(j));
    forall l | 0 <= l < |a.loops| ensures LoopHistory(b, b.loops[l]) {
      var loop := a.loops[l];
      assert InLoop(j)(loop) == 0;
      SumZero(loop.queue, Reports(j));
      SumZero(loop.local, Reports(j));
      SumZero(loop.cancelling, Is(j));
    }
  }

  // A job asked for in wq is there once and nowhere else.
  lemma PlaceOfWork(a: Pool, j: Job)
    requires Conserved(a) && Work(j) in a.wq
    ensures j in a.submitted && Sum(a.slowPending, Is(j)) == 0 && Sum(a.workers, Runs(j)) == 0
    ensures Sum(a.loops, InLoop(j)) == 0 && Sum(a.done, Reports(j)) == 0
    ensures forall i, k :: 0 <= i < k < |a.wq| ==> a.wq[i] != Work(j) || a.wq[k] != Work(j)
  {
    hide Sum;
    assert Places(a, j) <= 1;
    var i :| 0 <= i < |a.wq| && a.wq[i] == Work(j);
    SumAt(a.wq, i, Asks(j));
    forall m, k | 0 <= m < k < |a.wq| ensures a.wq[m] != Work(j) || a.wq[k] != Work(j) {
      SumTwo(a.wq, m, k, Asks(j));
    }
  }

  lemma PlaceOfSlow(a: Pool, j: Job)
    requires Conserved(a) && j in a.slowPending
    ensures j in a.submitted && Sum(a.wq, Asks(j)) == 0 && Sum(a.workers, Runs(j)) == 0
    ensures Sum(a.loops, InLoop(j)) == 0 && Sum(a.done, Reports(j)) == 0
    ensures forall i, k :: 0 <= i < k < |a.slowPending| ==> a.slowPending[i] != j || a.slowPending[k] != j
  {
    hide Sum;
    assert Places(a, j) <= 1;
    var i :| 0 <= i < |a.slowPending| && a.slowPending[i] == j;
    SumAt(a.slowPending, i, Is(j));
    forall m, k | 0 <= m < k < |a.slowPending| ensures a.slowPending[m] != j || a.slowPending[k] != j {
      SumTwo(a.slowPending, m, k, Is(j));
    }
  }

  lemma SumTwo<T>(s: seq<T>, i: nat, k: nat, f: T -> nat)
    requires i < k < |s|
    ensures Sum(s, f) >= f(s[i]) + f(s[k])
  {
    hide Sum;
    SumAt(s, k, f);
    var t := s[..k] + s[k + 1..];
    assert t[i] == s[i];
    SumAt(t, i, f);
  }

  lemma TakeSlowKeeps(a: Pool, i: nat, b: Pool)
    requires Inv(a) && TakeSlow(a, i, b)
    ensures Inv(b) && a.slowPending[0] !in a.started
  {
    hide Sum, InLoop, Signals;
    var j, more := a.slowPending[0], |a.slowPending| > 1;
    var ws :| TakesSlow(a, i, ws, b);
    if more {
      SignalKeeps(a, ws);
    }
    WorkerChange(ws, i, Running(j, true));
    SumFirst(a.wq, MessageOne);
    SumConcat(a.wq[1..], [SlowMessage], MessageOne);
    SumOne(SlowMessage, MessageOne);
    TakeSlowPlaces(a, i, ws, b);
    SamePlaces(a, b);
    PlaceOfSlow(a, j);
    SumZero(a.wq, Asks(j));
    StartHistory(a, j, b);
  }

  lemma TakeSlowPlaces(a: Pool, i: nat, ws: seq<Worker>, b: Pool)
    requires Awake(a) && i < |a.workers| && a.wq != [] && a.wq[0].SlowMessage? && a.slowPending != []
    requires TakesSlow(a, i, ws, b) && a.workers[i].Ready?
    ensures forall o :: Places(b, o) == Places(a, o)
  {
    hide Sum, InLoop, Signals;
    if |a.slowPending| > 1 {
      SignalKeeps(a, ws);
    }
    WorkerChange(ws, i, Running(a.slowPending[0], true));
    forall o ensures Places(b, o) == Places(a, o) {
      SumFirst(a.wq, Asks(o));
      SumConcat(a.wq[1..], [SlowMessage], Asks(o));
      SumOne(SlowMessage, Asks(o));
      SumFirst(a.slowPending, Is(o));
    }
  }

  // Moving a job into, within or out of one loop's lists.
  lemma LoopChange(a: Pool, h: nat, l: Loop)
    requires h < |a.loops|
    ensures forall j ::
      Sum(a.loops[h := l], InLoop(j)) + InLoop(j)(a.loops[h]) == Sum(a.loops, InLoop(j)) + InLoop(j)(l)
  {
    hide InLoop;
    forall j ensures Sum(a.loops[h := l], InLoop(j)) + InLoop(j)(a.loops[h]) == Sum(a.loops, InLoop(j)) + InLoop(j)(l) {
      SumUpdate(a.loops, h, l, InLoop(j));
    }
  }

  lemma PostBackKeeps(a: Pool, i: nat, b: Pool)
    requires Inv(a) && PostBack(a, i, b)
    ensures Inv(b)
  {
    hide Sum;
    var j := a.workers[i].job;
    var l := a.loops[j.home];
    var m := l.(queue := l.queue + [Finished(j, false)]);
    WorkerChange(a.workers, i, Posted(a.workers[i].slow));
    LoopChange(a, j.home, m);
    forall o ensures Places(b, o) == Places(a, o) {
      SumConcat(l.queue, [Finished(j, false)], Reports(o));
      SumOne(Finished(j, false), Reports(o));
    }
    SamePlaces(a, b);
  }

  lemma CancelPostKeeps(a: Pool, h: nat, b: Pool)
    requires Inv(a) && CancelPost(a, h, b)
    ensures Inv(b)
  {
    hide Sum;
    var l := a.loops[h];
    var j := l.cancelling[0];
    var m := l.(queue := l.queue + [Finished(j, true)], cancelling := []);
    LoopChange(a, h, m);
    forall o ensures Places(b, o) == Places(a, o) {
      SumConcat(l.queue, [Finished(j, true)], Reports(o));
      SumOne(Finished(j, true), Reports(o));
      assert l.cancelling == [j];
      SumOne(j, Is(o));
      SumZero([], Is(o));
    }
    SamePlaces(a, b);
  }

  lemma CollectKeeps(a: Pool, h: nat, b: Pool)
    requires Inv(a) && Collect(a, h, b)
    ensures Inv(b)
  {
    hide Sum;
    var l := a.loops[h];
    LoopChange(a, h, l.(queue := [], local := l.queue));
    SamePlaces(a, b);
  }

  lemma CallBackKeeps(a: Pool, h: nat, b: Pool)
    requires Inv(a) && CallBack(a, h, b)
    ensures Inv(b)
  {
    hide Sum;
    var l := a.loops[h];
    LoopChange(a, h, l.(local := l.local[1..]));
    forall o ensures Places(b, o) == Places(a, o) {
      SumFirst(l.local, Reports(o));
      SumConcat(a.done, [l.local[0]], Reports(o));
      SumOne(l.local[0], Reports(o));
    }
    SamePlaces(a, b);
  }

  // Taking a job out of a queue to cancel it.
  lemma CancelKeeps(a: Pool, j: Job, b: Pool)
    requires Inv(a) && Cancel(a, j, b)
    ensures Inv(b)
  {
    hide Inv, CancelQueued, CancelLocal, CancelFast, CancelSlow;
    if CancelFast(a, j, b) {
      CancelFastKeeps(a, j, b);
    } else if CancelSlow(a, j, b) {
      CancelSlowKeeps(a, j, b);
    } else if k :| CancelQueued(a, j, k, b) {
      CancelQueuedKeeps(a, j, k, b);
    } else {
      var k :| CancelLocal(a, j, k, b);
      CancelLocalKeeps(a, j, k, b);
    }
  }

  lemma CancelFastKeeps(a: Pool, j: Job, b: Pool)
    requires Inv(a) && a.holder == FREE && j.home < |a.loops| && a.loops[j.home].cancelling == [] && CancelFast(a, j, b)
    ensures Inv(b)
  {
    hide Sum, InLoop;
    var l := a.loops[j.home];
    var k :| 0 <= k < |a.wq| && a.wq[k] == Work(j)
      && b == a.(wq := a.wq[..k] + a.wq[k + 1..], loops := a.loops[j.home := l.(cancelling := [j])]);
    SumAt(a.wq, k, MessageOne);
    LoopChange(a, j.home, l.(cancelling := [j]));
    forall o ensures Places(b, o) == Places(a, o) {
      SumAt(a.wq, k, Asks(o));
      NowCancelling(l, j, o);
    }
    SamePlaces(a, b);
  }

  lemma NowCancelling(l: Loop, j: Job, o: Job)
    requires l.cancelling == []
    ensures InLoop(o)(l.(cancelling := [j])) == InLoop(o)(l) + if o == j then 1 else 0
  {
    hide Sum;
    SumOne(j, Is(o));
    SumZero([], Is(o));
  }

  lemma CancelSlowKeeps(a: Pool, j: Job, b: Pool)
    requires Inv(a) && a.holder == FREE && j.home < |a.loops| && a.loops[j.home].cancelling == [] && CancelSlow(a, j, b)
    ensures Inv(b)
  {
    hide Sum, InLoop;
    var l := a.loops[j.home];
    var k :| 0 <= k < |a.slowPending| && a.slowPending[k] == j
      && b == a.(slowPending := a.slowPending[..k] + a.slowPending[k + 1..],
                 loops := a.loops[j.home := l.(cancelling := [j])]);
    LoopChange(a, j.home, l.(cancelling := [j]));
    forall o ensures Places(b, o) == Places(a, o) {
      SumAt(a.slowPending, k, Is(o));
      NowCancelling(l, j, o);
    }
    SamePlaces(a, b);
  }

  lemma CancelQueuedKeeps(a: Pool, j: Job, k: nat, b: Pool)
    requires Inv(a) && j.home < |a.loops| && a.loops[j.home].cancelling == [] && CancelQueued(a, j, k, b)
    ensures Inv(b)
  {
    hide Sum;
    var l := a.loops[j.home];
    LoopChange(a, j.home, b.loops[j.home]);
    forall o ensures Places(b, o) == Places(a, o) {
      SumAt(l.queue, k, Reports(o));
      SumOne(j, Is(o));
      SumZero([], Is(o));
    }
    SamePlaces(a, b);
  }

  lemma CancelLocalKeeps(a: Pool, j: Job, k: nat, b: Pool)
    requires Inv(a) && j.home < |a.loops| && a.loops[j.home].cancelling == [] && CancelLocal(a, j, k, b)
    ensures Inv(b)
  {
    hide Sum;
    var l := a.loops[j.home];
    LoopChange(a, j.home, b.loops[j.home]);
    forall o ensures Places(b, o) == Places(a, o) {
      SumAt(l.local, k, Reports(o));
      SumOne(j, Is(o));
      SumZero([], Is(o));
    }
    SamePlaces(a, b);
  }

  lemma WorkerKeeps(a: Pool, i: nat, b: Pool)
    requires Inv(a) && WorkerStep(a, i, b)
    ensures Inv(b)
  {
    hide Inv, Spurious, Acquire, Wait, TakeFast, Rotate, DropMessage, TakeSlow, PostBack, Relock;
    if Spurious(a, i, b) {
      SpuriousKeeps(a, i, b);
    } else if Acquire(a, i, b) {
      AcquireKeeps(a, i, b);
    } else if Wait(a, i, b) {
      WaitKeeps(a, i, b);
    } else if TakeFast(a, i, b) {
      TakeFastKeeps(a, i, b);
    } else if Rotate(a, i, b) {
      RotateKeeps(a, i, b);
    } else if DropMessage(a, i, b) {
      DropKeeps(a, i, b);
    } else if TakeSlow(a, i, b) {
      TakeSlowKeeps(a, i, b);
    } else if PostBack(a, i, b) {
      PostBackKeeps(a, i, b);
    } else {
      RelockKeeps(a, i, b);
    }
  }

  lemma StepKeeps(a: Pool, b: Pool)
    requires Inv(a) && Step(a, b)
    ensures Inv(b)
  {
    hide Inv, Submit, WorkerStep, Cancel, CancelPost, Collect, CallBack;
    if j, kind :| Submit(a, j, kind, b) {
      SubmitKeeps(a, j, kind, b);
    } else if i :| WorkerStep(a, i, b) {
      WorkerKeeps(a, i, b);
    } else if j :| Cancel(a, j, b) {
      CancelKeeps(a, j, b);
    } else {
      var h :| CancelPost(a, h, b) || Collect(a, h, b) || CallBack(a, h, b);
      if CancelPost(a, h, b) {
        CancelPostKeeps(a, h, b);
      } else if Collect(a, h, b) {
        CollectKeeps(a, h, b);
      } else {
        CallBackKeeps(a, h, b);
      }
    }
  }

  // ---- Whole runs ----

  // nthreads workers at the top of their loops and nothing submitted.
  ghost predicate Initial(p: Pool, nthreads: nat) {
    nthreads > 0 && |p.workers| == nthreads && (forall i :: 0 <= i < nthreads ==> p.workers[i].Ready?)
    && p.holder == FREE && p.wq == [] && p.slowPending == [] && p.idleThreads == 0 && p.slowRunning == 0
    && (forall h :: 0 <= h < |p.loops| ==> p.loops[h] == Loop([], [], []))
    && p.submitted == {} && p.started == {} && p.done == []
  }

  lemma InitialInv(p: Pool, nthreads: nat)
    requires Initial(p, nthreads)
    ensures Inv(p)
  {
    hide Sum;
    SumZero(p.workers, SlowOne);
    SumZero(p.workers, IdleOne);
    SumZero(p.workers, WaitingOne);
    SumZero(p.wq, MessageOne);
    forall j ensures Places(p, j) == 0 {
      SumZero(p.wq, Asks(j));
      SumZero(p.slowPending, Is(j));
      SumZero(p.workers, Runs(j));
      SumZero(p.done, Reports(j));
      SumZero([], Reports(j));
      SumZero([], Is(j));
      SumZero(p.loops, InLoop(j));
    }
  }

  ghost predicate Run(trace: seq<Pool>, nthreads: nat) {
    trace != [] && Initial(trace[0], nthreads) && forall i :: 0 <= i < |trace| - 1 ==> Step(trace[i], trace[i + 1])
  }

  lemma {:induction false} RunKeeps(trace: seq<Pool>, nthreads: nat, i: nat)
    requires Run(trace, nthreads) && i < |trace|
    ensures Inv(trace[i]) && |trace[i].workers| == nthreads
  {
    hide Inv, Step;
    if i == 0 {
      InitialInv(trace[0], nthreads);
    } else {
      RunKeeps(trace, nthreads, i - 1);
      assert Step(trace[i - 1], trace[i]);
      StepKeeps(trace[i - 1], trace[i]);
      SameWorkers(trace[i - 1], trace[i]);
    }
  }

  lemma SameWorkers(a: Pool, b: Pool)
    requires Step(a, b)
    ensures |b.workers| == |a.workers|
  {
  }

  // In every interleaving at most half of the threads, rounded up, run slow jobs, and slow jobs
  // waiting are never forgotten.
  lemma SlowBounded(trace: seq<Pool>, nthreads: nat, i: nat)
    requires Run(trace, nthreads) && i < |trace|
    ensures Sum(trace[i].workers, SlowOne) <= (nthreads + 1) / 2
    ensures trace[i].slowPending != [] ==> SlowMessage in trace[i].wq
  {
    hide Sum;
    RunKeeps(trace, nthreads, i);
    SumZero(trace[i].wq, MessageOne);
  }

  // In every interleaving a submitted job is in exactly one place, its callback is made at most once,
  // and it is told "cancelled" exactly when its work was never called.
  lemma JobsAccountedFor(trace: seq<Pool>, nthreads: nat, i: nat, j: Job)
    requires Run(trace, nthreads) && i < |trace|
    ensures Places(trace[i], j) == if j in trace[i].submitted then 1 else 0
    ensures forall m, n :: 0 <= m < n < |trace[i].done| ==> trace[i].done[m].job != j || trace[i].done[n].job != j
    ensures forall m :: 0 <= m < |trace[i].done| && trace[i].done[m].job == j ==>
      (trace[i].done[m].cancelled <==> j !in trace[i].started)
  {
    hide Sum;
    RunKeeps(trace, nthreads, i);
    assert Places(trace[i], j) <= 1;
    forall m, n | 0 <= m < n < |trace[i].done| ensures trace[i].done[m].job != j || trace[i].done[n].job != j {
      SumTwo(trace[i].done, m, n, Reports(j));
    }
  }

  // No lost wake-up: if every worker sleeps unsignalled, no job is waiting for one.
  lemma NeverStalls(trace: seq<Pool>, nthreads: nat, i: nat)
    requires Run(trace, nthreads) && i < |trace|
    requires forall k :: 0 <= k < |trace[i].workers| ==> trace[i].workers[k].Waiting?
    ensures trace[i].wq == [] && trace[i].slowPending == []
  {
    hide Sum;
    var p := trace[i];
    RunKeeps(trace, nthreads, i);
    SumZero(p.workers, AwakeOne);
    SumZero(p.workers, WaitingOne);
    SumZero(p.workers, SlowOne);
    assert p.workers[0].Waiting?;
    SumZero(p.wq, MessageOne);
  }

  // Slow jobs are held back no longer than the bound asks: a worker that goes to sleep over one leaves
  // exactly half of the threads, rounded up, in slow work.
  lemma HeldBackAtHalf(trace: seq<Pool>, nthreads: nat, i: nat, w: nat)
    requires Run(trace, nthreads) && i + 1 < |trace| && Wait(trace[i], w, trace[i + 1])
    ensures |trace[i].wq| <= 1 && forall j :: Work(j) !in trace[i].wq
    ensures trace[i].slowPending != [] ==> Sum(trace[i].workers, SlowOne) == (nthreads + 1) / 2
  {
    hide Sum;
    RunKeeps(trace, nthreads, i);
    SumZero(trace[i].wq, MessageOne);
  }

  // A job's work is called when a worker takes it, and only if it has never been called before.
  lemma StartedOnce(a: Pool, b: Pool, i: nat)
    requires Inv(a) && (TakeFast(a, i, b) || TakeSlow(a, i, b))
    ensures i < |b.workers| && b.workers[i].Running?
    ensures b.workers[i].job !in a.started && b.started == a.started + {b.workers[i].job}
  {
    hide Inv;
    if TakeFast(a, i, b) {
      TakeFastKeeps(a, i, b);
    } else {
      TakeSlowKeeps(a, i, b);
    }
  }

  lemma NothingElseStarts(a: Pool, b: Pool)
    requires Step(a, b)
    ensures b.started == a.started || exists i: nat :: TakeFast(a, i, b) || TakeSlow(a, i, b)
  {
    if i :| WorkerStep(a, i, b) {
      assert b.started == a.started || TakeFast(a, i, b) || TakeSlow(a, i, b);
    }
  }
}
