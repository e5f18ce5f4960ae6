// Timers of an event loop (libuv src/timer.c).

module Timers {
  import opened PointerHeap

  const MAX64: nat := 0xffff_ffff_ffff_ffff

  const MAX_INT: nat := 0x7fff_ffff

  // Loop time plus a timeout, held at the top of 64 bits.
  function Clamped(time: nat, timeout: nat): (r: nat)
    requires time <= MAX64 && timeout <= MAX64
    ensures r == if time + timeout > MAX64 then MAX64 else time + timeout
  {
    var sum := (time + timeout) % (MAX64 + 1);
    if sum < timeout then MAX64 else sum
  }

  // What fired is in order of its keys, and before all that is still due.
  ghost predicate InOrder(fired: seq<Node>, due: set<Node>, keys: map<Node, Key>) {
    due <= keys.Keys && (forall i :: 0 <= i < |fired| ==> fired[i] in keys)
    && (forall i, j :: 0 <= i < j < |fired| ==> Less(keys[fired[i]], keys[fired[j]]))
    && forall i, n :: 0 <= i < |fired| && n in due ==> Less(keys[fired[i]], keys[n])
  }

  lemma OrderStart(due: set<Node>, keys: map<Node, Key>)
    requires due <= keys.Keys
    ensures InOrder([], due, keys)
  {
  }

  lemma OrderEnd(fired: seq<Node>, due: set<Node>, keys: map<Node, Key>)
    requires InOrder(fired, due, keys)
    ensures forall i :: 0 <= i < |fired| ==> fired[i] in keys
    ensures forall i, j :: 0 <= i < j < |fired| ==> Less(keys[fired[i]], keys[fired[j]])
  {
  }

  // Firing a least due timer keeps the order.
  lemma OrderNext(fired: seq<Node>, due: set<Node>, keys: map<Node, Key>, h: Node)
    requires InOrder(fired, due, keys) && h in due
    requires forall n :: n in due && n != h ==> !Less(keys[n], keys[h]) && keys[n].startId != keys[h].startId
    ensures InOrder(fired + [h], due - {h}, keys)
  {
  }

  class TimerLoop {
    const heap: Heap
    var time: nat
    var timerCounter: nat

    // The heap holds active timers, each with a start id of its own.
    ghost predicate Ok()
      reads this, heap, heap.slots, heap.nodes
    {
      heap.Valid() && time <= MAX64
      && (forall n ::
        n in heap.nodes ==> n.active && n.hasCallback && n.key.startId < timerCounter && n.repeat <= MAX64)
      && forall m, n :: m in heap.nodes && n in heap.nodes && m.key.startId == n.key.startId ==> m == n
    }

    // The handle's own view agrees with the heap.
    ghost predicate Knows(h: Node)
      reads h, heap
    {
      (h.active <==> h in heap.nodes) && h.repeat <= MAX64
    }

    constructor (now: nat)
      requires now <= MAX64
      ensures Ok() && fresh(heap) && heap.nodes == {} && time == now
    {
      heap := new Heap();
      time, timerCounter := now, 0;
    }

    // uv_timer_start; false is UV_EINVAL.
    method Start(handle: Node, hasCallback: bool, timeout: nat, repeat: nat) returns (ok: bool)
      requires Ok() && Knows(handle) && timeout <= MAX64 && repeat <= MAX64
      modifies this`timerCounter, heap, handle, heap.nodes`left, heap.nodes`right, heap.nodes`parent
      ensures Ok() && Knows(handle) && ok == (hasCallback && !old(handle.closing))
      ensures !ok ==>
        heap.nodes == old(heap.nodes) && handle.key == old(handle.key) && handle.repeat == old(handle.repeat)
      ensures !ok ==> handle.hasCallback == old(handle.hasCallback) && handle.closing == old(handle.closing)
      ensures !ok ==> timerCounter == old(timerCounter)
      ensures ok ==> heap.nodes == old(heap.nodes) + {handle}
      ensures ok ==> handle.key == Key(Clamped(time, timeout), old(timerCounter)) && handle.repeat == repeat
      ensures ok ==>
        handle.hasCallback && handle.closing == old(handle.closing) && timerCounter == old(timerCounter) + 1
    {
      hide Heap.Shape, Heap.Valid;
      if handle.closing || !hasCallback {
        return false;
      }
      if handle.active {
        Stop(handle);
      }
      var clamped := (time + timeout) % (MAX64 + 1);
      if clamped < timeout {
        clamped := MAX64;
      }
      Arm(handle, clamped, repeat);
      ok := true;
    }

    // The tail of uv_timer_start: a fresh start id, then into the heap.
    method Arm(handle: Node, timeout: nat, repeat: nat)
      requires Ok() && handle !in heap.nodes && repeat <= MAX64
      modifies this`timerCounter, heap, handle, heap.nodes`left, heap.nodes`right, heap.nodes`parent
      ensures Ok() && handle.active && heap.nodes == old(heap.nodes) + {handle}
      ensures handle.key == Key(timeout, old(timerCounter)) && handle.repeat == repeat
      ensures handle.hasCallback && handle.closing == old(handle.closing) && timerCounter == old(timerCounter) + 1
    {
      hide Heap.Shape, Heap.Valid;
      heap.InSlots();
      handle.hasCallback := true;
      handle.key := Key(timeout, timerCounter);
      handle.repeat := repeat;
      timerCounter := timerCounter + 1;
      heap.Insert(handle);
      handle.active := true;
    }

    // uv_timer_stop
    method Stop(handle: Node)
      requires Ok() && Knows(handle)
      modifies heap, handle`active, heap.nodes`left, heap.nodes`right, heap.nodes`parent
      ensures Ok() && Knows(handle) && !handle.active && heap.nodes == old(heap.nodes) - {handle}
    {
      if !handle.active {
        return;
      }
      heap.Remove(handle);
      handle.active := false;
    }

    // uv_timer_again; false is UV_EINVAL.
    method Again(handle: Node) returns (ok: bool)
      requires Ok() && Knows(handle)
      modifies this`timerCounter, heap, handle, heap.nodes`left, heap.nodes`right, heap.nodes`parent
      ensures Ok() && Knows(handle) && ok == old(handle.hasCallback)
      ensures handle.hasCallback == old(handle.hasCallback) && handle.closing == old(handle.closing)
      ensures handle.repeat == old(handle.repeat)
      ensures var rearmed := old(handle.hasCallback && handle.repeat > 0 && !handle.closing);
        if rearmed then
          heap.nodes == old(heap.nodes) + {handle} && timerCounter == old(timerCounter) + 1
          && handle.key == Key(Clamped(time, handle.repeat), old(timerCounter))
        else
          handle.key == old(handle.key) && timerCounter == old(timerCounter)
          && heap.nodes == if old(handle.hasCallback && handle.repeat > 0) then old(heap.nodes) - {handle}
            else old(heap.nodes)
    {
      hide Heap.Shape, Heap.Valid;
      if !handle.hasCallback {
        return false;
      }
      if handle.repeat != 0 {
        Stop(handle);
        var _ := Start(handle, true, handle.repeat, handle.repeat);
      }
      ok := true;
    }

    // uv__next_timeout: how long the loop may sleep.
    method NextTimeout() returns (r: int)
      requires Ok()
      ensures r == -1 <==> heap.nodes == {}
      ensures r == 0 <==> exists n :: n in heap.nodes && n.key.timeout <= time
      ensures r > 0 ==> forall n :: n in heap.nodes ==> n.key.timeout - time >= r
      ensures r > 0 ==> r == 0x7fff_ffff || exists n :: n in heap.nodes && n.key.timeout - time == r
    {
      hide Heap.Shape, Heap.Valid;
      heap.MinLeast();
      var handle := heap.min;
      if handle == null {
        return -1;
      }
      if handle.key.timeout <= time {
        return 0;
      }
      var diff := handle.key.timeout - time;
      if diff > MAX_INT {
        diff := MAX_INT;
      }
      r := diff;
    }

    // The timers due now.
    ghost function Due(): set<Node>
      reads this, heap, heap.nodes
    {
      set n | n in heap.nodes && n.key.timeout <= time
    }

    // uv__run_timers, for callbacks that leave timers alone: which handles fired, in order.
    method RunTimers() returns (fired: seq<Node>)
      requires Ok() && time < MAX64 && forall n :: n in heap.nodes ==> !n.closing
      modifies this`timerCounter, heap, heap.nodes
      ensures Ok() && Due() == {}
      ensures forall n :: n in fired <==> n in old(Due())
      ensures forall i, j ::
        0 <= i < j < |fired| && fired[i] in old(Due()) && fired[j] in old(Due()) ==>
        old(fired[i].key.timeout) < old(fired[j].key.timeout)
        || (old(fired[i].key.timeout) == old(fired[j].key.timeout)
            && old(fired[i].key.startId) < old(fired[j].key.startId))
      ensures heap.nodes == old(heap.nodes) - (set n | n in old(Due()) && old(n.repeat) == 0)
      ensures forall n :: n in heap.nodes && n !in old(Due()) ==> n.key == old(n.key)
      ensures forall n :: n in heap.nodes && n in old(Due()) ==> n.key.timeout == Clamped(time, old(n.repeat)) > time
      ensures forall n :: n in old(heap.nodes) ==> n.active == (n in heap.nodes) && n.repeat == old(n.repeat)
    {
      hide Heap.Shape, Heap.Valid, InOrder, TimerLoop.Progress, TimerLoop.Due, TimerLoop.Ok, Clamped;
      fired := [];
      ghost var start, first := heap.nodes, Due();
      ghost var due := first;
      ghost var was := map n: Node | n in start :: n.key;
      ghost var repeats := map n: Node | n in start :: n.repeat;
      ProgressStart(start, due, was, repeats);
      OrderStart(due, was);
      while true
        invariant Ok() && heap.nodes <= start && Progress(start, first, due, was, repeats)
        invariant forall n :: n in fired <==> n in first && n !in due
        invariant InOrder(fired, due, was)
        decreases due
      {
        LeastTimer();
        var handle := heap.min;
        if handle == null || handle.key.timeout > time {
          NoneDue();
          break;
        }
        LeastDue(start, first, due, was, repeats, handle);
        OrderNext(fired, due, was, handle);
        FireDue(handle, start, first, due, was, repeats);
        fired := fired + [handle];
        due := due - {handle};
      }
      ProgressEnd(start, first, due, was, repeats);
      OrderEnd(fired, due, was);
    }

    lemma ProgressStart(start: set<Node>, first: set<Node>, was: map<Node, Key>, repeats: map<Node, nat>)
      requires Ok() && start == heap.nodes && first == Due() && was.Keys == start == repeats.Keys
      requires forall n :: n in start ==> was[n] == n.key && repeats[n] == n.repeat && !n.closing
      ensures Progress(start, first, first, was, repeats) && first <= start
    {
      hide Heap.Shape, Heap.Valid;
    }

    lemma LeastTimer()
      requires Ok()
      ensures heap.min == null <==> heap.nodes == {}
      ensures heap.min != null ==> heap.min in heap.nodes && forall n :: n in heap.nodes ==> !Less(n.key, heap.min.key)
    {
      heap.MinLeast();
    }

    lemma NoneDue()
      requires Ok() && (heap.min != null ==> heap.min.key.timeout > time)
      ensures Due() == {}
    {
      LeastTimer();
    }

    lemma ProgressEnd(start: set<Node>, first: set<Node>, due: set<Node>, was: map<Node, Key>, repeats: map<Node, nat>)
      requires Progress(start, first, due, was, repeats) && Due() == {} && was.Keys == start == repeats.Keys
      ensures due == {} && first <= start && time <= MAX64 && forall n :: n in start ==> repeats[n] <= MAX64
      ensures heap.nodes == start - (set n | n in first && repeats[n] == 0)
      ensures forall n :: n in heap.nodes && n !in first ==> n.key == was[n]
      ensures forall n :: n in heap.nodes && n in first ==> n.key.timeout == Clamped(time, repeats[n]) > time
      ensures forall n :: n in start ==> n.active == (n in heap.nodes) && n.repeat == repeats[n]
    {
    }

    // Which timers have fired (first - due), and what has become of all.
    ghost predicate Progress(start: set<Node>, first: set<Node>, due: set<Node>, was: map<Node, Key>,
                             repeats: map<Node, nat>)
      reads this, heap, heap.nodes, start
    {
      was.Keys == start == repeats.Keys && due == Due() && due <= first <= start
      && time <= MAX64 && (forall n :: n in start ==> repeats[n] <= MAX64)
      && heap.nodes == start - (set n | n in first - due && repeats[n] == 0)
      && (forall n :: n in heap.nodes && n !in first - due ==> n.key == was[n])
      && (forall n :: n in heap.nodes && n in first - due ==> n.key.timeout == Clamped(time, repeats[n]) > time)
      && forall n :: n in start ==> n.active == (n in heap.nodes) && n.repeat == repeats[n] && !n.closing
    }

    lemma LeastDue(start: set<Node>, first: set<Node>, due: set<Node>, was: map<Node, Key>, repeats: map<Node, nat>,
                   h: Node)
      requires Ok() && time <= MAX64 && Progress(start, first, due, was, repeats)
      requires h in heap.nodes && h.key.timeout <= time && forall n :: n in heap.nodes ==> !Less(n.key, h.key)
      ensures h in due && forall n :: n in due && n != h ==> !Less(was[n], was[h]) && was[n].startId != was[h].startId
    {
      hide Heap.Shape, Heap.Valid;
    }

    method FireDue(h: Node, ghost start: set<Node>, ghost first: set<Node>, ghost due: set<Node>,
                   ghost was: map<Node, Key>, ghost repeats: map<Node, nat>)
      requires Ok() && time < MAX64 && Progress(start, first, due, was, repeats) && h in due && heap.nodes <= start
      modifies this`timerCounter, heap, h, heap.nodes`left, heap.nodes`right, heap.nodes`parent
      ensures Ok() && Progress(start, first, due - {h}, was, repeats) && heap.nodes <= start
    {
      hide Heap.Shape, Heap.Valid;
      FireOne(h);
    }

    // One turn: stop the timer, re-arm it if it repeats, call back.
    method FireOne(handle: Node)
      requires Ok() && time < MAX64 && handle in heap.nodes && !handle.closing
      modifies this`timerCounter, heap, handle, heap.nodes`left, heap.nodes`right, heap.nodes`parent
      ensures Ok() && handle.repeat == old(handle.repeat) && !handle.closing
      ensures handle.repeat == 0 ==> heap.nodes == old(heap.nodes) - {handle} && !handle.active
      ensures handle.repeat != 0 ==>
        heap.nodes == old(heap.nodes) && handle.active && handle.key.timeout == Clamped(time, handle.repeat) > time
    {
      hide Heap.Shape, Heap.Valid;
      Stop(handle);
      var _ := Again(handle);
    }
  }
}
