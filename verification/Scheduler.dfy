/** The scheduler: a ring of tasks walked by the timer tick. */
module Scheduler {
  import opened Tasks

  class Scheduler {
    var tasks: seq<Task>
    var current: int
    var tail: int
    var nextId: nat
    var started: bool
    const queue: array<nat>
    var count: nat
    var freed: seq<nat>
    var nextRsp: nat
    var cr3: nat

    ghost function View(): Sched
      requires count <= queue.Length
      reads this, queue
    {
      Sched(tasks, current, tail, nextId, started, queue[..count], freed, nextRsp, cr3)
    }

    ghost predicate Sized()
      reads this
    {
      queue.Length == MAX_PENDING && count <= queue.Length
    }

    ghost predicate Valid()
      reads this, queue
    {
      Sized() && Ok(View())
    }

    /** init, in the address space that boot left. */
    constructor (space: nat)
      ensures Valid() && tasks == [] && !started && fresh(queue)
    {
      tasks, current, tail, nextId, started, count, freed, nextRsp, cr3 := [], NULL, NULL, 1, false, 0, [], 0, space;
      queue := new nat[8];
    }

    method ReapTerminated()
      requires Sized() && InRing(queue[..count], |tasks|)
      modifies this`tasks, this`freed, this`count
      ensures Sized() && View() == Reap(old(View()))
    {
      hide Ok;
      ghost var tasks0, freed0 := tasks, freed;
      var i := 0;
      assert queue[..0] == [];
      while i < count
        invariant i <= count == old(count) && |tasks| == |tasks0|
        invariant (tasks, freed) == Reaped(tasks0, freed0, queue[..i])
      {
        var t := queue[i];
        assert queue[..i + 1][..i] == queue[..i] && t == queue[..count][i];
        if tasks[t].stack != 0 { freed := freed + [t]; }
        tasks := tasks[t := tasks[t].(stack := 0)];
        i := i + 1;
      }
      count := 0;
      assert queue[..0] == [];
    }

    /** findNextReady: the first ready task after from, once round the ring. */
    method FindNextReady(from: nat) returns (r: int)
      requires RingOk(tasks, tail, nextId) && from < |tasks|
      ensures var d := ReadyIn(tasks, from, 1); r == if d <= |tasks| then Along(|tasks|, from, d) else NULL
    {
      hide Along;
      var candidate := tasks[from].next;
      var start := candidate;
      ghost var k := 1;
      RoundTrip(|tasks|, from);
      while true
        invariant 1 <= k <= |tasks| && candidate == Along(|tasks|, from, k)
        invariant ReadyIn(tasks, from, 1) == ReadyIn(tasks, from, k)
        decreases |tasks| - k
      {
        if tasks[candidate].state == Ready { return candidate; }
        Onward(|tasks|, from, k);
        candidate := tasks[candidate].next;
        k := k + 1;
        if candidate == start { break; }
      }
      r := NULL;
    }

    /** findTaskById: the task with that id, if there is one. */
    method FindTaskById(id: nat) returns (r: int)
      requires RingOk(tasks, tail, nextId)
      ensures r == if 1 <= id <= |tasks| then id - 1 else NULL
    {
      if tail == NULL { return NULL; }
      var start := tasks[tail].next;
      var candidate := start;
      ghost var k := 0;
      while true
        invariant k == candidate < |tasks| && start == 0 && !(1 <= id <= k)
        decreases |tasks| - k
      {
        if tasks[candidate].id == id { return candidate; }
        candidate := tasks[candidate].next;
        k := k + 1;
        if candidate == start { break; }
      }
      r := NULL;
    }

    /** createTask: stack is the stack just allocated, or 0 when an allocation failed. */
    method CreateTask(stack: nat, rsp: nat, space: nat) returns (r: int)
      requires Valid()
      modifies this`tasks, this`tail, this`nextId
      ensures Valid() && r == if stack == 0 then NULL else |old(tasks)|
      ensures View() == if stack == 0 then old(View()) else Created(old(View()), stack, rsp, space)
    {
      hide Ok;
      if stack == 0 { return NULL; }
      CreatedOk(View(), stack, rsp, space);
      RingOf(View());
      var t := Task(nextId, Ready, stack, rsp, space, 0, NULL, 0);
      nextId := nextId + 1;
      r := |tasks|;
      if tail == NULL {
        tasks := tasks + [t.(next := |tasks|)];
      } else {
        tasks := tasks + [t.(next := tasks[tail].next)];
        tasks := tasks[tail := tasks[tail].(next := r)];
      }
      tail := r;
      assert tasks == Created(old(View()), stack, rsp, space).tasks;
      assert View() == Created(old(View()), stack, rsp, space);
    }

    method Start()
      requires Valid() && tasks != [] && !started
      modifies this`tasks, this`current, this`started, this`nextRsp, this`cr3
      ensures Valid() && View() == Started(old(View()))
    {
      hide Ok;
      StartedOk(View());
      RingOf(View());
      current := tasks[tail].next;
      tasks := tasks[current := tasks[current].(state := Running)];
      started := true;
      cr3 := tasks[current].space;
      nextRsp := tasks[current].rsp;
    }

    /** tick: regs is where the interrupted task's registers were saved. */
    method Tick(regs: nat)
      requires Sized() && (if started then Tickable(View()) else Ok(View()))
      modifies this`tasks, this`current, this`freed, this`count, this`nextRsp, this`cr3
      ensures Valid()
      ensures View() == if old(started) then Ticked(old(View()), regs) else old(View())
      ensures old(started) ==> 0 <= old(current) < |old(tasks)| && Saved(old(tasks), old(current), regs, tasks)
      ensures old(started) ==> 0 <= current < |tasks| && cr3 == tasks[current].space
      ensures old(started) ==> nextRsp == if current == old(current) then regs else old(tasks)[current].rsp
    {
      hide Ok; hide Reap; hide Switched; hide Tickable;
      TickableCurrent(View());
      if !started || current == NULL { return; }
      TickContexts(View(), regs);
      TickedOk(View(), regs);
      ReapTickable(View());
      ReapTerminated();
      Dispatch(regs);
    }

    /** The rest of tick, once the queue is reaped. */
    method Dispatch(regs: nat)
      requires Sized() && Tickable(View())
      modifies this`tasks, this`current, this`nextRsp, this`cr3
      ensures View() == Switched(old(View()), regs)
    {
      hide ReadyIn; hide StacksOk;
      tasks := tasks[current := tasks[current].(rsp := regs)];
      if tasks[current].state == Running { tasks := tasks[current := tasks[current].(state := Ready)]; }
      assert tasks == SteppedBack(old(tasks), current, regs);
      RingSame(old(tasks), tasks, tail, nextId);
      var next := FindNextReady(current);
      if next == NULL {
        nextRsp := tasks[current].rsp;
        tasks := tasks[current := tasks[current].(state := Running)];
        return;
      }
      current := next;
      tasks := tasks[current := tasks[current].(state := Running)];
      nextRsp := tasks[current].rsp;
      cr3 := tasks[current].space;
    }

    method BlockCurrent(regs: nat)
      requires Valid() && started && tasks[current].state == Running
      modifies this`tasks, this`current, this`freed, this`count, this`nextRsp, this`cr3
      ensures Valid() && InRing(old(View()).pending, |old(tasks)|) && View() == BlockedNow(old(View()), regs)
    {
      hide Ticked; hide Tickable; hide RingOk; hide StacksOk;
      BlockTickable(View());
      Queue(tasks, queue[..count], freed);
      tasks := tasks[current := tasks[current].(state := Blocked)];
      Tick(regs);
    }

    method Wake(t: nat)
      requires Valid() && t < |tasks|
      modifies this`tasks
      ensures Valid() && tasks == Woken(old(tasks), t)
    {
      hide Ok;
      WokenOk(View(), t);
      if tasks[t].state == Blocked { tasks := tasks[t := tasks[t].(state := Ready)]; }
    }

    method Enqueue(t: nat)
      requires Sized()
      modifies this`count, queue
      ensures Sized() && queue[..count] == Queued(old(queue[..count]), t)
    {
      if count < MAX_PENDING {
        queue[count] := t;
        count := count + 1;
      }
    }

    /** killTask, up to the point where a task that kills itself waits for the next tick. */
    method KillTask(id: nat, code: int) returns (ok: bool)
      requires Valid()
      modifies this`tasks, this`count, queue
      ensures Valid() && (ok <==> 1 <= id <= |old(tasks)| && old(tasks)[id - 1].state != Terminated)
      ensures ok ==> NULL <= old(tasks)[id - 1].parent < |old(tasks)| && View() == Killed(old(View()), id - 1, code)
      ensures !ok ==> View() == old(View())
    {
      hide Ok;
      RingOf(View());
      var target := FindTaskById(id);
      if target == NULL || tasks[target].state == Terminated { return false; }
      KilledOk(View(), target, code);
      tasks := tasks[target := tasks[target].(exitCode := code)];
      tasks := tasks[target := tasks[target].(state := Terminated)];
      assert tasks == old(tasks)[target := old(tasks)[target].(exitCode := code, state := Terminated)];
      if tasks[target].parent != NULL {
        var p := tasks[target].parent;
        if tasks[p].state == Blocked { tasks := tasks[p := tasks[p].(state := Ready)]; }
        tasks := tasks[target := tasks[target].(parent := NULL)];
      } else {
        Enqueue(target);
      }
      Enqueue(target);
      assert View() == Killed(old(View()), target, code);
      return true;
    }

    /** waitForTask up to its return or to its blocking: done tells which, and then code is the result. */
    method WaitForTask(id: nat, regs: nat) returns (done: bool, code: int)
      requires Valid() && started && tasks[current].state == Running
      modifies this`tasks, this`current, this`freed, this`count, this`nextRsp, this`cr3
      ensures Valid()
      ensures !(1 <= id <= |old(tasks)|) ==> done && code == -1 && View() == old(View())
      ensures 1 <= id <= |old(tasks)| && old(tasks)[id - 1].state == Terminated ==>
        done && code == old(tasks)[id - 1].exitCode && View() == old(View())
      ensures 1 <= id <= |old(tasks)| && old(tasks)[id - 1].state != Terminated ==>
        !done && InRing(old(View()).pending, |old(tasks)|) && View() == Waiting(old(View()), id - 1, regs)
    {
      hide Ok; hide BlockedNow;
      RingOf(View());
      var target := FindTaskById(id);
      if target == NULL { return true, -1; }
      if tasks[target].state != Terminated {
        ParentOk(View(), target);
        CurrentIs(View());
        tasks := tasks[target := tasks[target].(parent := current)];
        BlockCurrent(regs);
        return false, 0;
      }
      return true, tasks[target].exitCode;
    }
  }

  lemma RingOf(s: Sched)
    requires Ok(s)
    ensures RingOk(s.tasks, s.tail, s.nextId)
  {
  }

  lemma CurrentIs(s: Sched)
    requires Ok(s) && s.started
    ensures 0 <= s.current < |s.tasks| && InRing(s.pending, |s.tasks|)
  {
  }

  lemma TickableCurrent(s: Sched)
    ensures Tickable(s) ==> s.current != NULL
  {
  }

  /** After n steps, and not before, a walk is back where it took its first step. */
  lemma RoundTrip(n: nat, from: nat)
    requires from < n
    ensures forall k :: 1 < k <= n ==> Along(n, from, k) != Along(n, from, 1)
  {
  }

  lemma Onward(n: nat, from: nat, k: nat)
    requires from < n && 1 <= k <= n
    ensures k < n ==> Along(n, Along(n, from, k), 1) == Along(n, from, k + 1)
    ensures k == n ==> Along(n, Along(n, from, k), 1) == Along(n, from, 1)
  {
  }
}
