/** The scheduler's state and its steps as functions. A task is named by its place in the order of creation. */
module Tasks {

  datatype TaskState = Ready | Running | Blocked | Terminated

  const NULL: int := -1
  const MAX_PENDING: nat := 8

  /** stack 0 is a stack that has been freed; parent NULL means that nobody waits. */
  datatype Task = Task(id: nat, state: TaskState, stack: nat, rsp: nat, space: nat,
                       exitCode: int, parent: int, next: nat)

  /** freed lists the tasks whose stacks were passed to kfree, in order; nextRsp and cr3 are what the processor resumes
      with. */
  datatype Sched = Sched(tasks: seq<Task>, current: int, tail: int, nextId: nat, started: bool,
                         pending: seq<nat>, freed: seq<nat>,
                         nextRsp: nat, cr3: nat)

  // ---------- the invariant ----------

  /** The place k steps after from on a ring of n, for k up to n. */
  function Along(n: nat, from: nat, k: nat): (i: nat)
    requires from < n && k <= n
    ensures i < n
  {
    if from + k < n then from + k else from + k - n
  }

  /** The ring is one cycle through all tasks in the order of creation, and ids count up. */
  ghost predicate RingOk(tasks: seq<Task>, tail: int, nextId: nat) {
    && tail == |tasks| - 1 && nextId == |tasks| + 1
    && (forall i :: 0 <= i < |tasks| ==> tasks[i].next == Along(|tasks|, i, 1) && tasks[i].id == i + 1)
    && (forall i :: 0 <= i < |tasks| ==> NULL <= tasks[i].parent < |tasks|)
  }

  /** Only the current task runs; a current task that does not run has been killed. */
  ghost predicate RunningOk(tasks: seq<Task>, current: int, started: bool) {
    && (started <==> 0 <= current < |tasks|) && (!started ==> current == NULL)
    && (forall i :: 0 <= i < |tasks| && tasks[i].state == Running ==> i == current)
    && (started ==> tasks[current].state == Running || tasks[current].state == Terminated)
  }

  predicate InRing(pending: seq<nat>, n: nat) { forall k :: 0 <= k < |pending| ==> pending[k] < n }

  /** The queue holds tasks; a stack is null exactly when it has been freed, and none was freed twice. */
  ghost predicate StacksOk(tasks: seq<Task>, pending: seq<nat>, freed: seq<nat>) {
    && |pending| <= MAX_PENDING && InRing(pending, |tasks|)
    && (forall i, j :: 0 <= i < j < |freed| ==> freed[i] != freed[j])
    && (forall f :: f in freed ==> f < |tasks|)
    && (forall i :: 0 <= i < |tasks| ==> (tasks[i].stack == 0 <==> i in freed))
  }

  ghost predicate Ok(s: Sched) {
    && RingOk(s.tasks, s.tail, s.nextId) && RunningOk(s.tasks, s.current, s.started)
    && StacksOk(s.tasks, s.pending, s.freed)
    && (s.started ==> s.cr3 == s.tasks[s.current].space)
  }

  // ---------- steps ----------

  function WithState(tasks: seq<Task>, i: nat, st: TaskState): (r: seq<Task>)
    requires i < |tasks|
    ensures |r| == |tasks|
  {
    tasks[i := tasks[i].(state := st)]
  }

  /** createTask once its allocations have succeeded. */
  function Created(s: Sched, stack: nat, rsp: nat, space: nat): Sched {
    var n := |s.tasks|;
    var t := Task(s.nextId, Ready, stack, rsp, space, 0, NULL, 0);
    var tasks := if n == 0 then [t] else s.tasks[n - 1 := s.tasks[n - 1].(next := n)] + [t];
    s.(tasks := tasks, tail := n, nextId := s.nextId + 1)
  }

  /** start, with at least one task. */
  function Started(s: Sched): Sched
    requires s.tasks != []
  {
    s.(tasks := WithState(s.tasks, 0, Running), current := 0, started := true,
       nextRsp := s.tasks[0].rsp, cr3 := s.tasks[0].space)
  }

  /** Reaping the queue: each stack that is still there is freed and forgotten. */
  function Reaped(tasks: seq<Task>, freed: seq<nat>, pending: seq<nat>): (r: (seq<Task>, seq<nat>))
    requires InRing(pending, |tasks|)
    ensures |r.0| == |tasks|
    decreases |pending|
  {
    if pending == [] then (tasks, freed)
    else
      var (t, f) := Reaped(tasks, freed, pending[..|pending| - 1]);
      var p := pending[|pending| - 1];
      (t[p := t[p].(stack := 0)], if t[p].stack == 0 then f else f + [p])
  }

  /** How many steps after from the next ready task is, counting from 1; or n + 1 when none is ready. */
  function ReadyIn(tasks: seq<Task>, from: nat, k: nat): (d: nat)
    requires from < |tasks| && 1 <= k <= |tasks| + 1
    ensures k <= d <= |tasks| + 1
    ensures d <= |tasks| ==> tasks[Along(|tasks|, from, d)].state == Ready
    ensures forall j :: k <= j < d ==> tasks[Along(|tasks|, from, j)].state != Ready
    decreases |tasks| + 1 - k
  {
    if k > |tasks| || tasks[Along(|tasks|, from, k)].state == Ready then k else ReadyIn(tasks, from, k + 1)
  }

  /** The current task steps back to ready, if it was running, with its stack pointer saved. */
  function SteppedBack(tasks: seq<Task>, i: nat, regs: nat): (r: seq<Task>)
    requires i < |tasks|
    ensures |r| == |tasks|
  {
    tasks[i := tasks[i].(rsp := regs, state := if tasks[i].state == Running then Ready else tasks[i].state)]
  }

  /** The choice of tick once the queue is reaped. */
  function Switched(s: Sched, regs: nat): Sched
    requires 0 <= s.current < |s.tasks|
  {
    var tasks, n := SteppedBack(s.tasks, s.current, regs), |s.tasks|;
    var d := ReadyIn(tasks, s.current, 1);
    var c := if d <= n then Along(n, s.current, d) else s.current;
    s.(tasks := WithState(tasks, c, Running), current := c, nextRsp := tasks[c].rsp,
       cr3 := if d <= n then tasks[c].space else s.cr3)
  }

  function Reap(s: Sched): (r: Sched)
    requires InRing(s.pending, |s.tasks|)
    ensures |r.tasks| == |s.tasks| && r.current == s.current && r.started == s.started && r.cr3 == s.cr3
  {
    var (tasks, freed) := Reaped(s.tasks, s.freed, s.pending);
    s.(tasks := tasks, freed := freed, pending := [])
  }

  function Ticked(s: Sched, regs: nat): Sched
    requires InRing(s.pending, |s.tasks|)
    requires s.started && 0 <= s.current < |s.tasks|
  {
    Switched(Reap(s), regs)
  }

  function Woken(tasks: seq<Task>, i: nat): (r: seq<Task>)
    requires i < |tasks|
    ensures |r| == |tasks|
  {
    if tasks[i].state == Blocked then WithState(tasks, i, Ready) else tasks
  }

  function Queued(pending: seq<nat>, i: nat): seq<nat> {
    if |pending| < MAX_PENDING then pending + [i] else pending
  }

  /** killTask of a task that is not yet terminated. */
  function Killed(s: Sched, i: nat, code: int): Sched
    requires i < |s.tasks| && NULL <= s.tasks[i].parent < |s.tasks|
  {
    var tasks := s.tasks[i := s.tasks[i].(exitCode := code, state := Terminated)];
    var parent := s.tasks[i].parent;
    if parent != NULL then
      var woken := Woken(tasks, parent);
      s.(tasks := woken[i := woken[i].(parent := NULL)], pending := Queued(s.pending, i))
    else s.(tasks := tasks, pending := Queued(Queued(s.pending, i), i))
  }

  /** blockCurrent: the running task blocks and yields. */
  function BlockedNow(s: Sched, regs: nat): Sched
    requires s.started && 0 <= s.current < |s.tasks| && InRing(s.pending, |s.tasks|)
  {
    Ticked(s.(tasks := WithState(s.tasks, s.current, Blocked)), regs)
  }

  /** waitForTask on a task that is not yet terminated, up to where the waiter is resumed. */
  function Waiting(s: Sched, i: nat, regs: nat): Sched
    requires s.started && 0 <= s.current < |s.tasks| && i < |s.tasks| && InRing(s.pending, |s.tasks|)
  {
    BlockedNow(s.(tasks := s.tasks[i := s.tasks[i].(parent := s.current)]), regs)
  }

  // ---------- every step keeps the invariant ----------

  lemma CreatedOk(s: Sched, stack: nat, rsp: nat, space: nat)
    requires Ok(s) && stack != 0
    ensures Ok(Created(s, stack, rsp, space))
  {
    hide RingOk; hide StacksOk;
    CreatedRing(s, stack, rsp, space);
    CreatedStacks(s, stack, rsp, space);
  }

  lemma CreatedRing(s: Sched, stack: nat, rsp: nat, space: nat)
    requires RingOk(s.tasks, s.tail, s.nextId)
    ensures var s' := Created(s, stack, rsp, space); RingOk(s'.tasks, s'.tail, s'.nextId)
  {
  }

  lemma CreatedStacks(s: Sched, stack: nat, rsp: nat, space: nat)
    requires StacksOk(s.tasks, s.pending, s.freed) && stack != 0
    ensures var s' := Created(s, stack, rsp, space); StacksOk(s'.tasks, s'.pending, s'.freed)
  {
  }

  lemma StartedOk(s: Sched)
    requires Ok(s) && s.tasks != [] && !s.started
    ensures Ok(Started(s))
  {
  }

  /** Reaping changes stacks only. */
  lemma {:induction false} ReapedIs(tasks: seq<Task>, freed: seq<nat>, pending: seq<nat>)
    requires InRing(pending, |tasks|)
    ensures var (t, f) := Reaped(tasks, freed, pending);
      forall i :: 0 <= i < |tasks| ==> t[i] == if i in pending then tasks[i].(stack := 0) else tasks[i]
    decreases |pending|
  {
    if pending != [] {
      var n := |pending| - 1;
      ReapedIs(tasks, freed, pending[..n]);
      assert pending == pending[..n] + [pending[n]];
    }
  }

  /** Each stack is freed once, though a task may be queued twice. */
  lemma {:induction false} ReapedStacks(tasks: seq<Task>, freed: seq<nat>, pending: seq<nat>)
    requires StacksOk(tasks, pending, freed)
    ensures var (t, f) := Reaped(tasks, freed, pending); StacksOk(t, [], f) && freed <= f
    decreases |pending|
  {
    if pending != [] {
      var n := |pending| - 1;
      var p := pending[n];
      ReapedStacks(tasks, freed, pending[..n]);
      var (t, f) := Reaped(tasks, freed, pending[..n]);
      OneStack(t, f, p);
    }
  }

  lemma OneStack(tasks: seq<Task>, freed: seq<nat>, p: nat)
    requires StacksOk(tasks, [], freed) && p < |tasks|
    ensures StacksOk(tasks[p := tasks[p].(stack := 0)], [], if tasks[p].stack == 0 then freed else freed + [p])
  {
  }

  lemma Queue(tasks: seq<Task>, pending: seq<nat>, freed: seq<nat>)
    requires StacksOk(tasks, pending, freed)
    ensures InRing(pending, |tasks|)
  {
  }

  /** What a tick needs of the state it finds: the invariant, except that the current task may be blocked. */
  ghost predicate Tickable(s: Sched) {
    && RingOk(s.tasks, s.tail, s.nextId) && StacksOk(s.tasks, s.pending, s.freed) && s.started
    && 0 <= s.current < |s.tasks|
    && (forall i :: 0 <= i < |s.tasks| && s.tasks[i].state == Running ==> i == s.current)
    && s.tasks[s.current].state != Ready && s.cr3 == s.tasks[s.current].space
  }

  lemma SwitchedOk(s: Sched, regs: nat)
    requires Tickable(s)
    ensures Ok(Switched(s, regs))
  {
    hide ReadyIn; hide StacksOk;
    var tasks, n := SteppedBack(s.tasks, s.current, regs), |s.tasks|;
    var s' := Switched(s, regs);
    StacksSame(s.tasks, s'.tasks, s.pending, s.freed);
  }

  lemma StacksSame(tasks: seq<Task>, tasks': seq<Task>, pending: seq<nat>, freed: seq<nat>)
    requires StacksOk(tasks, pending, freed) && |tasks'| == |tasks|
    requires forall i :: 0 <= i < |tasks| ==> tasks'[i].stack == tasks[i].stack
    ensures StacksOk(tasks', pending, freed)
  {
  }

  lemma ReapTickable(s: Sched)
    requires Tickable(s)
    ensures InRing(s.pending, |s.tasks|) && Tickable(Reap(s)) && s.freed <= Reap(s).freed
    ensures forall i :: 0 <= i < |s.tasks| ==> Reap(s).tasks[i].(stack := 0) == s.tasks[i].(stack := 0)
  {
    hide Reaped; hide StacksOk; hide RingOk;
    Queue(s.tasks, s.pending, s.freed);
    ReapedIs(s.tasks, s.freed, s.pending);
    ReapedStacks(s.tasks, s.freed, s.pending);
    RingSame(s.tasks, Reap(s).tasks, s.tail, s.nextId);
  }

  lemma RingSame(tasks: seq<Task>, tasks': seq<Task>, tail: int, nextId: nat)
    requires RingOk(tasks, tail, nextId) && |tasks'| == |tasks|
    requires forall i ::
      0 <= i < |tasks| ==>
        tasks'[i].next == tasks[i].next && tasks'[i].id == tasks[i].id && tasks'[i].parent == tasks[i].parent
    ensures RingOk(tasks', tail, nextId)
  {
  }

  lemma TickedOk(s: Sched, regs: nat)
    requires Tickable(s)
    ensures InRing(s.pending, |s.tasks|) && Ok(Ticked(s, regs))
  {
    hide Reap; hide Switched; hide StacksOk; hide RingOk;
    ReapTickable(s);
    SwitchedOk(Reap(s), regs);
  }

  lemma KilledOk(s: Sched, i: nat, code: int)
    requires Ok(s) && i < |s.tasks| && s.tasks[i].state != Terminated
    ensures Ok(Killed(s, i, code))
  {
    assert NULL <= s.tasks[i].parent < |s.tasks|;
    hide StacksOk; hide RingOk; hide RunningOk; hide Queued;
    var s' := Killed(s, i, code);
    KilledRing(s, i, code);
    KilledRunning(s, i, code);
    QueueStacks(s.tasks, s'.tasks, s.pending, s'.pending, s.freed, i);
  }

  lemma KilledRing(s: Sched, i: nat, code: int)
    requires RingOk(s.tasks, s.tail, s.nextId) && i < |s.tasks|
    ensures var s' := Killed(s, i, code); RingOk(s'.tasks, s'.tail, s'.nextId)
  {
    hide Queued;
  }

  lemma KilledRunning(s: Sched, i: nat, code: int)
    requires i < |s.tasks| && NULL <= s.tasks[i].parent < |s.tasks| && RunningOk(s.tasks, s.current, s.started)
    ensures var s' := Killed(s, i, code);
      && RunningOk(s'.tasks, s'.current, s'.started)
      && (s.started ==> s'.tasks[s.current].space == s.tasks[s.current].space)
  {
    hide Queued;
  }

  lemma QueueStacks(tasks: seq<Task>, tasks': seq<Task>, pending: seq<nat>, pending': seq<nat>, freed: seq<nat>, i: nat)
    requires StacksOk(tasks, pending, freed) && |tasks'| == |tasks| && i < |tasks|
    requires forall j :: 0 <= j < |tasks| ==> tasks'[j].stack == tasks[j].stack
    requires pending' == Queued(pending, i) || pending' == Queued(Queued(pending, i), i)
    ensures StacksOk(tasks', pending', freed)
  {
  }

  lemma WokenOk(s: Sched, i: nat)
    requires Ok(s) && i < |s.tasks|
    ensures Ok(s.(tasks := Woken(s.tasks, i)))
  {
  }

  lemma BlockTickable(s: Sched)
    requires Ok(s) && s.started && s.tasks[s.current].state == Running
    ensures Tickable(s.(tasks := WithState(s.tasks, s.current, Blocked)))
  {
  }

  lemma ParentOk(s: Sched, i: nat)
    requires Ok(s) && s.started && i < |s.tasks|
    ensures Ok(s.(tasks := s.tasks[i := s.tasks[i].(parent := s.current)]))
  {
  }

  /** The stack of a task just killed is freed by the next tick exactly when the queue had room for it, or held it
      already; a task killed while the queue holds eight entries of others is not queued. */
  lemma KilledStackFreed(s: Sched, i: nat, code: int, regs: nat)
    requires Ok(s) && s.started && i < |s.tasks| && s.tasks[i].state != Terminated && s.tasks[i].stack != 0
    ensures Tickable(Killed(s, i, code)) && InRing(Killed(s, i, code).pending, |s.tasks|)
    ensures |Killed(s, i, code).tasks| == |s.tasks|
    ensures var s' := Ticked(Killed(s, i, code), regs);
      && |s'.tasks| == |s.tasks| && s'.pending == []
      && (s'.tasks[i].stack == 0 <==> |s.pending| < MAX_PENDING || i in s.pending)
  {
    hide ReadyIn; hide Reaped; hide StacksOk;
    var k := Killed(s, i, code);
    KilledOk(s, i, code);
    Queue(k.tasks, k.pending, k.freed);
    ReapedIs(k.tasks, k.freed, k.pending);
    KilledQueue(s, i, code);
  }

  lemma KilledQueue(s: Sched, i: nat, code: int)
    requires Ok(s) && i < |s.tasks|
    ensures |Killed(s, i, code).tasks| == |s.tasks| && Killed(s, i, code).tasks[i].stack == s.tasks[i].stack
    ensures Ok(s) && |s.pending| <= MAX_PENDING ==>
      (i in Killed(s, i, code).pending <==> |s.pending| < MAX_PENDING || i in s.pending)
  {
    hide StacksOk;
  }

  // ---------- contexts ----------

  /** Task i has saved regs as its context; every other context, and all that a context needs, is as before. */
  predicate Saved(tasks: seq<Task>, i: nat, regs: nat, tasks': seq<Task>) {
    && |tasks'| == |tasks|
    && forall j :: 0 <= j < |tasks| ==>
         && tasks'[j].rsp == (if j == i then regs else tasks[j].rsp)
         && tasks'[j].space == tasks[j].space && tasks'[j].id == tasks[j].id && tasks'[j].next == tasks[j].next
  }

  /** What a tick does to contexts: the interrupted task keeps regs, every other task what it had, and the processor
      resumes with the chosen task's context and in its address space. */
  lemma TickContexts(s: Sched, regs: nat)
    requires Tickable(s)
    ensures InRing(s.pending, |s.tasks|) && 0 <= s.current < |s.tasks|
    ensures var s' := Ticked(s, regs);
      && Saved(s.tasks, s.current, regs, s'.tasks) && 0 <= s'.current < |s.tasks|
      && s'.nextRsp == (if s'.current == s.current then regs else s.tasks[s'.current].rsp)
      && s'.cr3 == s.tasks[s'.current].space && s'.tail == s.tail && s'.nextId == s.nextId
  {
    hide ReadyIn; hide Reap; hide RingOk; hide StacksOk; hide Along;
    ReapTickable(s);
    ReapRest(s);
    var r := Reap(s);
    forall i | 0 <= i < |s.tasks|
      ensures r.tasks[i].rsp == s.tasks[i].rsp && r.tasks[i].space == s.tasks[i].space
      ensures r.tasks[i].id == s.tasks[i].id && r.tasks[i].next == s.tasks[i].next
    {
      assert r.tasks[i].(stack := 0) == s.tasks[i].(stack := 0);
    }
  }

  lemma ReapRest(s: Sched)
    requires InRing(s.pending, |s.tasks|)
    ensures Reap(s).tail == s.tail && Reap(s).nextId == s.nextId && Reap(s).nextRsp == s.nextRsp
  {
    hide Reaped;
  }
}
