/** Whose stacks are freed: in proper runs only those of terminated tasks. A tick that finds nothing ready may break
    it. */
module SchedulerStacks {
  import opened Tasks
  import opened SchedulerRun

  /** A stack that is freed, or queued to be freed, belongs to a terminated task. */
  ghost predicate StacksLive(s: Sched) {
    forall i: nat :: i < |s.tasks| && (s.tasks[i].stack == 0 || i in s.pending) ==> s.tasks[i].state == Terminated
  }

  /** Ticks empty the queue and free exactly the stacks in it. */
  lemma TickStacks(s: Sched, regs: nat)
    requires Tickable(s)
    ensures InRing(s.pending, |s.tasks|) && |Ticked(s, regs).tasks| == |s.tasks| && Ticked(s, regs).pending == []
    ensures forall i :: 0 <= i < |s.tasks| ==>
      Ticked(s, regs).tasks[i].stack == if i in s.pending then 0 else s.tasks[i].stack
  {
    hide ReadyIn; hide Reaped; hide StacksOk; hide RingOk;
    Queue(s.tasks, s.pending, s.freed);
    ReapedIs(s.tasks, s.freed, s.pending);
  }

  /** A tick keeps every stack under a living task exactly when something is ready, or the terminated task that it falls
      back on still has a stack that is not queued. In the other case that task runs on a stack that has been freed. */
  lemma TickKeepsStacks(s: Sched, regs: nat)
    requires Ok(s) && s.started && StacksLive(s)
    ensures StacksLive(Step(s, Tick(regs))) <==>
      SomeReady(s) || (s.tasks[s.current].stack != 0 && s.current !in s.pending)
    ensures !StacksLive(Step(s, Tick(regs))) ==>
      var s' := Step(s, Tick(regs));
      && |s'.tasks| == |s.tasks| && s'.current == s.current && s.tasks[s.current].state == Terminated
      && s'.tasks[s.current].state == Running && s'.tasks[s.current].stack == 0
  {
    hide Ticked; hide Tickable; hide RingOk; hide StacksOk; hide Ahead;
    OkTickable(s);
    TickStacks(s, regs);
    TickStates(s, regs);
    var s' := Step(s, Tick(regs));
    if SomeReady(s) {
      var t: nat :| t < |s.tasks| && ReadyAfter(s, t);
      TickChoice(s, regs, t);
    } else {
      StuckTick(s, regs);
      assert !ReadyAfter(s, s.current);
      assert s.tasks[s.current].state == Terminated && s'.tasks[s.current].state == Running;
    }
  }

  lemma TickableStacks(s: Sched, regs: nat)
    requires Tickable(s) && StacksLive(s) && SomeReady(s)
    ensures InRing(s.pending, |s.tasks|) && StacksLive(Ticked(s, regs))
  {
    hide Ticked; hide Tickable; hide SomeReady;
    TickStacks(s, regs);
    TickMoves(s, regs);
  }

  lemma BlockStacks(s: Sched, regs: nat)
    requires Ok(s) && CurrentRuns(s) && StacksLive(s)
    requires exists i: nat :: i < |s.tasks| && s.tasks[i].state == Ready
    ensures InRing(s.pending, |s.tasks|) && StacksLive(BlockedNow(s, regs))
  {
    hide Ticked; hide Tickable; hide SomeReady; hide RingOk; hide StacksOk;
    var b := s.(tasks := WithState(s.tasks, s.current, Blocked));
    BlockTickable(s);
    var i: nat :| i < |s.tasks| && s.tasks[i].state == Ready;
    Reader(b, i);
    TickableStacks(b, regs);
  }

  lemma WaitStacks(s: Sched, op: Op)
    requires Ok(s) && Waits(s, op) && StacksLive(s)
    requires exists i: nat :: i < |s.tasks| && s.tasks[i].state == Ready
    ensures StacksLive(Step(s, op))
  {
    hide BlockedNow;
    var p := s.(tasks := s.tasks[op.id - 1 := s.tasks[op.id - 1].(parent := s.current)]);
    ParentOk(s, op.id - 1);
    var i: nat :| i < |s.tasks| && s.tasks[i].state == Ready;
    assert p.tasks[i].state == Ready;
    BlockStacks(p, op.regs);
  }

  lemma KillStacks(s: Sched, i: nat, code: int)
    requires Ok(s) && i < |s.tasks| && s.tasks[i].state != Terminated && StacksLive(s)
    ensures NULL <= s.tasks[i].parent < |s.tasks| && StacksLive(Killed(s, i, code))
  {
    hide RingOk; hide StacksOk; hide RunningOk;
    ParentIn(s, i);
    KillStates(s, i, code);
    var s' := Killed(s, i, code);
    forall j: nat | j < |s'.tasks| && (s'.tasks[j].stack == 0 || j in s'.pending)
      ensures s'.tasks[j].state == Terminated
    {
      if j != i { assert j in s.pending || s.tasks[j].stack == 0; }
    }
  }

  /** Every proper step keeps it. */
  lemma NextKeepsStacks(w: World, op: Op)
    requires Ok(w.s) && WaitsOk(w) && Proper(w, op) && StacksLive(w.s)
    ensures StacksLive(Next(w, op).s)
  {
    hide Killed; hide Ticked; hide BlockedNow; hide Waiting; hide WaitsOk; hide Tickable; hide SomeReady;
    hide RingOk; hide RunningOk;
    match op
    case Tick(regs) => if w.s.started { OkTickable(w.s); TickableStacks(w.s, regs); }
    case Block(regs) => if CurrentRuns(w.s) { BlockStacks(w.s, regs); }
    case Wait(_, _) => if Waits(w.s, op) { WaitStacks(w.s, op); }
    case Kill(_, _) => if Kills(w.s, op) { KillStacks(w.s, op.id - 1, op.code); }
    case Create(stack, rsp, space) => if stack != 0 { CreateStacks(w.s, stack, rsp, space); }
    case Start => StartStacks(w.s);
    case Wake(t) => if t < |w.s.tasks| { WakeStacks(w.s, t); }
    case Return =>
  }

  lemma CreateStacks(s: Sched, stack: nat, rsp: nat, space: nat)
    requires Ok(s) && StacksLive(s) && stack != 0
    ensures StacksLive(Created(s, stack, rsp, space))
  {
    Queue(s.tasks, s.pending, s.freed);
  }

  lemma StartStacks(s: Sched)
    requires Ok(s) && StacksLive(s) && (s.tasks != [] ==> s.tasks[0].state == Ready)
    ensures s.tasks != [] && !s.started ==> StacksLive(Started(s))
  {
  }

  lemma WakeStacks(s: Sched, t: nat)
    requires StacksLive(s) && t < |s.tasks|
    ensures StacksLive(s.(tasks := Woken(s.tasks, t)))
  {
  }

  /** Over whole proper runs no task that runs, or may yet run, has lost its stack. */
  lemma {:induction false} RunKeepsStacks(w: World, ops: seq<Op>)
    requires Ok(w.s) && WaitsOk(w) && ProperRun(w, ops) && StacksLive(w.s)
    ensures StacksLive(After(w, ops).s)
    decreases |ops|
  {
    hide Ok; hide WaitsOk; hide Proper; hide Next; hide StacksLive;
    if ops != [] {
      NextKeeps(w, ops[0]);
      NextKeepsStacks(w, ops[0]);
      RunKeepsStacks(Next(w, ops[0]), ops[1..]);
    }
  }
}
