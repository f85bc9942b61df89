/** Whole runs of the scheduler: dispatch in ring order, termination for good, and the result of waiting. */
module SchedulerRun {
  import opened Tasks

  /** Return is where a task resumed inside waitForTask reads its target's exit code. */
  datatype Op =
    | Create(stack: nat, rsp: nat, space: nat)
    | Start
    | Tick(regs: nat)
    | Block(regs: nat)
    | Wake(t: nat)
    | Kill(id: nat, code: int)
    | Wait(id: nat, regs: nat)
    | Return

  predicate CurrentRuns(s: Sched) { s.started && 0 <= s.current < |s.tasks| && s.tasks[s.current].state == Running }

  predicate Kills(s: Sched, op: Op) { op.Kill? && 1 <= op.id <= |s.tasks| && s.tasks[op.id - 1].state != Terminated }

  predicate Waits(s: Sched, op: Op) {
    op.Wait? && CurrentRuns(s) && 1 <= op.id <= |s.tasks| && s.tasks[op.id - 1].state != Terminated
  }

  ghost function Step(s: Sched, op: Op): Sched
    requires Ok(s)
  {
    match op
    case Create(stack, rsp, space) => if stack == 0 then s else Created(s, stack, rsp, space)
    case Start => if s.tasks != [] && !s.started then Started(s) else s
    case Tick(regs) => if s.started then Ticked(s, regs) else s
    case Block(regs) => if CurrentRuns(s) then BlockedNow(s, regs) else s
    case Wake(t) => if t < |s.tasks| then s.(tasks := Woken(s.tasks, t)) else s
    case Kill(id, code) => if Kills(s, op) then Killed(s, id - 1, code) else s
    case Wait(id, regs) => if Waits(s, op) then Waiting(s, id - 1, regs) else s
    case Return => s
  }

  lemma OkTickable(s: Sched)
    requires Ok(s) && s.started
    ensures Tickable(s)
  {
  }

  /** One step keeps the invariant. */
  lemma StepOk(s: Sched, op: Op)
    requires Ok(s)
    ensures Ok(Step(s, op))
  {
    hide Ok; hide Ticked; hide Killed; hide Created; hide Started; hide Tickable;
    match op
    case Create(stack, rsp, space) => if stack != 0 { CreatedOk(s, stack, rsp, space); }
    case Start => if s.tasks != [] && !s.started { StartedOk(s); }
    case Tick(regs) => if s.started { OkTickable(s); TickedOk(s, regs); }
    case Block(regs) => if CurrentRuns(s) { BlockOk(s, regs); }
    case Wake(t) => if t < |s.tasks| { WokenOk(s, t); }
    case Kill(id, code) => if Kills(s, op) { KilledOk(s, id - 1, code); }
    case Wait(id, regs) =>
      if Waits(s, op) {
        ParentOk(s, id - 1);
        BlockOk(s.(tasks := s.tasks[id - 1 := s.tasks[id - 1].(parent := s.current)]), regs);
      }
    case Return =>
  }

  lemma BlockOk(s: Sched, regs: nat)
    requires Ok(s) && CurrentRuns(s)
    ensures InRing(s.pending, |s.tasks|) && Ok(BlockedNow(s, regs))
  {
    hide Ok; hide Ticked; hide Tickable;
    BlockTickable(s);
    TickedOk(s.(tasks := WithState(s.tasks, s.current, Blocked)), regs);
  }

  ghost function Run(s: Sched, ops: seq<Op>): Sched
    requires Ok(s)
    decreases |ops|
  {
    if ops == [] then s else StepOk(s, ops[0]); Run(Step(s, ops[0]), ops[1..])
  }

  /** In every run the ring is one cycle, at most the current task runs, and no stack is freed twice. */
  lemma {:induction false} RunOk(s: Sched, ops: seq<Op>)
    requires Ok(s)
    ensures Ok(Run(s, ops))
    decreases |ops|
  {
    hide Ok; hide Step;
    if ops != [] {
      StepOk(s, ops[0]);
      RunOk(Step(s, ops[0]), ops[1..]);
    }
  }

  /** Following next from any task meets every task once in as many steps as there are tasks. */
  lemma RingIsOneCycle(s: Sched, from: nat, t: nat)
    requires Ok(s) && from < |s.tasks| && t < |s.tasks|
    ensures 1 <= Ahead(|s.tasks|, from, t) <= |s.tasks| && Along(|s.tasks|, from, Ahead(|s.tasks|, from, t)) == t
    ensures forall k :: 1 <= k <= |s.tasks| && Along(|s.tasks|, from, k) == t ==> k == Ahead(|s.tasks|, from, t)
    ensures forall k :: 0 <= k < |s.tasks| ==> s.tasks[Along(|s.tasks|, from, k)].next == Along(|s.tasks|, from, k + 1)
  {
    hide StacksOk; hide RunningOk;
  }

  // ---------- dispatch ----------

  /** How many steps ahead of from the task t is, from 1 to n. */
  function Ahead(n: nat, from: nat, t: nat): nat
    requires from < n && t < n
  {
    if t > from then t - from else n - from + t
  }

  lemma AheadIs(n: nat, from: nat, t: nat, d: nat)
    requires from < n && t < n && 1 <= d <= n
    ensures Along(n, from, Ahead(n, from, t)) == t && 1 <= Ahead(n, from, t) <= n
    ensures d < Ahead(n, from, t) ==> Ahead(n, Along(n, from, d), t) == Ahead(n, from, t) - d
    ensures d == Ahead(n, from, t) ==> Along(n, from, d) == t
  {
  }

  /** What a tick does to the states of the tasks. */
  lemma TickStates(s: Sched, regs: nat)
    requires Tickable(s)
    ensures InRing(s.pending, |s.tasks|) && var s' := Ticked(s, regs);
      && 0 <= s'.current < |s.tasks| == |s'.tasks| && s'.started && s'.tasks[s'.current].state == Running
      && s'.nextRsp == s'.tasks[s'.current].rsp
    ensures var s' := Ticked(s, regs); forall i :: 0 <= i < |s.tasks| && i != s'.current ==>
      s'.tasks[i].state == if i == s.current && s.tasks[i].state == Running then Ready else s.tasks[i].state
    ensures var s' := Ticked(s, regs);
      forall i :: 0 <= i < |s.tasks| ==>
        s'.tasks[i].exitCode == s.tasks[i].exitCode && s'.tasks[i].parent == s.tasks[i].parent
  {
    hide ReadyIn; hide Reap; hide RingOk; hide StacksOk;
    ReapTickable(s);
    forall i | 0 <= i < |s.tasks|
      ensures Reap(s).tasks[i].state == s.tasks[i].state && Reap(s).tasks[i].exitCode == s.tasks[i].exitCode
      ensures Reap(s).tasks[i].parent == s.tasks[i].parent
    {
      assert Reap(s).tasks[i].(stack := 0) == s.tasks[i].(stack := 0);
    }
  }

  predicate ReadyAfter(s: Sched, i: nat)
    requires i < |s.tasks|
  {
    s.tasks[i].state == Ready || (i == s.current && s.tasks[i].state == Running)
  }

  ghost predicate SomeReady(s: Sched) {
    exists i: nat :: i < |s.tasks| && ReadyAfter(s, i)
  }

  /** The tick goes to the nearest ready task ahead, the current one counting as the farthest. */
  lemma TickChoice(s: Sched, regs: nat, t: nat)
    requires Tickable(s) && t < |s.tasks| && ReadyAfter(s, t)
    ensures InRing(s.pending, |s.tasks|) && var s' := Ticked(s, regs);
      && 0 <= s'.current < |s.tasks| && ReadyAfter(s, s'.current)
      && Ahead(|s.tasks|, s.current, s'.current) <= Ahead(|s.tasks|, s.current, t)
  {
    hide ReadyIn; hide Reap; hide RingOk; hide StacksOk; hide Along; hide Ahead;
    ReapTickable(s);
    var r, n := Reap(s), |s.tasks|;
    var tasks := SteppedBack(r.tasks, s.current, regs);
    forall i | 0 <= i < n ensures tasks[i].state == Ready <==> ReadyAfter(s, i) {
      assert r.tasks[i].(stack := 0) == s.tasks[i].(stack := 0);
    }
    var d := ReadyIn(tasks, s.current, 1);
    AheadIs(n, s.current, t, 1);
    assert d <= Ahead(n, s.current, t);
    AlongAhead(n, s.current, d);
  }

  lemma AlongAhead(n: nat, from: nat, d: nat)
    requires from < n && 1 <= d <= n
    ensures Ahead(n, from, Along(n, from, d)) == d
  {
  }

  /** Each tick dispatches a ready task or brings the ring position strictly nearer to it. */
  lemma TickNearer(s: Sched, regs: nat, t: nat)
    requires Tickable(s) && t < |s.tasks| && s.tasks[t].state == Ready
    ensures InRing(s.pending, |s.tasks|) && 0 <= Ticked(s, regs).current < |s.tasks| == |Ticked(s, regs).tasks|
    ensures var s' := Ticked(s, regs);
      s'.current == t ||
      (s'.tasks[t].state == Ready && Ahead(|s.tasks|, s'.current, t) < Ahead(|s.tasks|, s.current, t))
  {
    hide Ticked; hide Tickable; hide Along; hide Ahead;
    Started1(s);
    TickChoice(s, regs, t);
    TickStates(s, regs);
    var n, c := |s.tasks|, Ticked(s, regs).current;
    AheadIs(n, s.current, t, 1);
    AheadIs(n, s.current, c, 1);
    AheadIs(n, s.current, t, Ahead(n, s.current, c));
  }

  lemma Started1(s: Sched)
    requires Tickable(s)
    ensures s.started && 0 <= s.current < |s.tasks| && s.tasks[s.current].state != Ready
  {
  }

  predicate TickOp(op: Op) { op.Tick? || op.Block? }

  function Ticks(ops: seq<Op>): nat {
    if ops == [] then 0 else (if TickOp(ops[0]) then 1 else 0) + Ticks(ops[1..])
  }

  /** Nothing in the run creates a task, kills t, or blocks a task that is not running. */
  ghost predicate LeavesReady(s: Sched, ops: seq<Op>, t: nat)
    requires Ok(s)
    decreases |ops|
  {
    ops == [] ||
    (!ops[0].Create? && !(ops[0].Kill? && ops[0].id == t + 1) && (ops[0].Block? ==> CurrentRuns(s)) &&
     (StepOk(s, ops[0]); LeavesReady(Step(s, ops[0]), ops[1..], t)))
  }

  ghost predicate Dispatched(s: Sched, ops: seq<Op>, t: nat)
    requires Ok(s)
    decreases |ops|
  {
    s.current == t || (ops != [] && (StepOk(s, ops[0]); Dispatched(Step(s, ops[0]), ops[1..], t)))
  }

  /** One step: t is dispatched, or stays ready and no farther away, and nearer if the step ticks. */
  lemma StepNearer(s: Sched, op: Op, t: nat)
    requires Ok(s) && s.started && t < |s.tasks| && s.tasks[t].state == Ready
    requires !op.Create? && !(op.Kill? && op.id == t + 1) && (op.Block? ==> CurrentRuns(s))
    ensures var s' := Step(s, op); s'.started && 0 <= s'.current < |s'.tasks| == |s.tasks| && 0 <= s.current < |s.tasks|
    ensures var s' := Step(s, op);
      s'.current == t ||
      (s'.tasks[t].state == Ready &&
       Ahead(|s.tasks|, s'.current, t) + (if TickOp(op) then 1 else 0) <= Ahead(|s.tasks|, s.current, t))
  {
    hide Ticked; hide Ahead; hide RingOk; hide StacksOk; hide Tickable;
    match op
    case Tick(regs) => OkTickable(s); TickNearer(s, regs, t); TickStates(s, regs);
    case Block(regs) =>
      var b := s.(tasks := WithState(s.tasks, s.current, Blocked));
      BlockTickable(s); TickNearer(b, regs, t); TickStates(b, regs);
    case Wait(id, regs) =>
      if Waits(s, op) {
        var p := s.(tasks := s.tasks[id - 1 := s.tasks[id - 1].(parent := s.current)]);
        ParentOk(s, id - 1);
        var b := p.(tasks := WithState(p.tasks, s.current, Blocked));
        BlockTickable(p); TickNearer(b, regs, t); TickStates(b, regs);
      }
    case Kill(id, code) => if Kills(s, op) { KillStates(s, id - 1, code); }
    case _ =>
  }

  /** Another task j after i was killed: the waiter that i records becomes ready. */
  function AfterKill(s: Sched, i: nat, j: nat): Task
    requires i < |s.tasks| && j < |s.tasks|
  {
    if j == s.tasks[i].parent && s.tasks[j].state == Blocked then s.tasks[j].(state := Ready) else s.tasks[j]
  }

  /** What killing does to the states. */
  lemma KillStates(s: Sched, i: nat, code: int)
    requires Ok(s) && i < |s.tasks| && s.tasks[i].state != Terminated
    ensures var s' := Killed(s, i, code); |s'.tasks| == |s.tasks| && s'.current == s.current && s'.started == s.started
    ensures var s' := Killed(s, i, code);
      s'.tasks[i].state == Terminated && s'.tasks[i].exitCode == code && s'.tasks[i].parent == NULL
    ensures var s' := Killed(s, i, code); forall j :: 0 <= j < |s.tasks| && j != i ==>
      s'.tasks[j] == AfterKill(s, i, j)
  {
    hide StacksOk; hide RunningOk;
  }

  /** A task that stays ready is dispatched within as many ticks as it is ahead on the ring, so within ring-size
      ticks. */
  lemma {:induction false} ReadyIsDispatched(s: Sched, ops: seq<Op>, t: nat)
    requires Ok(s) && s.started && t < |s.tasks| && s.tasks[t].state == Ready && LeavesReady(s, ops, t)
    requires 0 <= s.current < |s.tasks| && Ticks(ops) >= Ahead(|s.tasks|, s.current, t)
    ensures Dispatched(s, ops, t)
    decreases |ops|
  {
    hide Ok; hide Step; hide Ahead;
    AheadPositive(|s.tasks|, s.current, t);
    if ops != [] {
      StepOk(s, ops[0]);
      StepNearer(s, ops[0], t);
      var s' := Step(s, ops[0]);
      if s'.current != t { ReadyIsDispatched(s', ops[1..], t); }
    }
  }

  lemma AheadPositive(n: nat, from: nat, t: nat)
    requires from < n && t < n
    ensures 1 <= Ahead(n, from, t) <= n
  {
  }

  // ---------- the fallback of tick ----------

  /** A tick leaves every terminated task terminated exactly when the current task was not terminated or another is
      ready. */
  lemma TickKeepsTerminated(s: Sched, regs: nat)
    requires Ok(s) && s.started
    ensures var s' := Step(s, Tick(regs)); |s'.tasks| == |s.tasks|
    ensures (forall i :: 0 <= i < |s.tasks| && s.tasks[i].state == Terminated ==>
               Step(s, Tick(regs)).tasks[i].state == Terminated) <==> SomeReady(s)
  {
    hide Ticked; hide Ahead; hide RingOk; hide StacksOk; hide Tickable;
    OkTickable(s);
    TickStates(s, regs);
    if SomeReady(s) {
      var t: nat :| t < |s.tasks| && ReadyAfter(s, t);
      TickChoice(s, regs, t);
    } else {
      StuckTick(s, regs);
      assert !ReadyAfter(s, s.current);
    }
  }

  /** With nothing ready the tick stays where it is and makes the current task run, whatever its state. */
  lemma StuckTick(s: Sched, regs: nat)
    requires Tickable(s) && !SomeReady(s)
    ensures InRing(s.pending, |s.tasks|) && Ticked(s, regs).current == s.current && Ticked(s, regs).cr3 == s.cr3
  {
    hide ReadyIn; hide Reap; hide RingOk; hide StacksOk; hide Along;
    ReapTickable(s);
    var r, n := Reap(s), |s.tasks|;
    var tasks := SteppedBack(r.tasks, s.current, regs);
    forall i | 0 <= i < n ensures tasks[i].state != Ready {
      assert r.tasks[i].(stack := 0) == s.tasks[i].(stack := 0);
      assert !ReadyAfter(s, i);
    }
  }

  /** A task that blocks comes straight back exactly when nothing is ready. */
  lemma BlockComesBack(s: Sched, regs: nat)
    requires Ok(s) && CurrentRuns(s)
    ensures Step(s, Block(regs)).current == s.current <==> forall i :: 0 <= i < |s.tasks| ==> s.tasks[i].state != Ready
  {
    hide Ticked; hide Ahead; hide RingOk; hide StacksOk; hide Tickable;
    var b := s.(tasks := WithState(s.tasks, s.current, Blocked));
    BlockTickable(s);
    Started1(b);
    if SomeReady(b) {
      var t: nat :| t < |b.tasks| && ReadyAfter(b, t);
      TickChoice(b, regs, t);
      assert s.tasks[t].state == Ready;
    } else {
      StuckTick(b, regs);
      forall i | 0 <= i < |s.tasks| ensures s.tasks[i].state != Ready { assert !ReadyAfter(b, i); }
    }
  }

  /** A task that waits for one that is alive is current again after the same step, and about to read the exit code of a
      living task, exactly when nothing is ready. */
  lemma WaitComesBack(s: Sched, id: nat, regs: nat)
    requires Ok(s) && Waits(s, Wait(id, regs))
    ensures var s' := Step(s, Wait(id, regs));
      s'.current == s.current <==> forall i :: 0 <= i < |s.tasks| ==> s.tasks[i].state != Ready
    ensures var s' := Step(s, Wait(id, regs)); |s'.tasks| == |s.tasks| && s'.tasks[id - 1].state != Terminated
  {
    hide Ticked; hide RingOk; hide StacksOk; hide Tickable;
    var t := s.(tasks := s.tasks[id - 1 := s.tasks[id - 1].(parent := s.current)]);
    ParentOk(s, id - 1);
    BlockComesBack(t, regs);
    assert forall i :: 0 <= i < |s.tasks| ==> t.tasks[i].state == s.tasks[i].state;
    var b := t.(tasks := WithState(t.tasks, t.current, Blocked));
    BlockTickable(t);
    TickStates(b, regs);
  }

  // ---------- waiting ----------

  /** A state with the target of each task inside waitForTask and the code with which each task was killed. */
  datatype World = World(s: Sched, waits: map<int, int>, codes: map<nat, int>)

  ghost function Next(w: World, op: Op): World
    requires Ok(w.s)
  {
    World(Step(w.s, op),
          if Waits(w.s, op) then w.waits[w.s.current := op.id - 1]
          else if op.Return? && w.s.current >= 0 then w.waits - {w.s.current} else w.waits,
          if Kills(w.s, op) then w.codes[op.id - 1 := op.code] else w.codes)
  }

  /** A waiter is held until its target has terminated, and an exit code is the one of the kill. */
  ghost predicate WaitsOk(w: World) {
    && (forall x :: x in w.waits ==> 0 <= x < |w.s.tasks| && 0 <= w.waits[x] < |w.s.tasks|)
    && (forall x :: x in w.waits ==>
          w.s.tasks[w.waits[x]].state == Terminated ||
          w.s.tasks[x].state == Blocked || w.s.tasks[x].state == Terminated)
    && (forall y: nat :: y < |w.s.tasks| && w.s.tasks[y].parent != NULL ==>
      w.s.tasks[y].parent in w.waits && w.waits[w.s.tasks[y].parent] == y && w.s.tasks[y].state != Terminated)
    && (forall y: nat :: y < |w.s.tasks| && w.s.tasks[y].state == Terminated ==>
          y in w.codes && w.codes[y] == w.s.tasks[y].exitCode)
  }

  /** The run's side conditions: some task is ready when a tick looks for one, nobody else wakes a waiter, and a task
      inside waitForTask does nothing but return. */
  ghost predicate Proper(w: World, op: Op)
    requires Ok(w.s)
  {
    && (op.Tick? && w.s.started ==> SomeReady(w.s))
    && ((op.Block? && CurrentRuns(w.s)) || Waits(w.s, op) ==>
          exists i: nat :: i < |w.s.tasks| && w.s.tasks[i].state == Ready)
    && (op.Wake? ==> op.t !in w.waits)
    && (op.Block? || op.Wait? ==> w.s.current !in w.waits)
    && (op.Return? ==> CurrentRuns(w.s) && w.s.current in w.waits)
    && (op.Start? ==> w.s.tasks != [] ==> w.s.tasks[0].state == Ready)
  }

  /** Terminated tasks stay so and keep their exit codes. */
  ghost predicate Absorbing(s: Sched, s': Sched) {
    |s.tasks| <= |s'.tasks| && forall i ::
      0 <= i < |s.tasks| && s.tasks[i].state == Terminated ==>
        s'.tasks[i].state == Terminated && s'.tasks[i].exitCode == s.tasks[i].exitCode
  }

  /** What a tick with something ready does: one ready task runs, the current one steps back, no other state changes. */
  lemma TickMoves(s: Sched, regs: nat)
    requires Tickable(s) && SomeReady(s)
    ensures InRing(s.pending, |s.tasks|) && |Ticked(s, regs).tasks| == |s.tasks|
    ensures var s' := Ticked(s, regs);
      forall i :: 0 <= i < |s.tasks| ==>
        s'.tasks[i].exitCode == s.tasks[i].exitCode && s'.tasks[i].parent == s.tasks[i].parent
    ensures var s' := Ticked(s, regs);
      forall i :: 0 <= i < |s.tasks| && (s.tasks[i].state == Blocked || s.tasks[i].state == Terminated) ==>
        s'.tasks[i].state == s.tasks[i].state
    ensures var s' := Ticked(s, regs);
      forall i :: 0 <= i < |s.tasks| && s'.tasks[i].state == Terminated ==> s.tasks[i].state == Terminated
  {
    hide Ticked; hide Tickable; hide Ahead;
    Started1(s);
    TickStates(s, regs);
    var t: nat :| t < |s.tasks| && ReadyAfter(s, t);
    TickChoice(s, regs, t);
  }

  /** Waiting facts depend on states, parents and exit codes only. */
  lemma TickWaits(w: World, s: Sched, regs: nat)
    requires WaitsOk(w.(s := s)) && Tickable(s) && SomeReady(s)
    ensures InRing(s.pending, |s.tasks|) && WaitsOk(w.(s := Ticked(s, regs))) && Absorbing(s, Ticked(s, regs))
  {
    hide Ticked; hide Tickable; hide SomeReady;
    Started1(s);
    TickMoves(s, regs);
  }

  lemma BlockWaits(w: World, s: Sched, regs: nat)
    requires WaitsOk(w.(s := s)) && Ok(s) && CurrentRuns(s)
    requires exists i: nat :: i < |s.tasks| && s.tasks[i].state == Ready
    ensures InRing(s.pending, |s.tasks|) && WaitsOk(w.(s := BlockedNow(s, regs))) && Absorbing(s, BlockedNow(s, regs))
  {
    hide Ticked; hide Tickable; hide SomeReady; hide RingOk; hide StacksOk;
    var b := s.(tasks := WithState(s.tasks, s.current, Blocked));
    BlockTickable(s);
    var i: nat :| i < |s.tasks| && s.tasks[i].state == Ready;
    Reader(b, i);
    TickWaits(w, b, regs);
  }

  lemma Reader(s: Sched, i: nat)
    requires i < |s.tasks| && s.tasks[i].state == Ready
    ensures SomeReady(s)
  {
    assert ReadyAfter(s, i);
  }

  /** The waiter enters the books as it blocks. */
  lemma WaitWaits(w: World, op: Op)
    requires Ok(w.s) && WaitsOk(w) && Waits(w.s, op) && w.s.current !in w.waits
    requires exists i: nat :: i < |w.s.tasks| && w.s.tasks[i].state == Ready
    ensures WaitsOk(Next(w, op)) && Absorbing(w.s, Next(w, op).s)
  {
    hide Ticked; hide Tickable; hide SomeReady; hide WaitsOk; hide StacksOk;
    var s, c, t := w.s, w.s.current, op.id - 1;
    var p := s.(tasks := s.tasks[t := s.tasks[t].(parent := c)]);
    ParentOk(s, t);
    var v := World(p, w.waits[c := t], w.codes);
    var b := s.(tasks := WithState(p.tasks, c, Blocked));
    BlockTickable(p);
    var i: nat :| i < |s.tasks| && s.tasks[i].state == Ready;
    assert b.tasks[i].state == Ready;
    Reader(b, i);
    WaitBooks(w, c, t);
    TickWaits(v, b, op.regs);
  }

  lemma WaitBooks(w: World, c: nat, t: nat)
    requires WaitsOk(w) && c < |w.s.tasks| && t < |w.s.tasks| && c !in w.waits && w.s.tasks[c].state == Running
    requires w.s.tasks[t].state != Terminated
    ensures var tasks := w.s.tasks[t := w.s.tasks[t].(parent := c)];
      WaitsOk(World(w.s.(tasks := WithState(tasks, c, Blocked)), w.waits[c := t], w.codes))
  {
  }

  lemma KillWaits(w: World, op: Op)
    requires Ok(w.s) && WaitsOk(w) && Kills(w.s, op)
    ensures WaitsOk(Next(w, op)) && Absorbing(w.s, Next(w, op).s)
  {
    hide Killed; hide Ok; hide WaitsOk; hide Absorbing;
    KillStates(w.s, op.id - 1, op.code);
    ParentIn(w.s, op.id - 1);
    KillBooks(w, Killed(w.s, op.id - 1, op.code), op.id - 1, op.code);
  }

  lemma ParentIn(s: Sched, i: nat)
    requires Ok(s) && i < |s.tasks|
    ensures NULL <= s.tasks[i].parent < |s.tasks|
  {
  }

  lemma KillBooks(w: World, s': Sched, i: nat, code: int)
    requires WaitsOk(w) && i < |w.s.tasks| == |s'.tasks| && w.s.tasks[i].state != Terminated
    requires s'.tasks[i].state == Terminated && s'.tasks[i].exitCode == code && s'.tasks[i].parent == NULL
    requires forall j :: 0 <= j < |w.s.tasks| && j != i ==> s'.tasks[j] == AfterKill(w.s, i, j)
    ensures WaitsOk(World(s', w.waits, w.codes[i := code])) && Absorbing(w.s, s')
  {
    forall x | x in w.waits
      ensures s'.tasks[w.waits[x]].state == Terminated ||
              s'.tasks[x].state == Blocked || s'.tasks[x].state == Terminated
    {
      if x == w.s.tasks[i].parent { assert w.waits[x] == i; }
    }
  }

  /** Every proper step keeps the waiting invariant, and terminated tasks terminated with their codes. */
  lemma NextKeeps(w: World, op: Op)
    requires Ok(w.s) && WaitsOk(w) && Proper(w, op)
    ensures Ok(Next(w, op).s) && WaitsOk(Next(w, op)) && Absorbing(w.s, Next(w, op).s)
  {
    hide Ok; hide Killed; hide Ticked; hide BlockedNow; hide Waiting; hide Created; hide Started; hide WaitsOk;
    hide Absorbing; hide SomeReady; hide Tickable;
    StepOk(w.s, op);
    match op
    case Tick(regs) => if w.s.started { OkTickable(w.s); TickWaits(w, w.s, regs); } else { Unmoved(w.s); }
    case Block(regs) => if CurrentRuns(w.s) { BlockWaits(w, w.s, regs); } else { Unmoved(w.s); }
    case Wait(_, _) => if Waits(w.s, op) { WaitWaits(w, op); } else { Unmoved(w.s); }
    case Kill(_, _) => if Kills(w.s, op) { KillWaits(w, op); } else { Unmoved(w.s); }
    case _ => QuietKeeps(w, op);
  }

  lemma Unmoved(s: Sched)
    ensures Absorbing(s, s)
  {
  }

  /** The steps that neither tick nor kill. */
  lemma QuietKeeps(w: World, op: Op)
    requires Ok(w.s) && WaitsOk(w) && Proper(w, op) && (op.Create? || op.Start? || op.Wake? || op.Return?)
    ensures WaitsOk(Next(w, op)) && Absorbing(w.s, Next(w, op).s)
  {
    hide Ok; hide Killed; hide Ticked; hide BlockedNow; hide Waiting; hide Created; hide Started; hide WaitsOk;
    hide Absorbing; hide SomeReady; hide Woken;
    Unmoved(w.s);
    match op
    case Create(stack, rsp, space) => if stack != 0 { CreateWaits(w, stack, rsp, space); }
    case Start => if w.s.tasks != [] && !w.s.started { StartWaits(w); }
    case Wake(t) => if t < |w.s.tasks| { WakeWaits(w, t); }
    case Return => ReturnWaits(w);
  }

  lemma CreateWaits(w: World, stack: nat, rsp: nat, space: nat)
    requires WaitsOk(w)
    ensures var s' := Created(w.s, stack, rsp, space); WaitsOk(w.(s := s')) && Absorbing(w.s, s')
  {
    var s' := Created(w.s, stack, rsp, space);
    assert forall i :: 0 <= i < |w.s.tasks| ==> s'.tasks[i].(next := 0) == w.s.tasks[i].(next := 0);
    Alike(w, s');
  }

  /** States, parents and exit codes are all that waiting depends on; a new task has no part in it yet. */
  lemma Alike(w: World, s': Sched)
    requires WaitsOk(w) && |w.s.tasks| <= |s'.tasks|
    requires forall i :: 0 <= i < |w.s.tasks| ==> s'.tasks[i].(next := 0) == w.s.tasks[i].(next := 0)
    requires forall i :: |w.s.tasks| <= i < |s'.tasks| ==> s'.tasks[i].state == Ready && s'.tasks[i].parent == NULL
    ensures WaitsOk(w.(s := s')) && Absorbing(w.s, s')
  {
    forall i | 0 <= i < |w.s.tasks|
      ensures s'.tasks[i].state == w.s.tasks[i].state && s'.tasks[i].parent == w.s.tasks[i].parent
      ensures s'.tasks[i].exitCode == w.s.tasks[i].exitCode
    {
      assert s'.tasks[i].(next := 0) == w.s.tasks[i].(next := 0);
    }
  }

  lemma StartWaits(w: World)
    requires WaitsOk(w) && w.s.tasks != [] && w.s.tasks[0].state == Ready
    ensures WaitsOk(w.(s := Started(w.s))) && Absorbing(w.s, Started(w.s))
  {
  }

  lemma WakeWaits(w: World, t: nat)
    requires WaitsOk(w) && t < |w.s.tasks| && t !in w.waits
    ensures var s' := w.s.(tasks := Woken(w.s.tasks, t)); WaitsOk(w.(s := s')) && Absorbing(w.s, s')
  {
  }

  lemma ReturnWaits(w: World)
    requires WaitsOk(w) && CurrentRuns(w.s) && w.s.current in w.waits
    ensures WaitsOk(w.(waits := w.waits - {w.s.current}))
  {
  }

  /** A task that resumes inside waitForTask finds its target terminated and returns the code of the kill. */
  lemma WaitReturnsKillCode(w: World)
    requires Ok(w.s) && WaitsOk(w) && CurrentRuns(w.s) && w.s.current in w.waits
    ensures var t := w.waits[w.s.current];
      0 <= t < |w.s.tasks| && w.s.tasks[t].state == Terminated && t in w.codes && w.s.tasks[t].exitCode == w.codes[t]
  {
    hide Ok;
  }

  // ---------- several waiters ----------

  /** A target records one waiter: a task blocked in waitForTask is made ready by the kill of its target exactly if it
      is the one recorded there (and does not wait for itself). */
  lemma KillWakes(w: World, op: Op, x: nat)
    requires Ok(w.s) && WaitsOk(w) && Kills(w.s, op)
    requires x in w.waits && w.waits[x] == op.id - 1 && w.s.tasks[x].state == Blocked
    ensures |Next(w, op).s.tasks| == |w.s.tasks|
    ensures Next(w, op).s.tasks[x].state == Ready <==> w.s.tasks[op.id - 1].parent == x && x != op.id - 1
    ensures x != op.id - 1 && w.s.tasks[op.id - 1].parent != x ==> Next(w, op).s.tasks[x].state == Blocked
  {
    hide Ok; hide Killed;
    KillStates(w.s, op.id - 1, op.code);
    ParentIn(w.s, op.id - 1);
  }

  /** Every task that is being waited for records its waiter, so has but one. */
  ghost predicate OneWaiterEach(w: World)
    requires WaitsOk(w)
  {
    forall x :: x in w.waits && w.s.tasks[w.waits[x]].state != Terminated ==> w.s.tasks[w.waits[x]].parent == x
  }

  /** A wait keeps that exactly if nobody waits for its target already. */
  lemma SecondWaiter(w: World, op: Op)
    requires Ok(w.s) && WaitsOk(w) && OneWaiterEach(w) && Proper(w, op) && Waits(w.s, op)
    ensures WaitsOk(Next(w, op))
    ensures OneWaiterEach(Next(w, op)) <==> forall x :: x in w.waits ==> w.waits[x] != op.id - 1
    ensures forall x :: x in w.waits && w.waits[x] == op.id - 1 ==> Next(w, op).s.tasks[op.id - 1].parent != x
  {
    hide Ticked; hide Tickable; hide SomeReady; hide StacksOk; hide WaitsOk;
    NextKeeps(w, op);
    var s, c, t := w.s, w.s.current, op.id - 1;
    var p := s.(tasks := s.tasks[t := s.tasks[t].(parent := c)]);
    ParentOk(s, t);
    var b := s.(tasks := WithState(p.tasks, c, Blocked));
    BlockTickable(p);
    var i: nat :| i < |s.tasks| && s.tasks[i].state == Ready;
    Reader(b, i);
    TickMoves(b, op.regs);
    WaitsThere(w);
    WaitParents(w, op, b);
  }

  lemma WaitsThere(w: World)
    requires WaitsOk(w)
    ensures forall x :: x in w.waits ==> 0 <= x < |w.s.tasks| && 0 <= w.waits[x] < |w.s.tasks|
  {
  }

  lemma WaitParents(w: World, op: Op, b: Sched)
    requires Ok(w.s) && WaitsOk(w) && OneWaiterEach(w) && Waits(w.s, op) && w.s.current !in w.waits
    requires Tickable(b) && b == w.s.(tasks := b.tasks) && |b.tasks| == |w.s.tasks|
    requires InRing(b.pending, |b.tasks|) && Next(w, op).s == Ticked(b, op.regs)
    requires |Ticked(b, op.regs).tasks| == |b.tasks|
    requires forall i :: 0 <= i < |b.tasks| ==>
      && b.tasks[i].parent == (if i == op.id - 1 then w.s.current else w.s.tasks[i].parent)
      && (b.tasks[i].state == Terminated <==> w.s.tasks[i].state == Terminated)
      && Ticked(b, op.regs).tasks[i].parent == b.tasks[i].parent
      && (Ticked(b, op.regs).tasks[i].state == Terminated <==> b.tasks[i].state == Terminated)
    requires WaitsOk(Next(w, op))
    ensures OneWaiterEach(Next(w, op)) <==> forall x :: x in w.waits ==> w.waits[x] != op.id - 1
    ensures forall x :: x in w.waits && w.waits[x] == op.id - 1 ==> Next(w, op).s.tasks[op.id - 1].parent != x
  {
    hide Ticked; hide Tickable; hide Ok;
    WaitsThere(w);
    var w', t := Next(w, op), op.id - 1;
    forall x | x in w.waits && w.waits[x] == t ensures w'.s.tasks[t].parent != x && !OneWaiterEach(w') {
      assert x in w'.waits && w'.waits[x] == t && w'.s.tasks[t].state != Terminated;
    }
  }

  lemma AfterWait(w: World, op: Op)
    requires Ok(w.s) && WaitsOk(w) && Proper(w, op) && Waits(w.s, op)
    ensures |Next(w, op).s.tasks| == |w.s.tasks| && Next(w, op).s.tasks[op.id - 1].state != Terminated
    ensures forall x ::
      0 <= x < |w.s.tasks| && w.s.tasks[x].state == Blocked ==> Next(w, op).s.tasks[x].state == Blocked
  {
    hide Ticked; hide Tickable; hide SomeReady; hide StacksOk; hide WaitsOk;
    var s, c, t := w.s, w.s.current, op.id - 1;
    var p := s.(tasks := s.tasks[t := s.tasks[t].(parent := c)]);
    ParentOk(s, t);
    var b := s.(tasks := WithState(p.tasks, c, Blocked));
    BlockTickable(p);
    var i: nat :| i < |s.tasks| && s.tasks[i].state == Ready;
    Reader(b, i);
    TickMoves(b, op.regs);
  }

  /** So when a second task waits for the same target, the first stays blocked after the target is killed. */
  lemma FirstWaiterLeft(w: World, op: Op, x: nat, code: int)
    requires Ok(w.s) && WaitsOk(w) && OneWaiterEach(w) && Proper(w, op) && Waits(w.s, op)
    requires x in w.waits && w.waits[x] == op.id - 1 && x != op.id - 1 && w.s.tasks[x].state == Blocked
    ensures Ok(Next(w, op).s)
    ensures var w' := Next(Next(w, op), Kill(op.id, code));
      && |w'.s.tasks| == |w.s.tasks| && x in w'.waits && w'.waits[x] == op.id - 1
      && w'.s.tasks[x].state == Blocked && w'.s.tasks[op.id - 1].state == Terminated
  {
    hide Ok; hide Step; hide WaitsOk; hide Proper; hide OneWaiterEach;
    NextKeeps(w, op);
    SecondWaiter(w, op);
    AfterWait(w, op);
    var w1, kill := Next(w, op), Kill(op.id, code);
    WaitsThere(w);
    KillWakes(w1, kill, x);
    Terminates(w1.s, kill);
  }

  lemma Terminates(s: Sched, op: Op)
    requires Ok(s) && Kills(s, op)
    ensures |Step(s, op).tasks| == |s.tasks| && Step(s, op).tasks[op.id - 1].state == Terminated
  {
    hide Ok; hide Killed;
    KillStates(s, op.id - 1, op.code);
  }

  /** A run in which that happens: task 1 waits for task 4, then task 2 does, then task 4 is killed. */
  lemma TwoWaiters(code: int) returns (w: World)
    ensures Ok(w.s) && WaitsOk(w) && OneWaiterEach(w) && Proper(w, Wait(4, 0)) && Waits(w.s, Wait(4, 0))
    ensures Ok(Next(w, Wait(4, 0)).s)
    ensures var w' := Next(Next(w, Wait(4, 0)), Kill(4, code));
      && |w'.s.tasks| == 4 && 0 in w'.waits && w'.waits[0] == 3
      && w'.s.tasks[0].state == Blocked && w'.s.tasks[3].state == Terminated
  {
    var tasks := [Task(1, Blocked, 1, 0, 0, 0, NULL, 1), Task(2, Running, 2, 0, 0, 0, NULL, 2),
                  Task(3, Ready, 3, 0, 0, 0, NULL, 3), Task(4, Ready, 4, 0, 0, 0, 0, 0)];
    w := World(Sched(tasks, 1, 3, 5, true, [], [], 0, 0), map[0 := 3], map[]);
    TwoWaitersOk(w.s);
    assert tasks[2].state == Ready;
    FirstWaiterLeft(w, Wait(4, 0), 0, code);
  }

  lemma TwoWaitersOk(s: Sched)
    requires s == Sched([Task(1, Blocked, 1, 0, 0, 0, NULL, 1), Task(2, Running, 2, 0, 0, 0, NULL, 2),
                         Task(3, Ready, 3, 0, 0, 0, NULL, 3), Task(4, Ready, 4, 0, 0, 0, 0, 0)],
                        1, 3, 5, true, [], [], 0, 0)
    ensures Ok(s)
  {
  }

  /** Every other step keeps one waiter to a target. */
  lemma NextKeepsOne(w: World, op: Op)
    requires Ok(w.s) && WaitsOk(w) && OneWaiterEach(w) && Proper(w, op)
    requires Waits(w.s, op) ==> forall x :: x in w.waits ==> w.waits[x] != op.id - 1
    ensures WaitsOk(Next(w, op)) && OneWaiterEach(Next(w, op))
  {
    hide Ok; hide Ticked; hide Killed; hide WaitsOk; hide SomeReady; hide Tickable;
    NextKeeps(w, op);
    WaitsThere(w);
    match op
    case Tick(regs) => if w.s.started { OkTickable(w.s); TickMoves(w.s, regs); }
    case Block(regs) =>
      if CurrentRuns(w.s) {
        var b := w.s.(tasks := WithState(w.s.tasks, w.s.current, Blocked));
        BlockTickable(w.s);
        var i: nat :| i < |w.s.tasks| && w.s.tasks[i].state == Ready;
        Reader(b, i);
        TickMoves(b, regs);
      }
    case Wait(_, _) => if Waits(w.s, op) { SecondWaiter(w, op); }
    case Kill(id, code) => if Kills(w.s, op) { KillStates(w.s, id - 1, code); ParentIn(w.s, id - 1); }
    case _ =>
  }

  ghost predicate ProperRun(w: World, ops: seq<Op>)
    requires Ok(w.s) && WaitsOk(w)
    decreases |ops|
  {
    ops == [] || (Proper(w, ops[0]) && (NextKeeps(w, ops[0]); ProperRun(Next(w, ops[0]), ops[1..])))
  }

  ghost function After(w: World, ops: seq<Op>): World
    requires Ok(w.s) && WaitsOk(w) && ProperRun(w, ops)
    decreases |ops|
  {
    if ops == [] then w else NextKeeps(w, ops[0]); After(Next(w, ops[0]), ops[1..])
  }

  /** Over whole runs: termination is for good, and the books of waiting stay right. */
  lemma {:induction false} RunKeeps(w: World, ops: seq<Op>)
    requires Ok(w.s) && WaitsOk(w) && ProperRun(w, ops)
    ensures var w' := After(w, ops); Ok(w'.s) && WaitsOk(w') && Absorbing(w.s, w'.s)
    decreases |ops|
  {
    hide Ok; hide WaitsOk; hide Proper; hide Next;
    if ops != [] {
      NextKeeps(w, ops[0]);
      RunKeeps(Next(w, ops[0]), ops[1..]);
    }
  }
}
