/** Where tasks resume: the context a task is switched away with is the one it is resumed with, and a task that has not
    run yet begins with the frame and in the address space it was created with. */
module SchedulerContexts {
  import opened Tasks
  import opened SchedulerRun

  // ---------- one step ----------

  /** The step takes the processor away from the current task, for a moment at least. */
  predicate Switches(s: Sched, op: Op) {
    (op.Tick? && s.started) || (op.Block? && CurrentRuns(s)) || Waits(s, op)
  }

  /** Task t is switched away from with context regs. */
  predicate Leaves(s: Sched, op: Op, t: nat) { Switches(s, op) && s.current == t }

  function RegsOf(op: Op): nat
    requires op.Tick? || op.Block? || op.Wait?
  {
    match op
    case Tick(regs) => regs
    case Block(regs) => regs
    case Wait(_, regs) => regs
  }

  /** The step ends with the processor resuming task t. */
  ghost predicate Resumes(s: Sched, op: Op, t: nat)
    requires Ok(s)
  {
    (Switches(s, op) || (op.Start? && s.tasks != [] && !s.started)) && Step(s, op).current == t
  }

  lemma SwitchContexts(s: Sched, op: Op)
    requires Ok(s) && Switches(s, op)
    ensures var s' := Step(s, op); |s'.tasks| == |s.tasks| && 0 <= s.current < |s.tasks| && 0 <= s'.current < |s.tasks|
    ensures var s' := Step(s, op);
      forall i :: 0 <= i < |s.tasks| ==>
        && s'.tasks[i].rsp == (if i == s.current then RegsOf(op) else s.tasks[i].rsp)
        && s'.tasks[i].space == s.tasks[i].space
    ensures var s' := Step(s, op);
      && s'.nextRsp == (if s'.current == s.current then RegsOf(op) else s.tasks[s'.current].rsp)
      && s'.cr3 == s.tasks[s'.current].space
  {
    hide Ticked; hide Tickable; hide RingOk; hide StacksOk;
    match op
    case Tick(regs) =>
      OkTickable(s);
      TickContexts(s, regs);
    case Block(regs) =>
      BlockTickable(s);
      TickContexts(s.(tasks := WithState(s.tasks, s.current, Blocked)), regs);
    case Wait(id, regs) =>
      var p := s.(tasks := s.tasks[id - 1 := s.tasks[id - 1].(parent := s.current)]);
      ParentOk(s, id - 1);
      BlockTickable(p);
      TickContexts(p.(tasks := WithState(p.tasks, p.current, Blocked)), regs);
  }

  /** Every other step leaves all contexts alone. */
  lemma QuietContexts(s: Sched, op: Op)
    requires Ok(s) && !Switches(s, op)
    ensures var s' := Step(s, op); |s.tasks| <= |s'.tasks|
    ensures var s' := Step(s, op);
      forall i :: 0 <= i < |s.tasks| ==> s'.tasks[i].rsp == s.tasks[i].rsp && s'.tasks[i].space == s.tasks[i].space
    ensures var s' := Step(s, op);
      op.Start? && s.tasks != [] && !s.started ==>
        0 <= s'.current < |s.tasks| && s'.nextRsp == s.tasks[s'.current].rsp && s'.cr3 == s.tasks[s'.current].space
  {
    hide StacksOk; hide Ticked; hide RunningOk;
    if op.Kill? && Kills(s, op) { KillMeans(s, op.id - 1, op.code); }
  }

  // ---------- what the other steps mean ----------

  /** Creating appends one ready task with what it was given, and changes of the others only the link of the last. */
  lemma CreateMeans(s: Sched, stack: nat, rsp: nat, space: nat)
    requires Ok(s) && stack != 0
    ensures var s', n := Step(s, Create(stack, rsp, space)), |s.tasks|;
      && |s'.tasks| == n + 1 && s'.tail == n && s' == s.(tasks := s'.tasks, tail := n, nextId := n + 2)
      && s'.tasks[n] == Task(n + 1, Ready, stack, rsp, space, 0, NULL, 0)
      && forall i :: 0 <= i < n ==> s'.tasks[i] == s.tasks[i].(next := i + 1)
  {
    hide StacksOk; hide RunningOk;
    var s', n := Step(s, Create(stack, rsp, space)), |s.tasks|;
    forall i | 0 <= i < n ensures s'.tasks[i] == s.tasks[i].(next := i + 1) {
      assert s.tasks[i].next == Along(n, i, 1);
    }
  }

  /** Starting runs the first task that was created. */
  lemma StartMeans(s: Sched)
    requires Ok(s) && s.tasks != [] && !s.started
    ensures var s' := Step(s, Start);
      && s'.started && s'.current == 0 && s'.tasks[0].id == 1 && s'.tasks == s.tasks[0 := s.tasks[0].(state := Running)]
      && s'.nextRsp == s.tasks[0].rsp && s'.cr3 == s.tasks[0].space
  {
  }

  /** Waking makes a blocked task ready and changes nothing else. */
  lemma WakeMeans(s: Sched, t: nat)
    requires Ok(s) && t < |s.tasks|
    ensures s.tasks[t].state == Blocked ==>
      Step(s, Wake(t)) == s.(tasks := s.tasks[t := s.tasks[t].(state := Ready)])
    ensures s.tasks[t].state != Blocked ==> Step(s, Wake(t)) == s
  {
  }

  /** Killing changes of each task only state, exit code and waiter; the target is queued once if somebody waited for it
      and twice if not, as far as the queue has room. */
  lemma KillMeans(s: Sched, i: nat, code: int)
    requires Ok(s) && i < |s.tasks| && s.tasks[i].state != Terminated
    ensures NULL <= s.tasks[i].parent < |s.tasks|
    ensures var s' := Killed(s, i, code);
      && |s'.tasks| == |s.tasks| && s' == s.(tasks := s'.tasks, pending := s'.pending)
      && forall j :: 0 <= j < |s.tasks| ==>
           s'.tasks[j] == s.tasks[j].(state := s'.tasks[j].state, exitCode := s'.tasks[j].exitCode,
                                      parent := s'.tasks[j].parent)
    ensures var s' := Killed(s, i, code);
      s'.pending == s.pending + seq(Entries(|s.pending|, if s.tasks[i].parent == NULL then 2 else 1), _ => i)
  {
    hide RunningOk; hide RingOk;
    ParentIn(s, i);
    QueueFits(s);
  }

  lemma QueueFits(s: Sched)
    requires Ok(s)
    ensures |s.pending| <= 8
  {
  }

  /** How many of n entries a queue of eight takes. */
  function Entries(length: nat, n: nat): nat { if length + n <= 8 then n else if length < 8 then 8 - length else 0 }

  /** A task that blocks is blocked afterwards, unless nothing was ready and it runs on. */
  lemma BlockMeans(s: Sched, regs: nat)
    requires Ok(s) && CurrentRuns(s)
    ensures var s' := Step(s, Block(regs));
      && |s'.tasks| == |s.tasks|
      && s'.tasks[s.current].state ==
         if exists i :: 0 <= i < |s.tasks| && s.tasks[i].state == Ready then Blocked else Running
  {
    hide Ticked; hide Tickable; hide RingOk; hide StacksOk;
    BlockComesBack(s, regs);
    BlockTickable(s);
    TickStates(s.(tasks := WithState(s.tasks, s.current, Blocked)), regs);
  }

  // ---------- whole runs ----------

  ghost predicate Trace(ops: seq<Op>, states: seq<Sched>) {
    && |states| == |ops| + 1 && (forall k :: 0 <= k < |states| ==> Ok(states[k]))
    && (forall k :: 0 <= k < |ops| ==> states[k + 1] == Step(states[k], ops[k]))
  }

  lemma StepContext(s: Sched, op: Op, t: nat)
    requires Ok(s) && t < |s.tasks| && !Leaves(s, op, t)
    ensures t < |Step(s, op).tasks|
    ensures Step(s, op).tasks[t].rsp == s.tasks[t].rsp && Step(s, op).tasks[t].space == s.tasks[t].space
  {
    hide Step; hide Ok; hide Switches;
    if Switches(s, op) { SwitchContexts(s, op); } else { QuietContexts(s, op); }
  }

  /** As long as a task is not switched away from, its saved context stays. */
  lemma {:induction false} ContextStays(ops: seq<Op>, states: seq<Sched>, i: nat, j: nat, t: nat)
    requires Trace(ops, states) && i <= j <= |ops| && t < |states[i].tasks|
    requires forall k :: i <= k < j ==> !Leaves(states[k], ops[k], t)
    ensures t < |states[j].tasks|
    ensures states[j].tasks[t].rsp == states[i].tasks[t].rsp && states[j].tasks[t].space == states[i].tasks[t].space
    decreases j
  {
    hide Step; hide Ok; hide Leaves;
    if i < j {
      ContextStays(ops, states, i, j - 1, t);
      StepContext(states[j - 1], ops[j - 1], t);
    }
  }

  /** A step that resumes t without leaving it resumes its saved context, in its address space. */
  lemma ResumesSaved(s: Sched, op: Op, t: nat)
    requires Ok(s) && t < |s.tasks| && Resumes(s, op, t) && !Leaves(s, op, t)
    ensures Step(s, op).nextRsp == s.tasks[t].rsp && Step(s, op).cr3 == s.tasks[t].space
  {
    hide Step; hide Ok; hide Switches;
    if Switches(s, op) { SwitchContexts(s, op); } else { QuietContexts(s, op); }
  }

  /** In every run, a task that is resumed resumes with the context it was last switched away with. */
  lemma ResumesWhereItLeft(ops: seq<Op>, states: seq<Sched>, i: nat, j: nat, t: nat)
    requires Trace(ops, states) && i <= j < |ops| && Leaves(states[i], ops[i], t)
    requires forall k :: i < k <= j ==> !Leaves(states[k], ops[k], t)
    requires Resumes(states[j], ops[j], t)
    ensures states[j + 1].nextRsp == RegsOf(ops[i])
    ensures t < |states[i].tasks| && states[j + 1].cr3 == states[i].tasks[t].space
  {
    hide Step; hide Ok; hide Resumes;
    SwitchContexts(states[i], ops[i]);
    if i == j {
      assert states[j + 1].current == t by { ResumesAt(states[j], ops[j], t); }
    } else {
      ContextStays(ops, states, i + 1, j, t);
      ResumesSaved(states[j], ops[j], t);
    }
  }

  lemma ResumesAt(s: Sched, op: Op, t: nat)
    requires Ok(s) && Resumes(s, op, t)
    ensures Step(s, op).current == t
  {
  }

  /** And a task that has never been switched away from begins with the frame and space it was created with. */
  lemma BeginsAsCreated(ops: seq<Op>, states: seq<Sched>, i: nat, j: nat)
    requires Trace(ops, states) && i < j < |ops| && ops[i].Create? && ops[i].stack != 0
    requires forall k :: i < k <= j ==> !Leaves(states[k], ops[k], |states[i].tasks|)
    requires Resumes(states[j], ops[j], |states[i].tasks|)
    ensures states[j + 1].nextRsp == ops[i].rsp && states[j + 1].cr3 == ops[i].space
  {
    hide Step; hide Ok; hide Resumes; hide Leaves;
    var t := |states[i].tasks|;
    CreateMeans(states[i], ops[i].stack, ops[i].rsp, ops[i].space);
    ContextStays(ops, states, i + 1, j, t);
    ResumesSaved(states[j], ops[j], t);
  }
}
