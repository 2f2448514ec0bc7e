/**
 The shared solenoid pulse driver as a state machine: tasks that pulse a coil
 and wait, requests that do not wait, an idle service for queued requests, and
 the realtime interrupt.  Code between two sleeps is one step, and the
 interrupt is a step of its own.
 */
module Sol {
  import opened Machine
  import Queues

  const SOL_REQ_QUEUE_LEN := 8

  // The pulse parameters of each coil the driver can reach.
  datatype Coil = Coil(duty: bv8, time: U8)

  // Coils whose register exists; solenoid numbers stay clear of the lock's
  // reserved values.
  type Coils = c: seq<Coil> | |c| < 0x7f

  type Task = nat

  // Where a task stands in sol_request.
  datatype Phase = Waiting(sol: U8) | Pulsing(sol: U8)

  // What made the driver start the current pulse.
  datatype Starter = Nobody | Direct | BySync(task: Task)

  /**
   lock is req_lock; timer and duty drive the current pulse of coil cur; on is
   the set of coils whose output bit is set.  tasks, starter, finished, asked
   and served record what happened: the tasks inside sol_request, the origin of
   the running pulse, the tasks whose own pulse ran to its end, and the
   requests put in and taken out of the queue.
   */
  datatype State = State(
    lock: U8, timer: U8, duty: bv8, cur: nat, on: set<nat>, queue: seq<U8>,
    tasks: map<Task, Phase>, starter: Starter, finished: set<Task>, asked: seq<U8>, served: seq<U8>)

  function Init(): State {
    State(0, 0, 0, 0, {}, [], map[], Nobody, {}, [], [])
  }

  // (sol + 1) | 0x80 on bytes.
  function LockValue(sol: U8): (v: U8)
    ensures v >= 0x80
    ensures v != 0x80 <==> sol != 0x7f && sol != 0xff
  {
    var x := Wrap8(sol + 1);
    if x >= 0x80 then x else x + 0x80
  }

  function StartSpecific(c: Coils, s: State, sol: U8, duty: bv8, time: U8, who: Starter): State {
    if s.timer != 0 || sol >= |c| then s
    else s.(cur := sol, duty := duty, timer := time / 4, starter := who)
  }

  function ReqStart(c: Coils, s: State, sol: U8, who: Starter): State {
    if sol < |c| then StartSpecific(c, s, sol, c[sol].duty, c[sol].time, who) else s
  }

  function Async(c: Coils, s: State, sol: U8): State {
    if s.timer == 0 then ReqStart(c, s, sol, Direct)
    else s.(queue := Queues.Insert(s.queue, SOL_REQ_QUEUE_LEN, sol), asked := s.asked + [sol])
  }

  function Idle(c: Coils, s: State): State {
    if s.timer == 0 && s.queue != [] then
      ReqStart(c, s.(queue := s.queue[1..], served := s.served + [s.queue[0]]), s.queue[0], Direct)
    else s
  }

  // A task enters sol_request.
  function Request(s: State, k: Task, sol: U8): State {
    s.(tasks := s.tasks[k := Waiting(sol)])
  }

  // A task inside sol_request wakes up.
  function Wake(c: Coils, s: State, k: Task): State
    requires k in s.tasks
  {
    match s.tasks[k]
    case Waiting(sol) =>
      if s.lock != 0 || s.timer != 0 then s
      else ReqStart(c, s.(lock := LockValue(sol), tasks := s.tasks[k := Pulsing(sol)], finished := s.finished - {k}), sol, BySync(k))
    case Pulsing(_) =>
      if s.lock != 0x80 then s
      else s.(lock := 0, tasks := s.tasks - {k})
  }

  // A task is killed inside sol_request: it never wakes up again there.
  function Kill(s: State, k: Task): State { s.(tasks := s.tasks - {k}) }

  function ModifyDuty(s: State, duty: bv8): State { s.(duty := duty) }

  function ModifyTimeout(s: State, timeout: U8): State { s.(timer := timeout / 4) }

  // The realtime update; `strobe` is the current duty strobe mask.
  function Tick(s: State, strobe: bv8): State {
    if s.timer == 0 then s
    else if s.timer - 1 != 0 && s.duty & strobe != 0 then
      s.(timer := s.timer - 1, on := s.on + {s.cur})
    else if s.timer - 1 != 0 then
      s.(timer := s.timer - 1, on := s.on - {s.cur})
    else
      s.(timer := 0, on := s.on - {s.cur}, duty := 0, lock := if s.lock != 0 then 0x80 else 0,
         starter := Nobody, finished := if s.starter.BySync? then s.finished + {s.starter.task} else s.finished)
  }

  // ---------- the invariant ----------

  predicate GoodCoils(c: Coils) {
    forall i | 0 <= i < |c| :: c[i].time >= 4
  }

  // Only the current coil is ever driven, and only while the timer runs.
  ghost predicate OutputSafe(s: State) {
    s.on <= {s.cur} && (s.timer == 0 ==> s.on == {})
  }

  // The task that holds the lock waits for its own pulse, which is on the coil it
  // asked for, or that pulse is over.
  ghost predicate HolderSafe(s: State, k: Task)
    requires k in s.tasks && s.tasks[k].Pulsing?
  {
    || (s.lock == LockValue(s.tasks[k].sol) && s.lock != 0x80 && s.timer > 0 && s.cur == s.tasks[k].sol
        && s.starter == BySync(k) && k !in s.finished)
    || (s.lock == 0x80 && k in s.finished && !s.starter.BySync?)
  }

  // What holds whatever tasks are killed: at most one task is between taking
  // and releasing the lock, and it waits for its own pulse.
  ghost predicate Safe(c: Coils, s: State) {
    && OutputSafe(s)
    && (forall k | k in s.tasks :: s.tasks[k].sol < |c|)
    && (forall k | k in s.tasks && s.tasks[k].Pulsing? :: HolderSafe(s, k))
    && (forall j, k | j in s.tasks && k in s.tasks && s.tasks[j].Pulsing? && s.tasks[k].Pulsing? :: j == k)
  }

  predicate Idling(s: State) {
    forall k | k in s.tasks :: s.tasks[k].Waiting?
  }

  predicate Awaited(s: State) {
    s.starter.BySync? && s.starter.task in s.tasks && s.tasks[s.starter.task].Pulsing?
  }

  // The lock is held only by a task that will release it.
  ghost predicate Available(s: State) {
    && (Idling(s) ==> s.lock == 0)
    && (s.starter.BySync? ==> Awaited(s))
  }

  ghost predicate Inv(c: Coils, s: State) {
    Safe(c, s) && Available(s)
  }

  datatype Step =
    | DoRequest(task: Task, sol: U8)
    | DoWake(task: Task)
    | DoKill(task: Task)
    | DoAsync(sol: U8)
    | DoIdle
    | DoModifyDuty(duty: bv8)
    | DoModifyTimeout(timeout: U8)
    | DoTick(strobe: bv8)

  predicate Enabled(c: Coils, s: State, e: Step) {
    match e
    case DoRequest(k, sol) => k !in s.tasks && sol < |c|
    case DoWake(k) => k in s.tasks
    case DoKill(k) => k in s.tasks
    case _ => true
  }

  function Next(c: Coils, s: State, e: Step): State
    requires Enabled(c, s, e)
  {
    match e
    case DoRequest(k, sol) => Request(s, k, sol)
    case DoWake(k) => Wake(c, s, k)
    case DoKill(k) => Kill(s, k)
    case DoAsync(sol) => Async(c, s, sol)
    case DoIdle => Idle(c, s)
    case DoModifyDuty(duty) => ModifyDuty(s, duty)
    case DoModifyTimeout(timeout) => ModifyTimeout(s, timeout)
    case DoTick(strobe) => Tick(s, strobe)
  }

  // A new timeout may stop the countdown only when nothing depends on it.
  predicate TimeoutSafe(s: State, e: Step) {
    e.DoModifyTimeout? ==> e.timeout >= 4 || s.timer == 0 || (s.on == {} && !Awaited(s))
  }

  // A killed task does not hold the lock.
  predicate KillSafe(s: State, e: Step) {
    e.DoKill? ==> e.task in s.tasks && s.tasks[e.task].Waiting?
  }

  lemma WakeKeeps(c: Coils, s: State, k: Task)
    requires Safe(c, s) && GoodCoils(c) && k in s.tasks
    ensures Safe(c, Wake(c, s, k)) && (Available(s) ==> Available(Wake(c, s, k)))
  {
    var s' := Wake(c, s, k);
    if s.tasks[k].Waiting? && s.lock == 0 && s.timer == 0 {
      assert forall j | j in s.tasks && j != k :: j in s'.tasks && s'.tasks[j] == s.tasks[j];
      forall j | j in s.tasks ensures s.tasks[j].Waiting? {
        assert s.tasks[j].Pulsing? ==> HolderSafe(s, j);
      }
      assert HolderSafe(s', k);
    } else if s.tasks[k].Pulsing? {
      assert HolderSafe(s, k);
    }
  }

  // Steps that leave the lock, the waiting tasks and the countdown alone.
  lemma QuietKeeps(c: Coils, s: State, s': State)
    requires Safe(c, s) && OutputSafe(s')
    requires s'.lock == s.lock && s'.tasks == s.tasks && s'.finished == s.finished
    requires s.timer > 0 ==> s'.timer > 0 && s'.cur == s.cur && s'.starter == s.starter
    requires s.timer == 0 ==> !s'.starter.BySync? || s'.starter == s.starter
    ensures Safe(c, s') && (Available(s) ==> Available(s'))
  {
    forall k | k in s'.tasks && s'.tasks[k].Pulsing? ensures HolderSafe(s', k) {
      assert HolderSafe(s, k);
    }
  }

  lemma RequestKeeps(c: Coils, s: State, k: Task, sol: U8)
    requires Safe(c, s) && k !in s.tasks && sol < |c|
    ensures Safe(c, Request(s, k, sol)) && (Available(s) ==> Available(Request(s, k, sol)))
  {
    var s' := Request(s, k, sol);
    assert forall j | j in s.tasks :: s'.tasks[j] == s.tasks[j];
    if Idling(s') {
      assert forall j | j in s.tasks :: s'.tasks[j].Waiting?;
    }
    assert forall j | j in s'.tasks && s'.tasks[j].Pulsing? :: HolderSafe(s, j);
  }

  lemma TickKeeps(c: Coils, s: State, strobe: bv8)
    requires Safe(c, s)
    ensures Safe(c, Tick(s, strobe)) && (Available(s) ==> Available(Tick(s, strobe)))
  {
    assert forall j | j in s.tasks && s.tasks[j].Pulsing? :: HolderSafe(s, j);
  }

  lemma TimeoutInvIff(c: Coils, s: State, timeout: U8)
    requires Safe(c, s)
    ensures Safe(c, ModifyTimeout(s, timeout)) <==> TimeoutSafe(s, DoModifyTimeout(timeout))
    ensures Available(s) ==> Available(ModifyTimeout(s, timeout))
  {
    var s' := ModifyTimeout(s, timeout);
    if timeout >= 4 || s.timer == 0 {
      if timeout >= 4 { QuietKeeps(c, s, s'); }
    } else {
      forall j | j in s.tasks && s.tasks[j].Pulsing? ensures HolderSafe(s', j) <==> !Awaited(s) {
        assert HolderSafe(s, j);
      }
    }
  }

  // Killing a task never makes the driver unsafe; it keeps the driver available
  // if and only if the task was still waiting for the lock.
  lemma KillInvIff(c: Coils, s: State, k: Task)
    requires Safe(c, s) && k in s.tasks
    ensures Safe(c, Kill(s, k))
    ensures Inv(c, s) ==> (Inv(c, Kill(s, k)) <==> s.tasks[k].Waiting?)
  {
    var s' := Kill(s, k);
    assert forall j | j in s'.tasks && s'.tasks[j].Pulsing? :: HolderSafe(s, j);
    if s.tasks[k].Pulsing? {
      assert HolderSafe(s, k);
      assert Idling(s');
    } else if Idling(s') {
      assert forall j | j in s.tasks && j != k :: s'.tasks[j] == s.tasks[j];
    }
  }

  // What every step does to safety and availability.
  lemma StepKeeps(c: Coils, s: State, e: Step)
    requires Safe(c, s) && GoodCoils(c) && Enabled(c, s, e)
    ensures Safe(c, Next(c, s, e)) <==> TimeoutSafe(s, e)
    ensures Available(s) && !e.DoKill? ==> Available(Next(c, s, e))
  {
    match e
    case DoWake(k) => WakeKeeps(c, s, k);
    case DoKill(k) => KillInvIff(c, s, k);
    case DoRequest(k, sol) => RequestKeeps(c, s, k, sol);
    case DoTick(strobe) => TickKeeps(c, s, strobe);
    case DoModifyTimeout(timeout) => TimeoutInvIff(c, s, timeout);
    case DoAsync(sol) => QuietKeeps(c, s, Async(c, s, sol));
    case DoIdle => QuietKeeps(c, s, Idle(c, s));
    case DoModifyDuty(duty) => QuietKeeps(c, s, ModifyDuty(s, duty));
  }

  // The exact condition under which a step keeps the driver safe and available:
  // a changed timeout of less than one tick does not cut a pulse that is being
  // driven or waited for, and the task that holds the lock is not killed.
  lemma StepInvIff(c: Coils, s: State, e: Step)
    requires Inv(c, s) && GoodCoils(c) && Enabled(c, s, e)
    ensures Inv(c, Next(c, s, e)) <==> TimeoutSafe(s, e) && KillSafe(s, e)
  {
    StepKeeps(c, s, e);
    if e.DoKill? { KillInvIff(c, s, e.task); }
  }

  // ---------- whole runs ----------

  // Tasks may be killed anywhere; timeouts are modified as the callers must.
  ghost predicate ProperRun(c: Coils, s: State, steps: seq<Step>)
    decreases |steps|
  {
    steps == [] ||
    (Enabled(c, s, steps[0]) && TimeoutSafe(s, steps[0]) && ProperRun(c, Next(c, s, steps[0]), steps[1..]))
  }

  ghost function Run(c: Coils, s: State, steps: seq<Step>): State
    requires ProperRun(c, s, steps)
    decreases |steps|
  {
    if steps == [] then s else Run(c, Next(c, s, steps[0]), steps[1..])
  }

  // No task is killed while it holds the lock.
  ghost predicate HoldersLive(c: Coils, s: State, steps: seq<Step>)
    requires ProperRun(c, s, steps)
    decreases |steps|
  {
    steps == [] || (KillSafe(s, steps[0]) && HoldersLive(c, Next(c, s, steps[0]), steps[1..]))
  }

  // Over every interleaving, killed tasks included, at most one task is between
  // taking and releasing the lock, at most one output is driven, and none once
  // the timer is zero.
  lemma {:induction false} RunKeepsSafe(c: Coils, s: State, steps: seq<Step>)
    requires Safe(c, s) && GoodCoils(c) && ProperRun(c, s, steps)
    ensures Safe(c, Run(c, s, steps))
    decreases |steps|
  {
    if steps != [] {
      StepKeeps(c, s, steps[0]);
      RunKeepsSafe(c, Next(c, s, steps[0]), steps[1..]);
    }
  }

  // The driver stays available as long as no task is killed while it holds
  // the lock.
  lemma {:induction false} RunKeepsInv(c: Coils, s: State, steps: seq<Step>)
    requires Inv(c, s) && GoodCoils(c) && ProperRun(c, s, steps) && HoldersLive(c, s, steps)
    ensures Inv(c, Run(c, s, steps))
    decreases |steps|
  {
    if steps != [] {
      StepInvIff(c, s, steps[0]);
      RunKeepsInv(c, Next(c, s, steps[0]), steps[1..]);
    }
  }

  lemma ReachableInv(c: Coils, steps: seq<Step>)
    requires GoodCoils(c) && ProperRun(c, Init(), steps)
    ensures Safe(c, Run(c, Init(), steps))
    ensures HoldersLive(c, Init(), steps) ==> Inv(c, Run(c, Init(), steps))
  {
    RunKeepsSafe(c, Init(), steps);
    if HoldersLive(c, Init(), steps) { RunKeepsInv(c, Init(), steps); }
  }

  // Nobody is left to release the lock.
  predicate Stuck(s: State) {
    s.lock >= 0x80 && Idling(s)
  }

  // Once the holder of the lock is killed no requester gets through any more,
  // whatever happens.
  lemma {:induction false} StuckForever(c: Coils, s: State, steps: seq<Step>)
    requires Stuck(s) && ProperRun(c, s, steps)
    ensures Stuck(Run(c, s, steps))
    decreases |steps|
  {
    if steps != [] {
      StuckStays(c, s, steps[0]);
      StuckForever(c, Next(c, s, steps[0]), steps[1..]);
    }
  }

  lemma StuckStays(c: Coils, s: State, e: Step)
    requires Stuck(s) && Enabled(c, s, e)
    ensures Stuck(Next(c, s, e))
  {
    if e.DoRequest? {
      assert forall j | j in s.tasks :: Next(c, s, e).tasks[j] == s.tasks[j];
    }
  }

  // It happens: a task takes the lock for coil 0 and is killed before its pulse
  // is over.
  lemma KilledHolderBlocks(c: Coils, later: seq<Step>)
    requires GoodCoils(c) && |c| > 0
    ensures var s := Kill(Wake(c, Request(Init(), 1, 0), 1), 1);
      && ProperRun(c, Init(), [DoRequest(1, 0), DoWake(1), DoKill(1)])
      && Run(c, Init(), [DoRequest(1, 0), DoWake(1), DoKill(1)]) == s
      && !Inv(c, s) && (ProperRun(c, s, later) ==> Stuck(Run(c, s, later)))
  {
    var steps := [DoRequest(1, 0), DoWake(1), DoKill(1)];
    var s1 := Request(Init(), 1, 0);
    var s2 := Wake(c, s1, 1);
    var s := Kill(s2, 1);
    assert steps[1..] == [DoWake(1), DoKill(1)] && steps[1..][1..] == [DoKill(1)] && steps[1..][1..][1..] == [];
    assert ProperRun(c, s, []) && ProperRun(c, s2, [DoKill(1)]) && ProperRun(c, s1, [DoWake(1), DoKill(1)]);
    assert Run(c, s2, [DoKill(1)]) == s && Run(c, s1, [DoWake(1), DoKill(1)]) == s;
    if ProperRun(c, s, later) { StuckForever(c, s, later); }
  }

  // It happens: a pulse that is being driven is cut by a timeout of 3.
  lemma TimeoutCutsPulse(c: Coils)
    requires |c| > 0 && c[0].time >= 8 && c[0].duty == 0xff
    ensures var s := Tick(Async(c, Init(), 0), 0x01);
      Safe(c, s) && ModifyTimeout(s, 3).timer == 0 && ModifyTimeout(s, 3).on == {0}
  {
  }

  // A wake-up that takes the free lock starts the pulse of the coil asked for, with
  // that coil's own duty and time; while the lock or the driver is taken nothing
  // happens.
  lemma WakeStarts(c: Coils, s: State, k: Task)
    requires GoodCoils(c) && k in s.tasks && s.tasks[k].Waiting? && s.tasks[k].sol < |c|
    ensures var sol, s' := s.tasks[k].sol, Wake(c, s, k);
      if s.lock != 0 || s.timer != 0 then s' == s
      else
        && s'.cur == sol && s'.duty == c[sol].duty && s'.timer == c[sol].time / 4 > 0 && s'.starter == BySync(k)
        && s'.tasks == s.tasks[k := Pulsing(sol)] && s'.lock >= 0x80 && k !in s'.finished
        && s'.on == s.on && s'.queue == s.queue
  {
  }

  // A task leaves only with the lock signalled, and then the lock is free.
  lemma WakeReleases(c: Coils, s: State, k: Task)
    requires k in s.tasks && s.tasks[k].Pulsing?
    ensures var s' := Wake(c, s, k);
      if s.lock != 0x80 then s' == s
      else s' == s.(lock := 0, tasks := s.tasks - {k})
  {
  }

  // A pulse is started only if none runs and the coil exists, and otherwise nothing
  // changes.
  lemma StartExact(c: Coils, s: State, sol: U8, duty: bv8, time: U8, who: Starter)
    ensures var s' := StartSpecific(c, s, sol, duty, time, who);
      if s.timer == 0 && sol < |c| then
        && s'.cur == sol && s'.duty == duty && s'.timer == time / 4 && s'.starter == who
        && s' == s.(cur := s'.cur, duty := s'.duty, timer := s'.timer, starter := s'.starter)
      else s' == s
  {
  }

  // From its request on a task stands for the coil it asked for, and the pulse it
  // waits for is on that coil, whatever happens in between.
  lemma AskedCoil(c: Coils, s: State, k: Task, sol: U8, steps: seq<Step>)
    requires Safe(c, s) && GoodCoils(c) && ProperRun(c, s, [DoRequest(k, sol)] + steps)
    requires forall e | e in steps :: !(e.DoRequest? && e.task == k)
    ensures var s' := Run(c, s, [DoRequest(k, sol)] + steps);
      k in s'.tasks ==>
        && s'.tasks[k].sol == sol
        && (s'.tasks[k].Pulsing? && s'.lock != 0x80 ==> s'.timer > 0 && s'.cur == sol && s'.starter == BySync(k))
  {
    var all := [DoRequest(k, sol)] + steps;
    assert all[0] == DoRequest(k, sol) && all[1..] == steps;
    RunKeepsSafe(c, s, all);
    StandsFor(c, Request(s, k, sol), k, sol, steps);
    var s' := Run(c, s, all);
    assert k in s'.tasks && s'.tasks[k].Pulsing? ==> HolderSafe(s', k);
  }

  lemma {:induction false} StandsFor(c: Coils, s: State, k: Task, sol: U8, steps: seq<Step>)
    requires ProperRun(c, s, steps) && (k in s.tasks ==> s.tasks[k].sol == sol)
    requires forall e | e in steps :: !(e.DoRequest? && e.task == k)
    ensures k in Run(c, s, steps).tasks ==> Run(c, s, steps).tasks[k].sol == sol
    decreases |steps|
  {
    if steps != [] {
      assert steps[0] in steps && forall e | e in steps[1..] :: e in steps;
      StandsFor(c, Next(c, s, steps[0]), k, sol, steps[1..]);
    }
  }

  // A request that need not wait starts at once if the driver is free; otherwise
  // the pulse that runs is not touched and the request is last in the ring.
  lemma AsyncStarts(c: Coils, s: State, sol: U8)
    requires GoodCoils(c) && sol < |c| && |s.queue| + 1 < SOL_REQ_QUEUE_LEN
    ensures var s' := Async(c, s, sol);
      && s'.on == s.on && s'.lock == s.lock && s'.tasks == s.tasks
      && if s.timer == 0 then
           s'.cur == sol && s'.duty == c[sol].duty && s'.timer == c[sol].time / 4 > 0 && s'.starter == Direct && s'.queue == s.queue
         else
           s'.cur == s.cur && s'.duty == s.duty && s'.timer == s.timer && s'.starter == s.starter && s'.queue == s.queue + [sol]
  {
  }

  // While the countdown lasts, each interrupt drives the current coil exactly if
  // the duty has the strobe's bit, and no other coil.  The last interrupt turns
  // it off and signals whoever holds the lock.
  lemma TickDrives(c: Coils, s: State, strobe: bv8)
    requires Safe(c, s) && s.timer > 0
    ensures var s' := Tick(s, strobe);
      && s'.timer == s.timer - 1
      && (forall coil :: coil in s'.on <==> coil == s.cur && s.timer > 1 && s.duty & strobe != 0)
      && (s.timer > 1 ==> s'.lock == s.lock && s'.duty == s.duty && s'.starter == s.starter)
      && (s.timer == 1 ==> s'.lock == (if s.lock == 0 then 0 else 0x80) && s'.duty == 0 && s'.starter == Nobody)
  {
  }

  // A duty set during a pulse drives the coil from the next interrupt on.
  lemma ModifiedDutyDrives(c: Coils, s: State, duty: bv8, strobe: bv8)
    requires Safe(c, s) && s.timer > 1
    ensures Tick(ModifyDuty(s, duty), strobe).on == if duty & strobe != 0 then {s.cur} else {}
    ensures Tick(ModifyDuty(s, duty), strobe).timer == s.timer - 1
  {
  }

  // A task leaves sol_request only after its own pulse counted down to zero.
  lemma ReleaseAfterOwnPulse(c: Coils, s: State, k: Task)
    requires Safe(c, s) && k in s.tasks && s.tasks[k].Pulsing? && k !in Wake(c, s, k).tasks
    ensures k in s.finished
  {
    assert HolderSafe(s, k);
  }

  // The interrupt steps of a run.
  function Ticks(steps: seq<Step>): nat {
    if steps == [] then 0 else (if steps[0].DoTick? then 1 else 0) + Ticks(steps[1..])
  }

  // Until the countdown ends no step but the interrupt touches it: after k
  // ticks a pulse of T ticks has T - k left, for the same coil and requester.
  lemma {:induction false} PulseCountsDown(c: Coils, s: State, steps: seq<Step>)
    requires ProperRun(c, s, steps) && Ticks(steps) < s.timer
    requires forall e | e in steps :: !e.DoModifyTimeout?
    ensures var s' := Run(c, s, steps);
      s'.timer == s.timer - Ticks(steps) && s'.cur == s.cur && s'.starter == s.starter
    decreases |steps|
  {
    if steps != [] {
      assert steps[0] in steps;
      PulseCountsDown(c, Next(c, s, steps[0]), steps[1..]);
    }
  }

  // A pulse started at T ticks is off after exactly T ticks, and not before.
  lemma PulseLength(c: Coils, s: State, steps: seq<Step>, strobe: bv8)
    requires Safe(c, s) && GoodCoils(c) && ProperRun(c, s, steps)
    requires Ticks(steps) + 1 == s.timer
    requires forall e | e in steps :: !e.DoModifyTimeout?
    ensures var s' := Run(c, s, steps);
      && s'.timer == 1
      && Tick(s', strobe).timer == 0 && Tick(s', strobe).on == {}
      && (s.starter.BySync? ==> s.starter.task in Tick(s', strobe).finished)
  {
    PulseCountsDown(c, s, steps);
    RunKeepsSafe(c, s, steps);
  }

  // No request of the run finds the ring full.
  ghost predicate NoOverflow(c: Coils, s: State, steps: seq<Step>)
    requires ProperRun(c, s, steps)
    decreases |steps|
  {
    steps == [] ||
    (&& (steps[0].DoAsync? && s.timer > 0 ==> |s.queue| + 1 < SOL_REQ_QUEUE_LEN)
     && NoOverflow(c, Next(c, s, steps[0]), steps[1..]))
  }

  // Queued requests are started in the order they were made.
  lemma {:induction false} QueuedInOrder(c: Coils, s: State, steps: seq<Step>)
    requires ProperRun(c, s, steps) && NoOverflow(c, s, steps) && s.asked == s.served + s.queue
    ensures Run(c, s, steps).asked == Run(c, s, steps).served + Run(c, s, steps).queue
    decreases |steps|
  {
    if steps != [] {
      var s1 := Next(c, s, steps[0]);
      if steps[0].DoIdle? && s.timer == 0 && s.queue != [] {
        assert s1.served + s1.queue == s.served + s.queue;
      }
      QueuedInOrder(c, s1, steps[1..]);
    }
  }

  // A request taken out of the queue for a coil that exists becomes the
  // running pulse at once, with that coil's own duty and countdown.
  lemma TakenIsStarted(c: Coils, s: State)
    requires GoodCoils(c) && s.timer == 0 && s.queue != [] && s.queue[0] < |c|
    ensures var sol, s' := s.queue[0], Idle(c, s);
      && s'.served == s.served + [sol] && s'.queue == s.queue[1..]
      && s'.cur == sol && s'.starter == Direct
      && s'.duty == c[sol].duty && s'.timer == c[sol].time / 4 > 0
  {
  }

  // While a pulse runs, as many requests as the ring has bytes empty it.
  lemma {:induction false} AsyncFills(c: Coils, s: State, sol: U8, n: nat)
    requires s.timer > 0 && |s.queue| + n < SOL_REQ_QUEUE_LEN
    ensures var s' := Asyncs(c, s, sol, n);
      s'.timer == s.timer && |s'.queue| == |s.queue| + n && s'.asked == s.asked + seq(n, _ => sol)
  {
    if n > 0 {
      AsyncFills(c, s, sol, n - 1);
      assert seq(n, _ => sol) == seq(n - 1, _ => sol) + [sol];
    }
  }

  function Asyncs(c: Coils, s: State, sol: U8, n: nat): State {
    if n == 0 then s else Async(c, Asyncs(c, s, sol, n - 1), sol)
  }

  // It happens: eight requests during one pulse are all lost.
  lemma EightRequestsLost(c: Coils)
    requires |c| > 0 && c[0].time >= 4
    ensures var s := Asyncs(c, Async(c, Init(), 0), 0, SOL_REQ_QUEUE_LEN);
      |s.asked| == 8 && s.queue == [] && s.served == []
  {
    var s := Async(c, Init(), 0);
    AsyncFills(c, s, 0, SOL_REQ_QUEUE_LEN - 1);
    AsyncServes(c, s, 0, SOL_REQ_QUEUE_LEN);
  }

  lemma {:induction false} AsyncServes(c: Coils, s: State, sol: U8, n: nat)
    ensures Asyncs(c, s, sol, n).served == s.served
  {
    if n > 0 { AsyncServes(c, s, sol, n - 1); }
  }
}
