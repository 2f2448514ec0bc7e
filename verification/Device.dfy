/**
 One ball device: the kick and retry state machine of its update task, driven
 by arbitrary switch readings, kick locks and refusals.  Code between two sleeps
 is one step; requests may come at any sleep and restart the task.
 */
module Devices {
  import opened Machine

  // What does not change: the number of counting switches, whether the device
  // is the trough, and how many balls it holds by default.
  datatype Props = Props(size: U8, trough: bool, initMax: U8)

  // The number of failed kicks after which all requests are cancelled.
  function Limit(p: Props): nat { if p.trough then 20 else 7 }

  datatype Phase = Idle | Releasing

  // Where the update task sleeps: settling, about to poll, after a failed
  // kick, waiting for the solenoid; or it has ended.
  datatype Place = Settling | Polling | Failed | Pulsing | Done

  /**
   The device's counters, its task, and what happened so far: requests
   accepted, kicks that succeeded, and requests that were cancelled.
   */
  datatype State = State(
    actual: U8, previous: U8, maxCount: U8, kicksNeeded: U8, kickErrors: U8, phase: Phase, place: Place,
    accepted: nat, succeeded: nat, cancelled: nat)

  function Init(p: Props): State {
    State(0, 0, p.initMax, 0, 0, Idle, Done, 0, 0, 0)
  }

  function Recount(s: State, count: U8): State {
    s.(previous := s.actual, actual := count)
  }

  function Cancel(s: State): State {
    s.(kicksNeeded := 0, cancelled := s.cancelled + s.kicksNeeded)
  }

  // The loop that throws a success event for each kicked ball.
  function Succeed(s: State, kicked: nat): State
    requires kicked <= s.kicksNeeded
    decreases kicked
  {
    if kicked == 0 then s
    else Succeed(s.(kicksNeeded := s.kicksNeeded - 1, succeeded := s.succeeded + 1), kicked - 1)
  }

  // What the update task meets after it has counted: kick locks, a handler's
  // refusal, and the count just before the task would end.
  datatype World = World(locked: bool, allowed: bool, recount: U8)

  // device_update from the global counts to the next sleep.
  function Finish(p: Props, s: State, w: World): State {
    var s1 := if s.kicksNeeded == 0 && s.actual > s.maxCount
              then s.(kicksNeeded := 1, kickErrors := 0, accepted := s.accepted + 1) else s;
    if s1.kicksNeeded > 0 && s1.actual != 0 then
      if (w.locked && !p.trough) || !w.allowed then s1.(place := Polling)
      else s1.(phase := Releasing, place := Pulsing)
    else
      var s2 := Recount(if s1.kicksNeeded > 0 then Cancel(s1) else s1, w.recount);
      s2.(place := if s2.actual != s2.previous then Polling else Done)
  }

  // The task wakes up where it sleeps; `count` is what a poll would see.
  function Wake(p: Props, s: State, count: U8, w: World): State {
    match s.place
    case Settling => s.(place := Polling)
    case Pulsing => s.(place := Settling)
    case Failed => Finish(p, s, w)
    case Done => s
    case Polling =>
      var s1 := Recount(s, count);
      if s1.phase == Releasing && s1.kicksNeeded > 0 then
        if s1.actual >= s1.previous then
          var s2 := s1.(kickErrors := Wrap8(s1.kickErrors + 1));
          if s2.kickErrors == Limit(p) then Finish(p, Cancel(s2).(phase := Idle), w)
          else s2.(place := Failed)
        else
          var kicked := s1.previous - s1.actual;
          Finish(p, Succeed(s1, if kicked > s1.kicksNeeded then s1.kicksNeeded else kicked).(phase := Idle), w)
      else Finish(p, s1, w)
  }

  function Kickable(s: State): U8 { Wrap8(s.actual - s.kicksNeeded) }

  // Requests kill the update task wherever it sleeps and start it afresh.
  function RequestKick(s: State): State {
    if Kickable(s) > 0 then
      s.(kicksNeeded := Wrap8(s.kicksNeeded + 1), kickErrors := 0, accepted := s.accepted + 1, place := Settling)
    else s.(place := Settling)
  }

  // Counted as new requests, or as cancellations when the byte arithmetic
  // makes the number of pending kicks drop.
  function RequestEmpty(p: Props, s: State): State {
    var kicks := Wrap8(s.kicksNeeded + Kickable(s));
    s.(kicksNeeded := kicks, kickErrors := 0, maxCount := p.initMax, place := Settling,
       accepted := s.accepted + if kicks >= s.kicksNeeded then kicks - s.kicksNeeded else 0,
       cancelled := s.cancelled + if kicks < s.kicksNeeded then s.kicksNeeded - kicks else 0)
  }

  // A switch of the device changed: start the task unless it is running.
  function SwitchHandler(s: State): State {
    if s.place == Done then s.(place := Settling) else s
  }

  // ---------- what the requests mean ----------

  // A kick is accepted for a ball that is there and not yet spoken for,
  // exactly as long as no more kicks are pending than balls counted; beyond
  // that the byte difference wraps and kicks are accepted for missing balls.
  lemma AcceptIff(s: State)
    ensures (Kickable(s) > 0 <==> s.kicksNeeded < s.actual) <==> s.kicksNeeded <= s.actual
  {
  }

  // After a request to empty, one kick is pending per ball counted, whatever
  // was pending before.
  lemma EmptyKicksAll(p: Props, s: State)
    ensures RequestEmpty(p, s).kicksNeeded == s.actual
  {
  }

  // A request for a kick starts the update task afresh, and up to the wrap of
  // AcceptIff adds a pending kick, with all its retries, for a ball that is there
  // and not yet spoken for.
  lemma RequestKickOutcome(s: State)
    requires s.kicksNeeded <= s.actual
    ensures var s' := RequestKick(s);
      if s.kicksNeeded < s.actual then
        s' == s.(kicksNeeded := s.kicksNeeded + 1, kickErrors := 0, accepted := s.accepted + 1, place := Settling)
      else s' == s.(place := Settling)
  {
  }

  // A request to empty does as well, sets the number of balls to hold back to its
  // default, and accounts for the change of the pending kicks.
  lemma RequestEmptyOutcome(p: Props, s: State)
    ensures var s' := RequestEmpty(p, s);
      && s'.kicksNeeded == s.actual && s'.kickErrors == 0 && s'.maxCount == p.initMax && s'.place == Settling
      && s'.accepted - s'.cancelled == s.accepted - s.cancelled + s.actual - s.kicksNeeded
      && s'.accepted >= s.accepted && s'.cancelled >= s.cancelled
      && (s'.accepted == s.accepted || s'.cancelled == s.cancelled)
      && s'.actual == s.actual && s'.previous == s.previous && s'.phase == s.phase && s'.succeeded == s.succeeded
  {
  }

  // A switch of the device wakes a task that has ended, and does not disturb one
  // that runs.
  lemma SwitchWakes(s: State)
    ensures SwitchHandler(s) == s.(place := if s.place == Done then Settling else s.place)
  {
  }

  lemma {:induction false} SucceedExact(s: State, kicked: nat)
    requires kicked <= s.kicksNeeded
    ensures Succeed(s, kicked) == s.(kicksNeeded := s.kicksNeeded - kicked, succeeded := s.succeeded + kicked)
    decreases kicked
  {
    if kicked > 0 {
      SucceedExact(s.(kicksNeeded := s.kicksNeeded - 1, succeeded := s.succeeded + 1), kicked - 1);
    }
  }

  // ---------- the invariant ----------

  // Every accepted request is pending, done or cancelled; pending kicks have
  // retries left; and the device waits for a kick only while one is pending
  // and a ball is there.
  ghost predicate Inv(p: Props, s: State) {
    && s.accepted == s.succeeded + s.cancelled + s.kicksNeeded
    && s.kickErrors <= Limit(p)
    && (s.kicksNeeded > 0 ==> s.kickErrors < Limit(p))
    && (s.phase == Releasing ==> s.kicksNeeded > 0 && s.actual > 0)
    && (s.place == Done ==> s.kicksNeeded == 0)
    && (s.place == Failed || s.place == Pulsing ==> s.phase == Releasing)
  }

  datatype Step =
    | TaskWakes(count: U8, world: World)
    | AskKick
    | AskEmpty
    | SwitchChange
    | MaxChange(maxCount: U8)

  function Next(p: Props, s: State, e: Step): State {
    match e
    case TaskWakes(count, w) => Wake(p, s, count, w)
    case AskKick => RequestKick(s)
    case AskEmpty => RequestEmpty(p, s)
    case SwitchChange => SwitchHandler(s)
    case MaxChange(m) => s.(maxCount := m)
  }

  // The step does not overflow the count of pending kicks.
  predicate NoOverflow(s: State, e: Step) {
    e.AskKick? ==> s.kicksNeeded < 0xff || s.actual == 0xff
  }

  lemma FinishKeeps(p: Props, s: State, w: World)
    requires s.accepted == s.succeeded + s.cancelled + s.kicksNeeded && s.kickErrors <= Limit(p)
    requires s.kicksNeeded > 0 ==> s.kickErrors < Limit(p)
    requires s.phase == Releasing ==> s.kicksNeeded > 0 && s.actual > 0
    ensures Inv(p, Finish(p, s, w))
  {
  }

  lemma WakeKeeps(p: Props, s: State, count: U8, w: World)
    requires Inv(p, s)
    ensures Inv(p, Wake(p, s, count, w))
  {
    hide Finish;
    var s1 := Recount(s, count);
    if s.place == Failed {
      FinishKeeps(p, s, w);
    } else if s.place == Polling {
      if s1.phase == Releasing && s1.actual < s1.previous {
        var kicked := if s1.previous - s1.actual > s1.kicksNeeded then s1.kicksNeeded else s1.previous - s1.actual;
        SucceedExact(s1, kicked);
        FinishKeeps(p, Succeed(s1, kicked).(phase := Idle), w);
      } else if s1.phase == Releasing {
        FinishKeeps(p, Cancel(s1.(kickErrors := s1.kickErrors + 1)).(phase := Idle), w);
      } else {
        FinishKeeps(p, s1, w);
      }
    }
  }

  // Each step keeps the account of kicks exactly when the pending count does
  // not overflow its byte.
  lemma StepInvIff(p: Props, s: State, e: Step)
    requires Inv(p, s)
    ensures Inv(p, Next(p, s, e)) <==> NoOverflow(s, e)
  {
    hide Wake;
    match e
    case TaskWakes(count, w) => WakeKeeps(p, s, count, w);
    case AskEmpty => EmptyKicksAll(p, s);
    case _ =>
  }

  ghost predicate ProperRun(p: Props, s: State, steps: seq<Step>)
    decreases |steps|
  {
    steps == [] || (NoOverflow(s, steps[0]) && ProperRun(p, Next(p, s, steps[0]), steps[1..]))
  }

  function Run(p: Props, s: State, steps: seq<Step>): State
    decreases |steps|
  {
    if steps == [] then s else Run(p, Next(p, s, steps[0]), steps[1..])
  }

  // For every sequence of readings and requests: accepted requests equal
  // successes plus cancellations plus pending kicks, and the retry limit is
  // met exactly, never jumped over.
  lemma {:induction false} RunKeepsInv(p: Props, s: State, steps: seq<Step>)
    requires Inv(p, s) && ProperRun(p, s, steps)
    ensures Inv(p, Run(p, s, steps))
    decreases |steps|
  {
    if steps != [] {
      StepInvIff(p, s, steps[0]);
      RunKeepsInv(p, Next(p, s, steps[0]), steps[1..]);
    }
  }

  lemma ReachableInv(p: Props, steps: seq<Step>)
    requires ProperRun(p, Init(p), steps)
    ensures Inv(p, Run(p, Init(p), steps))
  {
    RunKeepsInv(p, Init(p), steps);
  }

  // While a release is under way, a poll that does not see the count drop uses
  // up one retry or cancels everything; one that does ends the release and
  // credits the balls that left, up to the kicks pending.
  lemma PollOutcome(p: Props, s: State, count: U8, w: World)
    requires Inv(p, s) && s.place == Polling && s.phase == Releasing
    ensures var s', s1 := Wake(p, s, count, w), s.(previous := s.actual, actual := count);
      if count < s.actual then
        var n := if s.actual - count < s.kicksNeeded then s.actual - count else s.kicksNeeded;
        s' == Finish(p, s1.(kicksNeeded := s.kicksNeeded - n, succeeded := s.succeeded + n, phase := Idle), w)
      else if s.kickErrors + 1 == (if p.trough then 20 else 7) then
        s' == Finish(p, s1.(kickErrors := s.kickErrors + 1, kicksNeeded := 0, cancelled := s.cancelled + s.kicksNeeded, phase := Idle), w)
      else
        s' == s1.(kickErrors := s.kickErrors + 1, place := Failed)
  {
    var s1 := Recount(s, count);
    if count < s.actual {
      var kicked := s1.previous - s1.actual;
      SucceedExact(s1, if kicked > s1.kicksNeeded then s1.kicksNeeded else kicked);
    }
  }

  // How a pass of the update loop ends, when no release is under way.  An overfull
  // device without pending kicks schedules one; a kick is made exactly if one is
  // pending, a ball is there, no lock holds it back (locks do not hold the trough)
  // and nobody refuses; without a ball all pending kicks are cancelled.
  lemma PassOutcome(p: Props, s: State, count: U8, w: World)
    requires s.place == Polling && s.phase == Idle
    ensures var s', overfull := Wake(p, s, count, w), s.kicksNeeded == 0 && count > s.maxCount;
      var kicks := if overfull then 1 else s.kicksNeeded;
      && s'.accepted == s.accepted + (if overfull then 1 else 0)
      && s'.kickErrors == (if overfull then 0 else s.kickErrors)
      && s'.succeeded == s.succeeded && s'.maxCount == s.maxCount
      && (s'.place == Pulsing <==> kicks > 0 && count > 0 && (p.trough || !w.locked) && w.allowed)
      && (s'.phase == Releasing <==> s'.place == Pulsing)
      && if kicks > 0 && count > 0 then
           && s'.kicksNeeded == kicks && s'.cancelled == s.cancelled
           && s'.actual == count && s'.previous == s.actual
           && (s'.place != Pulsing ==> s'.place == Polling)
         else
           && s'.kicksNeeded == 0 && s'.cancelled == s.cancelled + kicks
           && s'.actual == w.recount && s'.previous == count
           && s'.place == (if w.recount != count then Polling else Done)
  {
  }

  // The same after a failed kick, whose release is still under way: it is retried
  // unless it is held back.
  lemma RetryOutcome(p: Props, s: State, count: U8, w: World)
    requires Inv(p, s) && s.place == Failed
    ensures Wake(p, s, count, w) ==
      s.(place := if (p.trough || !w.locked) && w.allowed then Pulsing else Polling)
  {
  }

  // A pulse is followed by settling, and settling by a poll; a device whose task
  // has ended stays as it is.
  lemma SleepsInTurn(p: Props, s: State, count: U8, w: World)
    requires s.place in {Settling, Pulsing, Done}
    ensures Wake(p, s, count, w) ==
      s.(place := match s.place case Pulsing => Settling case Settling => Polling case _ => s.place)
  {
  }

  // ---------- what goes wrong otherwise ----------

  // Two balls are counted and two kicks asked for; one ball leaves by itself.
  function OneLeftEarly(): seq<Step> {
    var w := World(true, true, 2);
    [SwitchChange, TaskWakes(2, w), TaskWakes(2, w), AskKick, AskKick, TaskWakes(1, w), TaskWakes(1, w), AskKick]
  }

  // The device with so many balls and pending kicks, before any attempt.
  function Waiting(actual: U8, previous: U8, kicks: U8, place: Place): State {
    State(actual, previous, 2, kicks, 0, Idle, place, kicks, 0, 0)
  }

  lemma TwoCounted(p: Props, w: World)
    requires p == Props(2, false, 2) && w == World(true, true, 2)
    ensures Next(p, Init(p), SwitchChange) == Waiting(0, 0, 0, Settling)
    ensures Next(p, Waiting(0, 0, 0, Settling), TaskWakes(2, w)) == Waiting(0, 0, 0, Polling)
    ensures Next(p, Waiting(0, 0, 0, Polling), TaskWakes(2, w)) == Waiting(2, 2, 0, Done)
  {
  }

  lemma OneLeaves(p: Props, w: World)
    requires p == Props(2, false, 2) && w == World(true, true, 2)
    ensures Next(p, Waiting(2, 2, 2, Settling), TaskWakes(1, w)) == Waiting(2, 2, 2, Polling)
    ensures Next(p, Waiting(2, 2, 2, Polling), TaskWakes(1, w)) == Waiting(1, 2, 2, Polling)
  {
  }

  lemma KickAccepted(p: Props, actual: U8, previous: U8, kicks: U8, place: Place)
    requires kicks < 0xff && Wrap8(actual - kicks) > 0
    ensures Next(p, Waiting(actual, previous, kicks, place), AskKick) == Waiting(actual, previous, kicks + 1, Settling)
  {
  }

  // It happens: a third kick is accepted with one ball left.
  lemma ThreeKicksOneBall()
    ensures var p := Props(2, false, 2);
      ProperRun(p, Init(p), OneLeftEarly())
      && Run(p, Init(p), OneLeftEarly()).actual == 1 && Run(p, Init(p), OneLeftEarly()).kicksNeeded == 3
  {
    hide Run, ProperRun, Next;
    var p, w := Props(2, false, 2), World(true, true, 2);
    TwoCounted(p, w);
    KickAccepted(p, 2, 2, 0, Done);
    KickAccepted(p, 2, 2, 1, Settling);
    OneLeaves(p, w);
    KickAccepted(p, 1, 2, 2, Polling);
    var r8: seq<Step> := [];
    var r7 := [AskKick] + r8;
    var r6 := [TaskWakes(1, w)] + r7;
    var r5 := [TaskWakes(1, w)] + r6;
    var r4 := [AskKick] + r5;
    var r3 := [AskKick] + r4;
    var r2 := [TaskWakes(2, w)] + r3;
    var r1 := [TaskWakes(2, w)] + r2;
    RunStep(p, Init(p), SwitchChange, r1);
    RunStep(p, Waiting(0, 0, 0, Settling), TaskWakes(2, w), r2);
    RunStep(p, Waiting(0, 0, 0, Polling), TaskWakes(2, w), r3);
    RunStep(p, Waiting(2, 2, 0, Done), AskKick, r4);
    RunStep(p, Waiting(2, 2, 1, Settling), AskKick, r5);
    RunStep(p, Waiting(2, 2, 2, Settling), TaskWakes(1, w), r6);
    RunStep(p, Waiting(2, 2, 2, Polling), TaskWakes(1, w), r7);
    RunStep(p, Waiting(1, 2, 2, Polling), AskKick, r8);
    RunNothing(p, Waiting(1, 2, 3, Settling));
    assert OneLeftEarly() == [SwitchChange] + r1;
  }

  lemma RunNothing(p: Props, s: State)
    ensures Run(p, s, []) == s && ProperRun(p, s, [])
  {
  }

  lemma RunStep(p: Props, s: State, e: Step, rest: seq<Step>)
    ensures Run(p, s, [e] + rest) == Run(p, Next(p, s, e), rest)
    ensures ProperRun(p, s, [e] + rest) <==> NoOverflow(s, e) && ProperRun(p, Next(p, s, e), rest)
  {
    assert ([e] + rest)[1..] == rest;
  }
}
