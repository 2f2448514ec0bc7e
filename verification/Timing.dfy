/**
 The simulator's timer wheel: 256 lists of handlers indexed by time modulo 256.
 It is compared with absolute deadlines, which the wheel itself does not store.
 */
module Timing {
  import opened Machine

  const RING_COUNT := 256

  // A timer callback with its data, and the period to requeue it with (0: never).
  datatype Handler = Handler(id: nat, periodicity: int)

  // The arguments of a registration.
  datatype Request = Request(ticks: int, periodic: bool, id: nat)

  function Made(r: Request): Handler {
    Handler(r.id, if r.periodic then r.ticks else 0)
  }

  // What the callback in position k of the list registers when it runs.
  type Callbacks = (nat, Handler) -> seq<Request>

  datatype State = State(now: nat, ring: seq<seq<Handler>>) {
    ghost predicate Valid() {
      now < RING_COUNT && |ring| == RING_COUNT
    }
  }

  function Later(now: nat, ticks: int): (slot: nat)
    ensures slot < RING_COUNT
  {
    (now + ticks) % RING_COUNT
  }

  // sim_time_register: the new handler goes to the front of its list.
  function Register(s: State, r: Request): (s': State)
    requires s.Valid()
    ensures s'.Valid() && s'.now == s.now
  {
    var slot := Later(s.now, r.ticks);
    s.(ring := s.ring[slot := [Made(r)] + s.ring[slot]])
  }

  function RegisterAll(s: State, rs: seq<Request>): (s': State)
    requires s.Valid()
    ensures s'.Valid() && s'.now == s.now
    decreases |rs|
  {
    if rs == [] then s else RegisterAll(Register(s, rs[0]), rs[1..])
  }

  // A periodic handler goes to the end of its next list.
  function Requeue(s: State, h: Handler): (s': State)
    requires s.Valid()
    ensures s'.Valid() && s'.now == s.now
  {
    if h.periodicity == 0 then s
    else
      var slot := Later(s.now, h.periodicity);
      s.(ring := s.ring[slot := s.ring[slot] + [h]])
  }

  // The loop of sim_time_step over the detached list, from position k on.
  function RunFrom(s: State, list: seq<Handler>, k: nat, cb: Callbacks): (s': State)
    requires s.Valid() && k <= |list|
    ensures s'.Valid() && s'.now == s.now
    decreases |list| - k
  {
    if k == |list| then s
    else RunFrom(Requeue(RegisterAll(s, cb(k, list[k])), list[k]), list, k + 1, cb)
  }

  function Detach(s: State): (s': State)
    requires s.Valid()
    ensures s'.Valid()
  {
    s.(ring := s.ring[s.now := []])
  }

  function Step(s: State, cb: Callbacks): (s': State)
    requires s.Valid()
    ensures s'.Valid()
  {
    var s1 := RunFrom(Detach(s), s.ring[s.now], 0, cb);
    s1.(now := Later(s.now, 1))
  }

  // The wheel as it runs.
  class Wheel {
    var now: nat
    const ring: array<seq<Handler>>

    ghost predicate Valid()
      reads this
    {
      now < RING_COUNT && ring.Length == RING_COUNT
    }

    ghost function Abs(): (s: State)
      requires Valid()
      reads this, ring
      ensures s.Valid()
    {
      State(now, ring[..])
    }

    constructor ()
      ensures Valid() && Abs() == State(0, seq(RING_COUNT, _ => []))
      ensures fresh(ring)
    {
      now := 0;
      ring := new seq<Handler>[RING_COUNT](_ => []);
      new;
      assert ring[..] == seq(RING_COUNT, _ => []);
    }

    method TimeRegister(r: Request)
      requires Valid()
      modifies ring
      ensures Valid() && Abs() == Register(old(Abs()), r)
    {
      var slot := Later(now, r.ticks);
      ring[slot] := [Made(r)] + ring[slot];
    }

    // A callback may register any number of timers.
    method Invoke(rs: seq<Request>)
      requires Valid()
      modifies ring
      ensures Valid() && Abs() == RegisterAll(old(Abs()), rs)
    {
      for n := 0 to |rs|
        invariant Valid()
        invariant RegisterAll(Abs(), rs[n..]) == RegisterAll(old(Abs()), rs)
      {
        TimeRegister(rs[n]);
        assert rs[n..][1..] == rs[n + 1..];
      }
    }

    method TimeStep(cb: Callbacks)
      requires Valid()
      modifies this, ring
      ensures Valid() && Abs() == Step(old(Abs()), cb)
    {
      var list := ring[now];
      ring[now] := [];
      assert Abs() == Detach(old(Abs()));
      ghost var s0 := Abs();
      var k := 0;
      while k < |list|
        invariant Valid() && now == old(now) && k <= |list|
        invariant RunFrom(Abs(), list, k, cb) == RunFrom(s0, list, 0, cb)
      {
        Invoke(cb(k, list[k]));
        ghost var s1 := Abs();
        if list[k].periodicity != 0 {
          var slot := Later(now, list[k].periodicity);
          ring[slot] := ring[slot] + [list[k]];
        }
        assert Abs() == Requeue(s1, list[k]);
        k := k + 1;
      }
      now := Later(now, 1);
    }
  }

  // ---------- absolute deadlines ----------

  // How many copies of h wait for absolute tick d, when the ticks from `from`
  // to from + 255 are the ones still to come.
  function Waiting(s: State, from: nat, d: nat, h: Handler): nat
    requires s.Valid()
  {
    if from <= d < from + RING_COUNT then multiset(s.ring[d % RING_COUNT])[h] else 0
  }

  // When a registration made at absolute tick `time` comes due; `from` is
  // `time` between steps, and the next tick while callbacks run.
  function Deadline(time: nat, from: nat, ticks: int): (d: nat)
    ensures from <= d < from + RING_COUNT
  {
    from + (time + ticks - from) % RING_COUNT
  }

  // Between steps a handler comes due after exactly the ticks asked for when
  // they are 0 to 255; inside a callback, when they are 1 to 256.
  lemma DeadlineIff(time: nat, ticks: int)
    ensures Deadline(time, time, ticks) == time + ticks <==> 0 <= ticks < RING_COUNT
    ensures Deadline(time, time + 1, ticks) == time + ticks <==> 1 <= ticks <= RING_COUNT
  {
  }

  // Within one turn of the wheel every tick has its own slot.
  lemma SameSlot(d: nat, e: nat, from: nat)
    requires from <= d < from + RING_COUNT && from <= e < from + RING_COUNT
    ensures d % RING_COUNT == e % RING_COUNT <==> d == e
  {
  }

  // The slot of a deadline is the slot a registration goes to, and no other
  // tick to come shares it.
  lemma SlotOfDeadline(time: nat, from: nat, ticks: int, d: nat)
    requires from <= d < from + RING_COUNT
    ensures d % RING_COUNT == Later(time % RING_COUNT, ticks) <==> d == Deadline(time, from, ticks)
  {
    var e := Deadline(time, from, ticks);
    SameSlot(d, e, from);
    assert e % RING_COUNT == (time + ticks) % RING_COUNT by {
      var q := (time + ticks - from) / RING_COUNT;
      assert e == time + ticks - RING_COUNT * q;
      ModShift(e, q);
    }
    assert (time % RING_COUNT + ticks) % RING_COUNT == (time + ticks) % RING_COUNT by {
      ModShift(time % RING_COUNT + ticks, time / RING_COUNT);
    }
  }

  lemma ModShift(x: int, q: int)
    ensures (x + RING_COUNT * q) % RING_COUNT == x % RING_COUNT
  {
  }

  // A registration adds exactly one handler, at its deadline.
  lemma RegisterWaits(s: State, r: Request, time: nat, from: nat, d: nat, h: Handler)
    requires s.Valid() && s.now == time % RING_COUNT
    ensures Waiting(Register(s, r), from, d, h)
         == Waiting(s, from, d, h) + if d == Deadline(time, from, r.ticks) && h == Made(r) then 1 else 0
  {
    if from <= d < from + RING_COUNT {
      SlotOfDeadline(time, from, r.ticks, d);
    }
  }

  // How many of the requests make handler h come due at d.
  function Asked(rs: seq<Request>, time: nat, from: nat, d: nat, h: Handler): nat {
    if rs == [] then 0
    else (if d == Deadline(time, from, rs[0].ticks) && h == Made(rs[0]) then 1 else 0) + Asked(rs[1..], time, from, d, h)
  }

  lemma {:induction false} RegisterAllWaits(s: State, rs: seq<Request>, time: nat, from: nat, d: nat, h: Handler)
    requires s.Valid() && s.now == time % RING_COUNT
    ensures Waiting(RegisterAll(s, rs), from, d, h) == Waiting(s, from, d, h) + Asked(rs, time, from, d, h)
    decreases |rs|
  {
    if rs != [] {
      RegisterWaits(s, rs[0], time, from, d, h);
      RegisterAllWaits(Register(s, rs[0]), rs[1..], time, from, d, h);
    }
  }

  // How many copies of h due at d the handlers from position k on create when
  // they run at `time`: what their callbacks ask for, and periodic requeueing.
  function Created(list: seq<Handler>, k: nat, cb: Callbacks, time: nat, d: nat, h: Handler): nat
    requires k <= |list|
    decreases |list| - k
  {
    if k == |list| then 0
    else
      Asked(cb(k, list[k]), time, time + 1, d, h)
      + (if list[k] == h && h.periodicity != 0 && d == Deadline(time, time + 1, h.periodicity) then 1 else 0)
      + Created(list, k + 1, cb, time, d, h)
  }

  lemma RequeueWaits(s: State, x: Handler, time: nat, from: nat, d: nat, h: Handler)
    requires s.Valid() && s.now == time % RING_COUNT
    ensures Waiting(Requeue(s, x), from, d, h) == Waiting(s, from, d, h)
      + if x == h && h.periodicity != 0 && d == Deadline(time, from, h.periodicity) then 1 else 0
  {
    if x.periodicity != 0 && from <= d < from + RING_COUNT {
      SlotOfDeadline(time, from, x.periodicity, d);
    }
  }

  lemma {:induction false} RunWaits(s: State, list: seq<Handler>, k: nat, cb: Callbacks, time: nat, d: nat, h: Handler)
    requires s.Valid() && s.now == time % RING_COUNT && k <= |list|
    ensures Waiting(RunFrom(s, list, k, cb), time + 1, d, h)
         == Waiting(s, time + 1, d, h) + Created(list, k, cb, time, d, h)
    decreases |list| - k
  {
    if k < |list| {
      var s1 := RegisterAll(s, cb(k, list[k]));
      RegisterAllWaits(s, cb(k, list[k]), time, time + 1, d, h);
      RequeueWaits(s1, list[k], time, time + 1, d, h);
      RunWaits(Requeue(s1, list[k]), list, k + 1, cb, time, d, h);
    }
  }

  // Taking the handlers of the present tick off the wheel takes nothing else.
  lemma DetachWaits(s: State, time: nat, d: nat, h: Handler)
    requires s.Valid() && s.now == time % RING_COUNT && d > time
    ensures Waiting(Detach(s), time + 1, d, h) == Waiting(s, time, d, h)
  {
    if d == time + RING_COUNT {
      ModShift(time, 1);
    } else if d < time + RING_COUNT {
      SlotOfDeadline(time, time, 0, d);
    }
  }

  // One step at absolute tick `time`: what waited for a later tick still waits
  // for it, and only what the run handlers create is new.
  lemma StepWaits(s: State, cb: Callbacks, time: nat, d: nat, h: Handler)
    requires s.Valid() && s.now == time % RING_COUNT && d > time
    ensures Step(s, cb).now == (time + 1) % RING_COUNT
    ensures Waiting(Step(s, cb), time + 1, d, h) == Waiting(s, time, d, h) + Created(s.ring[s.now], 0, cb, time, d, h)
  {
    DetachWaits(s, time, d, h);
    RunWaits(Detach(s), s.ring[s.now], 0, cb, time, d, h);
    LaterIsNext(time);
    hide RunFrom, Created, Later;
    var s1 := RunFrom(Detach(s), s.ring[s.now], 0, cb);
    assert Step(s, cb).ring == s1.ring;
  }

  lemma LaterIsNext(time: nat)
    ensures Later(time % RING_COUNT, 1) == (time + 1) % RING_COUNT
  {
  }

  // ---------- whole runs ----------

  // The state after the steps, the first of which happens at tick `time`.
  function Run(s: State, cbs: seq<Callbacks>): (s': State)
    requires s.Valid()
    ensures s'.Valid()
    decreases |cbs|
  {
    if cbs == [] then s else Run(Step(s, cbs[0]), cbs[1..])
  }

  // How often h runs in the next step.
  function Fires(s: State, h: Handler): nat
    requires s.Valid()
  {
    multiset(s.ring[s.now])[h]
  }

  // It happens: a registration a whole turn of the wheel ahead runs in the very
  // next step.
  lemma WholeTurnRunsNow(s: State, r: Request)
    requires s.Valid() && r.ticks == RING_COUNT
    ensures Fires(Register(s, r), Made(r)) == Fires(s, Made(r)) + 1
  {
    DivModUnique(s.now + RING_COUNT, RING_COUNT, 1, s.now);
    assert Register(s, r).ring[s.now] == [Made(r)] + s.ring[s.now];
  }

  // How many copies of h due at d are created during the run.
  function CreatedDuring(s: State, cbs: seq<Callbacks>, time: nat, d: nat, h: Handler): nat
    requires s.Valid()
    decreases |cbs|
  {
    if cbs == [] then 0
    else Created(s.ring[s.now], 0, cbs[0], time, d, h) + CreatedDuring(Step(s, cbs[0]), cbs[1..], time + 1, d, h)
  }

  // The wheel behaves like a collection of absolute deadlines: at every tick d
  // each handler runs exactly as often as it was waiting for d at the start
  // plus as often as it was created for d on the way, however callbacks and
  // requeueing interleave.
  lemma {:induction false} FiresAtDeadline(s: State, cbs: seq<Callbacks>, time: nat, h: Handler)
    requires s.Valid() && s.now == time % RING_COUNT
    ensures var d := time + |cbs|;
      && Run(s, cbs).now == d % RING_COUNT
      && Fires(Run(s, cbs), h) == Waiting(s, time, d, h) + CreatedDuring(s, cbs, time, d, h)
    decreases |cbs|
  {
    if cbs != [] {
      StepWaits(s, cbs[0], time, time + |cbs|, h);
      FiresAtDeadline(Step(s, cbs[0]), cbs[1..], time + 1, h);
    }
  }

  // Handler h waits exactly once, for tick d.
  ghost predicate Sole(s: State, time: nat, h: Handler, d: nat)
    requires s.Valid()
  {
    && time <= d
    && forall e: nat | e >= time :: Waiting(s, time, e, h) == if e == d then 1 else 0
  }

  // No callback registers h.
  ghost predicate NeverAsked(cb: Callbacks, h: Handler) {
    forall k, x, n | 0 <= n < |cb(k, x)| :: Made(cb(k, x)[n]) != h
  }

  lemma {:induction false} NoneAsked(rs: seq<Request>, time: nat, from: nat, d: nat, h: Handler)
    requires forall n | 0 <= n < |rs| :: Made(rs[n]) != h
    ensures Asked(rs, time, from, d, h) == 0
  {
    if rs != [] {
      NoneAsked(rs[1..], time, from, d, h);
    }
  }

  lemma {:induction false} CreatedByItself(list: seq<Handler>, k: nat, cb: Callbacks, time: nat, d: nat, h: Handler)
    requires k <= |list| && NeverAsked(cb, h)
    ensures Created(list, k, cb, time, d, h)
         == if h.periodicity != 0 && d == Deadline(time, time + 1, h.periodicity) then multiset(list[k..])[h] else 0
    decreases |list| - k
  {
    if k < |list| {
      NoneAsked(cb(k, list[k]), time, time + 1, d, h);
      CreatedByItself(list, k + 1, cb, time, d, h);
      assert list[k..] == [list[k]] + list[k + 1..];
    } else {
      assert list[k..] == [];
    }
  }

  // A periodic handler with a period of 1 to 256 ticks runs when due, and is
  // next due one period later; until then nothing moves it.
  lemma PeriodicStep(s: State, cb: Callbacks, time: nat, h: Handler, d: nat)
    requires s.Valid() && s.now == time % RING_COUNT && Sole(s, time, h, d)
    requires NeverAsked(cb, h) && 1 <= h.periodicity <= RING_COUNT
    ensures Fires(s, h) == if time == d then 1 else 0
    ensures Sole(Step(s, cb), time + 1, h, if time == d then d + h.periodicity else d)
  {
    var list := s.ring[s.now];
    assert Waiting(s, time, time, h) == Fires(s, h);
    DeadlineIff(time, h.periodicity);
    assert list[0..] == list;
    var s', t := Step(s, cb), time + 1;
    forall e: nat | e >= t
      ensures Waiting(s', t, e, h) == if e == (if time == d then d + h.periodicity else d) then 1 else 0
    {
      StepWaits(s, cb, time, e, h);
      CreatedByItself(list, 0, cb, time, e, h);
    }
  }

  // The runs of a periodic handler fall exactly at its first deadline plus
  // whole periods: after any number of steps it is next due `first` plus the
  // least number of periods not yet past.
  lemma {:induction false} PeriodicRuns(s: State, cbs: seq<Callbacks>, time: nat, h: Handler, first: nat)
    requires s.Valid() && s.now == time % RING_COUNT && Sole(s, time, h, first)
    requires 1 <= h.periodicity <= RING_COUNT
    requires forall n | 0 <= n < |cbs| :: NeverAsked(cbs[n], h)
    ensures var t := time + |cbs|;
      Fires(Run(s, cbs), h) == if t >= first && (t - first) % h.periodicity == 0 then 1 else 0
    decreases |cbs|
  {
    var t, p := time + |cbs|, h.periodicity;
    if cbs == [] {
      assert Waiting(s, time, time, h) == Fires(s, h);
      assert time == first ==> 0 % p == 0;
    } else {
      PeriodicStep(s, cbs[0], time, h, first);
      StepWaits(s, cbs[0], time, time + 1, h);
      var next := if time == first then first + p else first;
      PeriodicRuns(Step(s, cbs[0]), cbs[1..], time + 1, h, next);
      if time == first {
        PeriodShift(t - first, p);
      }
    }
  }

  lemma PeriodShift(x: int, p: int)
    requires p >= 1 && x >= 1
    ensures x >= p && (x - p) % p == 0 <==> x % p == 0
  {
    if x >= p {
      var q := x / p;
      assert x - p == p * (q - 1) + x % p;
      DivModUnique(x - p, p, q - 1, x % p);
    }
  }

  // ---------- registrations by their callback ----------

  // How many handlers of a list call callback id.
  function CountId(list: seq<Handler>, id: nat): nat {
    if list == [] then 0 else (if list[0].id == id then 1 else 0) + CountId(list[1..], id)
  }

  // How often callback id runs in the next step, whatever its period.
  function Calls(s: State, id: nat): nat
    requires s.Valid()
  {
    CountId(s.ring[s.now], id)
  }

  // No handler that waits calls id.
  ghost predicate Unused(s: State, id: nat)
    requires s.Valid()
  {
    forall slot, n | 0 <= slot < RING_COUNT && 0 <= n < |s.ring[slot]| :: s.ring[slot][n].id != id
  }

  // No callback asks for id.
  ghost predicate NeverAskedFor(cb: Callbacks, id: nat) {
    forall k, x, n | 0 <= n < |cb(k, x)| :: cb(k, x)[n].id != id
  }

  // Every handler that waits and calls the same as h is h.
  ghost predicate Alone(s: State, h: Handler)
    requires s.Valid()
  {
    forall slot, n | 0 <= slot < RING_COUNT && 0 <= n < |s.ring[slot]| :: s.ring[slot][n].id == h.id ==> s.ring[slot][n] == h
  }

  lemma {:induction false} CountAlone(list: seq<Handler>, h: Handler)
    requires forall n | 0 <= n < |list| :: list[n].id == h.id ==> list[n] == h
    ensures CountId(list, h.id) == multiset(list)[h]
  {
    if list != [] {
      CountAlone(list[1..], h);
      assert list == [list[0]] + list[1..];
    }
  }

  lemma RegisterAlone(s: State, r: Request, h: Handler)
    requires s.Valid() && Alone(s, h) && (r.id == h.id ==> Made(r) == h)
    ensures Alone(Register(s, r), h)
  {
  }

  lemma {:induction false} RegisterAllAlone(s: State, rs: seq<Request>, h: Handler)
    requires s.Valid() && Alone(s, h) && forall n | 0 <= n < |rs| :: rs[n].id == h.id ==> Made(rs[n]) == h
    ensures Alone(RegisterAll(s, rs), h)
    decreases |rs|
  {
    if rs != [] {
      RegisterAlone(s, rs[0], h);
      RegisterAllAlone(Register(s, rs[0]), rs[1..], h);
    }
  }

  lemma {:induction false} RunAlone(s: State, list: seq<Handler>, k: nat, cb: Callbacks, h: Handler)
    requires s.Valid() && Alone(s, h) && k <= |list|
    requires forall n | 0 <= n < |list| :: list[n].id == h.id ==> list[n] == h
    requires forall j, x, n | 0 <= n < |cb(j, x)| :: cb(j, x)[n].id == h.id ==> Made(cb(j, x)[n]) == h
    ensures Alone(RunFrom(s, list, k, cb), h)
    decreases |list| - k
  {
    if k < |list| {
      RegisterAllAlone(s, cb(k, list[k]), h);
      var s1 := RegisterAll(s, cb(k, list[k]));
      RunAlone(Requeue(s1, list[k]), list, k + 1, cb, h);
    }
  }

  lemma StepAlone(s: State, cb: Callbacks, h: Handler)
    requires s.Valid() && Alone(s, h)
    requires forall j, x, n | 0 <= n < |cb(j, x)| :: cb(j, x)[n].id == h.id ==> Made(cb(j, x)[n]) == h
    ensures Alone(Step(s, cb), h)
  {
    RunAlone(Detach(s), s.ring[s.now], 0, cb, h);
  }

  lemma {:induction false} RunsAlone(s: State, cbs: seq<Callbacks>, h: Handler)
    requires s.Valid() && Alone(s, h) && forall n | 0 <= n < |cbs| :: NeverAskedFor(cbs[n], h.id)
    ensures Alone(Run(s, cbs), h)
    decreases |cbs|
  {
    if cbs != [] {
      StepAlone(s, cbs[0], h);
      RunsAlone(Step(s, cbs[0]), cbs[1..], h);
    }
  }

  // A handler that is not periodic runs when due and is gone then.
  lemma {:induction false} OnceRuns(s: State, cbs: seq<Callbacks>, time: nat, h: Handler, due: nat)
    requires s.Valid() && s.now == time % RING_COUNT && Sole(s, time, h, due) && h.periodicity == 0
    requires forall n | 0 <= n < |cbs| :: NeverAsked(cbs[n], h)
    ensures Fires(Run(s, cbs), h) == if time + |cbs| == due then 1 else 0
    decreases |cbs|
  {
    FiresAtDeadline(s, cbs, time, h);
    NoneCreated(s, cbs, time, time + |cbs|, h);
  }

  lemma {:induction false} NoneCreated(s: State, cbs: seq<Callbacks>, time: nat, d: nat, h: Handler)
    requires s.Valid() && h.periodicity == 0 && forall n | 0 <= n < |cbs| :: NeverAsked(cbs[n], h)
    ensures CreatedDuring(s, cbs, time, d, h) == 0
    decreases |cbs|
  {
    if cbs != [] {
      CreatedByItself(s.ring[s.now], 0, cbs[0], time, d, h);
      NoneCreated(Step(s, cbs[0]), cbs[1..], time + 1, d, h);
    }
  }

  lemma UnusedWaits(s: State, time: nat, h: Handler)
    requires s.Valid() && Unused(s, h.id)
    ensures Alone(s, h) && forall e: nat :: Waiting(s, time, e, h) == 0
  {
    forall e: nat ensures Waiting(s, time, e, h) == 0 {
      assert h !in s.ring[e % RING_COUNT];
    }
  }

  // The times at which a registration made at `time` is to run.
  predicate DueAt(r: Request, time: nat, t: nat)
    requires r.ticks >= 1
  {
    t > time && if r.periodic then (t - time) % r.ticks == 0 else t == time + r.ticks
  }

  // What happens from a state on in which h, made for the request, waits alone.
  lemma RequestedRuns(s: State, cbs: seq<Callbacks>, time: nat, from: nat, r: Request, h: Handler)
    requires s.Valid() && s.now == from % RING_COUNT && time <= from <= time + 1 && 1 <= r.ticks <= RING_COUNT
    requires h == Handler(r.id, if r.periodic then r.ticks else 0)
    requires Alone(s, h) && Sole(s, from, h, time + r.ticks)
    requires forall n | 0 <= n < |cbs| :: NeverAskedFor(cbs[n], r.id)
    ensures Calls(Run(s, cbs), r.id) == if DueAt(r, time, from + |cbs|) then 1 else 0
  {
    hide Sole, Alone, NeverAskedFor, NeverAsked, Run;
    var t, first := from + |cbs|, time + r.ticks;
    CallsAre(s, cbs, h);
    forall n | 0 <= n < |cbs| ensures NeverAsked(cbs[n], h) {
      NotMade(cbs[n], h);
    }
    if r.periodic {
      PeriodicRuns(s, cbs, from, h, first);
      if t > time { PeriodShift(t - time, r.ticks); }
    } else {
      OnceRuns(s, cbs, from, h, first);
    }
  }

  lemma NotMade(cb: Callbacks, h: Handler)
    requires NeverAskedFor(cb, h.id)
    ensures NeverAsked(cb, h)
  {
    forall k, x, m | 0 <= m < |cb(k, x)| ensures Made(cb(k, x)[m]) != h {
      assert cb(k, x)[m].id != h.id;
    }
  }

  lemma CallsAre(s: State, cbs: seq<Callbacks>, h: Handler)
    requires s.Valid() && Alone(s, h) && forall n | 0 <= n < |cbs| :: NeverAskedFor(cbs[n], h.id)
    ensures Calls(Run(s, cbs), h.id) == Fires(Run(s, cbs), h)
  {
    hide NeverAskedFor, Run;
    RunsAlone(s, cbs, h);
    var s' := Run(s, cbs);
    CountAlone(s'.ring[s'.now], h);
  }

  // A registration between steps, of a callback nobody else registers: it is
  // called at the tick asked for, and at whole periods after that if it is
  // periodic, and at no other tick.
  lemma RegisteredRuns(s: State, cbs: seq<Callbacks>, time: nat, r: Request)
    requires s.Valid() && s.now == time % RING_COUNT && 1 <= r.ticks < RING_COUNT && Unused(s, r.id)
    requires forall n | 0 <= n < |cbs| :: NeverAskedFor(cbs[n], r.id)
    ensures Calls(Run(Register(s, r), cbs), r.id) == if DueAt(r, time, time + |cbs|) then 1 else 0
  {
    var h := Handler(r.id, if r.periodic then r.ticks else 0);
    UnusedWaits(s, time, h);
    RegisterAlone(s, r, h);
    DeadlineIff(time, r.ticks);
    forall e: nat | e >= time ensures Waiting(Register(s, r), time, e, h) == if e == time + r.ticks then 1 else 0 {
      RegisterWaits(s, r, time, time, e, h);
    }
    RequestedRuns(Register(s, r), cbs, time, time, r, h);
  }

  // The callbacks of one step ask for r.id once: the callback in position k of
  // the list, as its request m.
  ghost predicate AsksOnce(cb: Callbacks, list: seq<Handler>, k: nat, m: nat, r: Request) {
    && k < |list| && m < |cb(k, list[k])| && cb(k, list[k])[m] == r
    && forall j, x, n | 0 <= n < |cb(j, x)| && cb(j, x)[n].id == r.id :: j == k && x == list[k] && n == m
  }

  lemma {:induction false} AskedOnce(rs: seq<Request>, m: nat, time: nat, from: nat, d: nat, h: Handler)
    requires m < |rs| && Made(rs[m]) == h && forall n | 0 <= n < |rs| && n != m :: rs[n].id != h.id
    ensures Asked(rs, time, from, d, h) == if d == Deadline(time, from, rs[m].ticks) then 1 else 0
  {
    if m == 0 {
      NoneAsked(rs[1..], time, from, d, h);
    } else {
      AskedOnce(rs[1..], m - 1, time, from, d, h);
    }
  }

  lemma {:induction false} CreatedOnce(list: seq<Handler>, j: nat, cb: Callbacks, time: nat, d: nat,
                                              k: nat, m: nat, r: Request, h: Handler)
    requires j <= |list| && AsksOnce(cb, list, k, m, r) && h == Made(r)
    requires forall n | 0 <= n < |list| :: list[n].id != r.id
    ensures Created(list, j, cb, time, d, h) == if j <= k && d == Deadline(time, time + 1, r.ticks) then 1 else 0
    decreases |list| - j
  {
    if j < |list| {
      var rs := cb(j, list[j]);
      if j == k {
        AskedOnce(rs, m, time, time + 1, d, h);
      } else {
        NoneAsked(rs, time, time + 1, d, h);
      }
      CreatedOnce(list, j + 1, cb, time, d, k, m, r, h);
    }
  }

  // The period is the number of ticks asked for.
  lemma MadeAs(r: Request)
    ensures Made(r) == Handler(r.id, if r.periodic then r.ticks else 0)
  {
  }

  // The same for a registration made by a callback that runs at tick `time`,
  // which may be a whole turn of the wheel ahead.
  lemma CallbackRegistrationRuns(s: State, cb: Callbacks, cbs: seq<Callbacks>, time: nat, k: nat, m: nat, r: Request)
    requires s.Valid() && s.now == time % RING_COUNT && 1 <= r.ticks <= RING_COUNT && Unused(s, r.id)
    requires AsksOnce(cb, s.ring[s.now], k, m, r)
    requires forall n | 0 <= n < |cbs| :: NeverAskedFor(cbs[n], r.id)
    ensures Calls(Run(Step(s, cb), cbs), r.id) == if DueAt(r, time, time + 1 + |cbs|) then 1 else 0
  {
    var h := Handler(r.id, if r.periodic then r.ticks else 0);
    hide Step, Alone, AsksOnce, Unused, NeverAskedFor, Sole, Run, Made, DueAt, Calls, Waiting, Created;
    MadeAs(r);
    UnusedWaits(s, time, h);
    CallbackAlone(s, cb, k, m, r, h);
    CallbackWaits(s, cb, time, k, m, r, h);
    StepWaits(s, cb, time, time + 1, h);
    RequestedRuns(Step(s, cb), cbs, time, time + 1, r, h);
  }

  lemma CallbackAlone(s: State, cb: Callbacks, k: nat, m: nat, r: Request, h: Handler)
    requires s.Valid() && Alone(s, h) && h.id == r.id && Made(r) == h && AsksOnce(cb, s.ring[s.now], k, m, r)
    ensures Alone(Step(s, cb), h)
  {
    hide Step, Alone, Made;
    StepAlone(s, cb, h);
  }

  lemma CallbackWaits(s: State, cb: Callbacks, time: nat, k: nat, m: nat, r: Request, h: Handler)
    requires s.Valid() && s.now == time % RING_COUNT && 1 <= r.ticks <= RING_COUNT && Unused(s, r.id)
    requires h.id == r.id && Made(r) == h && AsksOnce(cb, s.ring[s.now], k, m, r)
    ensures Sole(Step(s, cb), time + 1, h, time + r.ticks)
  {
    var list, s', t := s.ring[s.now], Step(s, cb), time + 1;
    assert forall n | 0 <= n < |list| :: list[n].id != r.id;
    hide Step, Made, AsksOnce, Unused;
    UnusedWaits(s, time, h);
    DeadlineIff(time, r.ticks);
    forall e: nat | e >= t ensures Waiting(s', t, e, h) == if e == time + r.ticks then 1 else 0 {
      StepWaits(s, cb, time, e, h);
      CreatedOnce(list, 0, cb, time, e, k, m, r, h);
    }
  }
}
