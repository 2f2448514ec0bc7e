/**
 The pulse driver as it runs: shared variables, the output register shadows and
 the request ring, updated by tasks and by the interrupt.  Each method performs
 exactly the step of the same name in module Sol.
 */
module SolDrivers {
  import opened Machine
  import Queues
  import Sol

  predicate Driven(regs: seq<bv8>, sol: nat)
    requires sol < 8 * |regs|
  {
    regs[sol / 8] & SingleBit(sol % 8) != 0
  }

  // The coils whose output bit is set.
  function DrivenSet(regs: seq<bv8>): set<nat> {
    set sol: nat | sol < 8 * |regs| && Driven(regs, sol)
  }

  // The registers with one coil's bit set or cleared.
  function WithBit(regs: seq<bv8>, sol: nat, on: bool): (r: seq<bv8>)
    requires sol < 8 * |regs|
    ensures |r| == |regs|
  {
    var m := SingleBit(sol % 8);
    regs[sol / 8 := if on then regs[sol / 8] | m else regs[sol / 8] & !m]
  }

  lemma OutputChange(regs: seq<bv8>, sol: nat, on: bool, k: nat)
    requires sol < 8 * |regs| && k < 8 * |regs|
    ensures Driven(WithBit(regs, sol, on), k) == if k == sol then on else Driven(regs, k)
  {
    if k / 8 == sol / 8 {
      OneBitChange(regs[sol / 8], sol % 8, k % 8);
    }
  }

  lemma SetOutput(regs: seq<bv8>, sol: nat, on: bool)
    requires sol < 8 * |regs|
    ensures DrivenSet(WithBit(regs, sol, on)) == if on then DrivenSet(regs) + {sol} else DrivenSet(regs) - {sol}
  {
    forall k: nat | k < 8 * |regs|
      ensures Driven(WithBit(regs, sol, on), k) == if k == sol then on else Driven(regs, k)
    {
      OutputChange(regs, sol, on, k);
    }
  }

  class SolDriver {
    const coils: Sol.Coils
    const regs: array<bv8>
    const queue: Queues.ByteQueue
    var reqLock: U8
    var timer: U8
    var duty: bv8
    var reqReg: nat
    var reqBit: bv8
    var tasks: map<Sol.Task, Sol.Phase>
    ghost var cur: nat
    ghost var starter: Sol.Starter
    ghost var finished: set<Sol.Task>
    ghost var asked: seq<U8>
    ghost var served: seq<U8>

    ghost predicate Valid()
      reads this, queue
    {
      && queue.Valid() && queue.elems.Length == Sol.SOL_REQ_QUEUE_LEN
      && regs as object != queue.elems as object
      && |coils| <= 8 * regs.Length
      && cur < 8 * regs.Length
      && reqReg == cur / 8 && reqBit == SingleBit(cur % 8)
    }

    ghost function Abs(): Sol.State
      requires Valid()
      reads this, regs, queue, queue.elems
    {
      Sol.State(reqLock, timer, duty, cur, DrivenSet(regs[..]), queue.Contents(), tasks, starter, finished, asked, served)
    }

    constructor (coils: Sol.Coils, registers: nat)
      requires 0 < |coils| <= 8 * registers
      ensures Valid() && Abs() == Sol.Init() && this.coils == coils
      ensures fresh(regs) && fresh(queue) && fresh(queue.elems)
    {
      this.coils := coils;
      regs := new bv8[registers](_ => 0);
      queue := new Queues.ByteQueue(Sol.SOL_REQ_QUEUE_LEN);
      reqLock, timer, duty, reqReg, reqBit, tasks := 0, 0, 0, 0, SingleBit(0), map[];
      cur, starter, finished, asked, served := 0, Sol.Nobody, {}, [], [];
      new;
      assert forall sol: nat | sol < 8 * regs.Length :: !Driven(regs[..], sol);
    }

    method StartSpecific(sol: U8, mask: bv8, time: U8, ghost who: Sol.Starter)
      requires Valid()
      modifies this`timer, this`duty, this`reqReg, this`reqBit, this`cur, this`starter
      ensures Valid() && Abs() == Sol.StartSpecific(coils, old(Abs()), sol, mask, time, who)
    {
      hide DrivenSet, SingleBit;
      if timer != 0 { return; }
      if sol >= |coils| { return; }
      reqReg, reqBit := sol / 8, SingleBit(sol % 8);
      cur, starter := sol, who;
      duty := mask;
      timer := time / 4;
    }

    method ReqStart(sol: U8, ghost who: Sol.Starter)
      requires Valid()
      modifies this`timer, this`duty, this`reqReg, this`reqBit, this`cur, this`starter
      ensures Valid() && Abs() == Sol.ReqStart(coils, old(Abs()), sol, who)
    {
      if sol < |coils| { StartSpecific(sol, coils[sol].duty, coils[sol].time, who); }
    }

    method IdleService()
      requires Valid()
      modifies this`timer, this`duty, this`reqReg, this`reqBit, this`cur, this`starter, this`served, queue
      ensures Valid() && Abs() == Sol.Idle(coils, old(Abs()))
    {
      var empty := queue.IsEmpty();
      if timer == 0 && !empty {
        var sol := queue.Take();
        served := served + [sol];
        ReqStart(sol, Sol.Direct);
      }
    }

    method RequestAsync(sol: U8)
      requires Valid()
      modifies this`timer, this`duty, this`reqReg, this`reqBit, this`cur, this`starter, this`asked, queue, queue.elems
      ensures Valid() && Abs() == Sol.Async(coils, old(Abs()), sol)
    {
      if timer == 0 {
        ReqStart(sol, Sol.Direct);
      } else {
        queue.Put(sol);
        asked := asked + [sol];
      }
    }

    method Request(k: Sol.Task, sol: U8)
      requires Valid()
      modifies this`tasks
      ensures Valid() && Abs() == Sol.Request(old(Abs()), k, sol)
    {
      tasks := tasks[k := Sol.Waiting(sol)];
    }

    // One turn of the loop in sol_alloc or sol_free.
    method Wake(k: Sol.Task)
      requires Valid() && k in tasks
      modifies this
      ensures Valid() && Abs() == Sol.Wake(coils, old(Abs()), k)
    {
      match tasks[k]
      case Waiting(sol) =>
        if reqLock == 0 && timer == 0 {
          reqLock := Sol.LockValue(sol);
          tasks, finished := tasks[k := Sol.Pulsing(sol)], finished - {k};
          ReqStart(sol, Sol.BySync(k));
        }
      case Pulsing(_) =>
        if reqLock == 0x80 {
          reqLock := 0;
          tasks := tasks - {k};
        }
    }

    // The scheduler kills a task wherever it sleeps, here inside sol_request.
    method Kill(k: Sol.Task)
      requires Valid()
      modifies this`tasks
      ensures Valid() && Abs() == Sol.Kill(old(Abs()), k)
    {
      tasks := tasks - {k};
    }

    method ModifyDuty(d: bv8)
      requires Valid()
      modifies this`duty
      ensures Valid() && Abs() == Sol.ModifyDuty(old(Abs()), d)
    {
      duty := d;
    }

    method ModifyTimeout(timeout: U8)
      requires Valid()
      modifies this`timer
      ensures Valid() && Abs() == Sol.ModifyTimeout(old(Abs()), timeout)
    {
      timer := timeout / 4;
    }

    method ReqOn()
      requires Valid()
      modifies regs
      ensures Valid() && Abs() == old(Abs()).(on := old(Abs()).on + {cur})
    {
      SetOutput(regs[..], cur, true);
      regs[reqReg] := regs[reqReg] | reqBit;
      assert regs[..] == WithBit(old(regs[..]), cur, true);
    }

    method ReqOff()
      requires Valid()
      modifies regs
      ensures Valid() && Abs() == old(Abs()).(on := old(Abs()).on - {cur})
    {
      SetOutput(regs[..], cur, false);
      regs[reqReg] := regs[reqReg] & !reqBit;
      assert regs[..] == WithBit(old(regs[..]), cur, false);
    }

    // The countdown has ended: signal the task that waits, if any.
    method Finish()
      requires Valid()
      modifies this`duty, this`reqLock, this`starter, this`finished
      ensures Valid()
      ensures var s := old(Abs());
        Abs() == s.(duty := 0, lock := if s.lock != 0 then 0x80 else 0, starter := Sol.Nobody,
                    finished := if s.starter.BySync? then s.finished + {s.starter.task} else s.finished)
    {
      duty := 0;
      if reqLock != 0 { reqLock := 0x80; }
      if starter.BySync? { finished := finished + {starter.task}; }
      starter := Sol.Nobody;
    }

    method Tick(strobe: bv8)
      requires Valid()
      modifies this`timer, this`duty, this`reqLock, this`starter, this`finished, regs
      ensures Valid() && Abs() == Sol.Tick(old(Abs()), strobe)
    {
      hide DrivenSet, SingleBit;
      if timer != 0 {
        timer := timer - 1;
        if timer != 0 && duty & strobe != 0 {
          ReqOn();
        } else {
          ReqOff();
          if timer == 0 {
            Finish();
          }
        }
      }
    }
  }
}
