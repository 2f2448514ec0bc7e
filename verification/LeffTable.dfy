/**
 The lamp-effect allocator as it runs: bitmaps, an array of effect ids and the
 table of live tasks, all updated in place.  Each method performs exactly the
 step of the same name in module Leff.
 */
module LeffTables {
  import opened LampSets
  import Leff

  // A row of the effect table: priority and needed lamps.
  datatype Row = Row(prio: nat, res: Words)

  function Effects(rows: seq<Row>): (t: Leff.Table)
    ensures |t| == |rows|
    ensures forall i | 0 <= i < |rows| :: t[i] == Leff.Effect(rows[i].prio, Lamps(rows[i].res))
  {
    seq(|rows|, i requires 0 <= i < |rows| => Leff.Effect(rows[i].prio, Lamps(rows[i].res)))
  }

  class LeffTable {
    const rows: seq<Row>
    // GID_LEFF_BASE; GID_NULL is zero.
    const base: nat
    const runningList: array<nat>
    const freeSet: array<bv16>
    const dataSet: array<bv16>
    var nextGid: nat
    // The task groups that have a live task.
    var tasks: set<nat>

    ghost predicate Valid()
      reads this, runningList
    {
      && base > 0
      && runningList.Length == Leff.MAX_RUNNING_LEFFS
      && freeSet.Length == 4 && dataSet.Length == 4 && freeSet != dataSet
      && base <= nextGid < base + Leff.MAX_RUNNING_LEFFS
      && forall i | 0 <= i < runningList.Length :: runningList[i] < |rows|
    }

    ghost predicate Alive(slot: nat)
      reads this
    {
      base + slot in tasks
    }

    ghost function LiveSlots(): set<nat>
      reads this
    {
      set i: nat | i < Leff.MAX_RUNNING_LEFFS && Alive(i)
    }

    ghost function Table(): Leff.Table {
      Effects(rows)
    }

    ghost function Abs(): (s: Leff.State)
      requires Valid()
      reads this, runningList, freeSet, dataSet
      ensures Leff.WellFormed(Table(), s)
    {
      Leff.State(runningList[..], nextGid - base, Lamps(freeSet[..]), Lamps(dataSet[..]), LiveSlots())
    }

    // The slot a calling task belongs to.
    ghost function Slot(gid: nat): Leff.Caller {
      if base <= gid < base + Leff.MAX_RUNNING_LEFFS then gid - base else Leff.MAX_RUNNING_LEFFS
    }

    constructor (rows: seq<Row>, base: nat)
      requires |rows| > 0 && base > 0
      ensures Valid() && Abs() == Leff.Init()
      ensures this.rows == rows && this.base == base && tasks == {}
      ensures fresh(runningList) && fresh(freeSet) && fresh(dataSet)
    {
      this.rows, this.base := rows, base;
      runningList := new nat[Leff.MAX_RUNNING_LEFFS](_ => Leff.LEFF_NULL);
      freeSet := new bv16[4](_ => 0xffff);
      dataSet := new bv16[4](_ => 0);
      nextGid, tasks := base, {};
      new;
      Fill(freeSet);
      Zero(dataSet);
      assert runningList[..] == Leff.NoneRunning();
    }

    method GidFindById(id: nat) returns (gid: nat)
      requires Valid()
      ensures gid == 0 || base <= gid < base + Leff.MAX_RUNNING_LEFFS
      ensures gid == (if Leff.Find(Abs().running, id) < 0 then 0 else base + Leff.Find(Abs().running, id))
    {
      var idx := 0;
      while idx < Leff.MAX_RUNNING_LEFFS
        invariant idx <= Leff.MAX_RUNNING_LEFFS
        invariant Leff.FindFrom(runningList[..], id, 0) == Leff.FindFrom(runningList[..], id, idx)
      {
        if runningList[idx] == id { return base + idx; }
        idx := idx + 1;
      }
      return 0;
    }

    method GidAlloc() returns (gid: nat)
      requires Valid()
      modifies this`nextGid
      ensures Valid()
      ensures LiveSlots() == old(LiveSlots())
      ensures var slot := Leff.AllocFrom(LiveSlots(), old(nextGid) - base, old(nextGid) - base);
        && gid == (if slot < 0 then 0 else base + slot)
        && nextGid == (if slot < 0 then old(nextGid) else base + Leff.Successor(slot))
    {
      hide Lamps;
      gid := nextGid;
      var firstGid := gid;
      while gid in tasks
        invariant base <= gid < base + Leff.MAX_RUNNING_LEFFS
        invariant Leff.AllocFrom(LiveSlots(), firstGid - base, gid - base)
          == Leff.AllocFrom(LiveSlots(), firstGid - base, firstGid - base)
        decreases Leff.MAX_RUNNING_LEFFS - Leff.Distance(firstGid - base, gid - base)
      {
        assert Alive(gid - base) && gid - base in LiveSlots();
        gid := gid + 1;
        if gid == base + Leff.MAX_RUNNING_LEFFS { gid := base; }
        if gid == firstGid { return 0; }
      }
      assert !Alive(gid - base) && gid - base !in LiveSlots();
      nextGid := gid + 1;
      if nextGid == base + Leff.MAX_RUNNING_LEFFS { nextGid := base; }
    }

    method TaskKillGid(gid: nat, current: nat)
      requires Valid()
      modifies this`tasks
      ensures tasks == if gid == current then old(tasks) else old(tasks) - {gid}
    {
      if gid != current { tasks := tasks - {gid}; }
    }

    method Close(id: nat, idx: nat)
      requires Valid() && idx < Leff.MAX_RUNNING_LEFFS && id == runningList[idx]
      modifies runningList, freeSet, dataSet
      ensures Valid() && Abs() == Leff.Close(Table(), old(Abs()), idx)
    {
      Subtract(dataSet, rows[id].res);
      Add(freeSet, rows[id].res);
      runningList[idx] := Leff.LEFF_NULL;
    }

    method Stop(id: nat, current: nat)
      requires Valid() && id < |rows|
      modifies this`tasks, runningList, freeSet, dataSet
      ensures Valid() && Abs() == Leff.Stop(Table(), old(Abs()), id, Slot(current))
    {
      var gid := GidFindById(id);
      if gid == 0 { return; }
      TaskKillGid(gid, current);
      assert LiveSlots() == Leff.Kill(old(LiveSlots()), gid - base, Slot(current));
      Close(id, gid - base);
    }

    // The first loop of leff_can_preempt.
    method FindBlocker(id: nat) returns (found: bool)
      requires Valid() && id < |rows|
      ensures found == Leff.Blocked(Table(), Abs(), id)
    {
      var idx := 0;
      while idx < Leff.MAX_RUNNING_LEFFS
        invariant idx <= Leff.MAX_RUNNING_LEFFS
        invariant forall i | 0 <= i < idx :: !Leff.Blocks(Table(), runningList[..], i, id)
      {
        var rid := runningList[idx];
        if rid != Leff.LEFF_NULL {
          var apart := Disjoint(rows[rid].res, rows[id].res);
          if !apart && rows[rid].prio >= rows[id].prio {
            assert Leff.Blocks(Table(), runningList[..], idx, id);
            return true;
          }
        }
        idx := idx + 1;
      }
      return false;
    }

    method CanPreempt(id: nat, current: nat) returns (ok: bool)
      requires Valid() && id < |rows|
      modifies this`tasks, runningList, freeSet, dataSet
      ensures Valid() && ok == !Leff.Blocked(Table(), old(Abs()), id)
      ensures Abs() == if ok then Leff.PreemptFrom(Table(), old(Abs()), id, Slot(current), 0) else old(Abs())
    {
      hide Leff.Blocks, LiveSlots, Leff.Find, Leff.Close, Leff.Stop, Lamps, Lit;
      var blocked := FindBlocker(id);
      if blocked { return false; }
      var idx := 0;
      while idx < Leff.MAX_RUNNING_LEFFS
        invariant idx <= Leff.MAX_RUNNING_LEFFS && Valid()
        invariant Leff.PreemptFrom(Table(), Abs(), id, Slot(current), idx)
          == Leff.PreemptFrom(Table(), old(Abs()), id, Slot(current), 0)
      {
        var rid := runningList[idx];
        if rid != Leff.LEFF_NULL {
          var apart := Disjoint(rows[rid].res, rows[id].res);
          if !apart && rows[rid].prio < rows[id].prio {
            Stop(rid, current);
          }
        }
        idx := idx + 1;
      }
      return true;
    }

    method Start(id: nat, current: nat)
      requires Valid() && id < |rows|
      modifies this, runningList, freeSet, dataSet
      ensures Valid() && Abs() == Leff.Start(Table(), old(Abs()), id, Slot(current))
    {
      hide Leff.PreemptFrom, Leff.Blocks, Leff.Launch, Leff.AllocFrom, Leff.Find, LiveSlots, Effects;
      var gid := GidFindById(id);
      if gid != 0 { return; }
      gid := GidAlloc();
      if gid == 0 { return; }
      var free := CanBeAdded(freeSet[..], rows[id].res);
      if !free {
        var ok := CanPreempt(id, current);
        if !ok { return; }
      }
      Launch(id, gid);
    }

    // The end of leff_start: take the lamps, name the effect, create its task.
    method Launch(id: nat, gid: nat)
      requires Valid() && id < |rows| && base <= gid < base + Leff.MAX_RUNNING_LEFFS
      modifies this`tasks, runningList, freeSet
      ensures Valid() && Abs() == Leff.Launch(Table(), old(Abs()), id, gid - base)
    {
      Subtract(freeSet, rows[id].res);
      runningList[gid - base] := id;
      tasks := tasks + {gid};
      assert LiveSlots() == old(LiveSlots()) + {gid - base};
    }

    method Restart(id: nat, current: nat)
      requires Valid() && id < |rows|
      modifies this, runningList, freeSet, dataSet
      ensures Valid() && Abs() == Leff.Restart(Table(), old(Abs()), id, Slot(current))
    {
      var gid := GidFindById(id);
      if gid == 0 {
        Start(id, current);
        return;
      }
      TaskKillGid(gid, current);
      Subtract(dataSet, rows[id].res);
      tasks := tasks + {gid};
    }

    // Called by the effect's own task, which ends here.
    method Exit(current: nat)
      requires Valid() && base <= current < base + Leff.MAX_RUNNING_LEFFS
      modifies this`tasks, runningList, freeSet, dataSet
      ensures Valid() && Abs() == Leff.Exit(Table(), old(Abs()), Slot(current))
    {
      var idx := current - base;
      Close(runningList[idx], idx);
      tasks := tasks - {current};
    }

    method Reset()
      requires Valid() && |rows| > 0
      modifies runningList, freeSet, dataSet
      ensures Valid()
      ensures Abs() == Leff.State(Leff.NoneRunning(), old(Abs()).next, AllLamps(), {}, LiveSlots())
    {
      for i := 0 to Leff.MAX_RUNNING_LEFFS
        invariant Valid()
        invariant forall j | 0 <= j < i :: runningList[j] == Leff.LEFF_NULL
      {
        runningList[i] := Leff.LEFF_NULL;
      }
      Fill(freeSet);
      Zero(dataSet);
      assert runningList[..] == Leff.NoneRunning();
    }

    method StopAll(current: nat)
      requires Valid() && |rows| > 0
      modifies this`tasks, runningList, freeSet, dataSet
      ensures Valid() && Abs() == Leff.StopAll(old(Abs()), Slot(current))
    {
      var idx := 0;
      while idx < Leff.MAX_RUNNING_LEFFS
        invariant idx <= Leff.MAX_RUNNING_LEFFS && Valid()
        invariant forall g :: g in tasks <==> g in old(tasks) && (!(base <= g < base + idx) || g == current)
      {
        TaskKillGid(base + idx, current);
        idx := idx + 1;
      }
      Reset();
      assert LiveSlots() == old(LiveSlots()) * {Slot(current)};
    }
  }
}
