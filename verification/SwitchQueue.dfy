/**
 The switch driver as it runs: bit matrices and a compact array of pending
 switches with a top index, updated in place.  Each method performs exactly the
 step of the same name in module Switches.
 */
module SwitchQueues {
  import opened Machine
  import S = Switches

  class SwitchDriver {
    const debounce: S.Debounce
    const slots: array<S.Entry>
    var top: nat
    var logical: set<nat>
    var edge: set<nat>
    var stable: set<nat>
    var unstable: set<nat>
    var queued: set<nat>

    ghost predicate Valid()
      reads this
    {
      slots.Length == S.MAX_QUEUED_SWITCHES && top <= slots.Length
    }

    ghost function Abs(): S.State
      requires Valid()
      reads this, slots
    {
      S.State(logical, edge, stable, unstable, queued, slots[..top])
    }

    constructor (debounce: S.Debounce, levels: set<nat>)
      ensures Valid() && Abs() == S.Init(levels) && this.debounce == debounce
      ensures fresh(slots)
    {
      this.debounce := debounce;
      slots := new S.Entry[S.MAX_QUEUED_SWITCHES](_ => S.Entry(0, 0));
      top, logical, edge, stable, unstable, queued := 0, levels, {}, {}, {}, {};
    }

    // One interrupt, with the raw reading it made.
    method Scan(raw: set<nat>)
      requires Valid()
      modifies this`edge, this`stable, this`unstable
      ensures Valid() && Abs() == S.Scan(old(Abs()), raw)
    {
      var differs := (raw - logical) + (logical - raw);
      stable := stable + differs * edge;
      unstable := unstable + (stable - differs);
      edge := differs;
    }

    method Scans(raws: seq<set<nat>>)
      requires Valid()
      modifies this`edge, this`stable, this`unstable
      ensures Valid() && Abs() == S.Scans(old(Abs()), raws)
    {
      for n := 0 to |raws|
        invariant Valid()
        invariant S.Scans(Abs(), raws[n..]) == S.Scans(old(Abs()), raws)
      {
        Scan(raws[n]);
        assert raws[n..][1..] == raws[n + 1..];
      }
    }

    method Transitioned(sw: nat)
      requires Valid()
      modifies this`logical, this`edge, this`stable, this`unstable
      ensures Valid() && Abs() == S.Transition(old(Abs()), sw)
    {
      logical := S.Flip(logical, sw);
      stable := stable - {sw};
      unstable := unstable - {sw};
      edge := edge - {sw};
    }

    method QueueAdd(sw: nat)
      requires Valid() && sw < |debounce|
      modifies this`top, this`queued, slots
      ensures Valid() && Abs() == S.QueueAdd(debounce, old(Abs()), sw)
    {
      if top < S.MAX_QUEUED_SWITCHES {
        slots[top] := S.Entry(sw, S.Signed8(debounce[sw]));
        queued := queued + {sw};
        top := top + 1;
        assert slots[..top] == old(slots[..top]) + [slots[top - 1]];
      }
    }

    method QueueRemove(i: nat)
      requires Valid() && i < top
      modifies this`top, this`queued, slots
      ensures Valid() && Abs() == S.QueueRemove(old(Abs()), i)
    {
      queued := queued - {slots[i].id};
      slots[i] := slots[top - 1];
      top := top - 1;
    }

    method Retire(i: nat)
      requires Valid() && i < top
      modifies this, slots
      ensures Valid() && Abs() == S.Retire(old(Abs()), i)
    {
      var id := slots[i].id;
      if id in unstable {
        stable := stable - {id};
        unstable := unstable - {id};
      } else {
        Transitioned(id);
      }
      QueueRemove(i);
    }

    // `irq` says which interrupts arrive before each turn of the loop.
    method ServiceQueue(elapsed: U8, irq: S.Interrupts)
      requires Valid()
      modifies this, slots
      ensures Valid() && Abs() == S.ServiceFrom(old(Abs()), 0, elapsed, irq)
    {
      var entry, pending := 0, irq;
      while entry < top
        invariant Valid() && entry <= top
        invariant S.ServiceFrom(Abs(), entry, elapsed, pending) == S.ServiceFrom(old(Abs()), 0, elapsed, irq)
        decreases top - entry
      {
        ghost var s := Abs();
        S.ScansKeepQueue(s, S.First(pending));
        Scans(S.First(pending));
        pending := S.Rest(pending);
        ghost var s0 := Abs();
        slots[entry] := S.Entry(slots[entry].id, S.Age(slots[entry].timer, elapsed));
        assert Abs() == s0.(queue := s0.queue[entry := slots[entry]]);
        if slots[entry].timer <= 0 {
          Retire(entry);
        } else {
          entry := entry + 1;
        }
      }
    }

    method UpdateStable(sw: nat)
      requires Valid() && sw < |debounce|
      modifies this, slots
      ensures Valid() && Abs() == S.UpdateStable(debounce, old(Abs()), sw)
    {
      if debounce[sw] != 0 { QueueAdd(sw); } else { Transitioned(sw); }
    }

    method Poll(irq: S.Interrupts)
      requires Valid()
      modifies this, slots
      ensures Valid() && Abs() == S.PollFrom(debounce, old(Abs()), 0, irq)
    {
      var sw, pending := 0, irq;
      while sw < |debounce|
        invariant Valid() && sw <= |debounce|
        invariant S.PollFrom(debounce, Abs(), sw, pending) == S.PollFrom(debounce, old(Abs()), 0, irq)
      {
        if sw % 8 == 0 {
          Scans(S.First(pending));
          pending := S.Rest(pending);
        }
        if sw in stable && sw !in queued { UpdateStable(sw); }
        sw := sw + 1;
      }
    }

    method Periodic(elapsed: U8, serviceIrq: S.Interrupts, pollIrq: S.Interrupts)
      requires Valid()
      modifies this, slots
      ensures Valid() && Abs() == S.Next(debounce, old(Abs()), S.Periodic(elapsed, serviceIrq, pollIrq))
    {
      ServiceQueue(elapsed, serviceIrq);
      Poll(pollIrq);
    }
  }
}
