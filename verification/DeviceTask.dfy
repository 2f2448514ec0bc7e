/**
 A ball device as it runs: its counters, updated by the update task and by
 requests.  Each method performs exactly the step of the same name in module
 Devices.
 */
module DeviceTasks {
  import opened Machine
  import D = Devices

  // How many switches are active.
  function Active(levels: seq<bool>): (n: nat)
    ensures n <= |levels|
  {
    if levels == [] then 0 else Active(levels[..|levels| - 1]) + if levels[|levels| - 1] then 1 else 0
  }

  // An event that ends where the step says keeps the account of kicks exactly
  // if the pending count does not overflow.
  lemma Kept(p: D.Props, s: D.State, e: D.Step)
    ensures D.Inv(p, s) ==> (D.Inv(p, D.Next(p, s, e)) <==> D.NoOverflow(s, e))
  {
    if D.Inv(p, s) { D.StepInvIff(p, s, e); }
  }

  class DeviceTask {
    const props: D.Props
    var actual: U8
    var previous: U8
    var maxCount: U8
    var kicksNeeded: U8
    var kickErrors: U8
    var phase: D.Phase
    var place: D.Place
    ghost var accepted: nat
    ghost var succeeded: nat
    ghost var cancelled: nat

    ghost function Abs(): D.State
      reads this
    {
      D.State(actual, previous, maxCount, kicksNeeded, kickErrors, phase, place, accepted, succeeded, cancelled)
    }

    // Accepted requests are pending, done or cancelled; retries are left.
    ghost predicate Valid()
      reads this
    {
      D.Inv(props, Abs())
    }

    constructor (props: D.Props)
      ensures Valid()
      ensures Abs() == D.Init(props) && this.props == props
    {
      this.props := props;
      actual, previous, maxCount, kicksNeeded, kickErrors := 0, 0, props.initMax, 0, 0;
      phase, place := D.Idle, D.Done;
      accepted, succeeded, cancelled := 0, 0, 0;
    }

    // Poll every switch of the device.
    method Recount(levels: seq<bool>)
      requires |levels| == props.size
      modifies this`actual, this`previous
      ensures Abs() == D.Recount(old(Abs()), Active(levels))
    {
      previous := actual;
      var count: nat := 0;
      for i := 0 to |levels|
        invariant count == Active(levels[..i])
      {
        assert levels[..i + 1][..i] == levels[..i];
        if levels[i] { count := count + 1; }
      }
      assert levels[..|levels|] == levels;
      actual := count;
    }

    method Cancel()
      modifies this`kicksNeeded, this`cancelled
      ensures Abs() == D.Cancel(old(Abs()))
    {
      cancelled := cancelled + kicksNeeded;
      kicksNeeded := 0;
    }

    method Succeed(kicked: nat)
      requires kicked <= kicksNeeded
      modifies this`kicksNeeded, this`succeeded
      ensures Abs() == D.Succeed(old(Abs()), kicked)
    {
      var left: nat := kicked;
      while left > 0
        invariant 0 <= left <= kicksNeeded
        invariant D.Succeed(Abs(), left) == D.Succeed(old(Abs()), kicked)
      {
        kicksNeeded := kicksNeeded - 1;
        succeeded := succeeded + 1;
        left := left - 1;
      }
    }

    method Finish(locked: bool, allowed: bool, levels: seq<bool>)
      requires |levels| == props.size
      modifies this
      ensures Abs() == D.Finish(props, old(Abs()), D.World(locked, allowed, Active(levels)))
    {
      if kicksNeeded == 0 && actual > maxCount {
        kicksNeeded := 1;
        kickErrors := 0;
        accepted := accepted + 1;
      }
      if kicksNeeded > 0 {
        if actual == 0 {
          Cancel();
        } else if (locked && !props.trough) || !allowed {
          place := D.Polling;
          return;
        } else {
          if phase == D.Idle { phase := D.Releasing; }
          place := D.Pulsing;
          return;
        }
      }
      Recount(levels);
      place := if actual != previous then D.Polling else D.Done;
    }

    // The update task runs from one sleep to the next.
    method Wake(poll: seq<bool>, locked: bool, allowed: bool, levels: seq<bool>)
      requires |poll| == props.size && |levels| == props.size
      modifies this
      ensures Abs() == D.Wake(props, old(Abs()), Active(poll), D.World(locked, allowed, Active(levels)))
      ensures old(Valid()) ==> Valid()
    {
      Kept(props, Abs(), D.TaskWakes(Active(poll), D.World(locked, allowed, Active(levels))));
      match place
      case Settling => place := D.Polling;
      case Pulsing => place := D.Settling;
      case Failed => Finish(locked, allowed, levels);
      case Done =>
      case Polling =>
        Recount(poll);
        if phase == D.Releasing && kicksNeeded > 0 {
          if actual >= previous {
            kickErrors := Wrap8(kickErrors + 1);
            if kickErrors != D.Limit(props) {
              place := D.Failed;
              return;
            }
            Cancel();
          } else {
            var kicked := previous - actual;
            if kicked > kicksNeeded { kicked := kicksNeeded; }
            Succeed(kicked);
          }
          phase := D.Idle;
        }
        Finish(locked, allowed, levels);
    }

    method RequestKick()
      modifies this`kicksNeeded, this`kickErrors, this`accepted, this`place
      ensures Abs() == D.RequestKick(old(Abs()))
      ensures old(Valid()) ==> (Valid() <==> old(kicksNeeded < 0xff || actual == 0xff))
    {
      Kept(props, Abs(), D.AskKick);
      if Wrap8(actual - kicksNeeded) > 0 {
        kicksNeeded := Wrap8(kicksNeeded + 1);
        kickErrors := 0;
        accepted := accepted + 1;
      }
      place := D.Settling;
    }

    method RequestEmpty()
      modifies this
      ensures Abs() == D.RequestEmpty(props, old(Abs()))
      ensures old(Valid()) ==> Valid()
    {
      Kept(props, Abs(), D.AskEmpty);
      var canKick := Wrap8(actual - kicksNeeded);
      ghost var was := kicksNeeded;
      kicksNeeded := Wrap8(kicksNeeded + canKick);
      kickErrors := 0;
      maxCount := props.initMax;
      place := D.Settling;
      if kicksNeeded >= was {
        accepted := accepted + (kicksNeeded - was);
      } else {
        cancelled := cancelled + (was - kicksNeeded);
      }
    }

    method SwitchHandler()
      modifies this`place
      ensures Abs() == D.SwitchHandler(old(Abs()))
      ensures old(Valid()) ==> Valid()
    {
      Kept(props, Abs(), D.SwitchChange);
      if place == D.Done { place := D.Settling; }
    }
  }
}
