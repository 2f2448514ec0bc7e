/** A lamp matrix rotated in place, one lamp after the other. */
module LampMatrices {
  import opened Machine
  import L = LampLists

  class LampMatrix {
    const lamps: array<bool>

    ghost predicate Valid()
      reads lamps
    {
      L.Matrix(lamps[..])
    }

    constructor ()
      ensures Valid() && fresh(lamps)
    {
      lamps := new bool[L.LAMPS];
    }

    // The last lamp of a list, looking back over breaks.
    method LastEntry(list: seq<nat>) returns (entry: nat)
      requires L.LampList(list)
      ensures entry < |list| && list[entry] == L.LastEntry(list)
    {
      entry := 0;
      while entry + 1 < |list|
        invariant entry < |list|
      {
        entry := entry + 1;
      }
      assert list[..entry + 1] == list;
      while list[entry] == L.LAMP_BREAK
        invariant entry < |list| && L.LastEntry(list) == L.LastEntry(list[..entry + 1])
        decreases entry
      {
        assert list[..entry + 1][..entry] == list[..entry];
        entry := entry - 1;
      }
    }

    method RotateNext(list: seq<nat>)
      requires Valid() && L.LampList(list)
      modifies lamps
      ensures Valid() && lamps[..] == L.RotateNext(old(lamps[..]), list)
    {
      var last := LastEntry(list);
      var state := lamps[list[last]];
      var entry := 0;
      while entry < |list|
        invariant entry <= |list| && Valid()
        invariant L.NextFrom(lamps[..], list[entry..], state) == L.RotateNext(old(lamps[..]), list)
      {
        ghost var m := lamps[..];
        assert list[entry..][1..] == list[entry + 1..];
        if list[entry] != L.LAMP_BREAK {
          var newState := lamps[list[entry]];
          lamps[list[entry]] := state;
          assert lamps[..] == m[list[entry] := state];
          state := newState;
        }
        entry := entry + 1;
      }
    }

    method RotatePrevious(list: seq<nat>)
      requires Valid() && L.LampList(list)
      modifies lamps
      ensures Valid() && lamps[..] == L.RotatePrevious(old(lamps[..]), list)
    {
      var first := lamps[list[0]];
      var previous: Option<nat> := None;
      var entry := 0;
      while entry < |list|
        invariant entry <= |list| && Valid() && (previous.Some? ==> previous.value < L.LAMPS)
        invariant entry > 0 ==> previous.Some?
        invariant L.PreviousFrom(lamps[..], list[entry..], previous, first) == L.RotatePrevious(old(lamps[..]), list)
      {
        ghost var m := lamps[..];
        assert list[entry..][1..] == list[entry + 1..];
        if list[entry] != L.LAMP_BREAK {
          if previous.Some? {
            lamps[previous.value] := lamps[list[entry]];
            assert lamps[..] == m[previous.value := m[list[entry]]];
          }
          previous := Some(list[entry]);
        }
        entry := entry + 1;
      }
      ghost var m := lamps[..];
      lamps[previous.value] := first;
      assert lamps[..] == m[previous.value := first];
    }
  }
}
