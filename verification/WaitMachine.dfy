/** The wait machine: one latch per service, closed once and carrying the last released state.
    Models base/pm/waitmachine.go. */
module WaitMachine {

  datatype Latch = Latch(closed: bool, state: bool)
  /** A wait under way, in front of its `pos`-th key, or done. */
  datatype Waiting = Blocked(pos: nat) | Returned(ok: bool)
  type Latches = map<string, Latch>

  /** What a release leaves behind; a second release overwrites the state of a closed latch. */
  function Released(latches: Latches, key: string, state: bool): Latches {
    if key in latches then latches[key := Latch(true, state)] else latches
  }

  class Machine {
    var latches: Latches

    constructor (keys: seq<string>)
      ensures latches.Keys == set k | k in keys
      ensures forall k :: k in latches ==> latches[k] == Latch(false, false)
    {
      latches := map[];
      new;
      for i := 0 to |keys|
        invariant latches.Keys == set k | k in keys[..i]
        invariant forall k :: k in latches ==> latches[k] == Latch(false, false)
      {
        assert keys[..i + 1] == keys[..i] + [keys[i]];
        latches := latches[keys[i] := Latch(false, false)];
      }
      assert keys[..|keys|] == keys;
    }

    method Release(key: string, state: bool) returns (found: bool)
      modifies this
      ensures latches == Released(old(latches), key, state)
      ensures found <==> key in old(latches)
    {
      if key !in latches {
        return false;
      }
      latches := latches[key := latches[key].(state := state)];
      if !latches[key].closed {
        latches := latches[key := latches[key].(closed := true)];
      }
      return true;
    }

    /** `Wait` looked at in one moment: blocked on the first listed latch that is still open, or back
        with the conjunction of the states; names the machine does not hold are passed over. */
    method Wait(keys: seq<string>) returns (r: Waiting)
      ensures r.Returned? <==> forall k :: k in keys && k in latches ==> latches[k].closed
      ensures r.Returned? ==> (r.ok <==> forall k :: k in keys && k in latches ==> latches[k].state)
      ensures r.Blocked? ==> r.pos < |keys| && keys[r.pos] in latches && !latches[keys[r.pos]].closed
      ensures r.Blocked? ==> forall j :: 0 <= j < r.pos && keys[j] in latches ==> latches[keys[j]].closed
    {
      var ok := true;
      for i := 0 to |keys|
        invariant forall j :: 0 <= j < i && keys[j] in latches ==> latches[keys[j]].closed
        invariant ok <==> forall j :: 0 <= j < i && keys[j] in latches ==> latches[keys[j]].state
      {
        if keys[i] !in latches {
          continue;
        }
        if !latches[keys[i]].closed {
          return Blocked(i);
        }
        ok := ok && latches[keys[i]].state;
      }
      return Returned(ok);
    }
  }
}
