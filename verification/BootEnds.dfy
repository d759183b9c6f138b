/** How the boot of a slice ends: every run is finite, and the complete ones end booted exactly when no
    services wait for each other in a ring. About `RunSlice` of base/pm/pm.go. */
module BootEnds {
  import opened WaitMachine
  import opened Startups
  import opened BootSlice
  import opened BootSafety

  // ---- every run ends, and exactly without a knot it ends booted --------------------------------

  ghost function BudgetSum(sl: Slice, st: State, n: nat): nat
    requires n <= |sl.order| && (forall i :: 0 <= i < n ==> sl.order[i] in sl.svc && sl.order[i] in st.phase)
  {
    if n == 0 then 0
    else BudgetSum(sl, st, n - 1) + Budget(sl.svc[sl.order[n - 1]], st.phase[sl.order[n - 1]])
  }

  ghost function StepsLeft(sl: Slice, st: State): nat
    requires sl.Valid() && Inv(sl, st)
  {
    BudgetSum(sl, st, |sl.order|) + |st.awaited|
  }

  lemma {:induction false} BudgetDrops(sl: Slice, st: State, st': State, at: nat, n: nat)
    requires sl.Valid() && at < |sl.order| && n <= |sl.order|
    requires st.phase.Keys == sl.svc.Keys && st'.phase.Keys == sl.svc.Keys
    requires st'.phase == st.phase[sl.order[at] := st'.phase[sl.order[at]]]
    requires var k := sl.order[at]; Budget(sl.svc[k], st'.phase[k]) < Budget(sl.svc[k], st.phase[k])
    ensures BudgetSum(sl, st', n) + (if at < n then 1 else 0) <= BudgetSum(sl, st, n)
  {
    if n > 0 {
      BudgetDrops(sl, st, st', at, n - 1);
    }
  }

  lemma {:induction false} BudgetSame(sl: Slice, st: State, st': State, n: nat)
    requires sl.Valid() && n <= |sl.order| && st.phase == st'.phase && st.phase.Keys == sl.svc.Keys
    ensures BudgetSum(sl, st', n) == BudgetSum(sl, st, n)
  {
    if n > 0 {
      BudgetSame(sl, st, st', n - 1);
    }
  }

  lemma EffectUsesBudget(sl: Slice, st: State, step: Step, st': State)
    requires sl.Valid() && Inv(sl, st) && Enabled(sl, st, step) && !step.Collect? && st' == Do(sl, st, step)
    ensures st'.phase.Keys == sl.svc.Keys
    ensures BudgetSum(sl, st', |sl.order|) < BudgetSum(sl, st, |sl.order|)
  {
    EffectBudget(sl, st, step);
    StepKeys(sl, st, step);
    var c := Effect(sl, st, step);
    var at :| 0 <= at < |sl.order| && sl.order[at] == c.key;
    BudgetDrops(sl, st, st', at, |sl.order|);
  }

  lemma StepUsesBudget(sl: Slice, st: State, step: Step)
    requires sl.Valid() && Inv(sl, st) && Enabled(sl, st, step)
    ensures Inv(sl, Do(sl, st, step)) && StepsLeft(sl, Do(sl, st, step)) < StepsLeft(sl, st)
  {
    StepKeepsInv(sl, st, step);
    var st' := Do(sl, st, step);
    if step.Collect? {
      BudgetSame(sl, st, st', |sl.order|);
    } else {
      EffectUsesBudget(sl, st, step, st');
      assert st'.awaited == st.awaited;
    }
  }

  /** Nothing can happen any more. */
  ghost predicate Final(sl: Slice, st: State)
    requires sl.Valid()
  {
    forall step :: !Enabled(sl, st, step)
  }

  /** Every key is released and WaitAll has returned. */
  ghost predicate Booted(sl: Slice, st: State) {
    && st.next == |sl.order| && st.awaited == {}
    && forall k :: k in sl.svc ==> k in st.latches && st.latches[k].closed
  }

  lemma {:induction false} RunIsBounded(sl: Slice, st: State, steps: seq<Step>)
    requires sl.Valid() && Inv(sl, st) && Legal(sl, st, steps)
    ensures |steps| <= StepsLeft(sl, st)
    decreases |steps|
  {
    if steps != [] {
      StepUsesBudget(sl, st, steps[0]);
      RunIsBounded(sl, Do(sl, st, steps[0]), steps[1..]);
    }
  }

  lemma {:induction false} RunsToFinal(sl: Slice, st: State) returns (steps: seq<Step>)
    requires sl.Valid() && Inv(sl, st)
    ensures Legal(sl, st, steps) && Final(sl, Exec(sl, st, steps))
    decreases StepsLeft(sl, st)
  {
    hide Inv, Do;
    steps := [];
    if !Final(sl, st) {
      var step :| Enabled(sl, st, step);
      StepUsesBudget(sl, st, step);
      var rest := RunsToFinal(sl, Do(sl, st, step));
      steps := [step] + rest;
      assert steps[1..] == rest;
    }
  }

  /** Nobody can move, every started service has been released, and WaitAll has nothing to pass; hooks
      of services that are already released may still fire. */
  ghost predicate Settled(sl: Slice, st: State)
    requires sl.Valid()
  {
    !CanMove(sl, st) && !AwaitsHook(st) && forall k :: !Enabled(sl, st, Collect(k))
  }

  lemma FinalIsSettled(sl: Slice, st: State)
    requires sl.Valid() && Final(sl, st)
    ensures Settled(sl, st)
  {
    if AwaitsHook(st) {
      var h :| h in st.phase && st.phase[h] == Started(false, false);
      assert Enabled(sl, st, ExitHook(h, true));
    }
  }

  /** Every condition of the slice is decided. */
  ghost predicate AllDecided(sl: Slice) {
    forall k :: k in sl.svc ==> !sl.svc[k].gate.Undecided?
  }

  /** Without a ring and with all conditions decided, a settled slice has booted, whatever its services
      go on doing. */
  lemma SettledIsBooted(sl: Slice, st: State)
    requires sl.Valid() && Inv(sl, st) && Settled(sl, st) && AllDecided(sl) && forall knot :: !Knot(sl, knot)
    ensures Booted(sl, st)
  {
    assert !HeldUp(sl, st);
    forall k | k in sl.svc ensures st.latches[k].closed {
      if !st.latches[k].closed {
        StuckIsKnot(sl, st);
        assert false;
      }
    }
    assert !Enabled(sl, st, Spawn);
    forall k | k in sl.svc ensures k !in st.awaited {
      assert !Enabled(sl, st, Collect(k));
    }
  }

  /** A booted slice is settled. */
  lemma BootedIsSettled(sl: Slice, st: State)
    requires sl.Valid() && Inv(sl, st) && Booted(sl, st)
    ensures Settled(sl, st)
  {
    forall k | k in sl.svc
      ensures (st.phase[k].Started? || Dead(st.phase[k])) && st.phase[k] != Started(false, false)
    {
      assert KeyInv(st, sl.svc[k], k);
    }
  }

  /** The loop only gets past conditions that are decided. */
  lemma {:induction false} LoopPassesDecided(sl: Slice, st: State, steps: seq<Step>)
    requires sl.Valid() && Legal(sl, st, steps) && st.next <= |sl.order|
    requires forall i :: 0 <= i < st.next ==> !sl.svc[sl.order[i]].gate.Undecided?
    ensures var st' := Exec(sl, st, steps);
      st'.next <= |sl.order| && forall i :: 0 <= i < st'.next ==> !sl.svc[sl.order[i]].gate.Undecided?
    decreases |steps|
  {
    if steps != [] {
      LoopPassesDecided(sl, Do(sl, st, steps[0]), steps[1..]);
    }
  }

  lemma UndecidedNeverBoots(sl: Slice, k: string, steps: seq<Step>)
    requires sl.Valid() && k in sl.svc && sl.svc[k].gate.Undecided? && Legal(sl, Initial(sl), steps)
    ensures !Booted(sl, Exec(sl, Initial(sl), steps))
  {
    LoopPassesDecided(sl, Initial(sl), steps);
    var i :| 0 <= i < |sl.order| && sl.order[i] == k;
  }

  /** The members of a knot stay in front of each other. */
  ghost predicate KnotKey(st: State, s: Service, knot: set<string>, k: string) {
    && k in st.phase && k in st.latches && !st.latches[k].closed
    && (st.phase[k].Pending? ||
        (st.phase[k].Waiting? && st.phase[k].pos <= |s.after| &&
         forall j :: 0 <= j < st.phase[k].pos ==> s.after[j] !in knot))
  }

  ghost predicate KnotStuck(sl: Slice, st: State, knot: set<string>)
    requires knot <= sl.svc.Keys
  {
    forall k :: k in knot ==> KnotKey(st, sl.svc[k], knot, k)
  }

  lemma KnotKeyStep(sl: Slice, st: State, knot: set<string>, step: Step, k: string)
    requires sl.Valid() && Knot(sl, knot) && KnotStuck(sl, st, knot) && Enabled(sl, st, step) && k in knot
    ensures KnotKey(Do(sl, st, step), sl.svc[k], knot, k)
  {
    assert KnotKey(st, sl.svc[k], knot, k) && Tied(sl, knot, k);
    var s := sl.svc[k];
    if !step.Collect? && Effect(sl, st, step).key == k {
      match step {
        case Examine(_) =>
          var a := s.after[st.phase[k].pos];
          assert a in knot ==> KnotKey(st, sl.svc[a], knot, a);
        case Conclude(_) =>
          assert false;
        case Spawn =>
        case Dispatch(_, _) =>
        case EarlyHook(_) =>
        case ExitHook(_, _) =>
      }
    }
  }

  lemma {:induction false} KnotStaysStuck(sl: Slice, st: State, knot: set<string>, steps: seq<Step>)
    requires sl.Valid() && Knot(sl, knot) && KnotStuck(sl, st, knot) && Legal(sl, st, steps)
    ensures KnotStuck(sl, Exec(sl, st, steps), knot)
    decreases |steps|
  {
    if steps != [] {
      forall k | k in knot ensures KnotKey(Do(sl, st, steps[0]), sl.svc[k], knot, k) {
        KnotKeyStep(sl, st, knot, steps[0], k);
      }
      KnotStaysStuck(sl, Do(sl, st, steps[0]), knot, steps[1..]);
    }
  }

  lemma KnotNeverBoots(sl: Slice, knot: set<string>, steps: seq<Step>)
    requires sl.Valid() && Knot(sl, knot) && Legal(sl, Initial(sl), steps)
    ensures !Booted(sl, Exec(sl, Initial(sl), steps))
  {
    KnotStaysStuck(sl, Initial(sl), knot, steps);
    var k :| k in knot;
    assert KnotKey(Exec(sl, Initial(sl), steps), sl.svc[k], knot, k);
  }

  /** All settled runs have booted exactly when every condition is decided and no services that meet
      theirs wait for each other in a ring. */
  lemma BootCompletesIff(sl: Slice)
    requires sl.Valid()
    ensures AllDecided(sl) && (forall knot :: !Knot(sl, knot)) <==>
      forall steps :: Legal(sl, Initial(sl), steps) && Settled(sl, Exec(sl, Initial(sl), steps)) ==>
        Booted(sl, Exec(sl, Initial(sl), steps))
  {
    hide Settled, Booted, Knot;
    var init := Initial(sl);
    InitialInv(sl);
    if AllDecided(sl) && forall knot :: !Knot(sl, knot) {
      forall steps | Legal(sl, init, steps) && Settled(sl, Exec(sl, init, steps))
        ensures Booted(sl, Exec(sl, init, steps))
      {
        RunKeepsInv(sl, init, steps);
        SettledIsBooted(sl, Exec(sl, init, steps));
      }
    } else {
      var steps := RunsToFinal(sl, init);
      FinalIsSettled(sl, Exec(sl, init, steps));
      NeverBoots(sl, steps);
    }
  }

  lemma NeverBoots(sl: Slice, steps: seq<Step>)
    requires sl.Valid() && Legal(sl, Initial(sl), steps)
    requires !(AllDecided(sl) && forall knot :: !Knot(sl, knot))
    ensures !Booted(sl, Exec(sl, Initial(sl), steps))
  {
    if k :| k in sl.svc && sl.svc[k].gate.Undecided? {
      UndecidedNeverBoots(sl, k, steps);
    } else {
      var knot :| Knot(sl, knot);
      KnotNeverBoots(sl, knot, steps);
    }
  }

  /** A service named after a milestone gets past `Weight` and hangs the boot: `boot` after `boot`. */
  lemma MilestoneNameWeighs()
    ensures var s := Startup("boot", ["boot"]);
      WeightOf(s, map["boot" := s], []) == Weight(1000000)
  {
    var s := Startup("boot", ["boot"]);
    var cfg: Settings := map["boot" := s];
    assert s.after[..0] == [];
    assert SumOf(s.after[..0], cfg, ["boot"]) == Weight(0);
    assert [] + ["boot"] == ["boot"];
    assert SumOf(s.after, cfg, ["boot"]) == Weight(1000000);
  }

  lemma MilestoneNameDeadlocks(steps: seq<Step>)
    requires var sl := Slice(["boot"], map["boot" := Service(["boot"], Open, true)]);
      sl.Valid() && Legal(sl, Initial(sl), steps)
    ensures var sl := Slice(["boot"], map["boot" := Service(["boot"], Open, true)]);
      !Booted(sl, Exec(sl, Initial(sl), steps))
  {
    var sl := Slice(["boot"], map["boot" := Service(["boot"], Open, true)]);
    assert Tied(sl, {"boot"}, "boot") by {
      assert "boot" in sl.svc["boot"].after;
    }
    KnotNeverBoots(sl, {"boot"}, steps);
  }
}
