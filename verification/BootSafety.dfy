/** What every run of a boot slice keeps: start safety, failure propagation and freedom from deadlock.
    About `RunSlice` of base/pm/pm.go, the wait machine and the weight of base/settings/startup.go. */
module BootSafety {
  import opened WaitMachine
  import opened Startups
  import opened BootSlice

  // ---- start safety and failure propagation ----------------------------------------------

  /** `p` is a chain of same-slice dependencies: each service lists the next one. */
  ghost predicate DependencyPath(sl: Slice, p: seq<string>) {
    && p != [] && (forall i :: 0 <= i < |p| ==> p[i] in sl.svc)
    && (forall i :: 0 < i < |p| ==> p[i] in sl.svc[p[i - 1]].after)
  }

  /** A service that got as far as `Run` has every transitive same-slice dependency started and its
      direct ones released. */
  lemma {:induction false} LaunchedNeedsAll(sl: Slice, st: State, p: seq<string>)
    requires sl.Valid() && Inv(sl, st) && DependencyPath(sl, p) && Launched(st.phase[p[0]])
    ensures forall i :: 0 < i < |p| ==> st.phase[p[i]].Started? && st.latches[p[i]].closed
    decreases |p|
  {
    if |p| > 1 {
      assert KeyInv(st, sl.svc[p[0]], p[0]);
      assert Passed(st, p[1], true);
      var rest := p[1..];
      assert forall i :: 0 < i < |rest| ==> rest[i] == p[i + 1] && rest[i - 1] == p[i];
      LaunchedNeedsAll(sl, st, rest);
      forall i | 0 < i < |p| ensures st.phase[p[i]].Started? && st.latches[p[i]].closed {
        assert i > 1 ==> p[i] == rest[i - 1];
      }
    }
  }

  /** Over a whole run: no service starts before its same-slice dependencies are released. */
  lemma StartSafety(sl: Slice, steps: seq<Step>, k: string, a: string)
    requires sl.Valid() && Legal(sl, Initial(sl), steps)
    requires k in sl.svc && a in sl.svc[k].after && a in sl.svc
    ensures var st := Exec(sl, Initial(sl), steps);
      k in st.phase && a in st.phase && a in st.latches &&
      (Launched(st.phase[k]) ==> st.latches[a].closed && st.phase[a].Started?)
  {
    InitialInv(sl);
    RunKeepsInv(sl, Initial(sl), steps);
    var st := Exec(sl, Initial(sl), steps);
    if Launched(st.phase[k]) {
      LaunchedNeedsAll(sl, st, [k, a]);
      assert [k, a][1] == a;
    }
  }

  lemma DeadOrStarted(sl: Slice, st: State, p: seq<string>)
    requires sl.Valid() && Inv(sl, st) && DependencyPath(sl, p) && |p| > 1
    ensures !(st.phase[p[0]].Started? && Dead(st.phase[p[|p| - 1]]))
  {
    if st.phase[p[0]].Started? {
      LaunchedNeedsAll(sl, st, p);
    }
  }

  /** Over a whole run: once a service is skipped, refused or not dispatched, none of its transitive
      same-slice dependents starts, neither later nor before. `early` and `late` lead to two moments
      of one run, in either role. */
  lemma FailurePropagates(sl: Slice, p: seq<string>, early: seq<Step>, late: seq<Step>)
    requires sl.Valid() && DependencyPath(sl, p) && |p| > 1
    ensures Legal(sl, Initial(sl), early) && Legal(sl, Exec(sl, Initial(sl), early), late) ==>
      var st := Exec(sl, Initial(sl), early);
      var st' := Exec(sl, st, late);
      var k, d := p[0], p[|p| - 1];
      && k in st.phase && d in st.phase && k in st'.phase && d in st'.phase
      && !(Dead(st.phase[d]) && st'.phase[k].Started?)
      && !(st.phase[k].Started? && Dead(st'.phase[d]))
  {
    if Legal(sl, Initial(sl), early) && Legal(sl, Exec(sl, Initial(sl), early), late) {
      InitialInv(sl);
      RunKeepsInv(sl, Initial(sl), early);
      var st := Exec(sl, Initial(sl), early);
      RunKeepsInv(sl, st, late);
      DeadOrStarted(sl, Exec(sl, st, late), p);
    }
  }

  // ---- no deadlock -------------------------------------------------------------------------

  /** Services that run and that each wait for another one of them. */
  ghost predicate Knot(sl: Slice, knot: set<string>) {
    && knot != {} && knot <= sl.svc.Keys
    && forall k {:trigger Tied(sl, knot, k)} :: k in knot ==> Tied(sl, knot, k)
  }

  ghost predicate Tied(sl: Slice, knot: set<string>, k: string)
    requires k in sl.svc
  {
    sl.svc[k].Runs() && exists a :: a in sl.svc[k].after && a in knot
  }

  /** Some goroutine or the loop of RunSlice can move. */
  ghost predicate CanMove(sl: Slice, st: State)
    requires sl.Valid()
  {
    exists step :: Enabled(sl, st, step) && (step.Spawn? || step.Examine? || step.Conclude? || step.Dispatch?)
  }

  ghost predicate AwaitsHook(st: State) {
    exists k :: k in st.phase && st.phase[k] == Started(false, false)
  }

  /** The loop of RunSlice stands at a condition that is never decided. */
  ghost predicate HeldUp(sl: Slice, st: State)
    requires sl.Valid()
  {
    st.next < |sl.order| && sl.svc[sl.order[st.next]].gate.Undecided?
  }

  lemma StuckKey(sl: Slice, st: State, k: string)
    requires sl.Valid() && Inv(sl, st) && !CanMove(sl, st) && !AwaitsHook(st) && !HeldUp(sl, st)
    requires k in st.latches && !st.latches[k].closed
    ensures sl.svc[k].Runs()
    ensures exists a :: a in sl.svc[k].after && a in st.latches && !st.latches[a].closed
  {
    assert KeyInv(st, sl.svc[k], k);
    assert !Enabled(sl, st, Spawn);
    assert k in sl.order;
    assert st.phase[k].Waiting? by {
      assert !Enabled(sl, st, Dispatch(k, true));
    }
    assert !Enabled(sl, st, Examine(k)) && !Enabled(sl, st, Conclude(k));
    var a := sl.svc[k].after[st.phase[k].pos];
    assert a in sl.svc[k].after;
  }

  lemma StuckIsKnot(sl: Slice, st: State)
    requires sl.Valid() && Inv(sl, st) && !CanMove(sl, st) && !AwaitsHook(st) && !HeldUp(sl, st)
    requires exists k :: k in st.latches && !st.latches[k].closed
    ensures Knot(sl, set k | k in st.latches && !st.latches[k].closed)
  {
    var open := set k | k in st.latches && !st.latches[k].closed;
    var first :| first in st.latches && !st.latches[first].closed;
    assert first in open;
    forall k {:trigger Tied(sl, open, k)} | k in open ensures Tied(sl, open, k) {
      StuckKey(sl, st, k);
    }
  }

  /** In every reachable state with an unreleased key somebody can move, or a started service is
      still awaiting its hook, or the loop stands at an undecided condition, provided no services wait
      for each other in a ring. */
  lemma NoDeadlock(sl: Slice, steps: seq<Step>)
    requires sl.Valid() && Legal(sl, Initial(sl), steps)
    requires forall knot :: !Knot(sl, knot)
    ensures var st := Exec(sl, Initial(sl), steps);
      (exists k :: k in st.latches && !st.latches[k].closed) ==>
        CanMove(sl, st) || AwaitsHook(st) || HeldUp(sl, st)
  {
    InitialInv(sl);
    RunKeepsInv(sl, Initial(sl), steps);
    var st := Exec(sl, Initial(sl), steps);
    if (exists k :: k in st.latches && !st.latches[k].closed)
      && !CanMove(sl, st) && !AwaitsHook(st) && !HeldUp(sl, st)
    {
      StuckIsKnot(sl, st);
      assert false;
    }
  }

  // ---- what Weight proves is what keeps Wait from deadlocking ---------------------------------

  /** The slice is cut from weighed services, none of them named after a milestone. */
  ghost predicate Weighed(sl: Slice, cfg: Settings) {
    forall k :: k in sl.svc ==>
      && k in cfg && sl.svc[k].after == cfg[k].after && k !in PRIORITY
      && WeightOf(cfg[k], cfg, []).Weight?
  }

  lemma {:induction false} WeighedOutsideKnot(
    sl: Slice, cfg: Settings, knot: set<string>, k: string, chain: seq<string>)
    requires Weighed(sl, cfg) && Knot(sl, knot) && k in cfg && WeightOf(cfg[k], cfg, chain).Weight?
    ensures k !in knot
    decreases Unvisited(cfg, chain)
  {
    if k in knot {
      assert Tied(sl, knot, k);
      var a :| a in sl.svc[k].after && a in knot;
      var extended := chain + [cfg[k].key];
      assert cfg[k].key in KeySet(cfg);
      UnvisitedExtend(cfg, chain, cfg[k].key);
      SumGivesTerm(cfg[k].after, cfg, extended, a);
      WeighedOutsideKnot(sl, cfg, knot, a, extended);
    }
  }

  /** Boot never deadlocks on a slice of services whose weights were computed. */
  lemma WeighedSliceNeverDeadlocks(sl: Slice, cfg: Settings, steps: seq<Step>)
    requires sl.Valid() && Weighed(sl, cfg) && Legal(sl, Initial(sl), steps)
    ensures var st := Exec(sl, Initial(sl), steps);
      (exists k :: k in st.latches && !st.latches[k].closed) ==>
        CanMove(sl, st) || AwaitsHook(st) || HeldUp(sl, st)
  {
    forall knot ensures !Knot(sl, knot) {
      if Knot(sl, knot) {
        var k :| k in knot;
        WeighedOutsideKnot(sl, cfg, knot, k, []);
        assert false;
      }
    }
    NoDeadlock(sl, steps);
  }
}
