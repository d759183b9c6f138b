/** The whole boot: the slices cut from the startup tree, run one after the other. Joins the tree of
    base/settings/tree.go to `RunSlice` of base/pm/pm.go the way apps/core0/bootstrap/bootstrap.go does. */
module WholeBoot {
  import opened WaitMachine
  import opened Startups
  import opened StartupTree
  import opened BootSlice
  import opened BootSafety
  import opened BootEnds
  import Condition
  import ConditionTexts

  // ---- what can start in a slice ---------------------------------------------------------------------

  /** Nothing is refused by the process manager and nothing exits with an error. */
  ghost predicate Happy(step: Step) {
    (step.Dispatch? ==> step.ok) && (step.ExitHook? ==> step.success)
  }

  /** `k` lists a service of its slice that will never run. */
  ghost predicate ListsDead(sl: Slice, st: State, k: string)
    requires k in sl.svc
  {
    exists a :: a in sl.svc[k].after && a in st.phase && Dead(st.phase[a])
  }

  ghost predicate HappyKey(sl: Slice, st: State, k: string)
    requires k in sl.svc && k in st.phase && k in st.latches
  {
    match st.phase[k]
    case Waiting(_, ok) => ok || ListsDead(sl, st, k)
    case Refused => ListsDead(sl, st, k)
    case Failed => false
    case Started(_, _) => st.latches[k].closed ==> st.latches[k].state
    case _ => true
  }

  ghost predicate HappyInv(sl: Slice, st: State)
    requires sl.Valid()
  {
    Inv(sl, st) && forall k :: k in sl.svc ==> HappyKey(sl, st, k)
  }

  lemma DeadStays(sl: Slice, st: State, st': State, k: string)
    requires k in sl.svc && Onward(st, st') && ListsDead(sl, st, k)
    ensures ListsDead(sl, st', k)
  {
    var a :| a in sl.svc[k].after && a in st.phase && Dead(st.phase[a]);
    assert a in st'.phase;
  }

  /** A dependency that turns the wait down is dead. */
  lemma TurnedDown(sl: Slice, st: State, k: string)
    requires sl.Valid() && HappyInv(sl, st) && Enabled(sl, st, Examine(k))
    requires var a := sl.svc[k].after[st.phase[k].pos]; a in st.latches && !st.latches[a].state
    ensures ListsDead(sl, st, k)
  {
    var a := sl.svc[k].after[st.phase[k].pos];
    assert KeyInv(st, sl.svc[a], a) && HappyKey(sl, st, a);
  }

  lemma HappyMoved(sl: Slice, st: State, step: Step)
    requires sl.Valid() && HappyInv(sl, st) && Enabled(sl, st, step) && Happy(step) && !step.Collect?
    ensures var k, st' := Effect(sl, st, step).key, Do(sl, st, step);
      k in sl.svc && k in st'.phase && k in st'.latches && HappyKey(sl, st', k)
  {
    hide ListsDead, KeyInv, Onward, Admissible;
    var k, st' := Effect(sl, st, step).key, Do(sl, st, step);
    EffectAdmissible(sl, st, step);
    StepOnward(sl, st, step);
    StepKeys(sl, st, step);
    assert HappyKey(sl, st, k);
    if step.Examine? && !ListsDead(sl, st, k) {
      var a := sl.svc[k].after[st.phase[k].pos];
      if a in st.latches && !st.latches[a].state {
        TurnedDown(sl, st, k);
      }
    }
    if ListsDead(sl, st, k) {
      DeadStays(sl, st, st', k);
    }
  }

  lemma HappyStep(sl: Slice, st: State, step: Step)
    requires sl.Valid() && HappyInv(sl, st) && Enabled(sl, st, step) && Happy(step)
    ensures HappyInv(sl, Do(sl, st, step))
  {
    hide KeyInv, Enabled, Effect, Inv;
    var st' := Do(sl, st, step);
    StepKeepsInv(sl, st, step);
    StepOnward(sl, st, step);
    StepKeys(sl, st, step);
    forall k | k in sl.svc ensures HappyKey(sl, st', k) {
      if !step.Collect? && Effect(sl, st, step).key == k {
        HappyMoved(sl, st, step);
      } else {
        StepFrame(sl, st, step, k);
        if ListsDead(sl, st, k) {
          DeadStays(sl, st, st', k);
        }
      }
    }
  }

  lemma HappyInitial(sl: Slice)
    requires sl.Valid()
    ensures HappyInv(sl, Initial(sl))
  {
    InitialInv(sl);
  }

  /** Whatever can go wrong at a step can also go right. */
  lemma HappyChoice(sl: Slice, st: State) returns (step: Step)
    requires sl.Valid() && !Final(sl, st)
    ensures Enabled(sl, st, step) && Happy(step)
  {
    step :| Enabled(sl, st, step);
    if step.Dispatch? {
      step := Dispatch(step.key, true);
    } else if step.ExitHook? {
      step := ExitHook(step.key, true);
    }
  }

  lemma {:induction false} HappyRun(sl: Slice, st: State) returns (steps: seq<Step>)
    requires sl.Valid() && HappyInv(sl, st)
    ensures Legal(sl, st, steps) && Final(sl, Exec(sl, st, steps)) && HappyInv(sl, Exec(sl, st, steps))
    decreases StepsLeft(sl, st)
  {
    hide HappyKey, Inv, Do, Enabled;
    steps := [];
    if !Final(sl, st) {
      var step := HappyChoice(sl, st);
      StepUsesBudget(sl, st, step);
      HappyStep(sl, st, step);
      var rest := HappyRun(sl, Do(sl, st, step));
      steps := [step] + rest;
      assert steps[1..] == rest;
    }
  }

  /** The loop of RunSlice gets as far as `x`: no undecided condition stands before it. */
  ghost predicate Reached(sl: Slice, x: string)
    requires sl.Valid()
  {
    forall i, j :: 0 <= i <= j < |sl.order| && sl.order[j] == x ==> !sl.svc[sl.order[i]].gate.Undecided?
  }

  /** Every service that `k` needs within the slice, `k` included, is reached and meets its condition. */
  ghost predicate NeedsMet(sl: Slice, k: string)
    requires sl.Valid()
  {
    forall p :: DependencyPath(sl, p) && p[0] == k ==> sl.svc[p[|p| - 1]].Runs() && Reached(sl, p[|p| - 1])
  }

  lemma NeedsMetHere(sl: Slice, k: string)
    requires sl.Valid() && k in sl.svc && NeedsMet(sl, k)
    ensures sl.svc[k].Runs() && Reached(sl, k)
  {
    assert DependencyPath(sl, [k]) && [k][0] == k;
  }

  lemma NeedsMetBelow(sl: Slice, k: string, a: string)
    requires sl.Valid() && k in sl.svc && a in sl.svc && a in sl.svc[k].after && NeedsMet(sl, k)
    ensures NeedsMet(sl, a)
  {
    hide Reached;
    forall p | DependencyPath(sl, p) && p[0] == a ensures sl.svc[p[|p| - 1]].Runs() && Reached(sl, p[|p| - 1]) {
      var longer := [k] + p;
      assert DependencyPath(sl, longer) by {
        forall i | 0 < i < |longer| ensures longer[i] in sl.svc[longer[i - 1]].after {
          assert i > 1 ==> p[i - 1] in sl.svc[p[i - 2]].after;
        }
      }
      assert longer[|longer| - 1] == p[|p| - 1];
    }
  }

  /** When all went right, the services not running although their needs are met would form a ring. */
  lemma HappyEnd(sl: Slice, st: State, k: string)
    requires sl.Valid() && HappyInv(sl, st) && Final(sl, st) && (forall knot :: !Knot(sl, knot))
    requires k in sl.svc && NeedsMet(sl, k)
    ensures st.phase[k].Started?
  {
    hide HappyKey, KeyInv, Final, NeedsMet;
    var ring := set a | a in sl.svc && NeedsMet(sl, a) && !st.phase[a].Started?;
    forall a {:trigger Tied(sl, ring, a)} | a in ring ensures Tied(sl, ring, a) {
      NotRunning(sl, st, a);
      NeedsMetHere(sl, a);
      var b :| b in sl.svc[a].after && b in sl.svc && !st.phase[b].Started?;
      NeedsMetBelow(sl, a, b);
    }
    assert ring != {} ==> Knot(sl, ring);
    assert k !in ring;
  }

  /** When all went right and nothing can happen any more, a service that does not run lists another
      one of its slice that does not. */
  lemma NotRunning(sl: Slice, st: State, k: string)
    requires sl.Valid() && HappyInv(sl, st) && Final(sl, st) && k in sl.svc && NeedsMet(sl, k) && !st.phase[k].Started?
    ensures exists a :: a in sl.svc[k].after && a in sl.svc && !st.phase[a].Started?
  {
    assert KeyInv(st, sl.svc[k], k) && HappyKey(sl, st, k);
    NeedsMetHere(sl, k);
    hide KeyInv, HappyKey, NeedsMet;
    NotPending(sl, st, k);
    if ListsDead(sl, st, k) {
      var a :| a in sl.svc[k].after && a in st.phase && Dead(st.phase[a]);
    } else {
      assert st.phase[k].Waiting? by {
        assert !Enabled(sl, st, Dispatch(k, true));
      }
      assert !Enabled(sl, st, Examine(k)) && !Enabled(sl, st, Conclude(k));
      var a := sl.svc[k].after[st.phase[k].pos];
      UnreleasedIsNotRunning(sl, st, a);
    }
  }

  lemma NotPending(sl: Slice, st: State, k: string)
    requires sl.Valid() && Inv(sl, st) && Final(sl, st) && k in sl.svc && Reached(sl, k)
    ensures !st.phase[k].Pending?
  {
    var j :| 0 <= j < |sl.order| && sl.order[j] == k;
    assert !Enabled(sl, st, Spawn);
    assert st.next < |sl.order| ==> sl.svc[sl.order[st.next]].gate.Undecided?;
  }

  lemma UnreleasedIsNotRunning(sl: Slice, st: State, a: string)
    requires sl.Valid() && Inv(sl, st) && Final(sl, st) && a in sl.svc && !st.latches[a].closed
    ensures !st.phase[a].Started?
  {
    assert KeyInv(st, sl.svc[a], a);
    assert !Enabled(sl, st, ExitHook(a, true));
  }

  /** A service of a slice without rings starts in some run exactly when it and everything it needs
      within the slice are reached and meet their conditions. What happened in other slices plays no
      part. */
  lemma CanStartIff(sl: Slice, k: string)
    requires sl.Valid() && k in sl.svc && forall knot :: !Knot(sl, knot)
    ensures CanStart(sl, k) <==> NeedsMet(sl, k)
  {
    hide NeedsMet;
    if NeedsMet(sl, k) {
      HappyInitial(sl);
      var steps := HappyRun(sl, Initial(sl));
      HappyEnd(sl, Exec(sl, Initial(sl), steps), k);
    }
    if steps :| Legal(sl, Initial(sl), steps) && StartedIn(Exec(sl, Initial(sl), steps), k) {
      InitialInv(sl);
      RunKeepsInv(sl, Initial(sl), steps);
      LoopPassesDecided(sl, Initial(sl), steps);
      StartedNeedsMet(sl, Exec(sl, Initial(sl), steps), k);
    }
  }

  ghost predicate CanStart(sl: Slice, k: string)
    requires sl.Valid()
  {
    exists steps :: Legal(sl, Initial(sl), steps) && StartedIn(Exec(sl, Initial(sl), steps), k)
  }

  ghost predicate StartedIn(st: State, k: string) {
    k in st.phase && st.phase[k].Started?
  }

  lemma StartedNeedsMet(sl: Slice, st: State, k: string)
    requires sl.Valid() && Inv(sl, st) && k in sl.svc && StartedIn(st, k)
    requires forall i :: 0 <= i < st.next ==> !sl.svc[sl.order[i]].gate.Undecided?
    ensures NeedsMet(sl, k)
  {
    forall p | DependencyPath(sl, p) && p[0] == k ensures sl.svc[p[|p| - 1]].Runs() && Reached(sl, p[|p| - 1]) {
      LaunchedNeedsAll(sl, st, p);
      var last := p[|p| - 1];
      assert KeyInv(st, sl.svc[last], last);
      assert !st.phase[last].Pending?;
    }
  }

  // ---- conditions -----------------------------------------------------------------------------------

  /** What comes of a condition on a set of names: what `GetExpression` and `Examine` make of it. */
  function Decided(condition: string, values: set<string>): Gate {
    match Condition.GetExpression(condition)
    case Hangs => Undecided
    case SyntaxError => Shut
    case Ok(e) =>
      match Condition.Examine(e, values)
      case Panic => Undecided
      case Holds(b) => if b then Open else Shut
  }

  /** A condition in front of an argument of a service, and the names it is examined on: those of the
      environment or of the kernel command line. */
  datatype ArgCondition = ArgCondition(text: string, values: set<string>)

  /** What the loop of RunSlice makes of a service: its own condition first, and if that holds those of
      its arguments, which may be left undecided too but do not shut the service out. */
  function GateOf(condition: string, arguments: seq<ArgCondition>, cmdline: set<string>): Gate {
    var own := Decided(condition, cmdline);
    if own.Open? && exists a :: a in arguments && Decided(a.text, a.values).Undecided? then Undecided else own
  }

  ghost predicate Accepted(condition: string, e: Condition.Expr) {
    Condition.GetExpression(condition) == Condition.Ok(e)
  }

  /** The text is a layout broken off behind a comma, or its tree reaches a nil child. */
  ghost predicate NeverDecided(condition: string, values: set<string>) {
    || (exists o :: ConditionTexts.IsOpenLayout(o, condition))
    || (exists e :: Accepted(condition, e) && Condition.ReachesNil(e, values))
  }

  /** The tree of the text means true, and no nil child is reached. */
  ghost predicate MeansTrue(condition: string, values: set<string>) {
    exists e :: Accepted(condition, e) && !Condition.ReachesNil(e, values) && Condition.Meaning(e, values)
  }

  lemma DecidedIff(condition: string, values: set<string>)
    ensures Decided(condition, values).Undecided? <==> NeverDecided(condition, values)
    ensures Decided(condition, values).Open? <==> MeansTrue(condition, values)
  {
    hide Condition.GetExpression, Condition.Examine, Condition.ReachesNil, Condition.Meaning;
    hide ConditionTexts.IsOpenLayout;
    ConditionTexts.HangsIff(condition);
    if Condition.GetExpression(condition).Ok? {
      var e := Condition.GetExpression(condition).exp;
      Condition.ExamineIsMeaning(e, values);
      assert Accepted(condition, e);
    }
  }

  /** A service holds the loop up for good exactly when its own condition is never decided, or is true
      and that of an argument is never decided; it is let through exactly when its own condition is true
      and those of all arguments are decided. */
  lemma GateIff(condition: string, arguments: seq<ArgCondition>, cmdline: set<string>)
    ensures GateOf(condition, arguments, cmdline).Undecided? <==>
      || NeverDecided(condition, cmdline)
      || (MeansTrue(condition, cmdline) && exists a :: a in arguments && NeverDecided(a.text, a.values))
    ensures GateOf(condition, arguments, cmdline).Open? <==>
      MeansTrue(condition, cmdline) && forall a :: a in arguments ==> !NeverDecided(a.text, a.values)
  {
    hide Decided, NeverDecided, MeansTrue;
    DecidedIff(condition, cmdline);
    forall a | a in arguments ensures Decided(a.text, a.values).Undecided? <==> NeverDecided(a.text, a.values) {
      DecidedIff(a.text, a.values);
    }
  }

  // ---- slices of the tree ---------------------------------------------------------------------------

  /** The machine a boot runs on: its command line, and the conditions and the hooks of every service. */
  datatype Plan = Plan(
    cmdline: set<string>, condition: string -> string, arguments: string -> seq<ArgCondition>, early: string -> bool) {
    function Gate(k: string): Gate {
      GateOf(condition(k), arguments(k), cmdline)
    }
  }

  ghost predicate Configured(services: seq<Startup>, cfg: Settings) {
    && (forall s :: s in services ==> s.key in cfg && cfg[s.key] == s)
    && NoTwice(services)
  }

  ghost predicate NoTwice(services: seq<Startup>) {
    forall i, j :: 0 <= i < j < |services| ==> services[i] != services[j]
  }

  /** What `RunSlice` is given. */
  ghost function SliceFor(services: seq<Startup>, cfg: Settings, plan: Plan): Slice
    requires Configured(services, cfg)
  {
    Slice(seq(|services|, i requires 0 <= i < |services| => services[i].key),
          map k | k in (set s | s in services :: s.key) :: Service(cfg[k].after, plan.Gate(k), plan.early(k)))
  }

  lemma SliceForIsValid(services: seq<Startup>, cfg: Settings, plan: Plan)
    requires Configured(services, cfg)
    ensures var sl := SliceFor(services, cfg, plan);
      && sl.Valid() && (forall s :: s in services <==> s.key in sl.svc && cfg[s.key] == s)
      && (forall k :: k in sl.svc ==> sl.svc[k].after == cfg[k].after && sl.svc[k].gate == plan.Gate(k))
  {
    var sl := SliceFor(services, cfg, plan);
    forall i, j | 0 <= i < j < |sl.order| ensures sl.order[i] != sl.order[j] {
      assert services[i] in services && services[j] in services;
    }
    forall k ensures k in sl.svc <==> k in sl.order {
      if k in sl.svc {
        var s :| s in services && s.key == k;
        var i :| 0 <= i < |services| && services[i] == s;
        assert sl.order[i] == k;
      }
      if k in sl.order {
        var i :| 0 <= i < |sl.order| && sl.order[i] == k;
        assert services[i] in services;
      }
    }
  }

  lemma {:induction false} SliceKeepsDistinct(entries: seq<Entry>, s: int, e: int)
    requires Distinct(entries)
    ensures NoTwice(SliceOf(entries, s, e))
  {
    if entries != [] {
      var n := |entries| - 1;
      SliceKeepsDistinct(entries[..n], s, e);
      SliceHas(entries[..n], s, e, entries[n].0);
      NoTwiceSnoc(SliceOf(entries[..n], s, e), entries[n].0);
    }
  }

  lemma NoTwiceSnoc(services: seq<Startup>, x: Startup)
    requires NoTwice(services)
    ensures x !in services ==> NoTwice(services + [x])
    ensures services + [] == services
  {
  }

  lemma CutIsConfigured(entries: seq<Entry>, cfg: Settings, k: nat)
    requires IsTree(entries, cfg) && k < 3
    ensures Configured(BootSlices(entries)[k], cfg)
  {
    hide IsTree, NoTwice, SliceOf;
    TreeDistinct(entries, cfg);
    SliceKeepsDistinct(entries, 1, 1000);
    SliceKeepsDistinct(entries, 1000, 1000000);
    SliceKeepsDistinct(entries, 1000000, -1);
    forall s | s in BootSlices(entries)[k] ensures s.key in cfg && cfg[s.key] == s {
      SliceIsWeighed(entries, cfg, s, k);
    }
  }

  ghost predicate NoMilestoneNames(cfg: Settings) {
    forall name :: name in cfg ==> name !in PRIORITY
  }

  /** The k-th slice of a tree as `RunSlice` gets it. */
  ghost function CutSlice(entries: seq<Entry>, cfg: Settings, plan: Plan, k: nat): (sl: Slice)
    requires IsTree(entries, cfg) && k < 3
    ensures sl.Valid() && forall name :: name in sl.svc ==> name in cfg && sl.svc[name].after == cfg[name].after
  {
    CutIsConfigured(entries, cfg, k);
    SliceForIsValid(BootSlices(entries)[k], cfg, plan);
    SliceFor(BootSlices(entries)[k], cfg, plan)
  }

  lemma WeighedHasNoKnot(sl: Slice, cfg: Settings, knot: set<string>)
    requires Weighed(sl, cfg)
    ensures !Knot(sl, knot)
  {
    if Knot(sl, knot) {
      var k :| k in knot;
      WeighedOutsideKnot(sl, cfg, knot, k, []);
    }
  }

  /** A name is in the k-th slice exactly when its service is weighed and its weight says so. */
  lemma CutHas(entries: seq<Entry>, cfg: Settings, plan: Plan, k: nat, name: string)
    requires IsTree(entries, cfg) && k < 3
    ensures name in CutSlice(entries, cfg, plan, k).svc <==>
      name in cfg && WeightOf(cfg[name], cfg, []).Weight? && SliceIndex(WeightOf(cfg[name], cfg, []).value) == k
  {
    hide BootSlices, WeightOf, SliceIndex;
    var services := BootSlices(entries)[k];
    CutIsConfigured(entries, cfg, k);
    SliceForIsValid(services, cfg, plan);
    if name in CutSlice(entries, cfg, plan, k).svc {
      var s :| s in services && s.key == name;
      SliceIsWeighed(entries, cfg, s, k);
    }
    if name in cfg && WeightOf(cfg[name], cfg, []).Weight? && SliceIndex(WeightOf(cfg[name], cfg, []).value) == k {
      WeighedInSlice(entries, cfg, name, k);
      assert cfg[name].key == name;
    }
  }

  // ---- the slices one after the other ---------------------------------------------------------------

  /** Three slices that share out the weighed services by weight. */
  ghost predicate SharedOut(slices: seq<Slice>, cfg: Settings) {
    |slices| == 3 && forall k :: 0 <= k < 3 ==> slices[k].Valid() && HoldsWeights(slices[k], cfg, k)
  }

  ghost predicate HoldsWeights(sl: Slice, cfg: Settings, k: nat) {
    && (forall name :: name in sl.svc <==>
          name in cfg && WeightOf(cfg[name], cfg, []).Weight? && SliceIndex(WeightOf(cfg[name], cfg, []).value) == k)
    && (forall name :: name in sl.svc ==> name in cfg && sl.svc[name].after == cfg[name].after)
  }

  /** The slices cut from a tree are such. */
  lemma CutsShareOut(entries: seq<Entry>, cfg: Settings, plan: Plan)
    requires IsTree(entries, cfg)
    ensures SharedOut(seq(3, k requires 0 <= k < 3 => CutSlice(entries, cfg, plan, k)), cfg)
  {
    hide IsTree, CutSlice, WeightOf, SliceIndex;
    forall k | 0 <= k < 3 ensures HoldsWeights(CutSlice(entries, cfg, plan, k), cfg, k) {
      forall name ensures name in CutSlice(entries, cfg, plan, k).svc <==>
        name in cfg && WeightOf(cfg[name], cfg, []).Weight? && SliceIndex(WeightOf(cfg[name], cfg, []).value) == k
      {
        CutHas(entries, cfg, plan, k, name);
      }
    }
  }

  lemma SharedIsWeighed(slices: seq<Slice>, cfg: Settings, k: nat)
    requires SharedOut(slices, cfg) && NoMilestoneNames(cfg) && k < 3
    ensures Weighed(slices[k], cfg) && forall knot :: !Knot(slices[k], knot)
  {
    hide WeightOf, SliceIndex;
    assert HoldsWeights(slices[k], cfg, k);
    assert Weighed(slices[k], cfg);
    forall knot ensures !Knot(slices[k], knot) {
      WeighedHasNoKnot(slices[k], cfg, knot);
    }
  }

  /** One run of a slice; `over` when `RunSlice` has returned. */
  ghost predicate SliceRun(sl: Slice, run: seq<Step>, over: bool) {
    sl.Valid() && Legal(sl, Initial(sl), run) && (over ==> Booted(sl, Exec(sl, Initial(sl), run)))
  }

  /** A boot so far: one run per slice begun, each begun only when the one before it has returned. */
  ghost predicate BootRun(slices: seq<Slice>, runs: seq<seq<Step>>) {
    |runs| <= |slices| && forall k :: 0 <= k < |runs| ==> SliceRun(slices[k], runs[k], k + 1 < |runs|)
  }

  ghost function StateIn(sl: Slice, run: seq<Step>): State
    requires SliceRun(sl, run, false)
  {
    Exec(sl, Initial(sl), run)
  }

  ghost predicate LaunchedIn(sl: Slice, run: seq<Step>, name: string) {
    SliceRun(sl, run, false) && name in StateIn(sl, run).phase && Launched(StateIn(sl, run).phase[name])
  }

  ghost predicate ReleasedIn(sl: Slice, run: seq<Step>, name: string) {
    SliceRun(sl, run, false) && name in StateIn(sl, run).latches && StateIn(sl, run).latches[name].closed
  }

  ghost predicate StartsIn(sl: Slice, run: seq<Step>, name: string) {
    SliceRun(sl, run, false) && StartedIn(StateIn(sl, run), name)
  }

  /** What a service lists has a slice, the same as its own or an earlier one. */
  ghost predicate EdgeInOrder(cfg: Settings, name: string, i: nat)
    requires name in cfg && i < |cfg[name].after|
  {
    var a := cfg[name].after[i];
    && WeightOf(cfg[name], cfg, []).Weight? && a in cfg && WeightOf(cfg[a], cfg, []).Weight?
    && 0 <= SliceIndex(WeightOf(cfg[a], cfg, []).value) <= SliceIndex(WeightOf(cfg[name], cfg, []).value)
  }

  /** So it is when the dependency reaches the first milestone and the other names the service lists do
      not add up to less than nothing. */
  lemma EdgeOrdered(cfg: Settings, name: string, i: nat)
    requires name in cfg && WeightOf(cfg[name], cfg, []).Weight?
    requires i < |cfg[name].after| && cfg[name].after[i] !in PRIORITY
    requires forall a :: a in Others(cfg[name], i) ==> TermOf(a, cfg, []).Weight?
    requires TotalOf(Others(cfg[name], i), cfg) >= 0
    requires cfg[name].after[i] in cfg && WeightOf(cfg[cfg[name].after[i]], cfg, []).Weight?
    requires SliceIndex(WeightOf(cfg[cfg[name].after[i]], cfg, []).value) >= 0
    ensures EdgeInOrder(cfg, name, i)
  {
    hide WeightOf;
    DependencyOrderIff(cfg[name], cfg, i);
  }

  /** And so is every edge without the end marker. */
  lemma EdgesOrdered(cfg: Settings, name: string, i: nat)
    requires NoEndMarker(cfg) && name in cfg && WeightOf(cfg[name], cfg, []).Weight?
    requires i < |cfg[name].after| && cfg[name].after[i] !in PRIORITY
    ensures EdgeInOrder(cfg, name, i)
  {
    hide WeightOf, NoEndMarker, SliceIndex;
    DependencyWeighs(cfg, name, i);
  }

  /** Over the whole boot a service does not start before a configured service it lists is released,
      earlier slices included, if the edge is in order; `j` is the slice of the dependency. */
  lemma BootOrderSafe(slices: seq<Slice>, cfg: Settings, runs: seq<seq<Step>>, k: nat, name: string, i: nat)
    returns (j: nat)
    requires SharedOut(slices, cfg) && BootRun(slices, runs) && k < |runs|
    requires name in slices[k].svc && name in cfg && i < |cfg[name].after| && EdgeInOrder(cfg, name, i)
    requires LaunchedIn(slices[k], runs[k], name)
    ensures j <= k && ReleasedIn(slices[j], runs[j], cfg[name].after[i])
    ensures j == k ==> StartsIn(slices[k], runs[k], cfg[name].after[i])
  {
    hide Legal, Exec, WeightOf, SliceIndex;
    var a := cfg[name].after[i];
    assert HoldsWeights(slices[k], cfg, k);
    j := SliceIndex(WeightOf(cfg[a], cfg, []).value);
    assert HoldsWeights(slices[j], cfg, j);
    if j == k {
      StartSafety(slices[k], runs[k], name, a);
    } else {
      assert SliceRun(slices[j], runs[j], j + 1 < |runs|);
    }
  }

  /** In every boot run in which the service has started, the dependency has been released. */
  ghost predicate AlwaysReleased(slices: seq<Slice>, k: nat, name: string, a: string)
    requires k < |slices|
  {
    forall runs :: BootRun(slices, runs) && k < |runs| && LaunchedIn(slices[k], runs[k], name) ==>
      ReleasedBy(slices, runs, k, a)
  }

  ghost predicate ReleasedBy(slices: seq<Slice>, runs: seq<seq<Step>>, k: nat, a: string)
    requires k < |runs| <= |slices|
  {
    exists j :: 0 <= j <= k && ReleasedIn(slices[j], runs[j], a)
  }

  /** For a service that can start, the order is kept in every boot run exactly when the edge is in
      order. */
  lemma BootOrderIff(slices: seq<Slice>, cfg: Settings, k: nat, name: string, i: nat)
    requires SharedOut(slices, cfg) && NoMilestoneNames(cfg) && k < 3 && AllConditionsDecided(slices[..k])
    requires name in slices[k].svc && name in cfg && i < |cfg[name].after| && cfg[name].after[i] !in PRIORITY
    requires NeedsMet(slices[k], name)
    ensures AlwaysReleased(slices, k, name, cfg[name].after[i]) <==> EdgeInOrder(cfg, name, i)
  {
    hide SharedOut, NoMilestoneNames, NeedsMet, LaunchedIn, ReleasedIn;
    hide EdgeInOrder, AllConditionsDecided, SliceRun, StartsIn;
    SharedThree(slices, cfg);
    var a := cfg[name].after[i];
    if EdgeInOrder(cfg, name, i) {
      forall runs | BootRun(slices, runs) && k < |runs| && LaunchedIn(slices[k], runs[k], name)
        ensures ReleasedBy(slices, runs, k, a)
      {
        var j := BootOrderSafe(slices, cfg, runs, k, name, i);
        assert ReleasedIn(slices[j], runs[j], a);
      }
    } else {
      var runs := EarlyStart(slices, cfg, k, name);
      forall j | 0 <= j <= k ensures !ReleasedIn(slices[j], runs[j], a) {
        NotInSlice(slices, cfg, k, name, i, j, runs[j]);
      }
      assert !ReleasedBy(slices, runs, k, a);
    }
  }

  lemma SharedThree(slices: seq<Slice>, cfg: Settings)
    requires SharedOut(slices, cfg)
    ensures |slices| == 3 && forall k :: 0 <= k < 3 ==> slices[k].Valid()
  {
  }

  ghost predicate AllConditionsDecided(slices: seq<Slice>) {
    forall k :: 0 <= k < |slices| ==> AllDecided(slices[k])
  }

  /** A dependency out of order is released by no slice up to that of the service. */
  lemma NotInSlice(slices: seq<Slice>, cfg: Settings, k: nat, name: string, i: nat, j: nat, run: seq<Step>)
    requires SharedOut(slices, cfg) && j <= k < 3 && name in slices[k].svc && name in cfg
    requires i < |cfg[name].after| && !EdgeInOrder(cfg, name, i)
    ensures !ReleasedIn(slices[j], run, cfg[name].after[i])
  {
    hide WeightOf, SliceIndex, Legal, Exec, KeyInv;
    assert HoldsWeights(slices[k], cfg, k) && HoldsWeights(slices[j], cfg, j);
    if SliceRun(slices[j], run, false) {
      InitialInv(slices[j]);
      RunKeepsInv(slices[j], Initial(slices[j]), run);
    }
  }

  /** The first `k` slices can be booted. */
  lemma {:induction false} BootedSoFar(slices: seq<Slice>, cfg: Settings, k: nat) returns (runs: seq<seq<Step>>)
    requires SharedOut(slices, cfg) && NoMilestoneNames(cfg) && k <= 3 && AllConditionsDecided(slices[..k])
    ensures |runs| == k && BootRun(slices, runs)
    ensures k > 0 ==> SliceRun(slices[k - 1], runs[k - 1], true)
  {
    hide Legal, Exec, NoMilestoneNames, Knot, HoldsWeights, AllDecided, Booted, Inv, Settled;
    runs := [];
    if k > 0 {
      assert forall i :: 0 <= i < k ==> AllDecided(slices[..k][i]);
      runs := BootedSoFar(slices, cfg, k - 1);
      var sl := slices[k - 1];
      InitialInv(sl);
      var steps := RunsToFinal(sl, Initial(sl));
      FinalIsSettled(sl, Exec(sl, Initial(sl), steps));
      BootGoesOn(slices, cfg, steps, k - 1);
      NextSlice(slices, runs, steps);
      runs := runs + [steps];
    }
  }

  /** A boot run that starts a service whose needs are met. */
  lemma EarlyStart(slices: seq<Slice>, cfg: Settings, k: nat, name: string) returns (runs: seq<seq<Step>>)
    requires SharedOut(slices, cfg) && NoMilestoneNames(cfg) && k < 3 && AllConditionsDecided(slices[..k])
    requires name in slices[k].svc && NeedsMet(slices[k], name)
    ensures |runs| == k + 1 && BootRun(slices, runs) && LaunchedIn(slices[k], runs[k], name)
  {
    hide SharedOut, NoMilestoneNames, NeedsMet, AllConditionsDecided, BootRun, SliceRun;
    SharedThree(slices, cfg);
    var before := BootedSoFar(slices, cfg, k);
    FailuresStopAtSlice(slices, cfg, before, name);
    var steps :| BootRun(slices, before + [steps]) && StartsIn(slices[k], steps, name);
    runs := before + [steps];
  }

  /** Without milestone names and with all conditions decided, `RunSlice` has returned exactly when the
      slice is settled: nobody can move and every started service has been released. */
  lemma BootGoesOn(slices: seq<Slice>, cfg: Settings, run: seq<Step>, k: nat)
    requires SharedOut(slices, cfg) && NoMilestoneNames(cfg) && k < 3 && AllDecided(slices[k])
    requires SliceRun(slices[k], run, false)
    ensures SliceRun(slices[k], run, true) <==> Settled(slices[k], StateIn(slices[k], run))
  {
    hide HoldsWeights, NoMilestoneNames, Settled, Booted, Knot, AllDecided;
    var sl := slices[k];
    SharedIsWeighed(slices, cfg, k);
    InitialInv(sl);
    RunKeepsInv(sl, Initial(sl), run);
    var st := Exec(sl, Initial(sl), run);
    if Settled(sl, st) {
      SettledIsBooted(sl, st);
    }
    if Booted(sl, st) {
      BootedIsSettled(sl, st);
    }
  }

  /** Some run of the next slice starts the service. */
  ghost predicate CanStartNext(slices: seq<Slice>, runs: seq<seq<Step>>, name: string)
    requires |runs| < |slices|
  {
    exists steps :: BootRun(slices, runs + [steps]) && StartsIn(slices[|runs|], steps, name)
  }

  /** Failures stop at the slice boundary: however the earlier slices went, a service of the next one
      can start exactly when it and what it needs within its own slice meet their conditions. */
  lemma FailuresStopAtSlice(slices: seq<Slice>, cfg: Settings, runs: seq<seq<Step>>, name: string)
    requires SharedOut(slices, cfg) && NoMilestoneNames(cfg) && |runs| < 3 && name in slices[|runs|].svc
    requires BootRun(slices, runs) && (runs != [] ==> SliceRun(slices[|runs| - 1], runs[|runs| - 1], true))
    ensures CanStartNext(slices, runs, name) <==> NeedsMet(slices[|runs|], name)
  {
    hide NeedsMet, Legal, Exec, NoMilestoneNames, Knot, HoldsWeights;
    var sl := slices[|runs|];
    SharedIsWeighed(slices, cfg, |runs|);
    CanStartIff(sl, name);
    if CanStart(sl, name) {
      var steps :| Legal(sl, Initial(sl), steps) && StartedIn(Exec(sl, Initial(sl), steps), name);
      NextSlice(slices, runs, steps);
      assert StartsIn(sl, steps, name);
    }
    if CanStartNext(slices, runs, name) {
      var steps :| BootRun(slices, runs + [steps]) && StartsIn(sl, steps, name);
      assert CanStart(sl, name);
    }
  }

  lemma NextSlice(slices: seq<Slice>, runs: seq<seq<Step>>, steps: seq<Step>)
    requires |runs| < |slices| && SliceRun(slices[|runs|], steps, false)
    requires BootRun(slices, runs) && (runs != [] ==> SliceRun(slices[|runs| - 1], runs[|runs| - 1], true))
    ensures BootRun(slices, runs + [steps])
  {
    hide SliceRun;
    var longer := runs + [steps];
    forall i | 0 <= i < |longer| ensures SliceRun(slices[i], longer[i], i + 1 < |longer|) {
      assert i < |runs| ==> SliceRun(slices[i], runs[i], i + 1 < |runs|);
    }
  }

  // ---- a small configuration ------------------------------------------------------------------------

  /** `b` of the second slice lists `a` of the first, whose condition does not hold. */
  ghost function SmallSettings(): Settings {
    map["a" := Startup("a", ["init"]), "b" := Startup("b", ["a", "net"])]
  }

  ghost function SmallSlices(): seq<Slice> {
    [Slice(["a"], map["a" := Service(["init"], Shut, true)]),
     Slice(["b"], map["b" := Service(["a", "net"], Open, true)]),
     Slice([], map[])]
  }

  lemma SmallWeights()
    ensures var cfg := SmallSettings();
      WeightOf(cfg["a"], cfg, []) == Weight(1) && WeightOf(cfg["b"], cfg, []) == Weight(1001)
  {
    var cfg := SmallSettings();
    var b := cfg["b"];
    assert ["init"][..0] == [] && b.after[..1] == ["a"] && ["a"][..0] == [];
    assert [] + ["a"] == ["a"] && ["b"] + ["a"] == ["b", "a"] && [] + ["b"] == ["b"];
    assert SumOf(["init"], cfg, ["a"]) == Weight(1);
    assert SumOf(["init"], cfg, ["b", "a"]) == Weight(1);
    assert WeightOf(cfg["a"], cfg, ["b"]) == Weight(1);
    assert SumOf(["a"], cfg, ["b"]) == Weight(1);
    assert SumOf(b.after, cfg, ["b"]) == Weight(1001);
    assert WeightOf(b, cfg, []) == SumOf(b.after, cfg, [] + ["b"]);
  }

  lemma SmallIsSharedOut()
    ensures SharedOut(SmallSlices(), SmallSettings())
  {
    hide WeightOf;
    SmallWeights();
    var slices, cfg := SmallSlices(), SmallSettings();
    assert HoldsWeights(slices[0], cfg, 0);
    assert HoldsWeights(slices[1], cfg, 1);
    assert HoldsWeights(slices[2], cfg, 2);
  }

  lemma NoPathOn(sl: Slice, p: seq<string>)
    requires DependencyPath(sl, p) && forall a :: a in sl.svc[p[0]].after ==> a !in sl.svc
    ensures |p| == 1
  {
    if |p| > 1 {
      PathGoesOn(sl, p);
    }
  }

  lemma PathGoesOn(sl: Slice, p: seq<string>)
    requires DependencyPath(sl, p) && |p| > 1
    ensures exists a :: a in sl.svc && a in sl.svc[p[0]].after
  {
    assert p[1] in sl.svc && p[1] in sl.svc[p[0]].after;
  }

  lemma SmallNeeds()
    ensures NeedsMet(SmallSlices()[1], "b")
    ensures NoMilestoneNames(SmallSettings()) && AllConditionsDecided(SmallSlices()[..1])
  {
    var sl := SmallSlices()[1];
    forall p | DependencyPath(sl, p) && p[0] == "b" ensures |p| == 1 {
      NoPathOn(sl, p);
    }
  }

  /** A service whose condition does not hold is skipped in a slice that has booted. */
  lemma ShutIsSkipped(sl: Slice, run: seq<Step>, k: string)
    requires SliceRun(sl, run, true) && k in sl.svc && sl.svc[k].gate.Shut?
    ensures k in StateIn(sl, run).phase && StateIn(sl, run).phase[k].Skipped?
  {
    hide Legal, Exec;
    InitialInv(sl);
    RunKeepsInv(sl, Initial(sl), run);
    assert KeyInv(StateIn(sl, run), sl.svc[k], k);
  }

  /** A boot in which `a` is skipped and `b`, which lists it, starts all the same. */
  lemma SkippedDependencyIgnored() returns (runs: seq<seq<Step>>)
    ensures var slices := SmallSlices();
      && |runs| == 2 && BootRun(slices, runs) && SliceRun(slices[0], runs[0], true)
      && "a" in StateIn(slices[0], runs[0]).phase && StateIn(slices[0], runs[0]).phase["a"].Skipped?
      && "a" in SmallSettings()["b"].after && LaunchedIn(slices[1], runs[1], "b")
  {
    hide Legal, Exec, NeedsMet, LaunchedIn, SharedOut, NoMilestoneNames, AllConditionsDecided, SliceRun, StateIn;
    SmallIsSharedOut();
    SmallNeeds();
    runs := EarlyStart(SmallSlices(), SmallSettings(), 1, "b");
    assert SliceRun(SmallSlices()[0], runs[0], 0 + 1 < |runs|);
    ReturnedRan(SmallSlices()[0], runs[0]);
    ShutIsSkipped(SmallSlices()[0], runs[0], "a");
  }

  lemma ReturnedRan(sl: Slice, run: seq<Step>)
    requires SliceRun(sl, run, true)
    ensures SliceRun(sl, run, false)
  {
  }
}
