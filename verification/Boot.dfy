/** Booting one slice: `RunSlice` and its goroutines as a step relation over every interleaving.
    Models base/pm/pm.go (RunSlice), base/pm/waitmachine.go and the once-only hooks of
    base/pm/runnerhook.go. `Run` is one non-blocking step that starts the job or reports an error. */
module BootSlice {
  import opened WaitMachine
  import opened Startups

  /** What the loop of RunSlice makes of the conditions of a service: its own holds, or does not or is no
      expression; or one, its own or that of an argument, is never decided because parsing does not end or
      examining panics. */
  datatype Gate = Open | Shut | Undecided

  /** `early`: a match or delay hook is armed beside the exit hook. */
  datatype Service = Service(after: seq<string>, gate: Gate, early: bool) {
    predicate Runs() { gate.Open? }
  }

  datatype Slice = Slice(order: seq<string>, svc: map<string, Service>) {
    ghost predicate Valid() {
      && (forall i, j :: 0 <= i < j < |order| ==> order[i] != order[j])
      && (forall k :: k in svc <==> k in order)
    }
  }

  datatype Phase =
    | Pending                         // the loop of RunSlice has not reached it
    | Skipped                         // condition unmet, released false
    | Waiting(pos: nat, ok: bool)     // inside Wait, before its pos-th dependency
    | Refused                         // a dependency failed, released false
    | Ready                           // Wait returned true, Run not called yet
    | Failed                          // Run reported an error, released false
    | Started(early: bool, exit: bool)  // running; which of its once-only hooks have fired

  /** `next`: position of RunSlice's loop. `awaited`: keys WaitAll has not passed yet. */
  datatype State = State(next: nat, phase: map<string, Phase>, latches: Latches, awaited: set<string>)

  datatype Step =
    | Spawn
    | Examine(key: string)
    | Conclude(key: string)
    | Dispatch(key: string, ok: bool)
    | EarlyHook(key: string)
    | ExitHook(key: string, success: bool)
    | Collect(key: string)

  ghost function Initial(sl: Slice): State {
    State(0, map k | k in sl.svc :: Pending, map k | k in sl.svc :: Latch(false, false), sl.svc.Keys)
  }

  ghost predicate Enabled(sl: Slice, st: State, step: Step)
    requires sl.Valid()
  {
    match step
    case Spawn => st.next < |sl.order| && !sl.svc[sl.order[st.next]].gate.Undecided?
    case Examine(k) =>
      && k in sl.svc && k in st.phase && st.phase[k].Waiting? && st.phase[k].pos < |sl.svc[k].after|
      && var a := sl.svc[k].after[st.phase[k].pos];
      a in st.latches ==> st.latches[a].closed
    case Conclude(k) =>
      k in sl.svc && k in st.phase && st.phase[k].Waiting? && st.phase[k].pos == |sl.svc[k].after|
    case Dispatch(k, _) => k in st.phase && st.phase[k].Ready?
    case EarlyHook(k) =>
      k in sl.svc && sl.svc[k].early && k in st.phase && st.phase[k].Started? && !st.phase[k].early
    case ExitHook(k, _) => k in st.phase && st.phase[k].Started? && !st.phase[k].exit
    case Collect(k) =>
      st.next == |sl.order| && k in st.awaited && k in st.latches && st.latches[k].closed
  }

  /** What a step does to its service: the new phase, and the state it is released with, if it is. */
  datatype Change = Change(key: string, phase: Phase, release: Release)
  datatype Release = Keep | With(state: bool)

  ghost function Effect(sl: Slice, st: State, step: Step): Change
    requires sl.Valid() && Enabled(sl, st, step) && !step.Collect?
  {
    match step
    case Spawn =>
      var k := sl.order[st.next];
      if sl.svc[k].Runs() then Change(k, Waiting(0, true), Keep) else Change(k, Skipped, With(false))
    case Examine(k) =>
      var Waiting(pos, ok) := st.phase[k];
      var a := sl.svc[k].after[pos];
      Change(k, Waiting(pos + 1, ok && (a in st.latches ==> st.latches[a].state)), Keep)
    case Conclude(k) =>
      if st.phase[k].ok then Change(k, Ready, Keep) else Change(k, Refused, With(false))
    case Dispatch(k, ok) =>
      if ok then Change(k, Started(false, false), Keep) else Change(k, Failed, With(false))
    case EarlyHook(k) => Change(k, Started(true, st.phase[k].exit), With(true))
    case ExitHook(k, success) => Change(k, Started(st.phase[k].early, true), With(success))
  }

  ghost function Apply(st: State, c: Change): State {
    st.(phase := st.phase[c.key := c.phase],
        latches := if c.release.With? then Released(st.latches, c.key, c.release.state) else st.latches)
  }

  ghost function Do(sl: Slice, st: State, step: Step): State
    requires sl.Valid() && Enabled(sl, st, step)
  {
    if step.Collect? then st.(awaited := st.awaited - {step.key})
    else if step.Spawn? then Apply(st, Effect(sl, st, step)).(next := st.next + 1)
    else Apply(st, Effect(sl, st, step))
  }

  /** A schedule: any interleaving of the loop, the goroutines, the hooks and WaitAll. */
  ghost predicate Legal(sl: Slice, st: State, steps: seq<Step>)
    requires sl.Valid()
    decreases |steps|
  {
    steps == [] || (Enabled(sl, st, steps[0]) && Legal(sl, Do(sl, st, steps[0]), steps[1..]))
  }

  ghost function Exec(sl: Slice, st: State, steps: seq<Step>): State
    requires sl.Valid() && Legal(sl, st, steps)
    decreases |steps|
  {
    if steps == [] then st else Exec(sl, Do(sl, st, steps[0]), steps[1..])
  }

  // ---- the inductive invariant ---------------------------------------------------------

  /** The k-th service got past its dependency `a`. */
  ghost predicate Passed(st: State, a: string, ok: bool) {
    a in st.latches ==>
      st.latches[a].closed && a in st.phase && (ok ==> st.phase[a].Started?)
  }

  ghost predicate KeyInv(st: State, s: Service, k: string)
    requires k in st.phase && k in st.latches
  {
    var latch := st.latches[k];
    match st.phase[k]
    case Pending => !latch.closed
    case Skipped => latch == Latch(true, false) && !s.Runs()
    case Waiting(pos, ok) =>
      && !latch.closed && s.Runs() && pos <= |s.after|
      && forall j :: 0 <= j < pos ==> Passed(st, s.after[j], ok)
    case Refused => latch == Latch(true, false) && s.Runs()
    case Ready => !latch.closed && s.Runs() && forall a :: a in s.after ==> Passed(st, a, true)
    case Failed => latch == Latch(true, false) && s.Runs() && forall a :: a in s.after ==> Passed(st, a, true)
    case Started(e, x) =>
      && (latch.closed <==> e || x) && s.Runs()
      && forall a :: a in s.after ==> Passed(st, a, true)
  }

  ghost predicate Inv(sl: Slice, st: State)
    requires sl.Valid()
  {
    && st.next <= |sl.order|
    && st.phase.Keys == sl.svc.Keys && st.latches.Keys == sl.svc.Keys && st.awaited <= sl.svc.Keys
    && (forall i :: 0 <= i < |sl.order| ==> (i >= st.next <==> st.phase[sl.order[i]].Pending?))
    && (forall k :: k in sl.svc ==> KeyInv(st, sl.svc[k], k))
  }

  /** Phases only move forward: started stays started, dead stays dead, closed stays closed. */
  ghost predicate Dead(p: Phase) {
    p.Skipped? || p.Refused? || p.Failed?
  }

  /** Got as far as `Run`. */
  ghost predicate Launched(p: Phase) {
    p.Ready? || p.Started? || p.Failed?
  }

  ghost predicate Onward(st: State, st': State) {
    && st.phase.Keys <= st'.phase.Keys && st.latches.Keys == st'.latches.Keys
    && (forall k :: k in st.phase && st.phase[k].Started? ==> st'.phase[k].Started?)
    && (forall k :: k in st.phase && Dead(st.phase[k]) ==> st'.phase[k] == st.phase[k])
    && (forall k :: k in st.latches && st.latches[k].closed ==> st'.latches[k].closed)
  }

  /** How many steps a service has left. */
  ghost function Budget(s: Service, p: Phase): nat {
    match p
    case Pending => |s.after| + 5
    case Waiting(pos, _) => 4 + if pos <= |s.after| then |s.after| - pos else 0
    case Ready => 3
    case Started(e, x) => (if e then 0 else 1) + (if x then 0 else 1)
    case _ => 0
  }

  /** A change a service may make from its phase and latch: never out of a dead phase, never back. */
  ghost predicate Admissible(p: Phase, latch: Latch, c: Change) {
    && !Dead(p) && !c.phase.Pending?
    && (p.Started? ==> c.phase.Started?)
    && (Dead(c.phase) ==> c.release == With(false))
    && (c.phase.Waiting? || c.phase.Ready? ==> c.release.Keep? && !latch.closed)
    && (c.phase.Started? ==> (c.phase.early || c.phase.exit <==> latch.closed || c.release.With?))
  }

  lemma EffectAdmissible(sl: Slice, st: State, step: Step)
    requires sl.Valid() && Inv(sl, st) && Enabled(sl, st, step) && !step.Collect?
    ensures var c := Effect(sl, st, step);
      && c.key in sl.svc && Admissible(st.phase[c.key], st.latches[c.key], c)
      && (st.phase[c.key].Pending? <==> step.Spawn?)
      && (step.Spawn? || sl.svc[c.key].Runs())
  {
    var k := Effect(sl, st, step).key;
    assert k in sl.svc && KeyInv(st, sl.svc[k], k);
    assert step.Spawn? ==> st.phase[sl.order[st.next]].Pending?;
  }

  lemma EffectBudget(sl: Slice, st: State, step: Step)
    requires sl.Valid() && Inv(sl, st) && Enabled(sl, st, step) && !step.Collect?
    ensures var c := Effect(sl, st, step);
      c.key in sl.svc && Budget(sl.svc[c.key], c.phase) < Budget(sl.svc[c.key], st.phase[c.key])
  {
    var k := Effect(sl, st, step).key;
    assert k in sl.svc && KeyInv(st, sl.svc[k], k);
  }

  lemma ApplyOnward(st: State, c: Change)
    requires c.key in st.phase && c.key in st.latches && Admissible(st.phase[c.key], st.latches[c.key], c)
    ensures Onward(st, Apply(st, c))
  {
  }

  /** A key the step does not move keeps its part of the invariant. */
  lemma FrameKey(st: State, st': State, s: Service, k: string)
    requires k in st.phase && k in st.latches && KeyInv(st, s, k) && Onward(st, st')
    requires k in st'.phase && st'.phase[k] == st.phase[k] && st'.latches[k] == st.latches[k]
    ensures KeyInv(st', s, k)
  {
  }

  /** The dependencies a launched phase has passed, before the step. */
  lemma EffectPassed(sl: Slice, st: State, step: Step)
    requires sl.Valid() && Inv(sl, st) && Enabled(sl, st, step) && !step.Collect?
    ensures var c := Effect(sl, st, step);
      var after := sl.svc[c.key].after;
      && (Launched(c.phase) ==> forall a :: a in after ==> Passed(st, a, true))
      && (c.phase.Waiting? ==>
            c.phase.pos <= |after| && forall j :: 0 <= j < c.phase.pos ==> Passed(st, after[j], c.phase.ok))
  {
    var c := Effect(sl, st, step);
    assert KeyInv(st, sl.svc[c.key], c.key);
    if step.Examine? {
      PassedNext(sl, st, c.key);
    }
  }

  /** Getting past one more dependency. */
  lemma PassedNext(sl: Slice, st: State, k: string)
    requires sl.Valid() && Inv(sl, st) && Enabled(sl, st, Examine(k))
    ensures var after, pos := sl.svc[k].after, st.phase[k].pos;
      Passed(st, after[pos], st.phase[k].ok && (after[pos] in st.latches ==> st.latches[after[pos]].state))
  {
    var a := sl.svc[k].after[st.phase[k].pos];
    if a in st.latches {
      assert KeyInv(st, sl.svc[a], a);
    }
  }

  /** The key the step moves keeps its part of the invariant. */
  lemma MovedKey(st: State, s: Service, c: Change)
    requires c.key in st.phase && c.key in st.latches && KeyInv(st, s, c.key)
    requires Admissible(st.phase[c.key], st.latches[c.key], c)
    requires c.phase.Skipped? <==> !s.Runs()
    requires Launched(c.phase) ==> forall a :: a in s.after ==> Passed(st, a, true)
    requires c.phase.Waiting? ==>
      c.phase.pos <= |s.after| && forall j :: 0 <= j < c.phase.pos ==> Passed(st, s.after[j], c.phase.ok)
    ensures KeyInv(Apply(st, c), s, c.key)
  {
  }

  lemma StepOnward(sl: Slice, st: State, step: Step)
    requires sl.Valid() && Inv(sl, st) && Enabled(sl, st, step)
    ensures Onward(st, Do(sl, st, step))
  {
    if !step.Collect? {
      EffectAdmissible(sl, st, step);
      ApplyOnward(st, Effect(sl, st, step));
    }
  }

  /** A step leaves the keys it does not move alone. */
  lemma StepFrame(sl: Slice, st: State, step: Step, k: string)
    requires sl.Valid() && Inv(sl, st) && Enabled(sl, st, step) && k in sl.svc
    requires step.Collect? || Effect(sl, st, step).key != k
    ensures var st' := Do(sl, st, step);
      k in st'.phase && k in st'.latches && st'.phase[k] == st.phase[k] && st'.latches[k] == st.latches[k]
  {
    hide KeyInv, Enabled, Effect;
  }

  lemma StepKey(sl: Slice, st: State, step: Step, k: string)
    requires sl.Valid() && Inv(sl, st) && Enabled(sl, st, step) && k in sl.svc
    ensures var st' := Do(sl, st, step);
      k in st'.phase && k in st'.latches && KeyInv(st', sl.svc[k], k)
  {
    hide KeyInv, Enabled, Effect, Apply, Do;
    assert KeyInv(st, sl.svc[k], k);
    StepOnward(sl, st, step);
    if step.Collect? || Effect(sl, st, step).key != k {
      StepFrame(sl, st, step, k);
      FrameKey(st, Do(sl, st, step), sl.svc[k], k);
    } else {
      MovedStep(sl, st, step);
    }
  }

  lemma MovedStep(sl: Slice, st: State, step: Step)
    requires sl.Valid() && Inv(sl, st) && Enabled(sl, st, step) && !step.Collect?
    ensures var k, st' := Effect(sl, st, step).key, Do(sl, st, step);
      k in sl.svc && k in st'.phase && k in st'.latches && KeyInv(st', sl.svc[k], k)
  {
    hide KeyInv, Enabled, Effect, Admissible, Passed;
    var c := Effect(sl, st, step);
    EffectAdmissible(sl, st, step);
    EffectPassed(sl, st, step);
    EffectSkips(sl, st, step);
    assert KeyInv(st, sl.svc[c.key], c.key);
    MovedKey(st, sl.svc[c.key], c);
    NextOnly(Apply(st, c), st.next + 1, sl.svc[c.key], c.key);
  }

  lemma EffectSkips(sl: Slice, st: State, step: Step)
    requires sl.Valid() && Inv(sl, st) && Enabled(sl, st, step) && !step.Collect?
    ensures var c := Effect(sl, st, step); c.key in sl.svc && (c.phase.Skipped? <==> !sl.svc[c.key].Runs())
  {
    EffectAdmissible(sl, st, step);
  }

  /** The position of the loop is no part of a key's invariant. */
  lemma NextOnly(st: State, next: nat, s: Service, k: string)
    requires k in st.phase && k in st.latches && KeyInv(st, s, k)
    ensures KeyInv(st.(next := next), s, k)
  {
  }

  lemma StepOrder(sl: Slice, st: State, step: Step, i: nat)
    requires sl.Valid() && Inv(sl, st) && Enabled(sl, st, step) && i < |sl.order|
    ensures var st' := Do(sl, st, step);
      sl.order[i] in st'.phase && (i >= st'.next <==> st'.phase[sl.order[i]].Pending?)
  {
    if !step.Collect? {
      EffectAdmissible(sl, st, step);
      var c := Effect(sl, st, step);
      assert sl.order[i] in sl.svc;
      assert step.Spawn? && i != st.next ==> sl.order[i] != c.key;
    }
  }

  lemma StepKeys(sl: Slice, st: State, step: Step)
    requires sl.Valid() && Inv(sl, st) && Enabled(sl, st, step)
    ensures var st' := Do(sl, st, step);
      && st'.next <= |sl.order| && st'.phase.Keys == sl.svc.Keys
      && st'.latches.Keys == sl.svc.Keys && st'.awaited <= sl.svc.Keys
  {
    if !step.Collect? {
      EffectAdmissible(sl, st, step);
    }
  }

  lemma StepKeepsInv(sl: Slice, st: State, step: Step)
    requires sl.Valid() && Inv(sl, st) && Enabled(sl, st, step)
    ensures Inv(sl, Do(sl, st, step))
  {
    var st' := Do(sl, st, step);
    StepKeys(sl, st, step);
    forall i | 0 <= i < |sl.order| ensures i >= st'.next <==> st'.phase[sl.order[i]].Pending? {
      StepOrder(sl, st, step, i);
    }
    forall k | k in sl.svc ensures KeyInv(st', sl.svc[k], k) {
      StepKey(sl, st, step, k);
    }
  }

  lemma InitialInv(sl: Slice)
    requires sl.Valid()
    ensures Inv(sl, Initial(sl))
  {
  }

  /** What every run keeps, and that a run only moves onward. */
  lemma {:induction false} RunKeepsInv(sl: Slice, st: State, steps: seq<Step>)
    requires sl.Valid() && Inv(sl, st) && Legal(sl, st, steps)
    ensures Inv(sl, Exec(sl, st, steps)) && Onward(st, Exec(sl, st, steps))
    decreases |steps|
  {
    if steps != [] {
      StepOnward(sl, st, steps[0]);
      StepKeepsInv(sl, st, steps[0]);
      RunKeepsInv(sl, Do(sl, st, steps[0]), steps[1..]);
    }
  }
}
