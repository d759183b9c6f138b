/** Why a service of a boot slice ran or was refused: every run against the list of its own steps.
    About `RunSlice` of base/pm/pm.go and the hooks of base/pm/runnerhook.go. */
module BootCauses {
  import opened Wrappers
  import opened WaitMachine
  import opened BootSlice
  import opened BootSafety

  /** The early hook of `a` fired, or `a` exited with success. */
  ghost predicate Succeeded(done: seq<Step>, a: string) {
    EarlyHook(a) in done || ExitHook(a, true) in done
  }

  /** `a` is in the slice and was skipped, refused or not dispatched, or exited with an error. */
  ghost predicate Broke(st: State, done: seq<Step>, a: string) {
    a in st.phase && (Dead(st.phase[a]) || ExitHook(a, false) in done)
  }

  /** No dependency of the slice stands in the way of going past `a`. */
  ghost predicate Vouched(st: State, done: seq<Step>, a: string) {
    a in st.phase ==> Succeeded(done, a)
  }

  /** The steps `done` account for the latch and the phase of `k`. */
  ghost predicate KeyLog(st: State, done: seq<Step>, s: Service, k: string)
    requires k in st.phase && k in st.latches
  {
    && LatchLog(st, done, k) && HookLog(st.phase[k], done, k) && (EarlyHook(k) in done ==> s.early)
    && (Launched(st.phase[k]) ==> forall a :: a in s.after ==> Vouched(st, done, a))
    && (st.phase[k].Refused? ==> exists a :: a in s.after && Broke(st, done, a))
    && (st.phase[k].Waiting? ==> WaitLog(st, done, s.after, st.phase[k].pos, st.phase[k].ok))
  }

  /** What the last hook of `k` that fired says, if one did. */
  ghost function LastHook(done: seq<Step>, k: string): Option<bool> {
    if done == [] then None
    else
      var last := done[|done| - 1];
      if last == EarlyHook(k) then Some(true)
      else if last == ExitHook(k, true) then Some(true)
      else if last == ExitHook(k, false) then Some(false)
      else LastHook(done[..|done| - 1], k)
  }

  /** Released exactly when dead or when a hook has fired, with what the last hook says. */
  ghost predicate LatchLog(st: State, done: seq<Step>, k: string)
    requires k in st.phase && k in st.latches
  {
    && (st.latches[k].closed <==> Dead(st.phase[k]) || LastHook(done, k).Some?)
    && (st.latches[k].closed ==>
          (st.latches[k].state <==> !Dead(st.phase[k]) && LastHook(done, k).Some? && LastHook(done, k).value))
  }

  lemma {:induction false} HookHappened(done: seq<Step>, k: string)
    ensures var last := LastHook(done, k);
      last.Some? ==> if last.value then Succeeded(done, k) else ExitHook(k, false) in done
    decreases |done|
  {
    if done != [] {
      HookHappened(done[..|done| - 1], k);
    }
  }

  lemma LastHookStep(done: seq<Step>, step: Step, k: string)
    ensures LastHook(done + [step], k) ==
      if step == EarlyHook(k) || step == ExitHook(k, true) then Some(true)
      else if step == ExitHook(k, false) then Some(false)
      else LastHook(done, k)
  {
    assert (done + [step])[..|done|] == done;
  }

  /** A hook fires once, after a start; a start and a failed start are dispatches of those outcomes. */
  ghost predicate HookLog(p: Phase, done: seq<Step>, k: string) {
    && !(ExitHook(k, true) in done && ExitHook(k, false) in done)
    && (p.Started? <==> Dispatch(k, true) in done) && (p.Failed? <==> Dispatch(k, false) in done)
    && (EarlyHook(k) in done <==> p.Started? && p.early)
    && (ExitHook(k, true) in done || ExitHook(k, false) in done <==> p.Started? && p.exit)
  }

  ghost predicate WaitLog(st: State, done: seq<Step>, after: seq<string>, pos: nat, ok: bool) {
    && pos <= |after|
    && if ok then forall j :: 0 <= j < pos ==> Vouched(st, done, after[j])
       else exists j :: 0 <= j < pos && Broke(st, done, after[j])
  }

  ghost predicate Log(sl: Slice, st: State, done: seq<Step>)
    requires sl.Valid() && Inv(sl, st)
  {
    forall k :: k in sl.svc ==> KeyLog(st, done, sl.svc[k], k)
  }

  /** What has happened stays so. */
  lemma StaysSo(st: State, st': State, done: seq<Step>, step: Step, a: string)
    requires Onward(st, st') && st.phase.Keys == st'.phase.Keys
    ensures Vouched(st, done, a) ==> Vouched(st', done + [step], a)
    ensures Broke(st, done, a) ==> Broke(st', done + [step], a)
  {
  }

  lemma LogStays(st: State, st': State, done: seq<Step>, step: Step, s: Service, k: string)
    requires k in st.phase && k in st.latches && KeyLog(st, done, s, k)
    requires Onward(st, st') && st.phase.Keys == st'.phase.Keys
    requires st'.phase[k] == st.phase[k] && st'.latches[k] == st.latches[k]
    requires step.Spawn? || step.Collect? || step.key != k
    ensures KeyLog(st', done + [step], s, k)
  {
    hide LastHook;
    LastHookStep(done, step, k);
    forall a ensures Vouched(st, done, a) ==> Vouched(st', done + [step], a) {
      StaysSo(st, st', done, step, a);
    }
    forall a ensures Broke(st, done, a) ==> Broke(st', done + [step], a) {
      StaysSo(st, st', done, step, a);
    }
  }

  /** One more dependency passed in `Wait`. */
  lemma ExamineLog(sl: Slice, st: State, done: seq<Step>, k: string)
    requires sl.Valid() && Inv(sl, st) && Log(sl, st, done) && Enabled(sl, st, Examine(k))
    ensures var after, pos := sl.svc[k].after, st.phase[k].pos;
      WaitLog(st, done, after, pos + 1,
              st.phase[k].ok && (after[pos] in st.latches ==> st.latches[after[pos]].state))
  {
    var after, pos := sl.svc[k].after, st.phase[k].pos;
    var a := after[pos];
    assert KeyLog(st, done, sl.svc[k], k);
    if a in st.latches {
      assert KeyLog(st, done, sl.svc[a], a);
      HookHappened(done, a);
    }
    assert !st.phase[k].ok ==> exists j :: 0 <= j < pos && Broke(st, done, after[j]);
    if st.phase[k].ok && a in st.latches && !st.latches[a].state {
      assert Broke(st, done, after[pos]);
    }
  }

  /** The steps account for what the step does to its own service, before the step is counted. */
  lemma EffectLog(sl: Slice, st: State, done: seq<Step>, step: Step)
    requires sl.Valid() && Inv(sl, st) && Log(sl, st, done) && Enabled(sl, st, step) && !step.Collect?
    ensures var c := Effect(sl, st, step);
      c.key in sl.svc &&
      var s := sl.svc[c.key];
      && (Launched(c.phase) ==> forall a :: a in s.after ==> Vouched(st, done, a))
      && (c.phase.Refused? ==> exists a :: a in s.after && Broke(st, done, a))
      && (c.phase.Waiting? ==> WaitLog(st, done, s.after, c.phase.pos, c.phase.ok))
  {
    EffectAdmissible(sl, st, step);
    var c := Effect(sl, st, step);
    assert KeyLog(st, done, sl.svc[c.key], c.key);
    assert KeyInv(st, sl.svc[c.key], c.key);
    if step.Examine? {
      ExamineLog(sl, st, done, c.key);
    } else if step.Conclude? && !st.phase[c.key].ok {
      var j :| 0 <= j < st.phase[c.key].pos && Broke(st, done, sl.svc[c.key].after[j]);
      assert sl.svc[c.key].after[j] in sl.svc[c.key].after;
    }
  }

  /** The hooks of the service that moves. */
  lemma EffectHooks(sl: Slice, st: State, done: seq<Step>, step: Step)
    requires sl.Valid() && Inv(sl, st) && Log(sl, st, done) && Enabled(sl, st, step) && !step.Collect?
    ensures var c := Effect(sl, st, step);
      && c.key in sl.svc && HookLog(c.phase, done + [step], c.key)
      && (EarlyHook(c.key) in done + [step] ==> sl.svc[c.key].early)
  {
    hide KeyInv, LatchLog, WaitLog;
    EffectKey(sl, st, step);
    var k := Effect(sl, st, step).key;
    assert KeyLog(st, done, sl.svc[k], k);
  }

  lemma EffectKey(sl: Slice, st: State, step: Step)
    requires sl.Valid() && Inv(sl, st) && Enabled(sl, st, step) && !step.Collect?
    ensures var c := Effect(sl, st, step);
      c.key in sl.svc && (step.Spawn? ==> st.phase[c.key].Pending?) && (!step.Spawn? ==> c.key == step.key)
  {
    EffectAdmissible(sl, st, step);
  }

  /** The release of the service that moves. */
  lemma EffectRelease(sl: Slice, st: State, done: seq<Step>, step: Step)
    requires sl.Valid() && Inv(sl, st) && Log(sl, st, done) && Enabled(sl, st, step) && !step.Collect?
    ensures var c, st' := Effect(sl, st, step), Do(sl, st, step);
      && c.key in sl.svc && c.key in st'.phase && c.key in st'.latches && st'.phase[c.key] == c.phase
      && LatchLog(st', done + [step], c.key)
  {
    hide WaitLog, LastHook;
    EffectKey(sl, st, step);
    var k := Effect(sl, st, step).key;
    LastHookStep(done, step, k);
    assert KeyLog(st, done, sl.svc[k], k);
    assert KeyInv(st, sl.svc[k], k);
  }

  lemma MovedLog(sl: Slice, st: State, done: seq<Step>, step: Step)
    requires sl.Valid() && Inv(sl, st) && Log(sl, st, done) && Enabled(sl, st, step) && !step.Collect?
    ensures var k, st' := Effect(sl, st, step).key, Do(sl, st, step);
      k in sl.svc && k in st'.phase && k in st'.latches && KeyLog(st', done + [step], sl.svc[k], k)
  {
    hide Inv, Enabled, Effect, Do, Vouched, Broke, HookLog, LatchLog;
    EffectLog(sl, st, done, step);
    EffectHooks(sl, st, done, step);
    EffectRelease(sl, st, done, step);
    StepOnward(sl, st, step);
    StepKeysOnly(sl, st, step);
    var st' := Do(sl, st, step);
    forall a ensures Vouched(st, done, a) ==> Vouched(st', done + [step], a) {
      StaysSo(st, st', done, step, a);
    }
    forall a ensures Broke(st, done, a) ==> Broke(st', done + [step], a) {
      StaysSo(st, st', done, step, a);
    }
  }

  lemma StepKeysOnly(sl: Slice, st: State, step: Step)
    requires sl.Valid() && Inv(sl, st) && Enabled(sl, st, step)
    ensures var st' := Do(sl, st, step); st.phase.Keys == st'.phase.Keys && st.latches.Keys == st'.latches.Keys
  {
    StepKeys(sl, st, step);
  }

  lemma StepLog(sl: Slice, st: State, done: seq<Step>, step: Step)
    requires sl.Valid() && Inv(sl, st) && Log(sl, st, done) && Enabled(sl, st, step)
    ensures Inv(sl, Do(sl, st, step)) && Log(sl, Do(sl, st, step), done + [step])
  {
    StepKeepsInv(sl, st, step);
    var st' := Do(sl, st, step);
    forall k | k in sl.svc ensures KeyLog(st', done + [step], sl.svc[k], k) {
      StepKeyLog(sl, st, done, step, k);
    }
  }

  lemma StepKeyLog(sl: Slice, st: State, done: seq<Step>, step: Step, k: string)
    requires sl.Valid() && Inv(sl, st) && Log(sl, st, done) && Enabled(sl, st, step) && k in sl.svc
    ensures var st' := Do(sl, st, step);
      k in st'.phase && k in st'.latches && KeyLog(st', done + [step], sl.svc[k], k)
  {
    hide Enabled, Do, KeyLog, KeyInv;
    StepKeysOnly(sl, st, step);
    if step.Collect? || Effect(sl, st, step).key != k {
      StepFrame(sl, st, step, k);
      StepOnward(sl, st, step);
      assert KeyLog(st, done, sl.svc[k], k);
      LogStays(st, Do(sl, st, step), done, step, sl.svc[k], k);
    } else {
      MovedLog(sl, st, done, step);
    }
  }

  lemma {:induction false} RunLog(sl: Slice, st: State, done: seq<Step>, steps: seq<Step>)
    requires sl.Valid() && Inv(sl, st) && Log(sl, st, done) && Legal(sl, st, steps)
    ensures Inv(sl, Exec(sl, st, steps)) && Log(sl, Exec(sl, st, steps), done + steps)
    decreases |steps|
  {
    hide Enabled, Do, Log, Inv;
    if steps == [] {
      assert done + steps == done;
    } else {
      StepLog(sl, st, done, steps[0]);
      RunLog(sl, Do(sl, st, steps[0]), done + [steps[0]], steps[1..]);
      assert done + steps == done + [steps[0]] + steps[1..];
    }
  }

  /** Every run is accounted for by its own steps. */
  lemma WholeRunLog(sl: Slice, steps: seq<Step>)
    requires sl.Valid() && Legal(sl, Initial(sl), steps)
    ensures var st := Exec(sl, Initial(sl), steps); Inv(sl, st) && Log(sl, st, steps)
  {
    hide Legal, Exec;
    InitialInv(sl);
    RunLog(sl, Initial(sl), [], steps);
    assert [] + steps == steps;
  }

  /** Over a whole run: a service gets as far as `Run` only when every transitive same-slice dependency
      has fired its early hook or has exited with success. */
  lemma LaunchedNeedsSuccess(sl: Slice, steps: seq<Step>, p: seq<string>)
    requires sl.Valid() && Legal(sl, Initial(sl), steps) && DependencyPath(sl, p)
    ensures var st := Exec(sl, Initial(sl), steps);
      p[0] in st.phase && (Launched(st.phase[p[0]]) ==> forall i :: 0 < i < |p| ==> Succeeded(steps, p[i]))
  {
    WholeRunLog(sl, steps);
    var st := Exec(sl, Initial(sl), steps);
    if Launched(st.phase[p[0]]) {
      LaunchedNeedsAll(sl, st, p);
      forall i | 0 < i < |p| ensures Succeeded(steps, p[i]) {
        assert Launched(st.phase[p[i - 1]]);
        assert KeyLog(st, steps, sl.svc[p[i - 1]], p[i - 1]);
        assert Vouched(st, steps, p[i]);
      }
    }
  }

  /** Over a whole run: once a service exits with an error before an early hook of its own fired, nothing
      that depends on it in the slice gets as far as `Run`; never, if it has no early hook. */
  lemma FailedExitStops(sl: Slice, steps: seq<Step>, p: seq<string>)
    requires sl.Valid() && Legal(sl, Initial(sl), steps) && DependencyPath(sl, p) && |p| > 1
    requires ExitHook(p[|p| - 1], false) in steps
    requires !sl.svc[p[|p| - 1]].early || EarlyHook(p[|p| - 1]) !in steps
    ensures var st := Exec(sl, Initial(sl), steps); p[0] in st.phase && !Launched(st.phase[p[0]])
  {
    WholeRunLog(sl, steps);
    LaunchedNeedsSuccess(sl, steps, p);
    var st, d := Exec(sl, Initial(sl), steps), p[|p| - 1];
    assert KeyLog(st, steps, sl.svc[d], d);
  }

  /** Over a whole run: a service is refused only for a dependency of its own slice that was skipped,
      refused or not dispatched, or that exited with an error. */
  lemma RefusedHasCause(sl: Slice, steps: seq<Step>, k: string)
    requires sl.Valid() && Legal(sl, Initial(sl), steps) && k in sl.svc
    ensures var st := Exec(sl, Initial(sl), steps);
      k in st.phase &&
      (st.phase[k].Refused? ==> exists a :: a in sl.svc[k].after && a in sl.svc && Broke(st, steps, a))
  {
    WholeRunLog(sl, steps);
    var st := Exec(sl, Initial(sl), steps);
    assert KeyLog(st, steps, sl.svc[k], k);
  }

  /** Over a whole run: a service is running exactly when it was dispatched without an error, failed
      when it was dispatched with one, and its hooks fire on a running service alone. */
  lemma StartedIffDispatched(sl: Slice, steps: seq<Step>, k: string)
    requires sl.Valid() && Legal(sl, Initial(sl), steps) && k in sl.svc
    ensures var st := Exec(sl, Initial(sl), steps);
      && k in st.phase && (st.phase[k].Started? <==> Dispatch(k, true) in steps)
      && (st.phase[k].Failed? <==> Dispatch(k, false) in steps)
      && (Succeeded(steps, k) || ExitHook(k, false) in steps ==> Dispatch(k, true) in steps)
  {
    WholeRunLog(sl, steps);
    var st := Exec(sl, Initial(sl), steps);
    assert KeyLog(st, steps, sl.svc[k], k);
  }

  /** Over a whole run: a service that was dispatched is released exactly when one of its hooks has fired,
      with what the last of them said, so an error behind an early release is seen by those who wait on. */
  lemma LatchIsLastHook(sl: Slice, steps: seq<Step>, k: string)
    requires sl.Valid() && Legal(sl, Initial(sl), steps) && k in sl.svc && Dispatch(k, true) in steps
    ensures var st := Exec(sl, Initial(sl), steps);
      && k in st.latches && (st.latches[k].closed <==> LastHook(steps, k).Some?)
      && (st.latches[k].closed ==> (LastHook(steps, k).value <==> st.latches[k].state))
  {
    hide LastHook, Legal, Exec, WaitLog, Inv;
    WholeRunLog(sl, steps);
    var st := Exec(sl, Initial(sl), steps);
    LatchOf(sl, st, steps, k);
  }

  lemma LatchOf(sl: Slice, st: State, done: seq<Step>, k: string)
    requires sl.Valid() && Inv(sl, st) && Log(sl, st, done) && k in sl.svc && Dispatch(k, true) in done
    ensures k in st.latches && (st.latches[k].closed <==> LastHook(done, k).Some?)
    ensures st.latches[k].closed ==> (LastHook(done, k).value <==> st.latches[k].state)
  {
    hide LastHook, WaitLog, KeyInv, Vouched, Broke;
    assert KeyLog(st, done, sl.svc[k], k);
  }
}
