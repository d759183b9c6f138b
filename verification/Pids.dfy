/** The process id table: registration under the lock, the reaper, and the delivery of each exit status
    to its waiter. Models `registerPID`, `processWait` and `waitPID` of base/pm/pm.go as a step relation
    over every order of forking, reaping, delivering and waiting. */
module Pids {
  import opened Wrappers

  /** A channel is named by the process whose registration made it. */
  datatype Delivery =
    | Alive
    | Reaped                  // Wait4 has returned it, the table is not looked up yet
    | Dropped                 // no entry was found, the status is lost
    | Sending(ch: nat)        // the goroutine is blocked on the send
    | Closing(ch: nat)
    | Deleting(ch: nat)       // channel closed, entry not deleted yet
    | Gone

  datatype Wait = NotCalled | Holding(ch: nat) | Got(status: int)

  /** `stray`: a child nobody registers, such as an orphan handed to process 1. */
  datatype Proc = Proc(pid: int, status: int, registered: bool, delivery: Delivery, wait: Wait, stray: bool)

  /** `mux`: the process whose registration holds the lock. `reaper`: the process between Wait4 and
      the lookup. */
  datatype State = State(
    pids: map<int, nat>, procs: map<nat, Proc>, mux: Option<nat>, reaper: Option<nat>, next: nat)

  datatype Step =
    | Fork(pid: int, status: int)   // g() under the lock; the status is the one it will exit with
    | Stray(pid: int, status: int)  // a child that is not registered
    | Register
    | Reap(proc: nat)
    | Lookup
    | CallWait(proc: nat)
    | Deliver(proc: nat, waiter: nat)
    | Close(proc: nat)
    | ReceiveClosed(waiter: nat)
    | Delete(proc: nat)

  ghost function Initial(): State {
    State(map[], map[], None, None, 0)
  }

  ghost predicate ChannelClosed(st: State, ch: nat) {
    exists u :: u in st.procs && st.procs[u].delivery == Deleting(ch)
  }

  /** No child that is not reaped has the id. */
  ghost predicate Unborn(st: State, pid: int) {
    forall u :: u in st.procs && st.procs[u].delivery.Alive? ==> st.procs[u].pid != pid
  }

  /** The process in a slot has the id. */
  ghost predicate Has(st: State, slot: Option<nat>, pid: int) {
    slot.Some? && slot.value in st.procs && st.procs[slot.value].pid == pid
  }

  /** The kernel never gives out the id of a child that is not reaped. With `prompt` it also does not give
      out an id whose table entry is still there; nor, to a child that is registered, the id of one that is
      reaped and waits for its lookup; nor, to one that is not, the id of a registration under way. */
  ghost predicate Enabled(st: State, step: Step, prompt: bool) {
    match step
    case Fork(pid, _) =>
      st.mux.None? && Unborn(st, pid) && (prompt ==> pid !in st.pids && !Has(st, st.reaper, pid))
    case Stray(pid, _) => Unborn(st, pid) && (prompt ==> pid !in st.pids && !Has(st, st.mux, pid))
    case Register => st.mux.Some? && st.mux.value in st.procs
    case Reap(u) => u in st.procs && st.procs[u].delivery.Alive? && st.reaper.None?
    case Lookup => st.reaper.Some? && st.reaper.value in st.procs && st.mux.None?
    case CallWait(u) => u in st.procs && st.procs[u].registered && st.procs[u].wait.NotCalled? && st.mux.None?
    case Deliver(u, w) =>
      && u in st.procs && w in st.procs && st.procs[u].delivery.Sending?
      && st.procs[w].wait == Holding(st.procs[u].delivery.ch)
    case Close(u) => u in st.procs && st.procs[u].delivery.Closing?
    case ReceiveClosed(w) => w in st.procs && st.procs[w].wait.Holding? && ChannelClosed(st, st.procs[w].wait.ch)
    case Delete(u) => u in st.procs && st.procs[u].delivery.Deleting? && st.mux.None?
  }

  ghost function Do(st: State, step: Step, prompt: bool): State
    requires Enabled(st, step, prompt)
  {
    match step
    case Fork(pid, status) =>
      st.(procs := st.procs[st.next := Proc(pid, status, false, Alive, NotCalled, false)],
          mux := Some(st.next), next := st.next + 1)
    case Stray(pid, status) =>
      st.(procs := st.procs[st.next := Proc(pid, status, false, Alive, NotCalled, true)], next := st.next + 1)
    case Register =>
      var u := st.mux.value;
      st.(pids := st.pids[st.procs[u].pid := u], procs := st.procs[u := st.procs[u].(registered := true)], mux := None)
    case Reap(u) =>
      st.(procs := st.procs[u := st.procs[u].(delivery := Reaped)], reaper := Some(u))
    case Lookup =>
      var u := st.reaper.value;
      var pid := st.procs[u].pid;
      var delivery := if pid in st.pids then Sending(st.pids[pid]) else Dropped;
      st.(procs := st.procs[u := st.procs[u].(delivery := delivery)], reaper := None)
    case CallWait(u) =>
      var pid := st.procs[u].pid;
      var wait := if pid in st.pids then Holding(st.pids[pid]) else Got(0);
      st.(procs := st.procs[u := st.procs[u].(wait := wait)])
    case Deliver(u, w) =>
      var given := st.procs[w := st.procs[w].(wait := Got(st.procs[u].status))];
      st.(procs := given[u := given[u].(delivery := Closing(st.procs[u].delivery.ch))])
    case Close(u) =>
      st.(procs := st.procs[u := st.procs[u].(delivery := Deleting(st.procs[u].delivery.ch))])
    case ReceiveClosed(w) =>
      st.(procs := st.procs[w := st.procs[w].(wait := Got(0))])
    case Delete(u) =>
      st.(pids := st.pids - {st.procs[u].pid}, procs := st.procs[u := st.procs[u].(delivery := Gone)])
  }

  ghost predicate Legal(st: State, steps: seq<Step>, prompt: bool)
    decreases |steps|
  {
    steps == [] || (Enabled(st, steps[0], prompt) && Legal(Do(st, steps[0], prompt), steps[1..], prompt))
  }

  ghost function Exec(st: State, steps: seq<Step>, prompt: bool): State
    requires Legal(st, steps, prompt)
    decreases |steps|
  {
    if steps == [] then st else Exec(Do(st, steps[0], prompt), steps[1..], prompt)
  }

  // ---- the invariant -------------------------------------------------------------------------

  /** One process: its status is with its own waiter exactly from the delivery on, and its entry is
      there from the registration until the very end. A stray is reaped, looked up and forgotten. */
  ghost predicate ProcInv(st: State, u: nat)
    requires u in st.procs
  {
    var p := st.procs[u];
    && u < st.next && (st.reaper == Some(u) <==> p.delivery.Reaped?)
    && (if p.stray then
          st.mux != Some(u) && !p.registered && p.wait.NotCalled?
          && (p.delivery.Alive? || p.delivery.Reaped? || p.delivery.Dropped?)
        else OwnInv(st, u))
  }

  ghost predicate OwnInv(st: State, u: nat)
    requires u in st.procs
  {
    var p := st.procs[u];
    && (st.mux == Some(u) ==> !p.registered)
    && (!p.registered ==> st.mux == Some(u) && p.wait.NotCalled? && (p.delivery.Alive? || p.delivery.Reaped?))
    && (p.registered && !p.delivery.Gone? ==> p.pid in st.pids && st.pids[p.pid] == u)
    && (match p.delivery
        case Alive => !p.wait.Got?
        case Reaped => !p.wait.Got?
        case Dropped => false
        case Sending(ch) => ch == u && !p.wait.Got?
        case Closing(ch) => ch == u && p.wait == Got(p.status)
        case Deleting(ch) => ch == u && p.wait == Got(p.status)
        case Gone => p.wait == Got(p.status))
    && (p.wait.Holding? ==> p.wait.ch == u)
  }

  ghost predicate EntryInv(st: State, pid: int)
    requires pid in st.pids
  {
    var u := st.pids[pid];
    u in st.procs && st.procs[u].registered && st.procs[u].pid == pid && !st.procs[u].delivery.Gone?
  }

  ghost predicate Inv(st: State) {
    && (forall u :: u in st.procs ==> ProcInv(st, u))
    && (forall pid :: pid in st.pids ==> EntryInv(st, pid))
    && (st.mux.Some? ==> st.mux.value in st.procs && st.procs[st.mux.value].pid !in st.pids)
    && (st.reaper.Some? ==> st.reaper.value in st.procs)
  }

  /** A step does no harm: the id of a fork has no entry, and neither has that of a stray when it is
      looked up. */
  ghost predicate Timely(st: State, step: Step) {
    match step
    case Fork(pid, _) => pid !in st.pids
    case Lookup =>
      st.reaper.Some? && st.reaper.value in st.procs && st.procs[st.reaper.value].stray ==>
        st.procs[st.reaper.value].pid !in st.pids
    case _ => true
  }

  lemma ClosedIsOwn(st: State, ch: nat)
    requires Inv(st) && ChannelClosed(st, ch)
    ensures ch in st.procs && st.procs[ch].wait.Got?
  {
    var u :| u in st.procs && st.procs[u].delivery == Deleting(ch);
    assert ProcInv(st, u);
  }

  lemma ForkKeepsProc(st: State, step: Step, u: nat)
    requires Inv(st) && Enabled(st, step, false) && Timely(st, step)
    requires (step.Fork? || step.Stray? || step.Register?) && u in Do(st, step, false).procs
    ensures ProcInv(Do(st, step, false), u)
  {
    if u in st.procs {
      assert ProcInv(st, u);
    }
    if step.Register? {
      assert ProcInv(st, st.mux.value);
    }
  }

  lemma ReapKeepsProc(st: State, step: Step, u: nat)
    requires Inv(st) && Enabled(st, step, false) && Timely(st, step)
    requires (step.Reap? || step.Lookup? || step.CallWait?) && u in st.procs
    ensures ProcInv(Do(st, step, false), u)
  {
    assert ProcInv(st, u);
    if step.Lookup? {
      assert ProcInv(st, st.reaper.value);
    }
  }

  lemma DeliverKeepsProc(st: State, step: Step, u: nat)
    requires Inv(st) && Enabled(st, step, false) && Timely(st, step) && u in st.procs
    requires step.Deliver? || step.Close? || step.ReceiveClosed? || step.Delete?
    ensures ProcInv(Do(st, step, false), u)
  {
    assert ProcInv(st, u);
    match step {
      case Deliver(s, w) => assert ProcInv(st, s) && ProcInv(st, w);
      case ReceiveClosed(w) =>
        assert ProcInv(st, w);
        ClosedIsOwn(st, st.procs[w].wait.ch);
      case Delete(d) => assert ProcInv(st, d);
      case Close(_) =>
    }
  }

  lemma StepKeepsProc(st: State, step: Step, u: nat)
    requires Inv(st) && Enabled(st, step, false) && Timely(st, step) && u in Do(st, step, false).procs
    ensures ProcInv(Do(st, step, false), u)
  {
    hide Inv, ProcInv;
    if step.Fork? || step.Stray? || step.Register? {
      ForkKeepsProc(st, step, u);
    } else if step.Reap? || step.Lookup? || step.CallWait? {
      ReapKeepsProc(st, step, u);
    } else {
      DeliverKeepsProc(st, step, u);
    }
  }

  lemma StepKeepsRest(st: State, step: Step)
    requires Inv(st) && Enabled(st, step, false) && Timely(st, step)
    ensures var st' := Do(st, step, false);
      && (forall pid :: pid in st'.pids ==> EntryInv(st', pid))
      && (st'.mux.Some? ==> st'.mux.value in st'.procs && st'.procs[st'.mux.value].pid !in st'.pids)
      && (st'.reaper.Some? ==> st'.reaper.value in st'.procs)
  {
    var st' := Do(st, step, false);
    forall pid | pid in st'.pids ensures EntryInv(st', pid) {
      assert pid in st.pids ==> EntryInv(st, pid);
      match step {
        case Deliver(s, _) => assert ProcInv(st, s);
        case Delete(d) => assert ProcInv(st, d);
        case Fork(_, _) => assert pid in st.pids ==> ProcInv(st, st.pids[pid]);
        case Stray(_, _) => assert pid in st.pids ==> ProcInv(st, st.pids[pid]);
        case Lookup => assert ProcInv(st, st.reaper.value);
        case _ =>
      }
    }
  }

  lemma StepKeepsInv(st: State, step: Step)
    requires Inv(st) && Enabled(st, step, false) && Timely(st, step)
    ensures Inv(Do(st, step, false))
  {
    var st' := Do(st, step, false);
    StepKeepsRest(st, step);
    forall u | u in st'.procs ensures ProcInv(st', u) {
      StepKeepsProc(st, step, u);
    }
  }

  lemma SameDo(st: State, step: Step)
    requires Enabled(st, step, true)
    ensures Enabled(st, step, false) && Do(st, step, false) == Do(st, step, true)
  {
  }

  /** No stray that is still to be looked up has the id of an entry or of a registration under way. */
  ghost predicate StraysApart(st: State) {
    forall u :: u in st.procs && st.procs[u].stray && (st.procs[u].delivery.Alive? || st.procs[u].delivery.Reaped?) ==>
      st.procs[u].pid !in st.pids && !Has(st, st.mux, st.procs[u].pid)
  }

  /** What prompt runs keep. */
  ghost predicate PromptInv(st: State) {
    Inv(st) && StraysApart(st)
  }

  lemma PromptIsTimely(st: State, step: Step)
    requires PromptInv(st) && Enabled(st, step, true)
    ensures Timely(st, step)
  {
    if step.Lookup? {
      assert ProcInv(st, st.reaper.value);
    }
  }

  lemma StraysStayApart(st: State, step: Step)
    requires PromptInv(st) && Enabled(st, step, true)
    ensures StraysApart(Do(st, step, true))
  {
    var st' := Do(st, step, true);
    forall u | u in st'.procs && st'.procs[u].stray && (st'.procs[u].delivery.Alive? || st'.procs[u].delivery.Reaped?)
      ensures st'.procs[u].pid !in st'.pids && !Has(st', st'.mux, st'.procs[u].pid)
    {
      if u in st.procs {
        assert ProcInv(st, u);
      }
    }
  }

  lemma PromptStep(st: State, step: Step)
    requires PromptInv(st) && Enabled(st, step, true)
    ensures PromptInv(Do(st, step, true))
  {
    hide Inv;
    PromptIsTimely(st, step);
    SameDo(st, step);
    StepKeepsInv(st, step);
    StraysStayApart(st, step);
  }

  lemma {:induction false} RunKeepsInv(st: State, steps: seq<Step>)
    requires PromptInv(st) && Legal(st, steps, true)
    ensures PromptInv(Exec(st, steps, true))
    decreases |steps|
  {
    hide PromptInv, Do, Enabled;
    if steps != [] {
      PromptStep(st, steps[0]);
      RunKeepsInv(Do(st, steps[0], true), steps[1..]);
    }
  }

  // ---- the promises ----------------------------------------------------------------------------

  /** If no id is used again too early: whatever a waiter has got is the status of its own process; a
      status can only be handed to the process's own waiter, which has nothing yet; no status of a process
      that is registered is dropped; the entry is gone only behind the delivery; and the status of a stray
      goes to nobody. */
  lemma StatusReachesItsWaiter(steps: seq<Step>, u: nat, w: nat)
    requires Legal(Initial(), steps, true)
    ensures var st := Exec(Initial(), steps, true);
      u in st.procs ==>
        var p := st.procs[u];
        && (p.wait.Got? ==> p.wait == Got(p.status))
        && (p.delivery.Dropped? ==> p.stray)
        && (Enabled(st, Deliver(u, w), true) ==> w == u && !p.wait.Got? && !p.stray)
        && !Enabled(st, ReceiveClosed(u), true)
        && (p.registered ==> (p.delivery.Gone? <==> !(p.pid in st.pids && st.pids[p.pid] == u)))
        && (p.delivery.Gone? ==> p.wait == Got(p.status))
  {
    assert PromptInv(Initial());
    RunKeepsInv(Initial(), steps);
    var st := Exec(Initial(), steps, true);
    if u in st.procs {
      assert ProcInv(st, u);
      if w in st.procs {
        assert ProcInv(st, w);
      }
      if Enabled(st, ReceiveClosed(u), true) {
        ClosedIsOwn(st, st.procs[u].wait.ch);
      }
      if st.procs[u].pid in st.pids {
        assert EntryInv(st, st.procs[u].pid);
      }
    }
  }

  /** Once a registered process is reaped and its waiter has called, its delivery is never stuck: until
      the entry is deleted some step of it, or of whoever holds the lock or the reaper, is possible. */
  lemma DeliveryMoves(steps: seq<Step>, u: nat)
    requires Legal(Initial(), steps, true)
    ensures var st := Exec(Initial(), steps, true);
      u in st.procs && !st.procs[u].delivery.Alive? && !st.procs[u].wait.NotCalled? && !st.procs[u].delivery.Gone? ==>
        || Enabled(st, Register, true) || Enabled(st, Lookup, true)
        || Enabled(st, Deliver(u, u), true) || Enabled(st, Close(u), true) || Enabled(st, Delete(u), true)
  {
    assert PromptInv(Initial());
    RunKeepsInv(Initial(), steps);
    var st := Exec(Initial(), steps, true);
    if u in st.procs {
      assert ProcInv(st, u);
    }
  }

  // ---- exactly when it holds ---------------------------------------------------------------------

  /** Every registered process has its own entry until the very end, and a status is only sent on the
      channel of its own process. */
  ghost predicate Owned(st: State) {
    && (forall u :: u in st.procs && st.procs[u].registered && !st.procs[u].delivery.Gone? ==>
          st.procs[u].pid in st.pids && st.pids[st.procs[u].pid] == u)
    && (forall u :: u in st.procs && st.procs[u].delivery.Sending? ==> st.procs[u].delivery.ch == u)
  }

  /** In every state along the run. */
  ghost predicate AlwaysOwned(st: State, steps: seq<Step>)
    requires Legal(st, steps, false)
    decreases |steps|
  {
    Owned(st) && (steps == [] || AlwaysOwned(Do(st, steps[0], false), steps[1..]))
  }

  /** At every step of the run. */
  ghost predicate AlwaysTimely(st: State, steps: seq<Step>)
    requires Legal(st, steps, false)
    decreases |steps|
  {
    steps == [] || (Timely(st, steps[0]) && AlwaysTimely(Do(st, steps[0], false), steps[1..]))
  }

  /** The entry of `u` is about to be overwritten by the registration that holds the lock. */
  ghost predicate Doomed(st: State, u: nat) {
    && st.mux.Some? && st.mux.value in st.procs && u in st.procs && u != st.mux.value
    && st.procs[u].registered && !st.procs[u].delivery.Gone? && st.procs[u].pid == st.procs[st.mux.value].pid
    && u < st.next && st.mux.value < st.next
  }

  lemma DoomedStep(st: State, step: Step, u: nat)
    requires Doomed(st, u) && Enabled(st, step, false)
    ensures step.Register? ==> !Owned(Do(st, step, false))
    ensures !step.Register? ==> Doomed(Do(st, step, false), u)
  {
    if step.Register? {
      var st' := Do(st, step, false);
      assert st'.procs[u] == st.procs[u] && st'.pids[st.procs[u].pid] == st.mux.value;
    }
  }

  lemma {:induction false} DoomedRun(st: State, steps: seq<Step>, u: nat)
    requires Doomed(st, u) && Legal(st, steps, false) && Exec(st, steps, false).mux.None?
    ensures !AlwaysOwned(st, steps)
    decreases |steps|
  {
    hide Do, Enabled, Owned, Doomed;
    if steps != [] {
      DoomedStep(st, steps[0], u);
      var st' := Do(st, steps[0], false);
      if steps[0].Register? {
        assert !AlwaysOwned(st', steps[1..]);
      } else {
        DoomedRun(st', steps[1..], u);
      }
    } else {
      StillDoomed(st, u);
    }
  }

  lemma StillDoomed(st: State, u: nat)
    requires Doomed(st, u)
    ensures st.mux.Some?
  {
  }

  lemma InvOwned(st: State)
    requires Inv(st)
    ensures Owned(st)
  {
    forall u | u in st.procs ensures ProcInv(st, u) {
    }
  }

  /** A fork onto an id whose entry is still there dooms that entry; a stray whose id has an entry sends
      on a channel that is not its own. */
  lemma UntimelyStep(st: State, step: Step)
    requires Inv(st) && Enabled(st, step, false) && !Timely(st, step)
    ensures step.Fork? ==> step.pid in st.pids && Doomed(Do(st, step, false), st.pids[step.pid])
    ensures step.Fork? || !Owned(Do(st, step, false))
  {
    if step.Fork? {
      assert EntryInv(st, step.pid);
      assert ProcInv(st, st.pids[step.pid]);
    } else {
      var u := st.reaper.value;
      assert EntryInv(st, st.procs[u].pid) && ProcInv(st, u);
      assert Do(st, step, false).procs[u].delivery == Sending(st.pids[st.procs[u].pid]);
    }
  }

  /** A complete run keeps every entry with its process and every status on its own channel, in every
      state on the way, exactly when every step is timely: no fork onto an id whose entry is there, and no
      lookup of a stray whose id has one. */
  lemma {:induction false} OwnershipIff(st: State, steps: seq<Step>)
    requires Inv(st) && Legal(st, steps, false) && Exec(st, steps, false).mux.None?
    ensures AlwaysOwned(st, steps) <==> AlwaysTimely(st, steps)
    decreases |steps|
  {
    hide Do, Enabled, Owned, Inv, Doomed, Timely;
    InvOwned(st);
    if steps != [] {
      var st' := Do(st, steps[0], false);
      if Timely(st, steps[0]) {
        StepKeepsInv(st, steps[0]);
        OwnershipIff(st', steps[1..]);
      } else {
        UntimelyStep(st, steps[0]);
        if steps[0].Fork? {
          DoomedRun(st', steps[1..], st.pids[steps[0].pid]);
        }
      }
    }
  }

  // ---- one id used too early is enough to break the promise ----------------------------------------

  /** The status of a process that was to be registered is lost, a status can be handed to the waiter of
      another process, or is sent on a closed channel, which panics. */
  ghost predicate Broken(st: State) {
    || (exists u :: u in st.procs && st.procs[u].delivery.Dropped? && !st.procs[u].stray)
    || (exists u, w :: u != w && Enabled(st, Deliver(u, w), true))
    || (exists u :: u in st.procs && st.procs[u].delivery.Sending? && ChannelClosed(st, st.procs[u].delivery.ch))
  }

  /** Some continuation, in which no further id is used too early, breaks the promise. */
  ghost predicate CanBreak(st: State) {
    exists steps :: Legal(st, steps, true) && Broken(Exec(st, steps, true))
  }

  lemma BreakNow(st: State)
    requires Broken(st)
    ensures CanBreak(st)
  {
    Still(st, true);
  }

  lemma BreakLater(st: State, step: Step)
    requires Enabled(st, step, true) && CanBreak(Do(st, step, true))
    ensures CanBreak(st)
  {
    hide Do, Enabled, Broken;
    var rest :| Legal(Do(st, step, true), rest, true) && Broken(Exec(Do(st, step, true), rest, true));
    Prepend(st, step, rest, true);
  }

  /** `v` has just been registered under the id of `u`. */
  ghost predicate Newcomer(st: State, u: nat, v: nat) {
    && st.mux.None? && u in st.procs && v in st.procs && u != v && st.procs[u].pid == st.procs[v].pid
    && st.procs[v].registered && st.procs[v].delivery.Alive? && st.procs[v].wait.NotCalled? && !st.procs[v].stray
    && (st.reaper.Some? ==> st.reaper.value in st.procs && st.reaper.value != v)
  }

  /** The newcomer without an entry: its status is lost. */
  lemma NoEntryBreaks(st: State, u: nat, v: nat)
    requires Newcomer(st, u, v) && st.procs[v].pid !in st.pids
    ensures CanBreak(st)
    decreases st.reaper.Some?
  {
    hide CanBreak;
    if st.reaper.Some? {
      NoEntryBreaks(Do(st, Lookup, true), u, v);
      BreakLater(st, Lookup);
    } else {
      var reaped := Do(st, Reap(v), true);
      var lost := Do(reaped, Lookup, true);
      assert lost.procs[v].delivery.Dropped?;
      BreakNow(lost);
      BreakLater(reaped, Lookup);
      BreakLater(st, Reap(v));
    }
  }

  /** The delivery of the first process takes the newcomer's entry away. */
  lemma DeliveredBreaks(st: State, u: nat, v: nat)
    requires Newcomer(st, u, v) && (st.procs[u].delivery.Closing? || st.procs[u].delivery.Deleting?)
    ensures CanBreak(st)
    decreases st.procs[u].delivery.Closing?
  {
    hide CanBreak;
    if st.procs[u].delivery.Closing? {
      DeliveredBreaks(Do(st, Close(u), true), u, v);
      BreakLater(st, Close(u));
    } else {
      NoEntryBreaks(Do(st, Delete(u), true), u, v);
      BreakLater(st, Delete(u));
    }
  }

  /** The waiter of the first process, not called yet, gets hold of the newcomer's channel. */
  lemma UncalledBreaks(st: State, u: nat, v: nat)
    requires Newcomer(st, u, v) && st.procs[v].pid in st.pids && st.pids[st.procs[v].pid] == v
    requires st.procs[u].registered && st.procs[u].wait.NotCalled? && st.procs[u].delivery.Sending?
    ensures CanBreak(st)
    decreases st.reaper.Some?
  {
    hide CanBreak;
    if st.reaper.Some? {
      UncalledBreaks(Do(st, Lookup, true), u, v);
      BreakLater(st, Lookup);
    } else {
      var s1 := Do(st, CallWait(u), true);
      var s2 := Do(s1, Reap(v), true);
      var s3 := Do(s2, Lookup, true);
      assert Enabled(s3, Deliver(v, u), true);
      BreakNow(s3);
      BreakLater(s2, Lookup);
      BreakLater(s1, Reap(v));
      BreakLater(st, CallWait(u));
    }
  }

  /** The first process is looked up only now: its status goes to the newcomer's waiter. */
  lemma ReapedBreaks(st: State, u: nat, v: nat)
    requires Newcomer(st, u, v) && st.procs[v].pid in st.pids && st.pids[st.procs[v].pid] == v && st.reaper == Some(u)
    ensures CanBreak(st)
  {
    hide CanBreak;
    var s1 := Do(st, Lookup, true);
    var s2 := Do(s1, CallWait(v), true);
    assert Enabled(s2, Deliver(u, v), true);
    BreakNow(s2);
    BreakLater(s1, CallWait(v));
    BreakLater(st, Lookup);
  }

  lemma NewcomerBreaks(st: State, u: nat, v: nat)
    requires Newcomer(st, u, v) && st.procs[v].pid in st.pids && st.pids[st.procs[v].pid] == v
    requires st.procs[u].registered && !st.procs[u].delivery.Gone? && !st.procs[u].delivery.Alive? && !st.procs[u].stray
    requires st.procs[u].delivery.Reaped? ==> st.reaper == Some(u)
    requires st.procs[u].delivery.Sending? && !st.procs[u].wait.NotCalled? ==> Enabled(st, Deliver(u, u), true)
    ensures CanBreak(st)
  {
    hide CanBreak;
    match st.procs[u].delivery {
      case Reaped => ReapedBreaks(st, u, v);
      case Sending(_) =>
        if st.procs[u].wait.NotCalled? {
          UncalledBreaks(st, u, v);
        } else {
          DeliveredBreaks(Do(st, Deliver(u, u), true), u, v);
          BreakLater(st, Deliver(u, u));
        }
      case Dropped => BreakNow(st);
      case _ => DeliveredBreaks(st, u, v);
    }
  }

  lemma EarlyForkBreaks(st: State, pid: int, status: int)
    requires Inv(st) && Enabled(st, Fork(pid, status), false) && pid in st.pids
    ensures CanBreak(Do(st, Fork(pid, status), false))
  {
    hide CanBreak;
    var u, v := st.pids[pid], st.next;
    assert EntryInv(st, pid) && ProcInv(st, u);
    if st.reaper.Some? {
      assert ProcInv(st, st.reaper.value);
    }
    var forked := Do(st, Fork(pid, status), false);
    NewcomerBreaks(Do(forked, Register, true), u, v);
    BreakLater(forked, Register);
  }

  /** A stray with that id waits for its lookup: its status goes to the waiter of the fork. */
  lemma PendingForkBreaks(st: State, pid: int, status: int)
    requires Inv(st) && Enabled(st, Fork(pid, status), false) && pid !in st.pids && Has(st, st.reaper, pid)
    ensures CanBreak(Do(st, Fork(pid, status), false))
  {
    hide CanBreak;
    var u, v := st.reaper.value, st.next;
    assert ProcInv(st, u);
    var forked := Do(st, Fork(pid, status), false);
    ReapedBreaks(Do(forked, Register, true), u, v);
    BreakLater(forked, Register);
  }

  lemma InvNotBroken(st: State)
    requires Inv(st)
    ensures !Broken(st)
  {
    forall u | u in st.procs ensures ProcInv(st, u) {
    }
  }

  lemma PromptCannotBreak(st: State)
    requires PromptInv(st)
    ensures !CanBreak(st)
  {
    hide Inv, Broken, StraysApart;
    forall more | Legal(st, more, true) ensures !Broken(Exec(st, more, true)) {
      RunKeepsInv(st, more);
      InvNotBroken(Exec(st, more, true));
    }
  }

  /** In every state reached without early reuse: a fork keeps the promise in all that may follow,
      if no further id is used too early, exactly when the entry of its id is gone and no reaped child
      with the id waits for its lookup. */
  lemma ForkIsSafeIff(steps: seq<Step>, pid: int, status: int)
    requires Legal(Initial(), steps, true) && Enabled(Exec(Initial(), steps, true), Fork(pid, status), false)
    ensures var st := Exec(Initial(), steps, true);
      pid !in st.pids && !Has(st, st.reaper, pid) <==> !CanBreak(Do(st, Fork(pid, status), false))
  {
    assert PromptInv(Initial());
    RunKeepsInv(Initial(), steps);
    hide Inv, StraysApart, CanBreak;
    var st := Exec(Initial(), steps, true);
    if pid in st.pids {
      EarlyForkBreaks(st, pid, status);
    } else if Has(st, st.reaper, pid) {
      PendingForkBreaks(st, pid, status);
    } else {
      PromptStep(st, Fork(pid, status));
      SameDo(st, Fork(pid, status));
      PromptCannotBreak(Do(st, Fork(pid, status), true));
    }
  }

  /** `s` is a stray to come, under the id of the entry of `u`. */
  ghost predicate Intruder(st: State, u: nat, s: nat) {
    && st.mux.None? && u in st.procs && s in st.procs && u != s && st.procs[u].pid == st.procs[s].pid
    && st.procs[s].stray && st.procs[s].delivery.Alive? && st.reaper != Some(s)
    && (st.reaper.Some? ==> st.reaper.value in st.procs)
    && st.procs[u].pid in st.pids && st.pids[st.procs[u].pid] == u && st.procs[u].registered
    && (match st.procs[u].delivery
        case Reaped => !st.procs[u].wait.Got?
        case Sending(ch) => ch == u && !st.procs[u].wait.Got?
        case Closing(ch) => ch == u
        case Deleting(ch) => ch == u
        case _ => false)
    && (st.procs[u].wait.Holding? ==> st.procs[u].wait.ch == u)
    && (st.reaper == Some(u) <==> st.procs[u].delivery.Reaped?)
  }

  /** Looked up while the entry is there, the stray sends on the channel of `u`: to the waiter of `u`, or
      behind the delivery on the channel that is being closed. */
  lemma IntruderBreaks(st: State, u: nat, s: nat)
    requires Intruder(st, u, s)
    ensures CanBreak(st)
    decreases st.reaper.Some?
  {
    hide CanBreak;
    if st.reaper.Some? {
      IntruderBreaks(Do(st, Lookup, true), u, s);
      BreakLater(st, Lookup);
    } else {
      var s1 := Do(st, Reap(s), true);
      var s2 := Do(s1, Lookup, true);
      IntruderSends(s2, u, s);
      BreakLater(s1, Lookup);
      BreakLater(st, Reap(s));
    }
  }

  lemma IntruderSends(st: State, u: nat, s: nat)
    requires st.mux.None? && u in st.procs && s in st.procs && u != s && st.procs[s].delivery == Sending(u)
    requires st.procs[u].pid in st.pids && st.pids[st.procs[u].pid] == u && st.procs[u].registered
    requires match st.procs[u].delivery
      case Sending(ch) => ch == u && !st.procs[u].wait.Got?
      case Closing(ch) => ch == u
      case Deleting(ch) => ch == u
      case _ => false
    requires st.procs[u].wait.Holding? ==> st.procs[u].wait.ch == u
    ensures CanBreak(st)
  {
    hide CanBreak;
    match st.procs[u].delivery {
      case Sending(_) =>
        if st.procs[u].wait.NotCalled? {
          var called := Do(st, CallWait(u), true);
          assert Enabled(called, Deliver(s, u), true);
          BreakNow(called);
          BreakLater(st, CallWait(u));
        } else {
          assert Enabled(st, Deliver(s, u), true);
          BreakNow(st);
        }
      case Closing(_) =>
        var closed := Do(st, Close(u), true);
        assert closed.procs[u].delivery == Deleting(u) && ChannelClosed(closed, u);
        assert closed.procs[s].delivery == Sending(u);
        BreakNow(closed);
        BreakLater(st, Close(u));
      case Deleting(_) =>
        assert ChannelClosed(st, u);
        BreakNow(st);
    }
  }

  lemma EarlyStrayBreaks(st: State, pid: int, status: int)
    requires Inv(st) && Enabled(st, Stray(pid, status), false) && (pid in st.pids || Has(st, st.mux, pid))
    ensures CanBreak(Do(st, Stray(pid, status), false))
  {
    hide CanBreak;
    var come := Do(st, Stray(pid, status), false);
    if st.reaper.Some? {
      assert ProcInv(st, st.reaper.value);
    }
    if st.mux.Some? {
      var m := st.mux.value;
      assert ProcInv(st, m);
      var registered := Do(come, Register, true);
      if pid in st.pids {
        assert EntryInv(st, pid) && ProcInv(st, st.pids[pid]);
        IntruderBreaks(registered, st.pids[pid], st.next);
      } else {
        IntruderBreaks(registered, m, st.next);
      }
      BreakLater(come, Register);
    } else {
      assert EntryInv(st, pid) && ProcInv(st, st.pids[pid]);
      IntruderBreaks(come, st.pids[pid], st.next);
    }
  }

  /** So does a child nobody registers, exactly when its id has no entry and no registration under way. */
  lemma StrayIsSafeIff(steps: seq<Step>, pid: int, status: int)
    requires Legal(Initial(), steps, true) && Enabled(Exec(Initial(), steps, true), Stray(pid, status), false)
    ensures var st := Exec(Initial(), steps, true);
      pid !in st.pids && !Has(st, st.mux, pid) <==> !CanBreak(Do(st, Stray(pid, status), false))
  {
    assert PromptInv(Initial());
    RunKeepsInv(Initial(), steps);
    hide Inv, StraysApart, CanBreak;
    var st := Exec(Initial(), steps, true);
    if pid in st.pids || Has(st, st.mux, pid) {
      EarlyStrayBreaks(st, pid, status);
    } else {
      PromptStep(st, Stray(pid, status));
      SameDo(st, Stray(pid, status));
      PromptCannotBreak(Do(st, Stray(pid, status), true));
    }
  }

  lemma Prepend(st: State, step: Step, rest: seq<Step>, prompt: bool)
    requires Enabled(st, step, prompt) && Legal(Do(st, step, prompt), rest, prompt)
    ensures Legal(st, [step] + rest, prompt)
    ensures Exec(st, [step] + rest, prompt) == Exec(Do(st, step, prompt), rest, prompt)
  {
    assert ([step] + rest)[1..] == rest;
  }

  lemma Still(st: State, prompt: bool)
    ensures Legal(st, [], prompt) && Exec(st, [], prompt) == st
  {
  }

  /** Process 0 with id 5 is reaped, and its goroutine is sending, when the id is given out again. */
  ghost function ReuseRun(): seq<Step> {
    [Fork(5, 1)] + ([Register] + ([Reap(0)] + ([Lookup] + MisdeliveryRun())))
  }

  ghost function MisdeliveryRun(): seq<Step> {
    [Fork(5, 2)] + ([Register] + ([CallWait(0)] + ([Reap(1)] + ([Lookup] + ([Deliver(1, 0)] + [])))))
  }

  ghost function Reused(): State {
    State(map[5 := 0], map[0 := Proc(5, 1, true, Sending(0), NotCalled, false)], None, None, 1)
  }

  lemma Misdelivery()
    ensures Legal(Reused(), MisdeliveryRun(), false)
    ensures var st := Exec(Reused(), MisdeliveryRun(), false);
      0 in st.procs && st.procs[0].status == 1 && st.procs[0].wait == Got(2)
  {
    hide Legal, Exec;
    var s1 := Do(Reused(), Fork(5, 2), false);
    var s2 := Do(s1, Register, false);
    var s3 := Do(s2, CallWait(0), false);
    var s4 := Do(s3, Reap(1), false);
    var s5 := Do(s4, Lookup, false);
    var s6 := Do(s5, Deliver(1, 0), false);
    Still(s6, false);
    var t5 := [Deliver(1, 0)] + [];
    var t4 := [Lookup] + t5;
    var t3 := [Reap(1)] + t4;
    var t2 := [CallWait(0)] + t3;
    Prepend(s5, Deliver(1, 0), [], false);
    Prepend(s4, Lookup, t5, false);
    Prepend(s3, Reap(1), t4, false);
    Prepend(s2, CallWait(0), t3, false);
    Prepend(s1, Register, t2, false);
    Prepend(Reused(), Fork(5, 2), [Register] + t2, false);
  }

  /** The promise needs its premise: in this run the id is used again before the entry is removed, and
      the waiter of the first process, which exits with 1, gets the 2 of the newcomer. */
  lemma EarlyReuseMisdelivers()
    ensures Legal(Initial(), ReuseRun(), false)
    ensures var st := Exec(Initial(), ReuseRun(), false);
      0 in st.procs && st.procs[0].status == 1 && st.procs[0].wait == Got(2)
  {
    hide Legal, Exec, MisdeliveryRun;
    Misdelivery();
    var s1 := Do(Initial(), Fork(5, 1), false);
    var s2 := Do(s1, Register, false);
    var s3 := Do(s2, Reap(0), false);
    var rest := MisdeliveryRun();
    assert Do(s3, Lookup, false) == Reused();
    Prepend(s3, Lookup, rest, false);
    Prepend(s2, Reap(0), [Lookup] + rest, false);
    Prepend(s1, Register, [Reap(0)] + ([Lookup] + rest), false);
    Prepend(Initial(), Fork(5, 1), [Register] + ([Reap(0)] + ([Lookup] + rest)), false);
  }

  /** An orphan with id 5 is reaped but not looked up when the id goes to a new process: the waiter of
      that one, which exits with 1, gets the 9 of the orphan. */
  ghost function StrayRun(): seq<Step> {
    [Stray(5, 9)] + ([Reap(0)] + ([Fork(5, 1)] + ([Register] + ([CallWait(1)] + ([Lookup] + ([Deliver(0, 1)] + []))))))
  }

  lemma StrayMisdelivers()
    ensures Legal(Initial(), StrayRun(), false)
    ensures var st := Exec(Initial(), StrayRun(), false);
      1 in st.procs && st.procs[1].status == 1 && st.procs[1].wait == Got(9)
  {
    hide Legal, Exec;
    var s1 := Do(Initial(), Stray(5, 9), false);
    var s2 := Do(s1, Reap(0), false);
    var s3 := Do(s2, Fork(5, 1), false);
    var s4 := Do(s3, Register, false);
    var s5 := Do(s4, CallWait(1), false);
    var s6 := Do(s5, Lookup, false);
    var s7 := Do(s6, Deliver(0, 1), false);
    Still(s7, false);
    var t6 := [Deliver(0, 1)] + [];
    var t5 := [Lookup] + t6;
    var t4 := [CallWait(1)] + t5;
    var t3 := [Register] + t4;
    var t2 := [Fork(5, 1)] + t3;
    var t1 := [Reap(0)] + t2;
    Prepend(s6, Deliver(0, 1), [], false);
    Prepend(s5, Lookup, t6, false);
    Prepend(s4, CallWait(1), t5, false);
    Prepend(s3, Register, t4, false);
    Prepend(s2, Fork(5, 1), t3, false);
    Prepend(s1, Reap(0), t2, false);
    Prepend(Initial(), Stray(5, 9), t1, false);
  }
}
