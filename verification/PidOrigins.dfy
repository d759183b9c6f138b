/** The process id table against its own steps: every process is the one its fork made, so what a waiter
    gets is the exit status that fork was going to have. About base/pm/pm.go. */
module PidOrigins {
  import opened Wrappers
  import opened Pids

  /** The forks in order, strays among them. */
  ghost function Births(steps: seq<Step>): seq<Step> {
    if steps == [] then []
    else
      var last := steps[|steps| - 1];
      Births(steps[..|steps| - 1]) + if last.Fork? || last.Stray? then [last] else []
  }

  /** The process is the one this step made. */
  ghost predicate BornOf(p: Proc, birth: Step) {
    if p.stray then birth == Stray(p.pid, p.status) else birth == Fork(p.pid, p.status)
  }

  ghost predicate Recorded(st: State, done: seq<Step>) {
    && st.next == |Births(done)| && (forall u: nat :: u in st.procs <==> u < st.next)
    && forall u :: u in st.procs ==> BornOf(st.procs[u], Births(done)[u])
  }

  lemma StepRecorded(st: State, done: seq<Step>, step: Step, prompt: bool)
    requires Recorded(st, done) && Enabled(st, step, prompt)
    ensures Recorded(Do(st, step, prompt), done + [step])
  {
    assert (done + [step])[..|done|] == done;
  }

  lemma {:induction false} RunRecorded(st: State, done: seq<Step>, steps: seq<Step>, prompt: bool)
    requires Recorded(st, done) && Legal(st, steps, prompt)
    ensures Recorded(Exec(st, steps, prompt), done + steps)
    decreases |steps|
  {
    hide Recorded, Do, Enabled;
    if steps == [] {
      assert done + steps == done;
    } else {
      StepRecorded(st, done, steps[0], prompt);
      RunRecorded(Do(st, steps[0], prompt), done + [steps[0]], steps[1..], prompt);
      assert done + steps == done + [steps[0]] + steps[1..];
    }
  }

  /** If no id is used again too early: the waiter of a process gets the exit status that its own fork was
      going to have, and there is a process for every fork and for nothing else. */
  lemma WaiterGetsItsFork(steps: seq<Step>, u: nat)
    requires Legal(Initial(), steps, true)
    ensures var st := Exec(Initial(), steps, true);
      && (u in st.procs <==> u < |Births(steps)|)
      && (u in st.procs && st.procs[u].wait.Got? ==>
            Births(steps)[u] == Fork(st.procs[u].pid, st.procs[u].wait.status))
  {
    hide PromptInv;
    RunRecorded(Initial(), [], steps, true);
    assert [] + steps == steps;
    GotByFork(steps, u);
  }

  lemma GotByFork(steps: seq<Step>, u: nat)
    requires Legal(Initial(), steps, true)
    ensures var st := Exec(Initial(), steps, true);
      u in st.procs && st.procs[u].wait.Got? ==> !st.procs[u].stray && st.procs[u].wait == Got(st.procs[u].status)
  {
    assert PromptInv(Initial());
    RunKeepsInv(Initial(), steps);
    var st := Exec(Initial(), steps, true);
    if u in st.procs {
      assert ProcInv(st, u);
      StatusReachesItsWaiter(steps, u, u);
    }
  }
}
