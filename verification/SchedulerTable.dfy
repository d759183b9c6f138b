/** The scheduler against its own steps: the job table holds exactly the jobs that are on their way, so
    nothing leaks, and each queue is served in the order of the requests. About base/pm/pm.go and
    base/pm/queue.go. */
module SchedulerTable {
  import opened Wrappers
  import opened Queues
  import opened Scheduler

  /** In the hands of RunFactory, behind another job of its queue, offered, or started. */
  ghost predicate OnItsWay(st: State, job: Job) {
    || (!st.factory.Idle? && st.factory.job == job) || st.offer == Send(job) || job in st.started
    || (job.queue in st.lists && exists i :: 0 < i < |st.lists[job.queue]| && st.lists[job.queue][i] == job)
  }

  ghost predicate Exact(st: State) {
    && (st.factory.Pushing? ==> st.offer == Send(st.factory.job))
    && forall id :: id in st.table ==> st.table[id].id == id && OnItsWay(st, st.table[id])
  }

  lemma PushStays(maxJobs: int, st: State, job: Job)
    requires Inv(maxJobs, st) && Enabled(maxJobs, st, Push) && OnItsWay(st, job)
    ensures OnItsWay(Do(maxJobs, st, Push), job)
  {
    var st', own := Do(maxJobs, st, Push), st.factory.job;
    assert NameInv(st, own.queue);
    if job == own {
      if st'.offer.Nothing? {
        var i := |st.lists[own.queue]|;
        assert st'.lists[own.queue][i] == own;
      }
    } else if job.queue in st.lists && exists i :: 0 < i < |st.lists[job.queue]| && st.lists[job.queue][i] == job {
      var i :| 0 < i < |st.lists[job.queue]| && st.lists[job.queue][i] == job;
      assert st'.lists[job.queue][i] == job;
    }
  }

  lemma NotifyStays(maxJobs: int, st: State, done: Job, job: Job)
    requires Enabled(maxJobs, st, Notify(done)) && OnItsWay(st, job)
    ensures OnItsWay(Do(maxJobs, st, Notify(done)), job)
  {
    var st' := Do(maxJobs, st, Notify(done));
    if job.queue in st.lists && exists i :: 0 < i < |st.lists[job.queue]| && st.lists[job.queue][i] == job {
      var i :| 0 < i < |st.lists[job.queue]| && st.lists[job.queue][i] == job;
      if job.queue == done.queue && i > 1 {
        assert st'.lists[job.queue][i - 1] == job;
      }
    }
  }

  /** What no step but the removal of its own entry takes off its way. */
  lemma StepStays(maxJobs: int, st: State, step: Step, job: Job)
    requires Inv(maxJobs, st) && Exact(st) && Enabled(maxJobs, st, step) && OnItsWay(st, job)
    requires !(step.Delete? && step.job == job)
    ensures OnItsWay(Do(maxJobs, st, step), job)
  {
    match step {
      case Push => PushStays(maxJobs, st, job);
      case Notify(done) => NotifyStays(maxJobs, st, done, job);
      case _ => OtherStays(maxJobs, st, step, job);
    }
  }

  lemma OtherStays(maxJobs: int, st: State, step: Step, job: Job)
    requires Exact(st) && Enabled(maxJobs, st, step) && OnItsWay(st, job)
    requires !step.Push? && !step.Notify? && !(step.Delete? && step.job == job)
    ensures OnItsWay(Do(maxJobs, st, step), job)
  {
  }

  lemma StepTable(maxJobs: int, st: State, step: Step, id: string)
    requires Exact(st) && Enabled(maxJobs, st, step) && id in Do(maxJobs, st, step).table
    ensures var st' := Do(maxJobs, st, step);
      && st'.table[id].id == id
      && (OnItsWay(st', st'.table[id]) ||
          (id in st.table && st'.table[id] == st.table[id] && !(step.Delete? && step.job == st.table[id])))
  {
  }

  lemma StepExact(maxJobs: int, st: State, step: Step)
    requires Inv(maxJobs, st) && Exact(st) && Enabled(maxJobs, st, step)
    ensures Exact(Do(maxJobs, st, step))
  {
    hide Inv, OnItsWay;
    var st' := Do(maxJobs, st, step);
    forall id | id in st'.table ensures st'.table[id].id == id && OnItsWay(st', st'.table[id]) {
      StepTable(maxJobs, st, step, id);
      if !OnItsWay(st', st'.table[id]) {
        StepStays(maxJobs, st, step, st.table[id]);
      }
    }
  }

  lemma {:induction false} RunExact(maxJobs: int, st: State, steps: seq<Step>)
    requires Inv(maxJobs, st) && Exact(st) && Legal(maxJobs, st, steps)
    ensures Inv(maxJobs, Exec(maxJobs, st, steps)) && Exact(Exec(maxJobs, st, steps))
    decreases |steps|
  {
    hide Inv, Exact, Do, Enabled;
    if steps != [] {
      StepKeepsInv(maxJobs, st, steps[0]);
      StepExact(maxJobs, st, steps[0]);
      RunExact(maxJobs, Do(maxJobs, st, steps[0]), steps[1..]);
    }
  }

  /** In every interleaving the table holds a job exactly while it is on its way: from RunFactory until its
      cleanUp begins, and never after that. */
  lemma TableIsExact(maxJobs: int, steps: seq<Step>, job: Job)
    requires Legal(maxJobs, Initial(), steps)
    ensures var st := Exec(maxJobs, Initial(), steps); job in st.table.Values <==> OnItsWay(st, job)
  {
    InitialInv(maxJobs);
    RunExact(maxJobs, Initial(), steps);
    WayIsListed(maxJobs, Exec(maxJobs, Initial(), steps), job);
  }

  lemma WayIsListed(maxJobs: int, st: State, job: Job)
    requires Inv(maxJobs, st) && Exact(st)
    ensures job in st.table.Values <==> OnItsWay(st, job)
  {
    if OnItsWay(st, job) {
      assert Listed(st, job);
      assert st.table[job.id] in st.table.Values;
    }
  }

  /** Once no job is on its way the table is empty, and the whole of MaxJobs is free again. */
  lemma DrainedIsEmpty(maxJobs: int, steps: seq<Step>)
    requires Legal(maxJobs, Initial(), steps)
    ensures var st := Exec(maxJobs, Initial(), steps);
      (forall job :: !OnItsWay(st, job)) ==> st.table == map[]
  {
    var st := Exec(maxJobs, Initial(), steps);
    if (forall job :: !OnItsWay(st, job)) && st.table != map[] {
      var id :| id in st.table;
      TableIsExact(maxJobs, steps, st.table[id]);
      assert false;
    }
  }

  // ---- first come, first served ----------------------------------------------------------------------

  /** The jobs asked for, numbered in the order of the calls. */
  ghost function Requests(steps: seq<Step>): seq<Job> {
    if steps == [] then []
    else
      var sofar, last := Requests(steps[..|steps| - 1]), steps[|steps| - 1];
      if last.Insert? then sofar + [Job(|sofar|, last.id, last.queue)] else sofar
  }

  /** All requests are pushed, but for the one that is about to be. */
  ghost predicate Asked(st: State, done: seq<Step>) {
    && st.nextUid == |Requests(done)|
    && Requests(done) == st.pushed + if st.factory.Inserted? then [st.factory.job] else []
  }

  lemma StepAsked(maxJobs: int, st: State, done: seq<Step>, step: Step)
    requires Asked(st, done) && Enabled(maxJobs, st, step)
    ensures Asked(Do(maxJobs, st, step), done + [step])
  {
    assert (done + [step])[..|done|] == done;
  }

  lemma {:induction false} RunAsked(maxJobs: int, st: State, done: seq<Step>, steps: seq<Step>)
    requires Asked(st, done) && Legal(maxJobs, st, steps)
    ensures Asked(Exec(maxJobs, st, steps), done + steps)
    decreases |steps|
  {
    hide Asked, Do, Enabled;
    if steps == [] {
      assert done + steps == done;
    } else {
      StepAsked(maxJobs, st, done, steps[0]);
      RunAsked(maxJobs, Do(maxJobs, st, steps[0]), done + [steps[0]], steps[1..]);
      assert done + steps == done + [steps[0]] + steps[1..];
    }
  }

  /** In every interleaving the jobs of a queue name are handed out in the order in which they were asked
      for, each under the id and queue of its request, with none left out in between. */
  lemma FirstComeFirstServed(maxJobs: int, steps: seq<Step>, name: string)
    requires Legal(maxJobs, Initial(), steps)
    ensures Of(Exec(maxJobs, Initial(), steps).handed, name) <= Of(Requests(steps), name)
  {
    hide Of, Inv;
    RunAsked(maxJobs, Initial(), [], steps);
    assert [] + steps == steps;
    HandedInPushOrder(maxJobs, steps, name);
    var st := Exec(maxJobs, Initial(), steps);
    if st.factory.Inserted? {
      OfSnoc(st.pushed, st.factory.job, name);
    } else {
      assert st.pushed + [] == st.pushed;
    }
  }
}
