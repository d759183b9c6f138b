/** The scheduler over every interleaving of `RunFactory`, the dispatcher `loop` and `cleanUp`, with
    the job table, the two locks, the blocking channel and the condition variable the dispatcher sleeps
    on. Models base/pm/pm.go and base/pm/queue.go. */
module Scheduler {
  import opened Wrappers
  import opened Queues

  /** The RunFactory call that holds the table lock, if any: before and inside `Push`. */
  datatype Factory = Idle | Inserted(job: Job) | Pushing(job: Job)

  /** The dispatcher: in front of the MaxJobs test; behind a test that found the table full, but not yet
      on the list of the condition variable; asleep on it; or past the test, at the receive. */
  datatype Gate = Testing | SeenFull | Asleep | Passed

  /** `offer`: a send blocked on the channel, which also means the queue lock is taken. `finishing`: jobs
      out of the table whose Notify is still to come. `notifier`: the job whose Notify is blocked in that
      send. `owing`: jobs whose Notify has returned and whose Broadcast is still to come. `pushed`,
      `handed`: the history of both ends of the queue. */
  datatype State = State(
    table: map<string, Job>, factory: Factory, lists: Lists, offer: Offer, gate: Gate,
    started: set<Job>, finishing: set<Job>, notifier: Option<Job>, owing: set<Job>,
    nextUid: nat, pushed: seq<Job>, handed: seq<Job>)

  datatype Step =
    | Insert(id: string, queue: string)
    | Push
    | Check
    | SeeFull
    | Sleep
    | Receive
    | Delete(job: Job)
    | Notify(job: Job)
    | Broadcast(job: Job)

  ghost function Initial(): State {
    State(map[], Idle, map[], Nothing, Testing, {}, {}, None, {}, 0, [], [])
  }

  ghost predicate Enabled(maxJobs: int, st: State, step: Step) {
    match step
    case Insert(id, _) => st.factory.Idle? && id !in st.table
    case Push => st.factory.Inserted? && st.offer.Nothing?
    case Check => st.gate.Testing? && |st.table| < maxJobs
    case SeeFull => st.gate.Testing? && |st.table| >= maxJobs
    case Sleep => st.gate.SeenFull?
    case Receive => st.gate.Passed? && st.offer.Send?
    case Delete(job) => job in st.started && st.factory.Idle?
    case Notify(job) => job in st.finishing && st.offer.Nothing?
    case Broadcast(job) => job in st.owing
  }

  ghost function Do(maxJobs: int, st: State, step: Step): State
    requires Enabled(maxJobs, st, step)
  {
    match step
    case Insert(id, queue) =>
      var job := Job(st.nextUid, id, queue);
      st.(table := st.table[id := job], factory := Inserted(job), nextUid := st.nextUid + 1)
    case Push =>
      var job := st.factory.job;
      var offer := PushOffer(st.lists, job);
      st.(lists := PushLists(st.lists, job), offer := offer, pushed := st.pushed + [job],
          factory := if offer.Send? then Pushing(job) else Idle)
    case Check => st.(gate := Passed)
    case SeeFull => st.(gate := SeenFull)
    case Sleep => st.(gate := Asleep)
    case Receive =>
      var job := st.offer.job;
      st.(offer := Nothing, gate := Testing, started := st.started + {job}, handed := st.handed + [job],
          factory := if st.factory.Pushing? then Idle else st.factory,
          notifier := None, owing := if st.notifier.Some? then st.owing + {st.notifier.value} else st.owing)
    case Delete(job) =>
      st.(table := st.table - {job.id}, started := st.started - {job}, finishing := st.finishing + {job})
    case Notify(job) =>
      var offer := NotifyOffer(st.lists, job.queue);
      st.(finishing := st.finishing - {job}, lists := NotifyLists(st.lists, job.queue), offer := offer,
          notifier := if offer.Send? then Some(job) else None,
          owing := if offer.Send? then st.owing else st.owing + {job})
    case Broadcast(job) =>
      st.(owing := st.owing - {job}, gate := if st.gate.Asleep? then Testing else st.gate)
  }

  ghost predicate Legal(maxJobs: int, st: State, steps: seq<Step>)
    decreases |steps|
  {
    steps == [] || (Enabled(maxJobs, st, steps[0]) && Legal(maxJobs, Do(maxJobs, st, steps[0]), steps[1..]))
  }

  ghost function Exec(maxJobs: int, st: State, steps: seq<Step>): State
    requires Legal(maxJobs, st, steps)
    decreases |steps|
  {
    if steps == [] then st else Exec(maxJobs, Do(maxJobs, st, steps[0]), steps[1..])
  }

  // ---- the table and the bound --------------------------------------------------------------

  ghost function Max0(n: int): nat { if n < 0 then 0 else n }

  /** Every started job has its own entry, and the gate counts entries. */
  ghost predicate TableInv(maxJobs: int, st: State) {
    && (forall job :: job in st.started ==> Listed(st, job))
    && (st.offer.Send? ==> Listed(st, st.offer.job))
    && (!st.factory.Idle? ==> Listed(st, st.factory.job))
    && (forall name, i :: name in st.lists && 0 < i < |st.lists[name]| ==> Listed(st, st.lists[name][i]))
    && |st.started| <= Max0(maxJobs)
    && (st.gate.Passed? ==> |st.started| < maxJobs)
  }

  ghost predicate Listed(st: State, job: Job) {
    job.id in st.table && st.table[job.id] == job
  }

  lemma {:induction false} NoMoreThanEntries(jobs: set<Job>, table: map<string, Job>)
    requires forall job :: job in jobs ==> job.id in table && table[job.id] == job
    ensures |jobs| <= |table|
    decreases |jobs|
  {
    if jobs != {} {
      var job :| job in jobs;
      var rest := table - {job.id};
      assert rest.Keys == table.Keys - {job.id};
      NoMoreThanEntries(jobs - {job}, rest);
    }
  }

  // ---- the queues ----------------------------------------------------------------------------

  /** Jobs of one queue name, in order. */
  ghost function Of(jobs: seq<Job>, name: string): seq<Job> {
    if jobs == [] then []
    else
      var last := jobs[|jobs| - 1];
      Of(jobs[..|jobs| - 1], name) + if last.queue == name then [last] else []
  }

  lemma OfSnoc(jobs: seq<Job>, job: Job, name: string)
    ensures Of(jobs + [job], name) == Of(jobs, name) + if job.queue == name then [job] else []
  {
    assert (jobs + [job])[..|jobs|] == jobs;
  }

  /** On its way from the channel to the end of its cleanUp. */
  ghost predicate Active(st: State, job: Job) {
    st.offer == Send(job) || job in st.started || job in st.finishing
  }

  /** Pushed under this name and not handed out yet. */
  ghost function Pending(st: State, name: string): seq<Job> {
    if name in st.lists && st.lists[name] != [] then
      if st.offer == Send(st.lists[name][0]) then st.lists[name] else st.lists[name][1..]
    else if name == "" && st.offer.Send? && st.offer.job.queue == "" then [st.offer.job]
    else []
  }

  ghost predicate NameInv(st: State, name: string) {
    && (name in st.lists ==>
          && name != "" && st.lists[name] != [] && Active(st, st.lists[name][0])
          && forall i :: 0 <= i < |st.lists[name]| ==> st.lists[name][i].queue == name)
    && Of(st.pushed, name) == Of(st.handed, name) + Pending(st, name)
  }

  /** An active job of a named queue is the front of its queue. */
  ghost predicate FrontInv(st: State, job: Job) {
    Active(st, job) && job.queue != "" ==>
      job.queue in st.lists && st.lists[job.queue] != [] && st.lists[job.queue][0] == job
  }

  /** Jobs pushed so far are older than this. */
  ghost function Bound(st: State): nat {
    if st.factory.Inserted? then st.factory.job.uid else st.nextUid
  }

  ghost predicate AgeInv(st: State) {
    && (st.factory.Inserted? ==> st.factory.job.uid < st.nextUid)
    && (forall i, j :: 0 <= i < j < |st.pushed| ==> st.pushed[i].uid < st.pushed[j].uid)
    && (forall i :: 0 <= i < |st.pushed| ==> st.pushed[i].uid < Bound(st))
    && (forall job :: Active(st, job) ==> job.uid < Bound(st))
    && (forall name, i :: name in st.lists && 0 <= i < |st.lists[name]| ==> st.lists[name][i].uid < Bound(st))
  }

  /** The three stages of an active job exclude each other. */
  ghost predicate StageInv(st: State) {
    && st.started !! st.finishing
    && (st.offer.Send? ==> st.offer.job !in st.started && st.offer.job !in st.finishing)
    && (forall name, i, j :: name in st.lists && 0 <= i < j < |st.lists[name]| ==>
          st.lists[name][i].uid < st.lists[name][j].uid)
  }

  ghost predicate Inv(maxJobs: int, st: State) {
    && TableInv(maxJobs, st) && AgeInv(st) && StageInv(st)
    && (forall name :: NameInv(st, name))
    && (forall job :: FrontInv(st, job))
  }

  lemma InitialInv(maxJobs: int)
    ensures Inv(maxJobs, Initial())
  {
  }

  lemma TableStep(maxJobs: int, st: State, step: Step)
    requires Inv(maxJobs, st) && Enabled(maxJobs, st, step)
    ensures TableInv(maxJobs, Do(maxJobs, st, step))
  {
    hide AgeInv, StageInv, FrontInv, NameInv;
    match step {
      case Check => NoMoreThanEntries(st.started, st.table);
      case Delete(job) => TableDelete(maxJobs, st, job);
      case Notify(job) => TableNotify(maxJobs, st, job);
      case Push => TablePush(maxJobs, st);
      case Insert(id, queue) => TableInsert(maxJobs, st, id, queue);
      case Receive => TableReceive(maxJobs, st);
      case _ =>
    }
  }

  lemma TableInsert(maxJobs: int, st: State, id: string, queue: string)
    requires Inv(maxJobs, st) && Enabled(maxJobs, st, Insert(id, queue))
    ensures TableInv(maxJobs, Do(maxJobs, st, Insert(id, queue)))
  {
    hide AgeInv, StageInv, FrontInv, NameInv;
    var st' := Do(maxJobs, st, Insert(id, queue));
    assert forall job :: Listed(st, job) ==> Listed(st', job);
  }

  lemma TableReceive(maxJobs: int, st: State)
    requires Inv(maxJobs, st) && Enabled(maxJobs, st, Receive)
    ensures TableInv(maxJobs, Do(maxJobs, st, Receive))
  {
    hide AgeInv, StageInv, FrontInv, NameInv;
    var st' := Do(maxJobs, st, Receive);
    assert forall job :: Listed(st, job) <==> Listed(st', job);
  }

  lemma TablePush(maxJobs: int, st: State)
    requires Inv(maxJobs, st) && Enabled(maxJobs, st, Push)
    ensures TableInv(maxJobs, Do(maxJobs, st, Push))
  {
    hide AgeInv, StageInv, FrontInv;
  }

  lemma TableDelete(maxJobs: int, st: State, job: Job)
    requires Inv(maxJobs, st) && Enabled(maxJobs, st, Delete(job))
    ensures TableInv(maxJobs, Do(maxJobs, st, Delete(job)))
  {
    forall name, i | name in st.lists && 0 < i < |st.lists[name]| ensures st.lists[name][i].id != job.id {
      assert NameInv(st, name) && FrontInv(st, job);
      assert st.lists[name][0].uid < st.lists[name][i].uid;
      assert Listed(st, st.lists[name][i]) && Listed(st, job);
    }
  }

  lemma TableNotify(maxJobs: int, st: State, job: Job)
    requires Inv(maxJobs, st) && Enabled(maxJobs, st, Notify(job))
    ensures TableInv(maxJobs, Do(maxJobs, st, Notify(job)))
  {
    var st' := Do(maxJobs, st, Notify(job));
    forall name, i | name in st'.lists && 0 < i < |st'.lists[name]| ensures Listed(st, st'.lists[name][i]) {
      assert name == job.queue ==> st'.lists[name][i] == st.lists[name][i + 1];
    }
  }

  lemma ActiveAge(maxJobs: int, st: State, step: Step, job: Job)
    requires Inv(maxJobs, st) && Enabled(maxJobs, st, step) && Active(Do(maxJobs, st, step), job)
    ensures job.uid < Bound(Do(maxJobs, st, step))
  {
    hide TableInv, StageInv, NameInv, FrontInv;
    match step {
      case Push => assert Active(st, job) || job == st.factory.job;
      case Notify(j) => assert Active(st, job) || (j.queue in st.lists && job == st.lists[j.queue][1]);
      case _ => assert Active(st, job);
    }
  }

  lemma ListAge(maxJobs: int, st: State, step: Step, name: string, i: nat)
    requires Inv(maxJobs, st) && Enabled(maxJobs, st, step)
    requires var lists := Do(maxJobs, st, step).lists; name in lists && i < |lists[name]|
    ensures var st' := Do(maxJobs, st, step); st'.lists[name][i].uid < Bound(st')
  {
    hide TableInv, StageInv, NameInv, FrontInv;
    if step.Notify? && name == step.job.queue {
      assert Do(maxJobs, st, step).lists[name][i] == st.lists[name][i + 1];
    }
  }

  lemma AgeStep(maxJobs: int, st: State, step: Step)
    requires Inv(maxJobs, st) && Enabled(maxJobs, st, step)
    ensures AgeInv(Do(maxJobs, st, step))
  {
    hide TableInv, StageInv, NameInv, FrontInv;
    var st' := Do(maxJobs, st, step);
    forall job | Active(st', job) ensures job.uid < Bound(st') {
      ActiveAge(maxJobs, st, step, job);
    }
    forall name, i | name in st'.lists && 0 <= i < |st'.lists[name]| ensures st'.lists[name][i].uid < Bound(st') {
      ListAge(maxJobs, st, step, name, i);
    }
  }

  lemma StagePush(maxJobs: int, st: State)
    requires Inv(maxJobs, st) && Enabled(maxJobs, st, Push)
    ensures StageInv(Do(maxJobs, st, Push))
  {
    hide TableInv, NameInv, FrontInv;
    assert !Active(st, st.factory.job);
  }

  lemma StageNotify(maxJobs: int, st: State, j: Job)
    requires Inv(maxJobs, st) && Enabled(maxJobs, st, Notify(j))
    ensures StageInv(Do(maxJobs, st, Notify(j)))
  {
    hide TableInv, AgeInv;
    var name := j.queue;
    if name in st.lists && |st.lists[name]| > 1 {
      var next := st.lists[name][1];
      assert NameInv(st, name) && FrontInv(st, next);
      assert st.lists[name][0].uid < next.uid;
      assert !Active(st, next);
    }
  }

  lemma StageStep(maxJobs: int, st: State, step: Step)
    requires Inv(maxJobs, st) && Enabled(maxJobs, st, step)
    ensures StageInv(Do(maxJobs, st, step))
  {
    hide TableInv, AgeInv, NameInv, FrontInv;
    match step {
      case Push => StagePush(maxJobs, st);
      case Notify(j) => StageNotify(maxJobs, st, j);
      case _ =>
    }
  }

  lemma NamePush(maxJobs: int, st: State, name: string)
    requires Inv(maxJobs, st) && Enabled(maxJobs, st, Push)
    ensures NameInv(Do(maxJobs, st, Push), name)
  {
    var st' := Do(maxJobs, st, Push);
    assert NameInv(st, name);
    OfSnoc(st.pushed, st.factory.job, name);
  }

  /** Receiving takes the offered job off what is pending under its name, and nothing else. */
  lemma PendingReceive(maxJobs: int, st: State, name: string)
    requires Inv(maxJobs, st) && Enabled(maxJobs, st, Receive)
    ensures var job, st' := st.offer.job, Do(maxJobs, st, Receive);
      Pending(st, name) == (if name == job.queue then [job] else []) + Pending(st', name)
  {
    hide TableInv, AgeInv, StageInv;
    assert NameInv(st, name) && FrontInv(st, st.offer.job);
  }

  lemma NameReceive(maxJobs: int, st: State, name: string)
    requires Inv(maxJobs, st) && Enabled(maxJobs, st, Receive)
    ensures NameInv(Do(maxJobs, st, Receive), name)
  {
    hide TableInv, AgeInv, StageInv, Pending, Of;
    var job := st.offer.job;
    var st' := Do(maxJobs, st, Receive);
    assert NameInv(st, name);
    PendingReceive(maxJobs, st, name);
    OfSnoc(st.handed, job, name);
    assert forall x :: Active(st, x) ==> Active(st', x);
    var mine := if job.queue == name then [job] else [];
    assert Of(st.handed, name) + (mine + Pending(st', name)) == Of(st.handed, name) + mine + Pending(st', name);
  }

  lemma NameNotify(maxJobs: int, st: State, job: Job, name: string)
    requires Inv(maxJobs, st) && Enabled(maxJobs, st, Notify(job))
    ensures NameInv(Do(maxJobs, st, Notify(job)), name)
  {
    assert NameInv(st, name) && NameInv(st, job.queue) && FrontInv(st, job);
  }

  lemma NameDelete(maxJobs: int, st: State, job: Job, name: string)
    requires Inv(maxJobs, st) && Enabled(maxJobs, st, Delete(job))
    ensures NameInv(Do(maxJobs, st, Delete(job)), name)
  {
    assert NameInv(st, name);
  }

  lemma FrontNotify(maxJobs: int, st: State, j: Job, job: Job)
    requires Inv(maxJobs, st) && Enabled(maxJobs, st, Notify(j))
    ensures FrontInv(Do(maxJobs, st, Notify(j)), job)
  {
    assert NameInv(st, j.queue) && FrontInv(st, j) && FrontInv(st, job);
  }

  lemma FrontPush(maxJobs: int, st: State, job: Job)
    requires Inv(maxJobs, st) && Enabled(maxJobs, st, Push)
    ensures FrontInv(Do(maxJobs, st, Push), job)
  {
    assert FrontInv(st, job) && NameInv(st, job.queue);
  }

  lemma StepKeepsInv(maxJobs: int, st: State, step: Step)
    requires Inv(maxJobs, st) && Enabled(maxJobs, st, step)
    ensures Inv(maxJobs, Do(maxJobs, st, step))
  {
    TableStep(maxJobs, st, step);
    AgeStep(maxJobs, st, step);
    StageStep(maxJobs, st, step);
    var st' := Do(maxJobs, st, step);
    forall name ensures NameInv(st', name) {
      NameStep(maxJobs, st, step, name);
    }
    forall job ensures FrontInv(st', job) {
      FrontStep(maxJobs, st, step, job);
    }
  }

  lemma NameStep(maxJobs: int, st: State, step: Step, name: string)
    requires Inv(maxJobs, st) && Enabled(maxJobs, st, step)
    ensures NameInv(Do(maxJobs, st, step), name)
  {
    match step {
      case Push => NamePush(maxJobs, st, name);
      case Receive => NameReceive(maxJobs, st, name);
      case Delete(job) => NameDelete(maxJobs, st, job, name);
      case Notify(job) => NameNotify(maxJobs, st, job, name);
      case _ => assert NameInv(st, name);
    }
  }

  lemma FrontStep(maxJobs: int, st: State, step: Step, job: Job)
    requires Inv(maxJobs, st) && Enabled(maxJobs, st, step)
    ensures FrontInv(Do(maxJobs, st, step), job)
  {
    match step {
      case Push => FrontPush(maxJobs, st, job);
      case Notify(j) => FrontNotify(maxJobs, st, j, job);
      case _ => assert FrontInv(st, job);
    }
  }

  lemma {:induction false} RunKeepsInv(maxJobs: int, st: State, steps: seq<Step>)
    requires Inv(maxJobs, st) && Legal(maxJobs, st, steps)
    ensures Inv(maxJobs, Exec(maxJobs, st, steps))
    decreases |steps|
  {
    if steps != [] {
      StepKeepsInv(maxJobs, st, steps[0]);
      RunKeepsInv(maxJobs, Do(maxJobs, st, steps[0]), steps[1..]);
    }
  }

  // ---- the promises ---------------------------------------------------------------------------

  /** In every interleaving the jobs started and not yet removed number at most MaxJobs, although
      queued jobs may push the table itself past it. */
  lemma ConcurrencyBound(maxJobs: int, steps: seq<Step>)
    requires Legal(maxJobs, Initial(), steps)
    ensures |Exec(maxJobs, Initial(), steps).started| <= Max0(maxJobs)
  {
    InitialInv(maxJobs);
    RunKeepsInv(maxJobs, Initial(), steps);
  }

  /** Jobs of a named queue are on their way one at a time: from the offer on the channel until the
      Notify of their own cleanUp no other job of the name is offered, started or finishing. */
  lemma OneAtATime(maxJobs: int, steps: seq<Step>, a: Job, b: Job)
    requires Legal(maxJobs, Initial(), steps) && a.queue == b.queue != ""
    ensures var st := Exec(maxJobs, Initial(), steps);
      Active(st, a) && Active(st, b) ==> a == b
  {
    InitialInv(maxJobs);
    RunKeepsInv(maxJobs, Initial(), steps);
    var st := Exec(maxJobs, Initial(), steps);
    assert FrontInv(st, a) && FrontInv(st, b);
  }

  /** What Notify removes from a named queue is the job that has just finished. */
  lemma NotifyRemovesFinished(maxJobs: int, steps: seq<Step>, job: Job)
    requires Legal(maxJobs, Initial(), steps) && job.queue != ""
    ensures var st := Exec(maxJobs, Initial(), steps);
      job in st.finishing ==> job.queue in st.lists && st.lists[job.queue] != [] && st.lists[job.queue][0] == job
  {
    InitialInv(maxJobs);
    RunKeepsInv(maxJobs, Initial(), steps);
    assert FrontInv(Exec(maxJobs, Initial(), steps), job);
  }

  /** Under every name, jobs are handed out in push order, none left out. */
  lemma HandedInPushOrder(maxJobs: int, steps: seq<Step>, name: string)
    requires Legal(maxJobs, Initial(), steps)
    ensures var st := Exec(maxJobs, Initial(), steps);
      Of(st.handed, name) <= Of(st.pushed, name)
  {
    InitialInv(maxJobs);
    RunKeepsInv(maxJobs, Initial(), steps);
    assert NameInv(Exec(maxJobs, Initial(), steps), name);
  }

  ghost predicate Aging(jobs: seq<Job>) {
    forall i, j :: 0 <= i < j < |jobs| ==> jobs[i].uid < jobs[j].uid
  }

  lemma {:induction false} OfAging(jobs: seq<Job>, name: string)
    requires Aging(jobs)
    ensures Aging(Of(jobs, name))
    ensures forall job :: job in Of(jobs, name) ==> job in jobs
  {
    if jobs != [] {
      hide Of;
      var init, last := jobs[..|jobs| - 1], jobs[|jobs| - 1];
      assert jobs == init + [last];
      OfAging(init, name);
      OfSnoc(init, last, name);
      AgingSnoc(Of(init, name), last);
      assert Of(init, name) + [] == Of(init, name);
    }
  }

  lemma AgingSnoc(jobs: seq<Job>, last: Job)
    requires Aging(jobs)
    ensures (forall job :: job in jobs ==> job.uid < last.uid) ==> Aging(jobs + [last])
  {
    assert forall k :: 0 <= k < |jobs| ==> jobs[k] in jobs;
  }

  lemma {:induction false} OfHas(jobs: seq<Job>, i: nat)
    requires i < |jobs|
    ensures jobs[i] in Of(jobs, jobs[i].queue)
  {
    if i < |jobs| - 1 {
      OfHas(jobs[..|jobs| - 1], i);
    }
  }

  lemma {:induction false} OfRepeats(jobs: seq<Job>, i: nat, j: nat)
    requires i < j < |jobs| && jobs[i] == jobs[j]
    ensures !Aging(Of(jobs, jobs[i].queue))
    decreases |jobs|
  {
    var init, last := jobs[..|jobs| - 1], jobs[|jobs| - 1];
    var name := jobs[i].queue;
    if j == |jobs| - 1 {
      OfHas(init, i);
      var k :| 0 <= k < |Of(init, name)| && Of(init, name)[k] == jobs[i];
      assert Of(jobs, name)[k].uid == Of(jobs, name)[|Of(init, name)|].uid;
    } else {
      OfRepeats(init, i, j);
      var a, b :| 0 <= a < b < |Of(init, name)| && Of(init, name)[a].uid >= Of(init, name)[b].uid;
      assert Of(jobs, name)[a].uid >= Of(jobs, name)[b].uid;
    }
  }

  /** No job is handed out twice. */
  lemma HandedOnce(maxJobs: int, steps: seq<Step>, i: nat, j: nat)
    requires Legal(maxJobs, Initial(), steps)
    ensures var handed := Exec(maxJobs, Initial(), steps).handed;
      i < j < |handed| ==> handed[i] != handed[j]
  {
    InitialInv(maxJobs);
    RunKeepsInv(maxJobs, Initial(), steps);
    var st := Exec(maxJobs, Initial(), steps);
    if i < j < |st.handed| && st.handed[i] == st.handed[j] {
      var name := st.handed[i].queue;
      OfAging(st.pushed, name);
      assert NameInv(st, name);
      var all := Of(st.pushed, name);
      assert forall k :: 0 <= k < |Of(st.handed, name)| ==> Of(st.handed, name)[k] == all[k];
      OfRepeats(st.handed, i, j);
      assert false;
    }
  }

  // ---- the table itself ------------------------------------------------------------------------

  ghost function Id(n: nat): string {
    seq(n, _ => 'x')
  }

  /** A job of queue `q` is out, so further ones pile up in the table. */
  ghost predicate Piling(st: State, n: nat) {
    && st.factory.Idle? && st.offer.Nothing? && "q" in st.lists && st.lists["q"] != []
    && |st.table| == n && forall id :: id in st.table ==> |id| < n
  }

  lemma StepFirst(maxJobs: int, st: State, step: Step, more: seq<Step>)
    requires Enabled(maxJobs, st, step) && Legal(maxJobs, Do(maxJobs, st, step), more)
    ensures Legal(maxJobs, st, [step] + more)
    ensures Exec(maxJobs, st, [step] + more) == Exec(maxJobs, Do(maxJobs, st, step), more)
  {
    assert ([step] + more)[1..] == more;
  }

  lemma {:induction false} Pile(maxJobs: int, st: State, n: nat, m: nat) returns (steps: seq<Step>)
    requires Piling(st, n)
    ensures Legal(maxJobs, st, steps) && |Exec(maxJobs, st, steps).table| == n + m
    decreases m
  {
    if m == 0 {
      steps := [];
    } else {
      hide Legal, Exec;
      var s1 := Do(maxJobs, st, Insert(Id(n), "q"));
      var s2 := Do(maxJobs, s1, Push);
      assert s1.table.Keys == st.table.Keys + {Id(n)};
      steps := Pile(maxJobs, s2, n + 1, m - 1);
      StepFirst(maxJobs, s1, Push, steps);
      StepFirst(maxJobs, st, Insert(Id(n), "q"), [Push] + steps);
      steps := [Insert(Id(n), "q")] + ([Push] + steps);
    }
  }

  /** The bound is on started jobs only: behind a job of a named queue the table grows to any size. */
  lemma TablePassesBound(maxJobs: int, size: nat) returns (steps: seq<Step>)
    requires maxJobs > 0 && size > 0
    ensures Legal(maxJobs, Initial(), steps) && |Exec(maxJobs, Initial(), steps).table| == size
  {
    hide Legal, Exec;
    var insert := Insert(Id(0), "q");
    var s1 := Do(maxJobs, Initial(), Check);
    var s2 := Do(maxJobs, s1, insert);
    var s3 := Do(maxJobs, s2, Push);
    var s4 := Do(maxJobs, s3, Receive);
    assert s2.table.Keys == {Id(0)};
    steps := Pile(maxJobs, s4, 1, size - 1);
    StepFirst(maxJobs, s3, Receive, steps);
    steps := [Receive] + steps;
    StepFirst(maxJobs, s2, Push, steps);
    steps := [Push] + steps;
    StepFirst(maxJobs, s1, insert, steps);
    steps := [insert] + steps;
    StepFirst(maxJobs, Initial(), Check, steps);
    steps := [Check] + steps;
  }

  // ---- when a job on offer is never received ----------------------------------------------------

  /** No continuation hands out a job any more. */
  ghost predicate NeverReceived(maxJobs: int, st: State) {
    forall more :: Legal(maxJobs, st, more) ==> Exec(maxJobs, st, more).handed == st.handed
  }

  /** Entries that cannot leave the table while a send is blocked: started jobs can leave it unless a
      `RunFactory` call holds the lock. */
  ghost function Left(st: State): int {
    |st.table| - if st.factory.Idle? then |st.started| else 0
  }

  /** The dispatcher will not get past its test: the table stays full, or it sleeps, or is about to, and
      no broadcast is owed that could wake it. */
  ghost predicate Jammed(maxJobs: int, st: State) {
    !st.gate.Passed? && (Left(st) >= maxJobs || (!st.gate.Testing? && st.owing == {}))
  }

  lemma DeleteKeepsLeft(maxJobs: int, st: State, job: Job)
    requires Inv(maxJobs, st) && Enabled(maxJobs, st, Delete(job))
    ensures Left(Do(maxJobs, st, Delete(job))) == Left(st)
  {
    hide AgeInv, StageInv, NameInv, FrontInv;
    assert Listed(st, job);
    assert (st.table - {job.id}).Keys == st.table.Keys - {job.id};
  }

  lemma InsertGrowsLeft(maxJobs: int, st: State, id: string, queue: string)
    requires Enabled(maxJobs, st, Insert(id, queue))
    ensures Left(Do(maxJobs, st, Insert(id, queue))) > Left(st)
  {
    assert st.table[id := Job(st.nextUid, id, queue)].Keys == st.table.Keys + {id};
  }

  lemma SameLeft(st: State, st': State)
    ensures Left(st) <= |st.table| && (!st.factory.Idle? || st.started == {} ==> Left(st) == |st.table|)
    ensures st.table == st'.table && st.factory == st'.factory && st.started == st'.started ==> Left(st) == Left(st')
  {
  }

  lemma JamStep(maxJobs: int, st: State, step: Step)
    requires Inv(maxJobs, st) && st.offer.Send? && Jammed(maxJobs, st) && Enabled(maxJobs, st, step)
    ensures var st' := Do(maxJobs, st, step); st'.offer.Send? && Jammed(maxJobs, st') && st'.handed == st.handed
  {
    hide Inv, Left;
    SameLeft(st, Do(maxJobs, st, step));
    match step {
      case Delete(job) => DeleteKeepsLeft(maxJobs, st, job);
      case Insert(id, queue) => InsertGrowsLeft(maxJobs, st, id, queue);
      case _ =>
    }
  }

  lemma {:induction false} JamLasts(maxJobs: int, st: State, more: seq<Step>)
    requires Inv(maxJobs, st) && st.offer.Send? && Jammed(maxJobs, st) && Legal(maxJobs, st, more)
    ensures Exec(maxJobs, st, more).handed == st.handed
    decreases |more|
  {
    hide Inv, Do, Enabled, Jammed;
    if more != [] {
      JamStep(maxJobs, st, more[0]);
      StepKeepsInv(maxJobs, st, more[0]);
      JamLasts(maxJobs, Do(maxJobs, st, more[0]), more[1..]);
    }
  }

  lemma ReceivedNow(maxJobs: int, st: State)
    requires Enabled(maxJobs, st, Receive)
    ensures !NeverReceived(maxJobs, st)
  {
    RunEnds(maxJobs, Do(maxJobs, st, Receive));
    StepFirst(maxJobs, st, Receive, []);
    assert |Exec(maxJobs, st, [Receive] + []).handed| > |st.handed|;
  }

  lemma ReceivedLater(maxJobs: int, st: State, step: Step)
    requires Enabled(maxJobs, st, step) && Do(maxJobs, st, step).handed == st.handed
    requires !NeverReceived(maxJobs, Do(maxJobs, st, step))
    ensures !NeverReceived(maxJobs, st)
  {
    hide Do, Enabled;
    var st' := Do(maxJobs, st, step);
    var more :| Legal(maxJobs, st', more) && Exec(maxJobs, st', more).handed != st'.handed;
    StepFirst(maxJobs, st, step, more);
  }

  ghost function Rank(gate: Gate): nat {
    match gate
    case SeenFull => 3
    case Asleep => 2
    case Testing => 1
    case Passed => 0
  }

  /** The next step towards the receive. */
  lemma TowardsReceive(maxJobs: int, st: State) returns (step: Step)
    requires Inv(maxJobs, st) && st.offer.Send? && !Jammed(maxJobs, st) && !st.gate.Passed?
    ensures Enabled(maxJobs, st, step)
    ensures var st' := Do(maxJobs, st, step);
      && st'.offer.Send? && !Jammed(maxJobs, st') && st'.handed == st.handed
      && (|st'.started| < |st.started| || (|st'.started| == |st.started| && Rank(st'.gate) < Rank(st.gate)))
  {
    hide Inv, Left;
    SameLeft(st, st);
    if st.factory.Idle? && st.started != {} {
      var job :| job in st.started;
      step := Delete(job);
      DeleteKeepsLeft(maxJobs, st, job);
    } else {
      step := Check;
      if st.gate.SeenFull? {
        step := Sleep;
      } else if st.gate.Asleep? {
        var job :| job in st.owing;
        step := Broadcast(job);
      }
      SameLeft(st, Do(maxJobs, st, step));
    }
  }

  /** Unless it is jammed the job on offer can be received: started jobs leave the table, the dispatcher
      is woken, finds room and receives. */
  lemma {:induction false} CanBeReceived(maxJobs: int, st: State)
    requires Inv(maxJobs, st) && st.offer.Send? && !Jammed(maxJobs, st)
    ensures !NeverReceived(maxJobs, st)
    decreases |st.started|, Rank(st.gate)
  {
    hide Inv, NeverReceived, Jammed, Do;
    if st.gate.Passed? {
      ReceivedNow(maxJobs, st);
    } else {
      var step := TowardsReceive(maxJobs, st);
      StepKeepsInv(maxJobs, st, step);
      CanBeReceived(maxJobs, Do(maxJobs, st, step));
      ReceivedLater(maxJobs, st, step);
    }
  }

  /** In every interleaving a job that is on offer is never received, whatever happens next, exactly when
      the scheduler is jammed. */
  lemma JamIff(maxJobs: int, steps: seq<Step>)
    requires Legal(maxJobs, Initial(), steps)
    ensures var st := Exec(maxJobs, Initial(), steps);
      st.offer.Send? ==> (NeverReceived(maxJobs, st) <==> Jammed(maxJobs, st))
  {
    InitialInv(maxJobs);
    RunKeepsInv(maxJobs, Initial(), steps);
    hide Inv, Jammed;
    var st := Exec(maxJobs, Initial(), steps);
    if st.offer.Send? {
      if Jammed(maxJobs, st) {
        forall more | Legal(maxJobs, st, more) ensures Exec(maxJobs, st, more).handed == st.handed {
          JamLasts(maxJobs, st, more);
        }
      } else {
        CanBeReceived(maxJobs, st);
      }
    }
  }

  /** The dispatcher sleeps, or is about to, and no job is left whose end could wake it. */
  ghost predicate SleepsForGood(st: State) {
    (st.gate.SeenFull? || st.gate.Asleep?) && st.started == {} && st.finishing == {} && st.owing == {}
  }

  /** Then no job is ever handed out again, those not submitted yet included. */
  lemma {:induction false} NothingIsHanded(maxJobs: int, st: State, more: seq<Step>)
    requires SleepsForGood(st) && Legal(maxJobs, st, more)
    ensures Exec(maxJobs, st, more).handed == st.handed && SleepsForGood(Exec(maxJobs, st, more))
    decreases |more|
  {
    if more != [] {
      NothingIsHanded(maxJobs, Do(maxJobs, st, more[0]), more[1..]);
    }
  }

  lemma RunEnds(maxJobs: int, st: State)
    ensures Legal(maxJobs, st, []) && Exec(maxJobs, st, []) == st
  {
  }

  // ---- three ways into a jam ----------------------------------------------------------------------

  ghost predicate Reaches(maxJobs: int, st: State, goal: State) {
    exists steps :: Legal(maxJobs, st, steps) && Exec(maxJobs, st, steps) == goal
  }

  lemma ReachesItself(maxJobs: int, st: State)
    ensures Reaches(maxJobs, st, st)
  {
    RunEnds(maxJobs, st);
  }

  lemma ReachesAfter(maxJobs: int, st: State, step: Step, goal: State)
    requires Enabled(maxJobs, st, step) && Reaches(maxJobs, Do(maxJobs, st, step), goal)
    ensures Reaches(maxJobs, st, goal)
  {
    hide Do, Enabled;
    var st' := Do(maxJobs, st, step);
    var more :| Legal(maxJobs, st', more) && Exec(maxJobs, st', more) == goal;
    StepFirst(maxJobs, st, step, more);
  }

  lemma {:induction false} RunJoins(maxJobs: int, st: State, first: seq<Step>, more: seq<Step>)
    requires Legal(maxJobs, st, first) && Legal(maxJobs, Exec(maxJobs, st, first), more)
    ensures Legal(maxJobs, st, first + more)
    ensures Exec(maxJobs, st, first + more) == Exec(maxJobs, Exec(maxJobs, st, first), more)
    decreases |first|
  {
    hide Do, Enabled;
    if first == [] {
      assert first + more == more;
    } else {
      RunJoins(maxJobs, Do(maxJobs, st, first[0]), first[1..], more);
      assert (first + more)[1..] == first[1..] + more;
    }
  }

  lemma ReachesOn(maxJobs: int, st: State, mid: State, goal: State)
    requires Reaches(maxJobs, st, mid) && Reaches(maxJobs, mid, goal)
    ensures Reaches(maxJobs, st, goal)
  {
    var first :| Legal(maxJobs, st, first) && Exec(maxJobs, st, first) == mid;
    var more :| Legal(maxJobs, mid, more) && Exec(maxJobs, mid, more) == goal;
    RunJoins(maxJobs, st, first, more);
  }

  /** A state of some run with a job on offer that no continuation receives. */
  ghost predicate Jam(maxJobs: int, st: State) {
    Reaches(maxJobs, Initial(), st) && st.offer.Send? && NeverReceived(maxJobs, st)
  }

  lemma ReachedJam(maxJobs: int, st: State)
    requires Reaches(maxJobs, Initial(), st) && st.offer.Send? && Jammed(maxJobs, st)
    ensures Jam(maxJobs, st)
  {
    hide NeverReceived, Jammed;
    var steps :| Legal(maxJobs, Initial(), steps) && Exec(maxJobs, Initial(), steps) == st;
    JamIff(maxJobs, steps);
  }

  /** One job allowed: it fills the table, and a second call blocks in its send with the table lock held,
      so that the first job can never leave. */
  ghost function BlockedInPush(): State {
    var a, b := Job(0, "a", ""), Job(1, "b", "");
    State(map["a" := a, "b" := b], Pushing(b), map[], Send(b), Testing, {a}, {}, None, {}, 2, [a, b], [a])
  }

  lemma ReachesBlockedInPush()
    ensures Reaches(1, Initial(), BlockedInPush())
  {
    hide Reaches;
    var s0 := Initial();
    var s1 := Do(1, s0, Check);
    var s2 := Do(1, s1, Insert("a", ""));
    var s3 := Do(1, s2, Push);
    var s4 := Do(1, s3, Receive);
    var s5 := Do(1, s4, Insert("b", ""));
    var s6 := Do(1, s5, Push);
    assert s6 == BlockedInPush();
    ReachesItself(1, s6);
    ReachesAfter(1, s5, Push, BlockedInPush());
    ReachesAfter(1, s4, Insert("b", ""), BlockedInPush());
    ReachesAfter(1, s3, Receive, BlockedInPush());
    ReachesAfter(1, s2, Push, BlockedInPush());
    ReachesAfter(1, s1, Insert("a", ""), BlockedInPush());
    ReachesAfter(1, s0, Check, BlockedInPush());
  }

  lemma PushJams()
    ensures Jam(1, BlockedInPush()) && !BlockedInPush().factory.Idle?
  {
    ReachesBlockedInPush();
    assert |BlockedInPush().table.Keys| == |{"a", "b"}|;
    ReachedJam(1, BlockedInPush());
  }

  /** One job allowed: the next job of its queue is offered by its Notify, and nobody is left whose end
      would make room. */
  ghost function BlockedInNotify(): State {
    var a, b := Job(0, "a", "q"), Job(1, "b", "q");
    State(map["b" := b], Idle, map["q" := [b]], Send(b), Testing, {}, {}, Some(a), {}, 2, [a, b], [a])
  }

  ghost function QueuedBehind(): State {
    var a, b := Job(0, "a", "q"), Job(1, "b", "q");
    State(map["a" := a, "b" := b], Idle, map["q" := [a, b]], Nothing, Testing, {a}, {}, None, {}, 2, [a, b], [a])
  }

  lemma ReachesQueuedBehind()
    ensures Reaches(1, Initial(), QueuedBehind())
  {
    hide Reaches;
    var s0 := Initial();
    var s1 := Do(1, s0, Check);
    var s2 := Do(1, s1, Insert("a", "q"));
    var s3 := Do(1, s2, Push);
    var s4 := Do(1, s3, Receive);
    var s5 := Do(1, s4, Insert("b", "q"));
    var s6 := Do(1, s5, Push);
    assert s6.lists.Keys == {"q"} && s6.lists["q"] == [Job(0, "a", "q"), Job(1, "b", "q")];
    assert s6 == QueuedBehind();
    ReachesItself(1, s6);
    ReachesAfter(1, s5, Push, QueuedBehind());
    ReachesAfter(1, s4, Insert("b", "q"), QueuedBehind());
    ReachesAfter(1, s3, Receive, QueuedBehind());
    ReachesAfter(1, s2, Push, QueuedBehind());
    ReachesAfter(1, s1, Insert("a", "q"), QueuedBehind());
    ReachesAfter(1, s0, Check, QueuedBehind());
  }

  lemma ReachesBlockedInNotify()
    ensures Reaches(1, QueuedBehind(), BlockedInNotify())
  {
    hide Reaches;
    var s0 := QueuedBehind();
    var s1 := Do(1, s0, Delete(Job(0, "a", "q")));
    var s2 := Do(1, s1, Notify(Job(0, "a", "q")));
    assert s2 == BlockedInNotify();
    ReachesItself(1, s2);
    ReachesAfter(1, s1, Notify(Job(0, "a", "q")), BlockedInNotify());
    ReachesAfter(1, s0, Delete(Job(0, "a", "q")), BlockedInNotify());
  }

  lemma NotifyJams()
    ensures Jam(1, BlockedInNotify()) && BlockedInNotify().factory.Idle?
  {
    ReachesQueuedBehind();
    ReachesBlockedInNotify();
    ReachesOn(1, Initial(), QueuedBehind(), BlockedInNotify());
    assert |BlockedInNotify().table.Keys| == |{"b"}|;
    ReachedJam(1, BlockedInNotify());
  }

  /** Two jobs allowed: both leave and broadcast between the dispatcher's look at the full table and its
      falling asleep. The next job finds room in the table and nobody to receive it. */
  ghost function WakeupLost(): State {
    var a, c, b := Job(0, "a", ""), Job(1, "c", ""), Job(2, "b", "");
    State(map["b" := b], Pushing(b), map[], Send(b), Asleep, {}, {}, None, {}, 3, [a, c, b], [a, c])
  }

  ghost function TwoStarted(): State {
    var a, c := Job(0, "a", ""), Job(1, "c", "");
    State(map["a" := a, "c" := c], Idle, map[], Nothing, Testing, {a, c}, {}, None, {}, 2, [a, c], [a, c])
  }

  ghost function BothLeaving(): State {
    var a, c := Job(0, "a", ""), Job(1, "c", "");
    State(map[], Idle, map[], Nothing, SeenFull, {}, {}, None, {a, c}, 2, [a, c], [a, c])
  }

  lemma ReachesTwoStarted()
    ensures Reaches(2, Initial(), TwoStarted())
  {
    hide Reaches;
    var s0 := Initial();
    var s1 := Do(2, s0, Check);
    var s2 := Do(2, s1, Insert("a", ""));
    var s3 := Do(2, s2, Push);
    var s4 := Do(2, s3, Receive);
    assert |s4.table.Keys| == |{"a"}|;
    var s5 := Do(2, s4, Check);
    var s6 := Do(2, s5, Insert("c", ""));
    var s7 := Do(2, s6, Push);
    var s8 := Do(2, s7, Receive);
    assert s8 == TwoStarted();
    ReachesItself(2, s8);
    ReachesAfter(2, s7, Receive, TwoStarted());
    ReachesAfter(2, s6, Push, TwoStarted());
    ReachesAfter(2, s5, Insert("c", ""), TwoStarted());
    ReachesAfter(2, s4, Check, TwoStarted());
    ReachesAfter(2, s3, Receive, TwoStarted());
    ReachesAfter(2, s2, Push, TwoStarted());
    ReachesAfter(2, s1, Insert("a", ""), TwoStarted());
    ReachesAfter(2, s0, Check, TwoStarted());
  }

  ghost function BothFinishing(): State {
    var a, c := Job(0, "a", ""), Job(1, "c", "");
    State(map[], Idle, map[], Nothing, SeenFull, {}, {a, c}, None, {}, 2, [a, c], [a, c])
  }

  lemma ReachesBothFinishing()
    ensures Reaches(2, TwoStarted(), BothFinishing())
  {
    hide Reaches;
    var a, c := Job(0, "a", ""), Job(1, "c", "");
    assert |TwoStarted().table.Keys| == |{"a", "c"}|;
    var s1 := Do(2, TwoStarted(), SeeFull);
    var s2 := Do(2, s1, Delete(a));
    var s3 := Do(2, s2, Delete(c));
    assert s3.table == map[] && s3.started == {} && s3.finishing == {a, c};
    ReachesItself(2, s3);
    ReachesAfter(2, s2, Delete(c), s3);
    ReachesAfter(2, s1, Delete(a), s3);
    ReachesAfter(2, TwoStarted(), SeeFull, s3);
  }

  lemma ReachesBothLeaving()
    ensures Reaches(2, BothFinishing(), BothLeaving())
  {
    hide Reaches;
    var a, c := Job(0, "a", ""), Job(1, "c", "");
    var s1 := Do(2, BothFinishing(), Notify(a));
    var s2 := Do(2, s1, Notify(c));
    assert s2.finishing == {} && s2.owing == {a, c};
    ReachesItself(2, s2);
    ReachesAfter(2, s1, Notify(c), s2);
    ReachesAfter(2, BothFinishing(), Notify(a), s2);
  }

  lemma ReachesWakeupLost()
    ensures Reaches(2, BothLeaving(), WakeupLost())
  {
    hide Reaches;
    var s0 := BothLeaving();
    var s1 := Do(2, s0, Broadcast(Job(0, "a", "")));
    var s2 := Do(2, s1, Broadcast(Job(1, "c", "")));
    var s3 := Do(2, s2, Sleep);
    var s4 := Do(2, s3, Insert("b", ""));
    var s5 := Do(2, s4, Push);
    assert s5 == WakeupLost();
    ReachesItself(2, s5);
    ReachesAfter(2, s4, Push, WakeupLost());
    ReachesAfter(2, s3, Insert("b", ""), WakeupLost());
    ReachesAfter(2, s2, Sleep, WakeupLost());
    ReachesAfter(2, s1, Broadcast(Job(1, "c", "")), WakeupLost());
    ReachesAfter(2, s0, Broadcast(Job(0, "a", "")), WakeupLost());
  }

  lemma LostWakeupJams()
    ensures Jam(2, WakeupLost()) && |WakeupLost().table| < 2
  {
    hide Reaches;
    ReachesTwoStarted();
    ReachesBothFinishing();
    ReachesBothLeaving();
    ReachesWakeupLost();
    ReachesOn(2, Initial(), TwoStarted(), BothFinishing());
    ReachesOn(2, Initial(), BothFinishing(), BothLeaving());
    ReachesOn(2, Initial(), BothLeaving(), WakeupLost());
    assert |WakeupLost().table.Keys| == |{"b"}|;
    ReachedJam(2, WakeupLost());
  }
}
