/** One job: the event loop that turns a message trace into a result, and the restart loop around it.
    Models `run`, `start`, `Wait` and `Unschedule` of base/pm/job.go. */
module Jobs {
  import opened Wrappers
  import opened Message

  /** A message with its packed metadata word. */
  datatype Msg = Msg(text: string, meta: Meta) {
    /** The metadata as its readers see it. */
    function Seen(): Fields { Read(meta) }
  }

  /** What the select of the event loop receives. */
  datatype Event = Signal(sig: int) | Timer | Tick | Got(msg: Msg)

  datatype JobState = StateSuccess | StateError | StateTimeout

  datatype JobResult = JobResult(state: JobState, code: nat, level: nat, data: string,
                                 stdout: string, stderr: string, critical: string)

  datatype Spawn = Spawned | SpawnFailed(code: nat, reason: string)

  const STANDARD_STREAM_BUFFER_SIZE := 100
  const GENERIC_STREAM_BUFFER_SIZE := 10

  // ---- the result as a function of the trace -------------------------------------------------

  predicate IsExit(ev: Event) {
    ev.Got? && ev.msg.Seen().IsExit()
  }

  ghost predicate FirstExit(trace: seq<Event>, k: int) {
    0 <= k < |trace| && IsExit(trace[k]) && forall j :: 0 <= j < k ==> !IsExit(trace[j])
  }

  /** The texts of a level, in order of arrival. */
  ghost function Texts(trace: seq<Event>, level: nat): seq<string> {
    if trace == [] then []
    else
      var last := trace[|trace| - 1];
      Texts(trace[..|trace| - 1], level) + if last.Got? && last.msg.Seen().level == level then [last.msg.text] else []
  }

  /** Level and text of the last result-level message. */
  ghost function LastResult(trace: seq<Event>): (nat, string) {
    if trace == [] then (0, "")
    else
      var last := trace[|trace| - 1];
      if last.Got? && IsResultLevel(last.msg.Seen().level) then (last.msg.Seen().level, last.msg.text)
      else LastResult(trace[..|trace| - 1])
  }

  ghost function LastOr(texts: seq<string>, other: string): string {
    if texts == [] then other else texts[|texts| - 1]
  }

  ghost function ResultOf(trace: seq<Event>, signalable: bool): JobResult
    requires trace != [] && IsExit(trace[|trace| - 1])
  {
    var exit := trace[|trace| - 1].msg.Seen();
    JobResult(
      if exit.success then StateSuccess
      else if signalable && Timer in trace then StateTimeout
      else StateError,
      exit.code,
      LastResult(trace).0, LastResult(trace).1,
      Concat(LastN(Texts(trace, LEVEL_STDOUT), STANDARD_STREAM_BUFFER_SIZE)),
      Concat(LastN(Texts(trace, LEVEL_STDERR), STANDARD_STREAM_BUFFER_SIZE)),
      LastOr(Texts(trace, LEVEL_CRITICAL), ""))
  }

  /** What subscribers see of the metadata: no code, and the stream flag when the command asks for it. */
  function Shown(m: Meta, streamed: bool): Meta {
    if streamed then Set(Base(m), STREAM_FLAG) else Base(m)
  }

  /** The messages of a trace as they are shown. */
  ghost function Messages(trace: seq<Event>, streamed: bool): seq<Msg> {
    if trace == [] then []
    else
      var last := trace[|trace| - 1];
      Messages(trace[..|trace| - 1], streamed)
      + if last.Got? then [last.msg.(meta := Shown(last.msg.meta, streamed))] else []
  }

  /** The events the loop gets to see: all up to the first exit. */
  ghost function Consumed(spawn: Spawn, events: seq<Event>): seq<Event> {
    if spawn.SpawnFailed? then []
    else if exists k :: FirstExit(events, k) then
      var k: int :| FirstExit(events, k);
      events[..k + 1]
    else events
  }

  /** Level and exit flags survive in the word the subscribers see; the code does not. */
  lemma ShownFields(m: Meta, streamed: bool)
    ensures var seen := if streamed then Read(m).WithoutCode().Streamed() else Read(m).WithoutCode();
      Read(Shown(m, streamed)) == seen && Is(Shown(m, streamed), EXIT_FLAGS) == Read(m).IsExit()
  {
    hide Read, Is, Set, Base;
    BitsAreFields(m);
    BitsAreFields(Base(m));
    BitsAreFields(Shown(m, streamed));
  }

  // ---- the event loop ------------------------------------------------------------------------

  /** The variables of the event loop. */
  class Loop {
    var state: JobState
    var result: Option<Msg>
    var critical: string
    var stdout: Buffer<string>
    var stderr: Buffer<string>
    var backlog: Buffer<Msg>
    const streamed: bool
    ghost const earlier: seq<Msg>

    ghost predicate Valid()
      reads this, stdout, stderr, backlog
    {
      && stdout != stderr && stdout.Valid() && stderr.Valid() && backlog.Valid()
      && stdout.size == STANDARD_STREAM_BUFFER_SIZE && stderr.size == STANDARD_STREAM_BUFFER_SIZE
      && backlog.size == GENERIC_STREAM_BUFFER_SIZE
    }

    /** The variables after the events of `trace`, none of which was an exit. */
    ghost predicate After(trace: seq<Event>, signalable: bool)
      reads this, stdout, stderr, backlog
    {
      && Valid()
      && state == (if signalable && Timer in trace then StateTimeout else StateError)
      && Collected(trace) && Remembered(trace)
    }

    /** The backlog of the job: the last messages of all its runs, as the subscribers see them. */
    ghost predicate Remembered(trace: seq<Event>)
      reads this, backlog
    {
      backlog.list == LastN(earlier + Messages(trace, streamed), GENERIC_STREAM_BUFFER_SIZE)
    }

    ghost predicate Collected(trace: seq<Event>)
      reads this, stdout, stderr
    {
      && stdout.list == LastN(Texts(trace, LEVEL_STDOUT), STANDARD_STREAM_BUFFER_SIZE)
      && stderr.list == LastN(Texts(trace, LEVEL_STDERR), STANDARD_STREAM_BUFFER_SIZE)
      && critical == LastOr(Texts(trace, LEVEL_CRITICAL), "")
      && LastResult(trace) == (if result.Some? then (result.value.Seen().level, result.value.text) else (0, ""))
    }

    constructor (streamed: bool, earlier: seq<Msg>)
      requires |earlier| <= GENERIC_STREAM_BUFFER_SIZE
      ensures After([], false) && After([], true) && this.streamed == streamed && this.earlier == earlier
      ensures fresh(stdout) && fresh(stderr) && fresh(backlog)
    {
      this.streamed, this.earlier := streamed, earlier;
      state := StateError;
      result := None;
      critical := "";
      stdout := new Buffer(STANDARD_STREAM_BUFFER_SIZE);
      stderr := new Buffer(STANDARD_STREAM_BUFFER_SIZE);
      backlog := new Buffer(GENERIC_STREAM_BUFFER_SIZE);
      new;
      backlog.list := earlier;
      assert earlier + Messages([], streamed) == earlier;
    }

    /** The if-chain over the level of a message. */
    method Classify(msg: Msg, ghost trace: seq<Event>)
      requires Valid() && Collected(trace)
      modifies this`result, this`critical, stdout, stderr
      ensures Valid() && Collected(trace + [Got(msg)])
    {
      hide Is, Code, Level, Set, Base, Shown, LastN, Texts, LastResult;
      MessageAdds(trace, msg);
      LastNStep(Texts(trace, LEVEL_STDOUT), msg.text, STANDARD_STREAM_BUFFER_SIZE);
      LastNStep(Texts(trace, LEVEL_STDERR), msg.text, STANDARD_STREAM_BUFFER_SIZE);
      ShownFields(msg.meta, streamed);
      var level := Level(msg.meta) as nat;
      if IsResultLevel(level) {
        result := Some(msg.(meta := Shown(msg.meta, streamed)));
      } else if level == LEVEL_STDOUT {
        stdout.Append(msg.text);
      } else if level == LEVEL_STDERR {
        stderr.Append(msg.text);
      } else if level == LEVEL_CRITICAL {
        critical := msg.text;
      }
    }

    /** One turn of the select; a result ends the loop. */
    method Turn(ev: Event, signalable: bool, ghost trace: seq<Event>) returns (r: Option<JobResult>)
      requires After(trace, signalable)
      modifies this, stdout, stderr, backlog
      ensures stdout == old(stdout) && stderr == old(stderr) && backlog == old(backlog)
      ensures backlog.Valid() && Remembered(trace + [ev])
      ensures IsExit(ev) ==> r == Some(ResultOf(trace + [ev], signalable))
      ensures !IsExit(ev) ==> r == None && After(trace + [ev], signalable)
    {
      r := None;
      match ev {
        case Signal(_) => NoMessage(trace, ev);
        case Tick => NoMessage(trace, ev);
        case Timer =>
          NoMessage(trace, ev);
          if signalable {
            state := StateTimeout;
          }
        case Got(msg) =>
          r := Receive(msg, signalable, trace);
      }
    }

    /** The backlog holds the message itself, whose metadata is rewritten for the subscribers. */
    method Remember(msg: Msg, ghost trace: seq<Event>)
      requires Valid() && Remembered(trace)
      modifies backlog
      ensures Valid() && Remembered(trace + [Got(msg)])
    {
      hide Shown, LastN, Messages;
      MessageRemembered(trace, msg, streamed, earlier);
      backlog.Append(msg.(meta := Shown(msg.meta, streamed)));
    }

    method Receive(msg: Msg, ghost signalable: bool, ghost trace: seq<Event>)
      returns (r: Option<JobResult>)
      requires After(trace, signalable)
      modifies this`state, this`result, this`critical, stdout, stderr, backlog
      ensures backlog.Valid() && Remembered(trace + [Got(msg)])
      ensures msg.Seen().IsExit() ==> r == Some(ResultOf(trace + [Got(msg)], signalable))
      ensures !msg.Seen().IsExit() ==> r == None && After(trace + [Got(msg)], signalable)
    {
      hide Is, Code, Level, Set, Base, Shown, Texts, LastN, LastResult, Concat, Messages;
      Remember(msg, trace);
      if Is(msg.meta, EXIT_SUCCESS_FLAG) {
        state := StateSuccess;
      }
      Classify(msg, trace);
      r := None;
      ShownFields(msg.meta, streamed);
      if Is(Shown(msg.meta, streamed), EXIT_FLAGS) {
        r := Finish(Code(msg.meta) as nat, trace + [Got(msg)], signalable);
      }
    }

    /** The result built behind the loop. */
    method Finish(code: nat, ghost trace: seq<Event>, ghost signalable: bool) returns (r: Option<JobResult>)
      requires Valid() && Collected(trace) && trace != [] && IsExit(trace[|trace| - 1])
      requires code == trace[|trace| - 1].msg.Seen().code
      requires state == ResultOf(trace, signalable).state
      ensures r == Some(ResultOf(trace, signalable))
    {
      var out := Text(stdout);
      var err := Text(stderr);
      var level, data := 0, "";
      if result.Some? {
        level, data := Level(result.value.meta) as nat, result.value.text;
      }
      r := Some(JobResult(state, code, level, data, out, err, critical));
    }
  }

  /** `run` after the fork: consumes events until the first exit-flagged message. Without one the
      loop is still waiting when the events end. */
  method Run(spawn: Spawn, events: seq<Event>, signalable: bool, streamed: bool, earlier: seq<Msg>)
    returns (r: Option<JobResult>, backlog: seq<Msg>)
    requires |earlier| <= GENERIC_STREAM_BUFFER_SIZE
    ensures spawn.SpawnFailed? ==> r == Some(JobResult(StateError, spawn.code, 0, spawn.reason, "", "", ""))
    ensures spawn.Spawned? ==>
      forall k :: FirstExit(events, k) ==> r == Some(ResultOf(events[..k + 1], signalable))
    ensures spawn.Spawned? && (forall k :: 0 <= k < |events| ==> !IsExit(events[k])) ==> r == None
    ensures backlog == LastN(earlier + Messages(Consumed(spawn, events), streamed), GENERIC_STREAM_BUFFER_SIZE)
  {
    if spawn.SpawnFailed? {
      assert earlier + Messages([], streamed) == earlier;
      return Some(JobResult(StateError, spawn.code, 0, spawn.reason, "", "", "")), earlier;
    }
    hide Read, ResultOf, Texts, LastN, LastResult, LastOr, Concat, IsExit, FirstExit, Messages, Consumed;
    var vars := new Loop(streamed, earlier);
    for i := 0 to |events|
      invariant fresh(vars) && fresh(vars.stdout) && fresh(vars.stderr) && fresh(vars.backlog)
      invariant vars.After(events[..i], signalable) && vars.streamed == streamed && vars.earlier == earlier
      invariant forall j :: 0 <= j < i ==> !IsExit(events[j])
    {
      assert events[..i + 1] == events[..i] + [events[i]];
      r := vars.Turn(events[i], signalable, events[..i]);
      if r.Some? {
        ExitIsFirst(events, i);
        return r, vars.backlog.list;
      }
    }
    NoExit(events);
    assert events[..|events|] == events;
    return None, vars.backlog.list;
  }

  lemma ExitIsFirst(events: seq<Event>, i: nat)
    requires i < |events| && IsExit(events[i]) && forall j :: 0 <= j < i ==> !IsExit(events[j])
    ensures forall k :: FirstExit(events, k) ==> k == i
    ensures Consumed(Spawned, events) == events[..i + 1]
  {
    hide IsExit;
    assert FirstExit(events, i);
  }

  lemma NoExit(events: seq<Event>)
    requires forall j :: 0 <= j < |events| ==> !IsExit(events[j])
    ensures (forall k :: !FirstExit(events, k)) && Consumed(Spawned, events) == events
  {
    hide IsExit;
  }

  lemma MessageRemembered(trace: seq<Event>, msg: Msg, streamed: bool, earlier: seq<Msg>)
    ensures var all, shown := earlier + Messages(trace, streamed), msg.(meta := Shown(msg.meta, streamed));
      LastN(LastN(all, GENERIC_STREAM_BUFFER_SIZE) + [shown], GENERIC_STREAM_BUFFER_SIZE) ==
        LastN(earlier + Messages(trace + [Got(msg)], streamed), GENERIC_STREAM_BUFFER_SIZE)
  {
    hide Shown, LastN;
    var shown := msg.(meta := Shown(msg.meta, streamed));
    assert (trace + [Got(msg)])[..|trace|] == trace;
    LastNStep(earlier + Messages(trace, streamed), shown, GENERIC_STREAM_BUFFER_SIZE);
    assert earlier + (Messages(trace, streamed) + [shown]) == earlier + Messages(trace, streamed) + [shown];
  }

  lemma MessageAdds(trace: seq<Event>, msg: Msg)
    ensures forall level :: level != msg.Seen().level ==> Texts(trace + [Got(msg)], level) == Texts(trace, level)
    ensures var level := msg.Seen().level; Texts(trace + [Got(msg)], level) == Texts(trace, level) + [msg.text]
    ensures LastResult(trace + [Got(msg)]) ==
      if IsResultLevel(msg.Seen().level) then (msg.Seen().level, msg.text) else LastResult(trace)
  {
    hide Read;
    var longer := trace + [Got(msg)];
    assert longer[..|longer| - 1] == trace && longer[|longer| - 1] == Got(msg);
    forall level ensures Texts(trace, level) + [] == Texts(trace, level) {
    }
  }

  lemma NoMessage(trace: seq<Event>, ev: Event)
    requires !ev.Got?
    ensures forall level :: Texts(trace + [ev], level) == Texts(trace, level)
    ensures LastResult(trace + [ev]) == LastResult(trace)
    ensures forall streamed :: Messages(trace + [ev], streamed) == Messages(trace, streamed)
  {
    assert (trace + [ev])[..|trace + [ev]| - 1] == trace;
  }

  // ---- the restart loop ------------------------------------------------------------------------

  datatype Command = Command(maxRestart: int, recurringPeriod: int)

  /** One turn of the loop in `start`: the result of the run, whether the protected flag is set when
      the run ends, and whether `Unschedule` wins over the restart delay. */
  datatype Attempt = Attempt(result: JobResult, protected: bool, unscheduled: bool)

  /** Failed runs that count towards MaxRestart among the first `n`. */
  function Failures(cmd: Command, attempts: seq<Attempt>, n: nat): nat
    requires n <= |attempts|
  {
    if n == 0 then 0
    else
      var a := attempts[n - 1];
      Failures(cmd, attempts, n - 1) +
      if !a.protected && !a.result.state.StateSuccess? && cmd.maxRestart > 0 then 1 else 0
  }

  /** The loop goes on after turn `i`. */
  predicate GoesOn(cmd: Command, attempts: seq<Attempt>, i: nat)
    requires i < |attempts|
  {
    var a := attempts[i];
    a.protected ||
    (!a.unscheduled &&
     (cmd.recurringPeriod > 0 ||
      (!a.result.state.StateSuccess? && cmd.maxRestart > 0 && Failures(cmd, attempts, i + 1) < cmd.maxRestart)))
  }

  /** `start` stops after exactly `n` runs. */
  ghost predicate StopsAfter(cmd: Command, attempts: seq<Attempt>, n: nat) {
    && 1 <= n <= |attempts| && !GoesOn(cmd, attempts, n - 1)
    && forall i :: 0 <= i < n - 1 ==> GoesOn(cmd, attempts, i)
  }

  /** The part of a job that waiters look at: `released` is the wait group at zero. */
  class Job {
    var result: Option<JobResult>
    var released: bool

    /** What a waiter relies on at every moment: released only behind a result. */
    ghost predicate Valid()
      reads this
    {
      released ==> result.Some?
    }

    constructor ()
      ensures Valid() && result == None && !released
    {
      result, released := None, false;
    }

    method Publish(r: JobResult)
      requires Valid() && result.None?
      modifies this`result
      ensures Valid() && result == Some(r) && !released
    {
      result := Some(r);
    }

    method ReleaseWaiters()
      requires Valid() && result.Some?
      modifies this`released
      ensures Valid() && released
    {
      released := true;
    }

    /** `Wait` looked at in one moment: nothing while it blocks, the published result once it is back. */
    method Wait() returns (r: Option<JobResult>)
      requires Valid()
      ensures r.Some? <==> released
      ensures released ==> r == result
    {
      r := if released then result else None;
    }

    /** `start`: runs until it may not go on, then publishes the last result, then frees the waiters.
        `stopped` is false while the attempts given do not end the loop. */
    method Start(cmd: Command, attempts: seq<Attempt>) returns (n: nat, stopped: bool)
      requires Valid() && result.None?
      modifies this
      ensures Valid() && (stopped <==> released) && (stopped <==> result.Some?)
      ensures stopped ==> StopsAfter(cmd, attempts, n) && result == Some(attempts[n - 1].result)
      ensures !stopped ==> n == |attempts| && forall i :: 0 <= i < |attempts| ==> GoesOn(cmd, attempts, i)
    {
      n := 0;
      var runs := 0;
      while n < |attempts|
        invariant 0 <= n <= |attempts| && runs == Failures(cmd, attempts, n)
        invariant forall i :: 0 <= i < n ==> GoesOn(cmd, attempts, i)
        invariant Valid() && result.None?
      {
        var a := attempts[n];
        n := n + 1;
        if a.protected {
          continue;
        }
        var restarting := false;
        if !a.result.state.StateSuccess? && cmd.maxRestart > 0 {
          runs := runs + 1;
          if runs < cmd.maxRestart {
            restarting := true;
          }
        }
        if cmd.recurringPeriod > 0 {
          restarting := true;
        }
        if !restarting || a.unscheduled {
          Publish(a.result);
          ReleaseWaiters();
          return n, true;
        }
      }
      return n, false;
    }
  }

  lemma {:induction false} AllFailed(cmd: Command, attempts: seq<Attempt>, n: nat)
    requires n <= |attempts| && cmd.maxRestart > 0
    requires forall i :: 0 <= i < n ==> !attempts[i].protected && !attempts[i].result.state.StateSuccess?
    ensures Failures(cmd, attempts, n) == n
  {
    if n > 0 {
      AllFailed(cmd, attempts, n - 1);
    }
  }

  function Limit(cmd: Command): nat {
    if cmd.maxRestart < 1 then 1 else cmd.maxRestart
  }

  /** A job neither protected nor recurring runs at least once and at most max(1, MaxRestart) times:
      it stops at the first success, at the limit, or when unscheduled, and at nothing else. */
  lemma RestartBound(cmd: Command, attempts: seq<Attempt>, n: nat)
    requires cmd.recurringPeriod <= 0 && forall i :: 0 <= i < |attempts| ==> !attempts[i].protected
    ensures StopsAfter(cmd, attempts, n) <==>
      && 1 <= n <= |attempts| && n <= Limit(cmd)
      && (forall i :: 0 <= i < n - 1 ==> !attempts[i].result.state.StateSuccess? && !attempts[i].unscheduled)
      && (attempts[n - 1].result.state.StateSuccess? || n == Limit(cmd) || attempts[n - 1].unscheduled)
  {
    if 1 <= n <= |attempts| {
      if cmd.maxRestart > 0 {
        forall i | 0 <= i <= n && (forall j :: 0 <= j < i ==> !attempts[j].result.state.StateSuccess?)
          ensures Failures(cmd, attempts, i) == i
        {
          AllFailed(cmd, attempts, i);
        }
      }
      FirstStop(cmd, attempts, n);
    }
  }

  /** Before the first stop every run failed, was not unscheduled and was below the limit. */
  lemma {:induction false} FirstStop(cmd: Command, attempts: seq<Attempt>, n: nat)
    requires 1 <= n <= |attempts|
    requires cmd.recurringPeriod <= 0 && forall i :: 0 <= i < |attempts| ==> !attempts[i].protected
    ensures (forall i :: 0 <= i < n - 1 ==> GoesOn(cmd, attempts, i)) <==>
      && n <= Limit(cmd)
      && forall i :: 0 <= i < n - 1 ==> !attempts[i].result.state.StateSuccess? && !attempts[i].unscheduled
    decreases n
  {
    if n > 1 {
      FirstStop(cmd, attempts, n - 1);
      if cmd.maxRestart > 0 && (forall i :: 0 <= i < n - 1 ==> !attempts[i].result.state.StateSuccess?) {
        AllFailed(cmd, attempts, n - 1);
      }
      assert GoesOn(cmd, attempts, n - 2) ==> !attempts[n - 2].result.state.StateSuccess?;
    }
  }

  /** With enough attempts such a job always stops. */
  lemma RestartStops(cmd: Command, attempts: seq<Attempt>)
    requires cmd.recurringPeriod <= 0 && forall i :: 0 <= i < |attempts| ==> !attempts[i].protected
    requires |attempts| >= Limit(cmd)
    ensures exists n: nat :: StopsAfter(cmd, attempts, n) && n <= Limit(cmd)
  {
    var n := 1;
    while GoesOn(cmd, attempts, n - 1) && n < Limit(cmd)
      invariant 1 <= n <= Limit(cmd) && forall i :: 0 <= i < n - 1 ==> GoesOn(cmd, attempts, i)
      decreases Limit(cmd) - n
    {
      n := n + 1;
    }
    FirstStop(cmd, attempts, n);
    if n == Limit(cmd) && cmd.maxRestart > 0 && !attempts[n - 1].result.state.StateSuccess? {
      AllFailed(cmd, attempts, n);
    }
    assert StopsAfter(cmd, attempts, n);
  }
}
