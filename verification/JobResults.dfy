/** The result of a job field by field, read off the messages of its run, and when its restart loop
    stops. About `run` and `start` of base/pm/job.go. */
module JobResults {
  import opened Message
  import opened Jobs
  import opened Wrappers

  // ---- the fields of a result --------------------------------------------------------------------

  predicate HasLevel(ev: Event, level: nat) {
    ev.Got? && ev.msg.Seen().level == level
  }

  /** The text of the last at most `room` messages of a level, read from the back. */
  ghost function Tail(trace: seq<Event>, level: nat, room: nat): string {
    if trace == [] || room == 0 then ""
    else
      var rest, last := trace[..|trace| - 1], trace[|trace| - 1];
      if HasLevel(last, level) then Tail(rest, level, room - 1) + last.msg.text else Tail(rest, level, room)
  }

  ghost predicate IsResult(ev: Event) {
    ev.Got? && ev.msg.Seen().level in {20, 21, 22, 23, 30}
  }

  /** The last result-level message stands at `i`. */
  ghost predicate LastResultAt(trace: seq<Event>, i: int) {
    0 <= i < |trace| && IsResult(trace[i]) && forall j :: i < j < |trace| ==> !IsResult(trace[j])
  }

  lemma {:induction false} TailIsLastN(trace: seq<Event>, level: nat, room: nat)
    ensures Tail(trace, level, room) == Concat(LastTexts(trace, level, room))
    decreases |trace|
  {
    hide Read, LastN, Concat;
    if trace == [] || room == 0 {
      NoTexts(Texts(trace, level), room);
    } else {
      var rest, last := trace[..|trace| - 1], trace[|trace| - 1];
      if HasLevel(last, level) {
        TailIsLastN(rest, level, room - 1);
        OneMoreText(Texts(rest, level), last.msg.text, room);
      } else {
        TailIsLastN(rest, level, room);
        assert Texts(trace, level) == Texts(rest, level) + [] == Texts(rest, level);
      }
    }
  }

  lemma NoTexts(texts: seq<string>, room: nat)
    requires texts == [] || room == 0
    ensures Concat(LastN(texts, room)) == ""
  {
  }

  lemma OneMoreText(texts: seq<string>, text: string, room: nat)
    requires room > 0
    ensures Concat(LastN(texts + [text], room)) == Concat(LastN(texts, room - 1)) + text
  {
    var kept := LastN(texts, room - 1);
    assert LastN(texts + [text], room) == kept + [text];
    assert (kept + [text])[..|kept|] == kept;
  }

  ghost function LastTexts(trace: seq<Event>, level: nat, room: nat): seq<string> {
    LastN(Texts(trace, level), room)
  }

  lemma {:induction false} CriticalIsTail(trace: seq<Event>)
    ensures Tail(trace, 9, 1) == LastOr(Texts(trace, 9), "")
    decreases |trace|
  {
    TailIsLastN(trace, 9, 1);
    var texts := Texts(trace, 9);
    if texts != [] {
      assert LastN(texts, 1) == [texts[|texts| - 1]];
      assert [texts[|texts| - 1]][..0] == [];
    }
  }

  lemma {:induction false} LastResultIs(trace: seq<Event>, i: int)
    ensures LastResultAt(trace, i) ==> LastResult(trace) == (trace[i].msg.Seen().level, trace[i].msg.text)
    ensures (forall j :: 0 <= j < |trace| ==> !IsResult(trace[j])) ==> LastResult(trace) == (0, "")
    decreases |trace|
  {
    hide Read;
    if trace != [] && !IsResult(trace[|trace| - 1]) {
      LastResultIs(trace[..|trace| - 1], i);
    }
  }

  /** Standard output is the text of the last hundred messages of level 1, standard error that of level 2,
      critical the last text of level 9. */
  lemma OutputsOfResult(trace: seq<Event>, signalable: bool)
    requires trace != [] && IsExit(trace[|trace| - 1])
    ensures var r := ResultOf(trace, signalable);
      r.stdout == Tail(trace, 1, 100) && r.stderr == Tail(trace, 2, 100) && r.critical == Tail(trace, 9, 1)
  {
    hide Read, Tail, Texts, Concat, LastN, LastResult, LastOr, IsExit;
    TailIsLastN(trace, 1, 100);
    TailIsLastN(trace, 2, 100);
    CriticalIsTail(trace);
  }

  /** Level and data come from the last result-level message, and are empty without one. */
  lemma DataOfResult(trace: seq<Event>, signalable: bool, i: int)
    requires trace != [] && IsExit(trace[|trace| - 1])
    ensures var r := ResultOf(trace, signalable);
      && (LastResultAt(trace, i) ==> r.level == trace[i].msg.Seen().level && r.data == trace[i].msg.text)
      && ((forall j :: 0 <= j < |trace| ==> !IsResult(trace[j])) ==> r.level == 0 && r.data == "")
  {
    hide Read, Texts, Concat, LastN, LastResult, LastOr, IsExit;
    LastResultIs(trace, i);
  }

  /** The code is that of the exit message; the state is success on its success flag, else timeout after
      an earlier timer on a process that takes signals, else error. */
  lemma StateOfResult(before: seq<Event>, exit: Event, signalable: bool)
    requires IsExit(exit)
    ensures var r := ResultOf(before + [exit], signalable);
      && r.code == exit.msg.Seen().code && (r.state.StateSuccess? <==> exit.msg.Seen().success)
      && (r.state.StateTimeout? <==> !exit.msg.Seen().success && signalable && Timer in before)
  {
    hide Read, Texts, Concat, LastN, LastResult, LastOr;
    var trace := before + [exit];
    assert trace[|trace| - 1] == exit;
    assert Timer in trace <==> Timer in before;
  }

  /** Fewer texts than there is room for: the room makes no difference. */
  lemma {:induction false} RoomToSpare(trace: seq<Event>, level: nat, room: nat)
    requires |Texts(trace, level)| < room
    ensures Tail(trace, level, room) == Tail(trace, level, room - 1)
    decreases |trace|
  {
    if trace != [] {
      var rest, last := trace[..|trace| - 1], trace[|trace| - 1];
      RoomToSpare(rest, level, if HasLevel(last, level) then room - 1 else room);
    }
  }

  /** What a message of a level adds in front of the exit message, with room for it. */
  lemma MessageExtends(pre: seq<Event>, msg: Msg, exit: Event, level: nat, room: nat)
    requires IsExit(exit) && |Texts(pre + [exit], level)| < room
    ensures var own := if HasLevel(exit, level) then exit.msg.text else "";
      var text := if msg.Seen().level == level then msg.text else "";
      exists before ::
        && Tail(pre + [exit], level, room) == before + own
        && Tail(pre + [Got(msg), exit], level, room) == before + text + own
  {
    hide Read, Tail, IsExit, Texts;
    var left := if HasLevel(exit, level) then room - 1 else room;
    assert pre + [Got(msg), exit] == (pre + [Got(msg)]) + [exit];
    TailSnoc(pre, exit, level, room);
    TailSnoc(pre + [Got(msg)], exit, level, room);
    TextsSnoc(pre, exit, level);
    assert |Texts(pre, level)| < left;
    TailSnoc(pre, Got(msg), level, left);
    RoomToSpare(pre, level, left);
    var before := Tail(pre, level, left);
    assert before + "" == before;
  }

  lemma TailSnoc(trace: seq<Event>, ev: Event, level: nat, room: nat)
    requires room > 0
    ensures Tail(trace + [ev], level, room) ==
      if HasLevel(ev, level) then Tail(trace, level, room - 1) + ev.msg.text else Tail(trace, level, room)
  {
    assert (trace + [ev])[..|trace|] == trace;
  }

  lemma TextsSnoc(trace: seq<Event>, ev: Event, level: nat)
    ensures |Texts(trace + [ev], level)| == |Texts(trace, level)| + if HasLevel(ev, level) then 1 else 0
  {
    assert (trace + [ev])[..|trace|] == trace;
  }

  /** One more message in front of the exit: it adds its text to the output of its level, behind what was
      there before and in front of the text of the exit message, and leaves the other output, the code
      and the state alone. The exit message takes a place in the buffer of its level, so the room is
      counted with it. */
  lemma MessageBeforeExit(pre: seq<Event>, msg: Msg, exit: Event, signalable: bool)
    requires IsExit(exit) && |Texts(pre + [exit], 1)| < 100 && |Texts(pre + [exit], 2)| < 100
    ensures var r, more := ResultOf(pre + [exit], signalable), ResultOf(pre + [Got(msg), exit], signalable);
      && Grows(r.stdout, more.stdout, msg, exit, 1) && Grows(r.stderr, more.stderr, msg, exit, 2)
      && more.code == r.code && more.state == r.state
  {
    hide Read, Texts, Tail, IsExit, ResultOf;
    assert pre + [Got(msg), exit] == (pre + [Got(msg)]) + [exit];
    OutputsOfResult(pre + [exit], signalable);
    OutputsOfResult(pre + [Got(msg), exit], signalable);
    MessageExtends(pre, msg, exit, 1, 100);
    MessageExtends(pre, msg, exit, 2, 100);
    StateOfResult(pre, exit, signalable);
    StateOfResult(pre + [Got(msg)], exit, signalable);
    assert Timer in pre + [Got(msg)] <==> Timer in pre;
  }

  ghost predicate Grows(out: string, out': string, msg: Msg, exit: Event, level: nat)
    requires exit.Got?
  {
    var own := if HasLevel(exit, level) then exit.msg.text else "";
    var text := if HasLevel(Got(msg), level) then msg.text else "";
    exists before :: out == before + own && out' == before + text + own
  }

  /** One more message in front of an exit message that is itself neither critical nor a result: a critical
      one replaces the critical text, a result-level one level and data, and any other leaves them. */
  lemma DataBeforeExit(pre: seq<Event>, msg: Msg, exit: Event, signalable: bool)
    requires IsExit(exit) && !HasLevel(exit, 9) && !IsResult(exit)
    ensures var r, more := ResultOf(pre + [exit], signalable), ResultOf(pre + [Got(msg), exit], signalable);
      && more.critical == (if msg.Seen().level == 9 then msg.text else r.critical)
      && (if IsResult(Got(msg)) then more.level == msg.Seen().level && more.data == msg.text
          else more.level == r.level && more.data == r.data)
  {
    hide Read, Texts, Concat, LastN, LastResult, LastOr, Tail;
    var longer := pre + [Got(msg)];
    assert pre + [Got(msg), exit] == longer + [exit];
    OutputsOfResult(pre + [exit], signalable);
    OutputsOfResult(longer + [exit], signalable);
    TailSnoc(pre, exit, 9, 1);
    TailSnoc(longer, exit, 9, 1);
    TailSnoc(pre, Got(msg), 9, 1);
    NoRoom(pre);
    MessageAdds(pre, exit.msg);
    MessageAdds(longer, exit.msg);
    MessageAdds(pre, msg);
  }

  lemma NoRoom(trace: seq<Event>)
    ensures Tail(trace, 9, 0) == ""
  {
  }

  // ---- the backlog ---------------------------------------------------------------------------------

  lemma {:induction false} MessagesJoin(a: seq<Event>, b: seq<Event>, streamed: bool)
    ensures Messages(a + b, streamed) == Messages(a, streamed) + Messages(b, streamed)
    decreases |b|
  {
    hide Shown;
    if b == [] {
      assert a + b == a;
    } else {
      var n := |b| - 1;
      MessagesJoin(a, b[..n], streamed);
      assert (a + b)[..|a + b| - 1] == a + b[..n];
    }
  }

  /** A message stands in the backlog behind all earlier and in front of all later ones, with its text,
      level and exit flags, without its code, and marked as streamed if the command asks for it. */
  lemma ShownInOrder(pre: seq<Event>, msg: Msg, post: seq<Event>, streamed: bool)
    ensures var before, after := Messages(pre, streamed), Messages(post, streamed);
      exists shown: Msg ::
        && Messages(pre + [Got(msg)] + post, streamed) == before + [shown] + after
        && shown.text == msg.text && shown.Seen().code == 0 && shown.Seen().level == msg.Seen().level
        && shown.Seen().success == msg.Seen().success && shown.Seen().failure == msg.Seen().failure
        && shown.Seen().streamed == (streamed || msg.Seen().streamed)
  {
    hide Shown, Read, Messages;
    var shown := msg.(meta := Shown(msg.meta, streamed));
    ShownFields(msg.meta, streamed);
    OneMessage(msg, streamed);
    MessagesJoin(pre, [Got(msg)], streamed);
    MessagesJoin(pre + [Got(msg)], post, streamed);
  }

  lemma OneMessage(msg: Msg, streamed: bool)
    ensures Messages([Got(msg)], streamed) == [msg.(meta := Shown(msg.meta, streamed))]
  {
    hide Shown;
    assert [Got(msg)][..0] == [];
  }

  // ---- the restart loop ----------------------------------------------------------------------------

  /** The turns among the first `n` in which the command is not protected. */
  ghost function Plain(attempts: seq<Attempt>, n: nat): nat
    requires n <= |attempts|
  {
    if n == 0 then 0 else Plain(attempts, n - 1) + if attempts[n - 1].protected then 0 else 1
  }

  /** Nothing ended the loop in turn `i`: it was protected, or it was not unscheduled and did not succeed
      unless the command recurs. */
  ghost predicate Unended(cmd: Command, a: Attempt) {
    a.protected || (!a.unscheduled && (cmd.recurringPeriod > 0 || !a.result.state.StateSuccess?))
  }

  lemma {:induction false} PlainFailures(cmd: Command, attempts: seq<Attempt>, n: nat)
    requires n <= |attempts| && cmd.maxRestart > 0 && cmd.recurringPeriod <= 0
    requires forall i :: 0 <= i < n ==> attempts[i].protected || !attempts[i].result.state.StateSuccess?
    ensures Failures(cmd, attempts, n) == Plain(attempts, n)
  {
    if n > 0 {
      PlainFailures(cmd, attempts, n - 1);
    }
  }

  /** The loop is still going before turn `n`. */
  lemma {:induction false} StillGoing(cmd: Command, attempts: seq<Attempt>, n: nat)
    requires n <= |attempts|
    ensures (forall i :: 0 <= i < n ==> GoesOn(cmd, attempts, i)) <==>
      && (forall i :: 0 <= i < n ==> Unended(cmd, attempts[i]))
      && (cmd.recurringPeriod > 0 || Plain(attempts, n) < Limit(cmd))
    decreases n
  {
    if n > 0 {
      StillGoing(cmd, attempts, n - 1);
      assert (forall i :: 0 <= i < n ==> GoesOn(cmd, attempts, i)) <==>
        (forall i :: 0 <= i < n - 1 ==> GoesOn(cmd, attempts, i)) && GoesOn(cmd, attempts, n - 1);
      if cmd.maxRestart > 0 && cmd.recurringPeriod <= 0 && forall i :: 0 <= i < n ==> Unended(cmd, attempts[i]) {
        PlainFailures(cmd, attempts, n);
      }
    }
  }

  /** When a job of any command stops, protected and recurring ones included: never in a protected turn;
      when unscheduled; and, unless it recurs, at the first success or at the limit of max(1, MaxRestart)
      turns that are not protected. */
  lemma RestartIff(cmd: Command, attempts: seq<Attempt>, n: nat)
    ensures StopsAfter(cmd, attempts, n) <==>
      && 1 <= n <= |attempts| && !attempts[n - 1].protected
      && (forall i :: 0 <= i < n - 1 ==> Unended(cmd, attempts[i]))
      && (cmd.recurringPeriod > 0 || Plain(attempts, n) <= Limit(cmd))
      && (attempts[n - 1].unscheduled ||
          (cmd.recurringPeriod <= 0 &&
           (attempts[n - 1].result.state.StateSuccess? || Plain(attempts, n) == Limit(cmd))))
  {
    if 1 <= n <= |attempts| {
      StillGoing(cmd, attempts, n - 1);
      StillGoing(cmd, attempts, n);
      assert (forall i :: 0 <= i < n ==> GoesOn(cmd, attempts, i)) <==>
        (forall i :: 0 <= i < n - 1 ==> GoesOn(cmd, attempts, i)) && GoesOn(cmd, attempts, n - 1);
    }
  }
}
