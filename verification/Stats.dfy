/** The statistics aggregator: readings folded into one running sample per duration, closed samples
    kept in a short history. Models apps/core0/stats/stats.go with reals for floats and caller-supplied
    times. */
module Stats {
  import opened Wrappers

  datatype Operation = Average | Differential

  datatype Sample = Sample(avg: real, total: real, max: real, count: nat, start: int)

  type Duration = d: int | d > 0 witness 1

  const EMPTY := Sample(0.0, 0.0, 0.0, 0, 0)
  const HISTORY_LENGTH := 5

  /** Start of the period a time lies in; integer division truncates toward zero. */
  function PeriodOf(now: int, duration: Duration): int
  {
    if now >= 0 then now / duration * duration else -((-now) / duration * duration)
  }

  lemma FloorOf(n: nat, d: Duration)
    ensures 0 <= n / d * d <= n < n / d * d + d
  {
    var q := n / d;
    assert n == q * d + n % d;
    assert q >= 0;
    MulMonotone(0, q, d);
  }

  lemma Opposite(q: int, d: Duration)
    ensures -(q * d) == (-q) * d
  {
  }

  ghost predicate IsMultiple(x: int, q: int, d: Duration) {
    x == q * d
  }

  /** A period starts at a multiple of its duration, the nearest one toward zero. */
  lemma PeriodTruncates(now: int, d: Duration)
    ensures exists q :: IsMultiple(PeriodOf(now, d), q, d)
    ensures now >= 0 ==> 0 <= PeriodOf(now, d) <= now < PeriodOf(now, d) + d
    ensures now < 0 ==> PeriodOf(now, d) - d < now <= PeriodOf(now, d) <= 0
  {
    if now >= 0 {
      FloorOf(now, d);
      assert IsMultiple(PeriodOf(now, d), now / d, d);
    } else {
      FloorOf(-now, d);
      var q := (-now) / d;
      Opposite(q, d);
      assert IsMultiple(PeriodOf(now, d), -q, d);
    }
  }

  // ---- what one reading does --------------------------------------------------------------

  /** The new running sample, and the old one when a period is closed. */
  function Fed(m: Sample, value: real, now: int, duration: Duration): (Sample, Option<Sample>)
  {
    var period := PeriodOf(now, duration);
    if period != 0 && m.start < period then
      (Sample(value, value, value, 1, period), Some(m))
    else
      (Sample((m.total + value) / (m.count + 1) as real, m.total + value,
              if value > m.max then value else m.max, m.count + 1,
              if m.start == 0 then period else m.start), None)
  }

  /** History with a closed sample added; a sample that never started is not kept. */
  function Logged(history: seq<Sample>, closed: Option<Sample>): seq<Sample> {
    if closed.None? || closed.value.start == 0 then history
    else LastN(history + [closed.value], HISTORY_LENGTH)
  }

  /** The aggregator as a value: per duration the running sample and the history. */
  datatype View = View(op: Operation, lastValue: real, lastTime: int,
                       current: map<Duration, Sample>, history: map<Duration, seq<Sample>>) {
    ghost function HistoryOf(d: Duration): seq<Sample> {
      if d in history then history[d] else []
    }
  }

  /** The value a reading contributes, if it contributes one. */
  function EffectiveValue(op: Operation, lastValue: real, lastTime: int, now: int, value: real): Option<real> {
    if lastTime == -1 then if op.Average? then Some(value) else None
    else if lastTime >= now then None
    else if op.Differential? then Some((value - lastValue) / (now - lastTime) as real)
    else Some(value)
  }

  // ---- the mutable aggregator --------------------------------------------------------------

  class Cell {
    var sample: Sample

    constructor ()
      ensures sample == EMPTY
    {
      sample := EMPTY;
    }

    /** `Sample.Feed`. */
    method Feed(value: real, now: int, duration: Duration) returns (update: Option<Sample>)
      modifies this
      ensures (sample, update) == Fed(old(sample), value, now, duration)
    {
      var period := PeriodOf(now, duration);
      if period != 0 && sample.start < period {
        update := Some(sample);
        sample := Sample(value, value, value, 1, period);
        return;
      }
      if sample.start == 0 {
        sample := sample.(start := period);
      }
      sample := sample.(total := sample.total + value, count := sample.count + 1);
      sample := sample.(avg := sample.total / sample.count as real);
      if value > sample.max {
        sample := sample.(max := value);
      }
      update := None;
    }
  }

  method NewCells(durations: set<Duration>) returns (cells: map<Duration, Cell>)
    ensures cells.Keys == durations
    ensures forall d :: d in cells ==> fresh(cells[d]) && cells[d].sample == EMPTY
    ensures forall d, e :: d in cells && e in cells && d != e ==> cells[d] != cells[e]
  {
    cells := map[];
    var todo := durations;
    while todo != {}
      invariant todo <= durations && cells.Keys == durations - todo
      invariant forall d :: d in cells ==> fresh(cells[d]) && cells[d].sample == EMPTY
      invariant forall d, e :: d in cells && e in cells && d != e ==> cells[d] != cells[e]
      decreases todo
    {
      var d :| d in todo;
      var cell := new Cell();
      cells := cells[d := cell];
      todo := todo - {d};
    }
  }

  class State {
    const op: Operation
    var lastValue: real
    var lastTime: int
    var current: map<Duration, Cell>
    var history: map<Duration, seq<Sample>>

    ghost predicate Valid()
      reads this
    {
      forall d, e :: d in current && e in current && d != e ==> current[d] != current[e]
    }

    ghost function Look(): View
      reads this, current.Values
    {
      View(op, lastValue, lastTime, map d | d in current :: current[d].sample, history)
    }

    /** `NewState`. */
    constructor (op: Operation, durations: set<Duration>)
      ensures Valid() && forall d :: d in current ==> fresh(current[d])
      ensures Look() == Started(op, durations)
    {
      this.op := op;
      lastValue, lastTime, history := 0.0, -1, map[];
      var cells := NewCells(durations);
      current := cells;
    }

    /** `log`: append and keep the last five. */
    method Log(d: Duration, sample: Sample)
      modifies this`history
      ensures history == if sample.start == 0 then old(history)
                         else old(history)[d := Logged(if d in old(history) then old(history)[d] else [], Some(sample))]
    {
      if sample.start == 0 {
        return;
      }
      var his := if d in history then history[d] else [];
      his := his + [sample];
      if |his| > HISTORY_LENGTH {
        his := his[|his| - HISTORY_LENGTH..];
      }
      history := history[d := his];
    }

    /** `FeedOn`: the reading becomes a value for every duration, or only moves the last reading. */
    method FeedOn(now: int, value: real) returns (updates: map<Duration, Sample>)
      requires Valid()
      modifies this, current.Values
      ensures Valid() && current == old(current)
      ensures Look() == FedOn(old(Look()), now, value)
      ensures updates == Updates(old(Look()), now, value)
    {
      hide Fed, EffectiveValue, HistoryWith, ClosedBy;
      ghost var was := Look();
      var first := lastTime == -1;
      var effective := EffectiveValue(op, lastValue, lastTime, now, value);
      updates := map[];
      if effective.Some? {
        var closed := FeedAll(now, effective.value);
        assert Look().current == map d | d in was.current :: Fed(was.current[d], effective.value, now, d).0;
        if !first {
          updates := closed;
          LogAll(closed);
        }
      }
      lastValue, lastTime := value, now;
    }

    /** Feeds every running sample; `closed` holds the ones whose period ended. */
    method FeedAll(now: int, v: real) returns (closed: map<Duration, Sample>)
      requires Valid()
      modifies current.Values
      ensures forall d :: d in current ==> current[d].sample == Fed(old(current[d].sample), v, now, d).0
      ensures closed == ClosedBy(old(Look()), now, v)
    {
      hide Fed;
      ghost var was := Look();
      closed := map[];
      var todo := current.Keys;
      while todo != {}
        invariant todo <= current.Keys
        invariant forall d :: d in todo ==> current[d].sample == was.current[d]
        invariant forall d :: d in current.Keys - todo ==> current[d].sample == Fed(was.current[d], v, now, d).0
        invariant closed == ClosedBy(was.(current := was.current - todo), now, v)
        decreases todo
      {
        var d :| d in todo;
        var cell := current[d];
        assert cell in current.Values;
        var update := cell.Feed(v, now, d);
        ClosedStep(was, todo, d, now, v);
        if update.Some? {
          closed := closed[d := update.value];
        }
        todo := todo - {d};
      }
      assert was.current - {} == was.current;
    }

    method LogAll(closed: map<Duration, Sample>)
      modifies this`history
      ensures history == HistoryWith(old(history), closed)
    {
      hide Logged;
      ghost var was := history;
      var todo := closed.Keys;
      assert HistoryWith(was, closed - todo) == was;
      while todo != {}
        invariant todo <= closed.Keys
        invariant history == HistoryWith(was, closed - todo)
        decreases todo
      {
        var d :| d in todo;
        Log(d, closed[d]);
        HistoryStep(was, closed, todo, d);
        todo := todo - {d};
      }
      assert closed - {} == closed;
    }
  }

  lemma ClosedStep(s: View, todo: set<Duration>, d: Duration, now: int, v: real)
    requires d in todo && d in s.current
    ensures ClosedBy(s.(current := s.current - (todo - {d})), now, v) ==
      var before, update := ClosedBy(s.(current := s.current - todo), now, v), Fed(s.current[d], v, now, d).1;
      if update.Some? then before[d := update.value] else before
  {
    hide Fed;
  }

  /** What logging does to the history of one duration. */
  lemma HistoryStep(h: map<Duration, seq<Sample>>, closed: map<Duration, Sample>, todo: set<Duration>, d: Duration)
    requires d in todo && d in closed
    ensures HistoryWith(h, closed - (todo - {d})) ==
      var before := HistoryWith(h, closed - todo);
      if closed[d].start == 0 then before
      else before[d := Logged(if d in before then before[d] else [], Some(closed[d]))]
  {
    hide Logged;
    var less := closed - todo;
    assert closed - (todo - {d}) == less[d := closed[d]];
    HistoryAdds(h, less, d, closed[d]);
  }

  lemma HistoryAdds(h: map<Duration, seq<Sample>>, less: map<Duration, Sample>, d: Duration, x: Sample)
    requires d !in less
    ensures HistoryWith(h, less[d := x]) ==
      var before := HistoryWith(h, less);
      if x.start == 0 then before else before[d := Logged(if d in before then before[d] else [], Some(x))]
  {
    hide Logged, HistoryWith;
    var before, after := HistoryWith(h, less), HistoryWith(h, less[d := x]);
    HistoryAt(h, less, d);
    var logged := Logged(if d in before then before[d] else [], Some(x));
    var expected := if x.start == 0 then before else before[d := logged];
    forall e: Duration ensures (e in after <==> e in expected) && (e in after ==> after[e] == expected[e]) {
      HistoryAt(h, less, e);
      HistoryAt(h, less[d := x], e);
    }
    assert after == expected;
  }

  /** The history of one duration after logging. */
  lemma HistoryAt(h: map<Duration, seq<Sample>>, closed: map<Duration, Sample>, e: Duration)
    ensures var logs := e in closed && closed[e].start != 0;
      && (e in HistoryWith(h, closed) <==> e in h || logs)
      && (e in HistoryWith(h, closed) ==>
            HistoryWith(h, closed)[e] == if logs then Logged(if e in h then h[e] else [], Some(closed[e])) else h[e])
  {
    hide Logged;
  }

  // ---- the fold on values --------------------------------------------------------------------

  ghost function Started(op: Operation, durations: set<Duration>): View {
    View(op, 0.0, -1, map d | d in durations :: EMPTY, map[])
  }

  /** The samples a value closes. */
  ghost function ClosedBy(s: View, now: int, v: real): map<Duration, Sample>
  {
    map d | d in s.current && Fed(s.current[d], v, now, d).1.Some? :: Fed(s.current[d], v, now, d).1.value
  }

  ghost function HistoryWith(history: map<Duration, seq<Sample>>, closed: map<Duration, Sample>)
    : map<Duration, seq<Sample>>
  {
    history + map d | d in closed && closed[d].start != 0 ::
      Logged(if d in history then history[d] else [], Some(closed[d]))
  }

  ghost function FedOn(s: View, now: int, value: real): View
  {
    var effective := EffectiveValue(s.op, s.lastValue, s.lastTime, now, value);
    var fed :=
      if effective.None? then s
      else s.(current := map d | d in s.current :: Fed(s.current[d], effective.value, now, d).0,
              history := if s.lastTime == -1 then s.history
                         else HistoryWith(s.history, ClosedBy(s, now, effective.value)));
    fed.(lastValue := value, lastTime := now)
  }

  /** What FeedOn returns: the samples just closed, nothing for the very first reading. */
  ghost function Updates(s: View, now: int, value: real): map<Duration, Sample>
  {
    var effective := EffectiveValue(s.op, s.lastValue, s.lastTime, now, value);
    if effective.None? || s.lastTime == -1 then map[] else ClosedBy(s, now, effective.value)
  }

  type Reading = (int, real)

  ghost function Stream(s: View, readings: seq<Reading>): (r: View)
    ensures r.current.Keys == s.current.Keys && r.op == s.op
  {
    if readings == [] then s
    else
      var last := readings[|readings| - 1];
      FedOn(Stream(s, readings[..|readings| - 1]), last.0, last.1)
  }

  // ---- the batch reference ---------------------------------------------------------------------

  /** The time a value counts at: the clock, or the latest time met if the clock has run back behind it. */
  ghost function Stamp(xs: seq<Reading>, now: int): int {
    if xs != [] && xs[|xs| - 1].0 > now then xs[|xs| - 1].0 else now
  }

  /** The timed values the readings stand for: themselves, or the rates between neighbours. A reading that
      is not later than the one directly before it stands for nothing. */
  ghost function Effective(op: Operation, readings: seq<Reading>): seq<Reading> {
    if readings == [] then []
    else
      var init, last := readings[..|readings| - 1], readings[|readings| - 1];
      if init == [] then if op.Average? then [last] else []
      else
        var xs, prev := Effective(op, init), init[|init| - 1];
        if last.0 <= prev.0 then xs
        else if op.Average? then xs + [(Stamp(xs, last.0), last.1)]
        else xs + [(Stamp(xs, last.0), (last.1 - prev.1) / (last.0 - prev.0) as real)]
  }

  ghost predicate Increasing(readings: seq<Reading>) {
    forall i, j :: 0 <= i < j < |readings| ==> readings[i].0 < readings[j].0
  }

  /** No reading is earlier than the duration. */
  ghost predicate Past(readings: seq<Reading>, d: Duration) {
    forall i :: 0 <= i < |readings| ==> readings[i].0 >= d
  }

  /** The values in one period. */
  ghost function Within(xs: seq<Reading>, d: Duration, period: int): seq<real>
  {
    if xs == [] then []
    else
      var last := xs[|xs| - 1];
      Within(xs[..|xs| - 1], d, period) + if PeriodOf(last.0, d) == period then [last.1] else []
  }

  /** The periods met, each once, in order of first appearance. */
  ghost function Periods(xs: seq<Reading>, d: Duration): seq<int>
  {
    if xs == [] then []
    else
      var sofar, period := Periods(xs[..|xs| - 1], d), PeriodOf(xs[|xs| - 1].0, d);
      if period in sofar then sofar else sofar + [period]
  }

  ghost function Sum(vals: seq<real>): real {
    if vals == [] then 0.0 else Sum(vals[..|vals| - 1]) + vals[|vals| - 1]
  }

  ghost function Maximum(vals: seq<real>): real
    requires vals != []
  {
    if |vals| == 1 then vals[0]
    else
      var m, last := Maximum(vals[..|vals| - 1]), vals[|vals| - 1];
      if last > m then last else m
  }

  /** Exact total, count, average and maximum of a period's values. */
  ghost function SampleOf(vals: seq<real>, period: int): Sample {
    if vals == [] then EMPTY
    else Sample(Sum(vals) / |vals| as real, Sum(vals), Maximum(vals), |vals|, period)
  }

  ghost function SamplesOf(xs: seq<Reading>, d: Duration, periods: seq<int>): seq<Sample>
  {
    seq(|periods|, i requires 0 <= i < |periods| => SampleOf(Within(xs, d, periods[i]), periods[i]))
  }

  /** The sample of the open period, and all closed ones. */
  ghost function OpenSample(xs: seq<Reading>, d: Duration): Sample
  {
    var ps := Periods(xs, d);
    if ps == [] then EMPTY else SampleOf(Within(xs, d, ps[|ps| - 1]), ps[|ps| - 1])
  }

  ghost function ClosedSamples(xs: seq<Reading>, d: Duration): seq<Sample>
  {
    var ps := Periods(xs, d);
    if ps == [] then [] else SamplesOf(xs, d, ps[..|ps| - 1])
  }

  // ---- streaming equals batch --------------------------------------------------------------------

  lemma MulMonotone(x: int, y: int, d: Duration)
    requires x <= y
    ensures x * d <= y * d
  {
  }

  lemma DivMonotone(a: int, b: int, d: Duration)
    requires 0 <= a <= b
    ensures a / d <= b / d
  {
    var p, q := a / d, b / d;
    assert a == p * d + a % d && b == q * d + b % d;
    if q < p {
      MulMonotone(q + 1, p, d);
    }
  }

  lemma PeriodMonotone(a: int, b: int, d: Duration)
    requires d <= a <= b
    ensures 0 < PeriodOf(a, d) <= PeriodOf(b, d)
  {
    DivMonotone(d, a, d);
    DivMonotone(a, b, d);
    assert d / d == 1;
    MulMonotone(1, a / d, d);
    MulMonotone(a / d, b / d, d);
  }

  /** Times never run backwards and every one of them lies past the first period. */
  ghost predicate Timely(xs: seq<Reading>, d: Duration) {
    Past(xs, d) && forall i, j :: 0 <= i < j < |xs| ==> xs[i].0 <= xs[j].0
  }

  /** No period that is met is empty. */
  lemma {:induction false} PeriodsNonEmpty(xs: seq<Reading>, d: Duration, i: nat)
    requires i < |Periods(xs, d)|
    ensures Within(xs, d, Periods(xs, d)[i]) != []
  {
    hide PeriodOf;
    var init := xs[..|xs| - 1];
    if i < |Periods(init, d)| {
      PeriodsNonEmpty(init, d, i);
    }
  }

  /** Periods strictly increasing up to that of the last value. */
  ghost predicate Shaped(ps: seq<int>, xs: seq<Reading>, d: Duration) {
    && (forall i, j :: 0 <= i < j < |ps| ==> ps[i] < ps[j])
    && (forall i :: 0 <= i < |ps| ==> 0 < ps[i])
    && (xs == [] <==> ps == [])
    && (xs != [] ==> ps[|ps| - 1] == PeriodOf(xs[|xs| - 1].0, d))
  }

  /** Over timely values the periods are strictly increasing and the last value lies in the last one. */
  lemma {:induction false} PeriodsShape(xs: seq<Reading>, d: Duration)
    requires Timely(xs, d)
    ensures Shaped(Periods(xs, d), xs, d)
  {
    hide PeriodOf, Within, Shaped;
    if xs == [] {
      ShapedNothing(d);
    } else {
      var init, last := xs[..|xs| - 1], xs[|xs| - 1];
      PeriodsShape(init, d);
      PeriodMonotone(last.0, last.0, d);
      if init != [] {
        PeriodMonotone(init[|init| - 1].0, last.0, d);
      }
      ShapedStep(Periods(init, d), init, last, d);
      assert init + [last] == xs;
    }
  }

  lemma ShapedNothing(d: Duration)
    ensures Shaped([], [], d)
  {
  }

  lemma ShapedStep(ps: seq<int>, init: seq<Reading>, last: Reading, d: Duration)
    requires Shaped(ps, init, d) && 0 < PeriodOf(last.0, d)
    requires init != [] ==> PeriodOf(init[|init| - 1].0, d) <= PeriodOf(last.0, d)
    ensures var p := PeriodOf(last.0, d);
      Shaped(if p in ps then ps else ps + [p], init + [last], d)
  {
    hide PeriodOf;
  }

  lemma WithinSnoc(xs: seq<Reading>, x: Reading, d: Duration, period: int)
    ensures Within(xs + [x], d, period) == Within(xs, d, period) + if PeriodOf(x.0, d) == period then [x.1] else []
  {
    assert (xs + [x])[..|xs|] == xs;
  }

  lemma SampleSnoc(vals: seq<real>, v: real, period: int)
    requires vals != []
    ensures var m := SampleOf(vals, period);
      SampleOf(vals + [v], period) ==
        Sample((m.total + v) / (m.count + 1) as real, m.total + v, if v > m.max then v else m.max, m.count + 1, period)
  {
    assert (vals + [v])[..|vals|] == vals;
  }

  lemma FedContinues(m: Sample, v: real, now: int, d: Duration)
    requires m.start == PeriodOf(now, d) != 0
    ensures Fed(m, v, now, d) ==
      (Sample((m.total + v) / (m.count + 1) as real, m.total + v,
              if v > m.max then v else m.max, m.count + 1, m.start), None)
  {
    hide PeriodOf;
  }

  /** A value in the open period opens none and leaves the periods before it alone. */
  lemma PeriodStays(xs: seq<Reading>, x: Reading, d: Duration)
    requires Timely(xs + [x], d) && Timely(xs, d) && xs != []
    requires PeriodOf(x.0, d) == PeriodOf(xs[|xs| - 1].0, d)
    ensures var ps, period := Periods(xs, d), PeriodOf(x.0, d);
      && Periods(xs + [x], d) == ps && Within(xs + [x], d, period) == Within(xs, d, period) + [x.1]
      && forall i :: 0 <= i < |ps| - 1 ==> Within(xs + [x], d, ps[i]) == Within(xs, d, ps[i])
  {
    hide PeriodOf;
    PeriodsShape(xs, d);
    assert (xs + [x])[..|xs|] == xs;
    var ps, period := Periods(xs, d), PeriodOf(x.0, d);
    WithinSnoc(xs, x, d, period);
    forall i | 0 <= i < |ps| - 1 ensures Within(xs + [x], d, ps[i]) == Within(xs, d, ps[i]) {
      WithinSnoc(xs, x, d, ps[i]);
    }
  }

  /** Adding a value in the open period. */
  lemma SamePeriod(xs: seq<Reading>, x: Reading, d: Duration)
    requires Timely(xs + [x], d) && Timely(xs, d) && xs != []
    requires PeriodOf(x.0, d) == PeriodOf(xs[|xs| - 1].0, d)
    ensures (OpenSample(xs + [x], d), None) == Fed(OpenSample(xs, d), x.1, x.0, d)
    ensures ClosedSamples(xs + [x], d) == ClosedSamples(xs, d)
  {
    hide PeriodOf, Fed, Within, Sum, Maximum, Periods;
    PeriodsShape(xs, d);
    PeriodStays(xs, x, d);
    var period := PeriodOf(x.0, d);
    PeriodsNonEmpty(xs, d, |Periods(xs, d)| - 1);
    SampleSnoc(Within(xs, d, period), x.1, period);
    FedContinues(OpenSample(xs, d), x.1, x.0, d);
  }

  lemma {:induction false} WithinNone(xs: seq<Reading>, d: Duration, period: int)
    requires period !in Periods(xs, d)
    ensures Within(xs, d, period) == []
  {
    if xs != [] {
      WithinNone(xs[..|xs| - 1], d, period);
    }
  }

  lemma FedCloses(m: Sample, v: real, now: int, d: Duration)
    ensures Fed(m, v, now, d).1.Some? ==> Fed(m, v, now, d).1.value == m
  {
  }

  lemma FedOpens(m: Sample, v: real, now: int, d: Duration)
    requires PeriodOf(now, d) > 0 && m.start < PeriodOf(now, d)
    ensures Fed(m, v, now, d) == (SampleOf([v], PeriodOf(now, d)), Some(m))
  {
    hide PeriodOf;
    assert [v][..0] == [];
    assert Sum([v]) == v;
  }

  lemma PeriodsSnoc(xs: seq<Reading>, x: Reading, d: Duration)
    ensures var ps, period := Periods(xs, d), PeriodOf(x.0, d);
      Periods(xs + [x], d) == if period in ps then ps else ps + [period]
  {
    hide PeriodOf;
    assert (xs + [x])[..|xs|] == xs;
  }

  /** A value in a new period opens it and leaves the periods before it alone. */
  lemma PeriodOpens(xs: seq<Reading>, x: Reading, d: Duration)
    requires Timely(xs + [x], d) && Timely(xs, d)
    requires xs != [] ==> PeriodOf(x.0, d) > PeriodOf(xs[|xs| - 1].0, d)
    ensures var ps, period := Periods(xs, d), PeriodOf(x.0, d);
      && Periods(xs + [x], d) == ps + [period] && Within(xs + [x], d, period) == [x.1]
      && forall i :: 0 <= i < |ps| ==> ps[i] < period && Within(xs + [x], d, ps[i]) == Within(xs, d, ps[i])
  {
    hide PeriodOf;
    PeriodsShape(xs, d);
    var ps, period := Periods(xs, d), PeriodOf(x.0, d);
    assert forall i :: 0 <= i < |ps| ==> ps[i] < period;
    assert period !in ps;
    PeriodsSnoc(xs, x, d);
    WithinNone(xs, d, period);
    WithinSnoc(xs, x, d, period);
    hide Periods, Within;
    forall i | 0 <= i < |ps| ensures Within(xs + [x], d, ps[i]) == Within(xs, d, ps[i]) {
      WithinSnoc(xs, x, d, ps[i]);
    }
  }

  /** The first value of a new period. */
  lemma NewPeriod(xs: seq<Reading>, x: Reading, d: Duration)
    requires Timely(xs + [x], d) && Timely(xs, d)
    requires xs != [] ==> PeriodOf(x.0, d) > PeriodOf(xs[|xs| - 1].0, d)
    ensures (OpenSample(xs + [x], d), Some(OpenSample(xs, d))) == Fed(OpenSample(xs, d), x.1, x.0, d)
    ensures ClosedSamples(xs + [x], d) == ClosedSamples(xs, d) + if xs == [] then [] else [OpenSample(xs, d)]
    ensures xs == [] <==> OpenSample(xs, d).start == 0
  {
    hide PeriodOf, Fed, Within, Sum, Maximum, Periods;
    PeriodsShape(xs, d);
    PeriodOpens(xs, x, d);
    assert (xs + [x])[|xs|] == x;
    PeriodMonotone(x.0, x.0, d);
    var ps, period := Periods(xs, d), PeriodOf(x.0, d);
    FedOpens(OpenSample(xs, d), x.1, x.0, d);
    assert (ps + [period])[..|ps|] == ps;
    if xs == [] {
      assert OpenSample(xs, d) == EMPTY;
    } else {
      PeriodsNonEmpty(xs, d, |ps| - 1);
      assert ps == ps[..|ps| - 1] + [ps[|ps| - 1]];
    }
  }

  /** One more timely value: the fold does to the running sample and to the closed ones exactly what
      the batch aggregation over all values does. */
  lemma BatchStep(xs: seq<Reading>, x: Reading, d: Duration)
    requires Timely(xs + [x], d)
    ensures Timely(xs, d)
    ensures var fed := Fed(OpenSample(xs, d), x.1, x.0, d);
      && OpenSample(xs + [x], d) == fed.0
      && ClosedSamples(xs + [x], d) ==
           ClosedSamples(xs, d) + if fed.1.Some? && fed.1.value.start != 0 then [fed.1.value] else []
  {
    hide Fed, OpenSample, ClosedSamples, PeriodOf;
    assert forall i :: 0 <= i < |xs| ==> (xs + [x])[i] == xs[i];
    assert (xs + [x])[|xs|] == x;
    if xs != [] {
      PeriodMonotone(xs[|xs| - 1].0, x.0, d);
    }
    if xs != [] && PeriodOf(x.0, d) == PeriodOf(xs[|xs| - 1].0, d) {
      SamePeriod(xs, x, d);
    } else {
      NewPeriod(xs, x, d);
    }
  }

  /** Over strictly increasing times every reading but the first of a differential counts, at its own time. */
  lemma {:induction false} EffectiveShape(op: Operation, readings: seq<Reading>)
    requires Increasing(readings)
    ensures var xs, skip := Effective(op, readings), if op.Average? then 0 else 1;
      && |xs| == (if |readings| < skip then 0 else |readings| - skip)
      && forall i :: 0 <= i < |xs| ==> xs[i].0 == readings[i + skip].0
  {
    if readings != [] {
      EffectiveShape(op, readings[..|readings| - 1]);
    }
  }

  lemma {:induction false} EffectiveTimely(op: Operation, readings: seq<Reading>, d: Duration)
    requires Past(readings, d)
    ensures Timely(Effective(op, readings), d)
  {
    if readings != [] {
      EffectiveTimely(op, readings[..|readings| - 1], d);
    }
  }

  /** A value behind a clock that has run back is added to the open period. */
  lemma LateIsAdded(xs: seq<Reading>, v: real, now: int, d: Duration)
    requires Timely(xs, d) && now >= d
    ensures Fed(OpenSample(xs, d), v, now, d) == Fed(OpenSample(xs, d), v, Stamp(xs, now), d)
  {
    if xs != [] && xs[|xs| - 1].0 > now {
      PeriodsShape(xs, d);
      PeriodsNonEmpty(xs, d, |Periods(xs, d)| - 1);
      PeriodMonotone(now, xs[|xs| - 1].0, d);
    }
  }

  /** Every duration at once: over any readings, repeated ones and a clock that runs back included, none
      earlier than the duration, the running sample is the exact total, count, average and maximum of the
      open period's effective values, and the history is the last at most five closed periods, in order. */
  lemma {:induction false} StreamIsBatch(op: Operation, durations: set<Duration>, readings: seq<Reading>, d: Duration)
    requires Past(readings, d) && d in durations
    ensures var s, xs := Stream(Started(op, durations), readings), Effective(op, readings);
      && d in s.current && s.current[d] == OpenSample(xs, d)
      && s.HistoryOf(d) == LastN(ClosedSamples(xs, d), HISTORY_LENGTH)
      && (if readings == [] then s.lastTime == -1
          else s.lastTime == readings[|readings| - 1].0 && s.lastValue == readings[|readings| - 1].1)
  {
    if readings != [] {
      StreamIsBatch(op, durations, readings[..|readings| - 1], d);
      StreamStep(op, Stream(Started(op, durations), readings[..|readings| - 1]), readings, d);
    }
  }

  /** The last reading, given that the ones before it were aggregated right. */
  lemma StreamStep(op: Operation, s: View, readings: seq<Reading>, d: Duration)
    requires readings != [] && Past(readings, d)
    requires var init := readings[..|readings| - 1];
      && s.op == op && d in s.current && s.current[d] == OpenSample(Effective(op, init), d)
      && s.HistoryOf(d) == LastN(ClosedSamples(Effective(op, init), d), HISTORY_LENGTH)
      && (if init == [] then s.lastTime == -1
          else s.lastTime == init[|init| - 1].0 && s.lastValue == init[|init| - 1].1)
    ensures var last, xs := readings[|readings| - 1], Effective(op, readings);
      var s' := FedOn(s, last.0, last.1);
      && d in s'.current && s'.current[d] == OpenSample(xs, d)
      && s'.HistoryOf(d) == LastN(ClosedSamples(xs, d), HISTORY_LENGTH)
  {
    hide Fed, OpenSample, ClosedSamples, FedOn, EffectiveValue, Effective;
    var init, last := readings[..|readings| - 1], readings[|readings| - 1];
    var xs := Effective(op, init);
    var v := EffectiveValue(op, s.lastValue, s.lastTime, last.0, last.1);
    EffectiveSnoc(op, s, readings, d);
    if v.Some? {
      BatchStep(xs, (Stamp(xs, last.0), v.value), d);
      LateIsAdded(xs, v.value, last.0, d);
      StepForOne(s, last.0, last.1, v.value, d);
      var fed := Fed(s.current[d], v.value, last.0, d);
      FedCloses(s.current[d], v.value, last.0, d);
      NothingClosed(d);
      if fed.1.Some? {
        LastNStep(ClosedSamples(xs, d), fed.1.value, HISTORY_LENGTH);
      }
    } else {
      assert Effective(op, readings) == xs;
      SkipForOne(s, last.0, last.1, d);
    }
  }

  /** The value the last reading contributes is the last effective value. */
  lemma EffectiveSnoc(op: Operation, s: View, readings: seq<Reading>, d: Duration)
    requires readings != [] && Past(readings, d)
    requires var init := readings[..|readings| - 1];
      if init == [] then s.lastTime == -1
      else s.lastTime == init[|init| - 1].0 && s.lastValue == init[|init| - 1].1
    ensures var init, last := readings[..|readings| - 1], readings[|readings| - 1];
      var xs, v := Effective(op, init), EffectiveValue(op, s.lastValue, s.lastTime, last.0, last.1);
      && Effective(op, readings) == xs + (if v.Some? then [(Stamp(xs, last.0), v.value)] else [])
      && Timely(xs, d) && Timely(Effective(op, readings), d) && (init == [] ==> xs == [])
  {
    EffectiveTimely(op, readings, d);
    EffectiveTimely(op, readings[..|readings| - 1], d);
  }

  lemma NothingClosed(d: Duration)
    ensures ClosedSamples([], d) == [] && OpenSample([], d) == EMPTY
  {
  }

  lemma SkipForOne(s: View, now: int, value: real, d: Duration)
    requires EffectiveValue(s.op, s.lastValue, s.lastTime, now, value).None?
    ensures var s' := FedOn(s, now, value);
      s'.current == s.current && s'.HistoryOf(d) == s.HistoryOf(d)
  {
  }

  /** What a contributing reading does to one duration. */
  lemma StepForOne(s: View, now: int, value: real, v: real, d: Duration)
    requires d in s.current && EffectiveValue(s.op, s.lastValue, s.lastTime, now, value) == Some(v)
    ensures var fed := Fed(s.current[d], v, now, d);
      var s' := FedOn(s, now, value);
      && d in s'.current && s'.current[d] == fed.0
      && s'.HistoryOf(d) == if s.lastTime == -1 then s.HistoryOf(d) else Logged(s.HistoryOf(d), fed.1)
  {
    hide Fed;
  }

  /** The period of the last value was over before `now`; so it was if there was no value yet. */
  ghost predicate PeriodOver(xs: seq<Reading>, now: int, d: Duration) {
    xs != [] ==> PeriodOf(xs[|xs| - 1].0, d) < PeriodOf(now, d)
  }

  /** What one timely value reports: the running sample, exactly when its period is over; then the
      closed samples grow by it, unless it is the undefined one in front of the first value. */
  lemma ReportIff(xs: seq<Reading>, x: Reading, d: Duration)
    requires Timely(xs + [x], d)
    ensures var closed := Fed(OpenSample(xs, d), x.1, x.0, d).1;
      && (closed.Some? <==> PeriodOver(xs, x.0, d))
      && (closed.Some? ==> closed.value == OpenSample(xs, d))
      && ClosedSamples(xs + [x], d) ==
           ClosedSamples(xs, d) + if closed.Some? && xs != [] then [closed.value] else []
  {
    hide Fed, OpenSample, ClosedSamples, PeriodOf;
    assert forall i :: 0 <= i < |xs| ==> (xs + [x])[i] == xs[i];
    assert (xs + [x])[|xs|] == x;
    assert Timely(xs, d);
    if xs != [] {
      PeriodMonotone(xs[|xs| - 1].0, x.0, d);
    }
    if PeriodOver(xs, x.0, d) {
      NewPeriod(xs, x, d);
    } else {
      SamePeriod(xs, x, d);
      assert ClosedSamples(xs, d) + [] == ClosedSamples(xs, d);
    }
  }

  /** What `FeedOn` reports over any readings. Nothing for the first one, and nothing for one that is not
      later than the one directly before it; then the running sample, exactly when the period of the last
      effective value is over. That is the exact sample of the period just closed, except before the first
      effective value, where it is the undefined sample: this is what the second reading of a differential
      reports. */
  lemma UpdatesIff(op: Operation, durations: set<Duration>, readings: seq<Reading>, d: Duration)
    requires readings != [] && Past(readings, d) && d in durations
    ensures var init, last := readings[..|readings| - 1], readings[|readings| - 1];
      var xs, updates := Effective(op, init), Updates(Stream(Started(op, durations), init), last.0, last.1);
      && (d in updates <==> init != [] && last.0 > init[|init| - 1].0 && PeriodOver(xs, last.0, d))
      && (d in updates && xs != [] ==> ClosedSamples(Effective(op, readings), d) == ClosedSamples(xs, d) + [updates[d]])
      && (d in updates && xs == [] ==> updates[d] == EMPTY)
      && (d !in updates && init != [] ==> ClosedSamples(Effective(op, readings), d) == ClosedSamples(xs, d))
  {
    hide Fed, OpenSample, ClosedSamples, Effective, PeriodOver, EffectiveValue, Stamp;
    var init, last := readings[..|readings| - 1], readings[|readings| - 1];
    var xs := Effective(op, init);
    StreamIsBatch(op, durations, init, d);
    var s := Stream(Started(op, durations), init);
    EffectiveSnoc(op, s, readings, d);
    NothingClosed(d);
    assert xs + [] == xs;
    if init != [] {
      LaterCounts(s.op, s.lastValue, s.lastTime, last.0, last.1);
      if last.0 > init[|init| - 1].0 {
        var v := EffectiveValue(s.op, s.lastValue, s.lastTime, last.0, last.1);
        ReportIff(xs, (Stamp(xs, last.0), v.value), d);
        LateIsAdded(xs, v.value, last.0, d);
        OverAtStamp(xs, last.0, d);
        assert ClosedSamples(xs, d) + [] == ClosedSamples(xs, d);
      }
    }
  }

  lemma OverAtStamp(xs: seq<Reading>, now: int, d: Duration)
    requires Timely(xs, d) && now >= d
    ensures PeriodOver(xs, Stamp(xs, now), d) <==> PeriodOver(xs, now, d)
  {
    if xs != [] && xs[|xs| - 1].0 > now {
      PeriodMonotone(now, xs[|xs| - 1].0, d);
    }
  }

  /** A reading contributes a value exactly when it is later than the one before it. */
  lemma LaterCounts(op: Operation, lastValue: real, lastTime: int, now: int, value: real)
    requires lastTime != -1
    ensures EffectiveValue(op, lastValue, lastTime, now, value).Some? <==> lastTime < now
  {
  }

  /** A reading that is not later than the one before it changes the last reading and nothing else. */
  lemma RepeatedReading(s: View, now: int, value: real)
    requires s.lastTime != -1 && now <= s.lastTime
    ensures FedOn(s, now, value) == s.(lastValue := value, lastTime := now)
    ensures Updates(s, now, value) == map[]
  {
  }

  /** The second reading of a differential reports a sample of no period. */
  lemma SecondDifferential(durations: set<Duration>, first: Reading, second: Reading, d: Duration)
    requires d in durations && d <= first.0 < second.0
    ensures var updates := Updates(Stream(Started(Differential, durations), [first]), second.0, second.1);
      d in updates && updates[d] == EMPTY
  {
    hide PeriodOver, ClosedSamples, Stream;
    var readings := [first, second];
    assert readings[..1] == [first] && [first][..0] == [];
    UpdatesIff(Differential, durations, readings, d);
    assert Effective(Differential, [first]) == [];
    NoneIsOver(second.0, d);
  }

  lemma NoneIsOver(now: int, d: Duration)
    ensures PeriodOver([], now, d)
  {
  }
}
