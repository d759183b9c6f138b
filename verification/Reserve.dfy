/** Reserving ports: the search for free ports under a clock that moves, and the lifetime of a
    reservation. Models Reserve in apps/core0/helper/socat/socat.go. */
module Reservations {

  const FIRST := 1024
  const LAST := 65535
  const TTL := 120_000_000_000

  /** When the reservation of a port ends, in nanoseconds. */
  type Expiries = map<nat, int>

  predicate Live(reserved: Expiries, port: nat, now: int) {
    port in reserved && now <= reserved[port]
  }

  ghost function LivePorts(reserved: Expiries, now: int): set<nat> {
    set p | p in reserved && now <= reserved[p]
  }

  /** The readings of the clock a call makes, one per lookup of a reservation and one per new one. */
  type Clock = nat -> int

  ghost predicate Monotone(clock: Clock) {
    forall i: nat, j: nat :: i <= j ==> clock(i) <= clock(j)
  }

  ghost predicate GetsPast(clock: Clock, x: int) {
    exists k: nat :: clock(k) > x
  }

  /** Time never runs backwards and never stops for good. */
  ghost predicate Ticks(clock: Clock) {
    Monotone(clock) && forall x: int :: GetsPast(clock, x)
  }

  /** How a call ends: with all the ports asked for, with an error and those found so far, or never. */
  datatype Ending = Done | Exhausted | Forever

  /** `readings`: how often the clock was read. */
  datatype Outcome = Outcome(ports: seq<nat>, ending: Ending, reserved: Expiries, readings: nat)

  // ---- one search -------------------------------------------------------------------------------------

  /** The j-th port looked at from `p`: a 16-bit counter that wraps to 0. */
  function Probe(p: nat, j: nat): nat {
    (p + j) % 65536
  }

  /** Lookups of reservations during the first `j` probes: none for ports that are used. */
  ghost function Reads(used: set<nat>, p: nat, j: nat): nat {
    if j == 0 then 0 else Reads(used, p, j - 1) + if Probe(p, j - 1) in used then 0 else 1
  }

  ghost predicate Busy(used: set<nat>, clock: Clock, reserved: Expiries, p: nat, t: nat, j: nat) {
    Probe(p, j) in used || Live(reserved, Probe(p, j), clock(t + Reads(used, p, j)))
  }

  /** The search from `p`, with the clock at its `t`-th reading, stops at its j-th probe. */
  ghost predicate StopsAt(used: set<nat>, clock: Clock, reserved: Expiries, p: nat, t: nat, j: nat) {
    !Busy(used, clock, reserved, p, t, j) && forall i: nat :: i < j ==> Busy(used, clock, reserved, p, t, i)
  }

  ghost predicate Stops(used: set<nat>, clock: Clock, reserved: Expiries, p: nat, t: nat) {
    exists j: nat :: StopsAt(used, clock, reserved, p, t, j)
  }

  ghost function StopOf(used: set<nat>, clock: Clock, reserved: Expiries, p: nat, t: nat): (j: nat)
    requires Stops(used, clock, reserved, p, t)
    ensures StopsAt(used, clock, reserved, p, t, j)
  {
    var j: nat :| StopsAt(used, clock, reserved, p, t, j);
    j
  }

  lemma StopIs(used: set<nat>, clock: Clock, reserved: Expiries, p: nat, t: nat, j: nat)
    requires StopsAt(used, clock, reserved, p, t, j)
    ensures Stops(used, clock, reserved, p, t) && StopOf(used, clock, reserved, p, t) == j
  {
    hide Busy;
    var i := StopOf(used, clock, reserved, p, t);
    assert !(i < j) && !(j < i);
  }

  // ---- the whole call ---------------------------------------------------------------------------------

  /** What a call does from port `p` on that still wants `n` ports. A port just handed out is looked at
      again. */
  ghost function Call(used: set<nat>, clock: Clock, reserved: Expiries, p: nat, t: nat, n: int): Outcome
    decreases if n < 0 then 0 else n
  {
    if n <= 0 then Outcome([], Done, reserved, t)
    else if !Stops(used, clock, reserved, p, t) then Outcome([], Forever, reserved, t)
    else
      var j := StopOf(used, clock, reserved, p, t);
      var port, t' := Probe(p, j), t + Reads(used, p, j) + 1;
      if port == LAST then Outcome([], Exhausted, reserved, t')
      else
        var rest := Call(used, clock, reserved[port := clock(t') + TTL], port, t' + 1, n - 1);
        rest.(ports := [port] + rest.ports)
  }

  /** The call `Reserve` makes of its search. */
  ghost function Answer(used: set<nat>, reserved: Expiries, clock: Clock, n: int): Outcome {
    Call(used, clock, reserved, FIRST, 0, n)
  }

  /** One turn of a call that finds a port. */
  lemma CallTurn(used: set<nat>, clock: Clock, reserved: Expiries, p: nat, t: nat, n: int, j: nat)
    requires n > 0 && StopsAt(used, clock, reserved, p, t, j)
    ensures var port, t' := Probe(p, j), t + Reads(used, p, j) + 1;
      Call(used, clock, reserved, p, t, n) ==
        if port == LAST then Outcome([], Exhausted, reserved, t')
        else
          var rest := Call(used, clock, reserved[port := clock(t') + TTL], port, t' + 1, n - 1);
          rest.(ports := [port] + rest.ports)
  {
    hide StopsAt, Busy;
    StopIs(used, clock, reserved, p, t, j);
  }

  /** From some reading on every reservation has run out. */
  lemma {:induction false} AllRunOut(clock: Clock, reserved: Expiries) returns (late: nat)
    requires Ticks(clock)
    ensures forall k: nat, q :: k >= late && q in reserved ==> clock(k) > reserved[q]
    decreases |reserved|
  {
    late := 0;
    if reserved != map[] {
      var q :| q in reserved;
      var rest := reserved - {q};
      assert rest.Keys == reserved.Keys - {q};
      var late' := AllRunOut(clock, rest);
      assert GetsPast(clock, reserved[q]);
      var k: nat :| clock(k) > reserved[q];
      late := if k < late' then late' else k;
      forall i: nat, r | i >= late && r in reserved ensures clock(i) > reserved[r] {
        assert clock(k) <= clock(i);
        assert r != q ==> r in rest && rest[r] == reserved[r];
      }
    }
  }

  /** `Reserve` from its search on. `used` are the ports listened on or forwarded. */
  method Search(n: int, used: set<nat>, reserved: Expiries, clock: Clock) returns (r: Outcome)
    requires Ticks(clock)
    ensures r == Answer(used, reserved, clock, n)
  {
    hide Call, Ticks, StopsAt, Reads, Probe, Stops;
    var result: seq<nat> := [];
    var p: nat, t: nat, now: Expiries := FIRST, 0, reserved;
    var i := 0;
    CallEnds(used, clock, reserved, FIRST, 0, n);
    while i < n
      invariant 0 <= i && (n >= 0 ==> i <= n)
      invariant var rest := Call(used, clock, now, p, t, n - i);
        Call(used, clock, reserved, FIRST, 0, n) == rest.(ports := result + rest.ports)
    {
      var j, t' := NextFree(used, clock, now, p, t);
      if j < 0 {
        // every port is used: the counter goes round for ever
        CallHangs(used, clock, now, p, t, n - i);
        return Outcome(result, Forever, now, t);
      }
      CallTurn(used, clock, now, p, t, n - i, j);
      p := Probe(p, j);
      t := t';
      if p == LAST {
        return Outcome(result, Exhausted, now, t);
      }
      now := now[p := clock(t) + TTL];
      t := t + 1;
      result := result + [p];
      i := i + 1;
    }
    CallEnds(used, clock, now, p, t, n - i);
    return Outcome(result, Done, now, t);
  }

  lemma CallEnds(used: set<nat>, clock: Clock, reserved: Expiries, p: nat, t: nat, n: int)
    ensures n <= 0 ==> Call(used, clock, reserved, p, t, n) == Outcome([], Done, reserved, t)
    ensures var r := Call(used, clock, reserved, p, t, n); r == r.(ports := [] + r.ports)
  {
  }

  lemma CallHangs(used: set<nat>, clock: Clock, reserved: Expiries, p: nat, t: nat, n: int)
    requires n > 0 && !Stops(used, clock, reserved, p, t)
    ensures Call(used, clock, reserved, p, t, n) == Outcome([], Forever, reserved, t)
  {
  }

  /** The inner loop: how many ports it passes before a free one, and the clock behind that; negative
      when it never ends. */
  method NextFree(used: set<nat>, clock: Clock, reserved: Expiries, p: nat, t: nat) returns (j: int, t': nat)
    requires Ticks(clock)
    ensures j >= 0 ==> StopsAt(used, clock, reserved, p, t, j) && t' == t + Reads(used, p, j) + 1
    ensures j < 0 ==> !Stops(used, clock, reserved, p, t)
  {
    hide Ticks, Stops;
    ghost var late := AllRunOut(clock, reserved);
    var misses: nat := 0;
    j, t' := 0, t;
    while true
      invariant 0 <= misses <= j && misses < 65536 && t' == t + Reads(used, p, j)
      invariant forall i: nat :: i < j ==> Busy(used, clock, reserved, p, t, i)
      invariant forall i: nat :: j - misses <= i < j ==> Probe(p, i) in used
      decreases if t' < late then late - t' else 0, 65536 - misses
    {
      if Probe(p, j) in used {
        misses := misses + 1;
        if misses == 65536 {
          RoundOfUsed(used, clock, reserved, p, t, j + 1 - 65536);
          return -1, t';
        }
      } else {
        var live := Live(reserved, Probe(p, j), clock(t'));
        if !live {
          return j, t' + 1;
        }
        t' := t' + 1;
        misses := 0;
      }
      j := j + 1;
    }
  }

  /** Every port is listened on or forwarded. */
  ghost predicate AllUsed(used: set<nat>) {
    forall q: nat :: q < 65536 ==> q in used
  }

  lemma RoundOfUsed(used: set<nat>, clock: Clock, reserved: Expiries, p: nat, t: nat, from: nat)
    requires forall i: nat :: from <= i < from + 65536 ==> Probe(p, i) in used
    ensures AllUsed(used) && !Stops(used, clock, reserved, p, t)
  {
    forall q: nat | q < 65536 ensures q in used {
      var i := from + (q + 65536 - Probe(p, from)) % 65536;
      assert Probe(p, i) == q;
    }
  }

  // ---- when it ends -----------------------------------------------------------------------------------

  lemma {:induction false} ReadsGrow(used: set<nat>, p: nat, i: nat, j: nat)
    requires i <= j
    ensures Reads(used, p, i) <= Reads(used, p, j)
  {
    if i < j {
      ReadsGrow(used, p, i, j - 1);
    }
  }

  /** Every round past an unused port looks it up. */
  lemma {:induction false} ReadsRounds(used: set<nat>, p: nat, d: nat, m: nat)
    requires Probe(p, d) !in used
    ensures Reads(used, p, d + 65536 * m) >= m
  {
    if m > 0 {
      var before := d + 65536 * (m - 1);
      ReadsRounds(used, p, d, m - 1);
      assert Probe(p, before) == Probe(p, d);
      ReadsGrow(used, p, before + 1, d + 65536 * m);
    }
  }

  lemma {:induction false} LeastStop(used: set<nat>, clock: Clock, reserved: Expiries, p: nat, t: nat, j: nat)
    requires !Busy(used, clock, reserved, p, t, j)
    ensures Stops(used, clock, reserved, p, t)
  {
    hide Busy;
    if i: nat :| i < j && !Busy(used, clock, reserved, p, t, i) {
      LeastStop(used, clock, reserved, p, t, i);
    } else {
      assert StopsAt(used, clock, reserved, p, t, j);
    }
  }

  /** With a port that is not used the search comes to an end: at the latest when all reservations have
      run out. */
  lemma UnusedIsFound(used: set<nat>, clock: Clock, reserved: Expiries, p: nat, t: nat)
    requires Ticks(clock) && !AllUsed(used)
    ensures Stops(used, clock, reserved, p, t)
  {
    hide Ticks, Stops;
    var q: nat :| q < 65536 && q !in used;
    var late := AllRunOut(clock, reserved);
    var d := (q + 65536 - p % 65536) % 65536;
    assert Probe(p, d) == q;
    var j := d + 65536 * late;
    assert Probe(p, j) == q;
    ReadsRounds(used, p, d, late);
    LeastStop(used, clock, reserved, p, t, j);
  }

  lemma UsedIsNotFound(used: set<nat>, clock: Clock, reserved: Expiries, p: nat, t: nat)
    requires AllUsed(used)
    ensures !Stops(used, clock, reserved, p, t)
  {
    forall j: nat ensures Busy(used, clock, reserved, p, t, j) {
      assert Probe(p, j) < 65536;
    }
  }

  /** A call goes on for ever exactly when it wants a port and every port is listened on or forwarded;
      a port that is only reserved becomes free in time. */
  lemma {:induction false} ForeverIff(used: set<nat>, clock: Clock, reserved: Expiries, p: nat, t: nat, n: int)
    requires Ticks(clock)
    ensures Call(used, clock, reserved, p, t, n).ending.Forever? <==> n > 0 && AllUsed(used)
    decreases if n < 0 then 0 else n
  {
    hide Ticks, AllUsed, Stops, StopsAt;
    if n > 0 {
      if AllUsed(used) {
        UsedIsNotFound(used, clock, reserved, p, t);
      } else {
        UnusedIsFound(used, clock, reserved, p, t);
        var j := StopOf(used, clock, reserved, p, t);
        var port, t' := Probe(p, j), t + Reads(used, p, j) + 1;
        ForeverIff(used, clock, reserved[port := clock(t') + TTL], port, t' + 1, n - 1);
      }
    }
  }

  // ---- what is handed out -----------------------------------------------------------------------------

  /** Nothing used is handed out, and nothing reserved before the reservation has run out. */
  lemma {:induction false} HandedWasFree(
    used: set<nat>, clock: Clock, reserved: Expiries, p: nat, t: nat, n: int, q: nat)
    ensures var r := Call(used, clock, reserved, p, t, n);
      && r.readings >= t
      && (q in r.ports ==> q < 65536 && q != LAST && q !in used)
      && (q in r.ports && q in reserved ==> exists k: nat :: t <= k < r.readings && clock(k) > reserved[q])
    decreases if n < 0 then 0 else n
  {
    hide Call, Stops, Reads, StopsAt;
    if n <= 0 {
      CallEnds(used, clock, reserved, p, t, n);
    } else if !Stops(used, clock, reserved, p, t) {
      CallHangs(used, clock, reserved, p, t, n);
    } else {
      var j := StopOf(used, clock, reserved, p, t);
      var port, k := Probe(p, j), t + Reads(used, p, j);
      CallTurn(used, clock, reserved, p, t, n, j);
      FreeWhenFound(used, clock, reserved, p, t, j);
      if port != LAST {
        var held := reserved[port := clock(k + 1) + TTL];
        HandedWasFree(used, clock, held, port, k + 2, n - 1, q);
        assert q != port && q in reserved ==> held[q] == reserved[q];
      }
    }
  }

  lemma FreeWhenFound(used: set<nat>, clock: Clock, reserved: Expiries, p: nat, t: nat, j: nat)
    requires StopsAt(used, clock, reserved, p, t, j)
    ensures var q := Probe(p, j); q < 65536 && q !in used && !Live(reserved, q, clock(t + Reads(used, p, j)))
  {
    hide Reads;
  }

  /** A port that was reserved is handed out only by a call that outlasts the reservation. */
  lemma HandedLate(used: set<nat>, clock: Clock, reserved: Expiries, n: int, q: nat)
    requires Monotone(clock) && q in reserved
    ensures var r := Answer(used, reserved, clock, n); q in r.ports ==> clock(r.readings) > reserved[q]
  {
    hide Call;
    var r := Call(used, clock, reserved, FIRST, 0, n);
    HandedWasFree(used, clock, reserved, FIRST, 0, n, q);
    if q in r.ports {
      var k: nat :| 0 <= k < r.readings && clock(k) > reserved[q];
      assert clock(k) <= clock(r.readings);
    }
  }

  /** The last port is never reserved. */
  lemma NeverReserved(used: set<nat>, clock: Clock, reserved: Expiries, n: int)
    requires Monotone(clock) && LAST !in reserved
    ensures LAST !in Answer(used, reserved, clock, n).reserved
  {
    hide Call;
    HandedWasFree(used, clock, reserved, FIRST, 0, n, LAST);
    ReservedAfter(used, clock, reserved, FIRST, 0, n, LAST);
  }

  /** What a call leaves reserved: what was, and what it handed out, for two minutes from then. */
  lemma {:induction false} ReservedAfter(
    used: set<nat>, clock: Clock, reserved: Expiries, p: nat, t: nat, n: int, q: nat)
    requires Monotone(clock)
    ensures var r := Call(used, clock, reserved, p, t, n);
      && (q in r.reserved <==> q in reserved || q in r.ports)
      && (q in r.ports ==> r.reserved[q] >= clock(t) + TTL)
      && (q in reserved && q !in r.ports ==> r.reserved[q] == reserved[q])
    decreases if n < 0 then 0 else n
  {
    hide Call, Stops, Reads, StopsAt;
    if n <= 0 {
      CallEnds(used, clock, reserved, p, t, n);
    } else if !Stops(used, clock, reserved, p, t) {
      CallHangs(used, clock, reserved, p, t, n);
    } else {
      var j := StopOf(used, clock, reserved, p, t);
      var port, k := Probe(p, j), t + Reads(used, p, j);
      CallTurn(used, clock, reserved, p, t, n, j);
      if port != LAST {
        ReservedAfter(used, clock, reserved[port := clock(k + 1) + TTL], port, k + 2, n - 1, q);
        assert clock(t) <= clock(k + 1) <= clock(k + 2);
      }
    }
  }

  /** A call hands out one port twice only if it takes more than two minutes. */
  lemma {:induction false} RepeatIsLate(
    used: set<nat>, clock: Clock, reserved: Expiries, p: nat, t: nat, n: int, a: nat, b: nat)
    requires Monotone(clock)
    ensures var r := Call(used, clock, reserved, p, t, n);
      a < b < |r.ports| && r.ports[a] == r.ports[b] ==> clock(r.readings) > clock(t) + TTL
    decreases if n < 0 then 0 else n
  {
    hide Call, Stops, Reads, StopsAt;
    if n <= 0 {
      CallEnds(used, clock, reserved, p, t, n);
    } else if !Stops(used, clock, reserved, p, t) {
      CallHangs(used, clock, reserved, p, t, n);
    } else {
      var j := StopOf(used, clock, reserved, p, t);
      var port, k := Probe(p, j), t + Reads(used, p, j);
      CallTurn(used, clock, reserved, p, t, n, j);
      if port != LAST {
        var held := reserved[port := clock(k + 1) + TTL];
        if a > 0 && b > 0 {
          RepeatIsLate(used, clock, held, port, k + 2, n - 1, a - 1, b - 1);
          assert clock(t) <= clock(k + 2);
        } else {
          AgainIsLate(used, clock, held, port, k + 2, n - 1);
          assert clock(t) <= clock(k + 1);
        }
      }
    }
  }

  lemma AgainIsLate(used: set<nat>, clock: Clock, reserved: Expiries, p: nat, t: nat, n: int)
    requires Monotone(clock) && p in reserved
    ensures var r := Call(used, clock, reserved, p, t, n); p in r.ports ==> clock(r.readings) > reserved[p]
  {
    hide Call;
    var r := Call(used, clock, reserved, p, t, n);
    HandedWasFree(used, clock, reserved, p, t, n, p);
    if p in r.ports {
      var i: nat :| t <= i < r.readings && clock(i) > reserved[p];
      assert clock(i) <= clock(r.readings);
    }
  }

  /** With one unused port left the call hands it out again and again, each time once its reservation
      has run out. */
  lemma {:induction false} LonePortRepeats(
    used: set<nat>, clock: Clock, reserved: Expiries, p: nat, t: nat, n: nat, q: nat)
    requires Ticks(clock) && q < 65536 && q != LAST && forall x: nat :: x < 65536 ==> (x in used <==> x != q)
    ensures var r := Call(used, clock, reserved, p, t, n);
      r.ending == Done && r.ports == seq(n, _ => q)
    decreases n
  {
    hide Call, Ticks, Stops, Reads, StopsAt;
    if n == 0 {
      CallEnds(used, clock, reserved, p, t, n);
    } else {
      assert q !in used;
      UnusedIsFound(used, clock, reserved, p, t);
      var j := StopOf(used, clock, reserved, p, t);
      var k := t + Reads(used, p, j);
      FreeWhenFound(used, clock, reserved, p, t, j);
      CallTurn(used, clock, reserved, p, t, n, j);
      LonePortRepeats(used, clock, reserved[q := clock(k + 1) + TTL], q, k + 2, n - 1, q);
      assert [q] + seq(n - 1, _ => q) == seq(n, _ => q);
    }
  }

  // ---- any clock, 65535 not used --------------------------------------------------------------------

  /** From `p` on the search stops at 65535 at the latest. */
  lemma StopsBelowLast(used: set<nat>, clock: Clock, reserved: Expiries, p: nat, t: nat)
    requires p <= LAST && LAST !in used && LAST !in reserved
    ensures Stops(used, clock, reserved, p, t) && p + StopOf(used, clock, reserved, p, t) <= LAST
  {
    hide Reads;
    assert Probe(p, LAST - p) == LAST;
    LeastStop(used, clock, reserved, p, t, LAST - p);
  }

  /** A lookup of the call found the port reserved. */
  ghost predicate SeenLive(clock: Clock, reserved: Expiries, q: nat, from: nat, to: nat) {
    exists k: nat :: from <= k < to && Live(reserved, q, clock(k))
  }

  /** What a call from `p` does whatever the clock: it ends, with all the ports or after the last one;
      its ports do not decrease; and every port it passed over was used or seen reserved. */
  ghost predicate Orderly(used: set<nat>, clock: Clock, reserved: Expiries, p: nat, t: nat, n: nat, r: Outcome) {
    && (r.ending == Done ==> |r.ports| == n) && (r.ending == Exhausted ==> |r.ports| < n) && !r.ending.Forever?
    && (forall q :: q in r.ports ==> p <= q < LAST)
    && (forall i, j :: 0 <= i < j < |r.ports| ==> r.ports[i] <= r.ports[j])
    && (forall q: nat :: p <= q < LAST && q !in r.ports ==>
          r.ending == Exhausted || (exists x :: x in r.ports && q < x) ==>
            q in used || SeenLive(clock, reserved, q, t, r.readings))
  }

  lemma {:induction false} SearchIsOrderly(used: set<nat>, clock: Clock, reserved: Expiries, p: nat, t: nat, n: nat)
    requires p <= LAST && LAST !in used && LAST !in reserved
    ensures Orderly(used, clock, reserved, p, t, n, Call(used, clock, reserved, p, t, n))
    decreases n
  {
    hide Call, Stops, StopsAt, Reads, Orderly, Probe;
    if n == 0 {
      CallEnds(used, clock, reserved, p, t, n);
      OrderlyNothing(used, clock, reserved, p, t);
    } else {
      StopsBelowLast(used, clock, reserved, p, t);
      var j := StopOf(used, clock, reserved, p, t);
      CallTurn(used, clock, reserved, p, t, n, j);
      var k := t + Reads(used, p, j);
      var held := reserved[p + j := clock(k + 1) + TTL];
      assert Probe(p, j) == p + j by {
        ProbeBelow(p, j);
      }
      HandedWasFree(used, clock, held, p + j, k + 2, n - 1, 0);
      if p + j < LAST {
        SearchIsOrderly(used, clock, held, p + j, k + 2, n - 1);
      }
      OrderlyTurn(used, clock, reserved, p, t, n, j, Call(used, clock, held, p + j, k + 2, n - 1));
    }
  }

  lemma ProbeBelow(p: nat, j: nat)
    requires p + j < 65536
    ensures Probe(p, j) == p + j
  {
  }

  lemma OrderlyNothing(used: set<nat>, clock: Clock, reserved: Expiries, p: nat, t: nat)
    ensures Orderly(used, clock, reserved, p, t, 0, Outcome([], Done, reserved, t))
  {
  }

  /** Every port the search passes over was used or seen reserved. */
  lemma PassedOver(used: set<nat>, clock: Clock, reserved: Expiries, p: nat, t: nat, j: nat, q: nat, to: nat)
    requires p + j <= LAST && StopsAt(used, clock, reserved, p, t, j) && p <= q < p + j && to > t + Reads(used, p, j)
    ensures q in used || SeenLive(clock, reserved, q, t, to)
  {
    hide Reads;
    assert Busy(used, clock, reserved, p, t, q - p);
    ProbeBelow(p, q - p);
    ReadsGrow(used, p, q - p, j);
    ReadsGrow(used, p, 0, q - p);
  }

  lemma OrderlyTurn(used: set<nat>, clock: Clock, reserved: Expiries, p: nat, t: nat, n: nat, j: nat, rest: Outcome)
    requires n > 0 && p + j <= LAST && StopsAt(used, clock, reserved, p, t, j)
    requires var k := t + Reads(used, p, j);
      var held := reserved[p + j := clock(k + 1) + TTL];
      rest.readings >= k + 2 && (p + j < LAST ==> Orderly(used, clock, held, p + j, k + 2, n - 1, rest))
    ensures var k := t + Reads(used, p, j);
      Orderly(used, clock, reserved, p, t, n,
              if p + j == LAST then Outcome([], Exhausted, reserved, k + 1) else rest.(ports := [p + j] + rest.ports))
  {
    hide Reads, StopsAt, SeenLive;
    var k := t + Reads(used, p, j);
    var held := reserved[p + j := clock(k + 1) + TTL];
    var r := if p + j == LAST then Outcome([], Exhausted, reserved, k + 1) else rest.(ports := [p + j] + rest.ports);
    forall x, y | 0 <= x < y < |r.ports| ensures r.ports[x] <= r.ports[y] {
      assert r.ports[y] == rest.ports[y - 1] && rest.ports[y - 1] in rest.ports;
    }
    forall q: nat | p <= q < LAST && q !in r.ports && (r.ending == Exhausted || exists x :: x in r.ports && q < x)
      ensures q in used || SeenLive(clock, reserved, q, t, r.readings)
    {
      if q < p + j {
        PassedOver(used, clock, reserved, p, t, j, q, r.readings);
      } else {
        assert q != p + j && (rest.ending == Exhausted || exists x :: x in rest.ports && q < x);
        if q !in used {
          SeenBefore(clock, reserved, held, q, k + 2, t, r.readings);
        }
      }
    }
  }

  lemma SeenBefore(clock: Clock, reserved: Expiries, held: Expiries, q: nat, from: nat, t: nat, to: nat)
    requires t <= from && SeenLive(clock, held, q, from, to) && (q in held ==> q in reserved && held[q] == reserved[q])
    ensures SeenLive(clock, reserved, q, t, to)
  {
  }

  // ---- one pass in which no reservation runs out ------------------------------------------------------

  /** More readings than one pass over the ports can make. */
  const PASS := 200000

  /** The first pass is over within two minutes and before any live reservation runs out. */
  ghost predicate Still(reserved: Expiries, clock: Clock) {
    && clock(PASS) <= clock(0) + TTL
    && forall q :: q in reserved && clock(0) <= reserved[q] ==> clock(PASS) <= reserved[q]
  }

  ghost function Taken(used: set<nat>, reserved: Expiries, clock: Clock): set<nat> {
    used + LivePorts(reserved, clock(0))
  }

  /** The k-th port of the search: a 16-bit counter from 1024 that wraps to 0. */
  function Port(k: nat): nat {
    (FIRST + k) % 65536
  }

  /** Position of port 65535 in the search from 1024. */
  const STOP := LAST - FIRST

  /** The free ports among the first `k` of the search, in its order. */
  ghost function Candidates(taken: set<nat>, k: nat): seq<nat> {
    if k == 0 then []
    else Candidates(taken, k - 1) + if Port(k - 1) in taken then [] else [Port(k - 1)]
  }

  /** The search ends at 65535, the last port, unless that one is taken: then it goes on below 1024. */
  ghost function Limit(taken: set<nat>): nat {
    if LAST in taken then 65536 else STOP
  }

  /** The search has gone through `front` ports and holds the free ones. */
  ghost predicate Searched(taken: set<nat>, result: seq<nat>, front: nat) {
    front <= 65536 && result == Candidates(taken, front) && (front > STOP ==> LAST in taken)
  }

  lemma NotFoundYet(taken: set<nat>, result: seq<nat>, front: nat, k: nat)
    requires front <= k < 65536 && Searched(taken, result, front)
    ensures Port(k) !in result && (Port(k) == LAST <==> k == STOP)
  {
    CandidatesAre(taken, front, Port(k));
  }

  lemma {:induction false} CandidatesGrow(taken: set<nat>, j: nat, k: nat)
    requires j <= k
    ensures Candidates(taken, j) <= Candidates(taken, k)
  {
    if j < k {
      CandidatesGrow(taken, j, k - 1);
    }
  }

  lemma {:induction false} CandidatesAre(taken: set<nat>, k: nat, p: nat)
    requires k <= 65536
    ensures p in Candidates(taken, k) <==> p < 65536 && p !in taken && (p + STOP + 1) % 65536 < k
  {
    if k > 0 {
      CandidatesAre(taken, k - 1, p);
    }
  }

  lemma {:induction false} CandidatesShort(taken: set<nat>, k: nat)
    ensures |Candidates(taken, k)| <= k
  {
    if k > 0 {
      CandidatesShort(taken, k - 1);
    }
  }

  /** The next free port of the pass, or none up to its limit. */
  lemma {:induction false} NextCandidate(taken: set<nat>, front: nat, limit: nat) returns (k: nat)
    requires front <= limit
    ensures front <= k <= limit && forall x: nat :: front <= x < k ==> Port(x) in taken
    ensures k < limit ==> Port(k) !in taken && Candidates(taken, k + 1) == Candidates(taken, front) + [Port(k)]
    ensures k == limit ==> Candidates(taken, limit) == Candidates(taken, front)
    decreases limit - front
  {
    k := front;
    if front < limit && Port(front) in taken {
      assert Candidates(taken, front + 1) == Candidates(taken, front);
      k := NextCandidate(taken, front + 1, limit);
    }
  }

  /** Ports count as live throughout the pass if they were live at its start or have been handed out. */
  ghost predicate LiveAsBefore(reserved: Expiries, clock: Clock, now: Expiries, result: seq<nat>) {
    forall q: nat, x: nat :: x <= PASS ==>
      (Live(now, q, clock(x)) <==> q in LivePorts(reserved, clock(0)) || q in result)
  }

  lemma StillLive(reserved: Expiries, clock: Clock)
    requires Monotone(clock) && Still(reserved, clock)
    ensures LiveAsBefore(reserved, clock, reserved, [])
  {
    forall q: nat, x: nat | x <= PASS ensures Live(reserved, q, clock(x)) <==> q in LivePorts(reserved, clock(0)) {
      assert clock(0) <= clock(x) <= clock(PASS);
    }
  }

  lemma HandedLive(reserved: Expiries, clock: Clock, now: Expiries, result: seq<nat>, port: nat, t: nat)
    requires Monotone(clock) && Still(reserved, clock) && LiveAsBefore(reserved, clock, now, result)
    ensures LiveAsBefore(reserved, clock, now[port := clock(t) + TTL], result + [port])
  {
    var now' := now[port := clock(t) + TTL];
    forall q: nat, x: nat | x <= PASS
      ensures Live(now', q, clock(x)) <==> q in LivePorts(reserved, clock(0)) || q in result + [port]
    {
      assert clock(0) <= clock(t) && clock(x) <= clock(PASS);
      assert q != port ==> (Live(now', q, clock(x)) <==> Live(now, q, clock(x)));
    }
  }

  /** The pass stands at position `k`, behind `front` ports, with `result` handed out. */
  ghost predicate Standing(taken: set<nat>, result: seq<nat>, k: nat, front: nat, t: nat) {
    && k < 65536 && k <= front <= k + 1 && Searched(taken, result, front) && (front > k ==> Port(k) in result)
    && t <= front + 2 * |result|
  }

  lemma {:induction false} ReadsFew(used: set<nat>, p: nat, j: nat)
    ensures Reads(used, p, j) <= j
  {
    if j > 0 {
      ReadsFew(used, p, j - 1);
    }
  }

  /** The search from `k` passes over what is taken and stops at the next free port. */
  lemma PassStops(
    used: set<nat>, reserved: Expiries, clock: Clock, now: Expiries,
    result: seq<nat>, k: nat, front: nat, t: nat, k': nat)
    requires LiveAsBefore(reserved, clock, now, result) && Standing(Taken(used, reserved, clock), result, k, front, t)
    requires front <= k' < 65536 && Port(k') !in Taken(used, reserved, clock) && Port(k') !in result
    requires forall x: nat :: front <= x < k' ==> Port(x) in Taken(used, reserved, clock)
    ensures StopsAt(used, clock, now, Port(k), t, k' - k) && Probe(Port(k), k' - k) == Port(k')
    ensures t + Reads(used, Port(k), k' - k) + 2 <= k' + 1 + 2 * (|result| + 1)
  {
    hide Searched, Busy, Reads, LiveAsBefore, Port, Probe, Taken;
    PassShort(Taken(used, reserved, clock), result, front);
    ReadsFew(used, Port(k), k' - k);
    forall i: nat | i <= k' - k
      ensures Busy(used, clock, now, Port(k), t, i) <==>
        Port(k + i) in Taken(used, reserved, clock) || Port(k + i) in result
    {
      ReadsFew(used, Port(k), i);
      BusyInPass(used, reserved, clock, now, result, k, t, i);
    }
    assert k + (k' - k) == k';
    ProbeIsPort(k, k' - k);
    forall i: nat | i < k' - k ensures Busy(used, clock, now, Port(k), t, i) {
      assert k + i >= front ==> Port(k + i) in Taken(used, reserved, clock);
    }
  }

  lemma ProbeIsPort(k: nat, i: nat)
    ensures Probe(Port(k), i) == Port(k + i)
  {
  }

  /** During the pass a port is busy if it was taken at its start or has been handed out. */
  lemma BusyInPass(
    used: set<nat>, reserved: Expiries, clock: Clock, now: Expiries, result: seq<nat>, k: nat, t: nat, i: nat)
    requires LiveAsBefore(reserved, clock, now, result) && t + Reads(used, Port(k), i) <= PASS
    ensures Busy(used, clock, now, Port(k), t, i) <==>
      Port(k + i) in Taken(used, reserved, clock) || Port(k + i) in result
  {
    hide Reads, Port, Probe, Live, LivePorts;
    ProbeIsPort(k, i);
  }

  lemma PassShort(taken: set<nat>, result: seq<nat>, front: nat)
    requires Searched(taken, result, front)
    ensures |result| <= front <= 65536
  {
    CandidatesShort(taken, front);
  }

  /** What is left of the pass. */
  ghost predicate PassResult(taken: set<nat>, result: seq<nat>, n: nat, r: Outcome) {
    var all := Candidates(taken, Limit(taken));
    && result <= all
    && (n <= |all| - |result| ==> r.ending == Done && result + r.ports == all[..|result| + n])
    && (n > |all| - |result| ==>
          if LAST in taken then all <= result + r.ports else r.ending == Exhausted && result + r.ports == all)
  }

  lemma {:induction false} PassFrom(
    used: set<nat>, reserved: Expiries, clock: Clock, now: Expiries,
    result: seq<nat>, k: nat, front: nat, t: nat, n: nat)
    requires Monotone(clock) && Still(reserved, clock)
    requires LiveAsBefore(reserved, clock, now, result) && Standing(Taken(used, reserved, clock), result, k, front, t)
    requires front <= Limit(Taken(used, reserved, clock))
    ensures PassResult(Taken(used, reserved, clock), result, n, Call(used, clock, now, Port(k), t, n))
    decreases n
  {
    hide Call, LiveAsBefore, Still, Monotone, StopsAt, Port, Taken, Candidates, Probe, Reads;
    var taken := Taken(used, reserved, clock);
    var limit := Limit(taken);
    CandidatesGrow(taken, front, limit);
    if n == 0 {
      CallEnds(used, clock, now, Port(k), t, n);
    } else {
      var k' := NextCandidate(taken, front, limit);
      if k' < limit {
        NotFoundYet(taken, result, front, k');
        PassStops(used, reserved, clock, now, result, k, front, t, k');
        CallTurn(used, clock, now, Port(k), t, n, k' - k);
        var port, t' := Port(k'), t + Reads(used, Port(k), k' - k) + 1;
        HandedLive(reserved, clock, now, result, port, t');
        PassFrom(used, reserved, clock, now[port := clock(t') + TTL], result + [port], k', k' + 1, t' + 1, n - 1);
        PassJoins(taken, result, port, n, Call(used, clock, now[port := clock(t') + TTL], port, t' + 1, n - 1));
      } else if LAST !in taken {
        NotFoundYet(taken, result, front, STOP);
        PassStops(used, reserved, clock, now, result, k, front, t, STOP);
        CallTurn(used, clock, now, Port(k), t, n, STOP - k);
      }
    }
  }

  lemma PassJoins(taken: set<nat>, result: seq<nat>, port: nat, n: nat, rest: Outcome)
    requires n > 0 && PassResult(taken, result + [port], n - 1, rest)
    ensures PassResult(taken, result, n, rest.(ports := [port] + rest.ports))
  {
    hide Candidates;
    assert result + ([port] + rest.ports) == result + [port] + rest.ports;
    assert result <= result + [port];
  }

  /** A call in whose first pass no reservation runs out takes the free ports in the order of the search. */
  lemma FirstPass(used: set<nat>, reserved: Expiries, clock: Clock, n: nat)
    requires Monotone(clock) && Still(reserved, clock)
    ensures PassResult(Taken(used, reserved, clock), [], n, Call(used, clock, reserved, FIRST, 0, n))
  {
    hide Call, Still, Monotone, Taken, PassResult;
    StillLive(reserved, clock);
    PassFrom(used, reserved, clock, reserved, [], 0, 0, 0, n);
  }

  // ---- what is picked ---------------------------------------------------------------------------------

  /** The ports a call may hand out. */
  ghost function Free(taken: set<nat>): set<nat> {
    set p: nat | FIRST <= p < LAST && p !in taken
  }

  /** The free ports below 1024. */
  ghost function Low(taken: set<nat>): set<nat> {
    set p: nat | 0 <= p < FIRST && p !in taken
  }

  ghost predicate Increasing(ports: seq<nat>) {
    forall i, j :: 0 <= i < j < |ports| ==> ports[i] < ports[j]
  }

  /** The `n` smallest members of `from`, in increasing order. */
  ghost predicate Smallest(ports: seq<nat>, n: nat, from: set<nat>) {
    && |ports| == n && Increasing(ports)
    && (forall p :: p in ports ==> p in from)
    && (forall p, q :: p in from && p !in ports && q in ports ==> q < p)
  }

  lemma IncreasingSnoc(ports: seq<nat>, p: nat)
    requires Increasing(ports) && forall q :: q in ports ==> q < p
    ensures Increasing(ports + [p]) && forall q :: q in ports + [p] <==> q in ports || q == p
  {
    assert forall i :: 0 <= i < |ports| ==> ports[i] in ports;
  }

  ghost function Members(ports: seq<nat>): set<nat> {
    set p | p in ports
  }

  lemma MembersSnoc(ports: seq<nat>, p: nat)
    ensures Members(ports + [p]) == Members(ports) + {p}
  {
  }

  lemma {:induction false} IncreasingCounts(ports: seq<nat>)
    requires Increasing(ports)
    ensures |Members(ports)| == |ports|
  {
    if ports != [] {
      hide Increasing, Members;
      var n := |ports| - 1;
      LastIsNew(ports);
      IncreasingCounts(ports[..n]);
      MembersSnoc(ports[..n], ports[n]);
      assert ports == ports[..n] + [ports[n]];
    }
  }

  lemma LastIsNew(ports: seq<nat>)
    requires Increasing(ports) && ports != []
    ensures Increasing(ports[..|ports| - 1]) && ports[|ports| - 1] !in Members(ports[..|ports| - 1])
  {
  }

  lemma FirstAreSmallest(all: seq<nat>, n: nat, from: set<nat>)
    requires n <= |all| && Increasing(all) && forall p :: p in all <==> p in from
    ensures |from| == |all| && Smallest(all[..n], n, from)
  {
    IncreasingCounts(all);
    assert Members(all) == from;
  }

  lemma {:induction false} CandidatesIncrease(taken: set<nat>, k: nat)
    requires k <= STOP
    ensures Increasing(Candidates(taken, k))
    ensures forall p :: p in Candidates(taken, k) <==> FIRST <= p < FIRST + k && p !in taken
  {
    if k > 0 {
      CandidatesIncrease(taken, k - 1);
      IncreasingSnoc(Candidates(taken, k - 1), Port(k - 1));
    }
  }

  /** The search below 1024, once it has wrapped. */
  lemma {:induction false} CandidatesWrap(taken: set<nat>, k: nat) returns (low: seq<nat>)
    requires LAST in taken && k <= FIRST
    ensures Candidates(taken, STOP + 1 + k) == Candidates(taken, STOP) + low && Increasing(low)
    ensures forall p: nat :: p in low <==> p < k && p !in taken
  {
    if k == 0 {
      low := [];
    } else {
      low := CandidatesWrap(taken, k - 1);
      assert Port(STOP + k) == k - 1;
      if k - 1 !in taken {
        IncreasingSnoc(low, k - 1);
        assert Candidates(taken, STOP) + low + [k - 1] == Candidates(taken, STOP) + (low + [k - 1]);
        low := low + [k - 1];
      }
    }
  }

  /** As many free ports as asked for: exactly the smallest ones. */
  lemma ReserveSucceeds(used: set<nat>, reserved: Expiries, clock: Clock, n: nat)
    requires Monotone(clock) && Still(reserved, clock) && n <= |Free(Taken(used, reserved, clock))|
    ensures var r := Answer(used, reserved, clock, n);
      r.ending == Done && Smallest(r.ports, n, Free(Taken(used, reserved, clock)))
  {
    hide Call, Still, Taken, Candidates;
    var taken := Taken(used, reserved, clock);
    var free := Candidates(taken, STOP);
    CandidatesIncrease(taken, STOP);
    FirstAreSmallest(free, |free|, Free(taken));
    FirstAreSmallest(free, n, Free(taken));
    CandidatesGrow(taken, STOP, Limit(taken));
    FirstPass(used, reserved, clock, n);
    var r := Answer(used, reserved, clock, n);
    assert [] + r.ports == r.ports;
    assert Candidates(taken, Limit(taken))[..n] == free[..n];
  }

  /** Fewer, and 65535 not taken: an error, after all the free ports. */
  lemma ReserveExhausts(used: set<nat>, reserved: Expiries, clock: Clock, n: nat)
    requires Monotone(clock) && Still(reserved, clock)
    requires n > |Free(Taken(used, reserved, clock))| && LAST !in Taken(used, reserved, clock)
    ensures var r, free := Answer(used, reserved, clock, n), Free(Taken(used, reserved, clock));
      r.ending == Exhausted && Smallest(r.ports, |free|, free)
  {
    hide Call, Still, Taken, Candidates;
    var taken := Taken(used, reserved, clock);
    var free := Candidates(taken, STOP);
    CandidatesIncrease(taken, STOP);
    FirstAreSmallest(free, |free|, Free(taken));
    FirstPass(used, reserved, clock, n);
    var r := Answer(used, reserved, clock, n);
    assert [] + r.ports == r.ports && free[..|free|] == free;
  }

  /** A used 65535 is passed over, and with it the only error. */
  lemma {:induction false} NeverExhausted(used: set<nat>, clock: Clock, reserved: Expiries, p: nat, t: nat, n: int)
    requires LAST in used
    ensures !Call(used, clock, reserved, p, t, n).ending.Exhausted?
    decreases if n < 0 then 0 else n
  {
    hide Call, Stops, Reads, StopsAt;
    if n <= 0 {
      CallEnds(used, clock, reserved, p, t, n);
    } else if !Stops(used, clock, reserved, p, t) {
      CallHangs(used, clock, reserved, p, t, n);
    } else {
      var j := StopOf(used, clock, reserved, p, t);
      var port, k := Probe(p, j), t + Reads(used, p, j);
      CallTurn(used, clock, reserved, p, t, n, j);
      FreeWhenFound(used, clock, reserved, p, t, j);
      NeverExhausted(used, clock, reserved[port := clock(k + 1) + TTL], port, k + 2, n - 1);
    }
  }

  /** Fewer, and 65535 used: the counter wraps. After all the free ports come the free ones below 1024;
      after those the call waits for reservations to run out, its own included, and goes on for ever only
      if every port is used. */
  lemma ReserveStrays(used: set<nat>, reserved: Expiries, clock: Clock, n: nat)
    requires Ticks(clock) && Still(reserved, clock) && n > |Free(Taken(used, reserved, clock))| && LAST in used
    ensures var r, taken := Answer(used, reserved, clock, n), Taken(used, reserved, clock);
      var h, l := |Free(taken)|, |Low(taken)|;
      var m := if n <= h + l then n - h else l;
      && |r.ports| >= h + m && Smallest(r.ports[..h], h, Free(taken)) && Smallest(r.ports[h..h + m], m, Low(taken))
      && (n <= h + l ==> |r.ports| == n)
      && r.ending == if AllUsed(used) then Forever else Done
  {
    hide Call, Still, Candidates, AllUsed, Taken;
    ForeverIff(used, clock, reserved, FIRST, 0, n);
    NeverExhausted(used, clock, reserved, FIRST, 0, n);
    StraysFrom(used, reserved, clock, n);
  }

  lemma FreeAre(taken: set<nat>)
    ensures var free := Candidates(taken, STOP); Increasing(free) && forall p: nat :: p in free <==> p in Free(taken)
  {
    CandidatesIncrease(taken, STOP);
  }

  lemma LowAre(taken: set<nat>)
    ensures forall p: nat :: p in Low(taken) <==> p < FIRST && p !in taken
  {
  }

  lemma StraysFrom(used: set<nat>, reserved: Expiries, clock: Clock, n: nat)
    requires Monotone(clock) && Still(reserved, clock) && n > |Free(Taken(used, reserved, clock))| && LAST in used
    ensures var r, taken := Answer(used, reserved, clock, n), Taken(used, reserved, clock);
      var h, l := |Free(taken)|, |Low(taken)|;
      var m := if n <= h + l then n - h else l;
      && |r.ports| >= h + m && Smallest(r.ports[..h], h, Free(taken)) && Smallest(r.ports[h..h + m], m, Low(taken))
      && (n <= h + l ==> |r.ports| == n)
  {
    hide Call, Answer, Still, Candidates, Smallest, Free, Low, Increasing, PassResult;
    var taken := Taken(used, reserved, clock);
    var free := Candidates(taken, STOP);
    FreeAre(taken);
    LowAre(taken);
    FirstAreSmallest(free, |free|, Free(taken));
    var low := CandidatesWrap(taken, FIRST);
    FirstAreSmallest(low, |low|, Low(taken));
    var r := Answer(used, reserved, clock, n);
    PassWraps(used, reserved, clock, n, free + low);
    var h := |free|;
    var m := if n <= h + |low| then n - h else |low|;
    FirstAreSmallest(low, m, Low(taken));
    assert free[..h] == free;
    SplitPass(free, low, r.ports, n, m);
  }

  lemma PassWraps(used: set<nat>, reserved: Expiries, clock: Clock, n: nat, all: seq<nat>)
    requires Monotone(clock) && Still(reserved, clock) && LAST in used
    requires all == Candidates(Taken(used, reserved, clock), 65536)
    ensures var r := Answer(used, reserved, clock, n);
      if n <= |all| then r.ports == all[..n] else all <= r.ports
  {
    hide Call, Still, Candidates;
    FirstPass(used, reserved, clock, n);
    var r := Answer(used, reserved, clock, n);
    assert [] + r.ports == r.ports;
  }

  lemma SplitPass(free: seq<nat>, low: seq<nat>, ports: seq<nat>, n: nat, m: nat)
    requires n > |free| && m == if n <= |free| + |low| then n - |free| else |low|
    requires if n <= |free + low| then ports == (free + low)[..n] else free + low <= ports
    ensures |ports| >= |free| + m && ports[..|free|] == free && ports[|free|..|free| + m] == low[..m]
    ensures n <= |free| + |low| ==> |ports| == n
  {
    assert ports[..|free| + m] == (free + low)[..|free| + m];
    assert ports[..|free|] == ports[..|free| + m][..|free|];
    assert ports[|free|..|free| + m] == ports[..|free| + m][|free|..];
  }

  /** The call keeps its promise: it ends, hands out ports of 1024..65534 only, and fails exactly when
      fewer are free than asked for. */
  ghost predicate KeepsPromise(used: set<nat>, reserved: Expiries, clock: Clock, n: nat) {
    var r := Answer(used, reserved, clock, n);
    && !r.ending.Forever? && (forall p :: p in r.ports ==> FIRST <= p < LAST)
    && (r.ending.Exhausted? <==> n > |Free(Taken(used, reserved, clock))|)
  }

  /** It does so exactly when 65535 is not used or enough ports are free below it. */
  lemma ReservePromiseIff(used: set<nat>, reserved: Expiries, clock: Clock, n: nat)
    requires Ticks(clock) && Still(reserved, clock) && LAST !in reserved
    ensures KeepsPromise(used, reserved, clock, n) <==> LAST !in used || n <= |Free(Taken(used, reserved, clock))|
  {
    hide Call, Still;
    var taken := Taken(used, reserved, clock);
    if n <= |Free(taken)| {
      ReserveSucceeds(used, reserved, clock, n);
    } else if LAST !in used {
      ReserveExhausts(used, reserved, clock, n);
    } else {
      NeverExhausted(used, clock, reserved, FIRST, 0, n);
    }
  }
}
