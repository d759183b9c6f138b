/** The port-forward manager as an object, and what holds over every run of its operations.
    Models socatManager in apps/core0/helper/socat/socat.go. */
module PortManager {
  import opened Wrappers
  import opened StreamParser
  import opened Sources
  import opened PortForwards
  import opened PortOwners
  import opened Reservations

  // ---- operations on the live forwards ----------------------------------------------------------------

  datatype State = State(forwards: seq<Forward>, reserved: Expiries)

  /** `accepted`: the packet filter answers the lookup and takes the new rules. `drops`: how many drops it
      carries out before one fails, if one does. `listening` and `clock` are what `Reserve` reads from the
      host. */
  datatype Op =
    | Set(ns: NS, ip: Bytes, host: Bytes, dest: int, accepted: bool)
    | Remove(ns: NS, host: Bytes, drops: nat)
    | RemoveAll(ns: NS, drops: nat)
    | Reserve(n: int, listening: set<nat>, clock: Clock)

  /** Refused for a malformed host, a port already forwarded, or rules the filter does not take. */
  ghost predicate SetSucceeds(fs: seq<Forward>, host: Bytes, accepted: bool) {
    var src := ParsedSource(host);
    src.Some? && !PortInUse(fs, src.value.port) && accepted
  }

  ghost function ForwardedPorts(fs: seq<Forward>): set<nat> {
    set f | f in fs :: f.source.port
  }

  ghost function Used(s: State, listening: set<nat>): set<nat> {
    listening + ForwardedPorts(s.forwards)
  }

  ghost function Do(s: State, op: Op): State {
    match op
    case Set(ns, ip, host, dest, accepted) =>
      if SetSucceeds(s.forwards, host, accepted) then
        var src := ParsedSource(host).value;
        State(s.forwards + [Forward(ns, src, ip, dest)], s.reserved - {src.port})
      else s
    case Remove(ns, host, drops) =>
      if ParsedSource(host).None? then s
      else s.(forwards := Trimmed(s.forwards, InNamespaceOnPort(ns, ParsedSource(host).value.port), drops))
    case RemoveAll(ns, drops) => s.(forwards := Trimmed(s.forwards, InNamespace(ns), drops))
    case Reserve(n, listening, clock) =>
      s.(reserved := Answer(Used(s, listening), s.reserved, clock, n).reserved)
  }

  /** The rules a query hits: enough drops for a complete removal. */
  ghost function RuleCount(fs: seq<Forward>, q: Query): nat {
    |AllBodies(Covered(fs, q))|
  }

  ghost function Run(s: State, ops: seq<Op>): State {
    if ops == [] then s else Do(Run(s, ops[..|ops| - 1]), ops[|ops| - 1])
  }

  // ---- ownership over runs ----------------------------------------------------------------------------

  lemma {:induction false} CoveredOwned(fs: seq<Forward>, q: Query)
    requires Owned(fs)
    ensures Owned(Covered(fs, q))
  {
    hide Sane;
    if fs != [] {
      var n := |fs| - 1;
      assert fs == fs[..n] + [fs[n]];
      CoveredOwned(fs[..n], q);
      OwnedSnoc(Covered(fs[..n], q), fs[n]);
    }
  }

  /** Trimming keeps ports with their forwards and takes no other rule away. */
  lemma {:induction false} TrimmedOwned(fs: seq<Forward>, q: Query, n: nat)
    requires Owned(fs)
    ensures Owned(Trimmed(fs, q, n)) && forall f :: f in Trimmed(fs, q, n) ==> PortInUse(fs, f.source.port)
  {
    hide Sane, AllBodies, Covered, Trim;
    if fs != [] {
      var k := |fs| - 1;
      var init, f := fs[..k], fs[k];
      assert fs == init + [f];
      TrimmedOwned(init, q, n);
      var before, m := Trimmed(init, q, n), Beyond(n, |AllBodies(Covered(init, q))|);
      forall g | g in before ensures PortInUse(fs, g.source.port) && g.source.port != f.source.port {
        var h :| h in init && h.source.port == g.source.port;
        assert h in fs;
      }
      assert before + [] == before;
      TrimKeeps(f, m);
      if q.Covers(f) && Trim(f, m) != [] {
        OwnedSnoc(before, Trim(f, m)[0]);
      } else if !q.Covers(f) {
        OwnedSnoc(before, f);
      }
    }
  }

  lemma TrimKeeps(f: Forward, m: nat)
    requires Sane(f.source)
    ensures |Trim(f, m)| <= 1 && (Trim(f, m) != [] ==>
      var g := Trim(f, m)[0];
      Trim(f, m) == [g] && Sane(g.source) && g.source.port == f.source.port && g.ns == f.ns)
  {
  }

  lemma OwnedSnoc(fs: seq<Forward>, f: Forward)
    requires Owned(fs) && Sane(f.source) && !PortInUse(fs, f.source.port)
    ensures Owned(fs + [f])
  {
    hide Sane;
    assert forall i :: 0 <= i < |fs| ==> fs[i] in fs;
  }

  lemma DoKeepsOwned(s: State, op: Op)
    requires Owned(s.forwards)
    ensures Owned(Do(s, op).forwards)
  {
    hide Owned, Sane, ParsedSource, Answer, PortInUse, Trimmed;
    match op
    case Set(ns, ip, host, dest, accepted) =>
      if SetSucceeds(s.forwards, host, accepted) {
        ParsedIsSane(host);
        OwnedSnoc(s.forwards, Forward(ns, ParsedSource(host).value, ip, dest));
      }
    case Remove(ns, host, drops) =>
      if ParsedSource(host).Some? {
        TrimmedOwned(s.forwards, InNamespaceOnPort(ns, ParsedSource(host).value.port), drops);
      }
    case RemoveAll(ns, drops) => TrimmedOwned(s.forwards, InNamespace(ns), drops);
    case Reserve(_, _, _) =>
  }

  lemma {:induction false} RunKeepsOwned(s: State, ops: seq<Op>)
    requires Owned(s.forwards)
    ensures Owned(Run(s, ops).forwards)
  {
    hide Owned, Do;
    if ops != [] {
      RunKeepsOwned(s, ops[..|ops| - 1]);
      DoKeepsOwned(Run(s, ops[..|ops| - 1]), ops[|ops| - 1]);
    }
  }

  /** After any run from an empty table every rule on a port belongs to one live forward: one
      namespace, one source, one target. */
  lemma RunPortOwnership(reserved: Expiries, ops: seq<Op>, b: Body)
    requires b in AllBodies(Run(State([], reserved), ops).forwards)
    ensures var fs := Run(State([], reserved), ops).forwards;
      exists f :: f in fs && f.source.port == b.dport && OwnsPort(fs, f)
  {
    hide Run, AllBodies, OwnsPort, Bodies, Sane;
    RunKeepsOwned(State([], reserved), ops);
    var fs := Run(State([], reserved), ops).forwards;
    BodiesHaveOwners(fs, b);
    PortOwnership(fs, b.dport);
  }

  // ---- what one call undoes, what it leaves alone ------------------------------------------------------

  ghost function LiveIn(fs: seq<Forward>, ns: NS): seq<Forward> {
    Covered(fs, InNamespace(ns))
  }

  lemma CoveredSnoc(fs: seq<Forward>, f: Forward, q: Query)
    ensures Covered(fs + [f], q) == Covered(fs, q) + if q.Covers(f) then [f] else []
  {
    assert (fs + [f])[..|fs|] == fs;
  }

  lemma {:induction false} CoveredAll(fs: seq<Forward>, q: Query)
    requires forall f :: f in fs ==> q.Covers(f)
    ensures Covered(fs, q) == fs
  {
    if fs != [] {
      var n := |fs| - 1;
      assert fs == fs[..n] + [fs[n]];
      CoveredAll(fs[..n], q);
    }
  }

  lemma {:induction false} CoveredNone(fs: seq<Forward>, q: Query)
    requires forall f :: f in fs ==> !q.Covers(f)
    ensures Covered(fs, q) == []
  {
    if fs != [] {
      var n := |fs| - 1;
      assert fs == fs[..n] + [fs[n]];
      CoveredNone(fs[..n], q);
    }
  }

  /** With as many drops as there are rules the forwards a query covers are gone. */
  lemma {:induction false} TrimmedAll(fs: seq<Forward>, q: Query, n: nat)
    requires Owned(fs) && n >= RuleCount(fs, q)
    ensures Trimmed(fs, q, n) == Covered(fs, q.Not())
  {
    hide Bodies;
    if fs != [] {
      var k := |fs| - 1;
      var init, f := fs[..k], fs[k];
      assert fs == init + [f];
      assert Sane(f.source);
      if q.Covers(f) {
        AllBodiesSnoc(Covered(init, q), f);
      } else {
        assert Covered(init, q) + [] == Covered(init, q);
      }
      TrimmedAll(init, q, n);
    }
  }

  /** Trimming by one query leaves alone what another, disjoint one covers. */
  lemma {:induction false} TrimmedElsewhere(fs: seq<Forward>, q: Query, n: nat, p: Query)
    requires forall ns, port :: !(q.Fits(ns, port) && p.Fits(ns, port))
    ensures Covered(Trimmed(fs, q, n), p) == Covered(fs, p)
  {
    hide AllBodies;
    if fs != [] {
      var k := |fs| - 1;
      var init, f := fs[..k], fs[k];
      TrimmedElsewhere(init, q, n, p);
      var before, m := Trimmed(init, q, n), Beyond(n, |AllBodies(Covered(init, q))|);
      assert before + [] == before && Covered(init, p) + [] == Covered(init, p);
      if q.Covers(f) {
        assert !p.Covers(f);
        if Trim(f, m) != [] {
          var g := Trim(f, m)[0];
          assert Trim(f, m) == [g] && !p.Covers(g);
          CoveredSnoc(before, g, p);
        }
      } else {
        CoveredSnoc(before, f, p);
      }
    }
  }

  /** `RemoveAll` leaves every other namespace untouched, however many drops succeed, and empties its
      own when none fails. */
  lemma RemoveAllIsLocal(s: State, ns: NS, drops: nat, other: NS)
    requires Owned(s.forwards)
    ensures other != ns ==> LiveIn(Do(s, RemoveAll(ns, drops)).forwards, other) == LiveIn(s.forwards, other)
    ensures drops >= RuleCount(s.forwards, InNamespace(ns)) ==> LiveIn(Do(s, RemoveAll(ns, drops)).forwards, ns) == []
  {
    hide Covered, Trimmed, Owned;
    if other != ns {
      TrimmedElsewhere(s.forwards, InNamespace(ns), drops, InNamespace(other));
    }
    if drops >= RuleCount(s.forwards, InNamespace(ns)) {
      TrimmedAll(s.forwards, InNamespace(ns), drops);
      CoveredNone(Do(s, RemoveAll(ns, drops)).forwards, InNamespace(ns));
    }
  }

  /** Removing what was just set, by the same host text, restores the forwards, whatever the target. */
  lemma RemoveUndoesSet(s: State, ns: NS, ip: Bytes, host: Bytes, dest: int, drops: nat)
    requires Owned(s.forwards) && SetSucceeds(s.forwards, host, true)
    requires drops >= |ParsedSource(host).value.protocols|
    ensures Do(Do(s, Set(ns, ip, host, dest, true)), Remove(ns, host, drops)).forwards == s.forwards
  {
    hide Covered, ParsedSource, Trimmed, Owned, AllBodies;
    var src := ParsedSource(host).value;
    var q, f := InNamespaceOnPort(ns, src.port), Forward(ns, src, ip, dest);
    DoKeepsOwned(s, Set(ns, ip, host, dest, true));
    CoveredSnoc(s.forwards, f, q);
    CoveredNone(s.forwards, q);
    AllBodiesSnoc([], f);
    NoBodies();
    assert [] + [f] == [f];
    TrimmedAll(s.forwards + [f], q, drops);
    CoveredSnoc(s.forwards, f, q.Not());
    CoveredAll(s.forwards, q.Not());
  }

  /** Removing by the text a forward is listed under takes away that forward and no other. */
  lemma ListedTextRemoves(s: State, f: Forward, g: Forward, drops: nat)
    requires Owned(s.forwards) && f in s.forwards
    requires drops >= RuleCount(s.forwards, InNamespaceOnPort(f.ns, f.source.port))
    ensures g in Do(s, Remove(f.ns, SourceText(f.source), drops)).forwards <==> g in s.forwards && g != f
  {
    hide ParsedSource, SourceText, Trimmed, AllBodies;
    assert Sane(f.source);
    PrintedIsRead(f.source);
    TrimmedAll(s.forwards, InNamespaceOnPort(f.ns, f.source.port), drops);
    if g in s.forwards && g.source.port == f.source.port {
      assert g == f;
    }
  }

  /** The forward a call of `RemovePortForward` names. */
  ghost predicate Named(f: Forward, ns: NS, src: Source, dest: int) {
    f.ns == ns && f.source == src && f.dest == dest
  }

  /** Removing takes away the named forwards and no others. */
  ghost predicate RemovesNamed(s: State, ns: NS, host: Bytes, dest: int, drops: nat)
    requires ParsedSource(host).Some?
  {
    forall g :: g in Do(s, Remove(ns, host, drops)).forwards <==>
      g in s.forwards && !Named(g, ns, ParsedSource(host).value, dest)
  }

  /** It does so exactly when every live forward of the namespace on that port has that source and that
      target. */
  lemma RemoveIsExactIff(s: State, ns: NS, host: Bytes, dest: int, drops: nat)
    requires ParsedSource(host).Some? && Owned(s.forwards)
    requires drops >= RuleCount(s.forwards, InNamespaceOnPort(ns, ParsedSource(host).value.port))
    ensures RemovesNamed(s, ns, host, dest, drops) <==>
      forall f :: f in s.forwards && f.ns == ns && f.source.port == ParsedSource(host).value.port ==>
        Named(f, ns, ParsedSource(host).value, dest)
  {
    hide ParsedSource, Trimmed, AllBodies, Owned;
    var src := ParsedSource(host).value;
    TrimmedAll(s.forwards, InNamespaceOnPort(ns, src.port), drops);
    if f :| f in s.forwards && f.ns == ns && f.source.port == src.port && !Named(f, ns, src, dest) {
      assert f !in Do(s, Remove(ns, host, drops)).forwards;
    }
  }

  /** `e:80|udp` with target 9090 is asked for; the forward of port 80 to 8080 from everywhere goes. */
  lemma RemoveTakesAnother(ns: NS, ip: Bytes)
    ensures var f := Forward(ns, Source(ANY_ADDRESS, 80, [Tcp]), ip, 8080);
      var s, host := State([f], map[]), SourceText(Source([101], 80, [Udp]));
      && ParsedSource(host) == Some(Source([101], 80, [Udp])) && !Named(f, ns, ParsedSource(host).value, 9090)
      && Do(s, Remove(ns, host, 1)).forwards == []
  {
    hide ParsedSource, SourceText, Trimmed, AllBodies;
    var f := Forward(ns, Source(ANY_ADDRESS, 80, [Tcp]), ip, 8080);
    var q := InNamespaceOnPort(ns, 80);
    PrintedIsRead(Source([101], 80, [Udp]));
    assert Sane(f.source) && Owned([f]);
    NoBodies();
    AllBodiesSnoc([], f);
    CoveredAll([f], q);
    CoveredNone([f], q.Not());
    assert [] + [f] == [f];
    TrimmedAll([f], q, 1);
  }

  // ---- reservations over runs -----------------------------------------------------------------------

  /** The ports a step hands out. */
  ghost function Handed(s: State, op: Op): seq<nat> {
    if op.Reserve? then Answer(Used(s, op.listening), s.reserved, op.clock, op.n).ports else []
  }

  ghost predicate Forwards(s: State, op: Op, p: nat) {
    op.Set? && SetSucceeds(s.forwards, op.host, op.accepted) && ParsedSource(op.host).value.port == p
  }

  ghost predicate Held(s: State, p: nat, until: int) {
    p in s.reserved && s.reserved[p] >= until
  }

  lemma StepHolds(s: State, op: Op, p: nat, until: int)
    requires Held(s, p, until) && !Forwards(s, op, p)
    requires op.Reserve? ==> Monotone(op.clock) && op.clock(0) + TTL >= until
    ensures Held(Do(s, op), p, until)
  {
    hide ParsedSource, Call, PortInUse, Trimmed, Used;
    if op.Reserve? {
      ReservedAfter(Used(s, op.listening), op.clock, s.reserved, FIRST, 0, op.n, p);
    }
  }

  lemma HandedIsHeld(s: State, op: Op, p: nat)
    requires op.Reserve? && Monotone(op.clock) && p in Handed(s, op)
    ensures Held(Do(s, op), p, op.clock(0) + TTL)
  {
    hide Call, Used;
    ReservedAfter(Used(s, op.listening), op.clock, s.reserved, FIRST, 0, op.n, p);
  }

  ghost predicate ClockForward(ops: seq<Op>) {
    && (forall i :: 0 <= i < |ops| && ops[i].Reserve? ==> Monotone(ops[i].clock))
    && (forall i, j :: 0 <= i < j < |ops| && ops[i].Reserve? && ops[j].Reserve? ==> ops[i].clock(0) <= ops[j].clock(0))
  }

  ghost function Before(s: State, ops: seq<Op>, i: nat): State
    requires i <= |ops|
  {
    Run(s, ops[..i])
  }

  lemma RunStep(s: State, ops: seq<Op>, i: nat)
    requires i < |ops|
    ensures Before(s, ops, i + 1) == Do(Before(s, ops, i), ops[i])
  {
    assert ops[..i + 1][..i] == ops[..i];
  }

  lemma {:induction false} StaysHeld(s: State, ops: seq<Op>, i: nat, j: nat, p: nat)
    requires ClockForward(ops) && i < j <= |ops| && ops[i].Reserve? && p in Handed(Before(s, ops, i), ops[i])
    requires forall m :: i < m < j ==> !Forwards(Before(s, ops, m), ops[m], p)
    ensures Held(Before(s, ops, j), p, ops[i].clock(0) + TTL)
    decreases j
  {
    hide Run, Forwards, Before, Handed, Do, Held;
    RunStep(s, ops, j - 1);
    if j - 1 == i {
      HandedIsHeld(Before(s, ops, i), ops[i], p);
    } else {
      StaysHeld(s, ops, i, j - 1, p);
      StepHolds(Before(s, ops, j - 1), ops[j - 1], p, ops[i].clock(0) + TTL);
    }
  }

  /** When the last of a call's readings of the clock was over. */
  ghost function EndOf(s: State, op: Op): int
    requires op.Reserve?
  {
    op.clock(Answer(Used(s, op.listening), s.reserved, op.clock, op.n).readings)
  }

  /** A port handed out is not handed out again by a call that ends within two minutes from the start of
      the first, unless it was forwarded in between. */
  lemma NoDoubleReservation(s: State, ops: seq<Op>, i: nat, j: nat, p: nat)
    requires ClockForward(ops) && i < j < |ops| && ops[i].Reserve? && ops[j].Reserve?
    ensures p in Handed(Before(s, ops, i), ops[i]) && p in Handed(Before(s, ops, j), ops[j]) ==>
      || EndOf(Before(s, ops, j), ops[j]) > ops[i].clock(0) + TTL
      || exists m :: i < m < j && Forwards(Before(s, ops, m), ops[m], p)
  {
    hide Run, Call, Forwards, Before, Used;
    if p in Handed(Before(s, ops, i), ops[i]) && p in Handed(Before(s, ops, j), ops[j])
      && forall m :: i < m < j ==> !Forwards(Before(s, ops, m), ops[m], p)
    {
      StaysHeld(s, ops, i, j, p);
      var now, op := Before(s, ops, j), ops[j];
      HandedLate(Used(now, op.listening), op.clock, now.reserved, op.n, p);
    }
  }

  // ---- the manager --------------------------------------------------------------------------------------

  datatype Listening = Listening(network: string, port: nat)

  ghost function TcpPorts(infos: seq<Listening>): set<nat> {
    set x | x in infos && x.network == "tcp" :: x.port
  }

  class Manager {
    var rules: seq<Rule>
    var next: nat
    var reserved: Expiries
    ghost var forwards: seq<Forward>

    ghost predicate Valid()
      reads this
    {
      Handled(rules, next) && Owned(forwards) && Said(rules) == AllBodies(forwards) && LAST !in reserved
    }

    ghost function Model(): State
      reads this
    {
      State(forwards, reserved)
    }

    constructor ()
      ensures Valid() && Model() == State([], map[])
    {
      rules, next, reserved, forwards := [], 0, map[], [];
    }

    /** `lookup`: the packet filter answers the lookup. `accepted`: it takes the new rules. */
    method SetPortForward(ns: NS, ip: Bytes, host: Bytes, dest: int, lookup: bool, accepted: bool) returns (ok: bool)
      requires Valid()
      modifies this
      ensures Valid() && ok == SetSucceeds(old(forwards), host, lookup && accepted)
      ensures Model() == Do(old(Model()), Set(ns, ip, host, dest, lookup && accepted))
    {
      hide Owned, Sane, ParsedSource, Find, Bodies, Handled, Said;
      var src := GetSource(host);
      if src.None? || !lookup {
        return false;
      }
      var port := src.value.port;
      var matches := Find(rules, OnPort(port));
      PortFound(rules, forwards, port);
      if |matches| > 0 {
        return false;
      }
      if !accepted {
        return false;
      }
      var f := Forward(ns, src.value, ip, dest);
      DoKeepsOwned(Model(), Set(ns, ip, host, dest, true));
      AllBodiesSnoc(forwards, f);
      Append(Bodies(f));
      forwards := forwards + [f];
      reserved := reserved - {port};
      return true;
    }

    /** The packet filter takes new rules at the end of the chain. */
    method Append(bodies: seq<Body>)
      requires Handled(rules, next)
      modifies this`rules, this`next
      ensures Handled(rules, next) && Said(rules) == old(Said(rules)) + bodies
    {
      for i := 0 to |bodies|
        invariant Handled(rules, next) && Said(rules) == old(Said(rules)) + bodies[..i]
      {
        hide Said;
        SaidSnoc(rules, Rule(next, bodies[i]));
        assert bodies[..i + 1] == bodies[..i] + [bodies[i]];
        rules := rules + [Rule(next, bodies[i])];
        next := next + 1;
      }
    }

    /** Look rules up and drop them one by one; the first drop that fails ends it. */
    method DropAll(q: Query, drops: nat) returns (ok: bool)
      requires Valid()
      modifies this`rules, this`forwards
      ensures Valid() && forwards == Trimmed(old(forwards), q, drops)
      ensures ok <==> drops >= RuleCount(old(forwards), q)
    {
      hide Owned, Find, Said, AllBodies, Dropped, Handled, First;
      var matches := Find(rules, q);
      ghost var gone: set<nat> := {};
      DropNone(rules);
      DropsForwards(rules, next, forwards, q, drops);
      FirstStep(matches, 0);
      var i := 0;
      while i < |matches| && i < drops
        invariant 0 <= i <= |matches| && i <= drops
        invariant rules == Dropped(old(rules), gone) && gone == HandlesOf(First(matches, i))
        invariant forwards == old(forwards)
      {
        FirstStep(matches, i);
        DropTwice(old(rules), gone, {matches[i].handle});
        rules := Dropped(rules, {matches[i].handle});
        gone := gone + {matches[i].handle};
        i := i + 1;
      }
      FirstAll(matches, i, drops);
      forwards := Trimmed(forwards, q, drops);
      return i == |matches|;
    }

    method RemovePortForward(ns: NS, host: Bytes, dest: int, lookup: bool, drops: nat) returns (ok: bool)
      requires Valid()
      modifies this`rules, this`forwards
      ensures Valid() && Model() == Do(old(Model()), Remove(ns, host, if lookup then drops else 0))
      ensures ok <==> var src := ParsedSource(host);
        src.Some? && lookup && drops >= RuleCount(old(forwards), InNamespaceOnPort(ns, src.value.port))
    {
      hide Trimmed, ParsedSource, Owned, RuleCount;
      var src := GetSource(host);
      if src.None? {
        return false;
      }
      if !lookup {
        TrimmedNone(forwards, InNamespaceOnPort(ns, src.value.port));
        return false;
      }
      ok := DropAll(InNamespaceOnPort(ns, src.value.port), drops);
    }

    method RemoveAllOf(ns: NS, lookup: bool, drops: nat) returns (ok: bool)
      requires Valid()
      modifies this`rules, this`forwards
      ensures Valid() && Model() == Do(old(Model()), RemoveAll(ns, if lookup then drops else 0))
      ensures ok <==> lookup && drops >= RuleCount(old(forwards), InNamespace(ns))
    {
      hide Trimmed, Owned, RuleCount;
      if !lookup {
        TrimmedNone(forwards, InNamespace(ns));
        return false;
      }
      ok := DropAll(InNamespace(ns), drops);
    }

    /** What the filter holds, one entry per port. */
    method RulesFromMatches(matches: seq<Rule>) returns (groups: map<nat, Forward>)
      ensures groups == Grouped(Said(matches))
    {
      groups := map[];
      for i := 0 to |matches|
        invariant groups == Grouped(Said(matches)[..i])
      {
        assert Said(matches)[..i + 1][..i] == Said(matches)[..i];
        var b := matches[i].body;
        if b.dport in groups {
          var f := groups[b.dport];
          groups := groups[b.dport := f.(source := f.source.(protocols := f.source.protocols + [b.protocol]))];
        } else {
          groups := groups[b.dport := Parsed(b)];
        }
      }
      assert Said(matches)[..|matches|] == Said(matches);
    }

    method List(ns: NS) returns (r: map<Bytes, int>)
      requires Valid()
      ensures Lists(r, LiveIn(forwards, ns))
    {
      hide Find, Grouped, Said, Owned, AllBodies, SourceText, Covered, Handled;
      var matches := Find(rules, InNamespace(ns));
      var groups := RulesFromMatches(matches);
      GroupsOf(rules, forwards, InNamespace(ns));
      ghost var live := LiveIn(forwards, ns);
      r := map[];
      var todo: set<nat> := groups.Keys;
      while todo != {}
        invariant todo <= groups.Keys && ListsGroups(r, groups, groups.Keys - todo)
      {
        var p :| p in todo;
        AddListed(r, live, groups, groups.Keys - todo, p);
        assert groups.Keys - todo + {p} == groups.Keys - (todo - {p});
        r := r[SourceText(groups[p].source) := groups[p].dest];
        todo := todo - {p};
      }
      assert groups.Keys - todo == groups.Keys;
      ListedAll(r, live, groups);
    }

    method ListAll(system: System) returns (r: map<NS, map<Bytes, int>>)
      requires Valid()
      ensures forall ns :: ns in r <==> SystemOf(ns) == system && LiveIn(forwards, ns) != []
      ensures forall ns :: ns in r ==> Lists(r[ns], LiveIn(forwards, ns))
    {
      hide Find, Grouped, Said, Owned, AllBodies, SourceText, Covered, Handled, SystemOf, Exact, ListsGroups, PortsOf;
      var matches := Find(rules, EVERYTHING);
      var groups := RulesFromMatches(matches);
      GroupsOf(rules, forwards, EVERYTHING);
      CoveredAll(forwards, EVERYTHING);
      r := map[];
      PortsNone(groups);
      var todo: set<nat> := groups.Keys;
      ghost var done: set<nat> := {};
      while todo != {}
        invariant todo <= groups.Keys && done == groups.Keys - todo
        invariant forall ns :: ns in r <==> SystemOf(ns) == system && PortsOf(groups, done, ns) != {}
        invariant forall ns :: ns in r ==> ListsGroups(r[ns], groups, PortsOf(groups, done, ns))
      {
        var p :| p in todo;
        var f := groups[p];
        PortsStep(groups, done, p);
        if SystemOf(f.ns) == system {
          ListsNothing(groups);
          assert f.ns !in r ==> PortsOf(groups, done, f.ns) == {};
          var m := if f.ns in r then r[f.ns] else map[];
          AddListed(m, forwards, groups, PortsOf(groups, done, f.ns), p);
          r := r[f.ns := m[SourceText(f.source) := f.dest]];
        }
        forall ns | ns in r ensures ListsGroups(r[ns], groups, PortsOf(groups, done + {p}, ns)) {
          assert ns != f.ns ==> PortsOf(groups, done + {p}, ns) == PortsOf(groups, done, ns);
        }
        done := done + {p};
        todo := todo - {p};
      }
      assert done == groups.Keys;
      forall ns ensures PortsOf(groups, done, ns) != {} <==> LiveIn(forwards, ns) != [] {
        LiveHasPorts(forwards, groups, ns);
      }
      forall ns | ns in r ensures Lists(r[ns], LiveIn(forwards, ns)) {
        ListedIn(r[ns], forwards, groups, ns);
      }
    }

    /** `infos` are the listening ports, `clock` the readings of the clock during the call. */
    method ReservePorts(n: int, infos: seq<Listening>, clock: Clock) returns (r: Reservations.Outcome)
      requires Valid() && Ticks(clock)
      modifies this`reserved
      ensures Valid() && r == Answer(Used(old(Model()), TcpPorts(infos)), old(reserved), clock, n)
      ensures Model() == Do(old(Model()), Reserve(n, TcpPorts(infos), clock))
    {
      hide Answer, Owned, AllBodies, Handled, Said;
      var used: set<nat> := {};
      for i := 0 to |infos|
        invariant used == TcpPorts(infos[..i])
      {
        assert infos[..i + 1] == infos[..i] + [infos[i]];
        if infos[i].network == "tcp" {
          used := used + {infos[i].port};
        }
      }
      assert infos[..|infos|] == infos;
      for i := 0 to |rules|
        invariant used == TcpPorts(infos) + RulePorts(rules[..i])
      {
        assert rules[..i + 1] == rules[..i] + [rules[i]];
        used := used + {rules[i].body.dport};
      }
      assert rules[..|rules|] == rules;
      RulePortsAreForwarded(rules, forwards);
      NeverReserved(used, clock, reserved, n);
      r := Search(n, used, reserved, clock);
      reserved := r.reserved;
    }
  }

  // ---- helpers of the methods ---------------------------------------------------------------------------

  lemma SaidSnoc(rules: seq<Rule>, r: Rule)
    ensures Said(rules + [r]) == Said(rules) + [r.body]
  {
  }

  /** A lookup by port finds a rule exactly when the port is forwarded. */
  lemma PortFound(rules: seq<Rule>, fs: seq<Forward>, port: nat)
    requires Owned(fs) && Said(rules) == AllBodies(fs)
    ensures |Find(rules, OnPort(port))| > 0 <==> PortInUse(fs, port)
  {
    hide Owned, AllBodies, PortInUse;
    RuleIffForward(fs, port);
    var found := Find(rules, OnPort(port));
    if found != [] {
      assert found[0] in found;
      var i :| 0 <= i < |rules| && rules[i] == found[0];
      assert Said(rules)[i] in AllBodies(fs);
    }
    if b :| b in AllBodies(fs) && b.dport == port {
      var i :| 0 <= i < |rules| && Said(rules)[i] == b;
      assert rules[i] in found;
    }
  }

  lemma DropsForwards(rules: seq<Rule>, next: nat, fs: seq<Forward>, q: Query, drops: nat)
    requires Handled(rules, next) && Owned(fs) && Said(rules) == AllBodies(fs)
    ensures var left := Dropped(rules, HandlesOf(First(Find(rules, q), drops)));
      Handled(left, next) && Said(left) == AllBodies(Trimmed(fs, q, drops)) && Owned(Trimmed(fs, q, drops))
    ensures |Find(rules, q)| == RuleCount(fs, q)
  {
    hide Said, AllBodies, Dropped, Covered, Find, First, HandlesOf, Trimmed, Handled;
    DropKeepsHandled(rules, HandlesOf(First(Find(rules, q), drops)), next);
    TrimmedOwned(fs, q, drops);
    DropSays(rules, next, q, drops);
    CutFollows(fs, q, drops);
    FindSays(rules, q);
    RulesFollowForwards(fs, q);
  }

  lemma FirstStep(matches: seq<Rule>, i: nat)
    ensures HandlesOf(First(matches, 0)) == {}
    ensures i < |matches| ==> HandlesOf(First(matches, i + 1)) == HandlesOf(First(matches, i)) + {matches[i].handle}
  {
    if i < |matches| {
      assert matches[..i + 1] == matches[..i] + [matches[i]];
    }
  }

  lemma FirstAll(matches: seq<Rule>, i: nat, drops: nat)
    requires i <= |matches| && i <= drops && (i == |matches| || i == drops)
    ensures First(matches, i) == First(matches, drops)
  {
    assert matches[..|matches|] == matches;
  }

  lemma {:induction false} TrimmedNone(fs: seq<Forward>, q: Query)
    ensures Trimmed(fs, q, 0) == fs
  {
    hide AllBodies, Covered, Trim, Trimmed;
    if fs == [] {
      TrimmedNothing(q);
    } else {
      var init, last := fs[..|fs| - 1], fs[|fs| - 1];
      TrimmedNone(init, q);
      TrimmedSnoc(init, last, q, 0);
      TrimNothing(last);
      assert fs == init + [last];
    }
  }

  lemma TrimmedNothing(q: Query)
    ensures Trimmed([], q, 0) == []
  {
  }

  lemma TrimmedSnoc(fs: seq<Forward>, f: Forward, q: Query, n: nat)
    ensures Trimmed(fs + [f], q, n) ==
      Trimmed(fs, q, n) + if q.Covers(f) then Trim(f, Beyond(n, |AllBodies(Covered(fs, q))|)) else [f]
  {
    hide AllBodies, Covered, Trim;
    assert (fs + [f])[..|fs|] == fs;
  }

  lemma TrimNothing(f: Forward)
    ensures Trim(f, 0) == [f]
  {
  }

  ghost function RulePorts(rules: seq<Rule>): set<nat> {
    set r | r in rules :: r.body.dport
  }

  lemma RulePortsAreForwarded(rules: seq<Rule>, fs: seq<Forward>)
    requires Owned(fs) && Said(rules) == AllBodies(fs)
    ensures RulePorts(rules) == ForwardedPorts(fs)
  {
    hide Owned, AllBodies, Said, Find;
    forall port: nat ensures port in RulePorts(rules) <==> port in ForwardedPorts(fs) {
      PortFound(rules, fs, port);
      var found := Find(rules, OnPort(port));
      if found != [] {
        assert found[0] in found;
      }
    }
  }

  // ---- listings -----------------------------------------------------------------------------------------

  /** A listing holds the text and the target of every forward, and nothing else. */
  ghost predicate Lists(r: map<Bytes, int>, fs: seq<Forward>) {
    && (forall f :: f in fs ==> SourceText(f.source) in r && r[SourceText(f.source)] == f.dest)
    && (forall t :: t in r ==> exists f :: f in fs && t == SourceText(f.source))
  }

  /** Two live forwards are never listed under one text. */
  lemma ListedApart(fs: seq<Forward>, f: Forward, g: Forward)
    requires Owned(fs) && f in fs && g in fs && SourceText(f.source) == SourceText(g.source)
    ensures f == g
  {
    hide SourceText, ParsedSource;
    assert Sane(f.source) && Sane(g.source);
    PrintedIsRead(f.source);
    PrintedIsRead(g.source);
  }

  lemma ShownText(f: Forward)
    ensures SourceText(Shown(f).source) == SourceText(f.source)
  {
  }

  ghost predicate Exact(groups: map<nat, Forward>, fs: seq<Forward>) {
    && (forall p :: p in groups <==> PortInUse(fs, p))
    && (forall f :: f in fs ==> f.source.port in groups && groups[f.source.port] == Shown(f))
  }

  ghost predicate ListsGroups(r: map<Bytes, int>, groups: map<nat, Forward>, done: set<nat>)
    requires done <= groups.Keys
  {
    && (forall p :: p in done ==>
          SourceText(groups[p].source) in r && r[SourceText(groups[p].source)] == groups[p].dest)
    && (forall t :: t in r ==> exists p :: p in done && t == SourceText(groups[p].source))
  }

  ghost function PortsOf(groups: map<nat, Forward>, done: set<nat>, ns: NS): (r: set<nat>)
    requires done <= groups.Keys
    ensures r <= done
  {
    set p | p in done && groups[p].ns == ns
  }

  lemma PortsStep(groups: map<nat, Forward>, done: set<nat>, p: nat)
    requires done <= groups.Keys && p in groups
    ensures PortsOf(groups, done + {p}, groups[p].ns) == PortsOf(groups, done, groups[p].ns) + {p}
    ensures forall ns :: ns != groups[p].ns ==> PortsOf(groups, done + {p}, ns) == PortsOf(groups, done, ns)
  {
  }

  lemma PortsNone(groups: map<nat, Forward>)
    ensures forall ns :: PortsOf(groups, {}, ns) == {}
  {
  }

  lemma ListsNothing(groups: map<nat, Forward>)
    ensures ListsGroups(map[], groups, {})
  {
  }

  lemma GroupsOf(rules: seq<Rule>, fs: seq<Forward>, q: Query)
    requires Owned(fs) && Said(rules) == AllBodies(fs)
    ensures Exact(Grouped(Said(Find(rules, q))), Covered(fs, q)) && Owned(Covered(fs, q))
  {
    hide Owned, AllBodies, Said, Find, Grouped, Covered, PortInUse;
    FindSays(rules, q);
    RulesFollowForwards(fs, q);
    CoveredOwned(fs, q);
    GroupingIsExact(Covered(fs, q));
    forall f | f in Covered(fs, q) ensures PortInUse(Covered(fs, q), f.source.port) {
      InUse(Covered(fs, q), f);
    }
  }

  lemma InUse(fs: seq<Forward>, f: Forward)
    requires f in fs
    ensures PortInUse(fs, f.source.port)
  {
  }

  /** The forward a group stands for. */
  lemma GroupOwner(fs: seq<Forward>, groups: map<nat, Forward>, p: nat) returns (f: Forward)
    requires Exact(groups, fs) && p in groups
    ensures f in fs && f.source.port == p && groups[p] == Shown(f)
    ensures SourceText(groups[p].source) == SourceText(f.source) && groups[p].dest == f.dest && groups[p].ns == f.ns
  {
    hide SourceText;
    f :| f in fs && f.source.port == p;
    ShownText(f);
  }

  lemma AddListed(r: map<Bytes, int>, fs: seq<Forward>, groups: map<nat, Forward>, done: set<nat>, p: nat)
    requires Owned(fs) && Exact(groups, fs) && done <= groups.Keys && ListsGroups(r, groups, done)
    requires p in groups && p !in done
    ensures ListsGroups(r[SourceText(groups[p].source) := groups[p].dest], groups, done + {p})
  {
    hide Owned, SourceText, Exact;
    var text := SourceText(groups[p].source);
    forall q | q in done ensures SourceText(groups[q].source) != text {
      var f := GroupOwner(fs, groups, p);
      var g := GroupOwner(fs, groups, q);
      if SourceText(f.source) == SourceText(g.source) {
        ListedApart(fs, f, g);
      }
    }
    var r' := r[text := groups[p].dest];
    forall t | t in r' ensures exists q :: q in done + {p} && t == SourceText(groups[q].source) {
      if t == text {
        assert p in done + {p};
      } else {
        var q :| q in done && t == SourceText(groups[q].source);
        assert q in done + {p};
      }
    }
  }

  /** The group of a forward. */
  lemma GroupOf(fs: seq<Forward>, groups: map<nat, Forward>, f: Forward)
    requires Exact(groups, fs) && f in fs
    ensures var p := f.source.port;
      && p in groups && SourceText(groups[p].source) == SourceText(f.source)
      && groups[p].dest == f.dest && groups[p].ns == f.ns
  {
    hide SourceText, PortInUse;
    ShownText(f);
  }

  lemma ListedIn(r: map<Bytes, int>, fs: seq<Forward>, groups: map<nat, Forward>, ns: NS)
    requires Exact(groups, fs) && ListsGroups(r, groups, PortsOf(groups, groups.Keys, ns))
    ensures Lists(r, LiveIn(fs, ns))
  {
    hide SourceText, Covered, Exact;
    var ports := PortsOf(groups, groups.Keys, ns);
    forall f | f in LiveIn(fs, ns) ensures SourceText(f.source) in r && r[SourceText(f.source)] == f.dest {
      GroupOf(fs, groups, f);
      assert f.source.port in ports;
    }
    forall t | t in r ensures exists f :: f in LiveIn(fs, ns) && t == SourceText(f.source) {
      var p :| p in ports && t == SourceText(groups[p].source);
      var f := GroupOwner(fs, groups, p);
    }
  }

  lemma ListedAll(r: map<Bytes, int>, fs: seq<Forward>, groups: map<nat, Forward>)
    requires Exact(groups, fs) && ListsGroups(r, groups, groups.Keys)
    ensures Lists(r, fs)
  {
    hide SourceText, Exact;
    forall f | f in fs ensures SourceText(f.source) in r && r[SourceText(f.source)] == f.dest {
      GroupOf(fs, groups, f);
    }
    forall t | t in r ensures exists f :: f in fs && t == SourceText(f.source) {
      var p :| p in groups && t == SourceText(groups[p].source);
      var f := GroupOwner(fs, groups, p);
    }
  }

  lemma LiveHasPorts(fs: seq<Forward>, groups: map<nat, Forward>, ns: NS)
    requires Exact(groups, fs)
    ensures PortsOf(groups, groups.Keys, ns) != {} <==> LiveIn(fs, ns) != []
  {
    hide Covered;
    var live := LiveIn(fs, ns);
    if p :| p in PortsOf(groups, groups.Keys, ns) {
      var f := GroupOwner(fs, groups, p);
      assert f in live;
    }
    if live != [] {
      assert live[0] in live;
      assert live[0].source.port in PortsOf(groups, groups.Keys, ns);
    }
  }
}
