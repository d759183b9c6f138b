/** The port-forward manager: a table of nat rules, one per protocol of a forward, and the ports
    reserved for forwards to come. Models apps/core0/helper/socat/socat.go and types.go; the packet
    filter's ruleset is a sequence of structured rules with atomic apply and drop. */
module PortForwards {
  import opened Wrappers
  import opened StreamParser
  import opened Sources

  // ---- namespaces -----------------------------------------------------------------------------------

  /** A namespace is the mark its rules carry. */
  datatype NS = NS(mark: bv32)

  type System = x: bv32 | x <= 0xff
  type Id = x: bv32 | x <= 0xffff

  function Namespace(system: System, id: Id): NS {
    NS((system << 24) | id)
  }

  function SystemOf(ns: NS): System {
    ns.mark >> 24
  }

  /** A namespace holds its system and its id, and nothing else fits it. */
  lemma NamespaceUnpacks(system: System, id: Id)
    ensures var ns := Namespace(system, id); SystemOf(ns) == system && ns.mark & 0xffffff == id
  {
  }

  lemma NamespaceInjective(system: System, id: Id, system': System, id': Id)
    ensures Namespace(system, id) == Namespace(system', id') <==> system == system' && id == id'
  {
    hide Namespace, SystemOf;
    NamespaceUnpacks(system, id);
    NamespaceUnpacks(system', id');
  }

  // ---- forwards and their rules -----------------------------------------------------------------------

  datatype Forward = Forward(ns: NS, source: Source, ip: Bytes, dest: int)

  /** What a rule says: `from` is the address it is limited to, empty for none. */
  datatype Body = Body(protocol: Protocol, dport: nat, from: Bytes, ns: NS, ip: Bytes, dest: int)
  datatype Rule = Rule(handle: nat, body: Body)

  /** One rule per protocol, in order. */
  function Bodies(f: Forward): (r: seq<Body>)
    ensures |r| == |f.source.protocols|
    ensures forall b :: b in r ==> b.dport == f.source.port && b.ns == f.ns
  {
    var s := f.source;
    var from := if s.ip == ANY_ADDRESS then [] else s.ip;
    seq(|s.protocols|, k requires 0 <= k < |s.protocols| => Body(s.protocols[k], s.port, from, f.ns, f.ip, f.dest))
  }

  ghost function AllBodies(fs: seq<Forward>): seq<Body> {
    if fs == [] then [] else AllBodies(fs[..|fs| - 1]) + Bodies(fs[|fs| - 1])
  }

  /** The filter of a lookup: a namespace mark, a destination port, both or neither; or all but those. */
  datatype Query = Query(ns: Option<NS>, port: Option<nat>, but: bool) {
    predicate Fits(ns': NS, port': nat) {
      ((ns.Some? ==> ns.value == ns') && (port.Some? ==> port.value == port')) != but
    }
    predicate Hits(b: Body) { Fits(b.ns, b.dport) }
    predicate Covers(f: Forward) { Fits(f.ns, f.source.port) }
    function Not(): Query { this.(but := !but) }
  }

  const EVERYTHING := Query(None, None, false)

  function InNamespace(ns: NS): Query { Query(Some(ns), None, false) }
  function OnPort(port: nat): Query { Query(None, Some(port), false) }
  function InNamespaceOnPort(ns: NS, port: nat): Query { Query(Some(ns), Some(port), false) }

  function Find(rules: seq<Rule>, q: Query): (r: seq<Rule>)
    ensures forall x :: x in r <==> x in rules && q.Hits(x.body)
  {
    if rules == [] then []
    else
      var n := |rules| - 1;
      assert rules == rules[..n] + [rules[n]];
      Find(rules[..n], q) + if q.Hits(rules[n].body) then [rules[n]] else []
  }

  /** The rules whose handle is not in `handles`. */
  function Dropped(rules: seq<Rule>, handles: set<nat>): seq<Rule> {
    if rules == [] then []
    else
      var n := |rules| - 1;
      Dropped(rules[..n], handles) + if rules[n].handle in handles then [] else [rules[n]]
  }

  ghost function Said(rules: seq<Rule>): (r: seq<Body>)
    ensures |r| == |rules|
  {
    seq(|rules|, i requires 0 <= i < |rules| => rules[i].body)
  }

  ghost function Hit(bs: seq<Body>, q: Query): seq<Body> {
    if bs == [] then []
    else Hit(bs[..|bs| - 1], q) + if q.Hits(bs[|bs| - 1]) then [bs[|bs| - 1]] else []
  }

  /** The forwards a query covers, in order. */
  ghost function Covered(fs: seq<Forward>, q: Query): (r: seq<Forward>)
    ensures forall f :: f in r <==> f in fs && q.Covers(f)
  {
    if fs == [] then []
    else
      var n := |fs| - 1;
      assert fs == fs[..n] + [fs[n]];
      Covered(fs[..n], q) + if q.Covers(fs[n]) then [fs[n]] else []
  }

  lemma {:induction false} HitConcat(a: seq<Body>, b: seq<Body>, q: Query)
    ensures Hit(a + b, q) == Hit(a, q) + Hit(b, q)
  {
    if b == [] {
      assert a + b == a;
    } else {
      var n := |b| - 1;
      HitConcat(a, b[..n], q);
      assert (a + b)[..|a + b| - 1] == a + b[..n];
    }
  }

  /** A query hits all the rules of a forward or none of them. */
  lemma {:induction false} AllOrNone(bs: seq<Body>, q: Query, hit: bool)
    requires forall b :: b in bs ==> q.Hits(b) == hit
    ensures Hit(bs, q) == if hit then bs else []
  {
    if bs != [] {
      var n := |bs| - 1;
      assert bs == bs[..n] + [bs[n]];
      AllOrNone(bs[..n], q, hit);
    }
  }

  /** Filtering rules is filtering forwards. */
  lemma {:induction false} RulesFollowForwards(fs: seq<Forward>, q: Query)
    ensures Hit(AllBodies(fs), q) == AllBodies(Covered(fs, q))
  {
    hide Bodies, Hit;
    if fs == [] {
      AllOrNone([], q, true);
    } else {
      var n := |fs| - 1;
      var f := fs[n];
      RulesFollowForwards(fs[..n], q);
      HitConcat(AllBodies(fs[..n]), Bodies(f), q);
      AllOrNone(Bodies(f), q, q.Covers(f));
      var before := Covered(fs[..n], q);
      AllBodiesSnoc(before, f);
      assert AllBodies(before) + [] == AllBodies(before) && before + [] == before;
    }
  }

  lemma NoBodies()
    ensures AllBodies([]) == []
  {
  }

  lemma AllBodiesSnoc(fs: seq<Forward>, f: Forward)
    ensures AllBodies(fs + [f]) == AllBodies(fs) + Bodies(f)
  {
    assert (fs + [f])[..|fs|] == fs;
  }

  // ---- dropping some of the rules ---------------------------------------------------------------------

  /** What is left of a forward without its first `m` rules. */
  ghost function Trim(f: Forward, m: nat): seq<Forward> {
    if m == 0 then [f]
    else if m >= |f.source.protocols| then []
    else [f.(source := f.source.(protocols := f.source.protocols[m..]))]
  }

  function Beyond(n: nat, count: nat): nat {
    if n <= count then 0 else n - count
  }

  /** The forwards once the first `n` of the rules a query hits are gone. */
  ghost function Trimmed(fs: seq<Forward>, q: Query, n: nat): seq<Forward> {
    if fs == [] then []
    else
      var init, last := fs[..|fs| - 1], fs[|fs| - 1];
      Trimmed(init, q, n) + if q.Covers(last) then Trim(last, Beyond(n, |AllBodies(Covered(init, q))|)) else [last]
  }

  lemma TrimBodies(f: Forward, m: nat)
    requires f.source.protocols != []
    ensures AllBodies(Trim(f, m)) == if m <= |Bodies(f)| then Bodies(f)[m..] else []
  {
    if m == 0 {
      AllBodiesSnoc([], f);
      assert [] + [f] == [f] && Bodies(f)[0..] == Bodies(f);
    } else if m < |f.source.protocols| {
      var g := f.(source := f.source.(protocols := f.source.protocols[m..]));
      AllBodiesSnoc([], g);
      assert [] + [g] == [g];
      assert Bodies(g) == Bodies(f)[m..];
    }
  }

  lemma {:induction false} AllBodiesConcat(a: seq<Forward>, b: seq<Forward>)
    ensures AllBodies(a + b) == AllBodies(a) + AllBodies(b)
  {
    hide Bodies, AllBodies;
    if b == [] {
      assert a + b == a;
      NoBodies();
    } else {
      var n := |b| - 1;
      var init, last := b[..n], b[n];
      AllBodiesConcat(a, init);
      AllBodiesSnoc(a + init, last);
      AllBodiesSnoc(init, last);
      assert b == init + [last] && a + b == a + init + [last];
      assert AllBodies(a) + (AllBodies(init) + Bodies(last)) == AllBodies(a) + AllBodies(init) + Bodies(last);
    }
  }

  // ---- handles ----------------------------------------------------------------------------------------

  ghost predicate Handled(rules: seq<Rule>, next: nat) {
    && (forall r :: r in rules ==> r.handle < next)
    && (forall i, j :: 0 <= i < j < |rules| ==> rules[i].handle < rules[j].handle)
  }

  ghost function HandlesOf(rules: seq<Rule>): set<nat> {
    set r | r in rules :: r.handle
  }

  lemma {:induction false} FindSays(rules: seq<Rule>, q: Query)
    ensures Said(Find(rules, q)) == Hit(Said(rules), q)
  {
    if rules != [] {
      var n := |rules| - 1;
      FindSays(rules[..n], q);
      assert Said(rules)[..n] == Said(rules[..n]);
    }
  }

  lemma {:induction false} FindGrows(rules: seq<Rule>, q: Query, i: nat)
    requires i <= |rules|
    ensures Find(rules[..i], q) <= Find(rules, q)
    decreases |rules|
  {
    if i < |rules| {
      var n := |rules| - 1;
      FindGrows(rules[..n], q, i);
      assert rules[..n][..i] == rules[..i];
    } else {
      assert rules[..i] == rules;
    }
  }

  /** A rule that is hit stands in the result behind those hit before it. */
  lemma FindAt(rules: seq<Rule>, q: Query, i: nat)
    requires i < |rules| && q.Hits(rules[i].body)
    ensures |Find(rules[..i], q)| < |Find(rules, q)| && Find(rules, q)[|Find(rules[..i], q)|] == rules[i]
  {
    FindGrows(rules, q, i + 1);
    assert rules[..i + 1][..i] == rules[..i];
    var upto := Find(rules[..i + 1], q);
    assert upto == Find(rules[..i], q) + [rules[i]];
  }

  lemma {:induction false} FindIncreases(rules: seq<Rule>, q: Query, next: nat)
    requires Handled(rules, next)
    ensures Handled(Find(rules, q), next)
  {
    if rules != [] {
      var n := |rules| - 1;
      assert rules == rules[..n] + [rules[n]];
      FindIncreases(rules[..n], q, rules[n].handle);
    }
  }

  /** The first `n` matches. */
  function First(matches: seq<Rule>, n: nat): seq<Rule> {
    if n <= |matches| then matches[..n] else matches
  }

  /** The bodies without the first `n` that are hit. */
  ghost function Cut(bs: seq<Body>, q: Query, n: nat): seq<Body> {
    if bs == [] then []
    else
      var init, last := bs[..|bs| - 1], bs[|bs| - 1];
      Cut(init, q, n) + if q.Hits(last) && |Hit(init, q)| < n then [] else [last]
  }

  /** The handles of the first matches tell the first rules that are hit. */
  lemma HandlesTell(rules: seq<Rule>, next: nat, q: Query, n: nat, i: nat)
    requires Handled(rules, next) && i < |rules|
    ensures rules[i].handle in HandlesOf(First(Find(rules, q), n)) <==>
      q.Hits(rules[i].body) && |Find(rules[..i], q)| < n
  {
    hide Find;
    var found, first := Find(rules, q), First(Find(rules, q), n);
    FindIncreases(rules, q, next);
    if q.Hits(rules[i].body) {
      FindAt(rules, q, i);
    }
    if x :| x in first && x.handle == rules[i].handle {
      var p :| 0 <= p < |first| && first[p] == x;
      assert found[p] == x && x in found && x in rules;
      var j :| 0 <= j < |rules| && rules[j] == x;
      assert j == i && p == |Find(rules[..i], q)|;
    }
  }

  lemma {:induction false} DropSaysUpTo(rules: seq<Rule>, q: Query, n: nat, handles: set<nat>, k: nat)
    requires k <= |rules|
    requires forall i :: 0 <= i < k ==>
      (rules[i].handle in handles <==> q.Hits(rules[i].body) && |Find(rules[..i], q)| < n)
    ensures Said(Dropped(rules[..k], handles)) == Cut(Said(rules[..k]), q, n)
  {
    hide Find;
    if k > 0 {
      var init := rules[..k - 1];
      DropSaysUpTo(rules, q, n, handles, k - 1);
      assert rules[..k][..k - 1] == init && Said(rules[..k])[..k - 1] == Said(init);
      FindSays(init, q);
    }
  }

  /** Dropping the first `n` matches by their handles leaves exactly the other rules, in order. */
  lemma DropSays(rules: seq<Rule>, next: nat, q: Query, n: nat)
    requires Handled(rules, next)
    ensures Said(Dropped(rules, HandlesOf(First(Find(rules, q), n)))) == Cut(Said(rules), q, n)
  {
    hide Find, Said, Dropped, HandlesOf, Handled;
    var handles := HandlesOf(First(Find(rules, q), n));
    forall i | 0 <= i < |rules|
      ensures rules[i].handle in handles <==> q.Hits(rules[i].body) && |Find(rules[..i], q)| < n
    {
      HandlesTell(rules, next, q, n, i);
    }
    DropSaysUpTo(rules, q, n, handles, |rules|);
    assert rules[..|rules|] == rules;
  }

  lemma {:induction false} DropKeepsHandled(rules: seq<Rule>, handles: set<nat>, next: nat)
    requires Handled(rules, next)
    ensures Handled(Dropped(rules, handles), next)
    ensures forall r :: r in Dropped(rules, handles) ==> r in rules
  {
    if rules != [] {
      var n := |rules| - 1;
      assert rules == rules[..n] + [rules[n]];
      DropKeepsHandled(rules[..n], handles, rules[n].handle);
    }
  }

  lemma {:induction false} DropTwice(rules: seq<Rule>, a: set<nat>, b: set<nat>)
    ensures Dropped(Dropped(rules, a), b) == Dropped(rules, a + b)
  {
    if rules != [] {
      var n := |rules| - 1;
      DropTwice(rules[..n], a, b);
      var before := Dropped(rules[..n], a);
      DroppedSnoc(before, rules[n], b);
      assert before + [] == before && Dropped(before, b) + [] == Dropped(before, b);
    }
  }

  lemma DroppedSnoc(rules: seq<Rule>, r: Rule, handles: set<nat>)
    ensures Dropped(rules + [r], handles) == Dropped(rules, handles) + if r.handle in handles then [] else [r]
  {
    assert (rules + [r])[..|rules|] == rules;
  }

  lemma {:induction false} DropNone(rules: seq<Rule>)
    ensures Dropped(rules, {}) == rules
  {
    if rules != [] {
      DropNone(rules[..|rules| - 1]);
    }
  }

  lemma CutSnoc(bs: seq<Body>, b: Body, q: Query, n: nat)
    ensures Cut(bs + [b], q, n) == Cut(bs, q, n) + if q.Hits(b) && |Hit(bs, q)| < n then [] else [b]
  {
    assert (bs + [b])[..|bs|] == bs;
  }

  /** Behind other bodies, a run of bodies that are all hit, or all missed. */
  lemma {:induction false} CutBehind(a: seq<Body>, bs: seq<Body>, q: Query, n: nat, hit: bool)
    requires forall b :: b in bs ==> q.Hits(b) == hit
    ensures var m := if hit then Beyond(n, |Hit(a, q)|) else 0;
      Cut(a + bs, q, n) == Cut(a, q, n) + if m <= |bs| then bs[m..] else []
    decreases |bs|
  {
    hide Cut, Hit;
    if bs == [] {
      assert a + bs == a && Cut(a, q, n) + [] == Cut(a, q, n);
    } else {
      var k := |bs| - 1;
      var init, last := bs[..k], bs[k];
      assert bs == init + [last];
      CutBehind(a, init, q, n, hit);
      assert a + bs == a + init + [last];
      CutSnoc(a + init, last, q, n);
      HitConcat(a, init, q);
      AllOrNone(init, q, hit);
      var m := if hit then Beyond(n, |Hit(a, q)|) else 0;
      if m <= k {
        assert init[m..] + [last] == bs[m..];
      }
    }
  }

  /** Dropping rules one by one is trimming the forwards. */
  lemma {:induction false} CutFollows(fs: seq<Forward>, q: Query, n: nat)
    requires forall f :: f in fs ==> f.source.protocols != []
    ensures Cut(AllBodies(fs), q, n) == AllBodies(Trimmed(fs, q, n))
  {
    hide Bodies, Hit, Trim, Covered;
    if fs != [] {
      var k := |fs| - 1;
      var init, f := fs[..k], fs[k];
      CutFollows(init, q, n);
      CutBehind(AllBodies(init), Bodies(f), q, n, q.Covers(f));
      RulesFollowForwards(init, q);
      var m := Beyond(n, |AllBodies(Covered(init, q))|);
      if q.Covers(f) {
        TrimBodies(f, m);
        AllBodiesConcat(Trimmed(init, q, n), Trim(f, m));
      } else {
        AllBodiesSnoc(Trimmed(init, q, n), f);
        assert Bodies(f)[0..] == Bodies(f);
      }
    }
  }
}
