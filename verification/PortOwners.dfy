/** Who owns a port: all rules on it come from one forward, so grouping rules by port gives the forwards
    back. About apps/core0/helper/socat/socat.go. */
module PortOwners {
  import opened Wrappers
  import opened StreamParser
  import opened Sources
  import opened PortForwards

  // ---- ownership --------------------------------------------------------------------------------------

  /** No two forwards share a port. */
  ghost predicate Owned(fs: seq<Forward>) {
    && (forall f :: f in fs ==> Sane(f.source))
    && (forall i, j :: 0 <= i < j < |fs| ==> fs[i].source.port != fs[j].source.port)
  }

  ghost predicate PortInUse(fs: seq<Forward>, port: nat) {
    exists f :: f in fs && f.source.port == port
  }

  /** Every rule on the forward's port is one of its own. */
  ghost predicate OwnsPort(fs: seq<Forward>, f: Forward) {
    forall b :: b in AllBodies(fs) && b.dport == f.source.port ==> b in Bodies(f)
  }

  lemma {:induction false} BodiesHaveOwners(fs: seq<Forward>, b: Body)
    requires b in AllBodies(fs)
    ensures exists f :: f in fs && b in Bodies(f)
  {
    hide Bodies;
    var n := |fs| - 1;
    if b in AllBodies(fs[..n]) {
      BodiesHaveOwners(fs[..n], b);
    } else {
      assert fs[n] in fs;
    }
  }

  lemma {:induction false} OwnersHaveBodies(fs: seq<Forward>, f: Forward)
    requires f in fs
    ensures forall b :: b in Bodies(f) ==> b in AllBodies(fs)
  {
    hide Bodies;
    var n := |fs| - 1;
    if f in fs[..n] {
      OwnersHaveBodies(fs[..n], f);
    }
  }

  /** All rules with one destination port come from a single forward. */
  lemma PortOwnership(fs: seq<Forward>, port: nat)
    requires Owned(fs) && PortInUse(fs, port)
    ensures exists f :: f in fs && f.source.port == port && OwnsPort(fs, f)
  {
    hide AllBodies, Bodies;
    var f :| f in fs && f.source.port == port;
    forall b | b in AllBodies(fs) && b.dport == port ensures b in Bodies(f) {
      BodiesHaveOwners(fs, b);
      var g :| g in fs && b in Bodies(g);
      assert g == f;
    }
  }

  /** A port has a rule exactly when a forward holds it. */
  lemma RuleIffForward(fs: seq<Forward>, port: nat)
    requires Owned(fs)
    ensures (exists b :: b in AllBodies(fs) && b.dport == port) <==> PortInUse(fs, port)
  {
    hide AllBodies;
    if b :| b in AllBodies(fs) && b.dport == port {
      BodiesHaveOwners(fs, b);
    }
    if f :| f in fs && f.source.port == port {
      OwnersHaveBodies(fs, f);
      assert Bodies(f)[0] in Bodies(f);
    }
  }

  // ---- grouping by port -------------------------------------------------------------------------------

  /** A rule read back as a forward with one protocol. */
  function Parsed(b: Body): Forward {
    Forward(b.ns, Source(b.from, b.dport, [b.protocol]), b.ip, b.dest)
  }

  /** A rule joins the group of its port. */
  function WithRule(groups: map<nat, Forward>, b: Body): map<nat, Forward> {
    if b.dport in groups then
      var f := groups[b.dport];
      groups[b.dport := f.(source := f.source.(protocols := f.source.protocols + [b.protocol]))]
    else groups[b.dport := Parsed(b)]
  }

  function Grouped(bs: seq<Body>): map<nat, Forward> {
    if bs == [] then map[] else WithRule(Grouped(bs[..|bs| - 1]), bs[|bs| - 1])
  }

  /** A forward as it reads back from its rules: the all-addresses address is not written. */
  ghost function Shown(f: Forward): Forward {
    f.(source := f.source.(ip := if f.source.ip == ANY_ADDRESS then [] else f.source.ip))
  }

  /** A forward of which the first `k` rules have been read. */
  ghost function Partly(f: Forward, k: nat): Forward
    requires k <= |f.source.protocols|
  {
    var s := Shown(f).source;
    Shown(f).(source := s.(protocols := s.protocols[..k]))
  }

  lemma WithRuleStep(groups: map<nat, Forward>, f: Forward, k: nat)
    requires k < |f.source.protocols| && (k == 0 ==> f.source.port !in groups)
    ensures var port := f.source.port;
      var sofar := if k == 0 then groups else groups[port := Partly(f, k)];
      WithRule(sofar, Bodies(f)[k]) == groups[port := Partly(f, k + 1)]
  {
    var ps := f.source.protocols;
    assert ps[..k + 1] == ps[..k] + [ps[k]];
    var port := f.source.port;
    if k == 0 {
      assert Parsed(Bodies(f)[0]) == Partly(f, 1);
    } else {
      assert groups[port := Partly(f, k)][port := Partly(f, k + 1)] == groups[port := Partly(f, k + 1)];
    }
  }

  lemma {:induction false} GroupOne(done: seq<Body>, f: Forward, k: nat)
    requires f.source.port !in Grouped(done) && 1 <= k <= |f.source.protocols|
    ensures Grouped(done + Bodies(f)[..k]) == Grouped(done)[f.source.port := Partly(f, k)]
  {
    hide Bodies, WithRule, Partly;
    var bs := Bodies(f);
    var here := done + bs[..k];
    assert here[..|here| - 1] == done + bs[..k - 1];
    assert here[|here| - 1] == bs[k - 1];
    if k == 1 {
      assert done + bs[..0] == done;
    } else {
      GroupOne(done, f, k - 1);
    }
    WithRuleStep(Grouped(done), f, k - 1);
  }

  /** Grouping by port loses nothing: every forward comes back whole under its port, and nothing else. */
  lemma {:induction false} GroupingIsExact(fs: seq<Forward>)
    requires Owned(fs)
    ensures var g := Grouped(AllBodies(fs));
      && (forall p :: p in g <==> PortInUse(fs, p))
      && (forall f :: f in fs ==> g[f.source.port] == Shown(f))
  {
    hide Bodies, Grouped, Sane, Shown;
    if fs == [] {
      GroupNothing();
    } else {
      var n := |fs| - 1;
      var f := fs[n];
      assert fs == fs[..n] + [f];
      GroupingIsExact(fs[..n]);
      GroupForward(AllBodies(fs[..n]), f);
      forall p ensures PortInUse(fs, p) <==> PortInUse(fs[..n], p) || p == f.source.port {
      }
    }
  }

  lemma GroupNothing()
    ensures Grouped([]) == map[]
  {
  }

  lemma GroupForward(done: seq<Body>, f: Forward)
    requires f.source.port !in Grouped(done) && Sane(f.source)
    ensures Grouped(done + Bodies(f)) == Grouped(done)[f.source.port := Shown(f)]
  {
    hide Bodies, Grouped;
    var ps := f.source.protocols;
    GroupOne(done, f, |ps|);
    assert Bodies(f)[..|ps|] == Bodies(f) && ps[..|ps|] == ps;
  }
}
