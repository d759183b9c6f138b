/** The startup settings: milestones, services and the weight that orders the boot.
    Models base/settings/startup.go and the milestone table of base/settings/include.go. */
module Startups {

  const AFTER_INIT := "init"
  const AFTER_NET := "net"
  const AFTER_BOOT := "boot"
  const TO_THE_END := "----"

  const PRIORITY: map<string, int> :=
    map[AFTER_INIT := 1, AFTER_NET := 1000, AFTER_BOOT := 1000000, TO_THE_END := -1]

  /** A configured service; only the fields the dependency engine reads. */
  datatype Startup = Startup(key: string, after: seq<string>)

  type Settings = map<string, Startup>

  datatype WeightResult = Weight(value: int) | Cyclic | Unknown(name: string)

  // ---- the weight -----------------------------------------------------------------

  ghost function KeySet(cfg: Settings): set<string> {
    set name | name in cfg :: cfg[name].key
  }

  /** Service keys the chain has not met yet: the measure that ends the walk on every graph. */
  ghost function Unvisited(cfg: Settings, chain: seq<string>): set<string> {
    KeySet(cfg) - set k | k in chain
  }

  lemma UnvisitedExtend(cfg: Settings, chain: seq<string>, key: string)
    ensures Unvisited(cfg, chain + [key]) == Unvisited(cfg, chain) - {key}
  {
  }

  /** What one `Weight` call returns, as a function of the chain of keys above it. */
  ghost function WeightOf(s: Startup, cfg: Settings, chain: seq<string>): WeightResult
    decreases Unvisited(cfg, chain), if s.key in KeySet(cfg) then 0 else 2, 0
  {
    if s.key in chain then Cyclic
    else if s.after == [] then Weight(PRIORITY[AFTER_BOOT])
    else
      UnvisitedExtend(cfg, chain, s.key);
      SumOf(s.after, cfg, chain + [s.key])
  }

  /** The sum over the listed names, or the first failure from the left. */
  ghost function SumOf(after: seq<string>, cfg: Settings, chain: seq<string>): WeightResult
    decreases Unvisited(cfg, chain), 1, |after|
  {
    if after == [] then Weight(0)
    else
      var sofar := SumOf(after[..|after| - 1], cfg, chain);
      if !sofar.Weight? then sofar
      else
        var last := TermOf(after[|after| - 1], cfg, chain);
        if last.Weight? then Weight(sofar.value + last.value) else last
  }

  ghost function TermOf(a: string, cfg: Settings, chain: seq<string>): WeightResult
    decreases Unvisited(cfg, chain), 1, 0
  {
    if a in PRIORITY then Weight(PRIORITY[a])
    else if a in cfg then
      assert cfg[a].key in KeySet(cfg);
      WeightOf(cfg[a], cfg, chain)
    else Unknown(a)
  }

  /** `Startup.Weight`: recursion over services, a loop over one service's dependencies.
      It terminates on every dependency graph. */
  method ComputeWeight(s: Startup, cfg: Settings, chain: seq<string>) returns (r: WeightResult)
    ensures r == WeightOf(s, cfg, chain)
    decreases Unvisited(cfg, chain), if s.key in KeySet(cfg) then 0 else 2, 0
  {
    if s.key in chain {
      return Cyclic;
    }
    UnvisitedExtend(cfg, chain, s.key);
    var extended := chain + [s.key];
    if s.after == [] {
      return Weight(PRIORITY[AFTER_BOOT]);
    }
    var w := 0;
    for i := 0 to |s.after|
      invariant SumOf(s.after[..i], cfg, extended) == Weight(w)
    {
      var a := s.after[i];
      assert s.after[..i + 1][..i] == s.after[..i];
      var term := Unknown(a);
      if a in PRIORITY {
        term := Weight(PRIORITY[a]);
      } else if a in cfg {
        assert cfg[a].key in KeySet(cfg);
        term := ComputeWeight(cfg[a], cfg, extended);
      }
      if !term.Weight? {
        assert SumOf(s.after[..i + 1], cfg, extended) == term;
        SumFails(s.after, i + 1, cfg, extended);
        return term;
      }
      w := w + term.value;
    }
    assert s.after[..|s.after|] == s.after;
    return Weight(w);
  }

  /** A failure of a prefix is the failure of the whole list. */
  lemma {:induction false} SumFails(after: seq<string>, n: nat, cfg: Settings, chain: seq<string>)
    requires n <= |after| && !SumOf(after[..n], cfg, chain).Weight?
    ensures SumOf(after, cfg, chain) == SumOf(after[..n], cfg, chain)
    decreases |after|
  {
    if n == |after| {
      assert after[..n] == after;
    } else {
      var init := after[..|after| - 1];
      assert init[..n] == after[..n];
      SumFails(init, n, cfg, chain);
    }
  }

  /** A sum succeeds exactly when each of its terms does. */
  lemma SumSucceeds(after: seq<string>, cfg: Settings, chain: seq<string>)
    ensures SumOf(after, cfg, chain).Weight? <==> forall a :: a in after ==> TermOf(a, cfg, chain).Weight?
  {
    if SumOf(after, cfg, chain).Weight? {
      forall a | a in after ensures TermOf(a, cfg, chain).Weight? {
        SumGivesTerm(after, cfg, chain, a);
      }
    } else {
      var n := FirstFailure(after, cfg, chain);
    }
  }

  lemma {:induction false} SumGivesTerm(after: seq<string>, cfg: Settings, chain: seq<string>, a: string)
    requires SumOf(after, cfg, chain).Weight? && a in after
    ensures TermOf(a, cfg, chain).Weight?
  {
    if a != after[|after| - 1] {
      SumGivesTerm(after[..|after| - 1], cfg, chain, a);
    }
  }

  lemma {:induction false} FirstFailure(after: seq<string>, cfg: Settings, chain: seq<string>) returns (n: nat)
    requires !SumOf(after, cfg, chain).Weight?
    ensures n < |after| && TermOf(after[n], cfg, chain) == SumOf(after, cfg, chain)
  {
    var init := after[..|after| - 1];
    n := |after| - 1;
    if !SumOf(init, cfg, chain).Weight? {
      n := FirstFailure(init, cfg, chain);
    }
  }

  // ---- walks through the dependency graph -------------------------------------------

  /** `s` lists `d` by a name that is no milestone. */
  ghost predicate Edge(cfg: Settings, s: Startup, d: Startup) {
    exists a :: a in s.after && a !in PRIORITY && a in cfg && cfg[a] == d
  }

  ghost predicate Walk(cfg: Settings, s: Startup, p: seq<Startup>) {
    && p != [] && p[0] == s
    && forall i :: 0 < i < |p| ==> Edge(cfg, p[i - 1], p[i])
  }

  ghost predicate Repeats(p: seq<Startup>) {
    exists i, j :: 0 <= i < j < |p| && p[i].key == p[j].key
  }

  predicate Knows(cfg: Settings, s: Startup) {
    forall a :: a in s.after ==> a in PRIORITY || a in cfg
  }

  ghost function Last(p: seq<Startup>): Startup
    requires p != []
  {
    p[|p| - 1]
  }

  ghost predicate Meets(p: seq<Startup>, chain: seq<string>) {
    exists i :: 0 <= i < |p| && p[i].key in chain
  }

  /** Success rules out every bad walk, at any depth below any chain. */
  lemma {:induction false} SuccessMeansGoodWalks(s: Startup, cfg: Settings, chain: seq<string>, p: seq<Startup>)
    requires WeightOf(s, cfg, chain).Weight? && Walk(cfg, s, p)
    ensures !Repeats(p) && !Meets(p, chain) && Knows(cfg, Last(p))
    decreases |p|
  {
    var extended := chain + [s.key];
    if s.after != [] {
      SumSucceeds(s.after, cfg, extended);
    }
    if |p| > 1 {
      assert Edge(cfg, p[0], p[1]);
      var a :| a in s.after && a !in PRIORITY && a in cfg && cfg[a] == p[1];
      assert TermOf(a, cfg, extended).Weight?;
      var rest := p[1..];
      forall i | 0 < i < |rest| ensures Edge(cfg, rest[i - 1], rest[i]) {
        assert Edge(cfg, p[i], p[i + 1]);
      }
      SuccessMeansGoodWalks(p[1], cfg, extended, rest);
      forall i | 0 < i < |p| ensures p[i].key !in extended {
        assert rest[i - 1].key !in extended;
      }
      forall i, j | 0 <= i < j < |p| ensures p[i].key != p[j].key {
        assert i > 0 ==> rest[i - 1] == p[i] && rest[j - 1] == p[j];
      }
    } else {
      forall a | a in s.after ensures a in PRIORITY || a in cfg {
        assert TermOf(a, cfg, extended).Weight?;
      }
    }
  }

  /** A failure exhibits the walk that caused it: for `Cyclic` its last key is one the chain or the
      walk already holds, for `Unknown(a)` its last service lists the unconfigured name `a`. */
  lemma {:induction false} FailureHasBadWalk(s: Startup, cfg: Settings, chain: seq<string>) returns (p: seq<Startup>)
    requires !WeightOf(s, cfg, chain).Weight?
    ensures Walk(cfg, s, p)
    ensures WeightOf(s, cfg, chain).Cyclic? ==>
      Last(p).key in chain || exists i :: 0 <= i < |p| - 1 && p[i].key == Last(p).key
    ensures WeightOf(s, cfg, chain).Unknown? ==>
      var a := WeightOf(s, cfg, chain).name; a in Last(p).after && a !in PRIORITY && a !in cfg
    decreases Unvisited(cfg, chain), if s.key in KeySet(cfg) then 0 else 2
  {
    p := [s];
    if s.key !in chain {
      UnvisitedExtend(cfg, chain, s.key);
      var extended := chain + [s.key];
      var n := FirstFailure(s.after, cfg, extended);
      var a := s.after[n];
      if a in cfg {
        assert cfg[a].key in KeySet(cfg);
        var rest := FailureHasBadWalk(cfg[a], cfg, extended);
        p := [s] + rest;
        assert Edge(cfg, p[0], p[1]);
        assert forall i :: 1 < i < |p| ==> Edge(cfg, rest[i - 2], rest[i - 1]) && p[i] == rest[i - 1];
        assert Last(p) == Last(rest);
        if WeightOf(s, cfg, chain).Cyclic? {
          if Last(rest).key in extended {
            assert Last(rest).key in chain || p[0].key == Last(p).key;
          } else {
            var i :| 0 <= i < |rest| - 1 && rest[i].key == Last(rest).key;
            assert p[i + 1].key == Last(p).key;
          }
        }
      }
    }
  }

  /** `Weight` below a chain succeeds exactly when no walk from the service repeats a key, meets the
      chain, or ends in a service that lists an unknown name. */
  lemma WeightSucceedsIff(s: Startup, cfg: Settings, chain: seq<string>)
    ensures WeightOf(s, cfg, chain).Weight? <==>
      forall p :: Walk(cfg, s, p) ==> !Repeats(p) && !Meets(p, chain) && Knows(cfg, Last(p))
  {
    if WeightOf(s, cfg, chain).Weight? {
      forall p | Walk(cfg, s, p) ensures !Repeats(p) && !Meets(p, chain) && Knows(cfg, Last(p)) {
        SuccessMeansGoodWalks(s, cfg, chain, p);
      }
    } else {
      var p := FailureHasBadWalk(s, cfg, chain);
      assert Repeats(p) || Meets(p, chain) || !Knows(cfg, Last(p));
    }
  }

  // ---- the value does not depend on the chain -----------------------------------------

  lemma {:induction false} WeightIgnoresChain(s: Startup, cfg: Settings, c: seq<string>, d: seq<string>)
    requires WeightOf(s, cfg, c).Weight? && WeightOf(s, cfg, d).Weight?
    ensures WeightOf(s, cfg, c) == WeightOf(s, cfg, d)
    decreases Unvisited(cfg, c), if s.key in KeySet(cfg) then 0 else 2, 0
  {
    if s.after != [] {
      UnvisitedExtend(cfg, c, s.key);
      SumIgnoresChain(s.after, cfg, c + [s.key], d + [s.key]);
    }
  }

  lemma {:induction false} SumIgnoresChain(after: seq<string>, cfg: Settings, c: seq<string>, d: seq<string>)
    requires SumOf(after, cfg, c).Weight? && SumOf(after, cfg, d).Weight?
    ensures SumOf(after, cfg, c) == SumOf(after, cfg, d)
    decreases Unvisited(cfg, c), 1, |after|
  {
    if after != [] {
      SumIgnoresChain(after[..|after| - 1], cfg, c, d);
      var a := after[|after| - 1];
      if a !in PRIORITY {
        assert cfg[a].key in KeySet(cfg);
        WeightIgnoresChain(cfg[a], cfg, c, d);
      }
    }
  }

  /** A shorter chain can only help. */
  lemma {:induction false} SubchainSucceeds(s: Startup, cfg: Settings, small: seq<string>, big: seq<string>)
    requires WeightOf(s, cfg, big).Weight? && forall k :: k in small ==> k in big
    ensures WeightOf(s, cfg, small) == WeightOf(s, cfg, big)
    decreases Unvisited(cfg, big), if s.key in KeySet(cfg) then 0 else 2, 0
  {
    if s.after != [] {
      UnvisitedExtend(cfg, big, s.key);
      SumSucceeds(s.after, cfg, big + [s.key]);
      SumSucceeds(s.after, cfg, small + [s.key]);
      forall a | a in s.after ensures TermOf(a, cfg, small + [s.key]).Weight? {
        assert TermOf(a, cfg, big + [s.key]).Weight?;
        if a !in PRIORITY {
          assert cfg[a].key in KeySet(cfg);
          SubchainSucceeds(cfg[a], cfg, small + [s.key], big + [s.key]);
        }
      }
    }
    WeightIgnoresChain(s, cfg, small, big);
  }

  /** A successful service's dependencies succeed on their own, whatever chain led to them. */
  lemma DependencySucceeds(s: Startup, cfg: Settings, a: string)
    requires WeightOf(s, cfg, []).Weight? && a in s.after
    ensures TermOf(a, cfg, []).Weight? && TermOf(a, cfg, [s.key]) == TermOf(a, cfg, [])
  {
    SumSucceeds(s.after, cfg, [s.key]);
    assert [] + [s.key] == [s.key];
    if a !in PRIORITY {
      assert TermOf(a, cfg, [s.key]).Weight?;
      SubchainSucceeds(cfg[a], cfg, [], [s.key]);
    }
  }

  // ---- the value is the weight recurrence without any chain ----------------------------

  ghost function TotalOf(after: seq<string>, cfg: Settings): int
    requires forall a :: a in after ==> TermOf(a, cfg, []).Weight?
  {
    if after == [] then 0
    else TotalOf(after[..|after| - 1], cfg) + TermOf(after[|after| - 1], cfg, []).value
  }

  lemma {:induction false} SumIsTotal(after: seq<string>, cfg: Settings, chain: seq<string>)
    requires forall a :: a in after ==>
      TermOf(a, cfg, []).Weight? && TermOf(a, cfg, chain) == TermOf(a, cfg, [])
    ensures SumOf(after, cfg, chain) == Weight(TotalOf(after, cfg))
  {
    if after != [] {
      SumIsTotal(after[..|after| - 1], cfg, chain);
    }
  }

  /** The weight of a service is `boot` when it lists nothing, else the sum of the weights of what it
      lists, each taken on its own. */
  lemma WeightEquation(s: Startup, cfg: Settings)
    requires WeightOf(s, cfg, []).Weight?
    ensures forall a :: a in s.after ==> TermOf(a, cfg, []).Weight?
    ensures WeightOf(s, cfg, []).value ==
      if s.after == [] then PRIORITY[AFTER_BOOT] else TotalOf(s.after, cfg)
  {
    forall a | a in s.after
      ensures TermOf(a, cfg, []).Weight? && TermOf(a, cfg, [s.key]) == TermOf(a, cfg, [])
    {
      DependencySucceeds(s, cfg, a);
    }
    if s.after != [] {
      assert [] + [s.key] == [s.key];
      SumIsTotal(s.after, cfg, [s.key]);
    }
  }

  // ---- a dependency against its dependents ----------------------------------------------

  lemma {:induction false} TotalConcat(x: seq<string>, y: seq<string>, cfg: Settings)
    requires forall a :: a in x + y ==> TermOf(a, cfg, []).Weight?
    ensures forall a :: a in x || a in y ==> a in x + y
    ensures TotalOf(x + y, cfg) == TotalOf(x, cfg) + TotalOf(y, cfg)
    decreases |y|
  {
    if y == [] {
      assert x + y == x;
    } else {
      var init, last := y[..|y| - 1], y[|y| - 1];
      assert x + y == x + init + [last] && (x + y)[..|x + y| - 1] == x + init;
      assert last in x + y;
      TotalConcat(x, init, cfg);
    }
  }

  /** What a service lists beside its `i`-th dependency. */
  function Others(s: Startup, i: nat): seq<string>
    requires i < |s.after|
  {
    s.after[..i] + s.after[i + 1..]
  }

  /** A service weighs at least as much as a service it lists exactly when the other names it lists
      do not add up to less than nothing. */
  lemma DependencyOrderIff(s: Startup, cfg: Settings, i: nat)
    requires WeightOf(s, cfg, []).Weight? && i < |s.after| && s.after[i] !in PRIORITY
    ensures s.after[i] in cfg && WeightOf(cfg[s.after[i]], cfg, []).Weight?
    ensures forall a :: a in Others(s, i) ==> TermOf(a, cfg, []).Weight?
    ensures WeightOf(cfg[s.after[i]], cfg, []).value <= WeightOf(s, cfg, []).value <==> TotalOf(Others(s, i), cfg) >= 0
  {
    hide WeightOf;
    WeightEquation(s, cfg);
    var x, a, y := s.after[..i], s.after[i], s.after[i + 1..];
    assert s.after == x + ([a] + y);
    assert TermOf(a, cfg, []).Weight?;
    TotalConcat(x, [a] + y, cfg);
    TotalConcat([a], y, cfg);
    TotalConcat(x, y, cfg);
    assert [a][..0] == [];
    assert TotalOf([a], cfg) == TermOf(a, cfg, []).value;
  }

  // ---- milestones ---------------------------------------------------------------------------------

  /** What a list of milestones alone amounts to. */
  ghost function Milestones(after: seq<string>): int {
    var m := multiset(after);
    m["init"] as int + 1000 * m["net"] as int + 1000000 * m["boot"] as int - m["----"] as int
  }

  ghost predicate OnlyMilestones(after: seq<string>) {
    forall a :: a in after ==> a in {"init", "net", "boot", "----"}
  }

  lemma {:induction false} MilestoneSum(after: seq<string>, cfg: Settings, chain: seq<string>)
    requires OnlyMilestones(after)
    ensures SumOf(after, cfg, chain) == Weight(Milestones(after))
    decreases |after|
  {
    if after != [] {
      var init, last := after[..|after| - 1], after[|after| - 1];
      assert after == init + [last];
      assert forall a :: a in init ==> a in after;
      MilestoneSum(init, cfg, chain);
      assert last in after;
    }
  }

  /** A service after milestones alone weighs 1 for each `init`, 1000 for each `net`, a million for each
      `boot` and one less for each end marker, whatever services are configured under those names; after
      nothing it weighs a million. */
  lemma MilestoneWeight(s: Startup, cfg: Settings, chain: seq<string>)
    requires s.key !in chain && OnlyMilestones(s.after)
    ensures WeightOf(s, cfg, chain) == Weight(if s.after == [] then 1000000 else Milestones(s.after))
  {
    MilestoneSum(s.after, cfg, chain + [s.key]);
  }
}
