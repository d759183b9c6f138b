/** The startup tree: services sorted by weight and cut into boot slices.
    Models base/settings/tree.go and the three slices of apps/core0/bootstrap/bootstrap.go. */
module StartupTree {
  import opened Startups

  type Entry = (Startup, int)

  // ---- specification on values --------------------------------------------------------

  /** Each service takes the name it is configured under as its key. */
  function Keyed(cfg: Settings): Settings {
    map name | name in cfg :: cfg[name].(key := name)
  }

  ghost predicate IsKeyed(cfg: Settings) {
    forall name :: name in cfg ==> cfg[name].key == name
  }

  /** The services whose weight can be computed, with that weight. */
  ghost function Members(cfg: Settings, names: set<string>): set<Entry>
    requires names <= cfg.Keys
  {
    set name | name in names && WeightOf(cfg[name], cfg, []).Weight?
      :: (cfg[name], WeightOf(cfg[name], cfg, []).value)
  }

  /** The services that are left out, each with the reason. */
  ghost function Rejected(cfg: Settings, names: set<string>): set<(string, WeightResult)>
    requires names <= cfg.Keys
  {
    set name | name in names && !WeightOf(cfg[name], cfg, []).Weight? :: (name, WeightOf(cfg[name], cfg, []))
  }

  ghost predicate Sorted(entries: seq<Entry>) {
    forall i, j :: 0 <= i < j < |entries| ==> entries[i].1 <= entries[j].1
  }

  function Services(entries: seq<Entry>): seq<Startup> {
    if entries == [] then [] else Services(entries[..|entries| - 1]) + [entries[|entries| - 1].0]
  }

  predicate InRange(w: int, s: int, e: int) {
    s <= w && (w < e || e == -1)
  }

  /** The services with weight in [s, e[, in tree order; an `e` of -1 means no upper end. */
  function SliceOf(entries: seq<Entry>, s: int, e: int): seq<Startup> {
    if entries == [] then []
    else
      var last := entries[|entries| - 1];
      SliceOf(entries[..|entries| - 1], s, e) + if InRange(last.1, s, e) then [last.0] else []
  }

  // ---- the mutable settings and tree --------------------------------------------------

  class IncludedSettings {
    var startup: Settings
    var done: bool

    ghost predicate Valid()
      reads this
    {
      done ==> IsKeyed(startup)
    }

    constructor (startup: Settings)
      ensures Valid() && this.startup == startup && !done
    {
      this.startup := startup;
      done := false;
    }

    /** Runs once: gives every service its name as key. */
    method Prepare()
      requires Valid()
      modifies this
      ensures Valid() && done
      ensures startup == if old(done) then old(startup) else Keyed(old(startup))
    {
      if !done {
        var todo := startup.Keys;
        while todo != {}
          invariant startup.Keys == old(startup).Keys && todo <= startup.Keys && !done
          invariant forall name :: name in startup ==>
            startup[name] == if name in todo then old(startup)[name] else old(startup)[name].(key := name)
          decreases todo
        {
          var name :| name in todo;
          startup := startup[name := startup[name].(key := name)];
          todo := todo - {name};
        }
        done := true;
      }
    }

    /** Weighs every service in map order, keeps the ones that succeed, reports the others, sorts. */
    method GetStartupTree() returns (tree: Tree, errors: seq<(string, WeightResult)>)
      requires Valid()
      modifies this
      ensures Valid() && done
      ensures startup == if old(done) then old(startup) else Keyed(old(startup))
      ensures fresh(tree) && tree.Valid()
      ensures Sorted(tree.Entries())
      ensures multiset(tree.Entries()) == multiset(Members(startup, startup.Keys))
      ensures multiset(errors) == multiset(Rejected(startup, startup.Keys))
    {
      Prepare();
      tree, errors := Gather(startup);
      tree.Sort();
    }
  }

  /** The loop of GetStartupTree, over the services in any order. */
  method Gather(cfg: Settings) returns (tree: Tree, errors: seq<(string, WeightResult)>)
    requires IsKeyed(cfg)
    ensures fresh(tree) && tree.Valid() && Gathered(cfg, cfg.Keys, tree.Entries(), errors)
  {
    tree := new Tree();
    errors := [];
    var todo := cfg.Keys;
    ghost var seen := {};
    while todo != {}
      invariant todo <= cfg.Keys && seen == cfg.Keys - todo && tree.Valid()
      invariant Gathered(cfg, seen, tree.Entries(), errors)
      decreases todo
    {
      var name :| name in todo;
      var w := ComputeWeight(cfg[name], cfg, []);
      GatherStep(cfg, seen, name, tree.Entries(), errors);
      if w.Weight? {
        tree.Append(cfg[name], w.value);
      } else {
        errors := errors + [(name, w)];
      }
      todo, seen := todo - {name}, seen + {name};
    }
    assert seen == cfg.Keys;
  }

  class Tree {
    var startups: seq<Startup>
    var weights: map<int, int>

    ghost predicate Valid()
      reads this
    {
      forall i :: i in weights <==> 0 <= i < |startups|
    }

    /** Services paired with their weights, position by position. */
    ghost function Entries(): (r: seq<Entry>)
      requires Valid()
      reads this
      ensures |r| == |startups|
    {
      seq(|startups|, i requires 0 <= i < |startups| && Valid() reads this => (startups[i], weights[i]))
    }

    constructor ()
      ensures Valid() && Entries() == []
    {
      startups := [];
      weights := map[];
    }

    method Append(s: Startup, w: int)
      requires Valid()
      modifies this
      ensures Valid() && Entries() == old(Entries()) + [(s, w)]
    {
      startups := startups + [s];
      weights := weights[|startups| - 1 := w];
    }

    method Less(i: int, j: int) returns (r: bool)
      requires Valid() && 0 <= i < |startups| && 0 <= j < |startups|
      ensures r == (Entries()[i].1 < Entries()[j].1)
    {
      r := weights[i] < weights[j];
    }

    /** Moves a service together with its weight. */
    method Swap(i: int, j: int)
      requires Valid() && 0 <= i < |startups| && 0 <= j < |startups|
      modifies this
      ensures Valid() && Entries() == Exchanged(old(Entries()), i, j)
    {
      startups := startups[i := startups[j]][j := startups[i]];
      weights := weights[i := weights[j]][j := weights[i]];
    }

    /** Stands for `sort.Sort`: an insertion sort that touches the tree by Less and Swap only. */
    method Sort()
      requires Valid()
      modifies this
      ensures Valid() && Sorted(Entries())
      ensures multiset(Entries()) == multiset(old(Entries()))
    {
      var n := |startups|;
      for i := 0 to n
        invariant Valid() && |startups| == n
        invariant Sorted(Entries()[..i])
        invariant multiset(Entries()) == multiset(old(Entries()))
      {
        Sink(i);
      }
      assert Entries()[..n] == Entries();
    }

    method Sink(i: nat)
      requires Valid() && i < |startups| && Sorted(Entries()[..i])
      modifies this
      ensures Valid() && |startups| == old(|startups|) && Sorted(Entries()[..i + 1])
      ensures multiset(Entries()) == multiset(old(Entries()))
    {
      var j := i;
      while j > 0
        invariant 0 <= j <= i && Valid() && |startups| == old(|startups|)
        invariant multiset(Entries()) == multiset(old(Entries()))
        invariant SortedBut(Entries(), i, j)
      {
        var less := Less(j, j - 1);
        if !less {
          break;
        }
        SinkStep(Entries(), i, j);
        Swap(j, j - 1);
        j := j - 1;
      }
    }

    /** `Slice`: a loop that skips what lies outside [s, e[. */
    method Slice(s: int, e: int) returns (slice: seq<Startup>)
      requires Valid()
      ensures slice == SliceOf(Entries(), s, e)
    {
      slice := [];
      for i := 0 to |startups|
        invariant slice == SliceOf(Entries()[..i], s, e)
      {
        var w := weights[i];
        assert Entries()[..i + 1][..i] == Entries()[..i];
        if w < s {
          continue;
        }
        if w >= e && e != -1 {
          continue;
        }
        slice := slice + [startups[i]];
      }
      assert Entries()[..|startups|] == Entries();
    }
  }

  // ---- lemmas for the loops -----------------------------------------------------------

  /** The loop of GetStartupTree after the names in `seen`. */
  ghost predicate Gathered(cfg: Settings, seen: set<string>, entries: seq<Entry>, errors: seq<(string, WeightResult)>)
    requires seen <= cfg.Keys
  {
    multiset(entries) == multiset(Members(cfg, seen)) && multiset(errors) == multiset(Rejected(cfg, seen))
  }

  lemma GatherStep(
    cfg: Settings, seen: set<string>, name: string, entries: seq<Entry>, errors: seq<(string, WeightResult)>)
    requires IsKeyed(cfg) && seen <= cfg.Keys && name in cfg && name !in seen && Gathered(cfg, seen, entries, errors)
    ensures var w := WeightOf(cfg[name], cfg, []);
      if w.Weight? then Gathered(cfg, seen + {name}, entries + [(cfg[name], w.value)], errors)
      else Gathered(cfg, seen + {name}, entries, errors + [(name, w)])
  {
    var w := WeightOf(cfg[name], cfg, []);
    if w.Weight? {
      assert (cfg[name], w.value) !in Members(cfg, seen);
      assert Members(cfg, seen + {name}) == Members(cfg, seen) + {(cfg[name], w.value)};
      assert Rejected(cfg, seen + {name}) == Rejected(cfg, seen);
    } else {
      assert Members(cfg, seen + {name}) == Members(cfg, seen);
      assert Rejected(cfg, seen + {name}) == Rejected(cfg, seen) + {(name, w)};
    }
  }

  ghost function Exchanged(s: seq<Entry>, i: int, j: int): seq<Entry>
    requires 0 <= i < |s| && 0 <= j < |s|
  {
    s[i := s[j]][j := s[i]]
  }

  /** Entries 0..i are in order once the one at j is put aside. */
  ghost predicate SortedBut(s: seq<Entry>, i: nat, j: nat)
    requires i < |s|
  {
    forall a, b :: 0 <= a < b <= i && b != j ==> s[a].1 <= s[b].1
  }

  lemma SinkStep(s: seq<Entry>, i: nat, j: nat)
    requires 0 < j <= i < |s| && SortedBut(s, i, j) && s[j].1 < s[j - 1].1
    ensures SortedBut(Exchanged(s, j, j - 1), i, j - 1)
    ensures multiset(Exchanged(s, j, j - 1)) == multiset(s)
  {
  }

  // ---- slice soundness -----------------------------------------------------------------

  lemma {:induction false} SliceEmptyBelow(entries: seq<Entry>, s: int, e: int)
    requires forall i :: 0 <= i < |entries| ==> entries[i].1 < s
    ensures SliceOf(entries, s, e) == []
  {
    if entries != [] {
      SliceEmptyBelow(entries[..|entries| - 1], s, e);
    }
  }

  ghost function Init(entries: seq<Entry>): seq<Startup> { SliceOf(entries, 1, 1000) }
  ghost function Net(entries: seq<Entry>): seq<Startup> { SliceOf(entries, 1000, 1000000) }
  ghost function Boot(entries: seq<Entry>): seq<Startup> { SliceOf(entries, 1000000, -1) }

  lemma {:induction false} SlicesCount(entries: seq<Entry>)
    ensures |Services(entries)| == |entries|
    ensures |Init(entries)| + |Net(entries)| + |Boot(entries)| <= |entries|
    ensures |Init(entries)| + |Net(entries)| + |Boot(entries)| == |entries| ==>
      forall i :: 0 <= i < |entries| ==> entries[i].1 >= PRIORITY[AFTER_INIT]
  {
    if entries != [] {
      SlicesCount(entries[..|entries| - 1]);
    }
  }

  lemma SliceSnoc(entries: seq<Entry>, x: Entry, s: int, e: int)
    ensures var before := SliceOf(entries, s, e);
      SliceOf(entries + [x], s, e) == if InRange(x.1, s, e) then before + [x.0] else before
    ensures Services(entries + [x]) == Services(entries) + [x.0]
  {
    assert (entries + [x])[..|entries|] == entries;
    assert SliceOf(entries, s, e) + [] == SliceOf(entries, s, e);
  }

  lemma Regroup(i: seq<Startup>, n: seq<Startup>, b: seq<Startup>, x: Startup)
    ensures i + n + (b + [x]) == i + n + b + [x]
    ensures b == [] ==> i + (n + [x]) + b == i + n + b + [x]
    ensures n == [] && b == [] ==> (i + [x]) + n + b == i + n + b + [x]
  {
  }

  lemma NothingSliced(s: int, e: int)
    ensures SliceOf([], s, e) == [] && Services([]) == []
  {
  }

  lemma {:induction false} SlicesJoin(entries: seq<Entry>)
    requires Sorted(entries) && forall i :: 0 <= i < |entries| ==> entries[i].1 >= PRIORITY[AFTER_INIT]
    ensures Init(entries) + Net(entries) + Boot(entries) == Services(entries)
  {
    hide SliceOf, Services;
    if entries == [] {
      NothingSliced(1, 1000);
      NothingSliced(1000, 1000000);
      NothingSliced(1000000, -1);
    } else {
      var rest, last := entries[..|entries| - 1], entries[|entries| - 1];
      assert entries == rest + [last];
      SlicesJoin(rest);
      SliceSnoc(rest, last, 1, 1000);
      SliceSnoc(rest, last, 1000, 1000000);
      SliceSnoc(rest, last, 1000000, -1);
      if last.1 < 1000000 {
        SliceEmptyBelow(rest, 1000000, -1);
      }
      if last.1 < 1000 {
        SliceEmptyBelow(rest, 1000, 1000000);
      }
      Regroup(Init(rest), Net(rest), Boot(rest), last.0);
    }
  }

  /** Booting the three slices one after the other boots the sorted tree, every service once and in
      order, exactly when every weight reaches the first milestone. */
  lemma SlicesPartitionIff(entries: seq<Entry>)
    requires Sorted(entries)
    ensures Init(entries) + Net(entries) + Boot(entries) == Services(entries) <==>
      forall i :: 0 <= i < |entries| ==> entries[i].1 >= PRIORITY[AFTER_INIT]
  {
    SlicesCount(entries);
    if forall i :: 0 <= i < |entries| ==> entries[i].1 >= PRIORITY[AFTER_INIT] {
      SlicesJoin(entries);
    }
  }

  /** Nobody lists the end marker, whose weight is negative. */
  ghost predicate NoEndMarker(cfg: Settings) {
    forall name :: name in cfg ==> TO_THE_END !in cfg[name].after
  }

  lemma {:induction false} WeightPositive(s: Startup, cfg: Settings, chain: seq<string>)
    requires NoEndMarker(cfg) && TO_THE_END !in s.after && WeightOf(s, cfg, chain).Weight?
    ensures WeightOf(s, cfg, chain).value >= PRIORITY[AFTER_INIT]
    decreases Unvisited(cfg, chain), if s.key in KeySet(cfg) then 0 else 2, 0
  {
    if s.after != [] {
      UnvisitedExtend(cfg, chain, s.key);
      SumPositive(s.after, cfg, chain + [s.key]);
    }
  }

  lemma {:induction false} SumPositive(after: seq<string>, cfg: Settings, chain: seq<string>)
    requires NoEndMarker(cfg) && TO_THE_END !in after && SumOf(after, cfg, chain).Weight?
    ensures SumOf(after, cfg, chain).value >= |after|
    ensures forall a :: a in after ==>
      TermOf(a, cfg, chain).Weight? && 1 <= TermOf(a, cfg, chain).value <= SumOf(after, cfg, chain).value
    decreases Unvisited(cfg, chain), 1, |after|
  {
    if after != [] {
      var init, last := after[..|after| - 1], after[|after| - 1];
      SumPositive(init, cfg, chain);
      if last !in PRIORITY {
        assert cfg[last].key in KeySet(cfg);
        WeightPositive(cfg[last], cfg, chain);
      }
      assert after == init + [last];
    }
  }

  /** The boot slice a weight falls in. */
  function SliceIndex(w: int): int {
    if w < PRIORITY[AFTER_INIT] then -1
    else if w < PRIORITY[AFTER_NET] then 0
    else if w < PRIORITY[AFTER_BOOT] then 1
    else 2
  }

  /** The slices in the order they are booted. */
  ghost function BootSlices(entries: seq<Entry>): (r: seq<seq<Startup>>)
    ensures |r| == 3
  {
    [Init(entries), Net(entries), Boot(entries)]
  }

  lemma {:induction false} SliceHas(entries: seq<Entry>, s: int, e: int, x: Startup)
    ensures x in SliceOf(entries, s, e) <==>
      exists i :: 0 <= i < |entries| && entries[i].0 == x && InRange(entries[i].1, s, e)
  {
    if entries != [] {
      var n := |entries| - 1;
      SliceHas(entries[..n], s, e, x);
      if i :| 0 <= i < |entries| && entries[i].0 == x && InRange(entries[i].1, s, e) {
        assert i < n ==> entries[..n][i] == entries[i];
      }
    }
  }

  ghost predicate Distinct(entries: seq<Entry>) {
    forall i, j :: 0 <= i < j < |entries| ==> entries[i].0 != entries[j].0
  }

  /** A service is in the k-th slice exactly when its weight says so; in none for a weight below the
      first milestone. */
  lemma InSliceIff(entries: seq<Entry>, i: nat, k: nat)
    requires Distinct(entries) && i < |entries| && k < 3
    ensures entries[i].0 in BootSlices(entries)[k] <==> SliceIndex(entries[i].1) == k
  {
    var x := entries[i].0;
    SliceHas(entries, 1, 1000, x);
    SliceHas(entries, 1000, 1000000, x);
    SliceHas(entries, 1000000, -1, x);
  }

  /** What GetStartupTree returns. */
  ghost predicate IsTree(entries: seq<Entry>, cfg: Settings) {
    IsKeyed(cfg) && Sorted(entries) && multiset(entries) == multiset(Members(cfg, cfg.Keys))
  }

  lemma TreeHas(entries: seq<Entry>, cfg: Settings, x: Entry)
    requires IsTree(entries, cfg)
    ensures x in entries <==> x in Members(cfg, cfg.Keys)
  {
    assert x in entries <==> x in multiset(entries);
  }

  lemma TreeDistinct(entries: seq<Entry>, cfg: Settings)
    requires IsTree(entries, cfg)
    ensures Distinct(entries)
  {
    forall i, j | 0 <= i < j < |entries| ensures entries[i].0 != entries[j].0 {
      TreeHas(entries, cfg, entries[i]);
      TreeHas(entries, cfg, entries[j]);
      if entries[i] == entries[j] {
        TwiceIn(entries, i, j);
      }
    }
  }

  lemma TwiceIn(entries: seq<Entry>, i: nat, j: nat)
    requires i < j < |entries| && entries[i] == entries[j]
    ensures multiset(entries)[entries[i]] >= 2
  {
    var x := entries[i];
    assert entries == entries[..j] + entries[j..];
    assert x == entries[..j][i] && x in entries[..j];
    assert x == entries[j..][0] && x in entries[j..];
  }

  /** A weighed service is in the slice of its weight. */
  lemma WeighedInSlice(entries: seq<Entry>, cfg: Settings, name: string, k: nat)
    requires IsTree(entries, cfg) && name in cfg && k < 3 && WeightOf(cfg[name], cfg, []).Weight?
    ensures cfg[name] in BootSlices(entries)[k] <==> SliceIndex(WeightOf(cfg[name], cfg, []).value) == k
  {
    hide WeightOf, SliceIndex, BootSlices;
    var x := (cfg[name], WeightOf(cfg[name], cfg, []).value);
    assert x in Members(cfg, cfg.Keys);
    TreeHas(entries, cfg, x);
    TreeDistinct(entries, cfg);
    var i :| 0 <= i < |entries| && entries[i] == x;
    InSliceIff(entries, i, k);
  }

  /** What is in a slice is a weighed service, under its own key. */
  lemma SliceIsWeighed(entries: seq<Entry>, cfg: Settings, s: Startup, k: nat)
    requires IsTree(entries, cfg) && k < 3 && s in BootSlices(entries)[k]
    ensures s.key in cfg && cfg[s.key] == s && WeightOf(s, cfg, []).Weight?
    ensures SliceIndex(WeightOf(s, cfg, []).value) == k
  {
    hide WeightOf, SliceIndex;
    SliceHas(entries, 1, 1000, s);
    SliceHas(entries, 1000, 1000000, s);
    SliceHas(entries, 1000000, -1, s);
    var i :| 0 <= i < |entries| && entries[i].0 == s;
    TreeHas(entries, cfg, entries[i]);
    WeighedInSlice(entries, cfg, s.key, k);
  }

  /** A dependency is never in a later slice than a service that lists it, unless the other names the
      service lists add up to less than nothing. */
  lemma DependencySlice(entries: seq<Entry>, cfg: Settings, s: Startup, i: nat, k: nat, j: nat)
    requires IsTree(entries, cfg) && k < 3 && j < 3 && s in BootSlices(entries)[k]
    requires i < |s.after| && s.after[i] !in PRIORITY && s.after[i] in cfg && cfg[s.after[i]] in BootSlices(entries)[j]
    requires forall a :: a in Others(s, i) ==> TermOf(a, cfg, []).Weight?
    requires TotalOf(Others(s, i), cfg) >= 0
    ensures j <= k
  {
    hide WeightOf, BootSlices;
    SliceIsWeighed(entries, cfg, s, k);
    SliceIsWeighed(entries, cfg, cfg[s.after[i]], j);
    DependencyOrderIff(s, cfg, i);
  }

  /** Without the end marker nothing a service lists adds up to less than nothing. */
  lemma {:induction false} TotalPositive(after: seq<string>, cfg: Settings)
    requires NoEndMarker(cfg) && TO_THE_END !in after && forall a :: a in after ==> TermOf(a, cfg, []).Weight?
    ensures TotalOf(after, cfg) >= 0
  {
    if after != [] {
      var init, last := after[..|after| - 1], after[|after| - 1];
      TotalPositive(init, cfg);
      assert TermOf(last, cfg, []).Weight?;
      if last !in PRIORITY {
        WeightPositive(cfg[last], cfg, []);
      }
    }
  }

  /** Without the end marker what a weighed service lists weighs no more, and both have a slice. */
  lemma DependencyWeighs(cfg: Settings, name: string, i: nat)
    requires NoEndMarker(cfg) && name in cfg && WeightOf(cfg[name], cfg, []).Weight?
    requires i < |cfg[name].after| && cfg[name].after[i] !in PRIORITY
    ensures cfg[name].after[i] in cfg && WeightOf(cfg[cfg[name].after[i]], cfg, []).Weight?
    ensures var v, w := WeightOf(cfg[cfg[name].after[i]], cfg, []).value, WeightOf(cfg[name], cfg, []).value;
      v <= w && 0 <= SliceIndex(v) <= SliceIndex(w) < 3
  {
    hide WeightOf;
    DependencyOrderIff(cfg[name], cfg, i);
    TotalPositive(Others(cfg[name], i), cfg);
    WeightPositive(cfg[cfg[name].after[i]], cfg, []);
  }

  /** Without the end marker a configured dependency of a tree member is a tree member too, with no
      larger weight, in the same or an earlier slice. */
  lemma DependencySound(entries: seq<Entry>, cfg: Settings, s: Startup, i: nat, w: int)
    requires IsTree(entries, cfg) && NoEndMarker(cfg)
    requires (s, w) in entries && i < |s.after| && s.after[i] !in PRIORITY
    ensures s.after[i] in cfg && WeightOf(cfg[s.after[i]], cfg, []).Weight?
    ensures var d, v := cfg[s.after[i]], WeightOf(cfg[s.after[i]], cfg, []).value;
      && (d, v) in entries && v <= w
      && 0 <= SliceIndex(v) <= SliceIndex(w) < 3
      && d in BootSlices(entries)[SliceIndex(v)] && s in BootSlices(entries)[SliceIndex(w)]
  {
    hide WeightOf, BootSlices, SliceIndex, NoEndMarker;
    TreeHas(entries, cfg, (s, w));
    assert s.key in cfg && cfg[s.key] == s;
    DependencyWeighs(cfg, s.key, i);
    var d := cfg[s.after[i]];
    var v := WeightOf(d, cfg, []).value;
    assert (d, v) in Members(cfg, cfg.Keys);
    TreeHas(entries, cfg, (d, v));
    WeighedInSlice(entries, cfg, s.key, SliceIndex(w));
    WeighedInSlice(entries, cfg, s.after[i], SliceIndex(v));
  }

  /** With the end marker both claims fail: `b` waits for `a`, weighs less, and is in no slice of any
      tree of the two. */
  lemma EndMarkerBreaksSlices(entries: seq<Entry>)
    requires IsTree(entries, MarkedSettings())
    ensures var cfg := MarkedSettings();
      && WeightOf(cfg["a"], cfg, []) == Weight(1)
      && WeightOf(cfg["b"], cfg, []) == Weight(0)
      && (cfg["b"], 0) in entries && forall k :: 0 <= k < 3 ==> cfg["b"] !in BootSlices(entries)[k]
  {
    hide WeightOf, BootSlices;
    var cfg := MarkedSettings();
    MarkedWeights();
    assert (cfg["b"], 0) in Members(cfg, cfg.Keys);
    TreeHas(entries, cfg, (cfg["b"], 0));
    forall k | 0 <= k < 3 ensures cfg["b"] !in BootSlices(entries)[k] {
      WeighedInSlice(entries, cfg, "b", k);
    }
  }

  ghost function MarkedSettings(): Settings {
    map["a" := Startup("a", ["init"]), "b" := Startup("b", ["a", "----"])]
  }

  lemma MarkedWeights()
    ensures var cfg := MarkedSettings();
      WeightOf(cfg["a"], cfg, []) == Weight(1) && WeightOf(cfg["b"], cfg, []) == Weight(0)
  {
    var a, b := Startup("a", ["init"]), Startup("b", ["a", "----"]);
    var cfg: Settings := map["a" := a, "b" := b];
    assert ["init"][..0] == [] && b.after[..1] == ["a"] && b.after[..1][..0] == [];
    assert SumOf(["init"], cfg, ["a"]) == Weight(1);
    assert [] + ["a"] == ["a"] && ["b"] + ["a"] == ["b", "a"] && [] + ["b"] == ["b"];
    assert SumOf(["init"], cfg, ["b", "a"]) == Weight(1);
    assert WeightOf(a, cfg, ["b"]) == Weight(1);
    assert ["a"][..0] == [];
    assert SumOf(["a"], cfg, ["b"]) == Weight(1);
    assert SumOf(b.after[..1], cfg, ["b"]) == Weight(1);
    assert SumOf(b.after, cfg, ["b"]) == Weight(0);
    assert WeightOf(b, cfg, []) == SumOf(b.after, cfg, [] + ["b"]);
  }
}
