/** What a port forward that was set means: its rules, its listing, its reservation; and that a reserved
    port was free. About socatManager in apps/core0/helper/socat/socat.go. */
module PortSets {
  import opened Wrappers
  import opened StreamParser
  import opened Sources
  import opened PortForwards
  import opened PortOwners
  import opened Reservations
  import opened PortManager

  /** A successful call adds one forward with the namespace, address and target of the call and the source
      its host text stands for, and gives the reservation of that port up, and no other. */
  lemma SetAddsForward(s: State, ns: NS, ip: Bytes, host: Bytes, dest: int, f: Forward, port: nat)
    requires SetSucceeds(s.forwards, host, true)
    ensures var s', src := Do(s, Set(ns, ip, host, dest, true)), ParsedSource(host).value;
      && (f in s'.forwards <==>
            f in s.forwards || (f.ns == ns && f.source == src && f.ip == ip && f.dest == dest))
      && |s'.forwards| == |s.forwards| + 1 && s'.forwards[..|s.forwards|] == s.forwards
      && (port in s'.reserved <==> port in s.reserved && port != src.port)
      && (port in s'.reserved ==> s'.reserved[port] == s.reserved[port])
  {
    hide ParsedSource, PortInUse;
  }

  /** A refused call changes nothing. */
  lemma RefusedSetChangesNothing(s: State, ns: NS, ip: Bytes, host: Bytes, dest: int, accepted: bool)
    requires ParsedSource(host).None? || PortInUse(s.forwards, ParsedSource(host).value.port) || !accepted
    ensures Do(s, Set(ns, ip, host, dest, accepted)) == s
  {
    hide ParsedSource, PortInUse;
  }

  /** The new rules stand behind the old ones, one per protocol of the host text in its order: traffic of
      that protocol to the port, limited to the address of the host text unless that is every address,
      marked with the namespace and sent to the address and target of the call. */
  lemma SetAddsRules(s: State, ns: NS, ip: Bytes, host: Bytes, dest: int)
    requires SetSucceeds(s.forwards, host, true)
    ensures var src, rules := ParsedSource(host).value, AllBodies(s.forwards);
      var rules' := AllBodies(Do(s, Set(ns, ip, host, dest, true)).forwards);
      && |rules'| == |rules| + |src.protocols| && rules'[..|rules|] == rules
      && forall k :: 0 <= k < |src.protocols| ==>
           rules'[|rules| + k] ==
             Body(src.protocols[k], src.port, if src.ip == ANY_ADDRESS then [] else src.ip, ns, ip, dest)
  {
    hide ParsedSource, PortInUse, AllBodies;
    AllBodiesSnoc(s.forwards, Forward(ns, ParsedSource(host).value, ip, dest));
  }

  /** Every listing of the namespace then maps the text of the source to the target of the call, and says
      of any other source what it said before; the other namespaces list the same forwards. */
  lemma SetIsListed(
    s: State, ns: NS, ip: Bytes, host: Bytes, dest: int, before: map<Bytes, int>, after: map<Bytes, int>, other: NS)
    requires Owned(s.forwards) && SetSucceeds(s.forwards, host, true)
    requires Lists(before, LiveIn(s.forwards, ns))
    requires Lists(after, LiveIn(Do(s, Set(ns, ip, host, dest, true)).forwards, ns))
    ensures after == before[SourceText(ParsedSource(host).value) := dest]
    ensures SourceText(ParsedSource(host).value) !in before
    ensures other != ns ==>
      LiveIn(Do(s, Set(ns, ip, host, dest, true)).forwards, other) == LiveIn(s.forwards, other)
  {
    hide ParsedSource, PortInUse, SourceText, Owned, Covered;
    var f := Forward(ns, ParsedSource(host).value, ip, dest);
    var fs, fs' := LiveIn(s.forwards, ns), LiveIn(Do(s, Set(ns, ip, host, dest, true)).forwards, ns);
    var all := s.forwards + [f];
    DoKeepsOwned(s, Set(ns, ip, host, dest, true));
    CoveredSnoc(s.forwards, f, InNamespace(ns));
    CoveredSnoc(s.forwards, f, InNamespace(other));
    var text := SourceText(f.source);
    forall g | g in fs ensures SourceText(g.source) != text {
      assert g in all && f in all && PortInUse(s.forwards, g.source.port) by {
        InUse(s.forwards, g);
      }
      if SourceText(g.source) == text {
        ListedApart(all, f, g);
      }
    }
    ListingGrows(before, after, fs, f);
  }

  lemma ListingGrows(before: map<Bytes, int>, after: map<Bytes, int>, fs: seq<Forward>, f: Forward)
    requires Lists(before, fs) && Lists(after, fs + [f])
    requires forall g :: g in fs ==> SourceText(g.source) != SourceText(f.source)
    ensures SourceText(f.source) !in before && after == before[SourceText(f.source) := f.dest]
  {
    hide SourceText;
    assert f in fs + [f];
    forall t ensures t in after <==> t == SourceText(f.source) || t in before {
      if t in before {
        var g :| g in fs && t == SourceText(g.source);
        assert g in fs + [f];
      }
      if t in after {
        var g :| g in fs + [f] && t == SourceText(g.source);
      }
    }
    forall t | t in before ensures after[t] == before[t] {
      var g :| g in fs && t == SourceText(g.source);
      assert g in fs + [f];
    }
  }

  /** A port that is handed out is not listening for tcp and is not forwarded, and a reservation of it had
      run out at some reading of the clock during the call. */
  lemma HandedIsFree(s: State, n: int, infos: seq<Listening>, clock: Clock, p: nat)
    requires p in Handed(s, Reserve(n, TcpPorts(infos), clock))
    ensures Listening("tcp", p) !in infos && !PortInUse(s.forwards, p)
    ensures var readings := Answer(Used(s, TcpPorts(infos)), s.reserved, clock, n).readings;
      p in s.reserved ==> exists k: nat :: k < readings && clock(k) > s.reserved[p]
  {
    hide Call;
    assert Listening("tcp", p) in infos ==> p in TcpPorts(infos);
    assert PortInUse(s.forwards, p) ==> p in ForwardedPorts(s.forwards);
    HandedWasFree(Used(s, TcpPorts(infos)), clock, s.reserved, FIRST, 0, n, p);
  }
}
