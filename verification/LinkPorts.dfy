/**
  The firewall rules of the chain's link ports: source resolution and the rule
  cache (firewall.go:76-136, 214-309), and the reconcile that brings the rules to
  what the block in force names (chain_firewall.go:34-151).
*/
module LinkPorts {
  import opened Common

  type Addr(==, !new, 0)      // an IP or a CIDR
  type HostName(==, !new, 0)

  /** A source as the panel names it, trimmed. */
  datatype Source = Literal(addr: Addr) | Host(name: HostName) | Blank

  /** What the resolver answers: none is an error. */
  type Resolver = HostName -> Option<seq<Addr>>

  datatype Proto = Tcp | Udp | OtherProto

  /** A ufw rule; no source is the rule open to anyone. */
  datatype Rule = Rule(port: int, proto: Proto, src: Option<Addr>)

  datatype Ingress = Ingress(port: int, transports: seq<Proto>, allowFrom: seq<Source>)

  // ----------------------------------------------------------------- the sources

  /** The addresses one source stands for. */
  function Addresses(dns: Resolver, s: Source): seq<Addr> {
    match s
    case Literal(a) => [a]
    case Host(h) => if dns(h).Some? then dns(h).value else []
    case Blank => []
  }

  ghost predicate Reaches(dns: Resolver, sources: seq<Source>, a: Addr) {
    exists i :: 0 <= i < |sources| && a in Addresses(dns, sources[i])
  }

  /** The name brings no address that the sources before it did not. */
  ghost predicate AddsNothing(dns: Resolver, sources: seq<Source>, i: nat)
    requires i < |sources|
  {
    forall a :: a in Addresses(dns, sources[i]) ==> Reaches(dns, sources[..i], a)
  }

  ghost predicate Distinct<T>(xs: seq<T>) {
    forall i, j :: 0 <= i < j < |xs| ==> xs[i] != xs[j]
  }

  /** What is set apart: the names that add nothing to the sources before them. */
  ghost predicate SetApart(dns: Resolver, sources: seq<Source>, unresolved: seq<HostName>) {
    forall h :: h in unresolved <==>
        exists i :: 0 <= i < |sources| && sources[i] == Host(h) && AddsNothing(dns, sources, i)
  }

  lemma ReachesAppend(dns: Resolver, sources: seq<Source>, k: nat, a: Addr)
    requires k < |sources|
    ensures Reaches(dns, sources[..k + 1], a) <==> Reaches(dns, sources[..k], a) || a in Addresses(dns, sources[k])
  {
    var more := sources[..k + 1];
    assert more[k] == sources[k] && forall i :: 0 <= i < k ==> more[i] == sources[..k][i];
  }

  lemma OneMoreSource(dns: Resolver, sources: seq<Source>, k: nat, before: seq<Addr>, after: seq<Addr>)
    requires k < |sources| && before <= after && Distinct(after)
    requires forall a :: a in before <==> Reaches(dns, sources[..k], a)
    requires forall a :: a in after <==> a in before || a in Addresses(dns, sources[k])
    ensures forall a :: a in after <==> Reaches(dns, sources[..k + 1], a)
    ensures |after| == |before| <==> AddsNothing(dns, sources, k)
  {
    forall a ensures a in after <==> Reaches(dns, sources[..k + 1], a) {
      ReachesAppend(dns, sources, k, a);
    }
    if |after| == |before| {
      assert after == before;
    } else {
      var extra := after[|before|];
      assert extra in after;
      assert extra !in before;
    }
  }

  /** `add` over a list: what is new goes to the end, what is known stays. */
  method AddAll(known: seq<Addr>, more: seq<Addr>) returns (out: seq<Addr>)
    requires Distinct(known)
    ensures Distinct(out) && known <= out
    ensures forall a :: a in out <==> a in known || a in more
  {
    out := known;
    for k := 0 to |more|
      invariant Distinct(out) && known <= out
      invariant forall a :: a in out <==> a in known || a in more[..k]
    {
      if more[k] !in out {
        out := out + [more[k]];
      }
      assert more[..k + 1] == more[..k] + [more[k]];
    }
    assert more[..|more|] == more;
  }

  /**
    ResolveSources. The resolved are the addresses named or resolved to, each
    once. The names set apart are those that brought nothing new: the ones that
    did not resolve, and also the ones whose every address was named before.
  */
  method ResolveSources(dns: Resolver, sources: seq<Source>) returns (resolved: seq<Addr>, unresolved: seq<HostName>)
    ensures Distinct(resolved)
    ensures forall a :: a in resolved <==> Reaches(dns, sources, a)
    ensures SetApart(dns, sources, unresolved)
  {
    resolved, unresolved := [], [];
    for k := 0 to |sources|
      invariant Distinct(resolved)
      invariant forall a :: a in resolved <==> Reaches(dns, sources[..k], a)
      invariant forall h :: h in unresolved <==>
                  exists i :: 0 <= i < k && sources[i] == Host(h) && AddsNothing(dns, sources, i)
    {
      var before := resolved;
      resolved := AddAll(resolved, Addresses(dns, sources[k]));
      OneMoreSource(dns, sources, k, before, resolved);
      if sources[k].Host? && |resolved| == |before| {
        unresolved := unresolved + [sources[k].name];
      }
    }
    assert sources[..|sources|] == sources;
  }

  /** The panel named it, and it has no address. */
  ghost predicate DidNotResolve(dns: Resolver, sources: seq<Source>, h: HostName) {
    Host(h) in sources && Addresses(dns, Host(h)) == []
  }

  ghost predicate BringsOne(dns: Resolver, sources: seq<Source>, i: nat)
    requires i < |sources|
  {
    exists a :: a in Addresses(dns, sources[i]) && !Reaches(dns, sources[..i], a)
  }

  /**
    Of the whole list: the names set apart are exactly those that did not resolve,
    which is what they are reported as, if and only if every name that resolves
    brings an address that no entry before it brought.
  */
  lemma SetApartIsUnresolvedIff(dns: Resolver, sources: seq<Source>, unresolved: seq<HostName>)
    requires SetApart(dns, sources, unresolved)
    ensures (forall h :: h in unresolved <==> DidNotResolve(dns, sources, h)) <==>
            forall i :: 0 <= i < |sources| && sources[i].Host? && Addresses(dns, sources[i]) != [] ==>
                BringsOne(dns, sources, i)
  {
    if forall h :: h in unresolved <==> DidNotResolve(dns, sources, h) {
      forall i | 0 <= i < |sources| && sources[i].Host? && Addresses(dns, sources[i]) != []
        ensures BringsOne(dns, sources, i)
      {
        assert sources[i] == Host(sources[i].name);
        assert !DidNotResolve(dns, sources, sources[i].name);
        assert !AddsNothing(dns, sources, i);
      }
    } else {
      var h :| !(h in unresolved <==> DidNotResolve(dns, sources, h));
      if !DidNotResolve(dns, sources, h) {
        var i :| 0 <= i < |sources| && sources[i] == Host(h) && AddsNothing(dns, sources, i);
        assert !BringsOne(dns, sources, i);
      }
    }
  }

  /** A previous hop named by its address and by its name, or by its name twice: the name resolves, and is set apart. */
  lemma ResolvedYetSetApart(dns: Resolver, a: Addr, h: HostName, first: Source, unresolved: seq<HostName>)
    requires dns(h) == Some([a]) && (first == Literal(a) || first == Host(h))
    requires SetApart(dns, [first, Host(h)], unresolved)
    ensures h in unresolved && !DidNotResolve(dns, [first, Host(h)], h)
  {
    var sources := [first, Host(h)];
    assert sources[..1][0] == first;
    assert Reaches(dns, sources[..1], a);
    assert sources[1] == Host(h) && AddsNothing(dns, sources, 1);
  }

  // ------------------------------------------------------------------- the rules

  predicate ValidRule(r: Rule) {
    0 < r.port <= 65535 && !r.proto.OtherProto?
  }

  ghost predicate NamedByOne(dns: Resolver, i: Ingress, r: Rule) {
    && i.allowFrom != [] && r.port == i.port && r.proto in i.transports && !r.proto.OtherProto?
    && (if r.src.Some? then Reaches(dns, i.allowFrom, r.src.value) else forall a :: !Reaches(dns, i.allowFrom, a))
  }

  /**
    The rules a block in force needs: each port and transport, from each address
    of its previous hops, or from anyone when no name of them resolves; none for
    a port with no source named, and none without a block.
  */
  ghost predicate Wanted(dns: Resolver, block: Option<seq<Ingress>>, r: Rule) {
    block.Some? && exists k :: 0 <= k < |block.value| && NamedByOne(dns, block.value[k], r)
  }

  /** ufw, this process's memory of it, and the rules kept on disk for the chain. */
  class Firewall {
    var rules: set<Rule>
    var cached: set<Rule>
    var file: set<Rule>
    ghost var closed: set<Rule>

    /** A rule remembered is a rule that is there. */
    ghost predicate Valid()
      reads this
    {
      cached <= rules
    }

    constructor ()
      ensures Valid() && rules == {} && cached == {} && file == {} && closed == {}
    {
      rules, cached, file, closed := {}, {}, {}, {};
    }

    /** Allow and AllowSource. */
    method AllowRule(r: Rule)
      requires Valid()
      modifies `rules, `cached
      ensures Valid()
      ensures rules == old(rules) + if ValidRule(r) then {r} else {}
    {
      if !ValidRule(r) {
        return;
      }
      if r in cached {
        return;
      }
      rules, cached := rules + {r}, cached + {r};
    }

    /** Close and CloseSource. */
    method CloseRule(r: Rule)
      requires Valid()
      modifies `rules, `cached, `closed
      ensures Valid()
      ensures rules == old(rules) - if ValidRule(r) then {r} else {}
      ensures closed == old(closed) + if ValidRule(r) then {r} else {}
    {
      if !ValidRule(r) {
        return;
      }
      cached := cached - {r};
      rules, closed := rules - {r}, closed + {r};
    }

    method WantOf(dns: Resolver, i: Ingress) returns (want: set<Rule>)
      ensures forall r :: r in want <==> NamedByOne(dns, i, r)
    {
      want := {};
      if i.allowFrom == [] {
        return;
      }
      var srcs, _ := ResolveSources(dns, i.allowFrom);
      for k := 0 to |i.transports|
        invariant forall r :: r in want <==> NamedByOne(dns, i, r) && r.proto in i.transports[..k]
      {
        assert i.transports[..k + 1] == i.transports[..k] + [i.transports[k]];
        var proto := i.transports[k];
        if proto.OtherProto? {
          continue;
        }
        if srcs == [] {
          forall a ensures !Reaches(dns, i.allowFrom, a) {
            assert a !in srcs;
          }
          want := want + {Rule(i.port, proto, None)};
        } else {
          assert srcs[0] in srcs;
          want := want + set a | a in srcs :: Rule(i.port, proto, Some(a));
        }
      }
      assert i.transports[..|i.transports|] == i.transports;
    }

    method WantAll(dns: Resolver, block: Option<seq<Ingress>>) returns (want: set<Rule>)
      ensures forall r :: r in want <==> Wanted(dns, block, r)
    {
      want := {};
      if block.Some? {
        for k := 0 to |block.value|
          invariant forall r :: r in want <==> exists j :: 0 <= j < k && NamedByOne(dns, block.value[j], r)
        {
          var more := WantOf(dns, block.value[k]);
          want := want + more;
        }
      }
    }

    /**
      ensureChainFirewall. What the block needs is opened first, then what an
      earlier block opened and this one does not need is closed, and the set is
      saved; nothing needed is ever closed on the way.
    */
    method EnsureChain(dns: Resolver, block: Option<seq<Ingress>>)
      requires Valid()
      modifies this
      ensures Valid()
      ensures forall r :: r in file <==> Wanted(dns, block, r)
      ensures forall r :: r in rules <==>
                if ValidRule(r) && (r in file || r in old(file)) then r in file else r in old(rules)
      ensures forall r :: r in closed ==> r !in file
    {
      closed := {};
      var want := WantAll(dns, block);
      var todo := want;
      while todo != {}
        invariant Valid() && todo <= want && closed == {} && file == old(file)
        invariant forall r :: r in rules <==> r in old(rules) || (r in want && r !in todo && ValidRule(r))
      {
        var r :| r in todo;
        AllowRule(r);
        todo := todo - {r};
      }
      var earlier := file;
      while earlier != {}
        invariant Valid() && earlier <= file && file == old(file)
        invariant forall r :: r in closed ==> r !in want
        invariant forall r :: r in rules <==>
                    (r in old(rules) || (r in want && ValidRule(r))) &&
                        !(r in file && r !in earlier && r !in want && ValidRule(r))
      {
        var r :| r in earlier;
        if r !in want {
          CloseRule(r);
        }
        earlier := earlier - {r};
      }
      file := want;
    }
  }

  // ------------------------------------------------------------------- whole runs

  /** `others`: rules the rest of the agent keeps, inbound ports and the like. */
  datatype State = State(rules: set<Rule>, file: set<Rule>, others: set<Rule>)

  datatype Event =
    | Ensure(dns: Resolver, block: Option<seq<Ingress>>)
    | Elsewhere(others: set<Rule>)   // the rest of the agent opened and closed rules of its own
    | Restart

  ghost predicate Step(a: State, b: State, e: Event) {
    match e
    case Ensure(dns, block) =>
      && b.others == a.others
      && (forall r :: r in b.file <==> Wanted(dns, block, r))
      && (forall r :: r in b.rules <==>
            if ValidRule(r) && (r in b.file || r in a.file) then r in b.file else r in a.rules)
    case Elsewhere(others) => b.file == a.file && b.others == others && b.rules == (a.rules - a.others) + others
    case Restart => b == a
  }

  /** Link ports are nobody else's. */
  ghost predicate Apart(st: State) {
    st.others !! st.file
  }

  ghost predicate IsRun(states: seq<State>, events: seq<Event>) {
    |states| == |events| + 1 && forall k :: 0 <= k < |events| ==> Step(states[k], states[k + 1], events[k])
  }

  ghost predicate Reconciled(st: State) {
    forall r :: r in st.rules <==> r in st.others || (r in st.file && ValidRule(r))
  }

  /**
    Over any run of pushes, restarts and the rest of the agent's own changes:
    the chain's open rules are exactly those on disk.
  */
  lemma {:induction false} RunReconciled(states: seq<State>, events: seq<Event>, k: nat)
    requires IsRun(states, events) && k < |states| && Reconciled(states[0])
    requires forall j :: 0 <= j < |states| ==> Apart(states[j])
    ensures Reconciled(states[k])
    decreases k
  {
    if k > 0 {
      RunReconciled(states, events, k - 1);
      var a, b := states[k - 1], states[k];
      assert Step(a, b, events[k - 1]) && Apart(a) && Apart(b);
      forall r
        ensures r in b.rules <==> r in b.others || (r in b.file && ValidRule(r))
      {
      }
    }
  }

  lemma {:induction false} FileStays(states: seq<State>, events: seq<Event>, from: nat, k: nat)
    requires IsRun(states, events) && from <= k < |states|
    requires forall j :: from <= j < k ==> !events[j].Ensure?
    ensures states[k].file == states[from].file
    decreases k
  {
    if from < k {
      FileStays(states, events, from, k - 1);
      assert Step(states[k - 1], states[k], events[k - 1]);
    }
  }

  /** And they are what the last block needs, under the last resolution of its names. */
  lemma OpenIsWanted(states: seq<State>, events: seq<Event>, k: nat, last: nat, r: Rule)
    requires IsRun(states, events) && k < |states| && Reconciled(states[0])
    requires forall j :: 0 <= j < |states| ==> Apart(states[j])
    requires last < k && events[last].Ensure? && forall j :: last < j < k ==> !events[j].Ensure?
    ensures r !in states[k].others ==>
              (r in states[k].rules <==>
                && 1 <= r.port <= 65535 && (r.proto == Tcp || r.proto == Udp)
                && Wanted(events[last].dns, events[last].block, r))
  {
    RunReconciled(states, events, k);
    FileStays(states, events, last + 1, k);
    assert Step(states[last], states[last + 1], events[last]);
  }

  // ------------------------------------------------------------- open to anyone, or not

  /** The ingress asks for this port and transport, with its sources named. */
  predicate Asks(i: Ingress, port: int, proto: Proto) {
    i.allowFrom != [] && i.port == port && proto in i.transports && !proto.OtherProto?
  }

  ghost predicate Answers(dns: Resolver, i: Ingress) {
    exists a :: Reaches(dns, i.allowFrom, a)
  }

  ghost predicate WantedWide(dns: Resolver, block: seq<Ingress>, port: int, proto: Proto) {
    Wanted(dns, Some(block), Rule(port, proto, None))
  }

  ghost predicate WantedNarrow(dns: Resolver, block: seq<Ingress>, port: int, proto: Proto) {
    exists a :: Wanted(dns, Some(block), Rule(port, proto, Some(a)))
  }

  ghost predicate OneAsks(dns: Resolver, block: seq<Ingress>, port: int, proto: Proto, answers: bool) {
    exists k :: 0 <= k < |block| && Asks(block[k], port, proto) && (Answers(dns, block[k]) <==> answers)
  }

  lemma WideIff(dns: Resolver, block: seq<Ingress>, port: int, proto: Proto)
    ensures WantedWide(dns, block, port, proto) <==> OneAsks(dns, block, port, proto, false)
  {
    forall k | 0 <= k < |block|
      ensures NamedByOne(dns, block[k], Rule(port, proto, None)) <==>
              Asks(block[k], port, proto) && !Answers(dns, block[k])
    {
    }
  }

  lemma NarrowIff(dns: Resolver, block: seq<Ingress>, port: int, proto: Proto)
    ensures WantedNarrow(dns, block, port, proto) <==> OneAsks(dns, block, port, proto, true)
  {
    if OneAsks(dns, block, port, proto, true) {
      var k :| 0 <= k < |block| && Asks(block[k], port, proto) && Answers(dns, block[k]);
      var a :| Reaches(dns, block[k].allowFrom, a);
      assert NamedByOne(dns, block[k], Rule(port, proto, Some(a)));
      assert Wanted(dns, Some(block), Rule(port, proto, Some(a)));
    }
    if WantedNarrow(dns, block, port, proto) {
      var a :| Wanted(dns, Some(block), Rule(port, proto, Some(a)));
      var k :| 0 <= k < |block| && NamedByOne(dns, block[k], Rule(port, proto, Some(a)));
      assert Asks(block[k], port, proto) && Answers(dns, block[k]);
    }
  }

  /**
    A port that is meant for named hops only is also open to anyone exactly when two
    ingresses of the block share it: one of them has a source that resolves, the
    other has none.
  */
  lemma WideAndNarrowIff(dns: Resolver, block: seq<Ingress>, port: int, proto: Proto)
    ensures WantedWide(dns, block, port, proto) && WantedNarrow(dns, block, port, proto) <==>
            OneAsks(dns, block, port, proto, false) && OneAsks(dns, block, port, proto, true)
  {
    WideIff(dns, block, port, proto);
    NarrowIff(dns, block, port, proto);
  }

  /** No two ingresses of the block share a port and a transport. */
  ghost predicate PortsApart(block: seq<Ingress>) {
    forall j, k, p :: 0 <= j < k < |block| && block[j].port == block[k].port && p in block[j].transports ==>
        p !in block[k].transports
  }

  /** With every port and transport asked for once, a port is open to anyone or to named hops, never both. */
  lemma WideOrNarrow(dns: Resolver, block: seq<Ingress>, port: int, proto: Proto)
    requires PortsApart(block)
    ensures !(WantedWide(dns, block, port, proto) && WantedNarrow(dns, block, port, proto))
  {
    WideAndNarrowIff(dns, block, port, proto);
    forall j, k | 0 <= j < |block| && Asks(block[j], port, proto) && 0 <= k < |block| && Asks(block[k], port, proto)
      ensures j == k
    {
    }
  }

  /** Two ingresses on one port, the name of one not resolving: the other's sources do not keep anyone out. */
  lemma OneNameOpensThePort(dns: Resolver, port: int, a: Addr, h: HostName)
    requires dns(h).None?
    ensures var block := [Ingress(port, [Tcp], [Literal(a)]), Ingress(port, [Tcp], [Host(h)])];
      WantedWide(dns, block, port, Tcp) && WantedNarrow(dns, block, port, Tcp)
  {
    var block := [Ingress(port, [Tcp], [Literal(a)]), Ingress(port, [Tcp], [Host(h)])];
    assert block[0].allowFrom[0] == Literal(a);
    assert Reaches(dns, block[0].allowFrom, a);
    assert Answers(dns, block[0]) && !Answers(dns, block[1]);
    WideAndNarrowIff(dns, block, port, Tcp);
  }
}
