/**
  The guard that keeps a UDP port-hopping redirect off the node's own ports
  (hopguard.go): one nat chain, jumped to from PREROUTING ahead of every
  REDIRECT, rewritten when the ports change.
*/
module HopGuard {
  /** A PREROUTING rule. The jump is recognised by its text, a redirect by its target. */
  datatype Rule = Jump | Redirect(id: nat) | Other(id: nat)

  /** The nat table of one family: PREROUTING, and the ports the guard's own chain accepts, in order. */
  datatype Nat = Nat(prerouting: seq<Rule>, chain: seq<int>)

  // ---------------------------------------------------------------- packet verdicts

  datatype Packet = Packet(udp: bool, port: int, awg: bool, local: bool)

  /** Which rule decided, if any. */
  datatype Verdict = Accepted | By(rule: Rule) | Undecided

  /** The guard's chain: what an awg interface carries abroad, and the ports. */
  predicate ChainAccepts(chain: seq<int>, p: Packet) {
    (p.awg && !p.local) || (p.udp && p.port in chain)
  }

  /** PREROUTING read top down; `hits` says which rules decide which packets. */
  function Judge(rules: seq<Rule>, chain: seq<int>, hits: (Rule, Packet) -> bool, p: Packet): Verdict {
    if rules == [] then Undecided
    else if rules[0].Jump? then
      if p.udp && ChainAccepts(chain, p) then Accepted else Judge(rules[1..], chain, hits, p)
    else if hits(rules[0], p) then By(rules[0])
    else Judge(rules[1..], chain, hits, p)
  }

  // ------------------------------------------------------------------- the jump

  function Jumps(rules: seq<Rule>): nat {
    if rules == [] then 0 else (if rules[0].Jump? then 1 else 0) + Jumps(rules[1..])
  }

  function NoJumps(rules: seq<Rule>): seq<Rule> {
    if rules == [] then []
    else if rules[0].Jump? then NoJumps(rules[1..])
    else [rules[0]] + NoJumps(rules[1..])
  }

  ghost predicate JumpAt(rules: seq<Rule>, j: nat)
    requires j < |rules|
  {
    rules[j].Jump? &&
    (forall k :: 0 <= k < |rules| && rules[k].Jump? ==> k == j) &&
    (forall k :: 0 <= k < |rules| && rules[k].Redirect? ==> j < k)
  }

  /** One jump, and no redirect above it. */
  ghost predicate WellPlaced(rules: seq<Rule>) {
    exists j :: 0 <= j < |rules| && JumpAt(rules, j)
  }

  lemma {:induction false} JumpsPositions(rules: seq<Rule>)
    ensures Jumps(rules) == 0 <==> forall k :: 0 <= k < |rules| ==> !rules[k].Jump?
    ensures Jumps(rules) == 1 ==>
            forall j, k :: 0 <= j < |rules| && 0 <= k < |rules| && rules[j].Jump? && rules[k].Jump? ==> j == k
    ensures Jumps(rules) > 1 ==> exists j, k :: 0 <= j < k < |rules| && rules[j].Jump? && rules[k].Jump?
  {
    if rules != [] {
      var tail := rules[1..];
      JumpsPositions(tail);
      forall k | 0 <= k < |tail|
        ensures tail[k] == rules[k + 1]
      {
      }
      if Jumps(rules) > 1 {
        if rules[0].Jump? {
          var k :| 0 <= k < |tail| && tail[k].Jump?;
          assert rules[0].Jump? && rules[k + 1].Jump?;
        } else {
          var j, k :| 0 <= j < k < |tail| && tail[j].Jump? && tail[k].Jump?;
          assert rules[j + 1].Jump? && rules[k + 1].Jump?;
        }
      } else if Jumps(rules) == 1 {
        forall j, k | 0 <= j < |rules| && 0 <= k < |rules| && rules[j].Jump? && rules[k].Jump?
          ensures j == k
        {
          assert j > 0 ==> tail[j - 1].Jump?;
          assert k > 0 ==> tail[k - 1].Jump?;
        }
      }
    }
  }

  lemma {:induction false} NoJumpsHasNone(rules: seq<Rule>)
    ensures Jumps(NoJumps(rules)) == 0
    ensures NoJumps(NoJumps(rules)) == NoJumps(rules)
    ensures Jumps(rules) == 0 ==> NoJumps(rules) == rules
  {
    if rules != [] {
      NoJumpsHasNone(rules[1..]);
    }
  }

  lemma {:induction false} NoJumpsSplit(a: seq<Rule>, b: seq<Rule>)
    ensures NoJumps(a + b) == NoJumps(a) + NoJumps(b)
    ensures Jumps(a + b) == Jumps(a) + Jumps(b)
  {
    if a == [] {
      assert a + b == b;
    } else {
      assert (a + b)[1..] == a[1..] + b;
      NoJumpsSplit(a[1..], b);
    }
  }

  /** `-D` takes the first jump away. */
  function DropJump(rules: seq<Rule>): seq<Rule>
    requires Jumps(rules) > 0
  {
    if rules[0].Jump? then rules[1..] else [rules[0]] + DropJump(rules[1..])
  }

  lemma {:induction false} DropJumpEffect(rules: seq<Rule>)
    requires Jumps(rules) > 0
    ensures Jumps(DropJump(rules)) == Jumps(rules) - 1
    ensures NoJumps(DropJump(rules)) == NoJumps(rules)
  {
    if !rules[0].Jump? {
      DropJumpEffect(rules[1..]);
    }
  }

  /** Where the jump belongs: where it is when well placed, else on top of everything. */
  ghost function Placed(rules: seq<Rule>): seq<Rule> {
    if WellPlaced(rules) then rules else [Jump] + NoJumps(rules)
  }

  /**
    ensureJump. For any PREROUTING it leaves exactly one jump, ahead of every
    redirect, and the other rules in their order; a list already so is not
    touched, so doing it twice is doing it once.
  */
  method EnsureJump(rules: seq<Rule>) returns (out: seq<Rule>)
    ensures WellPlaced(out)
    ensures NoJumps(out) == NoJumps(rules)
    ensures WellPlaced(rules) ==> out == rules
    ensures out == Placed(rules)
  {
    var firstJump, firstRedirect, jumps := -1, -1, 0;
    for i := 0 to |rules|
      invariant jumps == Jumps(rules[..i])
      invariant -1 <= firstJump < i && -1 <= firstRedirect < i
      invariant firstJump >= 0 ==> rules[firstJump].Jump?
      invariant forall k :: 0 <= k < i && rules[k].Jump? ==> 0 <= firstJump <= k
      invariant firstRedirect >= 0 ==> rules[firstRedirect].Redirect?
      invariant forall k :: 0 <= k < i && rules[k].Redirect? ==> 0 <= firstRedirect <= k
    {
      assert rules[..i + 1] == rules[..i] + [rules[i]];
      NoJumpsSplit(rules[..i], [rules[i]]);
      match rules[i] {
        case Jump =>
          jumps := jumps + 1;
          if firstJump < 0 { firstJump := i; }
        case Redirect(_) =>
          if firstRedirect < 0 { firstRedirect := i; }
        case Other(_) =>
      }
    }
    assert rules[..|rules|] == rules;
    JumpsPositions(rules);
    if jumps == 1 && (firstRedirect < 0 || firstJump < firstRedirect) {
      assert exists k :: 0 <= k < |rules| && rules[k].Jump?;
      assert JumpAt(rules, firstJump);
      return rules;
    }
    out := rules;
    for i := 0 to jumps
      invariant Jumps(out) == jumps - i && NoJumps(out) == NoJumps(rules)
    {
      DropJumpEffect(out);
      out := DropJump(out);
    }
    NoJumpsHasNone(out);
    JumpsPositions(out);
    assert !WellPlaced(rules);
    out := [Jump] + out;
    assert JumpAt(out, 0);
  }

  // ------------------------------------------------------------------ what it is for

  /** No rule above a well-placed jump redirects, so no guarded packet is redirected. */
  lemma {:induction false} GuardedNotRedirected(rules: seq<Rule>, chain: seq<int>, hits: (Rule, Packet) -> bool,
      p: Packet, j: nat)
    requires j < |rules| && JumpAt(rules, j)
    requires p.udp && ChainAccepts(chain, p)
    ensures var v := Judge(rules, chain, hits, p);
            v.Accepted? || (v.By? && exists k :: 0 <= k < j && rules[k] == v.rule && v.rule.Other? && hits(v.rule, p))
  {
    if !rules[0].Jump? {
      assert !rules[0].Redirect?;
      if !hits(rules[0], p) {
        var tail := rules[1..];
        assert j > 0 && tail[j - 1].Jump?;
        forall k | 0 <= k < |tail|
          ensures tail[k] == rules[k + 1]
        {
        }
        assert JumpAt(tail, j - 1);
        GuardedNotRedirected(tail, chain, hits, p, j - 1);
        var v := Judge(rules, chain, hits, p);
        if v.By? {
          var k :| 0 <= k < j - 1 && tail[k] == v.rule;
          assert rules[k + 1] == v.rule;
        }
      }
    }
  }

  /** Every packet the chain does not accept is judged as if there were no guard. */
  lemma {:induction false} OthersUntouched(rules: seq<Rule>, chain: seq<int>, hits: (Rule, Packet) -> bool, p: Packet)
    requires !(p.udp && ChainAccepts(chain, p))
    ensures Judge(rules, chain, hits, p) == Judge(NoJumps(rules), chain, hits, p)
  {
    if rules != [] {
      OthersUntouched(rules[1..], chain, hits, p);
      if !rules[0].Jump? {
        assert NoJumps(rules)[1..] == NoJumps(rules[1..]);
      }
    }
  }

  // ------------------------------------------------------------------- the port sets

  function SetOf(ports: seq<int>): set<int> {
    set p | p in ports
  }

  predicate StrictlySorted(ports: seq<int>) {
    forall i, j :: 0 <= i < j < |ports| ==> ports[i] < ports[j]
  }

  method Insert(ports: seq<int>, p: int) returns (out: seq<int>)
    requires StrictlySorted(ports)
    ensures StrictlySorted(out) && SetOf(out) == SetOf(ports) + {p}
  {
    var i := 0;
    while i < |ports| && ports[i] < p
      invariant i <= |ports| && forall k :: 0 <= k < i ==> ports[k] < p
    {
      i := i + 1;
    }
    if i < |ports| && ports[i] == p {
      assert p in ports;
      return ports;
    }
    out := ports[..i] + [p] + ports[i..];
    assert out[i] == p;
    forall x
      ensures x in out <==> x in ports || x == p
    {
      if x in ports {
        var k :| 0 <= k < |ports| && ports[k] == x;
        assert out[if k < i then k else k + 1] == x;
      }
    }
  }

  method SortedUnique(ports: seq<int>) returns (out: seq<int>)
    ensures StrictlySorted(out) && SetOf(out) == SetOf(ports)
  {
    out := [];
    for i := 0 to |ports|
      invariant StrictlySorted(out) && SetOf(out) == SetOf(ports[..i])
    {
      out := Insert(out, ports[i]);
      assert ports[..i + 1] == ports[..i] + [ports[i]];
    }
    assert ports[..|ports|] == ports;
  }

  lemma NonEmpty(s: set<int>)
    requires s != {}
    ensures exists p :: p in s
  {
    if forall p :: p !in s {
    }
  }

  method Keys(m: set<int>) returns (out: seq<int>)
    ensures StrictlySorted(out) && SetOf(out) == m
  {
    out := [];
    var todo := m;
    while todo != {}
      invariant todo <= m && StrictlySorted(out) && SetOf(out) == m - todo
    {
      NonEmpty(todo);
      var p :| p in todo;
      out := Insert(out, p);
      todo := todo - {p};
    }
  }

  lemma SubsetOfSameSize(a: set<int>, b: set<int>)
    requires a <= b && |a| == |b|
    ensures a == b
  {
    assert b == a + (b - a);
    assert |b| == |a| + |b - a|;
  }

  /** Sizes and one inclusion are enough. */
  method MapsEqual(a: set<int>, b: set<int>) returns (equal: bool)
    ensures equal <==> a == b
  {
    if |a| != |b| {
      return false;
    }
    var todo := a;
    while todo != {}
      invariant todo <= a && a - todo <= b
    {
      NonEmpty(todo);
      var p :| p in todo;
      if p !in b {
        return false;
      }
      todo := todo - {p};
    }
    assert a <= b;
    SubsetOfSameSize(a, b);
    return true;
  }

  /** The ports whose treatment changed; with `all`, every port of the new set. */
  function Changed(last: set<int>, want: set<int>, all: bool): set<int> {
    (if all then want else want - last) + (last - want)
  }

  method SymmetricDiff(last: set<int>, want: set<int>, all: bool) returns (out: seq<int>)
    ensures StrictlySorted(out) && SetOf(out) == Changed(last, want, all)
  {
    var ports: seq<int> := [];
    var todo := want;
    while todo != {}
      invariant todo <= want
      invariant forall p :: p in ports <==> p in want && p !in todo && (all || p !in last)
    {
      NonEmpty(todo);
      var p :| p in todo;
      if all || p !in last {
        ports := ports + [p];
      }
      todo := todo - {p};
    }
    todo := last;
    while todo != {}
      invariant todo <= last
      invariant forall p :: p in ports <==>
              (p in want && (all || p !in last)) || (p in last && p !in todo && p !in want)
    {
      NonEmpty(todo);
      var p :| p in todo;
      if p !in want {
        ports := ports + [p];
      }
      todo := todo - {p};
    }
    out := SortedUnique(ports);
    forall p
      ensures p in SetOf(ports) <==> p in Changed(last, want, all)
    {
    }
  }

  function Valid(ports: set<int>): set<int> {
    set p | p in ports && 0 < p <= 65535
  }

  /** The family's table says exactly `want` and sends UDP there first. */
  ghost predicate Guarded(n: Nat, want: set<int>) {
    WellPlaced(n.prerouting) && SetOf(n.chain) == want
  }

  ghost predicate Writes(restoreOk: seq<bool>, jumpOk: seq<bool>) {
    forall f :: 0 <= f < |restoreOk| == |jumpOk| ==> restoreOk[f] && jumpOk[f]
  }

  /** What a sync selects for a flush. */
  function ToFlush(last: set<int>, want: set<int>, synced: bool): set<int> {
    if synced && last == want then {} else Changed(last, want, !synced)
  }

  datatype Host = Host(last: set<int>, synced: bool, tables: seq<Nat>)

  /** A sync whose writes all went through. */
  ghost predicate SyncOk(a: Host, b: Host, ports: set<int>, selected: set<int>) {
    && b.synced && b.last == Valid(ports)
    && |b.tables| == |a.tables|
    && (forall f :: 0 <= f < |a.tables| ==>
          && Guarded(b.tables[f], Valid(ports))
          && b.tables[f].prerouting == Placed(a.tables[f].prerouting)
          && NoJumps(b.tables[f].prerouting) == NoJumps(a.tables[f].prerouting))
    && selected == ToFlush(a.last, Valid(ports), a.synced)
  }

  /** One family's part of a sync: the chain rewritten when the ports changed, then the jump. */
  method SyncFamily(table: Nat, want: set<int>, changed: bool, restoreOk: bool, jumpOk: bool)
    returns (out: Nat, ok: bool)
    ensures ok <==> (changed ==> restoreOk) && jumpOk
    ensures out.prerouting == if ok then Placed(table.prerouting) else table.prerouting
    ensures NoJumps(out.prerouting) == NoJumps(table.prerouting)
    ensures ok ==> WellPlaced(out.prerouting)
    ensures if changed && restoreOk then SetOf(out.chain) == want else out.chain == table.chain
  {
    out := table;
    if changed {
      if !restoreOk {
        return out, false;
      }
      var chain := Keys(want);
      out := out.(chain := chain);
    }
    if jumpOk {
      var placed := EnsureJump(table.prerouting);
      out := out.(prerouting := placed);
    }
    ok := jumpOk;
  }

  /** What a family's table went through, whether or not every family's writes did. */
  ghost predicate Synced(was: Nat, now: Nat, want: set<int>, changed: bool, ok: bool) {
    && NoJumps(now.prerouting) == NoJumps(was.prerouting)
    && (!changed ==> now.chain == was.chain)
    && (ok ==> WellPlaced(now.prerouting) && now.prerouting == Placed(was.prerouting))
    && (ok && changed ==> SetOf(now.chain) == want)
  }

  /** The families one after another; one that fails does not stop the next. */
  method SyncFamilies(tables: seq<Nat>, want: set<int>, changed: bool, restoreOk: seq<bool>, jumpOk: seq<bool>)
    returns (out: seq<Nat>, ok: bool)
    requires |restoreOk| == |tables| && |jumpOk| == |tables|
    ensures |out| == |tables|
    ensures ok <==> forall f :: 0 <= f < |tables| ==> (changed ==> restoreOk[f]) && jumpOk[f]
    ensures forall f :: 0 <= f < |tables| ==> Synced(tables[f], out[f], want, changed, ok)
  {
    out, ok := [], true;
    for f := 0 to |tables|
      invariant |out| == f
      invariant ok <==> forall g :: 0 <= g < f ==> (changed ==> restoreOk[g]) && jumpOk[g]
      invariant forall g :: 0 <= g < f ==> Synced(tables[g], out[g], want, changed, ok)
    {
      var table, done := SyncFamily(tables[f], want, changed, restoreOk[f], jumpOk[f]);
      out := out + [table];
      ok := ok && done;
    }
  }

  /**
    The guard and the host. `tables` is one nat table per family that has its
    tools; `writes` says which of a family's two writes goes through.
  */
  class Guard {
    var last: set<int>
    var synced: bool
    var tables: seq<Nat>
    var hasConntrack: bool
    ghost var flushed: set<int>

    constructor (tables: seq<Nat>, hasConntrack: bool)
      ensures last == {} && !synced && this.tables == tables && this.hasConntrack == hasConntrack
    {
      last, synced := {}, false;
      this.tables, this.hasConntrack := tables, hasConntrack;
      flushed := {};
    }

    /** Nothing else writes to the chain: after a sync that went through it says `last`. */
    ghost predicate Consistent()
      reads this
    {
      synced ==> forall f :: 0 <= f < |tables| ==> SetOf(tables[f].chain) == last
    }

    /**
      Sync. With every write going through: each family says exactly the wanted
      ports behind a well-placed jump, its other rules stay in order, and the
      ports selected for a flush are those whose treatment changed since the
      last sync of this process (all of them at its first).
    */
    method Sync(ports: set<int>, restoreOk: seq<bool>, jumpOk: seq<bool>)
      requires |restoreOk| == |tables| && |jumpOk| == |tables| && Consistent()
      modifies this
      ensures Writes(restoreOk, jumpOk) || old(!synced || last == Valid(ports)) ==> Consistent()
      ensures |tables| == |old(tables)| && hasConntrack == old(hasConntrack)
      ensures tables != [] && Writes(restoreOk, jumpOk) ==>
                SyncOk(Host(old(last), old(synced), old(tables)), Host(last, synced, tables), ports,
                       old(ToFlush(last, Valid(ports), synced)))
      ensures flushed == if tables != [] && hasConntrack then old(ToFlush(last, Valid(ports), synced)) else {}
      ensures forall f :: 0 <= f < |tables| ==> NoJumps(tables[f].prerouting) == NoJumps(old(tables)[f].prerouting)
    {
      flushed := {};
      var want := Valid(ports);
      if |tables| == 0 {
        return;
      }
      var same := MapsEqual(want, last);
      var changed := !synced || !same;
      var written, ok := SyncFamilies(tables, want, changed, restoreOk, jumpOk);
      tables := written;
      if !changed {
        return;
      }
      var diff := SymmetricDiff(last, want, !synced);
      if hasConntrack {
        flushed := SetOf(diff);
      }
      if ok {
        last, synced := want, true;
      }
    }
  }

  // --------------------------------------------------------------------- whole runs

  datatype Event =
    | Sync(ports: set<int>, selected: set<int>)
    | Restart   // the agent: its memory goes, the host's tables stay
    | Edit      // someone else rewrites PREROUTING

  ghost predicate Step(a: Host, b: Host, e: Event) {
    match e
    case Sync(ports, selected) => SyncOk(a, b, ports, selected)
    case Restart => b == Host({}, false, a.tables)
    case Edit =>
      && b.last == a.last && b.synced == a.synced && |b.tables| == |a.tables|
      && forall f :: 0 <= f < |a.tables| ==> b.tables[f].chain == a.tables[f].chain
  }

  /** `states[k]` is the host before event `k`, the last one after them all. */
  ghost predicate IsRun(states: seq<Host>, events: seq<Event>) {
    |states| == |events| + 1 && forall k :: 0 <= k < |events| ==> Step(states[k], states[k + 1], events[k])
  }

  ghost predicate Agrees(h: Host) {
    if h.synced then forall f :: 0 <= f < |h.tables| ==> SetOf(h.tables[f].chain) == h.last else h.last == {}
  }

  lemma {:induction false} RunAgrees(states: seq<Host>, events: seq<Event>, k: nat)
    requires IsRun(states, events) && k < |states| && Agrees(states[0])
    ensures Agrees(states[k])
    decreases k
  {
    if k > 0 {
      RunAgrees(states, events, k - 1);
      assert Step(states[k - 1], states[k], events[k - 1]);
    }
  }

  lemma {:induction false} ChainUnread(rules: seq<Rule>, a: seq<int>, b: seq<int>, hits: (Rule, Packet) -> bool,
      p: Packet)
    requires Jumps(rules) == 0
    ensures Judge(rules, a, hits, p) == Judge(rules, b, hits, p)
  {
    if rules != [] {
      ChainUnread(rules[1..], a, b, hits, p);
    }
  }

  /**
    Over any run of syncs, restarts and other people's edits: right after a
    sync no UDP packet to a wanted port is redirected, every packet the chain
    does not accept is judged as if the guard were not there, by the same rules
    as before, and the chain accepts exactly the wanted ports and awg traffic
    to foreign addresses.
  */
  lemma SyncGuards(states: seq<Host>, events: seq<Event>, k: nat, f: nat, hits: (Rule, Packet) -> bool, p: Packet)
    requires IsRun(states, events) && Agrees(states[0])
    requires k < |events| && events[k].Sync? && f < |states[k].tables|
    ensures f < |states[k + 1].tables|
    ensures forall q :: q in states[k + 1].tables[f].chain <==> q in events[k].ports && 1 <= q <= 65535
    ensures var n, before, want := states[k + 1].tables[f], states[k].tables[f], Valid(events[k].ports);
            var v := Judge(n.prerouting, n.chain, hits, p);
            (p.udp && p.port in want ==> !(v.By? && v.rule.Redirect?)) &&
            (!(p.udp && (p.port in want || (p.awg && !p.local))) ==>
               v == Judge(NoJumps(before.prerouting), [], hits, p))
  {
    assert Step(states[k], states[k + 1], events[k]);
    var n, before, want := states[k + 1].tables[f], states[k].tables[f], Valid(events[k].ports);
    assert Guarded(n, want);
    forall q ensures q in n.chain <==> q in want {
      assert q in SetOf(n.chain) <==> q in want;
    }
    if p.udp && ChainAccepts(n.chain, p) {
      var j :| 0 <= j < |n.prerouting| && JumpAt(n.prerouting, j);
      GuardedNotRedirected(n.prerouting, n.chain, hits, p, j);
    } else {
      OthersUntouched(n.prerouting, n.chain, hits, p);
      NoJumpsHasNone(n.prerouting);
      ChainUnread(NoJumps(n.prerouting), n.chain, [], hits, p);
    }
  }

  /**
    Every port that enters or leaves a family's chain is selected for a flush
    exactly when this process has synced before, or the chain it found holds no
    port that is not wanted.
  */
  lemma ChainChangesFlushedIff(states: seq<Host>, events: seq<Event>, k: nat, f: nat)
    requires IsRun(states, events) && Agrees(states[0])
    requires k < |events| && events[k].Sync? && f < |states[k].tables|
    ensures var was, want := SetOf(states[k].tables[f].chain), Valid(events[k].ports);
            (was - want) + (want - was) <= events[k].selected <==> states[k].synced || was <= want
  {
    RunAgrees(states, events, k);
    assert Step(states[k], states[k + 1], events[k]);
    var was, want := SetOf(states[k].tables[f].chain), Valid(events[k].ports);
    if !states[k].synced && !(was <= want) {
      NonEmpty(was - want);
      var p :| p in was - want;
      assert p in (was - want) + (want - was);
    }
  }

  // ------------------------------------------------------------------ what is flushed

  /** A flow's translation: the rule that decides it. An accepted packet and one no rule decides go untranslated. */
  function Translation(n: Nat, hits: (Rule, Packet) -> bool, p: Packet): Verdict {
    var v := Judge(n.prerouting, n.chain, hits, p);
    if v.Accepted? then Undecided else v
  }

  /** UDP to the port, other than what an awg interface carries abroad. */
  predicate ToPort(p: Packet, port: int) {
    p.udp && p.port == port && !(p.awg && !p.local)
  }

  /** The port's packets are translated alike by both tables, whatever the rules match. */
  ghost predicate SameTreatment(a: Nat, b: Nat, port: int) {
    forall hits: (Rule, Packet) -> bool, p :: ToPort(p, port) ==> Translation(a, hits, p) == Translation(b, hits, p)
  }

  function UpToJump(rules: seq<Rule>): seq<Rule> {
    if rules == [] || rules[0].Jump? then [] else [rules[0]] + UpToJump(rules[1..])
  }

  /** The rules that may decide a packet to the port, in order. */
  function Seen(n: Nat, port: int): seq<Rule> {
    if port in n.chain then UpToJump(n.prerouting) else NoJumps(n.prerouting)
  }

  function FirstHit(rules: seq<Rule>, hits: (Rule, Packet) -> bool, p: Packet): Verdict {
    if rules == [] then Undecided
    else if hits(rules[0], p) then By(rules[0])
    else FirstHit(rules[1..], hits, p)
  }

  lemma {:induction false} SeenDecide(rules: seq<Rule>, chain: seq<int>, hits: (Rule, Packet) -> bool, p: Packet)
    requires ToPort(p, p.port)
    ensures Translation(Nat(rules, chain), hits, p) == FirstHit(Seen(Nat(rules, chain), p.port), hits, p)
  {
    if rules != [] {
      SeenDecide(rules[1..], chain, hits, p);
    }
  }

  lemma {:induction false} FirstHitSplit(a: seq<Rule>, b: seq<Rule>, hits: (Rule, Packet) -> bool, p: Packet)
    ensures FirstHit(a + b, hits, p) ==
              if FirstHit(a, hits, p).By? then FirstHit(a, hits, p) else FirstHit(b, hits, p)
  {
    if a == [] {
      assert a + b == b;
    } else {
      assert (a + b)[1..] == a[1..] + b;
      FirstHitSplit(a[1..], b, hits, p);
    }
  }

  lemma {:induction false} FirstHitSome(rules: seq<Rule>, hits: (Rule, Packet) -> bool, p: Packet)
    ensures FirstHit(rules, hits, p).By? <==> exists r :: r in rules && hits(r, p)
    ensures !FirstHit(rules, hits, p).Accepted?
  {
    if rules != [] {
      FirstHitSome(rules[1..], hits, p);
      assert forall r :: r in rules <==> r == rules[0] || r in rules[1..];
    }
  }

  lemma {:induction false} AboveComesFirst(rules: seq<Rule>)
    ensures UpToJump(rules) <= NoJumps(rules)
  {
    if rules != [] && !rules[0].Jump? {
      AboveComesFirst(rules[1..]);
    }
  }

  /** More rules at the end change the treatment exactly when one of them is new. */
  lemma TreatmentIff(a: Nat, b: Nat, port: int)
    requires Seen(a, port) <= Seen(b, port)
    ensures SameTreatment(a, b, port) <==> forall r :: r in Seen(b, port) ==> r in Seen(a, port)
  {
    var first, all := Seen(a, port), Seen(b, port);
    if r :| r in all && r !in first {
      var hits := (x: Rule, q: Packet) => x == r;
      var p := Packet(true, port, false, false);
      SeenDecide(a.prerouting, a.chain, hits, p);
      SeenDecide(b.prerouting, b.chain, hits, p);
      FirstHitSome(first, hits, p);
      FirstHitSome(all, hits, p);
      assert hits(r, p);
      assert Translation(a, hits, p) != Translation(b, hits, p);
    } else {
      var more := all[|first|..];
      assert all == first + more;
      forall hits: (Rule, Packet) -> bool, p | ToPort(p, port)
        ensures Translation(a, hits, p) == Translation(b, hits, p)
      {
        SeenDecide(a.prerouting, a.chain, hits, p);
        SeenDecide(b.prerouting, b.chain, hits, p);
        FirstHitSplit(first, more, hits, p);
        FirstHitSome(first, hits, p);
        FirstHitSome(more, hits, p);
      }
    }
  }

  /** A rule below the jump that is not above it as well. */
  ghost predicate Shields(rules: seq<Rule>) {
    exists r :: r in NoJumps(rules) && r !in UpToJump(rules)
  }

  /** The jump is about to be moved up past another rule, or put there for the first time above one. */
  ghost predicate JumpMoves(rules: seq<Rule>) {
    !WellPlaced(rules) && UpToJump(rules) != []
  }

  /** One port's treatment across a sync of one family. */
  lemma PortTreatmentIff(was: Nat, now: Nat, want: set<int>, port: int)
    requires Guarded(now, want) && now.prerouting == Placed(was.prerouting)
    requires NoJumps(now.prerouting) == NoJumps(was.prerouting)
    ensures port !in was.chain && port !in want ==> SameTreatment(was, now, port)
    ensures port in was.chain && port !in want ==> (SameTreatment(was, now, port) <==> !Shields(was.prerouting))
    ensures port in was.chain && port in want ==> (SameTreatment(was, now, port) <==> !JumpMoves(was.prerouting))
  {
    assert port in now.chain <==> port in SetOf(now.chain);
    AboveComesFirst(was.prerouting);
    if port !in want {
      TreatmentIff(was, now, port);
    } else if port in was.chain {
      TreatmentIff(now, was, port);
      assert !WellPlaced(was.prerouting) ==> now.prerouting[0].Jump? && UpToJump(now.prerouting) == [];
      if UpToJump(was.prerouting) != [] {
        assert UpToJump(was.prerouting)[0] in UpToJump(was.prerouting);
      }
    }
  }

  lemma FlushedIff(a: Host, b: Host, ports: set<int>, selected: set<int>, f: nat)
    requires Agrees(a) && SyncOk(a, b, ports, selected) && f < |a.tables|
    ensures var was, now, want := a.tables[f], b.tables[f], Valid(ports);
            (forall port :: SameTreatment(was, now, port) || port in selected) <==>
              if a.synced then !JumpMoves(was.prerouting) || SetOf(was.chain) !! want
              else !Shields(was.prerouting) || SetOf(was.chain) <= want
  {
    var was, now, want := a.tables[f], b.tables[f], Valid(ports);
    forall port
      ensures SameTreatment(was, now, port) || port in selected <==>
                port !in SetOf(was.chain) ||
                if a.synced then port !in want || !JumpMoves(was.prerouting)
                else port in want || !Shields(was.prerouting)
    {
      PortTreatmentIff(was, now, want, port);
      assert port in was.chain <==> port in SetOf(was.chain);
    }
    if a.synced {
      if JumpMoves(was.prerouting) && SetOf(was.chain) * want != {} {
        NonEmpty(SetOf(was.chain) * want);
        var port :| port in SetOf(was.chain) * want;
        assert !(SameTreatment(was, now, port) || port in selected);
      }
    } else if Shields(was.prerouting) && !(SetOf(was.chain) <= want) {
      NonEmpty(SetOf(was.chain) - want);
      var port :| port in SetOf(was.chain) - want;
      assert !(SameTreatment(was, now, port) || port in selected);
    }
  }

  /**
    Every port whose treatment changed, in the sense of what its packets are
    translated to, is selected for a flush exactly when: in a process that has
    synced before, the jump stays put or no wanted port was wanted before; in
    one that has not, the chain it found holds no port that is not wanted, or
    the jump kept no rule from it. Neither a port an earlier process left in the
    chain nor one guarded again by moving the jump back up is flushed.
  */
  lemma FlushCompleteIff(states: seq<Host>, events: seq<Event>, k: nat, f: nat)
    requires IsRun(states, events) && Agrees(states[0])
    requires k < |events| && events[k].Sync? && f < |states[k].tables|
    ensures f < |states[k + 1].tables|
    ensures var was, now := states[k].tables[f], states[k + 1].tables[f];
            var want := Valid(events[k].ports);
            (forall port :: SameTreatment(was, now, port) || port in events[k].selected) <==>
              if states[k].synced then !JumpMoves(was.prerouting) || SetOf(was.chain) !! want
              else !Shields(was.prerouting) || SetOf(was.chain) <= want
  {
    RunAgrees(states, events, k);
    assert Step(states[k], states[k + 1], events[k]);
    FlushedIff(states[k], states[k + 1], events[k].ports, events[k].selected, f);
  }

  /** The two rules in both orders. */
  lemma TwoRules()
    ensures var good, bad := [Jump, Redirect(0)], [Redirect(0), Jump];
      && WellPlaced(good) && Placed(good) == good && UpToJump(good) == [] && NoJumps(good) == [Redirect(0)]
      && !WellPlaced(bad) && Placed(bad) == good && UpToJump(bad) != [] && NoJumps(bad) == [Redirect(0)]
      && !WellPlaced([Redirect(0)]) && Placed([Redirect(0)]) == good && NoJumps([Redirect(0)]) == [Redirect(0)]
  {
    var good, bad, plain := [Jump, Redirect(0)], [Redirect(0), Jump], [Redirect(0)];
    assert JumpAt(good, 0);
    assert good[1..] == plain && plain[1..] == [];
    assert bad[1..] == [Jump] && [Jump][1..] == [];
    assert bad[0].Redirect?;
    assert forall j :: 0 <= j < |bad| ==> !JumpAt(bad, j);
  }

  /** A run in which one is left: a port synced, the agent restarted, and the port no longer wanted. */
  lemma StalePortNotFlushed(port: int)
    requires 0 < port <= 65535
    ensures var rules := [Jump, Redirect(0)];
      var one, none := Nat(rules, [port]), Nat(rules, []);
      var states := [Host({}, false, [Nat([Redirect(0)], [])]), Host({port}, true, [one]), Host({}, false, [one]),
          Host({}, true, [none])];
      var events := [Sync({port}, {port}), Restart, Sync({}, {})];
      && IsRun(states, events) && Agrees(states[0])
      && port in SetOf(states[2].tables[0].chain) && port !in SetOf(states[3].tables[0].chain)
      && !SameTreatment(states[2].tables[0], states[3].tables[0], port) && port !in events[2].selected
  {
    var rules := [Jump, Redirect(0)];
    var one, none := Nat(rules, [port]), Nat(rules, []);
    var states := [Host({}, false, [Nat([Redirect(0)], [])]), Host({port}, true, [one]), Host({}, false, [one]),
        Host({}, true, [none])];
    var events := [Sync({port}, {port}), Restart, Sync({}, {})];
    TwoRules();
    assert SetOf([port]) == {port} && SetOf([]) == {};
    assert Valid({port}) == {port} && Valid({}) == {};
    assert Step(states[0], states[1], events[0]);
    assert Step(states[1], states[2], events[1]);
    assert Step(states[2], states[3], events[2]);
    assert Redirect(0) in NoJumps(rules) && Redirect(0) !in UpToJump(rules);
    PortTreatmentIff(one, none, {}, port);
  }

  /** A redirect put above the jump, and the next sync of the same ports: guarded again, and not flushed. */
  lemma MovedJumpNotFlushed(port: int)
    requires 0 < port <= 65535
    ensures var guarded, behind := Nat([Jump, Redirect(0)], [port]), Nat([Redirect(0), Jump], [port]);
      var states := [Host({}, false, [Nat([Redirect(0)], [])]), Host({port}, true, [guarded]),
          Host({port}, true, [behind]), Host({port}, true, [guarded])];
      var events := [Sync({port}, {port}), Edit, Sync({port}, {})];
      && IsRun(states, events) && Agrees(states[0])
      && !SameTreatment(states[2].tables[0], states[3].tables[0], port) && port !in events[2].selected
  {
    var guarded, behind := Nat([Jump, Redirect(0)], [port]), Nat([Redirect(0), Jump], [port]);
    var states := [Host({}, false, [Nat([Redirect(0)], [])]), Host({port}, true, [guarded]),
        Host({port}, true, [behind]), Host({port}, true, [guarded])];
    var events := [Sync({port}, {port}), Edit, Sync({port}, {})];
    TwoRules();
    assert SetOf([port]) == {port} && Valid({port}) == {port};
    assert Step(states[0], states[1], events[0]);
    assert Step(states[1], states[2], events[1]);
    assert Step(states[2], states[3], events[2]);
    PortTreatmentIff(behind, guarded, {port}, port);
  }
}
