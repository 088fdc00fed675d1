/**
  Inbounds from push to store to restart, and the ports they open
  (server.go:43-53, 1427-1543, 1594-1608, 1646-1714; store.go:158-175).
*/
module Inbounds {
  import opened Common

  type Id(==, !new, 0)
  type Blob(==, !new, 0)
  type Engine(==, !new, 0)

  datatype Protocol = Hysteria | Amneziawg | Tuic | Shadowsocks | Mieru | Xray | OtherProtocol(id: nat)

  /** `kcp`: the config names the kcp network. */
  datatype Inbound = Inbound(id: Id, protocol: Protocol, engine: Engine, port: int, kcp: bool, config: Blob)

  /** A registered core; `absent` is the stand-in for one that is not installed. */
  datatype Core = Core(protocol: Protocol, engine: Engine, absent: bool)

  datatype Transport = Tcp | Udp
  datatype Spec = Spec(port: int, transport: Transport)

  /** The same core gives the same answer to the same inbound. */
  type Takes = (Core, Inbound) -> bool

  function TransportsOf(ib: Inbound): seq<Transport> {
    if ib.protocol.Xray? && ib.kcp then [Udp]
    else match ib.protocol
      case Hysteria => [Udp]
      case Amneziawg => [Udp]
      case Tuic => [Udp]
      case Shadowsocks => [Tcp, Udp]
      case Mieru => [Tcp, Udp]
      case _ => [Tcp]
  }

  /** adapterFor: the first core of a (protocol, engine), stand-ins aside. */
  function CoreFor(cores: seq<Core>, protocol: Protocol, engine: Engine): Option<Core> {
    if cores == [] then None
    else if !cores[0].absent && cores[0].protocol == protocol && cores[0].engine == engine then Some(cores[0])
    else CoreFor(cores[1..], protocol, engine)
  }

  function OwnerOf(cores: seq<Core>, ib: Inbound): Option<Core> {
    CoreFor(cores, ib.protocol, ib.engine)
  }

  lemma {:induction false} CoreMatches(cores: seq<Core>, protocol: Protocol, engine: Engine)
    ensures var o := CoreFor(cores, protocol, engine);
            o.Some? ==> !o.value.absent && o.value.protocol == protocol && o.value.engine == engine
  {
    if cores != [] {
      CoreMatches(cores[1..], protocol, engine);
    }
  }

  /** One core, one inbound it holds. */
  type Slot = (Core, Id)
  type Running = map<Slot, Inbound>

  function At(running: Running, s: Slot): Option<Inbound> {
    if s in running then Some(running[s]) else None
  }

  function Named(ibs: seq<Inbound>, id: Id): Option<Inbound> {
    if ibs == [] then None else if ibs[0].id == id then Some(ibs[0]) else Named(ibs[1..], id)
  }

  ghost predicate UniqueIds(ibs: seq<Inbound>) {
    forall i, j :: 0 <= i < j < |ibs| ==> ibs[i].id != ibs[j].id
  }

  lemma {:induction false} NamedMeans(ibs: seq<Inbound>, id: Id)
    ensures Named(ibs, id).Some? ==> Named(ibs, id).value in ibs && Named(ibs, id).value.id == id
    ensures Named(ibs, id).None? <==> forall i :: 0 <= i < |ibs| ==> ibs[i].id != id
    ensures UniqueIds(ibs) ==> forall i :: 0 <= i < |ibs| && ibs[i].id == id ==> Named(ibs, id) == Some(ibs[i])
  {
    if ibs != [] {
      NamedMeans(ibs[1..], id);
      assert ibs == [ibs[0]] + ibs[1..];
    }
  }

  /** What is held for a list of inbounds when everything in it is. */
  function Held(cores: seq<Core>, ibs: seq<Inbound>, s: Slot): Option<Inbound> {
    var ib := Named(ibs, s.1);
    if ib.Some? && OwnerOf(cores, ib.value) == Some(s.0) then ib else None
  }

  predicate Refused(cores: seq<Core>, takes: Takes, ib: Inbound) {
    OwnerOf(cores, ib).Some? && !takes(OwnerOf(cores, ib).value, ib)
  }

  /** What a push leaves in a slot: the new inbound, the one it was refused over, or nothing. */
  function NewAt(cores: seq<Core>, takes: Takes, running: Running, req: seq<Inbound>, s: Slot): Option<Inbound> {
    var ib := Held(cores, req, s);
    if ib.None? then None
    else if takes(s.0, ib.value) then ib
    else At(running, s)
  }

  /** What is stored for one pushed inbound: it, the one stored before under its id, or nothing. */
  function Stored(cores: seq<Core>, takes: Takes, prev: seq<Inbound>, ib: Inbound): seq<Inbound> {
    if !Refused(cores, takes, ib) then [ib]
    else if Named(prev, ib.id).Some? then [Named(prev, ib.id).value]
    else []
  }

  /** acceptedPush's inbounds. */
  function Accepted(cores: seq<Core>, takes: Takes, prev: seq<Inbound>, req: seq<Inbound>): seq<Inbound> {
    if req == [] then [] else Stored(cores, takes, prev, req[0]) + Accepted(cores, takes, prev, req[1..])
  }

  lemma AcceptedStep(cores: seq<Core>, takes: Takes, prev: seq<Inbound>, req: seq<Inbound>, k: nat, out: seq<Inbound>)
    requires k < |req|
    ensures out + Accepted(cores, takes, prev, req[k..]) ==
            (out + Stored(cores, takes, prev, req[k])) + Accepted(cores, takes, prev, req[k + 1..])
  {
    assert req[k..][0] == req[k] && req[k..][1..] == req[k + 1..];
  }

  lemma NamedAfter(ibs: seq<Inbound>, rest: seq<Inbound>, id: Id)
    requires |ibs| <= 1
    ensures Named(ibs + rest, id) == if ibs != [] && ibs[0].id == id then Some(ibs[0]) else Named(rest, id)
  {
    if ibs == [] {
      assert ibs + rest == rest;
    } else {
      assert (ibs + rest)[1..] == rest;
    }
  }

  lemma {:induction false} AcceptedIds(cores: seq<Core>, takes: Takes, prev: seq<Inbound>, req: seq<Inbound>, i: nat)
    requires i < |Accepted(cores, takes, prev, req)|
    ensures exists j :: 0 <= j < |req| && req[j].id == Accepted(cores, takes, prev, req)[i].id
  {
    var rest := Accepted(cores, takes, prev, req[1..]);
    var first := |Accepted(cores, takes, prev, req)| - |rest|;
    NamedMeans(prev, req[0].id);
    if i < first {
      assert req[0].id == Accepted(cores, takes, prev, req)[i].id;
    } else {
      AcceptedIds(cores, takes, prev, req[1..], i - first);
      var j :| 0 <= j < |req[1..]| && req[1..][j].id == rest[i - first].id;
      assert req[j + 1].id == rest[i - first].id;
    }
  }

  lemma {:induction false} AcceptedUnique(cores: seq<Core>, takes: Takes, prev: seq<Inbound>, req: seq<Inbound>)
    requires UniqueIds(req)
    ensures UniqueIds(Accepted(cores, takes, prev, req))
  {
    if req != [] {
      var out, rest := Accepted(cores, takes, prev, req), Accepted(cores, takes, prev, req[1..]);
      AcceptedUnique(cores, takes, prev, req[1..]);
      NamedMeans(prev, req[0].id);
      forall i | 0 <= i < |rest|
        ensures rest[i].id != req[0].id
      {
        AcceptedIds(cores, takes, prev, req[1..], i);
        var j :| 0 <= j < |req[1..]| && req[1..][j].id == rest[i].id;
        assert req[j + 1].id == rest[i].id;
      }
    }
  }

  /** What is stored under an id: the pushed inbound, the one stored before it, or nothing. */
  lemma {:induction false} AcceptedNamed(cores: seq<Core>, takes: Takes, prev: seq<Inbound>, req: seq<Inbound>, id: Id)
    requires UniqueIds(req)
    ensures Named(Accepted(cores, takes, prev, req), id) ==
            var ib := Named(req, id);
            if ib.None? then None else if !Refused(cores, takes, ib.value) then ib else Named(prev, id)
  {
    if req != [] {
      NamedMeans(prev, id);
      NamedMeans(prev, req[0].id);
      NamedMeans(req[1..], id);
      AcceptedNamed(cores, takes, prev, req[1..], id);
      NamedAfter(Stored(cores, takes, prev, req[0]), Accepted(cores, takes, prev, req[1..]), id);
      if req[0].id == id {
        forall i | 0 <= i < |req[1..]|
          ensures req[1..][i].id != id
        {
          assert req[1..][i] == req[i + 1];
        }
      }
    }
  }

  // -------------------------------------------------------------------- the ports

  predicate ValidPort(p: int) {
    0 < p <= 65535
  }

  /** The rules one inbound needs. */
  predicate Needs(ib: Inbound, sp: Spec) {
    ValidPort(sp.port) && sp.port == ib.port && sp.transport in TransportsOf(ib)
  }

  ghost predicate Wanted(ibs: seq<Inbound>, sp: Spec) {
    exists i :: 0 <= i < |ibs| && Needs(ibs[i], sp)
  }

  /** SSH, ACME and the agent's own port. */
  predicate Protected(agentPort: int, p: int) {
    p == 22 || p == 80 || p == agentPort
  }

  predicate IsTaken(cores: seq<Core>, takes: Takes, ib: Inbound) {
    OwnerOf(cores, ib).Some? && takes(OwnerOf(cores, ib).value, ib)
  }

  ghost predicate OpenedBy(cores: seq<Core>, takes: Takes, req: seq<Inbound>, sp: Spec) {
    exists i :: 0 <= i < |req| && IsTaken(cores, takes, req[i]) && Needs(req[i], sp)
  }

  // ------------------------------------------------------------------- the server

  datatype State = State(running: Running, stored: seq<Inbound>, open: set<Spec>)

  /** The core an inbound of its (protocol, engine) would go to. */
  predicate IsOwner(cores: seq<Core>, c: Core) {
    CoreFor(cores, c.protocol, c.engine) == Some(c)
  }

  /** keepByProtocol: the push names this id for this core. */
  predicate Keeps(req: seq<Inbound>, s: Slot) {
    exists i :: 0 <= i < |req| && req[i].id == s.1 && req[i].protocol == s.0.protocol && req[i].engine == s.0.engine
  }

  lemma KeptIsNamed(cores: seq<Core>, req: seq<Inbound>, s: Slot)
    requires UniqueIds(req)
    ensures Held(cores, req, s).Some? ==> Keeps(req, s)
    ensures IsOwner(cores, s.0) ==> (Held(cores, req, s).Some? <==> Keeps(req, s))
  {
    NamedMeans(req, s.1);
    if Held(cores, req, s).Some? {
      var ib := Named(req, s.1).value;
      CoreMatches(cores, ib.protocol, ib.engine);
      var i :| 0 <= i < |req| && req[i] == ib;
    }
  }

  lemma {:induction false} NamedAppend(ibs: seq<Inbound>, ib: Inbound, id: Id)
    requires UniqueIds(ibs + [ib])
    ensures Named(ibs + [ib], id) == if ib.id == id then Some(ib) else Named(ibs, id)
  {
    NamedMeans(ibs + [ib], id);
    if ib.id == id {
      assert (ibs + [ib])[|ibs|] == ib;
    } else if ibs == [] {
      assert ibs + [ib] == [ib];
    } else {
      assert (ibs + [ib])[1..] == ibs[1..] + [ib];
      forall i, j | 0 <= i < j < |ibs[1..] + [ib]|
        ensures (ibs[1..] + [ib])[i].id != (ibs[1..] + [ib])[j].id
      {
        assert (ibs + [ib])[i + 1].id != (ibs + [ib])[j + 1].id;
      }
      NamedAppend(ibs[1..], ib, id);
    }
  }

  lemma WantedAppend(ibs: seq<Inbound>, ib: Inbound, sp: Spec)
    ensures Wanted(ibs + [ib], sp) <==> Wanted(ibs, sp) || Needs(ib, sp)
  {
    var all := ibs + [ib];
    assert all[|ibs|] == ib && forall i :: 0 <= i < |ibs| ==> all[i] == ibs[i];
  }

  lemma OpenedAppend(cores: seq<Core>, takes: Takes, ibs: seq<Inbound>, ib: Inbound, sp: Spec)
    ensures OpenedBy(cores, takes, ibs + [ib], sp) <==>
            OpenedBy(cores, takes, ibs, sp) || (IsTaken(cores, takes, ib) && Needs(ib, sp))
  {
    var all := ibs + [ib];
    assert all[|ibs|] == ib && forall i :: 0 <= i < |ibs| ==> all[i] == ibs[i];
  }

  ghost predicate Dropped(agentPort: int, before: seq<Inbound>, after: seq<Inbound>, sp: Spec) {
    Wanted(before, sp) && !Wanted(after, sp) && !Protected(agentPort, sp.port)
  }

  /** One push, as Server.Push does it. */
  ghost predicate PushStep(cores: seq<Core>, takes: Takes, agentPort: int, a: State, b: State, req: seq<Inbound>) {
    && (forall s :: At(b.running, s) == NewAt(cores, takes, a.running, req, s))
    && b.stored == Accepted(cores, takes, a.stored, req)
    && (forall sp :: sp in b.open && sp != Spec(80, Tcp) ==> sp in a.open || OpenedBy(cores, takes, req, sp))
    && (forall sp :: sp in b.open ==> !Dropped(agentPort, a.stored, b.stored, sp))
    && (forall sp :: sp in a.open || OpenedBy(cores, takes, req, sp) ==>
          sp in b.open || Dropped(agentPort, a.stored, b.stored, sp))
  }

  class Server {
    const cores: seq<Core>
    const takes: Takes
    const usesAcme: Core -> bool
    const agentPort: int
    var running: Running
    var stored: seq<Inbound>
    var open: set<Spec>      // ufw's rules
    var cached: set<Spec>    // this process's memory of them
    ghost var closed: set<Spec>

    ghost predicate Valid()
      reads this
    {
      cached <= open && forall s :: s in running ==> IsOwner(cores, s.0)
    }

    constructor (cores: seq<Core>, takes: Takes, usesAcme: Core -> bool, agentPort: int)
      ensures Valid() && this.cores == cores && this.takes == takes && this.agentPort == agentPort
      ensures running == map[] && stored == [] && open == {}
    {
      this.cores, this.takes, this.usesAcme, this.agentPort := cores, takes, usesAcme, agentPort;
      running, stored, open, cached := map[], [], {}, {};
      closed := {};
    }

    method Allow(port: int, t: Transport)
      requires Valid()
      modifies `open, `cached
      ensures Valid()
      ensures forall sp :: sp in open <==> sp in old(open) || (sp == Spec(port, t) && ValidPort(port))
    {
      if !ValidPort(port) {
        return;
      }
      var spec := Spec(port, t);
      if spec in cached {
        return;
      }
      open, cached := open + {spec}, cached + {spec};
    }

    method Close(port: int, t: Transport)
      requires Valid()
      modifies `open, `cached, `closed
      ensures Valid()
      ensures forall sp :: sp in open <==> sp in old(open) && !(sp == Spec(port, t) && ValidPort(port))
      ensures forall sp :: sp in closed <==> sp in old(closed) || (sp == Spec(port, t) && ValidPort(port))
    {
      if !ValidPort(port) {
        return;
      }
      var spec := Spec(port, t);
      open, cached, closed := open - {spec}, cached - {spec}, closed + {spec};
    }

    method EnsureInboundFirewall(ib: Inbound)
      requires Valid()
      modifies `open, `cached
      ensures Valid()
      ensures forall sp :: sp in open <==> sp in old(open) || Needs(ib, sp)
    {
      if ib.port == 0 {
        return;
      }
      var ts := TransportsOf(ib);
      for k := 0 to |ts|
        invariant Valid()
        invariant forall sp :: sp in open <==>
                    sp in old(open) || (ValidPort(sp.port) && sp.port == ib.port && sp.transport in ts[..k])
      {
        assert ts[..k + 1] == ts[..k] + [ts[k]];
        Allow(ib.port, ts[k]);
      }
      assert ts[..|ts|] == ts;
    }

    method ApplyOne(ib: Inbound)
      requires Valid()
      modifies `running, `open, `cached
      ensures Valid()
      ensures running ==
              if IsTaken(cores, takes, ib) then old(running)[(OwnerOf(cores, ib).value, ib.id) := ib] else old(running)
      ensures forall sp :: sp in open && sp != Spec(80, Tcp) ==>
              sp in old(open) || (IsTaken(cores, takes, ib) && Needs(ib, sp))
      ensures forall sp :: sp in old(open) || (IsTaken(cores, takes, ib) && Needs(ib, sp)) ==> sp in open
    {
      var matched := OwnerOf(cores, ib);
      if matched.Some? && takes(matched.value, ib) {
        CoreMatches(cores, ib.protocol, ib.engine);
        running := running[(matched.value, ib.id) := ib];
        EnsureInboundFirewall(ib);
        if usesAcme(matched.value) {
          Allow(80, Tcp);
        }
      }
    }

    /** Each inbound to its core, and its port opened once the core has it. */
    method ApplyAll(req: seq<Inbound>) returns (refused: set<nat>)
      requires Valid() && UniqueIds(req)
      modifies `running, `open, `cached
      ensures Valid()
      ensures forall i :: i in refused <==> 0 <= i < |req| && Refused(cores, takes, req[i])
      ensures forall s :: At(running, s) ==
                var ib := Held(cores, req, s); if ib.Some? && takes(s.0, ib.value) then ib else At(old(running), s)
      ensures forall sp :: sp in open && sp != Spec(80, Tcp) ==> sp in old(open) || OpenedBy(cores, takes, req, sp)
      ensures forall sp :: sp in old(open) || OpenedBy(cores, takes, req, sp) ==> sp in open
    {
      refused := {};
      for k := 0 to |req|
        invariant Valid()
        invariant forall i :: i in refused <==> 0 <= i < k && Refused(cores, takes, req[i])
        invariant forall s :: At(running, s) ==
                    var ib := Held(cores, req[..k], s);
                        if ib.Some? && takes(s.0, ib.value) then ib else At(old(running), s)
        invariant forall sp :: sp in open && sp != Spec(80, Tcp) ==>
                sp in old(open) || OpenedBy(cores, takes, req[..k], sp)
        invariant forall sp :: sp in old(open) || OpenedBy(cores, takes, req[..k], sp) ==> sp in open
      {
        var ib := req[k];
        assert req[..k + 1] == req[..k] + [ib];
        forall s: Slot ensures Held(cores, req[..k + 1], s) ==
            if ib.id != s.1 then Held(cores, req[..k], s)
            else if OwnerOf(cores, ib) == Some(s.0) then Some(ib) else None {
          NamedAppend(req[..k], ib, s.1);
        }
        forall s: Slot ensures ib.id == s.1 ==> Held(cores, req[..k], s) == None {
          NamedMeans(req[..k], s.1);
        }
        forall sp ensures OpenedBy(cores, takes, req[..k + 1], sp) <==>
            OpenedBy(cores, takes, req[..k], sp) || (IsTaken(cores, takes, ib) && Needs(ib, sp)) {
          OpenedAppend(cores, takes, req[..k], ib, sp);
        }
        ApplyOne(ib);
        if Refused(cores, takes, ib) {
          refused := refused + {k};
        }
      }
      assert req[..|req|] == req;
    }

    /** RetainInbounds over every core: what the push does not name for it goes. */
    method RetainAll(req: seq<Inbound>)
      requires Valid()
      modifies `running
      ensures Valid()
      ensures forall s :: At(running, s) == if Keeps(req, s) then At(old(running), s) else None
    {
      running := map s | s in running && Keeps(req, s) :: running[s];
    }

    method StoreOne(ib: Inbound, refused: bool) returns (one: seq<Inbound>)
      requires refused <==> Refused(cores, takes, ib)
      ensures one == Stored(cores, takes, stored, ib)
    {
      if !refused {
        return [ib];
      }
      var was := Named(stored, ib.id);
      one := if was.Some? then [was.value] else [];
    }

    method AcceptedPush(req: seq<Inbound>, refused: set<nat>) returns (out: seq<Inbound>)
      requires forall i :: i in refused <==> 0 <= i < |req| && Refused(cores, takes, req[i])
      ensures out == Accepted(cores, takes, stored, req)
    {
      out := [];
      for k := 0 to |req|
        invariant out + Accepted(cores, takes, stored, req[k..]) == Accepted(cores, takes, stored, req)
      {
        var one := StoreOne(req[k], k in refused);
        AcceptedStep(cores, takes, stored, req, k, out);
        out := out + one;
      }
      assert req[|req|..] == [];
    }

    method IsWanted(ibs: seq<Inbound>, sp: Spec) returns (w: bool)
      ensures ValidPort(sp.port) ==> (w <==> Wanted(ibs, sp))
    {
      for k := 0 to |ibs|
        invariant ValidPort(sp.port) ==> forall i :: 0 <= i < k ==> !Needs(ibs[i], sp)
      {
        if ibs[k].port == sp.port && sp.transport in TransportsOf(ibs[k]) {
          return true;
        }
      }
      return false;
    }

    method CloseOne(ib: Inbound, after: seq<Inbound>)
      requires Valid()
      modifies `open, `cached, `closed
      ensures Valid()
      ensures forall sp :: sp in closed <==>
                sp in old(closed) || (Needs(ib, sp) && !Wanted(after, sp) && !Protected(agentPort, sp.port))
      ensures forall sp :: sp in open <==>
                sp in old(open) && !(Needs(ib, sp) && !Wanted(after, sp) && !Protected(agentPort, sp.port))
    {
      if ib.port <= 0 || Protected(agentPort, ib.port) {
        return;
      }
      var ts := TransportsOf(ib);
      for k := 0 to |ts|
        invariant Valid()
        invariant forall sp :: sp in closed <==>
                    sp in old(closed) ||
                        (ValidPort(sp.port) && sp.port == ib.port && sp.transport in ts[..k] && !Wanted(after, sp))
        invariant forall sp :: sp in open <==>
                    sp in old(open) &&
                    !(ValidPort(sp.port) && sp.port == ib.port && sp.transport in ts[..k] && !Wanted(after, sp))
      {
        assert ts[..k + 1] == ts[..k] + [ts[k]];
        var still := IsWanted(after, Spec(ib.port, ts[k]));
        if !still {
          Close(ib.port, ts[k]);
        }
      }
      assert ts[..|ts|] == ts;
    }

    /** closeDroppedPorts. */
    method CloseDropped(before: seq<Inbound>, after: seq<Inbound>)
      requires Valid()
      modifies `open, `cached, `closed
      ensures Valid()
      ensures forall sp :: sp in closed <==>
                sp in old(closed) || (Wanted(before, sp) && !Wanted(after, sp) && !Protected(agentPort, sp.port))
      ensures forall sp :: sp in open <==>
                sp in old(open) && !(Wanted(before, sp) && !Wanted(after, sp) && !Protected(agentPort, sp.port))
    {
      for k := 0 to |before|
        invariant Valid()
        invariant forall sp :: sp in closed <==>
                    sp in old(closed) ||
                        (Wanted(before[..k], sp) && !Wanted(after, sp) && !Protected(agentPort, sp.port))
        invariant forall sp :: sp in open <==>
                    sp in old(open) &&
                    !(Wanted(before[..k], sp) && !Wanted(after, sp) && !Protected(agentPort, sp.port))
      {
        forall sp ensures Wanted(before[..k + 1], sp) <==> Wanted(before[..k], sp) || Needs(before[k], sp) {
          assert before[..k + 1] == before[..k] + [before[k]];
          WantedAppend(before[..k], before[k], sp);
        }
        CloseOne(before[k], after);
      }
      assert before[..|before|] == before;
    }

    ghost function View(): State
      reads this
    {
      State(running, stored, open)
    }

    method Push(req: seq<Inbound>)
      requires Valid() && UniqueIds(req)
      modifies this
      ensures Valid()
      ensures PushStep(cores, takes, agentPort, old(View()), View(), req)
      ensures forall sp :: sp in closed ==> !Wanted(stored, sp)
    {
      closed := {};
      var refused := ApplyAll(req);
      RetainAll(req);
      forall s ensures At(running, s) == NewAt(cores, takes, old(running), req, s) {
        KeptIsNamed(cores, req, s);
      }
      var after := AcceptedPush(req, refused);
      var before := stored;
      stored := after;
      CloseDropped(before, after);
    }

    /** A new process: memory gone, ufw's rules not. Ports and cores come back from the store. */
    method Restart()
      requires Valid() && UniqueIds(stored)
      modifies this
      ensures Valid() && stored == old(stored)
      ensures forall s :: At(running, s) ==
                var ib := Held(cores, stored, s); if ib.Some? && takes(s.0, ib.value) then ib else None
      ensures forall sp :: sp in open && sp != Spec(80, Tcp) ==> sp in old(open) || Wanted(stored, sp)
      ensures forall sp :: sp in old(open) || Wanted(stored, sp) ==> sp in open
    {
      running, cached := map[], {};
      for k := 0 to |stored|
        invariant Valid() && running == map[] && stored == old(stored)
        invariant forall sp :: sp in open <==> sp in old(open) || Wanted(stored[..k], sp)
      {
        forall sp ensures Wanted(stored[..k + 1], sp) <==> Wanted(stored[..k], sp) || Needs(stored[k], sp) {
          assert stored[..k + 1] == stored[..k] + [stored[k]];
          WantedAppend(stored[..k], stored[k], sp);
        }
        EnsureInboundFirewall(stored[k]);
      }
      assert stored[..|stored|] == stored;
      if stored != [] {
        var _ := ApplyAll(stored);
        RetainAll(stored);
        forall s ensures At(running, s) ==
            var ib := Held(cores, stored, s); if ib.Some? && takes(s.0, ib.value) then ib else None {
          KeptIsNamed(cores, stored, s);
        }
        forall sp | OpenedBy(cores, takes, stored, sp)
          ensures Wanted(stored, sp)
        {
        }
      }
    }
  }

  // ------------------------------------------------------------------- whole runs

  ghost predicate RestartStep(cores: seq<Core>, takes: Takes, a: State, b: State) {
    && b.stored == a.stored
    && (forall s :: At(b.running, s) == var ib := Held(cores, a.stored, s);
        if ib.Some? && takes(s.0, ib.value) then ib else None)
    && (forall sp :: sp in b.open && sp != Spec(80, Tcp) ==> sp in a.open || Wanted(a.stored, sp))
    && (forall sp :: sp in a.open || Wanted(a.stored, sp) ==> sp in b.open)
  }

  /** What the cores run is what is stored, slot by slot; and a core takes what it runs. */
  ghost predicate Matches(cores: seq<Core>, takes: Takes, st: State) {
    && UniqueIds(st.stored)
    && (forall s :: At(st.running, s) == Held(cores, st.stored, s))
    && (forall s :: s in st.running ==> takes(s.0, st.running[s]))
  }

  /** A refused inbound's stored version belongs to the same core, or to none. */
  ghost predicate StaysOnItsCore(cores: seq<Core>, stored: seq<Inbound>, ib: Inbound) {
    var was := Named(stored, ib.id);
    was.Some? && OwnerOf(cores, was.value).Some? ==> OwnerOf(cores, was.value) == OwnerOf(cores, ib)
  }

  lemma SlotMatches(cores: seq<Core>, takes: Takes, a: State, b: State, req: seq<Inbound>, agentPort: int, s: Slot)
    requires Matches(cores, takes, a) && UniqueIds(req) && PushStep(cores, takes, agentPort, a, b, req)
    requires var ib := Named(req, s.1);
            ib.Some? && Refused(cores, takes, ib.value) ==> StaysOnItsCore(cores, a.stored, ib.value)
    ensures At(b.running, s) == Held(cores, b.stored, s)
    ensures s in b.running ==> takes(s.0, b.running[s])
  {
    AcceptedNamed(cores, takes, a.stored, req, s.1);
    NamedMeans(req, s.1);
    NamedMeans(a.stored, s.1);
    assert At(b.running, s) == NewAt(cores, takes, a.running, req, s);
    assert At(a.running, s) == Held(cores, a.stored, s);
  }

  lemma MovedIsLost(cores: seq<Core>, takes: Takes, a: State, b: State, req: seq<Inbound>, agentPort: int, i: nat)
    requires Matches(cores, takes, a) && UniqueIds(req) && PushStep(cores, takes, agentPort, a, b, req)
    requires i < |req| && Refused(cores, takes, req[i]) && !StaysOnItsCore(cores, a.stored, req[i])
    ensures !Matches(cores, takes, b)
  {
    var was := Named(a.stored, req[i].id).value;
    var s: Slot := (OwnerOf(cores, was).value, req[i].id);
    NamedMeans(req, s.1);
    AcceptedNamed(cores, takes, a.stored, req, s.1);
    assert At(b.running, s) == NewAt(cores, takes, a.running, req, s) == None;
    assert Held(cores, b.stored, s) == Some(was);
  }

  /**
    After a push, whichever inbounds are refused, the cores run exactly the
    stored inbounds (new where taken, previous or none where refused, gone where
    deleted) if and only if no refused inbound has moved to another core: the
    old core drops it, and the store keeps it.
  */
  lemma PushMatchesIff(cores: seq<Core>, takes: Takes, a: State, b: State, req: seq<Inbound>, agentPort: int)
    requires Matches(cores, takes, a) && UniqueIds(req) && PushStep(cores, takes, agentPort, a, b, req)
    ensures Matches(cores, takes, b) <==>
            forall i :: 0 <= i < |req| && Refused(cores, takes, req[i]) ==> StaysOnItsCore(cores, a.stored, req[i])
  {
    AcceptedUnique(cores, takes, a.stored, req);
    if forall i :: 0 <= i < |req| && Refused(cores, takes, req[i]) ==> StaysOnItsCore(cores, a.stored, req[i]) {
      forall s: Slot
        ensures At(b.running, s) == Held(cores, b.stored, s) && (s in b.running ==> takes(s.0, b.running[s]))
      {
        NamedMeans(req, s.1);
        SlotMatches(cores, takes, a, b, req, agentPort, s);
      }
    } else {
      var i :| 0 <= i < |req| && Refused(cores, takes, req[i]) && !StaysOnItsCore(cores, a.stored, req[i]);
      MovedIsLost(cores, takes, a, b, req, agentPort, i);
    }
  }

  /** A restart brings the cores back to exactly what they ran. */
  lemma RestartMatches(cores: seq<Core>, takes: Takes, a: State, b: State)
    requires Matches(cores, takes, a) && RestartStep(cores, takes, a, b)
    ensures forall s :: At(b.running, s) == At(a.running, s)
    ensures Matches(cores, takes, b)
  {
    forall s: Slot
      ensures At(b.running, s) == At(a.running, s)
    {
      assert At(a.running, s) == Held(cores, a.stored, s);
    }
    forall s: Slot | s in b.running
      ensures takes(s.0, b.running[s])
    {
      assert At(b.running, s) == At(a.running, s);
    }
  }

  /** The rules open are those the stored inbounds need, and leftovers on protected ports at most. */
  ghost predicate PortsFollow(agentPort: int, st: State) {
    && (forall sp :: Wanted(st.stored, sp) ==> sp in st.open)
    && (forall sp :: sp in st.open ==>
          Wanted(st.stored, sp) || sp.port == 22 || sp.port == 80 || sp.port == agentPort)
  }

  ghost predicate AllMatched(cores: seq<Core>, req: seq<Inbound>) {
    forall i :: 0 <= i < |req| ==> OwnerOf(cores, req[i]).Some?
  }

  /** Where a stored inbound comes from. */
  lemma {:induction false} AcceptedFrom(cores: seq<Core>, takes: Takes, prev: seq<Inbound>, req: seq<Inbound>, i: nat)
    requires i < |Accepted(cores, takes, prev, req)| && AllMatched(cores, req)
    ensures var ib := Accepted(cores, takes, prev, req)[i];
            (exists j :: 0 <= j < |req| && req[j] == ib && IsTaken(cores, takes, ib)) || ib in prev
  {
    var rest := Accepted(cores, takes, prev, req[1..]);
    var first := |Accepted(cores, takes, prev, req)| - |rest|;
    NamedMeans(prev, req[0].id);
    if i < first {
      assert OwnerOf(cores, req[0]).Some?;
    } else {
      AcceptedFrom(cores, takes, prev, req[1..], i - first);
      if rest[i - first] !in prev {
        var j :| 0 <= j < |req[1..]| && req[1..][j] == rest[i - first];
        assert req[j + 1] == rest[i - first];
      }
    }
  }

  /** Every inbound a core took is stored. */
  lemma {:induction false} TakenIsStored(cores: seq<Core>, takes: Takes, prev: seq<Inbound>, req: seq<Inbound>, j: nat)
    requires j < |req| && IsTaken(cores, takes, req[j])
    ensures req[j] in Accepted(cores, takes, prev, req)
  {
    if j > 0 {
      TakenIsStored(cores, takes, prev, req[1..], j - 1);
    }
  }

  /**
    A push leaves open exactly what the stored inbounds need, protected
    leftovers aside: what is taken opens, what nobody stored needs any more
    closes, and a refused inbound keeps its old port and opens no new one.
  */
  lemma PushPortsFollow(cores: seq<Core>, takes: Takes, a: State, b: State, req: seq<Inbound>, agentPort: int)
    requires PortsFollow(agentPort, a) && AllMatched(cores, req) && PushStep(cores, takes, agentPort, a, b, req)
    ensures PortsFollow(agentPort, b)
  {
    forall sp | Wanted(b.stored, sp)
      ensures sp in b.open
    {
      var i :| 0 <= i < |b.stored| && Needs(b.stored[i], sp);
      AcceptedFrom(cores, takes, a.stored, req, i);
      if b.stored[i] in a.stored {
        assert Wanted(a.stored, sp);
      } else {
        assert OpenedBy(cores, takes, req, sp);
      }
    }
    forall sp | sp in b.open && !Protected(agentPort, sp.port)
      ensures Wanted(b.stored, sp)
    {
      if OpenedBy(cores, takes, req, sp) {
        var j :| 0 <= j < |req| && IsTaken(cores, takes, req[j]) && Needs(req[j], sp);
        TakenIsStored(cores, takes, a.stored, req, j);
      } else {
        assert sp in a.open;
        assert !Dropped(agentPort, a.stored, b.stored, sp);
      }
    }
  }

  lemma RestartPortsFollow(cores: seq<Core>, takes: Takes, a: State, b: State, agentPort: int)
    requires PortsFollow(agentPort, a) && RestartStep(cores, takes, a, b)
    ensures PortsFollow(agentPort, b)
  {
  }

  datatype Event = Push(req: seq<Inbound>) | Restart

  ghost predicate Step(cores: seq<Core>, takes: Takes, agentPort: int, a: State, b: State, e: Event) {
    match e
    case Push(req) => PushStep(cores, takes, agentPort, a, b, req)
    case Restart => RestartStep(cores, takes, a, b)
  }

  /** `states[k]` is the node before event `k`. */
  ghost predicate IsRun(cores: seq<Core>, takes: Takes, agentPort: int, states: seq<State>, events: seq<Event>) {
    |states| == |events| + 1 &&
    forall k :: 0 <= k < |events| ==> Step(cores, takes, agentPort, states[k], states[k + 1], events[k])
  }

  /** Ids unique within a push, every inbound matched, and an id keeping its core. */
  ghost predicate Orderly(cores: seq<Core>, before: State, e: Event) {
    e.Push? ==> UniqueIds(e.req) && AllMatched(cores, e.req) &&
                forall i :: 0 <= i < |e.req| ==> StaysOnItsCore(cores, before.stored, e.req[i])
  }

  /**
    Over any run of pushes, with arbitrary refusals, and restarts: the cores
    run exactly the stored inbounds, and the ports open are theirs.
  */
  lemma {:induction false} StoredIsRunning(cores: seq<Core>, takes: Takes, agentPort: int, states: seq<State>,
      events: seq<Event>, k: nat)
    requires IsRun(cores, takes, agentPort, states, events) && k < |states|
    requires states[0] == State(map[], [], {})
    requires forall j :: 0 <= j < |events| ==> Orderly(cores, states[j], events[j])
    ensures Matches(cores, takes, states[k]) && PortsFollow(agentPort, states[k])
    decreases k
  {
    if k > 0 {
      StoredIsRunning(cores, takes, agentPort, states, events, k - 1);
      var a, b, e := states[k - 1], states[k], events[k - 1];
      assert Step(cores, takes, agentPort, a, b, e) && Orderly(cores, a, e);
      if e.Push? {
        PushMatchesIff(cores, takes, a, b, e.req, agentPort);
        PushPortsFollow(cores, takes, a, b, e.req, agentPort);
      } else {
        RestartMatches(cores, takes, a, b);
        RestartPortsFollow(cores, takes, a, b, agentPort);
      }
    }
  }

  lemma OneNamed(ib: Inbound)
    ensures forall id :: Named([ib], id) == if id == ib.id then Some(ib) else None
  {
    assert [ib][1..] == [];
  }

  lemma OneAccepted(cores: seq<Core>, takes: Takes, prev: seq<Inbound>, ib: Inbound)
    ensures Accepted(cores, takes, prev, [ib]) == Stored(cores, takes, prev, ib)
  {
    assert [ib][1..] == [];
    assert Accepted(cores, takes, prev, []) == [];
  }

  /** A run in which one is lost: an inbound moves to another core, which refuses it. */
  lemma MovedAndRefused(id: Id, e: Engine, f: Engine, blob: Blob, agentPort: int)
    ensures var one, two := Core(Hysteria, e, false), Core(Xray, f, false);
      var takes: Takes := (c: Core, ib) => c.protocol == Hysteria;
      var was, moved := Inbound(id, Hysteria, e, 443, false, blob), Inbound(id, Xray, f, 443, false, blob);
      var states := [State(map[], [], {}), State(map[(one, id) := was], [was], {Spec(443, Udp)}),
          State(map[], [was], {Spec(443, Udp)})];
      && IsRun([one, two], takes, agentPort, states, [Push([was]), Push([moved])])
      && Matches([one, two], takes, states[1]) && !Matches([one, two], takes, states[2])
  {
    var one, two := Core(Hysteria, e, false), Core(Xray, f, false);
    var cores := [one, two];
    var takes: Takes := (c: Core, ib) => c.protocol == Hysteria;
    var was, moved := Inbound(id, Hysteria, e, 443, false, blob), Inbound(id, Xray, f, 443, false, blob);
    var a, b, c := State(map[], [], {}), State(map[(one, id) := was], [was], {Spec(443, Udp)}),
        State(map[], [was], {Spec(443, Udp)});
    assert cores[1..] == [two] && cores[1..][1..] == [];
    assert CoreFor(cores, Xray, f) == CoreFor([two], Xray, f) == Some(two);
    assert OwnerOf(cores, was) == Some(one) && OwnerOf(cores, moved) == Some(two);
    OneNamed(was);
    OneNamed(moved);
    OneAccepted(cores, takes, [], was);
    OneAccepted(cores, takes, [was], moved);
    assert Needs(was, Spec(443, Udp)) && [was][0] == was;
    assert Wanted([was], Spec(443, Udp));
    assert OpenedBy(cores, takes, [was], Spec(443, Udp));
    assert forall sp :: OpenedBy(cores, takes, [was], sp) ==> sp == Spec(443, Udp);
    assert PushStep(cores, takes, agentPort, a, b, [was]);
    assert PushStep(cores, takes, agentPort, b, c, [moved]);
    var states, events := [a, b, c], [Push([was]), Push([moved])];
    assert Step(cores, takes, agentPort, states[0], states[1], events[0]);
    assert Step(cores, takes, agentPort, states[1], states[2], events[1]);
    assert Matches(cores, takes, b);
    assert Held(cores, c.stored, (one, id)) == Some(was) && At(c.running, (one, id)) == None;
  }

  // ------------------------------------------------------------------ what is opened

  /** UDP only, TCP and UDP, or TCP: what a firewall is told for one inbound. */
  lemma OpenedFor(ib: Inbound, port: int)
    ensures Needs(ib, Spec(port, Udp)) <==>
              && 1 <= port <= 65535 && port == ib.port
              && (ib.protocol in {Hysteria, Amneziawg, Tuic, Shadowsocks, Mieru} || (ib.protocol == Xray && ib.kcp))
    ensures Needs(ib, Spec(port, Tcp)) <==>
              && 1 <= port <= 65535 && port == ib.port
              && ib.protocol !in {Hysteria, Amneziawg, Tuic} && !(ib.protocol == Xray && ib.kcp)
  {
  }

  /** A push closes nothing on SSH's port, ACME's or the agent's own, and nothing that was not an inbound's. */
  lemma NeverClosed(cores: seq<Core>, takes: Takes, a: State, b: State, req: seq<Inbound>, agentPort: int, sp: Spec)
    requires PushStep(cores, takes, agentPort, a, b, req) && sp in a.open
    requires sp.port in {22, 80, agentPort} || !Wanted(a.stored, sp)
    ensures sp in b.open
  {
  }
}
