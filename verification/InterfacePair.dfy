/**
  The AmneziaWG adapter over its two interfaces, 1.x and 3.1: which of them a user's
  peer is on (core/amneziawg/adapter.go:387-495).
*/
module InterfacePair {
  import opened Common
  import opened AwgConfig
  import opened PeerOrder
  import opened Interface
  import Cidr
  import InterfaceRuns
  import Numbers

  /** A user as pushed: one key, and an address on each interface, "" for none. */
  datatype Account = Account(key: string, ip: string, ip3: string)

  /** ensureCIDR. */
  function WithLength(ip: string): string {
    if '/' in ip then ip else ip + "/32"
  }

  function PeerOf(key: string, ip: string): Option<Peer> {
    if key == "" || ip == "" then None else Some(Peer(key, WithLength(ip)))
  }

  predicate IsNamed(id: Option<Id>, named: set<Id>) { id.Some? && id.value in named }

  datatype Pair = Pair(v1: View, v3: View)

  datatype Worlds = Worlds(w1: World, off: World, w3: World)

  /** AddUser: on the 1.x interface if it has an address there, on the 3.1 one if and only if it has one there. */
  function AddBoth(p: Pair, u: User, a: Account, ps1: seq<Peer>, ps3: seq<Peer>, w: Worlds, k1: Kind, k3: Kind)
    : (Pair, bool)
  {
    var (v1, ok) := Add(p.v1, u, PeerOf(a.key, a.ip), ps1, w.w1, k1);
    if !ok then (Pair(v1, p.v3), false)
    else
      var (v3, ok3) := if PeerOf(a.key, a.ip3).None? then Remove(p.v3, u, ps3, w.w3, k3)
                       else Add(p.v3, u, PeerOf(a.key, a.ip3), ps3, w.w3, k3);
      (Pair(v1, v3), ok3)
  }

  function RemoveBoth(p: Pair, u: User, ps1: seq<Peer>, ps3: seq<Peer>, w: Worlds, k1: Kind, k3: Kind): (Pair, bool) {
    var (v3, ok3) := Remove(p.v3, u, ps3, w.w3, k3);
    if !ok3 then (Pair(p.v1, v3), false)
    else
      var (v1, ok) := Remove(p.v1, u, ps1, w.w1, k1);
      (Pair(v1, v3), ok)
  }

  /** AddUserOn's account: without an address on an interface the panel does not name. */
  function Scoped(p: Pair, a: Account, named: set<Id>): Account {
    Account(a.key, if IsNamed(p.v1.id, named) then a.ip else "", if IsNamed(p.v3.id, named) then a.ip3 else "")
  }

  function AddScoped(p: Pair, u: User, a: Account, named: set<Id>, ps0: seq<Peer>, ps1: seq<Peer>, ps3: seq<Peer>,
      w: Worlds, k1: Kind, k3: Kind)
    : (Pair, bool)
  {
    var (v1, ok) := if IsNamed(p.v1.id, named) then (p.v1, true) else Remove(p.v1, u, ps0, w.off, k1);
    if !ok then (Pair(v1, p.v3), false)
    else AddBoth(Pair(v1, p.v3), u, Scoped(p, a, named), ps1, ps3, w, k1, k3)
  }

  /** Some order to list the peers in; there is always one. */
  lemma OrderOf(peers: Peers) returns (ps: seq<Peer>)
    ensures Arranged(ps, peers)
  {
    OrderExists(peers);
    var us :| Ordered(us, peers);
    ps := PeersOf(us, peers);
  }

  lemma RemovedPeers(v: View, u: User, ps: seq<Peer>, w: World, k: Kind)
    ensures Remove(v, u, ps, w, k).0.peers == v.peers - {u}
    ensures Remove(v, u, ps, w, k).0.id == v.id
  {
    if u in v.peers {
      InterfaceRuns.SyncKeepsPeers(v.(peers := v.peers - {u}), ps, w, k);
    }
  }

  lemma RemovedPeersAnyway(v: View, u: User, w: World, k: Kind)
    ensures forall ps :: Remove(v, u, ps, w, k).0.peers == v.peers - {u}
  {
    forall ps ensures Remove(v, u, ps, w, k).0.peers == v.peers - {u} {
      RemovedPeers(v, u, ps, w, k);
    }
  }

  class Adapter {
    const v1: Iface
    const v3: Iface

    constructor (one: Iface, three: Iface)
      ensures v1 == one && v3 == three
    {
      v1, v3 := one, three;
    }

    ghost function State(): Pair
      reads v1, v3
    {
      Pair(v1.State(), v3.State())
    }

    method AddUser(u: User, a: Account, w: Worlds) returns (ok: bool, ghost ps1: seq<Peer>, ghost ps3: seq<Peer>)
      requires v1 != v3
      modifies v1, v3
      ensures Arranged(ps1, v1.peers) && Arranged(ps3, v3.peers)
      ensures (State(), ok) == AddBoth(old(State()), u, a, ps1, ps3, w, v1.kind, v3.kind)
    {
      ok, ps1 := v1.AddPeer(u, PeerOf(a.key, a.ip), w.w1);
      if !ok {
        var list := v3.Listed();
        ps3 := list;
        return;
      }
      if PeerOf(a.key, a.ip3).None? {
        ok, ps3 := v3.RemoveOne(u, w.w3);
      } else {
        ok, ps3 := v3.AddPeer(u, PeerOf(a.key, a.ip3), w.w3);
      }
    }

    method AddUserOn(u: User, a: Account, named: set<Id>, w: Worlds)
      returns (ok: bool, ghost ps0: seq<Peer>, ghost ps1: seq<Peer>, ghost ps3: seq<Peer>)
      requires v1 != v3
      modifies v1, v3
      ensures Arranged(ps0, old(v1.peers) - {u}) && Arranged(ps1, v1.peers) && Arranged(ps3, v3.peers)
      ensures (State(), ok) == AddScoped(old(State()), u, a, named, ps0, ps1, ps3, w, v1.kind, v3.kind)
    {
      var scoped := a;
      ps0 := OrderOf(v1.peers - {u});
      if !(v1.id.Some? && v1.id.value in named) {
        RemovedPeersAnyway(v1.State(), u, w.off, v1.kind);
        ok, ps0 := v1.RemoveOne(u, w.off);
        if !ok {
          ps1 := ps0;
          ps3 := OrderOf(v3.peers);
          return;
        }
        scoped := scoped.(ip := "");
      }
      if !(v3.id.Some? && v3.id.value in named) {
        scoped := scoped.(ip3 := "");
      }
      ok, ps1, ps3 := AddUser(u, scoped, w);
    }

    /** RemoveUser: off the 3.1 interface, then off the 1.x one. */
    method RemoveUser(u: User, w: Worlds) returns (ok: bool, ghost ps1: seq<Peer>, ghost ps3: seq<Peer>)
      requires v1 != v3
      modifies v1, v3
      ensures Arranged(ps1, v1.peers) && Arranged(ps3, v3.peers)
      ensures (State(), ok) == RemoveBoth(old(State()), u, ps1, ps3, w, v1.kind, v3.kind)
    {
      ps1 := OrderOf(v1.peers);
      ok, ps3 := v3.RemoveOne(u, w.w3);
      if !ok {
        return;
      }
      ok, ps1 := v1.RemoveOne(u, w.w1);
    }
  }

  // --------------------------------------------------------------- who is on which

  /** The peer an interface has for a user. */
  function At(v: View, u: User): Option<Peer> {
    if u in v.peers then Some(v.peers[u]) else None
  }

  ghost predicate OthersKept(v: View, now: View, u: User) {
    forall o :: o != u ==> At(now, o) == At(v, o)
  }

  lemma AddedPeers(v: View, u: User, p: Option<Peer>, ps: seq<Peer>, w: World, k: Kind)
    requires Add(v, u, p, ps, w, k).1
    ensures Add(v, u, p, ps, w, k).0.peers == if p.Some? then v.peers[u := p.value] else v.peers
    ensures p.Some? ==> PeerOk(p.value, k.lib)
  {
    InterfaceRuns.AddCases(v, u, p, ps, w, k);
    if InterfaceRuns.AddChanges(v, u, p, k) {
      InterfaceRuns.SyncKeepsPeers(v.(peers := v.peers[u := p.value]), ps, w, k);
    }
  }

  /** An add on both that succeeded, on each. */
  lemma BothPeers(p: Pair, u: User, a: Account, ps1: seq<Peer>, ps3: seq<Peer>, w: Worlds, k1: Kind, k3: Kind)
    requires AddBoth(p, u, a, ps1, ps3, w, k1, k3).1
    ensures var now := AddBoth(p, u, a, ps1, ps3, w, k1, k3).0;
      && At(now.v3, u) == PeerOf(a.key, a.ip3)
      && At(now.v1, u) == (if PeerOf(a.key, a.ip).Some? then PeerOf(a.key, a.ip) else At(p.v1, u))
      && OthersKept(p.v1, now.v1, u) && OthersKept(p.v3, now.v3, u)
  {
    AddedPeers(p.v1, u, PeerOf(a.key, a.ip), ps1, w.w1, k1);
    if PeerOf(a.key, a.ip3).None? {
      RemovedPeers(p.v3, u, ps3, w.w3, k3);
    } else {
      AddedPeers(p.v3, u, PeerOf(a.key, a.ip3), ps3, w.w3, k3);
    }
  }

  /**
    A scoped add that succeeded puts the user's peer on exactly the interfaces the
    panel names and gives it an address on, except that a 1.x interface it names
    keeps the peer it had when the account has no address there. Nobody else moves.
  */
  lemma ScopedIff(p: Pair, u: User, a: Account, named: set<Id>, ps0: seq<Peer>, ps1: seq<Peer>, ps3: seq<Peer>,
      w: Worlds, k1: Kind, k3: Kind)
    requires AddScoped(p, u, a, named, ps0, ps1, ps3, w, k1, k3).1
    ensures var now := AddScoped(p, u, a, named, ps0, ps1, ps3, w, k1, k3).0;
      var want := Scoped(p, a, named);
      && At(now.v3, u) == PeerOf(want.key, want.ip3)
      && (At(now.v1, u) == PeerOf(want.key, want.ip) <==>
          !(IsNamed(p.v1.id, named) && PeerOf(a.key, a.ip).None? && u in p.v1.peers))
      && OthersKept(p.v1, now.v1, u) && OthersKept(p.v3, now.v3, u)
  {
    var on1 := IsNamed(p.v1.id, named);
    RemovedPeers(p.v1, u, ps0, w.off, k1);
    var v1 := if on1 then p.v1 else Remove(p.v1, u, ps0, w.off, k1).0;
    BothPeers(Pair(v1, p.v3), u, Scoped(p, a, named), ps1, ps3, w, k1, k3);
  }

  lemma AddBothKeepsInv(p: Pair, u: User, a: Account, ps1: seq<Peer>, ps3: seq<Peer>, w: Worlds, k1: Kind, k3: Kind)
    requires InterfaceRuns.Inv(p.v1, k1) && InterfaceRuns.Inv(p.v3, k3) && w.w1.write && w.w3.write
    requires var now := AddBoth(p, u, a, ps1, ps3, w, k1, k3).0;
      Arranged(ps1, now.v1.peers) && Arranged(ps3, now.v3.peers)
    ensures var now := AddBoth(p, u, a, ps1, ps3, w, k1, k3).0;
      InterfaceRuns.Inv(now.v1, k1) && InterfaceRuns.Inv(now.v3, k3)
  {
    InterfaceRuns.AddKeeps(p.v1, u, PeerOf(a.key, a.ip), ps1, w.w1, k1);
    if Add(p.v1, u, PeerOf(a.key, a.ip), ps1, w.w1, k1).1 {
      if PeerOf(a.key, a.ip3).None? {
        InterfaceRuns.RemoveKeeps(p.v3, u, ps3, w.w3, k3);
      } else {
        InterfaceRuns.AddKeeps(p.v3, u, PeerOf(a.key, a.ip3), ps3, w.w3, k3);
      }
    }
  }

  /** A scoped add keeps both interfaces' files what a run makes them, whether it succeeds or stops half way. */
  lemma ScopedKeepsInv(p: Pair, u: User, a: Account, named: set<Id>, ps0: seq<Peer>, ps1: seq<Peer>, ps3: seq<Peer>,
      w: Worlds, k1: Kind, k3: Kind)
    requires InterfaceRuns.Inv(p.v1, k1) && InterfaceRuns.Inv(p.v3, k3) && w.w1.write && w.off.write && w.w3.write
    requires Arranged(ps0, p.v1.peers - {u})
    requires var now := AddScoped(p, u, a, named, ps0, ps1, ps3, w, k1, k3).0;
      Arranged(ps1, now.v1.peers) && Arranged(ps3, now.v3.peers)
    ensures var now := AddScoped(p, u, a, named, ps0, ps1, ps3, w, k1, k3).0;
      InterfaceRuns.Inv(now.v1, k1) && InterfaceRuns.Inv(now.v3, k3)
  {
    var (v1, ok) := if IsNamed(p.v1.id, named) then (p.v1, true) else Remove(p.v1, u, ps0, w.off, k1);
    if !IsNamed(p.v1.id, named) {
      RemovedPeers(p.v1, u, ps0, w.off, k1);
      InterfaceRuns.RemoveKeeps(p.v1, u, ps0, w.off, k1);
    }
    if ok {
      AddBothKeepsInv(Pair(v1, p.v3), u, Scoped(p, a, named), ps1, ps3, w, k1, k3);
    }
  }

  /** A removal that succeeded leaves the user on neither interface, and nobody else moves. */
  lemma RemovedFromBoth(p: Pair, u: User, ps1: seq<Peer>, ps3: seq<Peer>, w: Worlds, k1: Kind, k3: Kind)
    requires RemoveBoth(p, u, ps1, ps3, w, k1, k3).1
    ensures var now := RemoveBoth(p, u, ps1, ps3, w, k1, k3).0;
      At(now.v1, u).None? && At(now.v3, u).None? && OthersKept(p.v1, now.v1, u) && OthersKept(p.v3, now.v3, u)
  {
    RemovedPeers(p.v1, u, ps1, w.w1, k1);
    RemovedPeers(p.v3, u, ps3, w.w3, k3);
  }

  /** The case that keeps it: a user whose 1.x address is withdrawn stays on the 1.x interface. */
  lemma WithdrawnAddressStays(p: Pair, u: User, a: Account, ps1: seq<Peer>, ps3: seq<Peer>, w: Worlds, k1: Kind,
      k3: Kind)
    requires a.ip == "" && u in p.v1.peers
    ensures At(AddBoth(p, u, a, ps1, ps3, w, k1, k3).0.v1, u) == Some(p.v1.peers[u])
  {
  }

  // ------------------------------------------------------------- one user, one address

  /** A user with a key and a bare IPv4 address is a peer with that key and that one address. */
  lemma OneAddress(key: string, q: Cidr.Quad)
    requires key != "" && Cidr.PrefixOk(Cidr.Prefix(q, 32))
    ensures var p := PeerOf(key, Cidr.PrintQuad(q));
      p.Some? && p.value.key == key && Cidr.ReadPrefix(p.value.ip) == Some(Cidr.Prefix(q, 32))
  {
    Cidr.QuadChars(q);
    Cidr.ReadPrintPrefix(Cidr.Prefix(q, 32));
    assert Numbers.Print(32, Numbers.Ten) == "32";
    assert Cidr.PrintQuad(q) + "/32" == Cidr.PrintPrefix(Cidr.Prefix(q, 32));
  }

  /** An address with its length is taken as it is; without a key or an address there is no peer. */
  lemma PeerOfIs(key: string, ip: string)
    ensures PeerOf(key, ip).None? <==> key == "" || ip == ""
    ensures key != "" && ip != "" && '/' in ip ==> PeerOf(key, ip) == Some(Peer(key, ip))
  {
  }

  /** What each interface's own call made of its half decides the whole. */
  lemma BothSucceedIff(p: Pair, u: User, a: Account, ps1: seq<Peer>, ps3: seq<Peer>, w: Worlds, k1: Kind, k3: Kind)
    ensures AddBoth(p, u, a, ps1, ps3, w, k1, k3).1 <==>
              && Add(p.v1, u, PeerOf(a.key, a.ip), ps1, w.w1, k1).1
              && (if a.key != "" && a.ip3 != "" then Add(p.v3, u, PeerOf(a.key, a.ip3), ps3, w.w3, k3).1
                  else Remove(p.v3, u, ps3, w.w3, k3).1)
    ensures RemoveBoth(p, u, ps1, ps3, w, k1, k3).1 <==>
              Remove(p.v3, u, ps3, w.w3, k3).1 && Remove(p.v1, u, ps1, w.w1, k1).1
  {
  }

  /** Where a scoped add that succeeded leaves the user, by what the panel names and the account has. */
  lemma PlacedWhereNamed(p: Pair, u: User, a: Account, named: set<Id>, ps0: seq<Peer>, ps1: seq<Peer>, ps3: seq<Peer>,
      w: Worlds, k1: Kind, k3: Kind)
    requires AddScoped(p, u, a, named, ps0, ps1, ps3, w, k1, k3).1
    ensures var now := AddScoped(p, u, a, named, ps0, ps1, ps3, w, k1, k3).0;
      && At(now.v3, u) ==
          (if p.v3.id.Some? && p.v3.id.value in named && a.key != "" && a.ip3 != "" then PeerOf(a.key, a.ip3)
           else None)
      && (p.v1.id.Some? && p.v1.id.value in named && a.key != "" && a.ip != "" ==>
            At(now.v1, u) == PeerOf(a.key, a.ip))
      && (!(p.v1.id.Some? && p.v1.id.value in named) ==> At(now.v1, u) == None)
  {
    ScopedIff(p, u, a, named, ps0, ps1, ps3, w, k1, k3);
  }
}
