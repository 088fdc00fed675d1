/**
  One AmneziaWG interface of the adapter (core/amneziawg/adapter.go): what memory
  holds, the config file, and the state kept beside it for the next agent (state.go).
*/
module Interface {
  import opened Common
  import HandOff
  import opened AwgConfig
  import opened PeerOrder

  type Id(==, !new, 0)        // the binding an interface was applied from

  /** What does not change while the agent is installed. */
  datatype Kind = Kind(third: bool, managed: bool, install: Inbound, lib: Library)

  /**
    How the machine answers in one call: the file write, the reload or bring-up, whether
    the link exists, the swap in place.
  */
  datatype World = World(write: bool, reload: bool, linkUp: bool, swap: bool)

  datatype Saved = Saved(inbound: Inbound, id: Option<Id>, peers: Peers)

  /** `loaded`: the interface was last brought up or reloaded from the file as it is now. */
  datatype View = View(inbound: Inbound, id: Option<Id>, peers: Peers, file: Option<string>,
                       saved: Option<Saved>, loaded: bool, started: bool)

  /** The peers as a render may list them. */
  ghost predicate Arranged(ps: seq<Peer>, peers: Peers) {
    exists us :: Ordered(us, peers) && ps == PeersOf(us, peers)
  }

  // ---------------------------------------------------------------- writing the file

  function Written(v: View, text: Option<string>): View {
    v.(file := text, saved := Some(Saved(v.inbound, v.id, v.peers)), loaded := false)
  }

  /** syncFromSnapshot: write, then reload. */
  function Sync(v: View, ps: seq<Peer>, w: World, k: Kind): (View, bool) {
    var text := Rendered(v.inbound, ps, k.lib);
    if text.None? || !w.write then (v, false)
    else if !k.managed then (Written(v, text), true)
    else if !w.reload then (Written(v, text), false)
    else (Written(v, text).(loaded := true, started := true), true)
  }

  /** The file written and the interface, which is down, brought up on it. */
  function PutBack(v: View, text: Option<string>, w: World, k: Kind): (View, bool) {
    if !w.write then (v, false)
    else if !k.managed then (Written(v, text).(started := true), true)
    else if !w.reload then (Written(v, text), false)
    else (Written(v, text).(loaded := true, started := true), true)
  }

  /** restartInterfaceFrom: down, write, up; nothing at all if it does not render. */
  function Bounce(v: View, ps: seq<Peer>, w: World, k: Kind): (View, bool) {
    var text := Rendered(v.inbound, ps, k.lib);
    if text.None? then (v, false)
    else PutBack(if k.managed then v.(loaded := false) else v, text, w, k)
  }

  // ------------------------------------------------------------------------ the calls

  predicate Configured(v: View) { v.inbound.key != "" }

  /** A 3.1 interface without its inbound has no file yet: its peers are only remembered. */
  predicate OnlyRemembers(v: View, k: Kind) { k.third && !Configured(v) }

  /** addPeer; a user with no key or address here is not this interface's. */
  function Add(v: View, u: User, peer: Option<Peer>, ps: seq<Peer>, w: World, k: Kind): (View, bool) {
    if peer.None? then (v, true)
    else if !PeerOk(peer.value, k.lib) then (v, false)
    else if u in v.peers && v.peers[u] == peer.value then (v, true)
    else
      var more := v.(peers := v.peers[u := peer.value]);
      if OnlyRemembers(v, k) then (more, true) else Sync(more, ps, w, k)
  }

  /** removeOne. */
  function Remove(v: View, u: User, ps: seq<Peer>, w: World, k: Kind): (View, bool) {
    if u !in v.peers then (v, true)
    else
      var fewer := v.(peers := v.peers - {u});
      if OnlyRemembers(v, k) then (fewer, true) else Sync(fewer, ps, w, k)
  }

  datatype Diff = NoDiff | DiffRestart | DiffSubnet

  function Classify(was: Inbound, now: Inbound): Diff {
    if was.address != now.address then DiffSubnet
    else if was.key != now.key || was.listenPort != now.listenPort || was.iface != now.iface
         || was.obf != now.obf || was.geometry != now.geometry then DiffRestart
    else NoDiff
  }

  /** The pushed inbound with what is the install's and the push's other half kept. */
  function Carried(v: View, x: Inbound): Inbound {
    x.(iface := v.inbound.iface, postUp := v.inbound.postUp, postDown := v.inbound.postDown, chain := v.inbound.chain,
       listenPort := if x.listenPort == 0 then v.inbound.listenPort else x.listenPort)
  }

  /** Peers hold addresses of the subnet in force. */
  predicate SubnetHeld(v: View) { v.peers != map[] && v.inbound.address != "" }

  /** ApplyInbound, of a config that could be read. */
  function Apply(v: View, pushed: Option<Inbound>, id: Option<Id>, ps: seq<Peer>, w: World, k: Kind): (View, bool) {
    if pushed.None? then (v, false)
    else
      var now := Carried(v, pushed.value);
      var named := if id.Some? then v.(id := id) else v;
      var diff := Classify(v.inbound, now);
      if diff == NoDiff then (named, true)
      else if diff == DiffSubnet && SubnetHeld(v) then (named, false)
      else Bounce(named.(inbound := now), ps, w, k)
  }

  /** On the running interface; a swap that fails is undone and forgotten. */
  function SwapInPlace(v: View, next: Option<HandOff.TProxy>, text: Option<string>, w: World): (View, bool) {
    var now := v.(inbound := v.inbound.(chain := next));
    if !w.swap then (v, false)
    else if !w.write then (now.(loaded := false), false)
    else (Written(now, text).(loaded := v.loaded), true)
  }

  /** A hand-off that is new to a configured interface. */
  function HandOver(v: View, next: Option<HandOff.TProxy>, ps: seq<Peer>, w: World, k: Kind): (View, bool) {
    var now := v.(inbound := v.inbound.(chain := next));
    var text := Rendered(now.inbound, ps, k.lib);
    if text.None? then (v, false)
    else if !(k.managed && w.linkUp) then Bounce(now, ps, w, k)
    else SwapInPlace(v, next, text, w)
  }

  /** applyCascadeOne. */
  function Cascade(v: View, next: Option<HandOff.TProxy>, ps: seq<Peer>, w: World, k: Kind): (View, bool) {
    if v.inbound.chain == next then (v, true)
    else if !Configured(v) then (v.(inbound := v.inbound.(chain := next)), true)
    else HandOver(v, next, ps, w, k)
  }

  /** idleOne. */
  function Idle(v: View): View {
    if !Configured(v) && !v.started then v
    else
      var now := v.(inbound := v.inbound.(key := ""), started := false, loaded := false);
      now.(saved := Some(Saved(now.inbound, now.id, now.peers)))
  }

  /** RetainInbounds, for one interface. */
  function Retain(v: View, keep: set<Id>): View {
    if v.id.None? || v.id.value in keep then v else Idle(v.(id := None))
  }

  /** loadState: what the next agent starts from. */
  function Restored(v: View, k: Kind): View {
    var bare := v.(inbound := k.install, id := None, peers := map[], started := false);
    if v.saved.None? || v.saved.value.inbound.iface != k.install.iface then bare
    else
      var s := v.saved.value;
      bare.(inbound := s.inbound.(postUp := k.install.postUp, postDown := k.install.postDown,
                                   listenPort := if s.inbound.listenPort == 0 then k.install.listenPort
                                       else s.inbound.listenPort),
             id := s.id,
             peers := map u | u in s.peers && PeerOk(s.peers[u], k.lib) :: s.peers[u])
  }

  function BringUp(v: View, text: Option<string>, w: World, k: Kind): (View, bool) {
    if k.managed && !w.reload then (Written(v, text), false)
    else (Written(v, text).(started := true, loaded := k.managed && (!w.linkUp || (v.loaded && text == v.file))), true)
  }

  /** startOne. An interface that is still up is left up, running what it ran. */
  function Start(v: View, ps: seq<Peer>, w: World, k: Kind): (View, bool) {
    var text := Rendered(v.inbound, ps, k.lib);
    if !Configured(v) then (v, true)
    else if text.None? || !w.write then (v, false)
    else BringUp(v, text, w, k)
  }

  /** A new agent on the same machine. */
  function Restart(v: View, ps: seq<Peer>, w: World, k: Kind): (View, bool) {
    Start(Restored(v, k), ps, w, k)
  }

  // -------------------------------------------------------------------- the interface

  class Iface {
    const kind: Kind
    var inbound: Inbound
    var id: Option<Id>
    var peers: Peers
    var file: Option<string>
    var saved: Option<Saved>
    var loaded: bool
    var started: bool
    ghost var downed: Option<string>    // the file whose PostDown lines the last down ran

    ghost function State(): View
      reads this
    {
      View(inbound, id, peers, file, saved, loaded, started)
    }

    constructor (k: Kind)
      ensures kind == k && State() == View(k.install, None, map[], None, None, false, false)
    {
      kind, inbound, id, peers, file, saved, loaded, started := k, k.install, None, map[], None, None, false, false;
    }

    /** newOne and loadState, on a machine that holds this file and this saved state. */
    constructor Load(k: Kind, onDisk: Option<string>, left: Option<Saved>, up: bool)
      ensures kind == k
      ensures State() == Restored(View(k.install, None, map[], onDisk, left, up, false), k)
    {
      kind, file, saved, loaded, started := k, onDisk, left, up, false;
      inbound, id, peers := k.install, None, map[];
      new;
      if saved.None? || saved.value.inbound.iface != k.install.iface {
        return;
      }
      var s := saved.value;
      inbound := s.inbound.(postUp := k.install.postUp, postDown := k.install.postDown);
      if inbound.listenPort == 0 {
        inbound := inbound.(listenPort := k.install.listenPort);
      }
      id := s.id;
      peers := map u | u in s.peers && PeerOk(s.peers[u], k.lib) :: s.peers[u];
    }

    method WriteFile(text: Option<string>)
      modifies this
      ensures State() == Written(old(State()), text) && downed == old(downed)
    {
      file := text;
      saved := Some(Saved(inbound, id, peers));
      loaded := false;
    }

    method Raise(text: Option<string>, w: World) returns (ok: bool)
      modifies this
      ensures peers == old(peers) && (State(), ok) == BringUp(old(State()), text, w, kind)
    {
      var same := loaded && text == file;
      WriteFile(text);
      if kind.managed && !w.reload {
        return false;
      }
      started, loaded := true, kind.managed && (!w.linkUp || same);
      return true;
    }

    /** sortedPeers, as values. */
    method Listed() returns (ps: seq<Peer>)
      ensures Arranged(ps, peers)
    {
      var us := SortedPeers(peers);
      ps := PeersOf(us, peers);
    }

    method StartOne(w: World) returns (ok: bool, ghost ps: seq<Peer>)
      modifies this
      ensures Arranged(ps, peers) && (State(), ok) == Start(old(State()), ps, w, kind)
    {
      var list := Listed();
      ps := list;
      if inbound.key == "" {
        ok := true;
        return;
      }
      var text := Render(inbound, list, kind.lib);
      if text.None? || !w.write {
        ok := false;
        return;
      }
      ok := Raise(text, w);
    }

    method SyncFile(w: World) returns (ok: bool, ghost ps: seq<Peer>)
      modifies this
      ensures Arranged(ps, peers) && (State(), ok) == Sync(old(State()), ps, w, kind)
    {
      var list := Listed();
      ps := list;
      var text := Render(inbound, list, kind.lib);
      if text.None? || !w.write {
        ok := false;
        return;
      }
      WriteFile(text);
      if kind.managed {
        if !w.reload {
          ok := false;
          return;
        }
        loaded, started := true, true;
      }
      ok := true;
    }

    method WriteAndUp(text: Option<string>, w: World) returns (ok: bool)
      modifies this
      ensures peers == old(peers) && downed == old(downed) && (State(), ok) == PutBack(old(State()), text, w, kind)
    {
      if !w.write {
        return false;
      }
      WriteFile(text);
      if !kind.managed {
        started := true;
        return true;
      }
      if !w.reload {
        return false;
      }
      loaded, started := true, true;
      return true;
    }

    method BounceFrom(ps: seq<Peer>, w: World) returns (ok: bool)
      modifies this
      ensures peers == old(peers) && (State(), ok) == Bounce(old(State()), ps, w, kind)
      ensures downed ==
              if kind.managed && Rendered(old(inbound), ps, kind.lib).Some? then old(file) else old(downed)
    {
      var text := Render(inbound, ps, kind.lib);
      if text.None? {
        return false;
      }
      if kind.managed {
        loaded, downed := false, file;
      }
      ok := WriteAndUp(text, w);
    }

    method AddPeer(u: User, peer: Option<Peer>, w: World) returns (ok: bool, ghost ps: seq<Peer>)
      modifies this
      ensures Arranged(ps, peers) && (State(), ok) == Add(old(State()), u, peer, ps, w, kind)
    {
      var list := Listed();
      ps := list;
      if peer.None? {
        ok := true;
        return;
      }
      if !PeerOk(peer.value, kind.lib) {
        ok := false;
        return;
      }
      if u in peers && peers[u] == peer.value {
        ok := true;
        return;
      }
      peers := peers[u := peer.value];
      if kind.third && inbound.key == "" {
        var more := Listed();
        ps := more;
        ok := true;
        return;
      }
      ok, ps := SyncFile(w);
    }

    method RemoveOne(u: User, w: World) returns (ok: bool, ghost ps: seq<Peer>)
      modifies this
      ensures Arranged(ps, peers) && (State(), ok) == Remove(old(State()), u, ps, w, kind)
    {
      if u !in peers {
        var list := Listed();
        ps := list;
        ok := true;
        return;
      }
      peers := peers - {u};
      if kind.third && inbound.key == "" {
        var fewer := Listed();
        ps := fewer;
        ok := true;
        return;
      }
      ok, ps := SyncFile(w);
    }

    method Commit(now: Inbound, ps: seq<Peer>, w: World) returns (ok: bool)
      modifies this
      ensures peers == old(peers) && (State(), ok) == Bounce(old(State()).(inbound := now), ps, w, kind)
    {
      inbound := now;
      ok := BounceFrom(ps, w);
    }

    /** A config that could be read. */
    method ApplyRead(x: Inbound, pushedId: Option<Id>, ps: seq<Peer>, w: World) returns (ok: bool)
      modifies this
      ensures peers == old(peers) && (State(), ok) == Apply(old(State()), Some(x), pushedId, ps, w, kind)
    {
      var now := x.(iface := inbound.iface, postUp := inbound.postUp, postDown := inbound.postDown,
          chain := inbound.chain,
                    listenPort := if x.listenPort == 0 then inbound.listenPort else x.listenPort);
      assert now == Carried(State(), x);
      if pushedId.Some? {
        id := pushedId;
      }
      var diff := Classify(inbound, now);
      if diff == NoDiff {
        ok := true;
      } else if diff == DiffSubnet && peers != map[] && inbound.address != "" {
        ok := false;
      } else {
        ok := Commit(now, ps, w);
      }
    }

    method ApplyInbound(pushed: Option<Inbound>, pushedId: Option<Id>, w: World) returns (ok: bool, ghost ps: seq<Peer>)
      modifies this
      ensures Arranged(ps, peers) && (State(), ok) == Apply(old(State()), pushed, pushedId, ps, w, kind)
    {
      var list := Listed();
      ps := list;
      if pushed.None? {
        ok := false;
      } else {
        ok := ApplyRead(pushed.value, pushedId, list, w);
      }
    }

    method Swap(next: Option<HandOff.TProxy>, text: Option<string>, w: World) returns (ok: bool)
      modifies this
      ensures peers == old(peers) && (State(), ok) == SwapInPlace(old(State()), next, text, w)
    {
      var prev, was := inbound.chain, loaded;
      inbound := inbound.(chain := next);
      if !w.swap {
        inbound := inbound.(chain := prev);
        return false;
      }
      if !w.write {
        loaded := false;
        return false;
      }
      WriteFile(text);
      loaded := was;
      return true;
    }

    /** Rendered before it is stored; then swapped in place, or brought up with. */
    method ChangeHandOff(next: Option<HandOff.TProxy>, ps: seq<Peer>, w: World) returns (ok: bool)
      modifies this
      ensures peers == old(peers) && (State(), ok) == HandOver(old(State()), next, ps, w, kind)
    {
      var text := Render(inbound.(chain := next), ps, kind.lib);
      if text.None? {
        return false;
      }
      if kind.managed && w.linkUp {
        ok := Swap(next, text, w);
      } else {
        ok := Commit(inbound.(chain := next), ps, w);
      }
    }

    method ApplyCascade(next: Option<HandOff.TProxy>, w: World) returns (ok: bool, ghost ps: seq<Peer>)
      modifies this
      ensures Arranged(ps, peers) && (State(), ok) == Cascade(old(State()), next, ps, w, kind)
    {
      var list := Listed();
      ps := list;
      if inbound.chain == next {
        ok := true;
        return;
      }
      if inbound.key == "" {
        inbound := inbound.(chain := next);
        ok := true;
        return;
      }
      ok := ChangeHandOff(next, list, w);
    }

    method IdleOne()
      modifies this
      ensures State() == Idle(old(State()))
    {
      if inbound.key == "" && !started {
        return;
      }
      inbound := inbound.(key := "");
      started, loaded := false, false;
      saved := Some(Saved(inbound, id, peers));
    }

    method RetainInbounds(keep: set<Id>)
      modifies this
      ensures State() == Retain(old(State()), keep)
    {
      if id.None? || id.value in keep {
        return;
      }
      id := None;
      IdleOne();
    }
  }
}
