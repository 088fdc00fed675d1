/**
  The interface over whole runs of calls and agent restarts: when its file is the
  render of what memory holds, what a restart gives back, and what a call that
  repeats a failed one says.
*/
module InterfaceRuns {
  import opened Common
  import opened AwgConfig
  import opened PeerOrder
  import opened Interface
  import HandOff

  datatype Call =
    | AddPeer(user: User, peer: Option<Peer>)
    | RemovePeer(user: User)
    | ApplyInbound(pushed: Option<Inbound>, id: Option<Id>)
    | ApplyCascade(next: Option<HandOff.TProxy>)
    | RetainInbounds(keep: set<Id>)
    | GoIdle
    | AgentRestart

  function Step(v: View, c: Call, ps: seq<Peer>, w: World, k: Kind): (View, bool) {
    match c
    case AddPeer(u, p) => Add(v, u, p, ps, w, k)
    case RemovePeer(u) => Remove(v, u, ps, w, k)
    case ApplyInbound(x, id) => Apply(v, x, id, ps, w, k)
    case ApplyCascade(next) => Cascade(v, next, ps, w, k)
    case RetainInbounds(keep) => (Retain(v, keep), true)
    case GoIdle => (Idle(v), true)
    case AgentRestart => Restart(v, ps, w, k)
  }

  // ------------------------------------------------------------ the file is the render

  /** The inbound is one that renders, whatever valid peers it has. */
  predicate InboundRenders(x: Inbound, lib: Library) { Renders(x, [], lib) }

  ghost predicate RenderOf(file: Option<string>, x: Inbound, peers: Peers, lib: Library) {
    exists ps :: Arranged(ps, peers) && file.Some? && file == Rendered(x, ps, lib)
  }

  /** The file is the render of the inbound and peers memory holds. */
  ghost predicate OnDisk(v: View, k: Kind) { RenderOf(v.file, v.inbound, v.peers, k.lib) }

  predicate Installed(x: Inbound, k: Kind) {
    && x.iface == k.install.iface && x.postUp == k.install.postUp && x.postDown == k.install.postDown
    && (x.listenPort == 0 ==> k.install.listenPort == 0)
  }

  /** What was saved is a state whose file was written. */
  ghost predicate SavedOnDisk(v: View, k: Kind) {
    v.saved.Some? ==>
      var s := v.saved.value;
      && Installed(s.inbound, k) && AllPeersValid(s.peers, k.lib)
      && (InboundRenders(s.inbound, k.lib) ==> RenderOf(v.file, s.inbound, s.peers, k.lib))
  }

  predicate SavedIsMemory(v: View) {
    v.saved.Some? && v.saved.value.inbound == v.inbound && v.saved.value.peers == v.peers
  }

  ghost predicate Inv(v: View, k: Kind) {
    && AllPeersValid(v.peers, k.lib) && Installed(v.inbound, k)
    && SavedOnDisk(v, k)
    && (InboundRenders(v.inbound, k.lib) ==> SavedIsMemory(v))
  }

  lemma RendersWithPeers(x: Inbound, ps: seq<Peer>, peers: Peers, lib: Library)
    requires Arranged(ps, peers) && AllPeersValid(peers, lib)
    ensures Rendered(x, ps, lib).Some? <==> InboundRenders(x, lib)
  {
    var us :| Ordered(us, peers) && ps == PeersOf(us, peers);
    ValidInAnyOrder(us, peers, lib);
  }

  /** In any state a run reaches, the file is the render of memory exactly when memory can be rendered at all. */
  lemma FileIsRenderIff(v: View, k: Kind)
    requires Inv(v, k)
    ensures OnDisk(v, k) <==> InboundRenders(v.inbound, k.lib)
  {
    if OnDisk(v, k) {
      var ps :| Arranged(ps, v.peers) && v.file.Some? && v.file == Rendered(v.inbound, ps, k.lib);
      RendersWithPeers(v.inbound, ps, v.peers, k.lib);
    }
  }

  /** And then it is the one text, if no two users share an address with different keys. */
  lemma FileIsTheRender(v: View, ps: seq<Peer>, k: Kind)
    requires Inv(v, k) && InboundRenders(v.inbound, k.lib) && AddressTellsPeer(v.peers)
    requires Arranged(ps, v.peers)
    ensures v.file == Rendered(v.inbound, ps, k.lib)
  {
    OneArrangementIff(v.peers);
    FileIsRenderIff(v, k);
    var qs :| Arranged(qs, v.peers) && v.file.Some? && v.file == Rendered(v.inbound, qs, k.lib);
    var us :| Ordered(us, v.peers) && ps == PeersOf(us, v.peers);
    var vs :| Ordered(vs, v.peers) && qs == PeersOf(vs, v.peers);
  }

  // -------------------------------------------------------------- every call keeps it

  lemma WrittenKeeps(v: View, ps: seq<Peer>, k: Kind)
    requires AllPeersValid(v.peers, k.lib) && Installed(v.inbound, k) && Arranged(ps, v.peers)
    requires Rendered(v.inbound, ps, k.lib).Some?
    ensures Inv(Written(v, Rendered(v.inbound, ps, k.lib)), k)
  {
    var text := Rendered(v.inbound, ps, k.lib);
    assert RenderOf(text, v.inbound, v.peers, k.lib);
  }

  /** A change of memory that is then written, or cannot be rendered. */
  lemma SyncKeeps(v: View, ps: seq<Peer>, w: World, k: Kind)
    requires AllPeersValid(v.peers, k.lib) && Installed(v.inbound, k) && SavedOnDisk(v, k)
    requires Arranged(ps, v.peers) && w.write
    ensures Inv(Sync(v, ps, w, k).0, k) && Inv(Bounce(v, ps, w, k).0, k)
  {
    RendersWithPeers(v.inbound, ps, v.peers, k.lib);
    if Rendered(v.inbound, ps, k.lib).Some? {
      WrittenKeeps(v, ps, k);
    }
  }

  lemma NoKeyNoRender(x: Inbound, lib: Library)
    requires x.key == ""
    ensures !InboundRenders(x, lib)
  {
  }

  lemma StartKeeps(v: View, ps: seq<Peer>, w: World, k: Kind)
    requires AllPeersValid(v.peers, k.lib) && Installed(v.inbound, k) && SavedOnDisk(v, k)
    requires Arranged(ps, v.peers) && w.write
    ensures Inv(Start(v, ps, w, k).0, k)
  {
    RendersWithPeers(v.inbound, ps, v.peers, k.lib);
    if Rendered(v.inbound, ps, k.lib).Some? {
      WrittenKeeps(v, ps, k);
    } else if !Configured(v) {
      NoKeyNoRender(v.inbound, k.lib);
    }
  }

  lemma CascadeKeeps(v: View, next: Option<HandOff.TProxy>, ps: seq<Peer>, w: World, k: Kind)
    requires Inv(v, k) && w.write && Arranged(ps, v.peers)
    ensures Inv(Cascade(v, next, ps, w, k).0, k)
  {
    var now := v.(inbound := v.inbound.(chain := next));
    if v.inbound.chain == next {
    } else if !Configured(v) {
      NoKeyNoRender(now.inbound, k.lib);
    } else if Rendered(now.inbound, ps, k.lib).Some? {
      WrittenKeeps(now, ps, k);
      SyncKeeps(now, ps, w, k);
    }
  }

  lemma IdleKeeps(v: View, k: Kind)
    requires Inv(v, k)
    ensures Inv(Idle(v), k)
  {
    NoKeyNoRender(v.inbound.(key := ""), k.lib);
  }

  lemma AllValidKept(peers: Peers, lib: Library)
    requires AllPeersValid(peers, lib)
    ensures (map u | u in peers && PeerOk(peers[u], lib) :: peers[u]) == peers
  {
  }

  lemma RestoredSame(v: View, k: Kind)
    requires Inv(v, k) && v.saved.Some?
    ensures Restored(v, k).inbound == v.saved.value.inbound && Restored(v, k).peers == v.saved.value.peers
  {
    AllValidKept(v.saved.value.peers, k.lib);
  }

  lemma RestoredInv(v: View, k: Kind)
    requires Inv(v, k)
    ensures var r := Restored(v, k);
      AllPeersValid(r.peers, k.lib) && Installed(r.inbound, k) && SavedOnDisk(r, k)
    ensures v.saved.Some? ==>
            Restored(v, k).inbound == v.saved.value.inbound && Restored(v, k).peers == v.saved.value.peers
  {
    if v.saved.Some? {
      RestoredSame(v, k);
    }
  }

  lemma PeersKeep(v: View, now: View, ps: seq<Peer>, w: World, k: Kind)
    requires Inv(v, k) && w.write && now == v.(peers := now.peers)
    requires AllPeersValid(now.peers, k.lib) && Arranged(ps, now.peers)
    ensures OnlyRemembers(v, k) ==> Inv(now, k)
    ensures Inv(Sync(now, ps, w, k).0, k)
  {
    if OnlyRemembers(v, k) {
      NoKeyNoRender(v.inbound, k.lib);
    }
    SyncKeeps(now, ps, w, k);
  }

  lemma OneMoreValid(peers: Peers, u: User, p: Peer, lib: Library)
    requires AllPeersValid(peers, lib) && PeerOk(p, lib)
    ensures AllPeersValid(peers[u := p], lib)
  {
  }

  lemma SyncKeepsPeers(v: View, ps: seq<Peer>, w: World, k: Kind)
    ensures Sync(v, ps, w, k).0.peers == v.peers
  {
  }

  predicate AddChanges(v: View, u: User, p: Option<Peer>, k: Kind) {
    p.Some? && PeerOk(p.value, k.lib) && !(u in v.peers && v.peers[u] == p.value)
  }

  lemma AddCases(v: View, u: User, p: Option<Peer>, ps: seq<Peer>, w: World, k: Kind)
    ensures !AddChanges(v, u, p, k) ==> Add(v, u, p, ps, w, k).0 == v
    ensures AddChanges(v, u, p, k) ==>
              var more := v.(peers := v.peers[u := p.value]);
              Add(v, u, p, ps, w, k) == if OnlyRemembers(v, k) then (more, true) else Sync(more, ps, w, k)
  {
  }

  lemma AddKeeps(v: View, u: User, p: Option<Peer>, ps: seq<Peer>, w: World, k: Kind)
    requires Inv(v, k) && w.write && Arranged(ps, Add(v, u, p, ps, w, k).0.peers)
    ensures Inv(Add(v, u, p, ps, w, k).0, k)
  {
    AddCases(v, u, p, ps, w, k);
    if AddChanges(v, u, p, k) {
      var more := v.(peers := v.peers[u := p.value]);
      OneMoreValid(v.peers, u, p.value, k.lib);
      SyncKeepsPeers(more, ps, w, k);
      PeersKeep(v, more, ps, w, k);
    }
  }

  lemma RemoveKeeps(v: View, u: User, ps: seq<Peer>, w: World, k: Kind)
    requires Inv(v, k) && w.write && Arranged(ps, Remove(v, u, ps, w, k).0.peers)
    ensures Inv(Remove(v, u, ps, w, k).0, k)
  {
    if u in v.peers {
      var fewer := v.(peers := v.peers - {u});
      assert Remove(v, u, ps, w, k).0.peers == fewer.peers;
      PeersKeep(v, fewer, ps, w, k);
    }
  }

  lemma CarriedInstalled(v: View, x: Inbound, k: Kind)
    requires Installed(v.inbound, k)
    ensures Installed(Carried(v, x), k)
  {
  }

  function NamedBy(v: View, id: Option<Id>): View {
    if id.Some? then v.(id := id) else v
  }

  /** The binding's id is not part of it. */
  lemma NamedKeeps(v: View, id: Option<Id>, k: Kind)
    requires Inv(v, k)
    ensures Inv(NamedBy(v, id), k)
  {
  }

  lemma ApplyCases(v: View, x: Inbound, id: Option<Id>, ps: seq<Peer>, w: World, k: Kind)
    ensures var r := Apply(v, Some(x), id, ps, w, k).0;
      r == NamedBy(v, id) || r == Bounce(NamedBy(v, id).(inbound := Carried(v, x)), ps, w, k).0
  {
  }

  lemma ApplyKeeps(v: View, x: Option<Inbound>, id: Option<Id>, ps: seq<Peer>, w: World, k: Kind)
    requires Inv(v, k) && w.write && Arranged(ps, v.peers)
    ensures Inv(Apply(v, x, id, ps, w, k).0, k)
  {
    if x.Some? {
      NamedKeeps(v, id, k);
      CarriedInstalled(v, x.value, k);
      SyncKeeps(NamedBy(v, id).(inbound := Carried(v, x.value)), ps, w, k);
      ApplyCases(v, x.value, id, ps, w, k);
    }
  }

  lemma ApplyKeepsPeers(v: View, x: Option<Inbound>, id: Option<Id>, ps: seq<Peer>, w: World, k: Kind)
    ensures Apply(v, x, id, ps, w, k).0.peers == v.peers
  {
  }

  lemma CascadeKeepsPeers(v: View, next: Option<HandOff.TProxy>, ps: seq<Peer>, w: World, k: Kind)
    ensures Cascade(v, next, ps, w, k).0.peers == v.peers
  {
  }

  lemma StartKeepsPeers(v: View, ps: seq<Peer>, w: World, k: Kind)
    ensures Start(v, ps, w, k).0.peers == v.peers
  {
  }

  /** Each call keeps it, whatever is pushed, while writes succeed. */
  lemma StepKeepsInv(v: View, c: Call, ps: seq<Peer>, w: World, k: Kind)
    requires Inv(v, k) && w.write && Arranged(ps, Step(v, c, ps, w, k).0.peers)
    ensures Inv(Step(v, c, ps, w, k).0, k)
  {
    match c
    case AddPeer(u, p) =>
      AddKeeps(v, u, p, ps, w, k);
    case RemovePeer(u) =>
      RemoveKeeps(v, u, ps, w, k);
    case ApplyInbound(x, id) =>
      ApplyKeepsPeers(v, x, id, ps, w, k);
      ApplyKeeps(v, x, id, ps, w, k);
    case ApplyCascade(next) =>
      CascadeKeepsPeers(v, next, ps, w, k);
      CascadeKeeps(v, next, ps, w, k);
    case RetainInbounds(keep) =>
      IdleKeeps(v.(id := None), k);
    case GoIdle =>
      IdleKeeps(v, k);
    case AgentRestart =>
      RestoredInv(v, k);
      StartKeepsPeers(Restored(v, k), ps, w, k);
      StartKeeps(Restored(v, k), ps, w, k);
  }

  datatype Event = Event(call: Call, listed: seq<Peer>, world: World)

  function After(v: View, es: seq<Event>, k: Kind): View
    decreases |es|
  {
    if es == [] then v
    else
      var e := es[|es| - 1];
      Step(After(v, es[..|es| - 1], k), e.call, e.listed, e.world, k).0
  }

  /** Every render lists the peers of the moment, and no write fails. */
  ghost predicate Proper(v: View, es: seq<Event>, k: Kind) {
    forall i :: 0 <= i < |es| ==> es[i].world.write && Arranged(es[i].listed, After(v, es[..i + 1], k).peers)
  }

  /** Over any run of calls and agent restarts in which no write fails. */
  lemma {:induction false} RunKeepsInv(v: View, es: seq<Event>, k: Kind)
    requires Inv(v, k) && Proper(v, es, k)
    ensures Inv(After(v, es, k), k)
    ensures OnDisk(After(v, es, k), k) <==> InboundRenders(After(v, es, k).inbound, k.lib)
    decreases |es|
  {
    if es != [] {
      var front := es[..|es| - 1];
      assert es[..|es|] == es;
      forall i | 0 <= i < |front| ensures front[i].world.write &&
          Arranged(front[i].listed, After(v, front[..i + 1], k).peers) {
        assert front[..i + 1] == es[..i + 1] && front[i] == es[i];
      }
      RunKeepsInv(v, front, k);
      var e := es[|es| - 1];
      StepKeepsInv(After(v, front, k), e.call, e.listed, e.world, k);
    }
    FileIsRenderIff(After(v, es, k), k);
  }

  /** A freshly installed agent, with no inbound yet, is a place to start. */
  lemma FirstAgentInv(k: Kind)
    requires k.install.key == ""
    ensures Inv(View(k.install, None, map[], None, None, false, false), k)
  {
    NoKeyNoRender(k.install, k.lib);
  }

  // ----------------------------------------------------------------------- skipped work

  lemma NoDiffIsSame(v: View, x: Inbound)
    ensures Classify(v.inbound, Carried(v, x)) == NoDiff <==> Carried(v, x) == v.inbound
  {
  }

  /** A call that succeeds without rendering left nothing to render: the pushed inbound is the one in memory. */
  lemma SkippedMeansSame(v: View, x: Inbound, id: Option<Id>, ps: seq<Peer>, w: World, k: Kind)
    ensures var r := Apply(v, Some(x), id, ps, w, k);
      r.1 ==> r.0.inbound == Carried(v, x)
              && (Carried(v, x) == v.inbound ==> r.0.file == v.file && r.0.loaded == v.loaded)
              && (Carried(v, x) != v.inbound ==> r.0.file == Rendered(Carried(v, x), ps, k.lib) && r.0.file.Some?)
  {
    NoDiffIsSame(v, x);
  }

  /**
    After an apply that succeeded, the file is the render unless the inbound it repeats
    had been refused by the renderer.
  */
  lemma AppliedIsOnDiskIff(v: View, x: Inbound, id: Option<Id>, ps: seq<Peer>, w: World, k: Kind)
    requires Inv(v, k) && w.write && Arranged(ps, v.peers) && Apply(v, Some(x), id, ps, w, k).1
    ensures OnDisk(Apply(v, Some(x), id, ps, w, k).0, k) <==> InboundRenders(Carried(v, x), k.lib)
    ensures Carried(v, x) != v.inbound ==> InboundRenders(Carried(v, x), k.lib)
  {
    SkippedMeansSame(v, x, id, ps, w, k);
    ApplyKeeps(v, Some(x), id, ps, w, k);
    FileIsRenderIff(Apply(v, Some(x), id, ps, w, k).0, k);
    RendersWithPeers(Carried(v, x), ps, v.peers, k.lib);
  }

  /**
    An inbound the renderer refuses is kept all the same: the call fails, the same
    call again succeeds as "unchanged", and the file is not its render.
  */
  lemma RefusedThenUnchanged(v: View, x: Inbound, id: Option<Id>, ps: seq<Peer>, w: World, again: World, k: Kind)
    requires Inv(v, k) && w.write && Arranged(ps, v.peers)
    requires !InboundRenders(Carried(v, x), k.lib) && Carried(v, x) != v.inbound && !SubnetHeld(v)
    ensures var first := Apply(v, Some(x), id, ps, w, k);
      var second := Apply(first.0, Some(x), id, ps, again, k);
      !first.1 && second.1 && second.0.inbound == Carried(v, x) && second.0.file == v.file && !OnDisk(second.0, k)
  {
    RendersWithPeers(Carried(v, x), ps, v.peers, k.lib);
    NoDiffIsSame(v, x);
    var first := Apply(v, Some(x), id, ps, w, k).0;
    assert first.inbound == Carried(v, x) && first.file == v.file;
    ApplyKeeps(v, Some(x), id, ps, w, k);
    assert Carried(first, x) == first.inbound;
    FileIsRenderIff(first, k);
    assert OnDisk(Apply(first, Some(x), id, ps, again, k).0, k) <==> OnDisk(first, k);
  }

  /** Meanwhile a user added is refused once, and the second time passed over as known. */
  lemma AddedWhileRefused(v: View, u: User, p: Peer, ps: seq<Peer>, w: World, k: Kind)
    requires Inv(v, k) && !InboundRenders(v.inbound, k.lib) && !OnlyRemembers(v, k)
    requires PeerOk(p, k.lib) && !(u in v.peers && v.peers[u] == p)
    requires Arranged(ps, v.peers[u := p])
    ensures var first := Add(v, u, Some(p), ps, w, k);
      var second := Add(first.0, u, Some(p), ps, w, k);
      !first.1 && second.1 && second.0 == first.0 && second.0.file == v.file && second.0.peers == v.peers[u := p]
  {
    RendersWithPeers(v.inbound, ps, v.peers[u := p], k.lib);
  }

  // ----------------------------------------------------------- the interface that runs

  /**
    After an apply that succeeded on a managed interface, it runs its file unless
    nothing was changed and it did not before.
  */
  lemma AppliedIsRunningIff(v: View, x: Inbound, id: Option<Id>, ps: seq<Peer>, w: World, k: Kind)
    requires k.managed && Apply(v, Some(x), id, ps, w, k).1
    ensures Apply(v, Some(x), id, ps, w, k).0.loaded <==> Carried(v, x) != v.inbound || v.loaded
  {
    NoDiffIsSame(v, x);
  }

  /**
    A bring-up that failed after the file was written: the same inbound again is
    "unchanged", with the interface down.
  */
  lemma DownThenUnchanged(v: View, x: Inbound, id: Option<Id>, ps: seq<Peer>, w: World, again: World, k: Kind)
    requires Inv(v, k) && k.managed && w.write && !w.reload && Arranged(ps, v.peers)
    requires InboundRenders(Carried(v, x), k.lib) && Carried(v, x) != v.inbound && !SubnetHeld(v)
    ensures var first := Apply(v, Some(x), id, ps, w, k);
      var second := Apply(first.0, Some(x), id, ps, again, k);
      !first.1 && second.1 && OnDisk(second.0, k) && !second.0.loaded
  {
    RendersWithPeers(Carried(v, x), ps, v.peers, k.lib);
    NoDiffIsSame(v, x);
    var first := Apply(v, Some(x), id, ps, w, k).0;
    ApplyKeeps(v, Some(x), id, ps, w, k);
    FileIsRenderIff(first, k);
    assert Carried(first, x) == first.inbound;
    var second := Apply(first, Some(x), id, ps, again, k).0;
    assert second.file == first.file && second.inbound == first.inbound && second.peers == first.peers;
  }

  // ------------------------------------------------------------------- a new agent

  /**
    A restart of the agent on an interface that renders: memory comes back whole, the
    file is written as it was, and a link that is up goes on running it; the same
    inbound pushed again is then no change.
  */
  lemma RestartCostsNothing(v: View, x: Inbound, id: Option<Id>, ps: seq<Peer>, w: World, again: World, k: Kind)
    requires Inv(v, k) && InboundRenders(v.inbound, k.lib) && AddressTellsPeer(v.peers)
    requires w.write && w.reload && Arranged(ps, v.peers) && Carried(v, x) == v.inbound
    ensures var r := Restart(v, ps, w, k);
      && r.1 && r.0.inbound == v.inbound && r.0.peers == v.peers && r.0.file == v.file
      && (k.managed && v.loaded ==> r.0.loaded)
      && Apply(r.0, Some(x), id, ps, again, k) == (if id.Some? then r.0.(id := id) else r.0, true)
  {
    RestoredInv(v, k);
    FileIsTheRender(v, ps, k);
    RendersWithPeers(v.inbound, ps, v.peers, k.lib);
    if !Configured(v) {
      NoKeyNoRender(v.inbound, k.lib);
    }
    var r := Restart(v, ps, w, k).0;
    assert Carried(r, x) == r.inbound;
  }
}
