/**
  What each call on an interface comes to for its caller: when it succeeds, what memory
  and the file then hold, what a failure leaves, and what a whole run of calls leaves
  in force (core/amneziawg/adapter.go, state.go).
*/
module InterfaceCalls {
  import opened Common
  import HandOff
  import opened AwgConfig
  import opened PeerOrder
  import opened Interface
  import opened InterfaceRuns

  // ------------------------------------------------------------------ writing the file

  /** The interface's part of a file that is reloaded, or of a bounce, goes through. */
  predicate MachineReloads(w: World, k: Kind) { w.write && (k.managed ==> w.reload) }

  /** Memory is written and loaded exactly when it renders and the machine goes along; the file is then its render. */
  lemma SyncSucceedsIff(v: View, ps: seq<Peer>, w: World, k: Kind)
    ensures Sync(v, ps, w, k).1 <==> Rendered(v.inbound, ps, k.lib).Some? && MachineReloads(w, k)
    ensures Sync(v, ps, w, k).1 ==>
              var now := Sync(v, ps, w, k).0;
              && now.inbound == v.inbound && now.id == v.id && now.peers == v.peers
              && now.file == Rendered(v.inbound, ps, k.lib) && (k.managed ==> now.loaded && now.started)
    ensures !Sync(v, ps, w, k).1 && Rendered(v.inbound, ps, k.lib).Some? && w.write ==>
              var now := Sync(v, ps, w, k).0;
              now.file == Rendered(v.inbound, ps, k.lib) && !now.loaded && now.started == v.started
    ensures Rendered(v.inbound, ps, k.lib).None? || !w.write ==> Sync(v, ps, w, k).0 == v
  {
  }

  lemma BounceSucceedsIff(v: View, ps: seq<Peer>, w: World, k: Kind)
    ensures Bounce(v, ps, w, k).1 <==> Rendered(v.inbound, ps, k.lib).Some? && MachineReloads(w, k)
    ensures Bounce(v, ps, w, k).1 ==>
              var now := Bounce(v, ps, w, k).0;
              && now.inbound == v.inbound && now.id == v.id && now.peers == v.peers
              && now.file == Rendered(v.inbound, ps, k.lib) && now.started && (k.managed ==> now.loaded)
              && now.saved == Some(Saved(v.inbound, v.id, v.peers))
  {
  }

  lemma BounceFailed(v: View, ps: seq<Peer>, w: World, k: Kind)
    ensures Bounce(v, ps, w, k).0.inbound == v.inbound && Bounce(v, ps, w, k).0.id == v.id
    ensures Bounce(v, ps, w, k).0.peers == v.peers
    ensures Rendered(v.inbound, ps, k.lib).None? ==> Bounce(v, ps, w, k) == (v, false)
    ensures Rendered(v.inbound, ps, k.lib).Some? && !Bounce(v, ps, w, k).1 && k.managed ==>
              !Bounce(v, ps, w, k).0.loaded
    ensures !w.write ==> Bounce(v, ps, w, k).0.file == v.file && Bounce(v, ps, w, k).0.saved == v.saved
    ensures !w.write && !k.managed ==> Bounce(v, ps, w, k).0 == v
  {
  }

  // -------------------------------------------------------------------- the hand-off

  function WithChain(x: Inbound, next: Option<HandOff.TProxy>): Inbound { x.(chain := next) }

  /** The interface's part of a hand-off change went through: swapped in place, or brought up with it. */
  predicate MachineTakes(w: World, k: Kind) {
    w.write && (k.managed ==> if w.linkUp then w.swap else w.reload)
  }

  /** It is taken exactly when it is there already, is only remembered, or renders and the machine goes along. */
  lemma CascadeSucceedsIff(v: View, next: Option<HandOff.TProxy>, ps: seq<Peer>, w: World, k: Kind)
    ensures Cascade(v, next, ps, w, k).1 <==>
              || v.inbound.chain == next
              || v.inbound.key == ""
              || (Rendered(WithChain(v.inbound, next), ps, k.lib).Some? && MachineTakes(w, k))
  {
    var now := v.(inbound := WithChain(v.inbound, next));
    BounceSucceedsIff(now, ps, w, k);
    BounceFailed(now, ps, w, k);
  }

  /**
    Once it has been taken it is the one in memory, and on a configured interface that
    did not have it the file is the render of the inbound with it, saved, and running
    if the interface was swapped while it ran the old file, or was brought up.
  */
  lemma CascadeTaken(v: View, next: Option<HandOff.TProxy>, ps: seq<Peer>, w: World, k: Kind)
    requires Cascade(v, next, ps, w, k).1
    ensures var now := Cascade(v, next, ps, w, k).0;
      && now.inbound == WithChain(v.inbound, next) && now.id == v.id && now.peers == v.peers
      && (v.inbound.chain != next && v.inbound.key != "" ==>
            && now.file.Some? && now.file == Rendered(WithChain(v.inbound, next), ps, k.lib)
            && now.saved == Some(Saved(now.inbound, now.id, now.peers))
            && (k.managed ==> (now.loaded <==> w.linkUp ==> v.loaded)))
      && (v.inbound.chain == next || v.inbound.key == "" ==> now.file == v.file && now.loaded == v.loaded)
  {
    var now := v.(inbound := WithChain(v.inbound, next));
    BounceSucceedsIff(now, ps, w, k);
    BounceFailed(now, ps, w, k);
  }

  /**
    One that failed leaves the old hand-off in memory exactly when it was refused by the
    renderer or its swap failed; otherwise the new one is there and what failed came
    after it.
  */
  lemma CascadeFailed(v: View, next: Option<HandOff.TProxy>, ps: seq<Peer>, w: World, k: Kind)
    requires !Cascade(v, next, ps, w, k).1
    ensures var now := Cascade(v, next, ps, w, k).0;
      && now.id == v.id && now.peers == v.peers && v.inbound.chain != next
      && now.inbound ==
          (if Rendered(WithChain(v.inbound, next), ps, k.lib).None? || (k.managed && w.linkUp && !w.swap) then v.inbound
           else WithChain(v.inbound, next))
      && (now.inbound == v.inbound ==> now == v)
      && (now.inbound != v.inbound && k.managed ==> !now.loaded)
      && (!w.write ==> now.file == v.file)
  {
    var now := v.(inbound := WithChain(v.inbound, next));
    BounceSucceedsIff(now, ps, w, k);
    BounceFailed(now, ps, w, k);
  }

  /** The hand-off's lines are those in the file. */
  lemma TakenIsOnDisk(v: View, next: Option<HandOff.TProxy>, ps: seq<Peer>, w: World, k: Kind)
    requires Inv(v, k) && w.write && Arranged(ps, v.peers) && Cascade(v, next, ps, w, k).1
    ensures var now := Cascade(v, next, ps, w, k).0;
      OnDisk(now, k) <==> InboundRenders(WithChain(v.inbound, next), k.lib)
  {
    CascadeTaken(v, next, ps, w, k);
    CascadeKeeps(v, next, ps, w, k);
    FileIsRenderIff(Cascade(v, next, ps, w, k).0, k);
  }

  // ------------------------------------------------------------- over a run of calls

  /** Taken, or written and then not brought up. */
  ghost predicate Holds(v: View, e: Event, next: Option<HandOff.TProxy>, k: Kind) {
    || Step(v, e.call, e.listed, e.world, k).1
    || (Rendered(WithChain(v.inbound, next), e.listed, k.lib).Some? && !(k.managed && e.world.linkUp && !e.world.swap))
  }

  /** The hand-off of the last ApplyCascade that held. */
  ghost function LastHandOff(v: View, es: seq<Event>, k: Kind): Option<HandOff.TProxy>
    decreases |es|
  {
    if es == [] then v.inbound.chain
    else
      var front, e := es[..|es| - 1], es[|es| - 1];
      if e.call.ApplyCascade? && Holds(After(v, front, k), e, e.call.next, k) then e.call.next
      else LastHandOff(v, front, k)
  }

  /** A new agent starts where memory could be rendered. */
  ghost predicate RestartsWhole(v: View, es: seq<Event>, k: Kind) {
    forall i :: 0 <= i < |es| && es[i].call.AgentRestart? ==> InboundRenders(After(v, es[..i], k).inbound, k.lib)
  }

  lemma RestartKeepsInbound(v: View, ps: seq<Peer>, w: World, k: Kind)
    requires Inv(v, k) && InboundRenders(v.inbound, k.lib)
    ensures Restart(v, ps, w, k).0.inbound == v.inbound
  {
    RestoredInv(v, k);
  }

  lemma WritingKeepsInbound(v: View, ps: seq<Peer>, w: World, k: Kind)
    ensures Sync(v, ps, w, k).0.inbound == v.inbound && Bounce(v, ps, w, k).0.inbound == v.inbound
  {
  }

  lemma AddingKeepsInbound(v: View, u: User, p: Option<Peer>, ps: seq<Peer>, w: World, k: Kind)
    ensures Add(v, u, p, ps, w, k).0.inbound == v.inbound
  {
    AddCases(v, u, p, ps, w, k);
    if p.Some? {
      WritingKeepsInbound(v.(peers := v.peers[u := p.value]), ps, w, k);
    }
  }

  lemma RemovingKeepsInbound(v: View, u: User, ps: seq<Peer>, w: World, k: Kind)
    ensures Remove(v, u, ps, w, k).0.inbound == v.inbound
  {
    WritingKeepsInbound(v.(peers := v.peers - {u}), ps, w, k);
  }

  lemma ApplyKeepsChain(v: View, x: Option<Inbound>, id: Option<Id>, ps: seq<Peer>, w: World, k: Kind)
    ensures Apply(v, x, id, ps, w, k).0.inbound.chain == v.inbound.chain
  {
    if x.Some? {
      ApplyCases(v, x.value, id, ps, w, k);
      WritingKeepsInbound(NamedBy(v, id).(inbound := Carried(v, x.value)), ps, w, k);
    }
  }

  lemma PushesKeepHandOff(v: View, e: Event, k: Kind)
    requires e.call.AddPeer? || e.call.RemovePeer? || e.call.ApplyInbound?
    ensures Step(v, e.call, e.listed, e.world, k).0.inbound.chain == v.inbound.chain
  {
    if e.call.AddPeer? {
      AddingKeepsInbound(v, e.call.user, e.call.peer, e.listed, e.world, k);
    } else if e.call.RemovePeer? {
      RemovingKeepsInbound(v, e.call.user, e.listed, e.world, k);
    } else {
      ApplyKeepsChain(v, e.call.pushed, e.call.id, e.listed, e.world, k);
    }
  }

  /** No other call touches the hand-off. */
  lemma OthersKeepHandOff(v: View, e: Event, k: Kind)
    requires Inv(v, k) && !e.call.ApplyCascade?
    requires e.call.AgentRestart? ==> InboundRenders(v.inbound, k.lib)
    ensures Step(v, e.call, e.listed, e.world, k).0.inbound.chain == v.inbound.chain
  {
    if e.call.AgentRestart? {
      RestartKeepsInbound(v, e.listed, e.world, k);
    } else if !e.call.RetainInbounds? && !e.call.GoIdle? {
      PushesKeepHandOff(v, e, k);
    }
  }

  lemma StepHandOff(v: View, e: Event, k: Kind)
    requires Inv(v, k)
    requires e.call.AgentRestart? ==> InboundRenders(v.inbound, k.lib)
    ensures Step(v, e.call, e.listed, e.world, k).0.inbound.chain ==
              if e.call.ApplyCascade? && Holds(v, e, e.call.next, k) then e.call.next else v.inbound.chain
  {
    if e.call.ApplyCascade? {
      if Step(v, e.call, e.listed, e.world, k).1 {
        CascadeTaken(v, e.call.next, e.listed, e.world, k);
      } else {
        CascadeFailed(v, e.call.next, e.listed, e.world, k);
      }
    } else {
      OthersKeepHandOff(v, e, k);
    }
  }

  lemma OneMoreCall(v: View, front: seq<Event>, e: Event, k: Kind)
    requires Inv(After(v, front, k), k)
    requires e.call.AgentRestart? ==> InboundRenders(After(v, front, k).inbound, k.lib)
    requires After(v, front, k).inbound.chain == LastHandOff(v, front, k)
    ensures After(v, front + [e], k).inbound.chain == LastHandOff(v, front + [e], k)
  {
    assert (front + [e])[..|front|] == front;
    StepHandOff(After(v, front, k), e, k);
  }

  lemma FrontProper(v: View, es: seq<Event>, n: nat, k: Kind)
    requires n <= |es| && Proper(v, es, k)
    ensures Proper(v, es[..n], k)
  {
    var front := es[..n];
    forall i | 0 <= i < n ensures front[i].world.write && Arranged(front[i].listed, After(v, front[..i + 1], k).peers) {
      assert front[..i + 1] == es[..i + 1] && front[i] == es[i];
    }
  }

  lemma FrontWhole(v: View, es: seq<Event>, n: nat, k: Kind)
    requires n <= |es| && RestartsWhole(v, es, k)
    ensures RestartsWhole(v, es[..n], k)
  {
    var front := es[..n];
    forall i | 0 <= i < n && front[i].call.AgentRestart?
      ensures InboundRenders(After(v, front[..i], k).inbound, k.lib)
    {
      assert front[..i] == es[..i] && front[i] == es[i];
    }
  }

  lemma {:induction false} RunChain(v: View, es: seq<Event>, k: Kind)
    requires Inv(v, k) && Proper(v, es, k) && RestartsWhole(v, es, k)
    ensures After(v, es, k).inbound.chain == LastHandOff(v, es, k)
    decreases |es|
  {
    if es != [] {
      var n := |es| - 1;
      FrontProper(v, es, n, k);
      FrontWhole(v, es, n, k);
      RunChain(v, es[..n], k);
      RunKeepsInv(v, es[..n], k);
      OneMoreCall(v, es[..n], es[n], k);
      assert es == es[..n] + [es[n]];
    }
  }

  /**
    Over any run of calls and agent restarts in which no write fails: the hand-off in
    memory is that of the last ApplyCascade that succeeded, or that failed only in
    bringing a downed interface up; and the file is the render with it whenever memory
    renders at all.
  */
  lemma RunHandOff(v: View, es: seq<Event>, k: Kind)
    requires Inv(v, k) && Proper(v, es, k) && RestartsWhole(v, es, k)
    ensures After(v, es, k).inbound.chain == LastHandOff(v, es, k)
    ensures OnDisk(After(v, es, k), k) <==> InboundRenders(After(v, es, k).inbound, k.lib)
  {
    RunChain(v, es, k);
    RunKeepsInv(v, es, k);
  }

  ghost predicate UndoneAt(v: View, es: seq<Event>, i: nat, k: Kind)
    requires i < |es| && es[i].call.ApplyCascade?
  {
    var before, e := After(v, es[..i], k), es[i];
    Holds(before, e, e.call.next, k) ==> Step(before, e.call, e.listed, e.world, k).1
  }

  /** Every ApplyCascade of the run that failed was refused or undone. */
  ghost predicate FailuresUndone(v: View, es: seq<Event>, k: Kind) {
    forall i :: 0 <= i < |es| && es[i].call.ApplyCascade? ==> UndoneAt(v, es, i, k)
  }

  ghost function LastSucceeded(v: View, es: seq<Event>, k: Kind): Option<HandOff.TProxy>
    decreases |es|
  {
    if es == [] then v.inbound.chain
    else
      var front, e := es[..|es| - 1], es[|es| - 1];
      if e.call.ApplyCascade? && Step(After(v, front, k), e.call, e.listed, e.world, k).1 then e.call.next
      else LastSucceeded(v, front, k)
  }

  lemma FrontUndone(v: View, es: seq<Event>, n: nat, k: Kind)
    requires n <= |es| && FailuresUndone(v, es, k)
    ensures FailuresUndone(v, es[..n], k)
  {
    var front := es[..n];
    forall i | 0 <= i < n && front[i].call.ApplyCascade? ensures UndoneAt(v, front, i, k) {
      assert front[..i] == es[..i] && front[i] == es[i];
      assert UndoneAt(v, es, i, k);
    }
  }

  lemma LastHeld(v: View, front: seq<Event>, e: Event, k: Kind)
    ensures LastHandOff(v, front + [e], k) ==
              if e.call.ApplyCascade? && Holds(After(v, front, k), e, e.call.next, k) then e.call.next
              else LastHandOff(v, front, k)
    ensures LastSucceeded(v, front + [e], k) ==
              if e.call.ApplyCascade? && Step(After(v, front, k), e.call, e.listed, e.world, k).1 then e.call.next
              else LastSucceeded(v, front, k)
  {
    assert (front + [e])[..|front|] == front;
  }

  lemma LastOfBoth(v: View, front: seq<Event>, e: Event, k: Kind)
    requires LastHandOff(v, front, k) == LastSucceeded(v, front, k)
    requires e.call.ApplyCascade? ==> UndoneAt(v, front + [e], |front|, k)
    ensures LastHandOff(v, front + [e], k) == LastSucceeded(v, front + [e], k)
  {
    LastHeld(v, front, e, k);
    assert (front + [e])[..|front|] == front;
  }

  /** Then it is that of the last one that succeeded. */
  lemma {:induction false} LastSucceededIsLast(v: View, es: seq<Event>, k: Kind)
    requires FailuresUndone(v, es, k)
    ensures LastHandOff(v, es, k) == LastSucceeded(v, es, k)
    decreases |es|
  {
    if es != [] {
      var n := |es| - 1;
      FrontUndone(v, es, n, k);
      LastSucceededIsLast(v, es[..n], k);
      assert es == es[..n] + [es[n]];
      LastOfBoth(v, es[..n], es[n], k);
    }
  }

  /** A hand-off remembered before the interface has its inbound is not saved: a new agent does not know it. */
  lemma RememberedThenForgotten(k: Kind, t: HandOff.TProxy, ps: seq<Peer>, qs: seq<Peer>, w: World)
    requires k.install.key == "" && k.install.chain == None
    ensures var v := View(k.install, None, map[], None, None, false, false);
      var (taken, ok) := Cascade(v, Some(t), ps, w, k);
      ok && taken.inbound.chain == Some(t) && Restart(taken, qs, w, k).0.inbound.chain == None
  {
  }

  // ------------------------------------------------------------------- the inbound

  /** A config that could not be read is refused and changes nothing. */
  lemma UnreadableIsRefused(v: View, id: Option<Id>, ps: seq<Peer>, w: World, k: Kind)
    ensures Apply(v, None, id, ps, w, k) == (v, false)
  {
  }

  /** Nothing of what an inbound push says differs from what is in force; no port pushed is no difference. */
  predicate SaysNothingNew(v: View, x: Inbound) {
    && x.key == v.inbound.key && x.address == v.inbound.address && x.obf == v.inbound.obf
    && x.geometry == v.inbound.geometry && (x.listenPort == 0 || x.listenPort == v.inbound.listenPort)
  }

  /** Peers hold addresses of a subnet the push would change. */
  predicate MovesPeers(v: View, x: Inbound) {
    x.address != v.inbound.address && v.inbound.address != "" && v.peers != map[]
  }

  /** An inbound is applied exactly when it says nothing new, or moves nobody, renders, and the machine goes along. */
  lemma ApplySucceedsIff(v: View, x: Inbound, id: Option<Id>, ps: seq<Peer>, w: World, k: Kind)
    ensures Apply(v, Some(x), id, ps, w, k).1 <==>
              || SaysNothingNew(v, x)
              || (!MovesPeers(v, x) && Rendered(Carried(v, x), ps, k.lib).Some? && MachineReloads(w, k))
  {
    var now := NamedBy(v, id).(inbound := Carried(v, x));
    NoDiffIsSame(v, x);
    BounceSucceedsIff(now, ps, w, k);
  }

  /**
    What is then in force: what the push says, on the port it names if it names one;
    the interface's name, its hooks and its hand-off are not the push's to say.
  */
  lemma ApplyTaken(v: View, x: Inbound, id: Option<Id>, ps: seq<Peer>, w: World, k: Kind)
    requires Apply(v, Some(x), id, ps, w, k).1
    ensures var now, y := Apply(v, Some(x), id, ps, w, k).0, Apply(v, Some(x), id, ps, w, k).0.inbound;
      && y.key == x.key && y.address == x.address && y.obf == x.obf && y.geometry == x.geometry
      && y.listenPort == (if x.listenPort != 0 then x.listenPort else v.inbound.listenPort)
      && y.iface == v.inbound.iface && y.postUp == v.inbound.postUp && y.postDown == v.inbound.postDown
      && y.chain == v.inbound.chain
      && now.peers == v.peers && now.id == (if id.Some? then id else v.id)
      && (SaysNothingNew(v, x) ==> now.file == v.file && now.loaded == v.loaded && now.saved == v.saved)
      && (!SaysNothingNew(v, x) ==>
            now.file.Some? && now.file == Rendered(y, ps, k.lib) && now.started &&
            now.saved == Some(Saved(y, now.id, now.peers)) && (k.managed ==> now.loaded))
  {
    var now := NamedBy(v, id).(inbound := Carried(v, x));
    NoDiffIsSame(v, x);
    BounceSucceedsIff(now, ps, w, k);
  }

  /** A subnet that peers hold addresses of is not changed under them: refused, with nothing touched but the binding. */
  lemma SubnetHeldIff(v: View, x: Inbound, id: Option<Id>, ps: seq<Peer>, w: World, k: Kind)
    requires MovesPeers(v, x)
    ensures !Apply(v, Some(x), id, ps, w, k).1
    ensures Apply(v, Some(x), id, ps, w, k).0 == v.(id := if id.Some? then id else v.id)
  {
  }

  // ------------------------------------------------------------------------ the users

  /** A user is added exactly when not this interface's, or known, or written to a file that is loaded. */
  lemma AddSucceedsIff(v: View, u: User, p: Option<Peer>, ps: seq<Peer>, w: World, k: Kind)
    ensures Add(v, u, p, ps, w, k).1 <==>
              || p.None?
              || (PeerOk(p.value, k.lib) &&
                  ((u in v.peers && v.peers[u] == p.value) || (k.third && v.inbound.key == "") ||
                   (Rendered(v.inbound, ps, k.lib).Some? && MachineReloads(w, k))))
  {
    if p.Some? {
      AddCases(v, u, p, ps, w, k);
      SyncSucceedsIff(v.(peers := v.peers[u := p.value]), ps, w, k);
    }
  }

  lemma RemoveSucceedsIff(v: View, u: User, ps: seq<Peer>, w: World, k: Kind)
    ensures Remove(v, u, ps, w, k).1 <==>
              || u !in v.peers || (k.third && v.inbound.key == "")
              || (Rendered(v.inbound, ps, k.lib).Some? && MachineReloads(w, k))
  {
    SyncSucceedsIff(v.(peers := v.peers - {u}), ps, w, k);
  }

  /** And then the interface runs the file that lists them. */
  lemma AddedIsServed(v: View, u: User, p: Peer, ps: seq<Peer>, w: World, k: Kind)
    requires v.inbound.key != "" && Add(v, u, Some(p), ps, w, k).1 && !(u in v.peers && v.peers[u] == p)
    ensures var now := Add(v, u, Some(p), ps, w, k).0;
      && now.peers == v.peers[u := p] && now.file == Rendered(v.inbound, ps, k.lib)
      && now.file.Some? && (k.managed ==> now.loaded)
  {
    AddSucceedsIff(v, u, Some(p), ps, w, k);
    AddCases(v, u, Some(p), ps, w, k);
    SyncSucceedsIff(v.(peers := v.peers[u := p]), ps, w, k);
  }

  /** Or no longer does. */
  lemma RemovedIsGone(v: View, u: User, ps: seq<Peer>, w: World, k: Kind)
    requires v.inbound.key != "" && u in v.peers && Remove(v, u, ps, w, k).1
    ensures var now := Remove(v, u, ps, w, k).0;
      && now.peers == v.peers - {u} && now.file == Rendered(v.inbound, ps, k.lib)
      && now.file.Some? && (k.managed ==> now.loaded)
  {
    SyncSucceedsIff(v.(peers := v.peers - {u}), ps, w, k);
  }

  // ----------------------------------------------------------- idle, and a new agent

  /**
    An interface whose binding the push no longer names goes down and forgets its key,
    in memory and for the next agent; one that is named, or has no binding, is left.
  */
  lemma RetainedIff(v: View, keep: set<Id>)
    ensures v.id.Some? && v.id.value in keep ==> Retain(v, keep) == v
    ensures v.id.None? ==> Retain(v, keep) == v
    ensures v.id.Some? && v.id.value !in keep ==>
              var now := Retain(v, keep);
              && now.id == None && now.inbound == v.inbound.(key := "") && now.peers == v.peers
              && (v.inbound.key != "" || v.started ==>
                    !now.loaded && !now.started && now.saved == Some(Saved(now.inbound, None, v.peers)))
  {
    if v.inbound.key == "" {
      assert v.inbound.(key := "") == v.inbound;
    }
  }

  /** The next agent after a write finds the inbound, the binding and the users as they were. */
  lemma SavedIsFound(v: View, text: Option<string>, k: Kind)
    requires AllPeersValid(v.peers, k.lib) && Installed(v.inbound, k)
    ensures var found := Restored(Written(v, text), k);
      found.inbound == v.inbound && found.id == v.id && found.peers == v.peers && found.file == text
  {
    AllValidKept(v.peers, k.lib);
  }

  /**
    Field by field, of whatever was saved for this interface: the install's hooks, its
    port where none was saved, the rest as saved, and the users whose peers are fit.
  */
  lemma FoundFieldByField(v: View, k: Kind)
    requires v.saved.Some? && v.saved.value.inbound.iface == k.install.iface
    ensures var found, s := Restored(v, k), v.saved.value; var x := found.inbound;
      && x.postUp == k.install.postUp && x.postDown == k.install.postDown
      && x.listenPort == (if s.inbound.listenPort != 0 then s.inbound.listenPort else k.install.listenPort)
      && x.iface == s.inbound.iface && x.key == s.inbound.key && x.address == s.inbound.address
      && x.obf == s.inbound.obf && x.geometry == s.inbound.geometry && x.chain == s.inbound.chain
      && found.id == s.id && !found.started && found.file == v.file
      && (forall u :: u in found.peers <==> u in s.peers && PeerOk(s.peers[u], k.lib))
      && (forall u :: u in found.peers ==> found.peers[u] == s.peers[u])
  {
  }

  /** Nothing was saved, or for another interface: the install's inbound, nobody's binding, no users. */
  lemma NothingIsFound(v: View, k: Kind)
    requires v.saved.None? || v.saved.value.inbound.iface != k.install.iface
    ensures var found := Restored(v, k);
      && found.inbound == k.install && found.id == None && found.peers == map[] && found.file == v.file
      && !found.started
  {
  }

  /** An agent starts an interface exactly when it has none to start, or one that renders and comes up. */
  lemma StartSucceedsIff(v: View, ps: seq<Peer>, w: World, k: Kind)
    ensures Start(v, ps, w, k).1 <==>
              v.inbound.key == "" || (Rendered(v.inbound, ps, k.lib).Some? && MachineReloads(w, k))
    ensures Start(v, ps, w, k).1 && v.inbound.key != "" ==>
              var now := Start(v, ps, w, k).0;
              && now.file == Rendered(v.inbound, ps, k.lib) && now.started
              && (now.loaded <==> k.managed && (w.linkUp ==> v.loaded && now.file == v.file))
  {
  }
}
