/**
  Bringing the leg tunnels of a machine to those of the block in force
  (chain/tunnels.go:114-200): the sweep of the others, then each tunnel in turn.

  The machine is the interfaces that exist, each with the config it was raised
  from, and the config files beside the chain's own. What each command answers is
  the environment's: any take-down, any write and any removal may fail.
*/
module Tunnels {
  import opened Common
  import TunnelText

  type Conf(==, !new, 0)      // a config text; no accepted one is empty

  datatype Iface = Iface(name: string)

  datatype Tunnel = Tunnel(iface: Iface, conf: Conf)

  /** Interfaces with the config each was raised from, if this tool raised it; files by interface. */
  datatype Machine = Machine(links: map<Iface, Option<Conf>>, files: map<Iface, Conf>)

  /** A take-down that failed may have removed the interface all the same. */
  datatype Answer = Done | Failed(gone: bool)

  datatype World = World(
    listing: Option<seq<Iface>>,       // what listing the interfaces answers
    takeDown: Iface -> Answer,         // by the sweep
    erase: Iface -> bool,              // removing a config file
    write: nat -> bool,                // for the k-th tunnel of the block
    down: nat -> Answer,
    up: nat -> bool)

  predicate IsLeg(i: Iface) { TunnelText.LegName(i.name) }

  function Named(ts: seq<Tunnel>): set<Iface> {
    set k | 0 <= k < |ts| :: ts[k].iface
  }

  function Gone(a: Answer): bool { a.Done? || a.gone }

  ghost predicate ListingRight(m: Machine, w: World) {
    w.listing.Some? ==> forall i :: i in w.listing.value <==> i in m.links
  }

  // ------------------------------------------------------------------- the sweep

  predicate Doomed(m: Machine, wanted: set<Iface>, i: Iface) {
    i in m.links && IsLeg(i) && i !in wanted
  }

  function Swept(m: Machine, wanted: set<Iface>, w: World): Machine {
    Machine(map i | i in m.links && !(Doomed(m, wanted, i) && Gone(w.takeDown(i))) :: m.links[i],
            map i | i in m.files && !(IsLeg(i) && i !in wanted && w.erase(i)) :: m.files[i])
  }

  ghost predicate SweepOk(m: Machine, wanted: set<Iface>, w: World) {
    w.listing.Some? && forall i :: Doomed(m, wanted, i) ==> w.takeDown(i).Done?
  }

  // ----------------------------------------------------------------- one tunnel

  /** Left alone: the file is already this text and the interface exists. */
  predicate Kept(m: Machine, t: Tunnel) {
    t.iface in m.links && t.iface in m.files && m.files[t.iface] == t.conf
  }

  /** The machine after the k-th tunnel; the commands issued; whether it came up. */
  function RaiseOne(m: Machine, t: Tunnel, k: nat, w: World): (r: (Machine, nat, bool)) {
    if Kept(m, t) then (m, 0, true)
    else if !w.write(k) then (m, 0, false)
    else
      var written := m.(files := m.files[t.iface := t.conf]);
      var was := t.iface in m.links;
      var down := if was && Gone(w.down(k)) then written.(links := m.links - {t.iface}) else written;
      var n := if was then 2 else 1;
      // An interface that exists cannot be raised.
      if t.iface in down.links || !w.up(k) then (down, n, false)
      else (down.(links := down.links[t.iface := Some(t.conf)]), n, true)
  }

  datatype Raised = Raised(m: Machine, commands: nat, done: nat, ok: bool)

  /** The first k tunnels of the block, stopping at one that does not come up. */
  function RaiseAll(m: Machine, ts: seq<Tunnel>, k: nat, w: World): (r: Raised)
    requires k <= |ts|
    ensures r.done <= k && (r.ok ==> r.done == k) && (!r.ok ==> r.done < k)
  {
    if k == 0 then Raised(m, 0, 0, true)
    else
      var before := RaiseAll(m, ts, k - 1, w);
      if !before.ok then before
      else
        var (m', n, ok) := RaiseOne(before.m, ts[k - 1], k - 1, w);
        Raised(m', before.commands + n, if ok then k else k - 1, ok)
  }

  /** The machine after the whole run, and whether it succeeded. */
  function Applied(m: Machine, ts: seq<Tunnel>, w: World): Raised {
    RaiseAll(Swept(m, Named(ts), w), ts, |ts|, w)
  }

  ghost predicate Succeeds(m: Machine, ts: seq<Tunnel>, w: World) {
    SweepOk(m, Named(ts), w) && Applied(m, ts, w).ok
  }

  // ------------------------------------------------------------------ the manager

  ghost predicate NothingDoomed(m: Machine, wanted: set<Iface>) {
    forall i :: !Doomed(m, wanted, i)
  }

  ghost predicate NoneDoomed(wanted: set<Iface>, present: seq<Iface>) {
    forall i :: i in present && IsLeg(i) ==> i in wanted
  }

  ghost predicate AllTaken(wanted: set<Iface>, seen: seq<Iface>, w: World) {
    forall i :: i in seen && IsLeg(i) && i !in wanted ==> w.takeDown(i).Done?
  }

  ghost function LinksLeft(links: map<Iface, Option<Conf>>, wanted: set<Iface>, seen: seq<Iface>, w: World)
    : map<Iface, Option<Conf>>
  {
    map i | i in links && !(i in seen && IsLeg(i) && i !in wanted && Gone(w.takeDown(i))) :: links[i]
  }

  ghost function FilesLeft(files: map<Iface, Conf>, wanted: set<Iface>, seen: seq<Iface>, w: World): map<Iface, Conf> {
    map i | i in files && !(i in seen && IsLeg(i) && i !in wanted && w.takeDown(i).Done? && w.erase(i)) :: files[i]
  }

  lemma OneMoreSwept(links: map<Iface, Option<Conf>>, files: map<Iface, Conf>, wanted: set<Iface>, seen: seq<Iface>,
      i: Iface, w: World)
    ensures LinksLeft(links, wanted, seen + [i], w) ==
            LinksLeft(links, wanted, seen, w) - if IsLeg(i) && i !in wanted && Gone(w.takeDown(i)) then {i} else {}
    ensures FilesLeft(files, wanted, seen + [i], w) ==
            FilesLeft(files, wanted, seen, w) -
            if IsLeg(i) && i !in wanted && w.takeDown(i).Done? && w.erase(i) then {i} else {}
  {
  }

  /** The listing names the interfaces, so sweeping it is sweeping them. */
  lemma ListingDecides(m: Machine, wanted: set<Iface>, w: World)
    requires ListingRight(m, w) && w.listing.Some?
    ensures AllTaken(wanted, w.listing.value, w) <==> SweepOk(m, wanted, w)
    ensures NothingDoomed(m, wanted) <==> NoneDoomed(wanted, w.listing.value)
    ensures LinksLeft(m.links, wanted, w.listing.value, w) == Swept(m, wanted, w).links
    ensures (map i | i in FilesLeft(m.files, wanted, w.listing.value, w) &&
            !(IsLeg(i) && i !in wanted && w.erase(i)) :: m.files[i]) == Swept(m, wanted, w).files
  {
    forall i ensures Doomed(m, wanted, i) <==> (i in w.listing.value && IsLeg(i) && i !in wanted) {
    }
  }

  lemma RaiseNext(m: Machine, ts: seq<Tunnel>, k: nat, w: World)
    requires k < |ts| && RaiseAll(m, ts, k, w).ok
    ensures var before := RaiseAll(m, ts, k, w);
      var one := RaiseOne(before.m, ts[k], k, w);
      RaiseAll(m, ts, k + 1, w) == Raised(one.0, before.commands + one.1, if one.2 then k + 1 else k, one.2)
  {
  }

  /** A run that stopped is the run over the tunnels it reached. */
  lemma {:induction false} StoppedStays(m: Machine, ts: seq<Tunnel>, k: nat, w: World)
    requires k <= |ts| && (!RaiseAll(m, ts, k, w).ok || k == |ts|)
    ensures RaiseAll(m, ts, |ts|, w) == RaiseAll(m, ts, k, w)
    decreases |ts| - k
  {
    if k < |ts| {
      assert RaiseAll(m, ts, k + 1, w) == RaiseAll(m, ts, k, w);
      StoppedStays(m, ts, k + 1, w);
    }
  }

  class Manager {
    var links: map<Iface, Option<Conf>>
    var files: map<Iface, Conf>
    var commands: nat

    ghost function State(): Machine
      reads this
    {
      Machine(links, files)
    }

    constructor (l: map<Iface, Option<Conf>>, f: map<Iface, Conf>)
      ensures State() == Machine(l, f) && commands == 0
    {
      links, files, commands := l, f, 0;
    }

    /** One interface of the listing: taken down with its file, unless it is wanted or no leg. */
    method SweepOne(iface: Iface, wanted: set<Iface>, w: World) returns (ok: bool)
      modifies this
      ensures IsLeg(iface) && iface !in wanted ==> ok == w.takeDown(iface).Done? && commands == old(commands) + 1
      ensures !IsLeg(iface) || iface in wanted ==> ok && commands == old(commands)
      ensures links == old(links) - if IsLeg(iface) && iface !in wanted && Gone(w.takeDown(iface)) then {iface} else {}
      ensures files == old(files) - if IsLeg(iface) && iface !in wanted && ok && w.erase(iface) then {iface} else {}
    {
      if !IsLeg(iface) || iface in wanted {
        return true;
      }
      commands := commands + 1;
      ok := w.takeDown(iface).Done?;
      if Gone(w.takeDown(iface)) {
        links := links - {iface};
      }
      if ok && w.erase(iface) {
        files := files - {iface};
      }
    }

    /** The interfaces of the listing in turn; one that will not go is noted and passed over. */
    method SweepLinks(present: seq<Iface>, wanted: set<Iface>, w: World) returns (ok: bool)
      modifies this
      ensures links == LinksLeft(old(links), wanted, present, w)
      ensures files == FilesLeft(old(files), wanted, present, w)
      ensures ok <==> AllTaken(wanted, present, w)
      ensures NoneDoomed(wanted, present) ==> commands == old(commands)
    {
      ok := true;
      for k := 0 to |present|
        invariant links == LinksLeft(old(links), wanted, present[..k], w)
        invariant files == FilesLeft(old(files), wanted, present[..k], w)
        invariant ok <==> AllTaken(wanted, present[..k], w)
        invariant NoneDoomed(wanted, present) ==> commands == old(commands)
      {
        assert present[..k + 1] == present[..k] + [present[k]];
        assert present[k] in present;
        var taken := SweepOne(present[k], wanted, w);
        OneMoreSwept(old(links), old(files), wanted, present[..k], present[k], w);
        ok := ok && taken;
      }
      assert present[..|present|] == present;
    }

    /** sweepTunnels: by the interfaces that exist, then by the files left over. */
    method SweepTunnels(wanted: set<Iface>, w: World) returns (ok: bool)
      requires ListingRight(State(), w)
      modifies this
      ensures ok <==> SweepOk(old(State()), wanted, w)
      ensures w.listing.None? ==> State() == old(State()) && commands == old(commands)
      ensures w.listing.Some? ==> State() == Swept(old(State()), wanted, w)
      ensures NothingDoomed(old(State()), wanted) ==> commands == old(commands)
    {
      if w.listing.None? {
        return false;
      }
      ghost var was := State();
      ok := SweepLinks(w.listing.value, wanted, w);
      ListingDecides(was, wanted, w);
      files := map i | i in files && !(IsLeg(i) && i !in wanted && w.erase(i)) :: files[i];
    }

    /** One tunnel of the block. */
    method RaiseTunnel(t: Tunnel, k: nat, w: World) returns (ok: bool)
      modifies this
      ensures (State(), commands - old(commands), ok) == RaiseOne(old(State()), t, k, w)
    {
      var was := t.iface in links;
      if was && t.iface in files && files[t.iface] == t.conf {
        return true;
      }
      if !w.write(k) {
        return false;
      }
      files := files[t.iface := t.conf];
      if was {
        commands := commands + 1;
        if w.down(k).Done? || w.down(k).gone {
          links := links - {t.iface};
        }
      }
      commands := commands + 1;
      if t.iface in links || !w.up(k) {
        return false;
      }
      links := links[t.iface := Some(t.conf)];
      return true;
    }

    /** The tunnels in the block's order, up to one that fails. */
    method RaiseTunnels(ts: seq<Tunnel>, w: World) returns (ok: bool)
      modifies this
      ensures var r := RaiseAll(old(State()), ts, |ts|, w);
        State() == r.m && ok == r.ok && commands - old(commands) == r.commands
    {
      ok := true;
      var k := 0;
      while k < |ts| && ok
        invariant 0 <= k <= |ts|
        invariant var r := RaiseAll(old(State()), ts, k, w);
          State() == r.m && ok == r.ok && commands - old(commands) == r.commands
      {
        RaiseNext(old(State()), ts, k, w);
        ok := RaiseTunnel(ts[k], k, w);
        k := k + 1;
      }
      StoppedStays(old(State()), ts, k, w);
    }

    /** applyTunnels: the sweep, then the tunnels. */
    method ApplyTunnels(ts: seq<Tunnel>, w: World) returns (ok: bool)
      requires ListingRight(State(), w)
      modifies this
      ensures ok <==> Succeeds(old(State()), ts, w)
      ensures w.listing.None? ==> State() == old(State())
      ensures w.listing.Some? && !SweepOk(old(State()), Named(ts), w) ==> State() == Swept(old(State()), Named(ts), w)
      ensures SweepOk(old(State()), Named(ts), w) ==> State() == Applied(old(State()), ts, w).m
      ensures ok && NothingDoomed(old(State()), Named(ts)) ==>
                commands - old(commands) == Applied(old(State()), ts, w).commands
    {
      ok := SweepTunnels(Named(ts), w);
      if ok {
        ok := RaiseTunnels(ts, w);
      }
    }
  }
}
