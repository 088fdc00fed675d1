/** The chain as its own process (chain.go): Manager.Apply, stop, fail and what they keep. */
module ChainManager {
  import opened Common
  import opened ChainBlock

  /** What this machine can run: the same answers to the same questions. */
  datatype Machine = Machine(binary: bool, approves: Config -> bool, validTunnel: Blob -> bool)

  /** How one apply fares with the disk, the tunnels and the process. */
  datatype Luck = Luck(writes: bool, raises: bool, starts: bool)

  /**
    `supervised`: processes started and not stopped, which their supervisor may
    start again; `alive`: those running now; `disk`: the config file.
  */
  datatype State = State(proc: Option<nat>, supervised: set<nat>, alive: set<nat>, spawned: nat,
                         socks: seq<int>, tproxyPort: int, accepted: Option<Block>,
                         held: bool, failed: bool, disk: Option<Config>)

  /** Refused without touching anything: another engine, no config, or a tunnel this agent will not raise. */
  predicate Readable(m: Machine, b: Block) {
    b.singbox && b.config.Some? && forall t :: t in b.tunnels ==> m.validTunnel(t)
  }

  predicate Acceptable(m: Machine, b: Block) {
    Readable(m, b) && m.binary && m.approves(b.config.value)
  }

  predicate Running(s: State) {
    s.proc.Some? && s.proc.value in s.alive
  }

  predicate Unchanged(s: State, b: Block) {
    s.accepted.Some? && Running(s) && Compact(s.accepted.value) == Compact(b)
  }

  function Fail(s: State): State {
    s.(held := true, failed := true)
  }

  function Killed(s: State): State {
    if s.proc.None? then s
    else s.(supervised := s.supervised - {s.proc.value}, alive := s.alive - {s.proc.value})
  }

  /** The block in force: its config on disk, its ports recorded, the old process stopped. */
  function Accept(s: State, b: Block): State
    requires b.config.Some?
  {
    Killed(s.(accepted := Some(b), socks := b.socks, tproxyPort := TProxyPortOf(b), held := true, failed := false,
        disk := b.config))
  }

  function Started(s: State): State {
    s.(proc := Some(s.spawned), supervised := s.supervised + {s.spawned}, alive := s.alive + {s.spawned},
        spawned := s.spawned + 1)
  }

  function Stop(s: State): State {
    Killed(s).(proc := None, accepted := None, socks := [], tproxyPort := 0, held := false, failed := false)
  }

  /** A readable block that is not the one running: checked, put in force, and started. */
  function Replaced(m: Machine, s: State, b: Block, l: Luck): (State, bool)
    requires b.config.Some?
  {
    if !m.binary || !m.approves(b.config.value) || !l.writes then (Fail(s), false)
    else if !l.raises || !l.starts then (Fail(Accept(s, b)), false)
    else (Started(Accept(s, b)), true)
  }

  /** Apply: the state after, and whether it reports success. */
  function Applied(m: Machine, s: State, block: Option<Block>, l: Luck): (State, bool) {
    if block.None? then (Stop(s), true)
    else
      var b := block.value;
      if !Readable(m, b) then (Fail(s), false)
      else if Unchanged(s, b) then (s, true)
      else Replaced(m, s, b, l)
  }

  function Fresh(disk: Option<Config>): State {
    State(None, {}, {}, 0, [], 0, None, false, false, disk)
  }

  datatype Transport = Tcp | Udp
  datatype Reserved = Reserved(tproxy: bool, port: int, transport: Transport)

  ghost predicate IsReserved(s: State, r: Reserved) {
    r.port > 0 && if r.tproxy then r.port == s.tproxyPort else r.transport == Tcp && r.port in s.socks
  }

  /** A Manager as it runs. */
  class Manager {
    const machine: Machine
    var proc: Option<nat>
    var supervised: set<nat>
    var alive: set<nat>
    var spawned: nat
    var socks: seq<int>
    var tproxyPort: int
    var accepted: Option<Block>
    var held: bool
    var failed: bool
    var disk: Option<Config>

    ghost function View(): State
      reads this
    {
      State(proc, supervised, alive, spawned, socks, tproxyPort, accepted, held, failed, disk)
    }

    constructor (machine: Machine, disk: Option<Config>)
      ensures View() == Fresh(disk) && this.machine == machine
    {
      this.machine, this.disk := machine, disk;
      proc, supervised, alive, spawned := None, {}, {}, 0;
      socks, tproxyPort, accepted, held, failed := [], 0, None, false, false;
    }

    method Kill(p: nat)
      modifies this`supervised, this`alive
      ensures supervised == old(supervised) - {p} && alive == old(alive) - {p}
    {
      supervised, alive := supervised - {p}, alive - {p};
    }

    method Withdraw()
      modifies this
      ensures View() == Stop(old(View()))
    {
      var was := proc;
      proc, accepted, socks, tproxyPort := None, None, [], 0;
      held, failed := false, false;
      if was.Some? {
        Kill(was.value);
      }
    }

    method Refuse()
      modifies this`held, this`failed
      ensures View() == Fail(old(View()))
    {
      held, failed := true, true;
    }

    method IsReadable(b: Block) returns (ok: bool)
      ensures ok <==> Readable(machine, b)
    {
      if !b.singbox || b.config.None? {
        return false;
      }
      for k := 0 to |b.tunnels|
        invariant forall t :: t in b.tunnels[..k] ==> machine.validTunnel(t)
      {
        if !machine.validTunnel(b.tunnels[k]) {
          return false;
        }
      }
      assert b.tunnels[..|b.tunnels|] == b.tunnels;
      return true;
    }

    method PutInForce(b: Block)
      requires b.config.Some?
      modifies this
      ensures View() == Accept(old(View()), b)
    {
      disk := b.config;
      accepted, socks, tproxyPort := Some(b), b.socks, TProxyPortOf(b);
      held, failed := true, false;
      if proc.Some? {
        Kill(proc.value);
      }
    }

    method Spawn()
      modifies this
      ensures View() == Started(old(View()))
    {
      proc := Some(spawned);
      supervised, alive := supervised + {spawned}, alive + {spawned};
      spawned := spawned + 1;
    }

    method Replace(b: Block, luck: Luck) returns (ok: bool)
      requires b.config.Some?
      modifies this
      ensures (View(), ok) == Replaced(machine, old(View()), b, luck)
    {
      if !machine.binary || !machine.approves(b.config.value) {
        Refuse();
        return false;
      }
      if !luck.writes {
        Refuse();
        return false;
      }
      PutInForce(b);
      if !luck.raises || !luck.starts {
        Refuse();
        return false;
      }
      Spawn();
      return true;
    }

    method Apply(block: Option<Block>, luck: Luck) returns (ok: bool)
      modifies this
      ensures (View(), ok) == Applied(machine, old(View()), block, luck)
    {
      if block.None? {
        Withdraw();
        return true;
      }
      var b := block.value;
      var readable := IsReadable(b);
      if !readable {
        Refuse();
        return false;
      }
      if accepted.Some? && proc.Some? && proc.value in alive && Compact(accepted.value) == Compact(b) {
        return true;
      }
      ok := Replace(b, luck);
    }

    /** reservedPortsLocked. */
    method ReservedPorts() returns (out: seq<Reserved>)
      ensures forall r :: r in out <==> IsReserved(View(), r)
    {
      out := [];
      for k := 0 to |socks|
        invariant forall r :: r in out <==> !r.tproxy && r.transport == Tcp && r.port > 0 && r.port in socks[..k]
      {
        assert socks[..k + 1] == socks[..k] + [socks[k]];
        if socks[k] > 0 {
          out := out + [Reserved(false, socks[k], Tcp)];
        }
      }
      assert socks[..|socks|] == socks;
      if tproxyPort > 0 {
        var both := [Reserved(true, tproxyPort, Tcp), Reserved(true, tproxyPort, Udp)];
        assert forall r :: r in both <==> r == both[0] || r == both[1];
        out := out + both;
      }
    }
  }

  // ------------------------------------------------------------------- whole runs

  datatype Event =
    | Push(block: Option<Block>, luck: Luck)
    | Crash(p: nat)
    | Respawn(p: nat)   // the supervisor's
    | AgentRestart

  function After(m: Machine, s: State, e: Event): State {
    match e
    case Push(b, l) => Applied(m, s, b, l).0
    case Crash(p) => s.(alive := s.alive - {p})
    case Respawn(p) => if p in s.supervised then s.(alive := s.alive + {p}) else s
    case AgentRestart => Fresh(s.disk)
  }

  function Run(m: Machine, s: State, es: seq<Event>): State
    decreases |es|
  {
    if es == [] then s else Run(m, After(m, s, es[0]), es[1..])
  }

  ghost predicate Inv(s: State) {
    && s.alive <= s.supervised
    && (forall p :: p in s.supervised ==> s.proc == Some(p) && p < s.spawned)
    && (if s.accepted.Some? then
          s.held && s.accepted.value.config.Some? && s.disk == s.accepted.value.config &&
          s.socks == s.accepted.value.socks && s.tproxyPort == TProxyPortOf(s.accepted.value)
        else
          s.socks == [] && s.tproxyPort == 0 && s.proc.None?)
  }

  ghost predicate HoldsPort(b: Block, r: Reserved) {
    if r.tproxy then r.port == TProxyPortOf(b) else r.port in b.socks
  }

  lemma StepKeepsInv(m: Machine, s: State, e: Event)
    requires Inv(s)
    ensures Inv(After(m, s, e))
  {
  }

  /**
    Over any run of pushes, crashes, respawns and agent restarts: at most one
    chain process is alive and it is the recorded one; while a block is
    accepted its config is the one on disk and the ports reserved are its own,
    otherwise none is.
  */
  lemma {:induction false} RunKeepsInv(m: Machine, s: State, es: seq<Event>)
    requires Inv(s)
    ensures Inv(Run(m, s, es))
    ensures var v := Run(m, s, es);
            (forall p, q :: p in v.alive && q in v.alive ==> p == q && v.proc == Some(p)) &&
            (v.accepted.Some? ==> v.disk == v.accepted.value.config) &&
            (forall r :: IsReserved(v, r) ==> v.accepted.Some? && HoldsPort(v.accepted.value, r))
    decreases |es|
  {
    if es != [] {
      StepKeepsInv(m, s, es[0]);
      RunKeepsInv(m, After(m, s, es[0]), es[1..]);
    }
  }

  /**
    A block refused before it is accepted changes nothing the chain runs on:
    the process, the accepted block, its file and its ports. Only the health
    report says so.
  */
  lemma RefusedTouchesNothing(m: Machine, s: State, b: Block, l: Luck)
    requires !Acceptable(m, b) || !l.writes
    ensures var (v, ok) := Applied(m, s, Some(b), l);
            (ok <==> Readable(m, b) && Unchanged(s, b)) && v.(held := s.held, failed := s.failed) == s &&
                (!ok ==> v.held && v.failed)
  {
  }

  /** The block in force pushed again, spacing aside, is not a restart: nothing at all changes. */
  lemma ReapplyIsNothing(m: Machine, s: State, b: Block, l: Luck)
    requires Unchanged(s, b) && Readable(m, b)
    ensures Applied(m, s, Some(b), l) == (s, true)
  {
  }

  /** An acceptable block is accepted whatever the tunnels and the process then do. */
  lemma AcceptedWhateverFollows(m: Machine, s: State, b: Block, l: Luck)
    requires Inv(s) && Acceptable(m, b) && l.writes
    ensures var v := Applied(m, s, Some(b), l).0;
            v.held && v.accepted.Some? && Compact(v.accepted.value) == Compact(b)
    ensures Applied(m, s, Some(b), l).1 ==> Running(Applied(m, s, Some(b), l).0)
  {
  }

  /** A push that reports success runs exactly its block; one without a chain leaves none. */
  lemma SuccessRunsTheBlock(m: Machine, s: State, block: Option<Block>, l: Luck)
    requires Inv(s) && Applied(m, s, block, l).1
    ensures var v := Applied(m, s, block, l).0;
            block.Some? ==>
                v.accepted.Some? && Compact(v.accepted.value) == Compact(block.value) &&
                Running(v) && v.alive == {v.proc.value}
    ensures var v := Applied(m, s, block, l).0;
            block.None? ==> v.accepted.None? && !v.held && v.alive == {}
  {
    var v := Applied(m, s, block, l).0;
    StepKeepsInv(m, s, Push(block, l));
    forall p | p in v.alive
      ensures v.proc == Some(p)
    {
      assert p in v.supervised;
    }
  }

  // -------------------------------------------------------------- what is reported

  /** A push succeeds exactly when it withdraws the chain, repeats the one running, or every step goes through. */
  lemma ApplySucceedsIff(m: Machine, s: State, block: Option<Block>, l: Luck)
    ensures Applied(m, s, block, l).1 <==>
              || block.None?
              || (var b := block.value;
                  && b.singbox && b.config.Some? && (forall t :: t in b.tunnels ==> m.validTunnel(t))
                  && (Unchanged(s, b) ||
                      (m.binary && m.approves(b.config.value) && l.writes && l.raises && l.starts)))
  {
  }

  /**
    The node's card reads held while a chain is asked for, and failed exactly when the
    push failed, or repeats the running block while an earlier failure stands: that one
    returns before anything clears it.
  */
  lemma HealthIff(m: Machine, s: State, block: Option<Block>, l: Luck)
    requires Inv(s)
    ensures var (v, ok) := Applied(m, s, block, l);
      && (v.held <==> block.Some?)
      && (v.failed <==> !ok || (block.Some? && Unchanged(s, block.value) && s.failed))
  {
  }

  /** A block runs, another is refused, the first is pushed again: it runs, the push succeeds, and the failure stays. */
  lemma FailureOutlivesItsBlock(m: Machine, good: Block, bad: Block, l: Luck, again: Luck)
    requires Acceptable(m, good) && !Readable(m, bad) && l == Luck(true, true, true)
    ensures var running := Applied(m, Fresh(None), Some(good), l).0;
      var refused := Applied(m, running, Some(bad), l).0;
      var (v, ok) := Applied(m, refused, Some(good), again);
      ok && Running(v) && v.accepted == Some(good) && v.failed
  {
    var running := Applied(m, Fresh(None), Some(good), l).0;
    assert Running(running) && running.accepted == Some(good);
    assert Unchanged(Applied(m, running, Some(bad), l).0, good);
  }

  /** A crash ends its process, the supervisor brings back one of its own, a new agent has nothing but the file. */
  lemma ProcessesAfter(m: Machine, s: State, p: nat)
    ensures After(m, s, Crash(p)).alive == s.alive - {p} && After(m, s, Crash(p)).(alive := s.alive) == s
    ensures p in s.supervised ==> After(m, s, Respawn(p)) == s.(alive := s.alive + {p})
    ensures p !in s.supervised ==> After(m, s, Respawn(p)) == s
    ensures var v := After(m, s, AgentRestart);
      v.disk == s.disk && v.proc.None? && v.accepted.None? && !v.held && !v.failed && v.alive == {}
  {
  }
}
