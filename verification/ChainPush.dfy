/**
  Who draws the cascade on this node: the chain block of a push, the hand-off
  the user's cores are given for it, and what of it is stored
  (server.go:1305-1414, store.go:176-190, and the restore).
*/
module ChainPush {
  import opened Common
  import opened ChainBlock
  import opened ChainManager

  /** A core that takes cascade drawings, with the engine it is told by. */
  type Core(==, !new, 0)

  datatype Cascade = Cascade(engine: Engine, drawing: Drawing)

  /** What each receiving core was last handed: a drawing, or nothing to draw. */
  type Hands = map<Core, Option<Drawing>>

  /** A part of the node that stays the same: its machine and its receiving cores. */
  datatype Node = Node(machine: Machine, cores: map<Core, Engine>)

  /** The node: the chain manager, the cores' hands, and the stored push. */
  datatype PushState = PushState(chain: ChainManager.State, hands: Hands, stored: Option<Block>,
      storedCascade: Option<Cascade>)

  /** Everyone told: the named engine's cores draw, every other core draws nothing. */
  function Told(cores: map<Core, Engine>, to: Option<Cascade>): Hands {
    map c | c in cores :: if to.Some? && cores[c] == to.value.engine then Some(to.value.drawing) else None
  }

  datatype Orders = Tell(to: Option<Cascade>) | KeepWhatYouHave

  /** What the cores are told for a block in force. */
  function OrdersOf(b: Block): Orders {
    if b.userCore.None? then Tell(None)
    else if Payload(b.userCore.value).None? then KeepWhatYouHave
    else Tell(Some(Cascade(b.userCore.value.engine, Payload(b.userCore.value).value)))
  }

  /** The block whose hand-off is drawn: the pushed one, unless it was refused while another is in force. */
  function HandoffBlock(chain: ChainManager.State, pushed: Option<Block>, ok: bool): Option<Block> {
    if !ok && chain.accepted.Some? then chain.accepted else pushed
  }

  function OrdersFor(chain: ChainManager.State, handoff: Option<Block>, cascade: Option<Cascade>): Orders {
    if !chain.held then Tell(cascade)
    else if handoff.None? then Tell(None)
    else OrdersOf(handoff.value)
  }

  function Obey(n: Node, hands: Hands, o: Orders): Hands {
    if o.Tell? then Told(n.cores, o.to) else hands
  }

  /** acceptedPush's chain: what a restart has to draw. */
  function StoredChain(prev: Option<Block>, pushed: Option<Block>, handoff: Option<Block>, ok: bool, o: Orders)
    : Option<Block>
  {
    if !ok then handoff
    else if o.KeepWhatYouHave? && pushed.Some? then
      Some(pushed.value.(userCore := if prev.Some? then prev.value.userCore else None))
    else pushed
  }

  function Pushed(n: Node, s: PushState, block: Option<Block>, cascade: Option<Cascade>, l: Luck): PushState {
    var (chain, ok) := Applied(n.machine, s.chain, block, l);
    var handoff := HandoffBlock(chain, block, ok);
    var o := OrdersFor(chain, handoff, cascade);
    PushState(chain, Obey(n, s.hands, o), StoredChain(s.stored, block, handoff, ok, o), cascade)
  }

  function NoHands(cores: map<Core, Engine>): Hands {
    map c | c in cores :: None
  }

  /** An agent restart: the processes are gone with the agent, the file and the store are not. */
  function Restarted(n: Node, s: PushState, l: Luck): PushState {
    var (chain, ok) := Applied(n.machine, Fresh(s.chain.disk), s.stored, l);
    var handoff := HandoffBlock(chain, s.stored, ok);
    PushState(chain, Obey(n, NoHands(n.cores), OrdersFor(chain, handoff, s.storedCascade)), s.stored, s.storedCascade)
  }

  /** The server's part of a push, run. */
  class Server {
    const node: Node
    const adapters: seq<Core>
    const manager: Manager
    var hands: Hands
    var stored: Option<Block>
    var storedCascade: Option<Cascade>

    ghost function View(): PushState
      reads this, manager
    {
      PushState(manager.View(), hands, stored, storedCascade)
    }

    ghost predicate Valid()
      reads this
    {
      manager.machine == node.machine && (forall c :: c in adapters <==> c in node.cores) &&
          hands.Keys == node.cores.Keys
    }

    constructor (node: Node, adapters: seq<Core>, disk: Option<Config>)
      requires forall c :: c in adapters <==> c in node.cores
      ensures Valid() && View() == PushState(Fresh(disk), NoHands(node.cores), None, None)
      ensures this.node == node && fresh(manager)
    {
      this.node, this.adapters := node, adapters;
      manager := new Manager(node.machine, disk);
      hands := map c | c in node.cores :: None;
      stored, storedCascade := None, None;
      new;
      assert hands == NoHands(node.cores);
    }

    /** Each receiver is told: its drawing, or that there is none for it. */
    method TellAll(to: Option<Cascade>)
      requires Valid()
      modifies this`hands
      ensures Valid() && hands == Told(node.cores, to)
    {
      for k := 0 to |adapters|
        invariant hands.Keys == node.cores.Keys
        invariant forall i :: 0 <= i < k ==> hands[adapters[i]] == Told(node.cores, to)[adapters[i]]
      {
        var c := adapters[k];
        var mine := None;
        if to.Some? && node.cores[c] == to.value.engine {
          mine := Some(to.value.drawing);
        }
        hands := hands[c := mine];
      }
      forall c | c in node.cores
        ensures hands[c] == Told(node.cores, to)[c]
      {
        assert c in adapters;
      }
      assert hands == Told(node.cores, to);
    }

    method Push(block: Option<Block>, cascade: Option<Cascade>, luck: Luck)
      requires Valid()
      modifies this, manager
      ensures Valid()
      ensures View() == Pushed(node, old(View()), block, cascade, luck)
    {
      var handoff := block;
      var ok := manager.Apply(block, luck);
      if !ok && manager.accepted.Some? {
        handoff := manager.accepted;
      }
      var orders := Tell(cascade);
      if manager.held {
        orders := if handoff.Some? then OrdersOf(handoff.value) else Tell(None);
      }
      if orders.Tell? {
        TellAll(orders.to);
      }
      if !ok {
        stored := handoff;
      } else if orders.KeepWhatYouHave? && block.Some? {
        stored := Some(block.value.(userCore := if stored.Some? then stored.value.userCore else None));
      } else {
        stored := block;
      }
      storedCascade := cascade;
    }
  }

  // ------------------------------------------------------- the cores follow the chain

  /** The hand-off of a block, for cores that had nothing before. */
  function HandsOf(n: Node, b: Block): Hands {
    Obey(n, NoHands(n.cores), OrdersOf(b))
  }

  predicate Drawable(b: Block) {
    OrdersOf(b).Tell?
  }

  /**
    After a push that carries a chain block, the cores are drawn to the block
    the chain has accepted, this one or an earlier one, or to the refused one
    when none is; never to a block the process does not run on while it runs on
    another. The stored block is that same one.
  */
  lemma CoresFollowChain(n: Node, s: PushState, b: Block, cascade: Option<Cascade>, l: Luck)
    requires ChainManager.Inv(s.chain)
    ensures var v := Pushed(n, s, Some(b), cascade, l);
            var followed := if v.chain.accepted.Some? then v.chain.accepted.value else b;
            v.chain.held &&
            (Drawable(followed) ==>
               v.hands == HandsOf(n, followed) && v.stored.Some? && Compact(v.stored.value) == Compact(followed))
  {
    var (chain, ok) := Applied(n.machine, s.chain, Some(b), l);
    if ok {
      SuccessRunsTheBlock(n.machine, s.chain, Some(b), l);
      assert Compact(chain.accepted.value).userCore == Compact(b).userCore;
    }
  }

  // ---------------------------------------------------------------- engine by engine

  /** Every core that takes drawings holds this one if it is of the engine, and none otherwise. */
  ghost predicate OnlyDrawn(n: Node, hands: Hands, e: Engine, drawing: Drawing) {
    hands.Keys == n.cores.Keys &&
    forall c :: c in n.cores ==> hands[c] == if n.cores[c] == e then Some(drawing) else None
  }

  ghost predicate NobodyDraws(n: Node, hands: Hands) {
    hands.Keys == n.cores.Keys && forall c :: c in n.cores ==> hands[c] == None
  }

  /** The block the cores are drawn to: the accepted one, or the pushed one when none is. */
  function Followed(chain: ChainManager.State, pushed: Block): Block {
    if chain.accepted.Some? then chain.accepted.value else pushed
  }

  /** What the cores hold for a user core, half by half; a malformed one leaves them what they held. */
  ghost predicate HoldsHalf(n: Node, hands: Hands, u: UserCore, before: Hands) {
    match u
    case UserCore(Hysteria, None, Some(socks), None, None) => OnlyDrawn(n, hands, Hysteria, SocksHandOff(socks))
    case UserCore(Xray, Some(fragments), None, None, None) => OnlyDrawn(n, hands, Xray, Fragments(fragments))
    case UserCore(Amneziawg, None, None, Some(one), None) =>
      OnlyDrawn(n, hands, Amneziawg, AwgHandOff(Some(one), None))
    case UserCore(Amneziawg, None, None, None, Some(three)) =>
      OnlyDrawn(n, hands, Amneziawg, AwgHandOff(None, Some(three)))
    case UserCore(Amneziawg, None, None, Some(one), Some(three)) =>
      OnlyDrawn(n, hands, Amneziawg, AwgHandOff(Some(one), Some(three)))
    case _ => hands == before
  }

  lemma HandedHalf(n: Node, b: Block, before: Hands)
    requires b.userCore.Some?
    ensures HoldsHalf(n, Obey(n, before, OrdersOf(b)), b.userCore.value, before)
  {
    var u := b.userCore.value;
    match u.engine
    case Hysteria =>
    case Xray =>
    case Amneziawg =>
    case OtherEngine(_) =>
  }

  /**
    Who draws after a push with a chain block, whatever the chain makes of it: with a
    well-formed user core in the block followed, each core of its engine holds exactly
    that engine's half and every other core draws nothing; with none, no core draws;
    with a malformed one, every core keeps what it held.
  */
  lemma WhoDraws(n: Node, s: PushState, b: Block, cascade: Option<Cascade>, l: Luck)
    requires ChainManager.Inv(s.chain)
    ensures var v := Pushed(n, s, Some(b), cascade, l);
      var u := Followed(v.chain, b).userCore;
      if u.Some? then HoldsHalf(n, v.hands, u.value, s.hands) else NobodyDraws(n, v.hands)
  {
    var (chain, ok) := Applied(n.machine, s.chain, Some(b), l);
    var v := Pushed(n, s, Some(b), cascade, l);
    var followed := Followed(v.chain, b);
    if ok {
      SuccessRunsTheBlock(n.machine, s.chain, Some(b), l);
      assert Compact(chain.accepted.value).userCore == Compact(b).userCore;
    }
    assert chain.held;
    assert OrdersFor(chain, HandoffBlock(chain, Some(b), ok), cascade) == OrdersOf(followed);
    if followed.userCore.Some? {
      HandedHalf(n, followed, s.hands);
    }
  }

  /** Without a chain block the cascade of the older form is drawn, by its engine's cores alone; without it, by none. */
  lemma WhoDrawsWithoutChain(n: Node, s: PushState, cascade: Option<Cascade>, l: Luck)
    ensures var v := Pushed(n, s, None, cascade, l);
      && !v.chain.held
      && if cascade.Some? then OnlyDrawn(n, v.hands, cascade.value.engine, cascade.value.drawing)
         else NobodyDraws(n, v.hands)
  {
  }

  /** And after a restart: the same, of the stored block or the stored cascade, by cores that held nothing. */
  lemma WhoDrawsAfterRestart(n: Node, s: PushState, l: Luck)
    ensures var v := Restarted(n, s, l);
      if s.stored.Some? then
        if s.stored.value.userCore.Some? then
          HoldsHalf(n, v.hands, s.stored.value.userCore.value, NoHands(n.cores))
        else NobodyDraws(n, v.hands)
      else if s.storedCascade.Some? then
        OnlyDrawn(n, v.hands, s.storedCascade.value.engine, s.storedCascade.value.drawing)
      else NobodyDraws(n, v.hands)
    ensures NobodyDraws(n, NoHands(n.cores))
  {
    if s.stored.Some? && s.stored.value.userCore.Some? {
      HandedHalf(n, s.stored.value, NoHands(n.cores));
    }
  }

  // ----------------------------------------------------------------- replaying the store

  /** What a fresh agent makes of a stored block: accepted when it can be, held either way. */
  function Rebuilt(n: Node, stored: Option<Block>): Option<Block> {
    if stored.Some? && Acceptable(n.machine, stored.value) then stored else None
  }

  function RebuiltHands(n: Node, stored: Option<Block>, cascade: Option<Cascade>): Hands {
    if stored.Some? then HandsOf(n, stored.value) else Told(n.cores, cascade)
  }

  lemma RestartRebuilds(n: Node, s: PushState, l: Luck)
    requires l.writes
    ensures var v := Restarted(n, s, l);
            v.chain.accepted == Rebuilt(n, s.stored) && v.hands == RebuiltHands(n, s.stored, s.storedCascade) &&
            (v.chain.held <==> s.stored.Some?)
  {
  }

  /** The same chain, whoever draws its users' hand-off. */
  predicate SameChain(a: Block, b: Block) {
    Compact(a).(userCore := None) == Compact(b).(userCore := None)
  }

  /** The engine's verdict is on what a config says, not on its spacing. */
  ghost predicate SpacingIsNothing(m: Machine) {
    forall body, i, j :: m.approves(Config(body, i)) == m.approves(Config(body, j))
  }

  /** Replaying the store rebuilds the pair: the chain in force, and what the cores draw. */
  ghost predicate Replays(n: Node, s: PushState) {
    && s.hands == RebuiltHands(n, s.stored, s.storedCascade)
    && (s.chain.held <==> s.stored.Some?)
    && (s.chain.accepted.Some? <==> Rebuilt(n, s.stored).Some?)
    && (s.chain.accepted.Some? ==> SameChain(s.chain.accepted.value, s.stored.value))
  }

  lemma SameVerdict(m: Machine, a: Block, b: Block)
    requires SpacingIsNothing(m) && SameChain(a, b)
    ensures Acceptable(m, a) <==> Acceptable(m, b)
  {
    if a.config.Some? && b.config.Some? {
      assert Compact(a).(userCore := None).config == Compact(b).(userCore := None).config;
      assert a.config.value.body == b.config.value.body;
      assert m.approves(Config(a.config.value.body, a.config.value.spacing)) ==
          m.approves(Config(a.config.value.body, b.config.value.spacing));
    }
    assert Compact(a).(userCore := None).tunnels == Compact(b).(userCore := None).tunnels;
    assert Compact(a).(userCore := None).singbox == Compact(b).(userCore := None).singbox;
  }

  /** The push was refused in its user core: no core was told anything. */
  predicate NobodyTold(n: Node, s: PushState, block: Option<Block>, cascade: Option<Cascade>, l: Luck) {
    var (chain, ok) := Applied(n.machine, s.chain, block, l);
    OrdersFor(chain, HandoffBlock(chain, block, ok), cascade).KeepWhatYouHave?
  }

  /** The half about the chain holds on every push. */
  lemma PushKeepsChain(n: Node, s: PushState, block: Option<Block>, cascade: Option<Cascade>, l: Luck)
    requires SpacingIsNothing(n.machine) && l.writes
    requires ChainManager.Inv(s.chain) && Replays(n, s)
    ensures var v := Pushed(n, s, block, cascade, l);
            && (v.chain.held <==> v.stored.Some?)
            && (v.chain.accepted.Some? <==> Rebuilt(n, v.stored).Some?)
            && (v.chain.accepted.Some? ==> SameChain(v.chain.accepted.value, v.stored.value))
  {
    var (chain, ok) := Applied(n.machine, s.chain, block, l);
    var v := Pushed(n, s, block, cascade, l);
    if block.Some? {
      if ok {
        SuccessRunsTheBlock(n.machine, s.chain, block, l);
        SameVerdict(n.machine, chain.accepted.value, v.stored.value);
        if Unchanged(s.chain, block.value) {
          SameVerdict(n.machine, s.chain.accepted.value, s.stored.value);
        }
      } else if chain.accepted.Some? && chain.accepted == s.chain.accepted {
        SameVerdict(n.machine, s.chain.accepted.value, s.stored.value);
      }
    }
  }

  /**
    What a push leaves is what a restart rebuilds, exactly when the cores were
    told, or the chain took the block over a stored one, or they draw nothing.
    Otherwise a malformed user core is stored, or none, and a restart then hands
    the cores nothing: a block refused while the one in force has a malformed
    user core, or a first block with one, drawn over a cascade of the older form.
  */
  lemma PushReplaysIff(n: Node, s: PushState, block: Option<Block>, cascade: Option<Cascade>, l: Luck)
    requires SpacingIsNothing(n.machine) && l.writes
    requires ChainManager.Inv(s.chain) && Replays(n, s)
    ensures Replays(n, Pushed(n, s, block, cascade, l)) <==>
            !NobodyTold(n, s, block, cascade, l) ||
            (Applied(n.machine, s.chain, block, l).1 && s.stored.Some?) ||
            s.hands == NoHands(n.cores)
  {
    var (chain, ok) := Applied(n.machine, s.chain, block, l);
    var v := Pushed(n, s, block, cascade, l);
    PushKeepsChain(n, s, block, cascade, l);
    if block.Some? && !ok && chain.accepted.Some? {
      assert v.stored == chain.accepted;
    }
  }

  // ------------------------------------------------------------------- whole runs

  datatype Event =
    | Push(block: Option<Block>, cascade: Option<Cascade>, luck: Luck)
    | Restart(luck: Luck)

  function After(n: Node, s: PushState, e: Event): PushState {
    match e
    case Push(b, c, l) => Pushed(n, s, b, c, l)
    case Restart(l) => Restarted(n, s, l)
  }

  function Run(n: Node, s: PushState, es: seq<Event>): PushState
    decreases |es|
  {
    if es == [] then s else Run(n, After(n, s, es[0]), es[1..])
  }

  /** Writes succeed, and every chain block pushed has a user core that can be drawn, or none. */
  ghost predicate WellFormedRun(es: seq<Event>) {
    forall k :: 0 <= k < |es| ==>
        es[k].luck.writes && (es[k].Push? && es[k].block.Some? ==> Drawable(es[k].block.value))
  }

  ghost predicate Good(n: Node, s: PushState) {
    && ChainManager.Inv(s.chain) && Replays(n, s)
    && (s.chain.accepted.Some? ==> Drawable(s.chain.accepted.value))
    && (s.stored.Some? ==> Drawable(s.stored.value))
  }

  lemma StepKeepsGood(n: Node, s: PushState, e: Event)
    requires SpacingIsNothing(n.machine) && WellFormedRun([e]) && Good(n, s)
    ensures Good(n, After(n, s, e))
  {
    assert [e][0] == e;
    if e.Push? {
      ChainManager.StepKeepsInv(n.machine, s.chain, ChainManager.Push(e.block, e.luck));
      PushReplaysIff(n, s, e.block, e.cascade, e.luck);
    } else {
      ChainManager.StepKeepsInv(n.machine, s.chain, ChainManager.AgentRestart);
      ChainManager.StepKeepsInv(n.machine, Fresh(s.chain.disk), ChainManager.Push(s.stored, e.luck));
      RestartRebuilds(n, s, e.luck);
    }
  }

  /**
    Over any run of pushes, whatever the chain makes of each, and restarts: the
    store rebuilds the chain in force and what every core draws for it, and a
    restart changes neither.
  */
  lemma {:induction false} RunReplays(n: Node, s: PushState, es: seq<Event>, l: Luck)
    requires SpacingIsNothing(n.machine) && WellFormedRun(es) && Good(n, s) && l.writes
    ensures var v := Run(n, s, es); var r := Restarted(n, v, l);
            Good(n, v) && r.hands == v.hands && (r.chain.accepted.Some? <==> v.chain.accepted.Some?) &&
            (v.chain.accepted.Some? ==> SameChain(r.chain.accepted.value, v.chain.accepted.value))
    decreases |es|
  {
    if es == [] {
      RestartRebuilds(n, s, l);
    } else {
      assert [es[0]][0] == es[0];
      StepKeepsGood(n, s, es[0]);
      forall k | 0 <= k < |es[1..]|
        ensures es[1..][k] == es[k + 1]
      {
      }
      RunReplays(n, After(n, s, es[0]), es[1..], l);
    }
  }

  lemma FreshIsGood(n: Node, disk: Option<Config>)
    ensures Good(n, PushState(Fresh(disk), NoHands(n.cores), None, None))
  {
  }

  /**
    A run that leaves what a restart does not rebuild: a block, then one whose user
    core is malformed, then one the chain cannot read.
  */
  lemma RefusedOverMalformed(m: Machine, c: Core, blob: Blob, l: Luck)
    requires m.binary && m.approves(Config(blob, 0)) && l == Luck(true, true, true)
    ensures var n := Node(m, map[c := Hysteria]);
      var good := Block(true, Some(Config(blob, 0)), [], [], Some(UserCore(Hysteria, None, Some(blob), None, None)),
          blob);
      var bad := good.(userCore := Some(UserCore(Hysteria, None, None, None, None)));
      var start := PushState(Fresh(None), NoHands(n.cores), None, None);
      var before := Pushed(n, Pushed(n, start, Some(good), None, l), Some(bad), None, l);
      && ChainManager.Inv(before.chain) && Replays(n, before)
      && !Replays(n, Pushed(n, before, Some(good.(singbox := false)), None, l))
  {
    var n := Node(m, map[c := Hysteria]);
    var good := Block(true, Some(Config(blob, 0)), [], [], Some(UserCore(Hysteria, None, Some(blob), None, None)),
        blob);
    var bad := good.(userCore := Some(UserCore(Hysteria, None, None, None, None)));
    var start := PushState(Fresh(None), NoHands(n.cores), None, None);
    var first := Pushed(n, start, Some(good), None, l);
    var before := Pushed(n, first, Some(bad), None, l);
    assert first.stored == Some(good) && first.chain.accepted == Some(good);
    assert before.chain.accepted == Some(bad) && before.stored == Some(good);
    assert before.hands[c] == Some(SocksHandOff(blob));
    ChainManager.StepKeepsInv(m, start.chain, ChainManager.Push(Some(good), l));
    ChainManager.StepKeepsInv(m, first.chain, ChainManager.Push(Some(bad), l));
    var after := Pushed(n, before, Some(good.(singbox := false)), None, l);
    assert after.stored == Some(bad) && after.hands == before.hands;
    assert RebuiltHands(n, after.stored, None)[c] == None;
  }

  /**
    Another, in which nothing is refused: a cascade of the older form, drawn by the
    core, then a first chain block whose user core is malformed.
  */
  lemma MalformedOverCascade(m: Machine, c: Core, blob: Blob, drawing: Drawing, l: Luck)
    requires m.binary && m.approves(Config(blob, 0)) && l == Luck(true, true, true)
    ensures var n := Node(m, map[c := Hysteria]);
      var bad := Block(true, Some(Config(blob, 0)), [], [], Some(UserCore(Hysteria, None, None, None, None)), blob);
      var start := PushState(Fresh(None), NoHands(n.cores), None, None);
      var before := Pushed(n, start, None, Some(Cascade(Hysteria, drawing)), l);
      var (chain, ok) := Applied(m, before.chain, Some(bad), l);
      && ChainManager.Inv(before.chain) && Replays(n, before) && ok && chain.accepted == Some(bad)
      && !Replays(n, Pushed(n, before, Some(bad), Some(Cascade(Hysteria, drawing)), l))
  {
    var n, cascade := Node(m, map[c := Hysteria]), Some(Cascade(Hysteria, drawing));
    var bad := Block(true, Some(Config(blob, 0)), [], [], Some(UserCore(Hysteria, None, None, None, None)), blob);
    var start := PushState(Fresh(None), NoHands(n.cores), None, None);
    var before := Pushed(n, start, None, cascade, l);
    assert before.hands[c] == Some(drawing);
    ChainManager.StepKeepsInv(m, start.chain, ChainManager.Push(None, l));
    var after := Pushed(n, before, Some(bad), cascade, l);
    assert after.stored == Some(bad.(userCore := None)) && after.hands == before.hands;
    assert RebuiltHands(n, after.stored, cascade)[c] == None;
  }
}
