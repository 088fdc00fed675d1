/**
  The chain block as it travels (dto.NodeChain, dto.ChainUserCore). JSON is an
  opaque value; a config also carries its spacing, which the engine is not
  asked about.
*/
module ChainBlock {
  import opened Common

  type Blob(==, !new, 0)

  datatype Config = Config(body: Blob, spacing: nat)

  datatype Engine = Xray | Hysteria | Amneziawg | OtherEngine(id: nat)

  datatype Mark = Mark(port: int, mark: int)

  datatype UserCore = UserCore(engine: Engine, fragments: Option<Blob>, socks: Option<Blob>,
                               tproxy: Option<Mark>, tproxy3: Option<Mark>)

  /** What a core is handed to draw. */
  datatype Drawing =
    | Fragments(blob: Blob)
    | SocksHandOff(blob: Blob)
    | AwgHandOff(one: Option<Mark>, three: Option<Mark>)

  /** Payload: a user core whose halves do not match its engine is refused. */
  function Payload(u: UserCore): Option<Drawing> {
    match u.engine
    case Hysteria =>
      if u.socks.None? || u.fragments.Some? || u.tproxy.Some? || u.tproxy3.Some? then None
      else Some(SocksHandOff(u.socks.value))
    case Xray =>
      if u.fragments.None? || u.socks.Some? || u.tproxy.Some? || u.tproxy3.Some? then None
      else Some(Fragments(u.fragments.value))
    case Amneziawg =>
      if (u.tproxy.None? && u.tproxy3.None?) || u.fragments.Some? || u.socks.Some? then None
      else Some(AwgHandOff(u.tproxy, u.tproxy3))
    case OtherEngine(_) => None
  }

  datatype Block = Block(singbox: bool, config: Option<Config>, tunnels: seq<Blob>, socks: seq<int>,
                         userCore: Option<UserCore>, rest: Blob)

  /** compactBlock. */
  function Compact(b: Block): Block {
    if b.config.Some? then b.(config := Some(Config(b.config.value.body, 0))) else b
  }

  /** tproxyPortOf: the two interfaces share one listener. */
  function TProxyPortOf(b: Block): int {
    if b.userCore.None? then 0
    else
      var u := b.userCore.value;
      if u.tproxy.Some? && u.tproxy.value.port > 0 then u.tproxy.value.port
      else if u.tproxy3.Some? && u.tproxy3.value.port > 0 then u.tproxy3.value.port
      else 0
  }

  // ------------------------------------------------------------- what the two answer

  /** Two blocks come to the same exactly when nothing tells them apart but the spacing of their config. */
  lemma SameCompactIff(a: Block, b: Block)
    ensures Compact(a) == Compact(b) <==>
              && a.singbox == b.singbox && a.tunnels == b.tunnels && a.socks == b.socks
              && a.userCore == b.userCore && a.rest == b.rest
              && (a.config.Some? <==> b.config.Some?)
              && (a.config.Some? && b.config.Some? ==> a.config.value.body == b.config.value.body)
  {
    if a.config.Some? && b.config.Some? {
      assert Compact(a).config.value.body == a.config.value.body;
      assert Compact(b).config.value.body == b.config.value.body;
    }
  }

  predicate SteersTo(t: Option<Mark>, port: int) { t.Some? && t.value.port == port }

  /** The port reserved for the hand-off is the 1.x interface's if it is steered anywhere, else the 3.1 one's. */
  lemma TProxyPortIff(b: Block, u: UserCore, port: int)
    requires b.userCore == Some(u) && port > 0
    ensures SteersTo(u.tproxy, port) ==> TProxyPortOf(b) == port
    ensures SteersTo(u.tproxy3, port) && (u.tproxy.None? || u.tproxy.value.port <= 0) ==> TProxyPortOf(b) == port
    ensures TProxyPortOf(b) == port ==> SteersTo(u.tproxy, port) || SteersTo(u.tproxy3, port)
  {
  }

  /** There is one unless neither interface is steered to any. */
  lemma NoTProxyPortIff(b: Block)
    ensures TProxyPortOf(b) <= 0 <==>
              forall u :: b.userCore == Some(u) ==>
                forall port :: port > 0 ==> !SteersTo(u.tproxy, port) && !SteersTo(u.tproxy3, port)
    ensures TProxyPortOf(b) >= 0
  {
    if TProxyPortOf(b) > 0 {
      TProxyPortIff(b, b.userCore.value, TProxyPortOf(b));
    } else if b.userCore.Some? {
      var u := b.userCore.value;
      forall port | port > 0 ensures !SteersTo(u.tproxy, port) && !SteersTo(u.tproxy3, port) {
        TProxyPortIff(b, u, port);
      }
    }
  }
}
