/**
  The AmneziaWG interface file (core/amneziawg/config.go): what is refused before it
  is written, and the text that is written. The 3.1 block of an interface is the
  geometry's own, given here as the lines it comes to.
*/
module AwgConfig {
  import opened Common
  import opened HandOff
  import opened HookText
  import Cidr
  import Ini
  import Numbers
  import WgKey

  type Geometry(==, !new, 0)

  datatype Obfuscation = Obfuscation(
    jc: int, jmin: int, jmax: int,
    s1: int, s2: int, s3: int, s4: int,
    h1: nat, h2: nat, h3: nat, h4: nat,
    slots: seq<string>)                 // I1 to I5, "" for none

  datatype Inbound = Inbound(
    iface: string, listenPort: int, key: string, address: string, obf: Obfuscation,
    postUp: seq<string>, postDown: seq<string>,
    chain: Option<TProxy>, geometry: Option<Geometry>)

  datatype Peer = Peer(key: string, ip: string)

  /**
    What the model does not look into: IPv6 addresses, the lines of a geometry (none
    if it is refused), and how a line names its own interface ("%i").
  */
  datatype Library = Library(six: Cidr.Six, geometryLines: Geometry -> Option<seq<string>>, self: Word)

  // ---------------------------------------------------------------- what is refused

  predicate SlotChar(c: char) {
    || '0' <= c <= '9' || 'a' <= c <= 'f' || 'A' <= c <= 'F'
    || c == 'x' || c == 'X' || c == '<' || c == '>' || c == ' ' || c == 'r' || c == 't'
  }

  /** validateIField. */
  predicate SlotOk(s: string) {
    forall i :: 0 <= i < |s| ==> SlotChar(s[i])
  }

  /** The magic headers: beyond the defaults 1 to 4, and pairwise distinct. */
  predicate HeadersOk(o: Obfuscation) {
    && o.h1 > 4 && o.h2 > 4 && o.h3 > 4 && o.h4 > 4
    && o.h1 != o.h2 && o.h1 != o.h3 && o.h1 != o.h4 && o.h2 != o.h3 && o.h2 != o.h4 && o.h3 != o.h4
  }

  predicate ObfuscationOk(o: Obfuscation) {
    HeadersOk(o) && o.jmin <= o.jmax && forall i :: 0 <= i < |o.slots| ==> SlotOk(o.slots[i])
  }

  /** validate. */
  predicate InboundOk(x: Inbound, lib: Library) {
    && WgKey.Accepted(x.key)
    && if x.geometry.Some? then lib.geometryLines(x.geometry.value).Some? else ObfuscationOk(x.obf)
  }

  predicate PeerOk(p: Peer, lib: Library) {
    WgKey.Accepted(p.key) && p.ip != "" && Cidr.IsPrefix(p.ip, lib.six)
  }

  predicate AllPeersOk(peers: seq<Peer>, lib: Library) {
    forall i {:trigger PeerOk(peers[i], lib)} :: 0 <= i < |peers| ==> PeerOk(peers[i], lib)
  }

  predicate ChainOk(x: Inbound) {
    x.chain.Some? ==> HandOff.Accepted(x.chain.value)
  }

  // -------------------------------------------------------------------- the defaults

  function Port(x: Inbound): int {
    if x.listenPort == 0 then 51820 else x.listenPort
  }

  function ForwardWords(how: seq<string>, dir: string, i: Word): seq<string> {
    ["iptables"] + how + [dir, i, "-j", "ACCEPT"]
  }

  function MasqueradeWords(how: string, network: string, i: Word): seq<string> {
    ["iptables", "-t", "nat", how, "POSTROUTING", "-s", network, "!", "-o", i, "-j", "MASQUERADE"]
  }

  /** The hooks of an interface that names none; MASQUERADE only for a network it can name. */
  function DefaultUp(i: Word, address: string): seq<string> {
    var network := Cidr.PeerNetwork(address);
    [Line(ForwardWords(["-I", "FORWARD", "1"], "-i", i)), Line(ForwardWords(["-I", "FORWARD", "1"], "-o", i))]
    + if network == "" then [] else [Line(MasqueradeWords("-A", network, i))]
  }

  function DefaultDown(i: Word, address: string): seq<string> {
    var network := Cidr.PeerNetwork(address);
    [Line(ForwardWords(["-D", "FORWARD"], "-i", i)), Line(ForwardWords(["-D", "FORWARD"], "-o", i))]
    + if network == "" then [] else [Line(MasqueradeWords("-D", network, i))]
  }

  function OwnUp(x: Inbound, i: Word): seq<string> {
    if x.postUp == [] then DefaultUp(i, x.address) else x.postUp
  }

  function OwnDown(x: Inbound, i: Word): seq<string> {
    if x.postDown == [] then DefaultDown(i, x.address) else x.postDown
  }

  /** The hand-off's lines go after the interface's own on the way up and before them on the way down. */
  function Ups(x: Inbound, i: Word): seq<string>
    requires ChainOk(x)
  {
    OwnUp(x, i) + if x.chain.Some? then AddLines(HookUp(i, x.chain.value)) else []
  }

  function Downs(x: Inbound, i: Word): seq<string>
    requires ChainOk(x)
  {
    (if x.chain.Some? then DelLines(HookDown(i, x.chain.value)) else []) + OwnDown(x, i)
  }

  // ------------------------------------------------------------------------ the text

  function Head(x: Inbound): seq<Ini.Directive> {
    [Ini.Directive("PrivateKey", x.key),
     Ini.Directive("ListenPort", Numbers.PrintInt(Port(x))),
     Ini.Directive("Address", x.address)]
  }

  const KEYS: seq<string> := ["Jc", "Jmin", "Jmax", "S1", "S2", "S3", "S4", "H1", "H2", "H3", "H4"]

  function NumbersOf(o: Obfuscation): (r: seq<int>)
    ensures |r| == 11
  {
    [o.jc, o.jmin, o.jmax, o.s1, o.s2, o.s3, o.s4, o.h1, o.h2, o.h3, o.h4]
  }

  /** Numbers under their keys, in decimal. */
  function Counted(keys: seq<string>, values: seq<int>): (r: seq<Ini.Directive>)
    requires |keys| == |values|
    ensures |r| == |keys|
    ensures forall i :: 0 <= i < |keys| ==> r[i] == Ini.Directive(keys[i], Numbers.PrintInt(values[i]))
    decreases |keys|
  {
    if keys == [] then []
    else
      var n := |keys| - 1;
      Counted(keys[..n], values[..n]) + [Ini.Directive(keys[n], Numbers.PrintInt(values[n]))]
  }

  function Fixed(o: Obfuscation): seq<Ini.Directive> {
    Counted(KEYS, NumbersOf(o))
  }

  function SlotKey(n: nat): string { "I" + Decimal(n) }

  /** The line of one mimicry packet; an empty one has none. */
  function SlotLine(n: nat, value: string): seq<Ini.Directive> {
    if value == "" then [] else [Ini.Directive(SlotKey(n), value)]
  }

  function Slots(values: seq<string>): seq<Ini.Directive>
    decreases |values|
  {
    if values == [] then []
    else
      var n := |values| - 1;
      Slots(values[..n]) + SlotLine(n + 1, values[n])
  }

  function Named(key: string, values: seq<string>): (r: seq<Ini.Directive>)
    ensures |r| == |values| && forall i :: 0 <= i < |r| ==> r[i] == Ini.Directive(key, values[i])
  {
    if values == [] then [] else [Ini.Directive(key, values[0])] + Named(key, values[1..])
  }

  function Hooks(x: Inbound, i: Word): seq<Ini.Directive>
    requires ChainOk(x)
  {
    Named("PostUp", Ups(x, i)) + Named("PostDown", Downs(x, i))
  }

  /** What a 1.x interface file is meant to say of the interface, in order. */
  function Directives(x: Inbound, i: Word): seq<Ini.Directive>
    requires ChainOk(x)
  {
    Head(x) + (Fixed(x.obf) + Slots(x.obf.slots) + Hooks(x, i))
  }

  function PeerDirectives(p: Peer): seq<Ini.Directive> {
    [Ini.Directive("PublicKey", p.key), Ini.Directive("AllowedIPs", p.ip)]
  }

  function PeerLines(p: Peer): seq<string> {
    ["", "[Peer]"] + Ini.PrintAll(PeerDirectives(p))
  }

  function AllPeerLines(peers: seq<Peer>): seq<string> {
    if peers == [] then [] else AllPeerLines(peers[..|peers| - 1]) + PeerLines(peers[|peers| - 1])
  }

  /** The block of the interface's generation. */
  function BlockLines(x: Inbound, lib: Library): seq<string> {
    if x.geometry.Some? then
      var lines := lib.geometryLines(x.geometry.value);
      if lines.Some? then lines.value else []
    else Ini.PrintAll(Fixed(x.obf) + Slots(x.obf.slots))
  }

  function FileLines(x: Inbound, peers: seq<Peer>, lib: Library): seq<string>
    requires ChainOk(x)
  {
    ["[Interface]"] + Ini.PrintAll(Head(x)) + BlockLines(x, lib) + Ini.PrintAll(Hooks(x, lib.self)) +
        AllPeerLines(peers)
  }

  /** Everything renderConfig checks. */
  predicate Renders(x: Inbound, peers: seq<Peer>, lib: Library) {
    && InboundOk(x, lib) && ChainOk(x)
    && AllHooksOk(Ups(x, lib.self)) && AllHooksOk(Downs(x, lib.self))
    && AllPeersOk(peers, lib)
  }

  function Rendered(x: Inbound, peers: seq<Peer>, lib: Library): Option<string> {
    if Renders(x, peers, lib) then Some(Ini.Unlines(FileLines(x, peers, lib))) else None
  }

  // --------------------------------------------------------------------- the renderer

  /** The head and the 1.x block, line by line. */
  method RenderHead(x: Inbound) returns (text: string)
    ensures text == Ini.TextOf(Head(x))
  {
    text := "";
    ghost var ds := [];
    text := Ini.Put(ds, text, "PrivateKey", x.key);
    ds := ds + [Ini.Directive("PrivateKey", x.key)];
    text := Ini.Put(ds, text, "ListenPort", Numbers.PrintInt(Port(x)));
    ds := ds + [Ini.Directive("ListenPort", Numbers.PrintInt(Port(x)))];
    text := Ini.Put(ds, text, "Address", x.address);
    ds := ds + [Ini.Directive("Address", x.address)];
    assert ds == Head(x);
  }

  method RenderNumbers(keys: seq<string>, values: seq<int>) returns (text: string)
    requires |keys| == |values|
    ensures text == Ini.TextOf(Counted(keys, values))
  {
    text := "";
    for i := 0 to |keys|
      invariant text == Ini.TextOf(Counted(keys[..i], values[..i]))
    {
      assert keys[..i + 1][..i] == keys[..i] && values[..i + 1][..i] == values[..i];
      text := Ini.Put(Counted(keys[..i], values[..i]), text, keys[i], Numbers.PrintInt(values[i]));
    }
    assert keys[..|keys|] == keys && values[..|keys|] == values;
  }

  method RenderSlots(values: seq<string>) returns (text: string)
    ensures text == Ini.TextOf(Slots(values))
  {
    text := "";
    for i := 0 to |values|
      invariant text == Ini.TextOf(Slots(values[..i]))
    {
      assert values[..i + 1][..i] == values[..i];
      if values[i] != "" {
        text := Ini.Put(Slots(values[..i]), text, SlotKey(i + 1), values[i]);
      } else {
        assert Slots(values[..i + 1]) == Slots(values[..i]);
      }
    }
    assert values[..|values|] == values;
  }

  method RenderHooks(key: string, cmds: seq<string>) returns (ok: bool, text: string)
    ensures ok <==> AllHooksOk(cmds)
    ensures ok ==> text == Ini.TextOf(Named(key, cmds))
  {
    text := "";
    for i := 0 to |cmds|
      invariant AllHooksOk(cmds[..i])
      invariant text == Ini.TextOf(Named(key, cmds[..i]))
    {
      if !HookOk(cmds[i]) {
        return false, "";
      }
      text := Ini.Put(Named(key, cmds[..i]), text, key, cmds[i]);
      assert Named(key, cmds[..i + 1]) == Named(key, cmds[..i]) + [Ini.Directive(key, cmds[i])];
    }
    assert cmds[..|cmds|] == cmds;
    return true, text;
  }

  lemma PeerText(p: Peer)
    ensures Ini.Unlines(PeerLines(p)) == "\n" + "[Peer]\n" + Ini.TextOf(PeerDirectives(p))
  {
    Ini.UnlinesAppend(["", "[Peer]"], Ini.PrintAll(PeerDirectives(p)));
    assert ["", "[Peer]"][1..] == ["[Peer]"] && ["[Peer]"][1..] == [];
    assert Ini.Unlines(["[Peer]"]) == "[Peer]" + "\n" + Ini.Unlines([]);
    assert Ini.Unlines(["", "[Peer]"]) == "" + "\n" + Ini.Unlines(["[Peer]"]);
  }

  method RenderPeer(p: Peer) returns (text: string)
    ensures text == Ini.Unlines(PeerLines(p))
  {
    text := Ini.Put([], "", "PublicKey", p.key);
    text := Ini.Put([] + [Ini.Directive("PublicKey", p.key)], text, "AllowedIPs", p.ip);
    assert [] + [Ini.Directive("PublicKey", p.key)] + [Ini.Directive("AllowedIPs", p.ip)] == PeerDirectives(p);
    PeerText(p);
    text := "\n" + "[Peer]\n" + text;
  }

  method CheckedPeer(p: Peer, lib: Library) returns (ok: bool, text: string)
    ensures ok <==> PeerOk(p, lib)
    ensures ok ==> text == Ini.Unlines(PeerLines(p))
  {
    text := "";
    ok := PeerOk(p, lib);
    if ok {
      text := RenderPeer(p);
    }
  }

  lemma OneMorePeer(peers: seq<Peer>, i: nat)
    requires i < |peers|
    ensures Ini.Unlines(AllPeerLines(peers[..i + 1])) == Ini.Unlines(AllPeerLines(peers[..i])) +
            Ini.Unlines(PeerLines(peers[i]))
  {
    assert peers[..i + 1][..i] == peers[..i];
    Ini.UnlinesAppend(AllPeerLines(peers[..i]), PeerLines(peers[i]));
  }

  method RenderPeers(peers: seq<Peer>, lib: Library) returns (ok: bool, text: string)
    ensures ok <==> AllPeersOk(peers, lib)
    ensures ok ==> text == Ini.Unlines(AllPeerLines(peers))
  {
    text := "";
    for i := 0 to |peers|
      invariant AllPeersOk(peers[..i], lib)
      invariant text == Ini.Unlines(AllPeerLines(peers[..i]))
    {
      var good, one := CheckedPeer(peers[i], lib);
      if !good {
        return false, "";
      }
      OneMorePeer(peers, i);
      text := text + one;
    }
    assert peers[..|peers|] == peers;
    return true, text;
  }

  method RenderBlock(x: Inbound, lib: Library) returns (text: string)
    requires InboundOk(x, lib)
    ensures text == Ini.Unlines(BlockLines(x, lib))
  {
    if x.geometry.Some? {
      return Ini.Unlines(lib.geometryLines(x.geometry.value).value);
    }
    var o := x.obf;
    text := RenderNumbers(KEYS, NumbersOf(o));
    var slots := RenderSlots(o.slots);
    Ini.TextAppend(Fixed(o), Slots(o.slots));
    text := text + slots;
  }

  lemma JoinFive(a: seq<string>, b: seq<string>, c: seq<string>, d: seq<string>, e: seq<string>)
    ensures Ini.Unlines(a + b + c + d + e) == Ini.Unlines(a) + Ini.Unlines(b) + Ini.Unlines(c) + Ini.Unlines(d) +
            Ini.Unlines(e)
  {
    Ini.UnlinesAppend(a, b);
    Ini.UnlinesAppend(a + b, c);
    Ini.UnlinesAppend(a + b + c, d);
    Ini.UnlinesAppend(a + b + c + d, e);
  }

  lemma HeaderText(line: string)
    ensures Ini.Unlines([line]) == line + "\n"
  {
    assert [line][1..] == [];
    assert Ini.Unlines([]) == "";
  }

  lemma FileText(header: string, head: seq<Ini.Directive>, block: seq<string>, up: seq<Ini.Directive>,
      down: seq<Ini.Directive>, peers: seq<string>)
    ensures Ini.Unlines([header] + Ini.PrintAll(head) + block + Ini.PrintAll(up + down) + peers) ==
            (header + "\n") + Ini.TextOf(head) + Ini.Unlines(block) + (Ini.TextOf(up) + Ini.TextOf(down)) +
                Ini.Unlines(peers)
  {
    HeaderText(header);
    JoinFive([header], Ini.PrintAll(head), block, Ini.PrintAll(up + down), peers);
    Ini.TextAppend(up, down);
  }

  /** renderConfig: the lines of the file, or nothing if any part is refused. */
  method Render(x: Inbound, peers: seq<Peer>, lib: Library) returns (r: Option<string>)
    ensures r == Rendered(x, peers, lib)
  {
    if !InboundOk(x, lib) || !ChainOk(x) {
      return None;
    }
    var head := RenderHead(x);
    var block := RenderBlock(x, lib);
    var upOk, up := RenderHooks("PostUp", Ups(x, lib.self));
    if !upOk {
      return None;
    }
    var downOk, down := RenderHooks("PostDown", Downs(x, lib.self));
    if !downOk {
      return None;
    }
    var peersOk, rest := RenderPeers(peers, lib);
    if !peersOk {
      return None;
    }
    FileText("[Interface]", Head(x), BlockLines(x, lib), Named("PostUp", Ups(x, lib.self)),
        Named("PostDown", Downs(x, lib.self)), AllPeerLines(peers));
    return Some(("[Interface]" + "\n") + head + block + (up + down) + rest);
  }
}
