/**
  The interface file read back: what a tool that takes it sees is what was meant,
  for every 1.x interface and every list of peers that is let through.
*/
module AwgRoundTrip {
  import opened Common
  import opened Text
  import opened HandOff
  import opened HookText
  import opened AwgConfig
  import Cidr
  import Ini
  import Numbers
  import WgKey

  // --------------------------------------------------------- values that need no care

  predicate NoOuterBlank(v: string) {
    v == "" || (!IsBlank(v[0]) && !IsBlank(v[|v| - 1]))
  }

  lemma {:induction false} LeftShorter(v: string)
    ensures |TrimLeft(v)| <= |v|
  {
    if v != "" && IsBlank(v[0]) {
      LeftShorter(v[1..]);
    }
  }

  lemma {:induction false} RightShorter(v: string)
    ensures |TrimRight(v)| <= |v|
  {
    if v != "" && IsBlank(v[|v| - 1]) {
      RightShorter(v[..|v| - 1]);
    }
  }

  lemma TrimShort(v: string)
    requires v != ""
    ensures IsBlank(v[|v| - 1]) ==> |TrimRight(v)| < |v|
    ensures IsBlank(v[0]) ==> |TrimLeft(v)| < |v|
    ensures |TrimLeft(v)| <= |v| && |TrimRight(v)| <= |v|
  {
    LeftShorter(v);
    RightShorter(v);
    if IsBlank(v[0]) {
      LeftShorter(v[1..]);
    }
    if IsBlank(v[|v| - 1]) {
      RightShorter(v[..|v| - 1]);
    }
  }

  /** A value on one line, with no comment sign in it and no blank at either end. */
  predicate AsWritten(v: string) {
    Lacks(v, '\n') && Lacks(v, '#') && NoOuterBlank(v)
  }

  lemma TrimIff(v: string)
    ensures Trim(v) == v <==> NoOuterBlank(v)
  {
    if v != "" {
      if NoOuterBlank(v) {
        TrimNothing(v);
      } else {
        TrimShort(v);
        LeftShorter(v);
        RightShorter(TrimLeft(v));
        if !IsBlank(v[0]) {
          assert TrimLeft(v) == v;
        }
      }
    }
  }

  /** Those are exactly the values that read back as themselves. */
  lemma AsWrittenIff(v: string)
    requires Lacks(v, '\n')
    ensures Ini.Plain(v) == v <==> AsWritten(v)
  {
    CutParts(v, '#');
    var head := Cut(v, '#').0;
    if Lacks(v, '#') {
      CutLacks(v, '#');
      TrimIff(v);
    } else {
      assert |head| < |v|;
      LeftShorter(head);
      RightShorter(TrimLeft(head));
    }
  }

  predicate SolidChar(c: char) {
    WordChar(c) || c == '+' || c == '=' || c == ':'
  }

  lemma SolidIsPlain(v: string)
    requires v != "" && forall i :: 0 <= i < |v| ==> SolidChar(v[i])
    ensures AsWritten(v)
  {
  }

  lemma KeyIsPlain(key: string)
    requires WgKey.Accepted(key)
    ensures AsWritten(key)
  {
    WgKey.AcceptedIff(key);
    forall i | 0 <= i < |key| ensures SolidChar(key[i]) {
      assert i < 43 ==> WgKey.InAlphabet(key[..43][i]);
    }
    SolidIsPlain(key);
  }

  lemma IntIsPlain(n: int)
    ensures AsWritten(Numbers.PrintInt(n))
  {
    SolidIsPlain(Numbers.PrintInt(n));
  }

  lemma {:induction false} ReadDigits(s: string)
    requires Numbers.Read(s, Numbers.Ten).Some?
    ensures Numbers.DigitsOf(s, Numbers.Ten)
  {
    if s != "" {
      ReadDigits(s[..|s| - 1]);
    }
  }

  lemma {:induction false} QuadChars(s: string)
    requires forall i :: 0 <= i < |Split(s, '.')| ==> Numbers.DigitsOf(Split(s, '.')[i], Numbers.Ten)
    ensures Cidr.AllAddress(s)
    decreases |s|
  {
    CutShorter(s, '.');
    CutParts(s, '.');
    var (head, tail) := Cut(s, '.');
    assert Split(s, '.')[0] == head;
    if tail.Some? {
      assert Split(s, '.')[1..] == Split(tail.value, '.');
      QuadChars(tail.value);
      assert s == head + (['.'] + tail.value);
    }
  }

  lemma ReadQuadChars(s: string)
    requires Cidr.ReadQuad(s).Some?
    ensures Cidr.AllAddress(s)
  {
    var parts := Split(s, '.');
    ReadDigits(parts[0]);
    ReadDigits(parts[1]);
    ReadDigits(parts[2]);
    ReadDigits(parts[3]);
    QuadChars(s);
  }

  lemma PrefixIsPlain(s: string, six: Cidr.Six)
    requires Cidr.IsPrefix(s, six)
    ensures AsWritten(s)
  {
    var (addr, bits) := Cut(s, '/');
    CutParts(s, '/');
    ReadDigits(bits.value);
    if Cidr.ReadQuad(addr).Some? {
      ReadQuadChars(addr);
    }
    assert forall i :: 0 <= i < |addr| ==> SolidChar(addr[i]);
    assert s == addr + (['/'] + bits.value);
    SolidIsPlain(s);
  }

  // ------------------------------------------------------------------------ the hooks

  predicate AllAsWritten(vs: seq<string>) {
    forall i :: 0 <= i < |vs| ==> AsWritten(vs[i])
  }

  lemma ForwardOk(how: seq<string>, dir: string, i: Word)
    requires how == ["-I", "FORWARD", "1"] || how == ["-D", "FORWARD"]
    requires dir == "-i" || dir == "-o"
    ensures StartsWell(ForwardWords(how, dir, i))
  {
    assert WordOk("iptables") && WordOk("-I") && WordOk("-D") && WordOk("FORWARD") && WordOk("1");
    assert WordOk(dir) && WordOk("-j") && WordOk("ACCEPT");
    JoinOk(["iptables"], how);
    JoinOk(["iptables"] + how, [dir, i, "-j", "ACCEPT"]);
  }

  lemma MasqueradeOk(how: string, network: string, i: Word)
    requires (how == "-A" || how == "-D") && WordOk(network)
    ensures StartsWell(MasqueradeWords(how, network, i))
  {
    assert WordOk("iptables") && WordOk("-t") && WordOk("nat") && WordOk(how) && WordOk("POSTROUTING") && WordOk("-s");
    assert WordOk("!") && WordOk("-o") && WordOk("-j") && WordOk("MASQUERADE");
  }

  lemma NetworkOk(address: string)
    ensures Cidr.PeerNetwork(address) != "" ==> WordOk(Cidr.PeerNetwork(address))
  {
    var p := Cidr.ReadPrefix(Trim(Cut(address, ',').0));
    if p.Some? {
      Cidr.PlainAddress(Cidr.Masked(p.value));
    }
  }

  /** A line that passes the whitelist and reads back as written. */
  predicate Good(line: string) {
    HookOk(line) && AsWritten(line)
  }

  lemma WellStartedLine(ws: seq<string>)
    requires StartsWell(ws)
    ensures Good(Line(ws))
  {
    LineOk(ws);
    AsWrittenIff(Line(ws));
  }

  lemma ForwardGood(how: seq<string>, dir: string, i: Word)
    requires how == ["-I", "FORWARD", "1"] || how == ["-D", "FORWARD"]
    requires dir == "-i" || dir == "-o"
    ensures Good(Line(ForwardWords(how, dir, i)))
  {
    ForwardOk(how, dir, i);
    WellStartedLine(ForwardWords(how, dir, i));
  }

  lemma MasqueradeGood(how: string, address: string, i: Word)
    requires how == "-A" || how == "-D"
    ensures Cidr.PeerNetwork(address) != "" ==> Good(Line(MasqueradeWords(how, Cidr.PeerNetwork(address), i)))
  {
    NetworkOk(address);
    if Cidr.PeerNetwork(address) != "" {
      MasqueradeOk(how, Cidr.PeerNetwork(address), i);
      WellStartedLine(MasqueradeWords(how, Cidr.PeerNetwork(address), i));
    }
  }

  lemma ThreeGood(a: string, b: string, more: seq<string>)
    requires Good(a) && Good(b) && forall i :: 0 <= i < |more| ==> Good(more[i])
    ensures AllHooksOk([a, b] + more) && AllAsWritten([a, b] + more)
  {
    forall i | 0 <= i < |[a, b] + more| ensures Good(([a, b] + more)[i]) {
      assert i >= 2 ==> ([a, b] + more)[i] == more[i - 2];
    }
  }

  lemma DefaultUpOk(i: Word, address: string)
    ensures AllHooksOk(DefaultUp(i, address)) && AllAsWritten(DefaultUp(i, address))
  {
    ForwardGood(["-I", "FORWARD", "1"], "-i", i);
    ForwardGood(["-I", "FORWARD", "1"], "-o", i);
    var network := Cidr.PeerNetwork(address);
    if network != "" {
      MasqueradeGood("-A", address, i);
    }
    ThreeGood(Line(ForwardWords(["-I", "FORWARD", "1"], "-i", i)), Line(ForwardWords(["-I", "FORWARD", "1"], "-o", i)),
              if network == "" then [] else [Line(MasqueradeWords("-A", network, i))]);
  }

  lemma DefaultDownOk(i: Word, address: string)
    ensures AllHooksOk(DefaultDown(i, address)) && AllAsWritten(DefaultDown(i, address))
  {
    ForwardGood(["-D", "FORWARD"], "-i", i);
    ForwardGood(["-D", "FORWARD"], "-o", i);
    var network := Cidr.PeerNetwork(address);
    if network != "" {
      MasqueradeGood("-D", address, i);
    }
    ThreeGood(Line(ForwardWords(["-D", "FORWARD"], "-i", i)), Line(ForwardWords(["-D", "FORWARD"], "-o", i)),
              if network == "" then [] else [Line(MasqueradeWords("-D", network, i))]);
  }

  /** An interface that names no hooks gets ones that pass and read back as written. */
  lemma DefaultsOk(i: Word, address: string)
    ensures AllHooksOk(DefaultUp(i, address)) && AllAsWritten(DefaultUp(i, address))
    ensures AllHooksOk(DefaultDown(i, address)) && AllAsWritten(DefaultDown(i, address))
  {
    DefaultUpOk(i, address);
    DefaultDownOk(i, address);
  }

  lemma ChainAsWritten(i: Word, t: TProxy)
    requires HandOff.Accepted(t)
    ensures AllAsWritten(AddLines(HookUp(i, t))) && AllAsWritten(DelLines(HookDown(i, t)))
  {
    forall k | 0 <= k < |HookUp(i, t)| ensures AsWritten(AddLines(HookUp(i, t))[k]) {
      RuleWordsOk(HookUp(i, t)[k]);
      WellStartedLine(AddWords(HookUp(i, t)[k]));
    }
    forall k | 0 <= k < |HookDown(i, t)| ensures AsWritten(DelLines(HookDown(i, t))[k]) {
      RuleWordsOk(HookDown(i, t)[k]);
      WellStartedLine(DelWords(HookDown(i, t)[k]));
    }
  }

  predicate OneLiners(vs: seq<string>) {
    forall i :: 0 <= i < |vs| ==> Lacks(vs[i], '\n')
  }

  /** The hooks that are an operator's own. */
  function Custom(x: Inbound): seq<string> { x.postUp + x.postDown }

  lemma OkAreOneLiners(cmds: seq<string>)
    requires AllHooksOk(cmds)
    ensures OneLiners(cmds)
  {
    forall i | 0 <= i < |cmds| ensures Lacks(cmds[i], '\n') {
      assert HookOk(cmds[i]);
    }
  }

  lemma OwnAsWritten(x: Inbound, i: Word)
    ensures AllAsWritten(OwnUp(x, i)) <==> AllAsWritten(x.postUp)
    ensures AllAsWritten(OwnDown(x, i)) <==> AllAsWritten(x.postDown)
  {
    DefaultsOk(i, x.address);
  }

  function ChainUp(x: Inbound, i: Word): seq<string>
    requires ChainOk(x)
  {
    if x.chain.Some? then AddLines(HookUp(i, x.chain.value)) else []
  }

  function ChainDown(x: Inbound, i: Word): seq<string>
    requires ChainOk(x)
  {
    if x.chain.Some? then DelLines(HookDown(i, x.chain.value)) else []
  }

  lemma ChainPartAsWritten(x: Inbound, i: Word)
    requires ChainOk(x)
    ensures AllAsWritten(ChainUp(x, i)) && AllAsWritten(ChainDown(x, i))
    ensures Ups(x, i) == OwnUp(x, i) + ChainUp(x, i) && Downs(x, i) == ChainDown(x, i) + OwnDown(x, i)
  {
    if x.chain.Some? {
      ChainAsWritten(i, x.chain.value);
    }
  }

  lemma OwnPart(a: seq<string>, b: seq<string>)
    ensures AllAsWritten(a + b) <==> AllAsWritten(a) && AllAsWritten(b)
  {
    if AllAsWritten(a + b) {
      forall i | 0 <= i < |a| ensures AsWritten(a[i]) {
        assert (a + b)[i] == a[i];
      }
      forall i | 0 <= i < |b| ensures AsWritten(b[i]) {
        assert (a + b)[|a| + i] == b[i];
      }
    }
  }

  lemma UpsAsWritten(x: Inbound, i: Word)
    requires ChainOk(x)
    ensures AllAsWritten(Ups(x, i)) <==> AllAsWritten(x.postUp)
    ensures AllAsWritten(Downs(x, i)) <==> AllAsWritten(x.postDown)
  {
    OwnAsWritten(x, i);
    ChainPartAsWritten(x, i);
    OwnPart(OwnUp(x, i), ChainUp(x, i));
    OwnPart(ChainDown(x, i), OwnDown(x, i));
  }

  lemma CustomParts(x: Inbound)
    ensures AllAsWritten(Custom(x)) <==> AllAsWritten(x.postUp) && AllAsWritten(x.postDown)
  {
    OwnPart(x.postUp, x.postDown);
  }

  lemma HooksFit(x: Inbound, peers: seq<Peer>, lib: Library)
    requires Renders(x, peers, lib)
    ensures OneLiners(Ups(x, lib.self)) && OneLiners(Downs(x, lib.self))
    ensures AllAsWritten(Ups(x, lib.self)) && AllAsWritten(Downs(x, lib.self)) <==> AllAsWritten(Custom(x))
  {
    UpsAsWritten(x, lib.self);
    CustomParts(x);
    OkAreOneLiners(Ups(x, lib.self));
    OkAreOneLiners(Downs(x, lib.self));
  }

  // --------------------------------------------------------------- the directives

  /** All on one line, under a word; and which read back as written. */
  predicate Plainly(ds: seq<Ini.Directive>) {
    forall i :: 0 <= i < |ds| ==> Ini.PlainOne(ds[i]) == ds[i]
  }

  lemma PlainlyIff(ds: seq<Ini.Directive>)
    ensures Plainly(ds) <==> Ini.PlainAll(ds) == ds
  {
  }

  lemma FitAppend(a: seq<Ini.Directive>, b: seq<Ini.Directive>)
    ensures Ini.AllFit(a + b) <==> Ini.AllFit(a) && Ini.AllFit(b)
    ensures Plainly(a + b) <==> Plainly(a) && Plainly(b)
  {
    assert forall i :: 0 <= i < |a| ==> (a + b)[i] == a[i];
    assert forall i :: 0 <= i < |b| ==> (a + b)[|a| + i] == b[i];
  }

  /** A directive of a word and a one-line value, and when it reads as written. */
  lemma OneFits(d: Ini.Directive)
    requires Ini.IsWord(d.key) && Lacks(d.value, '\n')
    ensures Ini.Fit(d) && (Ini.PlainOne(d) == d <==> AsWritten(d.value))
  {
    AsWrittenIff(d.value);
  }

  lemma HeadKeysAreWords()
    ensures Ini.IsWord("PrivateKey") && Ini.IsWord("ListenPort") && Ini.IsWord("Address")
  {
  }

  lemma HeadFits(x: Inbound)
    requires WgKey.Accepted(x.key) && Lacks(x.address, '\n')
    ensures Ini.AllFit(Head(x))
    ensures Plainly(Head(x)) <==> AsWritten(x.address)
  {
    var h := Head(x);
    HeadKeysAreWords();
    KeyIsPlain(x.key);
    AsWrittenIff(x.key);
    IntIsPlain(Port(x));
    AsWrittenIff(Numbers.PrintInt(Port(x)));
    OneFits(h[0]);
    OneFits(h[1]);
    OneFits(h[2]);
  }

  lemma KeysAreWords()
    ensures forall i :: 0 <= i < |KEYS| ==> Ini.IsWord(KEYS[i])
  {
    assert Ini.IsWord("Jc") && Ini.IsWord("Jmin") && Ini.IsWord("Jmax");
    assert Ini.IsWord("S1") && Ini.IsWord("S2") && Ini.IsWord("S3") && Ini.IsWord("S4");
    assert Ini.IsWord("H1") && Ini.IsWord("H2") && Ini.IsWord("H3") && Ini.IsWord("H4");
  }

  lemma FixedFits(o: Obfuscation)
    ensures Ini.AllFit(Fixed(o)) && Plainly(Fixed(o))
  {
    KeysAreWords();
    forall i | 0 <= i < |Fixed(o)| ensures Ini.Fit(Fixed(o)[i]) && Ini.PlainOne(Fixed(o)[i]) == Fixed(o)[i] {
      IntIsPlain(NumbersOf(o)[i]);
      AsWrittenIff(Numbers.PrintInt(NumbersOf(o)[i]));
    }
  }

  lemma SlotKeyIsWord(n: nat)
    ensures Ini.IsWord(SlotKey(n))
  {
    assert Numbers.DigitsOf(Decimal(n), Numbers.Ten);
  }

  predicate SlotsOk(values: seq<string>) {
    forall i :: 0 <= i < |values| ==> SlotOk(values[i])
  }

  /** A mimicry packet is as written unless it begins or ends with a blank. */
  lemma SlotPlainIff(v: string)
    requires SlotOk(v)
    ensures Lacks(v, '\n')
    ensures AsWritten(v) <==> NoOuterBlank(v)
  {
  }

  predicate SlotsPlain(values: seq<string>) {
    forall i :: 0 <= i < |values| ==> NoOuterBlank(values[i])
  }

  lemma SlotLineFits(n: nat, value: string)
    requires SlotOk(value)
    ensures Ini.AllFit(SlotLine(n, value))
    ensures Plainly(SlotLine(n, value)) <==> NoOuterBlank(value)
  {
    SlotPlainIff(value);
    AsWrittenIff(value);
    SlotKeyIsWord(n);
    var line := SlotLine(n, value);
    if value != "" {
      assert Plainly(line) <==> Ini.PlainOne(line[0]) == line[0];
    }
  }

  lemma SlotsPlainAppend(front: seq<string>, last: string)
    ensures SlotsPlain(front + [last]) <==> SlotsPlain(front) && NoOuterBlank(last)
  {
    var all := front + [last];
    assert all[|front|] == last && forall i :: 0 <= i < |front| ==> all[i] == front[i];
  }

  lemma {:induction false} SlotsFit(values: seq<string>)
    requires SlotsOk(values)
    ensures Ini.AllFit(Slots(values))
    ensures Plainly(Slots(values)) <==> SlotsPlain(values)
    decreases |values|
  {
    if values != [] {
      var n := |values| - 1;
      SlotsFit(values[..n]);
      SlotLineFits(n + 1, values[n]);
      FitAppend(Slots(values[..n]), SlotLine(n + 1, values[n]));
      assert values == values[..n] + [values[n]];
      SlotsPlainAppend(values[..n], values[n]);
    }
  }

  lemma NamedFit(key: string, values: seq<string>)
    requires Ini.IsWord(key) && OneLiners(values)
    ensures Ini.AllFit(Named(key, values))
    ensures Plainly(Named(key, values)) <==> AllAsWritten(values)
  {
    var ds := Named(key, values);
    forall i | 0 <= i < |ds| ensures Ini.Fit(ds[i]) && (Ini.PlainOne(ds[i]) == ds[i] <==> AsWritten(values[i])) {
      assert Lacks(values[i], '\n');
      AsWrittenIff(values[i]);
    }
  }

  /**
    What decides whether the file says all that was meant: no packet with an outer
    blank, and address and own hooks as written.
  */
  predicate SaidInFull(x: Inbound) {
    AsWritten(x.address) && SlotsPlain(x.obf.slots) && AllAsWritten(Custom(x))
  }

  lemma HooksLinesFit(x: Inbound, peers: seq<Peer>, lib: Library)
    requires Renders(x, peers, lib)
    ensures Ini.AllFit(Hooks(x, lib.self))
    ensures Plainly(Hooks(x, lib.self)) <==> AllAsWritten(Custom(x))
  {
    HooksFit(x, peers, lib);
    assert Ini.IsWord("PostUp") && Ini.IsWord("PostDown");
    NamedFit("PostUp", Ups(x, lib.self));
    NamedFit("PostDown", Downs(x, lib.self));
    FitAppend(Named("PostUp", Ups(x, lib.self)), Named("PostDown", Downs(x, lib.self)));
  }

  lemma FitFour(a: seq<Ini.Directive>, b: seq<Ini.Directive>, c: seq<Ini.Directive>, d: seq<Ini.Directive>)
    requires Ini.AllFit(a) && Ini.AllFit(b) && Ini.AllFit(c) && Ini.AllFit(d) && Plainly(b)
    ensures Ini.AllFit(a + (b + c + d))
    ensures Plainly(a + (b + c + d)) <==> Plainly(a) && Plainly(c) && Plainly(d)
  {
    FitAppend(b, c);
    FitAppend(b + c, d);
    FitAppend(a, b + c + d);
  }

  lemma DirectivesFit(x: Inbound, peers: seq<Peer>, lib: Library)
    requires Renders(x, peers, lib) && x.geometry.None? && Lacks(x.address, '\n')
    ensures Ini.AllFit(Directives(x, lib.self))
    ensures Plainly(Directives(x, lib.self)) <==> SaidInFull(x)
  {
    HeadFits(x);
    FixedFits(x.obf);
    SlotsFit(x.obf.slots);
    HooksLinesFit(x, peers, lib);
    FitFour(Head(x), Fixed(x.obf), Slots(x.obf.slots), Hooks(x, lib.self));
  }

  // -------------------------------------------------------------------- the peers

  function PeerSections(peers: seq<Peer>): (r: seq<Ini.Section>)
    ensures |r| == |peers|
    ensures forall i :: 0 <= i < |peers| ==> r[i] == Ini.Section("Peer", PeerDirectives(peers[i]))
  {
    if peers == [] then []
    else PeerSections(peers[..|peers| - 1]) + [Ini.Section("Peer", PeerDirectives(peers[|peers| - 1]))]
  }

  lemma PeerFits(p: Peer, lib: Library)
    requires PeerOk(p, lib)
    ensures Ini.AllFit(PeerDirectives(p)) && Plainly(PeerDirectives(p))
  {
    KeyIsPlain(p.key);
    PrefixIsPlain(p.ip, lib.six);
    AsWrittenIff(p.key);
    AsWrittenIff(p.ip);
    assert Ini.IsWord("PublicKey") && Ini.IsWord("AllowedIPs");
  }

  function PeerHeaded(ds: seq<Ini.Directive>): seq<string> {
    ["[Peer]"] + Ini.PrintAll(ds)
  }

  lemma ReadPeerSection(read: seq<Ini.Section>, ds: seq<Ini.Directive>)
    requires Ini.AllFit(ds) && Ini.PlainAll(ds) == ds
    ensures Ini.TakeAll(Some(read), PeerHeaded(ds)) == Some(read + [Ini.Section("Peer", ds)])
    ensures OneLiners(PeerHeaded(ds))
  {
    assert Ini.IsWord("Peer");
    Ini.ReadSection(read, "Peer", ds);
    Ini.SectionOneLiners("Peer", ds);
    assert "[" + "Peer" + "]" == "[Peer]";
    assert PeerHeaded(ds) == Ini.SectionLines("Peer", ds);
  }

  lemma ReadPeer(read: seq<Ini.Section>, p: Peer, lib: Library)
    requires PeerOk(p, lib)
    ensures Ini.TakeAll(Some(read), PeerLines(p)) == Some(read + [Ini.Section("Peer", PeerDirectives(p))])
    ensures OneLiners(PeerLines(p))
  {
    var ds := PeerDirectives(p);
    PeerFits(p, lib);
    PlainlyIff(ds);
    ReadPeerSection(read, ds);
    Ini.SkipBlank(read, PeerHeaded(ds));
    assert PeerLines(p) == [""] + PeerHeaded(ds);
  }

  lemma ReadMore(read: seq<Ini.Section>, mid: seq<Ini.Section>, end: seq<Ini.Section>, a: seq<string>, b: seq<string>)
    requires Ini.TakeAll(Some(read), a) == Some(mid) && Ini.TakeAll(Some(mid), b) == Some(end)
    requires OneLiners(a) && OneLiners(b)
    ensures Ini.TakeAll(Some(read), a + b) == Some(end) && OneLiners(a + b)
  {
    Ini.TakeAppend(Some(read), a, b);
  }

  lemma {:induction false} ReadPeers(read: seq<Ini.Section>, peers: seq<Peer>, lib: Library)
    requires AllPeersOk(peers, lib)
    ensures Ini.TakeAll(Some(read), AllPeerLines(peers)) == Some(read + PeerSections(peers))
    ensures OneLiners(AllPeerLines(peers))
    decreases |peers|
  {
    if peers == [] {
      assert read + [] == read;
    } else {
      var front, last := peers[..|peers| - 1], peers[|peers| - 1];
      var mid := read + PeerSections(front);
      var section := Ini.Section("Peer", PeerDirectives(last));
      ReadPeers(read, front, lib);
      ReadPeer(mid, last, lib);
      ReadMore(read, mid, mid + [section], AllPeerLines(front), PeerLines(last));
      assert PeerSections(peers) == PeerSections(front) + [section];
      assert mid + [section] == read + (PeerSections(front) + [section]);
    }
  }

  // ----------------------------------------------------------------- the round trip

  lemma PrintFour(a: seq<Ini.Directive>, b: seq<Ini.Directive>, c: seq<Ini.Directive>, d: seq<Ini.Directive>)
    ensures Ini.PrintAll(a + (b + c + d)) == Ini.PrintAll(a) + Ini.PrintAll(b + c) + Ini.PrintAll(d)
  {
    Ini.PrintAppend(b + c, d);
    Ini.PrintAppend(a, b + c + d);
  }

  lemma Regroup(first: seq<string>, a: seq<string>, b: seq<string>, c: seq<string>, rest: seq<string>)
    ensures first + a + b + c + rest == first + (a + b + c) + rest
  {
  }

  lemma GroupLines(first: seq<string>, a: seq<Ini.Directive>, b: seq<Ini.Directive>, c: seq<Ini.Directive>,
      d: seq<Ini.Directive>, rest: seq<string>)
    ensures first + Ini.PrintAll(a) + Ini.PrintAll(b + c) + Ini.PrintAll(d) + rest ==
            first + Ini.PrintAll(a + (b + c + d)) + rest
  {
    PrintFour(a, b, c, d);
    Regroup(first, Ini.PrintAll(a), Ini.PrintAll(b + c), Ini.PrintAll(d), rest);
  }

  lemma FileLinesOf(x: Inbound, peers: seq<Peer>, lib: Library)
    requires ChainOk(x) && x.geometry.None?
    ensures FileLines(x, peers, lib) == ["[Interface]"] + Ini.PrintAll(Directives(x, lib.self)) + AllPeerLines(peers)
  {
    GroupLines(["[Interface]"], Head(x), Fixed(x.obf), Slots(x.obf.slots), Hooks(x, lib.self), AllPeerLines(peers));
  }

  lemma ReadFirst(ds: seq<Ini.Directive>)
    requires Ini.AllFit(ds)
    ensures Ini.TakeAll(Some([]), ["[Interface]"] + Ini.PrintAll(ds)) ==
            Some([Ini.Section("Interface", Ini.PlainAll(ds))])
    ensures OneLiners(["[Interface]"] + Ini.PrintAll(ds))
  {
    assert Ini.IsWord("Interface");
    Ini.ReadSection([], "Interface", ds);
    Ini.SectionOneLiners("Interface", ds);
    assert "[" + "Interface" + "]" == "[Interface]";
    assert ["[Interface]"] + Ini.PrintAll(ds) == Ini.SectionLines("Interface", ds);
    assert [] + [Ini.Section("Interface", Ini.PlainAll(ds))] == [Ini.Section("Interface", Ini.PlainAll(ds))];
  }

  lemma ReadsFile(ds: seq<Ini.Directive>, peers: seq<Peer>, lib: Library)
    requires Ini.AllFit(ds) && AllPeersOk(peers, lib)
    ensures Ini.Parse(Ini.Unlines(["[Interface]"] + Ini.PrintAll(ds) + AllPeerLines(peers))) ==
            Some([Ini.Section("Interface", Ini.PlainAll(ds))] + PeerSections(peers))
  {
    var first := ["[Interface]"] + Ini.PrintAll(ds);
    var section := Ini.Section("Interface", Ini.PlainAll(ds));
    ReadFirst(ds);
    ReadPeers([section], peers, lib);
    Ini.TakeAppend(Some([]), first, AllPeerLines(peers));
    Ini.ParseLines(first + AllPeerLines(peers));
  }

  /**
    Any file of a 1.x interface reads as one [Interface] section with the directives
    in their order, each value as a reader takes it, and one [Peer] section for each
    peer, in order, with exactly its key and address.
  */
  lemma ReadsBack(x: Inbound, peers: seq<Peer>, lib: Library)
    requires Renders(x, peers, lib) && x.geometry.None? && Lacks(x.address, '\n')
    ensures Ini.Parse(Rendered(x, peers, lib).value) ==
            Some([Ini.Section("Interface", Ini.PlainAll(Directives(x, lib.self)))] + PeerSections(peers))
  {
    DirectivesFit(x, peers, lib);
    FileLinesOf(x, peers, lib);
    ReadsFile(Directives(x, lib.self), peers, lib);
  }

  /** It is read exactly as meant if and only if nothing in it reads back shorter than it was given. */
  lemma ReadsBackAsMeantIff(x: Inbound, peers: seq<Peer>, lib: Library)
    requires Renders(x, peers, lib) && x.geometry.None? && Lacks(x.address, '\n')
    ensures Ini.Parse(Rendered(x, peers, lib).value) ==
            Some([Ini.Section("Interface", Directives(x, lib.self))] + PeerSections(peers))
            <==> SaidInFull(x)
  {
    ReadsBack(x, peers, lib);
    DirectivesFit(x, peers, lib);
    PlainlyIff(Directives(x, lib.self));
    var a, b := Ini.Section("Interface", Ini.PlainAll(Directives(x, lib.self))),
        Ini.Section("Interface", Directives(x, lib.self));
    assert ([a] + PeerSections(peers))[0] == a && ([b] + PeerSections(peers))[0] == b;
  }

  /** The address an interface is given from its subnet never gets in the way. */
  lemma SubnetAddressIsPlain(subnet: Cidr.Prefix)
    ensures AsWritten(Cidr.ServerAddress(subnet))
  {
    Cidr.PlainAddress(Cidr.ServerPrefix(subnet));
    SolidIsPlain(Cidr.ServerAddress(subnet));
  }

  /** A mimicry packet of one blank is let through, gets a line, and is read as an empty value. */
  lemma BlankPacketReadsEmpty()
    ensures SlotOk(" ") && SlotLine(1, " ") != []
    ensures Ini.PlainAll(SlotLine(1, " ")) == [Ini.Directive(SlotKey(1), "")]
  {
    CutLacks(" ", '#');
    assert " "[1..] == "";
    assert TrimLeft(" ") == "";
  }

  // ------------------------------------------------- one file, one configuration

  predicate StartsWith(key: string, c: char) { key != "" && key[0] == c }

  predicate AllStart(ds: seq<Ini.Directive>, c: char) {
    forall i :: 0 <= i < |ds| ==> StartsWith(ds[i].key, c)
  }

  /** The packets from the n-th slot on, as the renderer meets them. */
  function SlotsFrom(values: seq<string>, n: nat): seq<Ini.Directive>
    decreases |values|
  {
    if values == [] then []
    else SlotLine(n, values[0]) + SlotsFrom(values[1..], n + 1)
  }

  lemma SlotsFromStep(first: string, tail: seq<string>, n: nat)
    ensures SlotsFrom([first] + tail, n) == SlotLine(n, first) + SlotsFrom(tail, n + 1)
  {
    assert ([first] + tail)[1..] == tail;
  }

  lemma {:induction false} SlotsFromEnd(values: seq<string>, n: nat, last: string)
    ensures SlotsFrom(values + [last], n) == SlotsFrom(values, n) + SlotLine(n + |values|, last)
    decreases |values|
  {
    if values == [] {
      SlotsFromStep(last, [], n);
      assert [] + [last] == [last] + [];
    } else {
      var first, tail := values[0], values[1..];
      assert values == [first] + tail && values + [last] == [first] + (tail + [last]);
      SlotsFromStep(first, tail, n);
      SlotsFromStep(first, tail + [last], n);
      SlotsFromEnd(tail, n + 1, last);
      assert n + 1 + |tail| == n + |values|;
    }
  }

  lemma {:induction false} SlotsAreFrom(values: seq<string>)
    ensures Slots(values) == SlotsFrom(values, 1)
    decreases |values|
  {
    if values != [] {
      var n := |values| - 1;
      SlotsAreFrom(values[..n]);
      SlotsFromEnd(values[..n], 1, values[n]);
      assert values == values[..n] + [values[n]];
    }
  }

  ghost predicate LaterSlot(key: string, n: nat) {
    StartsWith(key, 'I') ==> exists k: nat :: k >= n && key == SlotKey(k)
  }

  ghost predicate AllLater(ds: seq<Ini.Directive>, n: nat) {
    forall i :: 0 <= i < |ds| ==> LaterSlot(ds[i].key, n)
  }

  lemma LaterMore(d: Ini.Directive, ds: seq<Ini.Directive>, n: nat)
    requires d.key == SlotKey(n) && AllLater(ds, n + 1)
    ensures AllLater(ds, n) && AllLater([d] + ds, n)
  {
    forall i | 0 <= i < |ds| ensures LaterSlot(ds[i].key, n) {
      assert LaterSlot(ds[i].key, n + 1);
    }
    forall i | 0 <= i < |[d] + ds| ensures LaterSlot(([d] + ds)[i].key, n) {
      assert i > 0 ==> ([d] + ds)[i] == ds[i - 1];
    }
  }

  lemma OneSlot(v: seq<string>, n: nat, a: seq<Ini.Directive>)
    requires v != []
    ensures SlotsFrom(v, n) + a == SlotLine(n, v[0]) + (SlotsFrom(v[1..], n + 1) + a)
  {
  }

  lemma {:induction false} SlotKeysFrom(values: seq<string>, n: nat, rest: seq<Ini.Directive>)
    requires AllStart(rest, 'P')
    ensures AllLater(SlotsFrom(values, n) + rest, n)
    decreases |values|
  {
    if values == [] {
      assert SlotsFrom(values, n) + rest == rest;
      forall i | 0 <= i < |rest| ensures LaterSlot(rest[i].key, n) {
        assert StartsWith(rest[i].key, 'P');
      }
    } else {
      var tail := SlotsFrom(values[1..], n + 1) + rest;
      SlotKeysFrom(values[1..], n + 1, rest);
      OneSlot(values, n, rest);
      LaterMore(Ini.Directive(SlotKey(n), values[0]), tail, n);
      assert [] + tail == tail;
    }
  }

  lemma SlotKeyNotLater(n: nat)
    ensures StartsWith(SlotKey(n), 'I') && !LaterSlot(SlotKey(n), n + 1)
  {
    forall k: nat | k >= n + 1 ensures SlotKey(k) != SlotKey(n) {
      if SlotKey(k) == SlotKey(n) {
        assert SlotKey(k)[1..] == Decimal(k) && SlotKey(n)[1..] == Decimal(n);
        Numbers.PrintInjective(k, n, Numbers.Ten);
      }
    }
  }

  /** A slot filled on one side only would show as a line the other cannot have. */
  lemma NotFilledAlone(v: string, n: nat, mine: seq<Ini.Directive>, other: seq<Ini.Directive>)
    requires AllLater(other, n + 1)
    ensures [Ini.Directive(SlotKey(n), v)] + mine != other
  {
    SlotKeyNotLater(n);
    if other != [] {
      assert LaterSlot(other[0].key, n + 1);
      assert ([Ini.Directive(SlotKey(n), v)] + mine)[0].key == SlotKey(n);
    }
  }

  lemma {:induction false} SlotsTell(v: seq<string>, w: seq<string>, n: nat, a: seq<Ini.Directive>,
      b: seq<Ini.Directive>)
    requires |v| == |w| && AllStart(a, 'P') && AllStart(b, 'P')
    requires SlotsFrom(v, n) + a == SlotsFrom(w, n) + b
    ensures v == w && a == b
    decreases |v|
  {
    if v == [] {
      assert SlotsFrom(v, n) + a == a && SlotsFrom(w, n) + b == b;
    } else {
      var vs, ws := SlotsFrom(v[1..], n + 1) + a, SlotsFrom(w[1..], n + 1) + b;
      SlotKeysFrom(v[1..], n + 1, a);
      SlotKeysFrom(w[1..], n + 1, b);
      OneSlot(v, n, a);
      OneSlot(w, n, b);
      if v[0] == "" && w[0] != "" {
        NotFilledAlone(w[0], n, ws, vs);
      } else if v[0] != "" && w[0] == "" {
        NotFilledAlone(v[0], n, vs, ws);
      } else if v[0] == "" {
        assert [] + vs == vs && [] + ws == ws;
      } else {
        var left, right := [Ini.Directive(SlotKey(n), v[0])] + vs, [Ini.Directive(SlotKey(n), w[0])] + ws;
        assert left[0] == right[0] && left[1..] == right[1..];
        assert vs == left[1..] && ws == right[1..];
      }
      SlotsTell(v[1..], w[1..], n + 1, a, b);
      assert v == [v[0]] + v[1..] && w == [w[0]] + w[1..];
    }
  }

  function UpThenDown(u: seq<string>, d: seq<string>): seq<Ini.Directive> {
    Named("PostUp", u) + Named("PostDown", d)
  }

  lemma FewerUps(u: seq<string>, v: seq<string>, d: seq<string>, e: seq<string>)
    requires |u| < |v|
    ensures UpThenDown(u, d) != UpThenDown(v, e)
  {
    assert "PostUp"[4] != "PostDown"[4];
    if |UpThenDown(u, d)| == |UpThenDown(v, e)| {
      assert UpThenDown(u, d)[|u|].key == "PostDown" && UpThenDown(v, e)[|u|].key == "PostUp";
    }
  }

  lemma HooksTell(u: seq<string>, v: seq<string>, d: seq<string>, e: seq<string>)
    requires UpThenDown(u, d) == UpThenDown(v, e)
    ensures u == v && d == e
  {
    if |u| < |v| {
      FewerUps(u, v, d, e);
    } else if |v| < |u| {
      FewerUps(v, u, e, d);
    } else {
      var left, right := UpThenDown(u, d), UpThenDown(v, e);
      forall i | 0 <= i < |u| ensures u[i] == v[i] {
        assert left[i] == Ini.Directive("PostUp", u[i]) && right[i] == Ini.Directive("PostUp", v[i]);
      }
      forall i | 0 <= i < |d| ensures d[i] == e[i] {
        assert left[|u| + i] == Ini.Directive("PostDown", d[i]) && right[|u| + i] == Ini.Directive("PostDown", e[i]);
      }
    }
  }

  /** Two interfaces that come to the same directives are the same to everyone who reads them. */
  predicate SameInterface(x: Inbound, y: Inbound, i: Word)
    requires ChainOk(x) && ChainOk(y)
  {
    x.key == y.key && Port(x) == Port(y) && x.address == y.address && x.obf == y.obf && Ups(x, i) == Ups(y, i) &&
        Downs(x, i) == Downs(y, i)
  }

  lemma NumbersTell(o: Obfuscation, p: Obfuscation)
    requires Fixed(o) == Fixed(p)
    ensures NumbersOf(o) == NumbersOf(p)
  {
    forall k | 0 <= k < 11 ensures NumbersOf(o)[k] == NumbersOf(p)[k] {
      assert Fixed(o)[k].value == Fixed(p)[k].value;
      Numbers.PrintIntInjective(NumbersOf(o)[k], NumbersOf(p)[k]);
    }
  }

  lemma HeadTells(x: Inbound, y: Inbound)
    requires Head(x) == Head(y)
    ensures x.key == y.key && Port(x) == Port(y) && x.address == y.address
  {
    assert Head(x)[0] == Head(y)[0] && Head(x)[1] == Head(y)[1] && Head(x)[2] == Head(y)[2];
    Numbers.PrintIntInjective(Port(x), Port(y));
  }

  lemma Pieces(a: seq<Ini.Directive>, b: seq<Ini.Directive>, c: seq<Ini.Directive>, a': seq<Ini.Directive>,
      b': seq<Ini.Directive>, c': seq<Ini.Directive>)
    requires |a| == |a'| && |b| == |b'| && a + (b + c) == a' + (b' + c')
    ensures a == a' && b == b' && c == c'
  {
    var l, r := a + (b + c), a' + (b' + c');
    assert a == l[..|a|] && a' == r[..|a|];
    assert b + c == l[|a|..] && b' + c' == r[|a|..];
    assert b == (b + c)[..|b|] && b' == (b' + c')[..|b|];
    assert c == (b + c)[|b|..] && c' == (b' + c')[|b|..];
  }

  lemma RestTells(v: seq<string>, hv: seq<Ini.Directive>, w: seq<string>, hw: seq<Ini.Directive>)
    requires |v| == |w| && AllStart(hv, 'P') && AllStart(hw, 'P')
    requires Slots(v) + hv == Slots(w) + hw
    ensures v == w && hv == hw
  {
    SlotsAreFrom(v);
    SlotsAreFrom(w);
    SlotsTell(v, w, 1, hv, hw);
  }

  lemma PartsTell(a: seq<Ini.Directive>, b: seq<Ini.Directive>, c: seq<Ini.Directive>, d: seq<Ini.Directive>,
                  a': seq<Ini.Directive>, b': seq<Ini.Directive>, c': seq<Ini.Directive>, d': seq<Ini.Directive>)
    requires |a| == |a'| && |b| == |b'| && a + (b + c + d) == a' + (b' + c' + d')
    ensures a == a' && b == b' && c + d == c' + d'
  {
    assert b + c + d == b + (c + d) && b' + c' + d' == b' + (c' + d');
    Pieces(a, b, c + d, a', b', c' + d');
  }

  lemma HooksStart(x: Inbound, i: Word)
    requires ChainOk(x)
    ensures AllStart(Hooks(x, i), 'P')
  {
    assert StartsWith("PostUp", 'P') && StartsWith("PostDown", 'P');
  }

  lemma NumbersAre(o: Obfuscation, p: Obfuscation)
    requires NumbersOf(o) == NumbersOf(p) && o.slots == p.slots
    ensures o == p
  {
    var m, n := NumbersOf(o), NumbersOf(p);
    assert m[0] == n[0] && m[1] == n[1] && m[2] == n[2] && m[3] == n[3] && m[4] == n[4] && m[5] == n[5];
    assert m[6] == n[6] && m[7] == n[7] && m[8] == n[8] && m[9] == n[9] && m[10] == n[10];
  }

  lemma DirectivesTell(x: Inbound, y: Inbound, i: Word)
    requires ChainOk(x) && ChainOk(y) && |x.obf.slots| == |y.obf.slots|
    requires Directives(x, i) == Directives(y, i)
    ensures SameInterface(x, y, i)
  {
    PartsTell(Head(x), Fixed(x.obf), Slots(x.obf.slots), Hooks(x, i), Head(y), Fixed(y.obf), Slots(y.obf.slots),
        Hooks(y, i));
    HooksStart(x, i);
    HooksStart(y, i);
    RestTells(x.obf.slots, Hooks(x, i), y.obf.slots, Hooks(y, i));
    HeadTells(x, y);
    NumbersTell(x.obf, y.obf);
    NumbersAre(x.obf, y.obf);
    HooksTell(Ups(x, i), Ups(y, i), Downs(x, i), Downs(y, i));
  }

  // -------------------------------------------------------- equal texts, equal lines

  lemma LinesTell(a: seq<string>, b: seq<string>)
    requires OneLiners(a) && OneLiners(b) && Ini.Unlines(a) == Ini.Unlines(b)
    ensures a == b
  {
    Ini.SplitUnlines(a);
    Ini.SplitUnlines(b);
    assert (a + [""])[..|a|] == a && (b + [""])[..|b|] == b;
  }

  lemma PrintTells(d: Ini.Directive, e: Ini.Directive)
    requires Ini.IsWord(d.key) && Ini.IsWord(e.key) && Ini.Print(d) == Ini.Print(e)
    ensures d == e
  {
    assert Lacks(d.key, ' ') && Lacks(e.key, ' ');
    assert Ini.Print(d) == d.key + [' '] + ("= " + d.value) && Ini.Print(e) == e.key + [' '] + ("= " + e.value);
    CutAt(d.key, ' ', "= " + d.value);
    CutAt(e.key, ' ', "= " + e.value);
    assert ("= " + d.value)[2..] == d.value && ("= " + e.value)[2..] == e.value;
  }

  lemma {:induction false} PrintAllTells(ds: seq<Ini.Directive>, es: seq<Ini.Directive>)
    requires Ini.AllFit(ds) && Ini.AllFit(es) && Ini.PrintAll(ds) == Ini.PrintAll(es)
    ensures ds == es
    decreases |ds|
  {
    Ini.PrintedLines(ds);
    Ini.PrintedLines(es);
    if ds != [] {
      assert Ini.PrintAll(ds)[0] == Ini.Print(ds[0]) && Ini.PrintAll(es)[0] == Ini.Print(es[0]);
      PrintTells(ds[0], es[0]);
      assert Ini.PrintAll(ds)[1..] == Ini.PrintAll(ds[1..]) && Ini.PrintAll(es)[1..] == Ini.PrintAll(es[1..]);
      PrintAllTells(ds[1..], es[1..]);
      assert ds == [ds[0]] + ds[1..] && es == [es[0]] + es[1..];
    }
  }

  lemma PeerLinesAre(p: Peer)
    ensures PeerLines(p) == ["", "[Peer]", Ini.Print(PeerDirectives(p)[0]), Ini.Print(PeerDirectives(p)[1])]
  {
    var ds := PeerDirectives(p);
    assert ds[1..] == [ds[1]] && ds[1..][1..] == [];
    assert Ini.PrintAll(ds[1..]) == [Ini.Print(ds[1])];
  }

  lemma {:induction false} PeerLinesShape(peers: seq<Peer>)
    ensures |AllPeerLines(peers)| == 4 * |peers|
    ensures peers != [] ==> AllPeerLines(peers)[0] == ""
    decreases |peers|
  {
    if peers != [] {
      PeerLinesShape(peers[..|peers| - 1]);
      PeerLinesAre(peers[|peers| - 1]);
    }
  }

  lemma PeerLinesSplit(peers: seq<Peer>)
    requires peers != []
    ensures var n := |peers| - 1;
      |AllPeerLines(peers)| == 4 * n + 4 &&
      AllPeerLines(peers)[..4 * n] == AllPeerLines(peers[..n]) && AllPeerLines(peers)[4 * n..] == PeerLines(peers[n])
  {
    PeerLinesShape(peers[..|peers| - 1]);
    PeerLinesShape(peers);
  }

  lemma OnePeerTells(p: Peer, q: Peer)
    requires PeerLines(p) == PeerLines(q)
    ensures p == q
  {
    PeerLinesAre(p);
    PeerLinesAre(q);
    assert PeerLines(p)[2] == PeerLines(q)[2] && PeerLines(p)[3] == PeerLines(q)[3];
    assert Ini.IsWord("PublicKey") && Ini.IsWord("AllowedIPs");
    PrintTells(PeerDirectives(p)[0], PeerDirectives(q)[0]);
    PrintTells(PeerDirectives(p)[1], PeerDirectives(q)[1]);
  }

  /** Equal lines end in one peer's equal lines. */
  lemma LastPeerTells(xs: seq<Peer>, ys: seq<Peer>)
    requires AllPeerLines(xs) == AllPeerLines(ys) && |xs| == |ys| != 0
    ensures var n := |xs| - 1; AllPeerLines(xs[..n]) == AllPeerLines(ys[..n]) && xs[n] == ys[n]
  {
    PeerLinesSplit(xs);
    PeerLinesSplit(ys);
    OnePeerTells(xs[|xs| - 1], ys[|xs| - 1]);
  }

  lemma SameNumberOfPeers(xs: seq<Peer>, ys: seq<Peer>)
    requires AllPeerLines(xs) == AllPeerLines(ys)
    ensures |xs| == |ys|
  {
    PeerLinesShape(xs);
    PeerLinesShape(ys);
  }

  lemma FrontAndLast(xs: seq<Peer>, ys: seq<Peer>)
    requires |xs| == |ys| != 0
    requires var n := |xs| - 1; xs[..n] == ys[..n] && xs[n] == ys[n]
    ensures xs == ys
  {
    var n := |xs| - 1;
    assert xs == xs[..n] + [xs[n]] && ys == ys[..n] + [ys[n]];
  }

  lemma {:induction false} PeersTell(xs: seq<Peer>, ys: seq<Peer>)
    requires AllPeerLines(xs) == AllPeerLines(ys)
    ensures xs == ys
    decreases |xs|
  {
    SameNumberOfPeers(xs, ys);
    if xs != [] {
      LastPeerTells(xs, ys);
      PeersTell(xs[..|xs| - 1], ys[..|xs| - 1]);
      FrontAndLast(xs, ys);
    }
  }

  function Lines(header: string, ds: seq<Ini.Directive>, peers: seq<Peer>): seq<string> {
    [header] + Ini.PrintAll(ds) + AllPeerLines(peers)
  }

  lemma {:induction false} PrintedIsNotBlank(ds: seq<Ini.Directive>, i: nat)
    requires Ini.AllFit(ds) && i < |ds|
    ensures i < |Ini.PrintAll(ds)| && Ini.PrintAll(ds)[i] != ""
    decreases i
  {
    Ini.PrintedLines(ds);
    if i == 0 {
      assert Ini.Fit(ds[0]);
    } else {
      PrintedIsNotBlank(ds[1..], i - 1);
    }
  }

  /** A directive's line is never blank, the first of a peer always is: so the two parts are told apart. */
  lemma FewerLines(header: string, ds: seq<Ini.Directive>, xs: seq<Peer>, es: seq<Ini.Directive>, ys: seq<Peer>)
    requires Ini.AllFit(ds) && Ini.AllFit(es) && |ds| < |es|
    ensures Lines(header, ds, xs) != Lines(header, es, ys)
  {
    Ini.PrintedLines(ds);
    Ini.PrintedLines(es);
    PeerLinesShape(xs);
    if |Lines(header, ds, xs)| == |Lines(header, es, ys)| {
      assert Lines(header, ds, xs)[1 + |ds|] == "";
      PrintedIsNotBlank(es, |ds|);
      assert Lines(header, es, ys)[1 + |ds|] == Ini.PrintAll(es)[|ds|];
    }
  }

  lemma PartsTellApart(header: string, ds: seq<Ini.Directive>, xs: seq<Peer>, es: seq<Ini.Directive>, ys: seq<Peer>)
    requires Ini.AllFit(ds) && Ini.AllFit(es) && Lines(header, ds, xs) == Lines(header, es, ys)
    ensures ds == es && xs == ys
  {
    if |ds| < |es| {
      FewerLines(header, ds, xs, es, ys);
    } else if |es| < |ds| {
      FewerLines(header, es, ys, ds, xs);
    } else {
      Ini.PrintedLines(ds);
      Ini.PrintedLines(es);
      var n := 1 + |ds|;
      assert Lines(header, ds, xs)[1..n] == Ini.PrintAll(ds) && Lines(header, es, ys)[1..n] == Ini.PrintAll(es);
      assert Lines(header, ds, xs)[n..] == AllPeerLines(xs) && Lines(header, es, ys)[n..] == AllPeerLines(ys);
      PrintAllTells(ds, es);
      PeersTell(xs, ys);
    }
  }

  const HEADER := "[Interface]"

  lemma HeaderIsOneLine()
    ensures Lacks(HEADER, '\n')
  {
  }

  lemma FileLinesAre(x: Inbound, peers: seq<Peer>, lib: Library)
    requires ChainOk(x) && x.geometry.None?
    ensures FileLines(x, peers, lib) == Lines(HEADER, Directives(x, lib.self), peers)
  {
    FileLinesOf(x, peers, lib);
  }

  lemma PartsAreOneLiners(header: string, ds: seq<Ini.Directive>, peers: seq<Peer>, lib: Library)
    requires Lacks(header, '\n') && Ini.AllFit(ds) && AllPeersOk(peers, lib)
    ensures OneLiners(Lines(header, ds, peers))
  {
    Ini.PrintedLines(ds);
    ReadPeers([], peers, lib);
  }

  lemma FileOneLiners(x: Inbound, peers: seq<Peer>, lib: Library)
    requires Renders(x, peers, lib) && x.geometry.None? && Lacks(x.address, '\n')
    ensures OneLiners(FileLines(x, peers, lib))
  {
    HeaderIsOneLine();
    DirectivesFit(x, peers, lib);
    PartsAreOneLiners(HEADER, Directives(x, lib.self), peers, lib);
    FileLinesAre(x, peers, lib);
  }

  /**
    No two configurations share a file: two accepted 1.x interfaces have the same
    text exactly when all their parameters and hooks are the same and so are their
    peers, in order.
  */
  lemma SameFileSameConfig(x: Inbound, xs: seq<Peer>, y: Inbound, ys: seq<Peer>, lib: Library)
    requires Renders(x, xs, lib) && x.geometry.None? && Lacks(x.address, '\n')
    requires Renders(y, ys, lib) && y.geometry.None? && Lacks(y.address, '\n')
    requires |x.obf.slots| == |y.obf.slots|
    ensures Rendered(x, xs, lib) == Rendered(y, ys, lib) <==> SameInterface(x, y, lib.self) && xs == ys
  {
    FileOneLiners(x, xs, lib);
    FileOneLiners(y, ys, lib);
    if Rendered(x, xs, lib) == Rendered(y, ys, lib) {
      LinesTell(FileLines(x, xs, lib), FileLines(y, ys, lib));
      FileLinesAre(x, xs, lib);
      FileLinesAre(y, ys, lib);
      DirectivesFit(x, xs, lib);
      DirectivesFit(y, ys, lib);
      PartsTellApart(HEADER, Directives(x, lib.self), xs, Directives(y, lib.self), ys);
      DirectivesTell(x, y, lib.self);
    }
  }
}
