/**
  The interface file read key by key: what a tool that takes it finds under each key it
  knows, and that it finds no other (core/amneziawg/config.go:318-430).
*/
module AwgKeys {
  import opened Common
  import opened Text
  import opened HandOff
  import opened HookText
  import opened AwgConfig
  import opened AwgRoundTrip
  import Cidr
  import Ini
  import Numbers
  import WgKey

  /** The values under one key, in the order of their lines. */
  function Under(ds: seq<Ini.Directive>, key: string): seq<string> {
    if ds == [] then []
    else (if ds[0].key == key then [ds[0].value] else []) + Under(ds[1..], key)
  }

  function AllPlain(vs: seq<string>): (r: seq<string>)
    ensures |r| == |vs| && forall i :: 0 <= i < |vs| ==> r[i] == Ini.Plain(vs[i])
  {
    if vs == [] then [] else [Ini.Plain(vs[0])] + AllPlain(vs[1..])
  }

  lemma {:induction false} UnderAppend(a: seq<Ini.Directive>, b: seq<Ini.Directive>, key: string)
    ensures Under(a + b, key) == Under(a, key) + Under(b, key)
  {
    if a == [] {
      assert a + b == b;
    } else {
      assert (a + b)[1..] == a[1..] + b;
      UnderAppend(a[1..], b, key);
    }
  }

  lemma {:induction false} UnderNone(ds: seq<Ini.Directive>, key: string)
    requires forall i :: 0 <= i < |ds| ==> ds[i].key != key
    ensures Under(ds, key) == []
  {
    if ds != [] {
      UnderNone(ds[1..], key);
    }
  }

  lemma {:induction false} UnderOne(ds: seq<Ini.Directive>, k: nat)
    requires k < |ds| && forall i :: 0 <= i < |ds| && i != k ==> ds[i].key != ds[k].key
    ensures Under(ds, ds[k].key) == [ds[k].value]
  {
    if k == 0 {
      UnderNone(ds[1..], ds[0].key);
    } else {
      UnderOne(ds[1..], k - 1);
    }
  }

  function OneUnder(d: Ini.Directive, key: string): seq<string> {
    if d.key == key then [d.value] else []
  }

  lemma UnderThree(a: Ini.Directive, b: Ini.Directive, c: Ini.Directive, key: string)
    ensures Under([a, b, c], key) == OneUnder(a, key) + OneUnder(b, key) + OneUnder(c, key)
  {
    assert [a, b, c][1..] == [b, c] && [b, c][1..] == [c] && [c][1..] == [];
    assert Under([c], key) == OneUnder(c, key) + Under([], key);
    assert Under([b, c], key) == OneUnder(b, key) + Under([c], key);
  }

  lemma {:induction false} UnderPlain(ds: seq<Ini.Directive>, key: string)
    ensures Under(Ini.PlainAll(ds), key) == AllPlain(Under(ds, key))
  {
    if ds != [] {
      UnderPlain(ds[1..], key);
      assert Ini.PlainAll(ds)[1..] == Ini.PlainAll(ds[1..]);
    }
  }

  lemma {:induction false} UnderNamed(key: string, vs: seq<string>, other: string)
    ensures Under(Named(key, vs), other) == if other == key then vs else []
  {
    if vs != [] {
      UnderNamed(key, vs[1..], other);
      assert Named(key, vs)[1..] == Named(key, vs[1..]);
    }
  }

  // ------------------------------------------------------------- keys told apart

  /** First, second and last letter: enough to tell the keys of a file apart. */
  function Tag(key: string): int
    requires |key| >= 2
  {
    key[0] as int * 1_000_000 + key[1] as int * 1000 + key[|key| - 1] as int
  }

  lemma TagsTell(a: string, b: string)
    requires |a| >= 2 && |b| >= 2 && Tag(a) != Tag(b)
    ensures a != b
  {
  }

  predicate TagsApart(keys: seq<string>) {
    (forall i :: 0 <= i < |keys| ==> |keys[i]| >= 2) &&
    forall i, j :: 0 <= i < j < |keys| ==> Tag(keys[i]) != Tag(keys[j])
  }

  predicate NotAmong(key: string, keys: seq<string>) {
    forall i :: 0 <= i < |keys| ==> keys[i] != key
  }

  lemma TagOutside(key: string, keys: seq<string>)
    requires |key| >= 2 && forall i :: 0 <= i < |keys| ==> |keys[i]| >= 2 && Tag(keys[i]) != Tag(key)
    ensures NotAmong(key, keys)
  {
  }

  const NUMBER_TAGS: seq<int> :=
    [74_099_099, 74_109_110, 74_109_120, 83_049_049, 83_050_050, 83_051_051, 83_052_052,
     72_049_049, 72_050_050, 72_051_051, 72_052_052]

  lemma NumberTag(k: nat)
    requires k < 11
    ensures |KEYS| == 11 && |NUMBER_TAGS| == 11 && |KEYS[k]| >= 2 && Tag(KEYS[k]) == NUMBER_TAGS[k]
    ensures KEYS[k][0] == 'J' || KEYS[k][0] == 'S' || KEYS[k][0] == 'H'
  {
  }

  lemma NumberTags()
    ensures |KEYS| == 11 && TagsApart(KEYS)
    ensures forall i :: 0 <= i < 11 ==> KEYS[i][0] == 'J' || KEYS[i][0] == 'S' || KEYS[i][0] == 'H'
  {
    forall i: nat | i < 11
      ensures |KEYS[i]| >= 2 && Tag(KEYS[i]) == NUMBER_TAGS[i]
      ensures KEYS[i][0] == 'J' || KEYS[i][0] == 'S' || KEYS[i][0] == 'H'
    {
      NumberTag(i);
    }
    assert forall i, j :: 0 <= i < j < 11 ==> NUMBER_TAGS[i] != NUMBER_TAGS[j];
  }

  // ------------------------------------------------------------------- part by part

  lemma HeadUnder(x: Inbound, key: string)
    ensures Under(Head(x), key) ==
              if key == "PrivateKey" then [x.key]
              else if key == "ListenPort" then [Numbers.PrintInt(if x.listenPort == 0 then 51820 else x.listenPort)]
              else if key == "Address" then [x.address]
              else []
  {
    var h := Head(x);
    assert "PrivateKey"[0] != "ListenPort"[0] && "ListenPort"[0] != "Address"[0] && "PrivateKey"[0] != "Address"[0];
    UnderThree(h[0], h[1], h[2], key);
    assert h == [h[0], h[1], h[2]];
  }

  lemma NumberUnder(o: Obfuscation, k: nat)
    requires k < 11
    ensures Under(Fixed(o), KEYS[k]) == [Numbers.PrintInt(NumbersOf(o)[k])]
  {
    NumberTags();
    UnderOne(Fixed(o), k);
  }

  lemma NumbersUnder(o: Obfuscation)
    ensures Under(Fixed(o), "Jc") == [Numbers.PrintInt(o.jc)]
    ensures Under(Fixed(o), "Jmin") == [Numbers.PrintInt(o.jmin)]
    ensures Under(Fixed(o), "Jmax") == [Numbers.PrintInt(o.jmax)]
    ensures Under(Fixed(o), "S1") == [Numbers.PrintInt(o.s1)] && Under(Fixed(o), "S2") == [Numbers.PrintInt(o.s2)]
    ensures Under(Fixed(o), "S3") == [Numbers.PrintInt(o.s3)] && Under(Fixed(o), "S4") == [Numbers.PrintInt(o.s4)]
    ensures Under(Fixed(o), "H1") == [Numbers.PrintInt(o.h1)] && Under(Fixed(o), "H2") == [Numbers.PrintInt(o.h2)]
    ensures Under(Fixed(o), "H3") == [Numbers.PrintInt(o.h3)] && Under(Fixed(o), "H4") == [Numbers.PrintInt(o.h4)]
  {
    NumberUnder(o, 0);
    NumberUnder(o, 1);
    NumberUnder(o, 2);
    NumberUnder(o, 3);
    NumberUnder(o, 4);
    NumberUnder(o, 5);
    NumberUnder(o, 6);
    NumberUnder(o, 7);
    NumberUnder(o, 8);
    NumberUnder(o, 9);
    NumberUnder(o, 10);
  }

  lemma NumbersElsewhere(o: Obfuscation, key: string)
    requires key != "" && key[0] != 'J' && key[0] != 'S' && key[0] != 'H'
    ensures Under(Fixed(o), key) == []
  {
    NumberTags();
    UnderNone(Fixed(o), key);
  }

  lemma {:induction false} SlotsElsewhere(values: seq<string>, key: string)
    requires key != "" && key[0] != 'I'
    ensures Under(Slots(values), key) == []
    decreases |values|
  {
    if values != [] {
      var n := |values| - 1;
      SlotsElsewhere(values[..n], key);
      UnderAppend(Slots(values[..n]), SlotLine(n + 1, values[n]), key);
      UnderNone(SlotLine(n + 1, values[n]), key);
    }
  }

  lemma SlotKeysApart(m: nat, n: nat)
    requires m != n
    ensures SlotKey(m) != SlotKey(n)
  {
    assert SlotKey(m)[1..] == Decimal(m) && SlotKey(n)[1..] == Decimal(n);
    if Decimal(m) == Decimal(n) {
      Numbers.PrintInjective(m, n, Numbers.Ten);
    }
  }

  lemma SlotLineUnder(n: nat, value: string, m: nat)
    ensures Under(SlotLine(n, value), SlotKey(m)) == if value == "" || m != n then [] else [value]
  {
    if m != n {
      SlotKeysApart(m, n);
      UnderNone(SlotLine(n, value), SlotKey(m));
    } else if value != "" {
      UnderOne(SlotLine(n, value), 0);
    }
  }

  /** The packet of the n-th slot, counted from 1. */
  function SlotAt(values: seq<string>, n: nat): seq<string> {
    if 1 <= n <= |values| && values[n - 1] != "" then [values[n - 1]] else []
  }

  lemma {:induction false} SlotsUnder(values: seq<string>, m: nat)
    ensures Under(Slots(values), SlotKey(m)) == SlotAt(values, m)
    decreases |values|
  {
    if values != [] {
      var n := |values| - 1;
      SlotsUnder(values[..n], m);
      SlotLineUnder(n + 1, values[n], m);
      UnderAppend(Slots(values[..n]), SlotLine(n + 1, values[n]), SlotKey(m));
    }
  }

  lemma HooksUnder(x: Inbound, i: Word, key: string)
    requires ChainOk(x)
    ensures Under(Hooks(x, i), key) ==
              if key == "PostUp" then Ups(x, i) else if key == "PostDown" then Downs(x, i) else []
  {
    assert "PostUp"[4] != "PostDown"[4];
    UnderNamed("PostUp", Ups(x, i), key);
    UnderNamed("PostDown", Downs(x, i), key);
    UnderAppend(Named("PostUp", Ups(x, i)), Named("PostDown", Downs(x, i)), key);
  }

  lemma FourParts(a: seq<Ini.Directive>, b: seq<Ini.Directive>, c: seq<Ini.Directive>, d: seq<Ini.Directive>,
                  key: string)
    ensures Under(a + (b + c + d), key) == Under(a, key) + Under(b, key) + Under(c, key) + Under(d, key)
  {
    UnderAppend(a, b + c + d, key);
    UnderAppend(b + c, d, key);
    UnderAppend(b, c, key);
  }

  /** What all the lines say under a key, part by part. */
  lemma AllUnder(x: Inbound, i: Word, key: string)
    requires ChainOk(x)
    ensures Under(Directives(x, i), key) ==
              Under(Head(x), key) + Under(Fixed(x.obf), key) + Under(Slots(x.obf.slots), key) + Under(Hooks(x, i), key)
  {
    FourParts(Head(x), Fixed(x.obf), Slots(x.obf.slots), Hooks(x, i), key);
  }

  /** A key of the head or the hooks. */
  lemma WordKeyUnder(x: Inbound, i: Word, key: string)
    requires ChainOk(x)
    requires key != "" && key[0] != 'J' && key[0] != 'S' && key[0] != 'H' && key[0] != 'I'
    ensures Under(Directives(x, i), key) == Under(Head(x), key) + Under(Hooks(x, i), key)
  {
    AllUnder(x, i, key);
    NumbersElsewhere(x.obf, key);
    SlotsElsewhere(x.obf.slots, key);
  }

  lemma NumberKeyUnder(x: Inbound, i: Word, key: string)
    requires ChainOk(x)
    requires key != "" && (key[0] == 'J' || key[0] == 'S' || key[0] == 'H')
    ensures Under(Directives(x, i), key) == Under(Fixed(x.obf), key)
  {
    AllUnder(x, i, key);
    HeadUnder(x, key);
    HooksUnder(x, i, key);
    SlotsElsewhere(x.obf.slots, key);
    assert "PrivateKey"[0] == 'P' && "ListenPort"[0] == 'L' && "Address"[0] == 'A';
    assert "PostUp"[0] == 'P' && "PostDown"[0] == 'P';
  }

  lemma SlotKeyUnder(x: Inbound, i: Word, n: nat)
    requires ChainOk(x)
    ensures Under(Directives(x, i), SlotKey(n)) == SlotAt(x.obf.slots, n)
  {
    AllUnder(x, i, SlotKey(n));
    HeadUnder(x, SlotKey(n));
    HooksUnder(x, i, SlotKey(n));
    SlotsUnder(x.obf.slots, n);
    NumbersElsewhere(x.obf, SlotKey(n));
    assert SlotKey(n)[0] == 'I';
    assert "PrivateKey"[0] == 'P' && "ListenPort"[0] == 'L' && "Address"[0] == 'A';
    assert "PostUp"[0] == 'P' && "PostDown"[0] == 'P';
  }

  // -------------------------------------------------------------------- the file read

  /** The lines of the first section of a file as it is read. */
  function FirstSection(text: Option<string>): seq<Ini.Directive> {
    if text.None? then []
    else
      var read := Ini.Parse(text.value);
      if read.None? || read.value == [] then [] else read.value[0].lines
  }

  predicate OneLineAddress(x: Inbound) { x.geometry.None? && Lacks(x.address, '\n') }

  lemma FirstOf(first: Ini.Section, rest: seq<Ini.Section>)
    ensures ([first] + rest)[0] == first
  {
  }

  lemma FirstIsRead(x: Inbound, peers: seq<Peer>, lib: Library)
    requires Renders(x, peers, lib) && OneLineAddress(x)
    ensures FirstSection(Rendered(x, peers, lib)) == Ini.PlainAll(Directives(x, lib.self))
  {
    ReadsBack(x, peers, lib);
    FirstOf(Ini.Section("Interface", Ini.PlainAll(Directives(x, lib.self))), PeerSections(peers));
  }

  lemma OnePlain(v: string)
    requires AsWritten(v)
    ensures AllPlain([v]) == [v]
  {
    AsWrittenIff(v);
    assert [v][1..] == [];
  }

  lemma NumberPlain(n: int)
    ensures AllPlain([Numbers.PrintInt(n)]) == [Numbers.PrintInt(n)]
  {
    IntIsPlain(n);
    OnePlain(Numbers.PrintInt(n));
  }

  lemma WordIs(x: Inbound, i: Word, key: string)
    requires ChainOk(x) && (key == "PrivateKey" || key == "ListenPort" || key == "Address")
    ensures Under(Ini.PlainAll(Directives(x, i)), key) == AllPlain(Under(Head(x), key))
  {
    WordKeyUnder(x, i, key);
    assert "PostUp"[1] == 'o' && "PostDown"[1] == 'o';
    HooksUnder(x, i, key);
    assert Under(Head(x), key) + [] == Under(Head(x), key);
    UnderPlain(Directives(x, i), key);
  }

  lemma KeyIs(x: Inbound, i: Word)
    requires ChainOk(x) && WgKey.Accepted(x.key)
    ensures Under(Ini.PlainAll(Directives(x, i)), "PrivateKey") == [x.key]
  {
    WordIs(x, i, "PrivateKey");
    HeadUnder(x, "PrivateKey");
    KeyIsPlain(x.key);
    OnePlain(x.key);
  }

  lemma PortIs(x: Inbound, i: Word)
    requires ChainOk(x)
    ensures Under(Ini.PlainAll(Directives(x, i)), "ListenPort") ==
              [Numbers.PrintInt(if x.listenPort == 0 then 51820 else x.listenPort)]
  {
    WordIs(x, i, "ListenPort");
    HeadUnder(x, "ListenPort");
    NumberPlain(if x.listenPort == 0 then 51820 else x.listenPort);
  }

  lemma AddressIs(x: Inbound, i: Word)
    requires ChainOk(x)
    ensures Under(Ini.PlainAll(Directives(x, i)), "Address") == [Ini.Plain(x.address)]
  {
    WordIs(x, i, "Address");
    HeadUnder(x, "Address");
    assert [x.address][1..] == [];
  }

  /** The head of the file: whose key, on which port, under which address. */
  lemma HeadByKey(x: Inbound, peers: seq<Peer>, lib: Library)
    requires Renders(x, peers, lib) && OneLineAddress(x)
    ensures var read := FirstSection(Rendered(x, peers, lib));
      && Under(read, "PrivateKey") == [x.key]
      && Under(read, "ListenPort") == [Numbers.PrintInt(if x.listenPort == 0 then 51820 else x.listenPort)]
      && Under(read, "Address") == [Ini.Plain(x.address)]
  {
    FirstIsRead(x, peers, lib);
    KeyIs(x, lib.self);
    PortIs(x, lib.self);
    AddressIs(x, lib.self);
  }

  lemma NumberIs(x: Inbound, i: Word, key: string, n: int)
    requires ChainOk(x) && key != "" && (key[0] == 'J' || key[0] == 'S' || key[0] == 'H')
    requires Under(Fixed(x.obf), key) == [Numbers.PrintInt(n)]
    ensures Under(Ini.PlainAll(Directives(x, i)), key) == [Numbers.PrintInt(n)]
  {
    NumberKeyUnder(x, i, key);
    NumberPlain(n);
    UnderPlain(Directives(x, i), key);
  }

  /** Each number of an obfuscation under its own key, once. */
  predicate NumbersStand(read: seq<Ini.Directive>, o: Obfuscation) {
    && Under(read, "Jc") == [Numbers.PrintInt(o.jc)]
    && Under(read, "Jmin") == [Numbers.PrintInt(o.jmin)] && Under(read, "Jmax") == [Numbers.PrintInt(o.jmax)]
    && Under(read, "S1") == [Numbers.PrintInt(o.s1)] && Under(read, "S2") == [Numbers.PrintInt(o.s2)]
    && Under(read, "S3") == [Numbers.PrintInt(o.s3)] && Under(read, "S4") == [Numbers.PrintInt(o.s4)]
    && Under(read, "H1") == [Numbers.PrintInt(o.h1)] && Under(read, "H2") == [Numbers.PrintInt(o.h2)]
    && Under(read, "H3") == [Numbers.PrintInt(o.h3)] && Under(read, "H4") == [Numbers.PrintInt(o.h4)]
  }

  lemma NumbersAreThere(x: Inbound, i: Word)
    requires ChainOk(x)
    ensures NumbersStand(Ini.PlainAll(Directives(x, i)), x.obf)
  {
    var o := x.obf;
    NumbersUnder(o);
    NumberIs(x, i, "Jc", o.jc);
    NumberIs(x, i, "Jmin", o.jmin);
    NumberIs(x, i, "Jmax", o.jmax);
    NumberIs(x, i, "S1", o.s1);
    NumberIs(x, i, "S2", o.s2);
    NumberIs(x, i, "S3", o.s3);
    NumberIs(x, i, "S4", o.s4);
    NumberIs(x, i, "H1", o.h1);
    NumberIs(x, i, "H2", o.h2);
    NumberIs(x, i, "H3", o.h3);
    NumberIs(x, i, "H4", o.h4);
  }

  /** The file says each number under its own key, once. */
  lemma NumbersByKey(x: Inbound, peers: seq<Peer>, lib: Library)
    requires Renders(x, peers, lib) && OneLineAddress(x)
    ensures NumbersStand(FirstSection(Rendered(x, peers, lib)), x.obf)
  {
    FirstIsRead(x, peers, lib);
    NumbersAreThere(x, lib.self);
  }

  /** The keys of the five slots. */
  lemma FiveSlots()
    ensures "I1" == SlotKey(1) && "I2" == SlotKey(2) && "I3" == SlotKey(3)
    ensures "I4" == SlotKey(4) && "I5" == SlotKey(5)
  {
  }

  /** What is read of the packet in one slot. */
  function PacketRead(value: string): seq<string> {
    if value == "" then [] else [Ini.Plain(value)]
  }

  /** Each packet under the key of its slot, and an empty one under none. */
  predicate PacketsStand(read: seq<Ini.Directive>, packets: seq<string>) {
    && |packets| == 5
    && Under(read, "I1") == PacketRead(packets[0]) && Under(read, "I2") == PacketRead(packets[1])
    && Under(read, "I3") == PacketRead(packets[2]) && Under(read, "I4") == PacketRead(packets[3])
    && Under(read, "I5") == PacketRead(packets[4])
  }

  lemma PacketRuns(ds: seq<Ini.Directive>, packets: seq<string>, n: nat, key: string)
    requires n < |packets| && Under(ds, key) == SlotAt(packets, n + 1)
    ensures Under(Ini.PlainAll(ds), key) == PacketRead(packets[n])
  {
    UnderPlain(ds, key);
    assert [packets[n]][1..] == [];
  }

  lemma FivePackets(ds: seq<Ini.Directive>, packets: seq<string>)
    requires |packets| == 5
    requires Under(ds, "I1") == SlotAt(packets, 1) && Under(ds, "I2") == SlotAt(packets, 2)
    requires Under(ds, "I3") == SlotAt(packets, 3) && Under(ds, "I4") == SlotAt(packets, 4)
    requires Under(ds, "I5") == SlotAt(packets, 5)
    ensures PacketsStand(Ini.PlainAll(ds), packets)
  {
    PacketRuns(ds, packets, 0, "I1");
    PacketRuns(ds, packets, 1, "I2");
    PacketRuns(ds, packets, 2, "I3");
    PacketRuns(ds, packets, 3, "I4");
    PacketRuns(ds, packets, 4, "I5");
  }

  lemma PacketsAreThere(x: Inbound, i: Word)
    requires ChainOk(x) && |x.obf.slots| == 5
    ensures PacketsStand(Ini.PlainAll(Directives(x, i)), x.obf.slots)
  {
    FiveSlots();
    SlotKeyUnder(x, i, 1);
    SlotKeyUnder(x, i, 2);
    SlotKeyUnder(x, i, 3);
    SlotKeyUnder(x, i, 4);
    SlotKeyUnder(x, i, 5);
    FivePackets(Directives(x, i), x.obf.slots);
  }

  /** The file says each of the five packets under the key of its slot. */
  lemma PacketsByKey(x: Inbound, peers: seq<Peer>, lib: Library)
    requires Renders(x, peers, lib) && OneLineAddress(x) && |x.obf.slots| == 5
    ensures PacketsStand(FirstSection(Rendered(x, peers, lib)), x.obf.slots)
  {
    FirstIsRead(x, peers, lib);
    PacketsAreThere(x, lib.self);
  }

  lemma HeadLacksHooks(x: Inbound)
    ensures Under(Head(x), "PostUp") == [] && Under(Head(x), "PostDown") == []
  {
    assert "PostUp"[1] == 'o' && "PostDown"[1] == 'o' && "PrivateKey"[1] == 'r' && "ListenPort"[1] == 'i';
    assert "Address"[1] == 'd';
    HeadUnder(x, "PostUp");
    HeadUnder(x, "PostDown");
  }

  lemma HooksWhole(x: Inbound, i: Word)
    requires ChainOk(x)
    ensures Under(Directives(x, i), "PostUp") == Ups(x, i)
    ensures Under(Directives(x, i), "PostDown") == Downs(x, i)
  {
    assert "PostUp"[4] != "PostDown"[4];
    HeadLacksHooks(x);
    WordKeyUnder(x, i, "PostUp");
    WordKeyUnder(x, i, "PostDown");
    HooksUnder(x, i, "PostUp");
    HooksUnder(x, i, "PostDown");
    assert [] + Ups(x, i) == Ups(x, i) && [] + Downs(x, i) == Downs(x, i);
  }

  lemma HooksAre(x: Inbound, i: Word)
    requires ChainOk(x)
    ensures Under(Ini.PlainAll(Directives(x, i)), "PostUp") == AllPlain(OwnUp(x, i) + ChainUp(x, i))
    ensures Under(Ini.PlainAll(Directives(x, i)), "PostDown") == AllPlain(ChainDown(x, i) + OwnDown(x, i))
  {
    ChainPartAsWritten(x, i);
    HooksWhole(x, i);
    UnderPlain(Directives(x, i), "PostUp");
    UnderPlain(Directives(x, i), "PostDown");
  }

  /** The hooks, in order: the interface's own before the hand-off's going up, after them coming down. */
  lemma HooksByKey(x: Inbound, peers: seq<Peer>, lib: Library)
    requires Renders(x, peers, lib) && OneLineAddress(x)
    ensures var read := FirstSection(Rendered(x, peers, lib));
      && Under(read, "PostUp") == AllPlain(OwnUp(x, lib.self) + ChainUp(x, lib.self))
      && Under(read, "PostDown") == AllPlain(ChainDown(x, lib.self) + OwnDown(x, lib.self))
  {
    FirstIsRead(x, peers, lib);
    HooksAre(x, lib.self);
  }

  const FILE_KEYS: set<string> :=
    {"PrivateKey", "ListenPort", "Address", "Jc", "Jmin", "Jmax", "S1", "S2", "S3", "S4", "H1", "H2", "H3", "H4",
     "PostUp", "PostDown"}

  predicate KeyOfSlot(key: string, slots: nat) {
    exists n :: 1 <= n <= slots && key == "I" + Decimal(n)
  }

  predicate KnownKeys(ds: seq<Ini.Directive>, slots: nat) {
    forall i :: 0 <= i < |ds| ==> ds[i].key in FILE_KEYS || KeyOfSlot(ds[i].key, slots)
  }

  lemma {:induction false} SlotsKnown(values: seq<string>, slots: nat)
    requires |values| <= slots
    ensures KnownKeys(Slots(values), slots)
    decreases |values|
  {
    if values != [] {
      var n := |values| - 1;
      SlotsKnown(values[..n], slots);
      assert KeyOfSlot(SlotKey(n + 1), slots);
    }
  }

  lemma NumbersKnown(o: Obfuscation, slots: nat)
    ensures KnownKeys(Fixed(o), slots)
  {
    assert forall i :: 0 <= i < 11 ==> KEYS[i] in FILE_KEYS;
  }

  lemma KnownParts(a: seq<Ini.Directive>, b: seq<Ini.Directive>, c: seq<Ini.Directive>, d: seq<Ini.Directive>,
                   slots: nat)
    requires KnownKeys(a, slots) && KnownKeys(b, slots) && KnownKeys(c, slots) && KnownKeys(d, slots)
    ensures KnownKeys(a + (b + c + d), slots)
  {
  }

  lemma AllKnown(x: Inbound, i: Word)
    requires ChainOk(x)
    ensures KnownKeys(Ini.PlainAll(Directives(x, i)), |x.obf.slots|)
  {
    SlotsKnown(x.obf.slots, |x.obf.slots|);
    NumbersKnown(x.obf, |x.obf.slots|);
    KnownParts(Head(x), Fixed(x.obf), Slots(x.obf.slots), Hooks(x, i), |x.obf.slots|);
  }

  /** And no other key stands there. */
  lemma NoOtherKeys(x: Inbound, peers: seq<Peer>, lib: Library)
    requires Renders(x, peers, lib) && OneLineAddress(x)
    ensures KnownKeys(FirstSection(Rendered(x, peers, lib)), |x.obf.slots|)
  {
    FirstIsRead(x, peers, lib);
    AllKnown(x, lib.self);
  }

  /** The peers: one section each, in order, naming its key and its address and nothing else. */
  lemma PeersByKey(x: Inbound, peers: seq<Peer>, lib: Library, k: nat)
    requires Renders(x, peers, lib) && OneLineAddress(x) && k < |peers|
    ensures var read := Ini.Parse(Rendered(x, peers, lib).value);
      read.Some? && |read.value| == |peers| + 1 && read.value[0].name == "Interface" &&
      read.value[k + 1] ==
          Ini.Section("Peer", [Ini.Directive("PublicKey", peers[k].key), Ini.Directive("AllowedIPs", peers[k].ip)])
  {
    ReadsBack(x, peers, lib);
  }

  // ------------------------------------------------------------------ what is refused

  const PACKET_CHARS: set<char> :=
    {'0', '1', '2', '3', '4', '5', '6', '7', '8', '9', 'a', 'b', 'c', 'd', 'e', 'f', 'A', 'B', 'C', 'D', 'E', 'F',
     'x', 'X', '<', '>', ' ', 'r', 't'}

  lemma SlotCharIff(c: char)
    ensures SlotChar(c) <==> c in PACKET_CHARS
  {
  }

  /** Four headers, none of them the protocol's own, no two alike. */
  predicate HeadersApart(o: Obfuscation) {
    o.h1 >= 5 && o.h2 >= 5 && o.h3 >= 5 && o.h4 >= 5 && |{o.h1, o.h2, o.h3, o.h4}| == 4
  }

  lemma FourApart(a: nat, b: nat, c: nat, d: nat)
    ensures |{a, b, c, d}| == 4 <==> a != b && a != c && a != d && b != c && b != d && c != d
  {
    if a == b {
      assert {a, b, c, d} == {b, c, d};
    } else if a == c {
      assert {a, b, c, d} == {b, c, d};
    } else if a == d {
      assert {a, b, c, d} == {b, c, d};
    } else if b == c {
      assert {a, b, c, d} == {a, c, d};
    } else if b == d {
      assert {a, b, c, d} == {a, c, d};
    } else if c == d {
      assert {a, b, c, d} == {a, b, d};
    }
  }

  lemma HeadersApartIff(o: Obfuscation)
    ensures HeadersOk(o) <==> HeadersApart(o)
  {
    FourApart(o.h1, o.h2, o.h3, o.h4);
  }

  predicate PacketsClean(packets: seq<string>) {
    forall n, k :: 0 <= n < |packets| && 0 <= k < |packets[n]| ==> packets[n][k] in PACKET_CHARS
  }

  lemma PacketsCleanIff(packets: seq<string>)
    ensures PacketsClean(packets) <==> SlotsOk(packets)
  {
    forall c ensures SlotChar(c) <==> c in PACKET_CHARS {
      SlotCharIff(c);
    }
  }

  /** A hand-off to a real port, under a mark that fits and is no table of the host's. */
  predicate HandOffFits(t: TProxy) {
    1 <= t.port <= 65535 && 1 <= t.mark <= 2_147_483_647 && t.mark !in {253, 254, 255}
  }

  lemma HooksSplit(a: seq<string>, b: seq<string>)
    ensures AllHooksOk(a + b) <==> AllHooksOk(a) && AllHooksOk(b)
  {
    if AllHooksOk(a + b) {
      forall i | 0 <= i < |a| ensures HookOk(a[i]) {
        assert (a + b)[i] == a[i];
      }
      forall i | 0 <= i < |b| ensures HookOk(b[i]) {
        assert (a + b)[|a| + i] == b[i];
      }
    }
  }

  lemma OwnHooksDecide(x: Inbound, i: Word)
    requires ChainOk(x)
    ensures AllHooksOk(Ups(x, i)) && AllHooksOk(Downs(x, i)) <==> AllHooksOk(x.postUp) && AllHooksOk(x.postDown)
  {
    DefaultsOk(i, x.address);
    ChainPartAsWritten(x, i);
    if x.chain.Some? {
      ChainLinesOk(i, x.chain.value);
    }
    HooksSplit(OwnUp(x, i), ChainUp(x, i));
    HooksSplit(ChainDown(x, i), OwnDown(x, i));
  }

  lemma InboundOkIff(x: Inbound, lib: Library)
    requires x.geometry.None?
    ensures InboundOk(x, lib) <==>
              WgKey.Accepted(x.key) && HeadersApart(x.obf) && x.obf.jmin <= x.obf.jmax && PacketsClean(x.obf.slots)
  {
    HeadersApartIff(x.obf);
    PacketsCleanIff(x.obf.slots);
  }

  predicate PeersFit(peers: seq<Peer>, lib: Library) {
    forall k :: 0 <= k < |peers| ==>
      WgKey.Accepted(peers[k].key) && peers[k].ip != "" && Cidr.IsPrefix(peers[k].ip, lib.six)
  }

  lemma PeersFitIff(peers: seq<Peer>, lib: Library)
    ensures AllPeersOk(peers, lib) <==> PeersFit(peers, lib)
  {
    assert forall k :: 0 <= k < |peers| ==> (PeerOk(peers[k], lib) <==>
      WgKey.Accepted(peers[k].key) && peers[k].ip != "" && Cidr.IsPrefix(peers[k].ip, lib.six));
  }

  lemma RendersOwn(x: Inbound, peers: seq<Peer>, lib: Library)
    ensures Rendered(x, peers, lib).Some? <==>
              && InboundOk(x, lib) && ChainOk(x) && AllHooksOk(x.postUp) && AllHooksOk(x.postDown)
              && AllPeersOk(peers, lib)
  {
    if ChainOk(x) {
      OwnHooksDecide(x, lib.self);
    }
  }

  /**
    A 1.x interface is rendered exactly when its key is one, its headers stand apart,
    its junk bounds are in order, its packets are clean, its hand-off fits, every hook
    of its own is let through, and every peer has a key and a prefix.
  */
  lemma RenderedIff(x: Inbound, peers: seq<Peer>, lib: Library)
    requires x.geometry.None?
    ensures Rendered(x, peers, lib).Some? <==>
              && WgKey.Accepted(x.key) && HeadersApart(x.obf) && x.obf.jmin <= x.obf.jmax
              && PacketsClean(x.obf.slots) && (x.chain.Some? ==> HandOffFits(x.chain.value))
              && AllHooksOk(x.postUp) && AllHooksOk(x.postDown)
              && PeersFit(peers, lib)
  {
    InboundOkIff(x, lib);
    PeersFitIff(peers, lib);
    RendersOwn(x, peers, lib);
  }

  // ------------------------------------------------------------------ the default hooks

  lemma ForwardArgv(how: seq<string>, dir: string, i: Word)
    requires how == ["-I", "FORWARD", "1"] || how == ["-D", "FORWARD"]
    requires dir == "-i" || dir == "-o"
    ensures Split(Line(ForwardWords(how, dir, i)), ' ') == ["iptables"] + how + [dir, i, "-j", "ACCEPT"]
  {
    ForwardOk(how, dir, i);
    LineSplits(ForwardWords(how, dir, i));
  }

  lemma MasqueradeArgv(how: string, network: string, i: Word)
    requires (how == "-A" || how == "-D") && WordOk(network)
    ensures Split(Line(MasqueradeWords(how, network, i)), ' ') ==
              ["iptables", "-t", "nat", how, "POSTROUTING", "-s", network, "!", "-o", i, "-j", "MASQUERADE"]
  {
    MasqueradeOk(how, network, i);
    LineSplits(MasqueradeWords(how, network, i));
  }

  /**
    What an interface that names no hooks runs coming up: what it forwards in and out is
    accepted, and what its peers' network sends out elsewhere is masqueraded, if it has
    a network to name.
  */
  lemma DefaultUpArgv(i: Word, address: string)
    ensures var lines, network := DefaultUp(i, address), Cidr.PeerNetwork(address);
      && |lines| == (if network == "" then 2 else 3)
      && Split(lines[0], ' ') == ["iptables", "-I", "FORWARD", "1", "-i", i, "-j", "ACCEPT"]
      && Split(lines[1], ' ') == ["iptables", "-I", "FORWARD", "1", "-o", i, "-j", "ACCEPT"]
      && (network != "" ==>
            Split(lines[2], ' ') ==
              ["iptables", "-t", "nat", "-A", "POSTROUTING", "-s", network, "!", "-o", i, "-j", "MASQUERADE"])
  {
    ForwardArgv(["-I", "FORWARD", "1"], "-i", i);
    ForwardArgv(["-I", "FORWARD", "1"], "-o", i);
    NetworkOk(address);
    if Cidr.PeerNetwork(address) != "" {
      MasqueradeArgv("-A", Cidr.PeerNetwork(address), i);
    }
  }

  /** And going down, the same rules away. */
  lemma DefaultDownArgv(i: Word, address: string)
    ensures var lines, network := DefaultDown(i, address), Cidr.PeerNetwork(address);
      && |lines| == (if network == "" then 2 else 3)
      && Split(lines[0], ' ') == ["iptables", "-D", "FORWARD", "-i", i, "-j", "ACCEPT"]
      && Split(lines[1], ' ') == ["iptables", "-D", "FORWARD", "-o", i, "-j", "ACCEPT"]
      && (network != "" ==>
            Split(lines[2], ' ') ==
              ["iptables", "-t", "nat", "-D", "POSTROUTING", "-s", network, "!", "-o", i, "-j", "MASQUERADE"])
  {
    ForwardArgv(["-D", "FORWARD"], "-i", i);
    ForwardArgv(["-D", "FORWARD"], "-o", i);
    NetworkOk(address);
    if Cidr.PeerNetwork(address) != "" {
      MasqueradeArgv("-D", Cidr.PeerNetwork(address), i);
    }
  }
}
