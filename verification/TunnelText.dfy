/**
  What the agent accepts as a leg tunnel (chain/tunnels.go:26-107): its name, its
  port, and a config text that may name only listed keys, since the tool that
  raises the tunnel would run some of the others as shell commands.
*/
module TunnelText {
  import opened Text

  datatype Tunnel = Tunnel(iface: string, conf: string, listenPort: int)

  // The longest line the scanner hands over is one byte shorter than its buffer.
  const SCAN_BUFFER := 65536

  const PREFIX := "awg-l"

  const INTERFACE_KEYS: set<string> :=
    {"PrivateKey", "Address", "ListenPort", "Table", "MTU", "Jc", "Jmin", "Jmax",
     "S1", "S2", "S3", "S4", "H1", "H2", "H3", "H4"}

  const PEER_KEYS: set<string> :=
    {"PublicKey", "PresharedKey", "Endpoint", "AllowedIPs", "PersistentKeepalive"}

  datatype Section = NoSection | InterfaceSection | PeerSection

  /** A line as the check reads it. */
  datatype Line = Nothing | Header(section: Section) | Setting(key: string) | Refused

  predicate AllDigits(s: string) {
    forall i :: 0 <= i < |s| ==> IsDigit(s[i])
  }

  /** The name of a leg tunnel: the prefix and one to three digits. */
  predicate LegName(s: string) {
    |PREFIX| < |s| <= |PREFIX| + 3 && PREFIX <= s && AllDigits(s[|PREFIX|..])
  }

  predicate IsPort(p: int) { 0 <= p <= 65535 }

  function ReadLine(raw: string): Line {
    var line := Trim(raw);
    if line == "" || line[0] == '#' then Nothing
    else if line[0] == '[' && line[|line| - 1] == ']' then
      if line == "[Interface]" then Header(InterfaceSection)
      else if line == "[Peer]" then Header(PeerSection)
      else Refused
    else
      var (key, value) := Cut(line, '=');
      if value.None? then Refused else Setting(Trim(key))
  }

  predicate KeyAllowed(section: Section, key: string) {
    match section
    case NoSection => false
    case InterfaceSection => key in INTERFACE_KEYS
    case PeerSection => key in PEER_KEYS
  }

  // ------------------------------------------------------- what a text must be

  function ReadLines(raw: seq<string>): (r: seq<Line>)
    ensures |r| == |raw|
    ensures forall i :: 0 <= i < |raw| ==> r[i] == ReadLine(raw[i])
  {
    if raw == [] then [] else ReadLines(raw[..|raw| - 1]) + [ReadLine(raw[|raw| - 1])]
  }

  /** The section a line stands in: that of the last header above it. */
  function SectionAt(lines: seq<Line>): Section {
    if lines == [] then NoSection
    else if lines[|lines| - 1].Header? then lines[|lines| - 1].section
    else SectionAt(lines[..|lines| - 1])
  }

  predicate LineAllowed(lines: seq<Line>, i: nat)
    requires i < |lines|
  {
    match lines[i]
    case Nothing => true
    case Header(_) => true
    case Setting(key) => KeyAllowed(SectionAt(lines[..i]), key)
    case Refused => false
  }

  predicate AllAllowed(lines: seq<Line>) {
    forall i :: 0 <= i < |lines| ==> LineAllowed(lines, i)
  }

  ghost predicate OnlyAt(lines: seq<Line>, h: Line, i: nat) {
    i < |lines| && lines[i] == h && forall j :: 0 <= j < |lines| && lines[j] == h ==> j == i
  }

  ghost predicate Once(lines: seq<Line>, h: Line) {
    exists i :: OnlyAt(lines, h, i)
  }

  ghost predicate AtMostOnce(lines: seq<Line>, h: Line) {
    forall i, j :: 0 <= i < j < |lines| && lines[i] == h ==> lines[j] != h
  }

  /** A leg tunnel's text: each key listed for its section, one interface, one peer. */
  ghost predicate WellFormed(lines: seq<Line>) {
    AllAllowed(lines) && Once(lines, Header(InterfaceSection)) && Once(lines, Header(PeerSection))
  }

  /** The lines the scanner hands over: all of them, up to one it has no room for. */
  function Scanned(raw: seq<string>): (r: seq<string>) {
    if raw == [] || |raw[0]| >= SCAN_BUFFER then [] else [raw[0]] + Scanned(raw[1..])
  }

  ghost predicate Accepted(t: Tunnel) {
    && LegName(t.iface)
    && IsPort(t.listenPort)
    && WellFormed(ReadLines(Scanned(Split(t.conf, '\n'))))
  }

  // ----------------------------------------------------------------- the check

  /** The state of the scan: the section, and which headers were seen. */
  ghost predicate ScanState(lines: seq<Line>, section: Section, seenInterface: bool, seenPeer: bool) {
    && AllAllowed(lines)
    && section == SectionAt(lines)
    && AtMostOnce(lines, Header(InterfaceSection)) && AtMostOnce(lines, Header(PeerSection))
    && (seenInterface <==> Header(InterfaceSection) in lines)
    && (seenPeer <==> Header(PeerSection) in lines)
  }

  lemma Extends(lines: seq<Line>, line: Line)
    ensures AllAllowed(lines + [line]) <==> AllAllowed(lines) && LineAllowed(lines + [line], |lines|)
    ensures forall h :: AtMostOnce(lines + [line], h) <==> AtMostOnce(lines, h) && (h == line ==> h !in lines)
  {
    var more := lines + [line];
    assert more[..|lines|] == lines;
    forall i: nat | i < |lines| ensures LineAllowed(more, i) <==> LineAllowed(lines, i) {
      assert more[..i] == lines[..i];
    }
    forall h ensures AtMostOnce(more, h) <==> AtMostOnce(lines, h) && (h == line ==> h !in lines) {
      if AtMostOnce(more, h) {
        forall i, j | 0 <= i < j < |lines| && lines[i] == h ensures lines[j] != h {
          assert more[i] == h && more[j] == lines[j];
        }
        assert forall i :: 0 <= i < |lines| ==> more[i] == lines[i];
        assert more[|lines|] == line;
      }
    }
  }

  /** What is wrong with the lines so far. */
  ghost predicate Wrong(lines: seq<Line>) {
    !AllAllowed(lines) || !AtMostOnce(lines, Header(InterfaceSection)) || !AtMostOnce(lines, Header(PeerSection))
  }

  /** It stays wrong whatever follows. */
  lemma WrongStays(lines: seq<Line>, more: seq<Line>)
    requires Wrong(lines)
    ensures !WellFormed(lines + more)
  {
    if !AllAllowed(lines) {
      var i: nat :| i < |lines| && !LineAllowed(lines, i);
      assert (lines + more)[..i] == lines[..i];
      assert !LineAllowed(lines + more, i);
    } else {
      var h := if AtMostOnce(lines, Header(PeerSection)) then Header(InterfaceSection) else Header(PeerSection);
      var i, j :| 0 <= i < j < |lines| && lines[i] == h && lines[j] == h;
      assert (lines + more)[i] == h && (lines + more)[j] == h;
    }
  }

  lemma OnceIff(lines: seq<Line>, h: Line)
    ensures Once(lines, h) <==> AtMostOnce(lines, h) && h in lines
  {
    if AtMostOnce(lines, h) && h in lines {
      var i: nat :| i < |lines| && lines[i] == h;
      assert OnlyAt(lines, h, i);
    }
  }

  /** One line: refused, or the next state of the scan. */
  method OneLine(ghost lines: seq<Line>, line: Line, section: Section, seenInterface: bool, seenPeer: bool)
    returns (ok: bool, section': Section, seenInterface': bool, seenPeer': bool)
    requires line.Header? ==> line.section != NoSection
    requires ScanState(lines, section, seenInterface, seenPeer)
    ensures ok ==> ScanState(lines + [line], section', seenInterface', seenPeer')
    ensures !ok ==> Wrong(lines + [line])
  {
    Extends(lines, line);
    assert (lines + [line])[..|lines|] == lines;
    ok, section', seenInterface', seenPeer' := true, section, seenInterface, seenPeer;
    match line
    case Nothing =>
    case Header(s) =>
      section' := s;
      if s == InterfaceSection {
        ok, seenInterface' := !seenInterface, true;
      } else {
        ok, seenPeer' := !seenPeer, true;
      }
      if !ok {
        assert !AtMostOnce(lines + [line], line);
      }
    case Setting(key) =>
      ok := KeyAllowed(section, key);
    case Refused =>
      ok := false;
  }

  lemma HeadersHaveSections(raw: string)
    ensures ReadLine(raw).Header? ==> ReadLine(raw).section != NoSection
  {
  }

  /** The check accepts exactly a leg tunnel's name, a port, and a well-formed text as far as it is scanned. */
  method ValidateTunnel(t: Tunnel) returns (ok: bool)
    ensures ok <==> Accepted(t)
  {
    if !LegName(t.iface) || !IsPort(t.listenPort) {
      return false;
    }
    var raw := Scanned(Split(t.conf, '\n'));
    ghost var all := ReadLines(raw);
    var section, seenInterface, seenPeer := NoSection, false, false;
    for i := 0 to |raw|
      invariant ScanState(all[..i], section, seenInterface, seenPeer)
    {
      var good;
      HeadersHaveSections(raw[i]);
      assert all[..i + 1] == all[..i] + [ReadLine(raw[i])];
      good, section, seenInterface, seenPeer := OneLine(all[..i], ReadLine(raw[i]), section, seenInterface, seenPeer);
      if !good {
        assert all == all[..i + 1] + all[i + 1..];
        WrongStays(all[..i + 1], all[i + 1..]);
        return false;
      }
    }
    assert all[..|raw|] == all;
    OnceIff(all, Header(InterfaceSection));
    OnceIff(all, Header(PeerSection));
    return seenInterface && seenPeer;
  }

  // ------------------------------------------------------- the text and the scan

  ghost predicate NoLongLine(raw: seq<string>) {
    forall i :: 0 <= i < |raw| ==> |raw[i]| < SCAN_BUFFER
  }

  lemma {:induction false} ScannedAll(raw: seq<string>)
    ensures Scanned(raw) == raw <==> NoLongLine(raw)
  {
    if raw != [] && |raw[0]| < SCAN_BUFFER {
      ScannedAll(raw[1..]);
      assert raw == [raw[0]] + raw[1..];
      if NoLongLine(raw[1..]) {
        assert NoLongLine(raw);
      } else {
        assert !NoLongLine(raw);
        assert Scanned(raw)[1..] == Scanned(raw[1..]);
      }
    }
  }

  /** A text without an over-long line is accepted only if all of it is well-formed. */
  lemma WholeTextChecked(t: Tunnel)
    requires NoLongLine(Split(t.conf, '\n'))
    ensures Accepted(t) <==> LegName(t.iface) && IsPort(t.listenPort) && WellFormed(ReadLines(Split(t.conf, '\n')))
  {
    ScannedAll(Split(t.conf, '\n'));
  }

  lemma {:induction false} ScannedStops(raw: seq<string>, long: string, rest: seq<string>)
    requires |long| >= SCAN_BUFFER
    ensures Scanned(raw + [long] + rest) == Scanned(raw)
  {
    if raw == [] {
      assert raw + [long] + rest == [long] + rest;
    } else {
      assert (raw + [long] + rest)[1..] == raw[1..] + [long] + rest;
      ScannedStops(raw[1..], long, rest);
    }
  }

  lemma {:induction false} SplitAppend(s: string, t: string, c: char)
    ensures Split(s + [c] + t, c) == Split(s, c) + Split(t, c)
    decreases |s|
  {
    CutShorter(s, c);
    CutParts(s, c);
    var (head, tail) := Cut(s, c);
    if tail.None? {
      assert head == s;
      CutAt(s, c, t);
    } else {
      assert s + [c] + t == head + [c] + (tail.value + [c] + t);
      CutAt(head, c, tail.value + [c] + t);
      SplitAppend(tail.value, t, c);
    }
  }

  /**
    With one, the scan stops there without a word: whatever follows the over-long
    line, the verdict is that of the text before it.
  */
  lemma RestIsNotRead(t: Tunnel, long: string, rest: string)
    requires Lacks(long, '\n') && |long| >= SCAN_BUFFER
    ensures Accepted(t.(conf := t.conf + "\n" + long + "\n" + rest)) <==> Accepted(t)
  {
    var whole := t.conf + "\n" + long + "\n" + rest;
    SplitAppend(t.conf + "\n" + long, rest, '\n');
    SplitAppend(t.conf, long, '\n');
    CutLacks(long, '\n');
    assert Split(long, '\n') == [long];
    ScannedStops(Split(t.conf, '\n'), long, Split(rest, '\n'));
  }

  // -------------------------------------------------------------- what it refuses

  const HOOKS: set<string> := {"PreUp", "PostUp", "PreDown", "PostDown", "DNS"}

  lemma HooksAreNotListed(hook: string)
    requires hook in HOOKS
    ensures hook !in INTERFACE_KEYS && hook !in PEER_KEYS
  {
    if hook == "PreUp" {
      assert "PreUp"[1] == 'r';
    } else if hook == "PostUp" {
      assert "PostUp"[1] == 'o';
    } else if hook == "PreDown" {
      assert "PreDown"[1] == 'r';
    } else if hook == "PostDown" {
      assert "PostDown"[1] == 'o';
    } else {
      assert hook == "DNS";
      assert "DNS"[1] == 'N';
    }
  }

  lemma AllowedIsListed(lines: seq<Line>, i: nat)
    requires i < |lines| && AllAllowed(lines) && lines[i].Setting?
    ensures lines[i].key in INTERFACE_KEYS || lines[i].key in PEER_KEYS
  {
    assert LineAllowed(lines, i);
  }

  /** No line of an accepted text that is read carries a key outside both lists: no hook, no resolver. */
  lemma NoOtherKey(t: Tunnel, raw: string)
    requires Accepted(t) && raw in Scanned(Split(t.conf, '\n'))
    requires ReadLine(raw).Setting?
    ensures ReadLine(raw).key !in HOOKS
  {
    var raws := Scanned(Split(t.conf, '\n'));
    var i: nat :| i < |raws| && raws[i] == raw;
    AllowedIsListed(ReadLines(raws), i);
    if ReadLine(raw).key in HOOKS {
      HooksAreNotListed(ReadLine(raw).key);
    }
  }

  // ------------------------------------------------- what an over-long line lets through

  const HOOK_LINE := "PostUp = x"

  predicate Solid(s: string) {
    s != "" && !IsBlank(s[0]) && !IsBlank(s[|s| - 1])
  }

  lemma TrimBlankAfter(key: string)
    requires Solid(key)
    ensures Trim(key + " ") == key
  {
    var s := key + " ";
    assert TrimLeft(s) == s;
    assert s[..|s| - 1] == key;
    assert TrimRight(s) == TrimRight(key);
    TrimNothing(key);
  }

  lemma SettingReads(key: string, value: string)
    requires Solid(key) && key[0] != '#' && key[0] != '[' && Lacks(key, '=') && Solid(value)
    ensures ReadLine(key + " = " + value) == Setting(key)
  {
    var line := key + " = " + value;
    TrimNothing(line);
    assert line == (key + " ") + ['='] + (" " + value);
    CutAt(key + " ", '=', " " + value);
    TrimBlankAfter(key);
  }

  lemma HookLineIs()
    ensures HOOK_LINE == "PostUp" + " = " + "x"
    ensures Lacks("PostUp", '=')
    ensures Lacks(HOOK_LINE, '\n') && |HOOK_LINE| < SCAN_BUFFER
  {
  }

  lemma HookLineReads()
    ensures ReadLine(HOOK_LINE) == Setting("PostUp")
    ensures Lacks(HOOK_LINE, '\n') && |HOOK_LINE| < SCAN_BUFFER
  {
    HookLineIs();
    SettingReads("PostUp", "x");
  }

  /** What follows an over-long line is not scanned. */
  lemma {:induction false} ScannedIgnores(raw: seq<string>, more: seq<string>)
    requires !NoLongLine(raw)
    ensures Scanned(raw + more) == Scanned(raw)
  {
    assert raw != [];
    assert (raw + more)[0] == raw[0];
    if |raw[0]| < SCAN_BUFFER {
      assert (raw + more)[1..] == raw[1..] + more;
      var i :| 0 <= i < |raw| && |raw[i]| >= SCAN_BUFFER;
      assert raw[1..][i - 1] == raw[i];
      ScannedIgnores(raw[1..], more);
    }
  }

  function WithLine(t: Tunnel, rest: string): Tunnel {
    t.(conf := t.conf + "\n" + rest)
  }

  lemma HookIsRefused(lines: seq<Line>)
    requires lines != [] && lines[|lines| - 1] == Setting("PostUp")
    ensures !WellFormed(lines)
  {
    HooksAreNotListed("PostUp");
    assert !LineAllowed(lines, |lines| - 1);
  }

  /**
    An accepted text with an over-long line goes on being accepted with a hook at its
    end, which no well-formed text has.
  */
  lemma HookAfterLongLine(t: Tunnel)
    requires Accepted(t) && !NoLongLine(Split(t.conf, '\n'))
    ensures Accepted(WithLine(t, HOOK_LINE)) && !WellFormed(ReadLines(Split(WithLine(t, HOOK_LINE).conf, '\n')))
  {
    var raw := Split(t.conf, '\n');
    HookLineReads();
    SplitAppend(t.conf, HOOK_LINE, '\n');
    CutLacks(HOOK_LINE, '\n');
    assert Split(HOOK_LINE, '\n') == [HOOK_LINE];
    ScannedIgnores(raw, [HOOK_LINE]);
    assert t.conf + "\n" + HOOK_LINE == t.conf + ['\n'] + HOOK_LINE;
    HookIsRefused(ReadLines(raw + [HOOK_LINE]));
  }

  /** An over-long line put after an accepted text leaves it accepted. */
  lemma LongLineAdded(t: Tunnel, long: string)
    requires Accepted(t) && Lacks(long, '\n') && |long| >= SCAN_BUFFER
    ensures Accepted(WithLine(t, long)) && !NoLongLine(Split(WithLine(t, long).conf, '\n'))
  {
    var raw := Split(t.conf, '\n');
    SplitAppend(t.conf, long, '\n');
    CutLacks(long, '\n');
    assert Split(long, '\n') == [long];
    assert t.conf + "\n" + long == t.conf + ['\n'] + long;
    assert raw + [long] + [] == raw + [long];
    ScannedStops(raw, long, []);
    assert (raw + [long])[|raw|] == long;
  }

  lemma TwoLinesScanned(first: string, second: string)
    requires Lacks(first, '\n') && |first| < SCAN_BUFFER && Lacks(second, '\n') && |second| < SCAN_BUFFER
    ensures Scanned(Split(first + "\n" + second, '\n')) == [first, second]
  {
    var raw := [first, second];
    CutAt(first, '\n', second);
    CutLacks(second, '\n');
    assert first + "\n" + second == first + ['\n'] + second;
    assert Split(second, '\n') == [second];
    assert Split(first + "\n" + second, '\n') == raw;
    assert NoLongLine(raw);
    ScannedAll(raw);
  }

  /** Two headers are a text already. */
  lemma TwoHeaders(lines: seq<Line>)
    requires lines == [Header(InterfaceSection), Header(PeerSection)]
    ensures WellFormed(lines)
  {
    assert OnlyAt(lines, Header(InterfaceSection), 0);
    assert OnlyAt(lines, Header(PeerSection), 1);
  }

  lemma HeadersRead()
    ensures ReadLine("[Interface]") == Header(InterfaceSection) && ReadLine("[Peer]") == Header(PeerSection)
    ensures Lacks("[Interface]", '\n') && Lacks("[Peer]", '\n')
  {
    TrimNothing("[Interface]");
    TrimNothing("[Peer]");
  }

  /** There are such texts: two headers and any one line of 64 KiB. */
  lemma LongLineAccepted(long: string)
    requires Lacks(long, '\n') && |long| >= SCAN_BUFFER
    ensures var t := Tunnel("awg-l1", "[Interface]" + "\n" + "[Peer]" + "\n" + long, 0);
      Accepted(t) && !NoLongLine(Split(t.conf, '\n'))
  {
    HeadersRead();
    TwoLinesScanned("[Interface]", "[Peer]");
    TwoHeaders(ReadLines(["[Interface]", "[Peer]"]));
    assert "awg-l1"[|PREFIX|..] == "1";
    LongLineAdded(Tunnel("awg-l1", "[Interface]" + "\n" + "[Peer]", 0), long);
  }

  /** Whatever lines follow the text, none of them over-long, the verdict on the whole is that of all its lines. */
  ghost predicate VouchesForMore(t: Tunnel) {
    forall rest :: NoLongLine(Split(rest, '\n')) ==>
      (Accepted(WithLine(t, rest)) <==> WellFormed(ReadLines(Split(WithLine(t, rest).conf, '\n'))))
  }

  /** An accepted text's verdict speaks for what is put after it exactly when it holds no over-long line. */
  lemma VouchesIffNoLongLine(t: Tunnel)
    requires Accepted(t)
    ensures VouchesForMore(t) <==> NoLongLine(Split(t.conf, '\n'))
  {
    if NoLongLine(Split(t.conf, '\n')) {
      forall rest | NoLongLine(Split(rest, '\n'))
        ensures Accepted(WithLine(t, rest)) <==> WellFormed(ReadLines(Split(WithLine(t, rest).conf, '\n')))
      {
        SplitAppend(t.conf, rest, '\n');
        assert t.conf + "\n" + rest == t.conf + ['\n'] + rest;
        WholeTextChecked(WithLine(t, rest));
      }
    } else {
      HookAfterLongLine(t);
      HookLineReads();
      CutLacks(HOOK_LINE, '\n');
      assert Split(HOOK_LINE, '\n') == [HOOK_LINE];
      assert NoLongLine(Split(HOOK_LINE, '\n'));
    }
  }

  // --------------------------------------------------------------- names, ports, keys

  /** A leg is named "awg-l" and one, two or three digits. */
  lemma LegNameIff(s: string)
    ensures LegName(s) <==>
              && (|s| == 6 || |s| == 7 || |s| == 8) && s[..5] == "awg-l"
              && forall i :: 5 <= i < |s| ==> s[i] in {'0', '1', '2', '3', '4', '5', '6', '7', '8', '9'}
  {
    assert |PREFIX| == 5;
    if LegName(s) {
      forall i | 5 <= i < |s| ensures IsDigit(s[i]) {
        assert s[5..][i - 5] == s[i];
      }
    }
  }

  /** No setting stands before the first header; after it, only those of its section. */
  lemma KeysOfSection(key: string)
    ensures !KeyAllowed(NoSection, key)
    ensures KeyAllowed(InterfaceSection, key) <==>
              key in {"PrivateKey", "Address", "ListenPort", "Table", "MTU", "Jc", "Jmin", "Jmax",
                      "S1", "S2", "S3", "S4", "H1", "H2", "H3", "H4"}
    ensures KeyAllowed(PeerSection, key) <==>
              key in {"PublicKey", "PresharedKey", "Endpoint", "AllowedIPs", "PersistentKeepalive"}
  {
  }

  /** What an accepted tunnel is called and where it listens. */
  lemma AcceptedNamed(t: Tunnel)
    ensures Accepted(t) <==>
              && LegName(t.iface) && 0 <= t.listenPort && t.listenPort <= 65535
              && WellFormed(ReadLines(Scanned(Split(t.conf, '\n'))))
  {
  }
}
