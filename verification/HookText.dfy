/**
  The shell lines of an interface (config.go:29-60, 148-193; chain_tproxy.go:52-91):
  which are let through, the interface's own, and those of the hand-off to the
  chain, each written for the rule it adds or deletes.
*/
module HookText {
  import opened Common
  import opened Text
  import opened HandOff
  import Ini
  import Numbers

  // ------------------------------------------------------------------ the whitelist

  const PREFIXES: seq<string> := ["iptables ", "ip6tables ", "ip ", "sysctl ", "echo "]

  predicate ShellChar(c: char) {
    c == ';' || c == '&' || c == '|' || c == '$' || c == '`' || c == '\n' || c == '>' || c == '<'
  }

  predicate NoShell(cmd: string) {
    forall i :: 0 <= i < |cmd| ==> !ShellChar(cmd[i])
  }

  predicate Whitelisted(cmd: string) {
    exists i :: 0 <= i < |PREFIXES| && PREFIXES[i] <= cmd
  }

  /** validatePostHook. */
  predicate HookOk(cmd: string) {
    cmd == "" || (NoShell(cmd) && Whitelisted(cmd))
  }

  predicate AllHooksOk(cmds: seq<string>) {
    forall i :: 0 <= i < |cmds| ==> HookOk(cmds[i])
  }

  // ------------------------------------------------------------- lines made of words

  predicate WordChar(c: char) {
    IsDigit(c) || 'a' <= c <= 'z' || 'A' <= c <= 'Z' || c == '-' || c == '.' || c == '/' || c == '%' || c == '!'
  }

  predicate WordOk(s: string) {
    s != "" && forall i :: 0 <= i < |s| ==> WordChar(s[i])
  }

  type Word = s: string | WordOk(s) witness "i"

  predicate WordsOk(ws: seq<string>) {
    ws != [] && forall i :: 0 <= i < |ws| ==> WordOk(ws[i])
  }

  function Line(ws: seq<string>): string {
    Join(ws, ' ')
  }

  lemma {:induction false} LineChars(ws: seq<string>)
    requires WordsOk(ws)
    ensures Line(ws) != "" && WordChar(Line(ws)[0]) && WordChar(Line(ws)[|Line(ws)| - 1])
    ensures forall i :: 0 <= i < |Line(ws)| ==> WordChar(Line(ws)[i]) || Line(ws)[i] == ' '
  {
    assert WordOk(ws[0]);
    if |ws| > 1 {
      LineChars(ws[1..]);
    }
  }

  /** The words of a line are what running it without a shell passes on. */
  lemma LineSplits(ws: seq<string>)
    requires WordsOk(ws)
    ensures Split(Line(ws), ' ') == ws
  {
    forall i | 0 <= i < |ws| ensures Lacks(ws[i], ' ') {
      assert WordOk(ws[i]);
    }
    SplitJoin(ws, ' ');
  }

  lemma ListedStart(line: string, command: string)
    requires (command == "ip" || command == "iptables") && command + " " <= line
    ensures Whitelisted(line)
  {
    if command == "ip" {
      assert PREFIXES[2] == "ip " && PREFIXES[2] <= line;
    } else {
      assert PREFIXES[0] == "iptables " && PREFIXES[0] <= line;
    }
  }

  lemma PlainChars(line: string)
    requires line != "" && WordChar(line[0]) && WordChar(line[|line| - 1])
    requires forall i :: 0 <= i < |line| ==> WordChar(line[i]) || line[i] == ' '
    ensures NoShell(line) && Lacks(line, '\n') && Ini.Plain(line) == line
  {
    CutLacks(line, '#');
    TrimNothing(line);
  }

  /** Such a line that starts with a listed command passes the whitelist, and a config gives it back unchanged. */
  lemma LineOk(ws: seq<string>)
    requires WordsOk(ws) && |ws| > 1 && (ws[0] == "ip" || ws[0] == "iptables")
    ensures HookOk(Line(ws)) && Lacks(Line(ws), '\n') && Ini.Plain(Line(ws)) == Line(ws)
  {
    LineChars(ws);
    PlainChars(Line(ws));
    assert Line(ws) == ws[0] + " " + Line(ws[1..]);
    ListedStart(Line(ws), ws[0]);
  }

  // ---------------------------------------------------------- the hand-off's lines

  function Mark(m: nat): string { "0x" + Numbers.Print(m, Numbers.Sixteen) }

  function Decimal(n: nat): string { Numbers.Print(n, Numbers.Ten) }

  function ProtoWord(p: Proto): string { if p.Tcp? then "tcp" else "udp" }

  predicate Printable(r: Rule) {
    match r
    case IpRule(m) => m >= 0
    case LocalRoute(m) => m >= 0
    case InputAccept(i, m) => WordOk(i) && m >= 0
    case LocalReturn(i) => WordOk(i)
    case Steer(i, _, port, m) => WordOk(i) && port >= 0 && m >= 0
    case Foreign(_) => false
  }

  function Mangle(how: string, i: string): seq<string> {
    ["iptables", "-t", "mangle", how, "PREROUTING", "-i", i]
  }

  function AcceptWords(i: string, m: nat): seq<string> {
    ["-i", i, "-m", "mark", "--mark", Mark(m), "-j", "ACCEPT"]
  }

  function SteerWords(p: Proto, port: nat, m: nat): seq<string> {
    ["-p", ProtoWord(p), "-j", "TPROXY", "--on-ip", "127.0.0.1", "--on-port", Decimal(port), "--tproxy-mark", Mark(m)]
  }

  /** The line that adds a rule. */
  function AddWords(r: Rule): seq<string>
    requires Printable(r)
  {
    match r
    case IpRule(m) => ["ip", "rule", "add", "fwmark", Mark(m), "lookup", Decimal(m)]
    case LocalRoute(m) => ["ip", "route", "add", "local", "0.0.0.0/0", "dev", "lo", "table", Decimal(m)]
    case InputAccept(i, m) => ["iptables", "-I", "INPUT", "1"] + AcceptWords(i, m)
    case LocalReturn(i) => Mangle("-A", i) + ["-m", "addrtype", "--dst-type", "LOCAL", "-j", "RETURN"]
    case Steer(i, p, port, m) => Mangle("-A", i) + SteerWords(p, port, m)
  }

  /** The line that deletes it. */
  function DelWords(r: Rule): seq<string>
    requires Printable(r)
  {
    match r
    case IpRule(m) => ["ip", "rule", "del", "fwmark", Mark(m), "lookup", Decimal(m)]
    case LocalRoute(m) => ["ip", "route", "del", "local", "0.0.0.0/0", "dev", "lo", "table", Decimal(m)]
    case InputAccept(i, m) => ["iptables", "-D", "INPUT"] + AcceptWords(i, m)
    case LocalReturn(i) => Mangle("-D", i) + ["-m", "addrtype", "--dst-type", "LOCAL", "-j", "RETURN"]
    case Steer(i, p, port, m) => Mangle("-D", i) + SteerWords(p, port, m)
  }

  lemma MarkOk(m: nat)
    ensures WordOk(Mark(m))
  {
    assert Numbers.DigitsOf(Numbers.Print(m, Numbers.Sixteen), Numbers.Sixteen);
  }

  lemma DecimalOk(n: nat)
    ensures WordOk(Decimal(n))
  {
    assert Numbers.DigitsOf(Decimal(n), Numbers.Ten);
  }

  lemma MarkInjective(m: nat, n: nat)
    requires Mark(m) == Mark(n)
    ensures m == n
  {
    assert Mark(m)[2..] == Numbers.Print(m, Numbers.Sixteen);
    assert Mark(n)[2..] == Numbers.Print(n, Numbers.Sixteen);
    Numbers.PrintInjective(m, n, Numbers.Sixteen);
  }

  lemma JoinOk(a: seq<string>, b: seq<string>)
    requires WordsOk(a) && WordsOk(b)
    ensures WordsOk(a + b)
  {
    forall i | 0 <= i < |a + b| ensures WordOk((a + b)[i]) {
      assert (a + b)[i] == if i < |a| then a[i] else b[i - |a|];
    }
  }

  lemma MangleOk(how: string, i: string)
    requires WordOk(how) && WordOk(i)
    ensures WordsOk(Mangle(how, i))
  {
    assert WordOk("iptables") && WordOk("-t") && WordOk("mangle") && WordOk("PREROUTING") && WordOk("-i");
  }

  lemma SteerTargetOk(p: Proto)
    ensures WordsOk(["-p", ProtoWord(p), "-j", "TPROXY", "--on-ip", "127.0.0.1"])
  {
    assert WordOk("-p") && WordOk(ProtoWord(p)) && WordOk("-j") && WordOk("TPROXY") && WordOk("--on-ip");
    assert WordOk("127.0.0.1");
  }

  lemma SteerPortOk(port: nat, m: nat)
    ensures WordsOk(["--on-port", Decimal(port), "--tproxy-mark", Mark(m)])
  {
    MarkOk(m);
    DecimalOk(port);
    assert WordOk("--on-port") && WordOk("--tproxy-mark");
  }

  lemma SteerOk(p: Proto, port: nat, m: nat)
    ensures WordsOk(SteerWords(p, port, m))
  {
    var target := ["-p", ProtoWord(p), "-j", "TPROXY", "--on-ip", "127.0.0.1"];
    var to := ["--on-port", Decimal(port), "--tproxy-mark", Mark(m)];
    SteerTargetOk(p);
    SteerPortOk(port, m);
    JoinOk(target, to);
    assert SteerWords(p, port, m) == target + to;
  }

  lemma IpRuleOk(how: string, m: nat)
    requires WordOk(how)
    ensures WordsOk(["ip", "rule", how, "fwmark", Mark(m), "lookup", Decimal(m)])
  {
    MarkOk(m);
    DecimalOk(m);
    assert WordOk("ip") && WordOk("rule") && WordOk("fwmark") && WordOk("lookup");
  }

  lemma LocalRouteOk(how: string, m: nat)
    requires WordOk(how)
    ensures WordsOk(["ip", "route", how, "local", "0.0.0.0/0", "dev", "lo", "table", Decimal(m)])
  {
    DecimalOk(m);
    assert WordOk("ip") && WordOk("route") && WordOk("local") && WordOk("0.0.0.0/0");
    assert WordOk("dev") && WordOk("lo") && WordOk("table");
  }

  lemma AcceptOk(i: string, m: nat)
    requires WordOk(i)
    ensures WordsOk(AcceptWords(i, m))
  {
    MarkOk(m);
    assert WordOk("-i") && WordOk("-m") && WordOk("mark") && WordOk("--mark") && WordOk("-j") && WordOk("ACCEPT");
  }

  predicate StartsWell(ws: seq<string>) {
    WordsOk(ws) && |ws| > 1 && (ws[0] == "ip" || ws[0] == "iptables")
  }

  lemma InputOk(start: seq<string>, i: string, m: nat)
    requires WordOk(i)
    requires start == ["iptables", "-I", "INPUT", "1"] || start == ["iptables", "-D", "INPUT"]
    ensures StartsWell(start + AcceptWords(i, m))
  {
    assert WordOk("iptables") && WordOk("-I") && WordOk("-D") && WordOk("INPUT") && WordOk("1");
    AcceptOk(i, m);
    JoinOk(start, AcceptWords(i, m));
  }

  lemma ReturnOk()
    ensures WordsOk(["-m", "addrtype", "--dst-type", "LOCAL", "-j", "RETURN"])
  {
    assert WordOk("-m") && WordOk("addrtype") && WordOk("--dst-type") && WordOk("LOCAL") && WordOk("-j") &&
        WordOk("RETURN");
  }

  lemma MangledOk(how: string, i: string, rest: seq<string>)
    requires (how == "-A" || how == "-D") && WordOk(i) && WordsOk(rest)
    ensures StartsWell(Mangle(how, i) + rest)
  {
    MangleOk(how, i);
    JoinOk(Mangle(how, i), rest);
  }

  lemma RuleWordsOk(r: Rule)
    requires Printable(r)
    ensures StartsWell(AddWords(r)) && StartsWell(DelWords(r))
  {
    match r
    case IpRule(m) =>
      IpRuleOk("add", m);
      IpRuleOk("del", m);
    case LocalRoute(m) =>
      LocalRouteOk("add", m);
      LocalRouteOk("del", m);
    case InputAccept(i, m) =>
      InputOk(["iptables", "-I", "INPUT", "1"], i, m);
      InputOk(["iptables", "-D", "INPUT"], i, m);
    case LocalReturn(i) =>
      ReturnOk();
      MangledOk("-A", i, ["-m", "addrtype", "--dst-type", "LOCAL", "-j", "RETURN"]);
      MangledOk("-D", i, ["-m", "addrtype", "--dst-type", "LOCAL", "-j", "RETURN"]);
    case Steer(i, p, port, m) =>
      SteerOk(p, port, m);
      MangledOk("-A", i, SteerWords(p, port, m));
      MangledOk("-D", i, SteerWords(p, port, m));
  }

  function AddLines(rules: Rules): (r: seq<string>)
    requires forall i :: 0 <= i < |rules| ==> Printable(rules[i])
    ensures |r| == |rules| && forall i :: 0 <= i < |rules| ==> r[i] == Line(AddWords(rules[i]))
  {
    if rules == [] then [] else [Line(AddWords(rules[0]))] + AddLines(rules[1..])
  }

  function DelLines(rules: Rules): (r: seq<string>)
    requires forall i :: 0 <= i < |rules| ==> Printable(rules[i])
    ensures |r| == |rules| && forall i :: 0 <= i < |rules| ==> r[i] == Line(DelWords(rules[i]))
  {
    if rules == [] then [] else [Line(DelWords(rules[0]))] + DelLines(rules[1..])
  }

  /** The hand-off's lines are never refused by the whitelist they are put through. */
  lemma ChainLinesOk(i: string, t: TProxy)
    requires WordOk(i) && HandOff.Accepted(t)
    ensures AllHooksOk(AddLines(HookUp(i, t))) && AllHooksOk(DelLines(HookDown(i, t)))
  {
    forall k | 0 <= k < |HookUp(i, t)| ensures HookOk(AddLines(HookUp(i, t))[k]) {
      RuleWordsOk(HookUp(i, t)[k]);
      LineOk(AddWords(HookUp(i, t)[k]));
    }
    forall k | 0 <= k < |HookDown(i, t)| ensures HookOk(DelLines(HookDown(i, t))[k]) {
      RuleWordsOk(HookDown(i, t)[k]);
      LineOk(DelWords(HookDown(i, t)[k]));
    }
  }

  lemma SteerTells(p: Proto, port: nat, m: nat, q: Proto, port': nat, m': nat)
    requires SteerWords(p, port, m) == SteerWords(q, port', m')
    ensures p == q && port == port' && m == m'
  {
    var a, b := SteerWords(p, port, m), SteerWords(q, port', m');
    assert a[1] == b[1] && a[7] == b[7] && a[9] == b[9];
    assert "tcp"[0] != "udp"[0];
    Numbers.PrintInjective(port, port', Numbers.Ten);
    MarkInjective(m, m');
  }

  /** The words of one rule's line, adding or deleting. */
  function RuleWords(r: Rule, adds: bool): seq<string>
    requires Printable(r)
  {
    if adds then AddWords(r) else DelWords(r)
  }

  /** How many words a line has says what kind of rule it is for. */
  function KindLength(r: Rule, adds: bool): nat {
    match r
    case IpRule(_) => 7
    case LocalRoute(_) => 9
    case InputAccept(_, _) => if adds then 12 else 11
    case LocalReturn(_) => 13
    case Steer(_, _, _, _) => 17
    case Foreign(_) => 0
  }

  lemma WordsLength(r: Rule, adds: bool)
    requires Printable(r)
    ensures |RuleWords(r, adds)| == KindLength(r, adds)
  {
  }

  lemma SameIpRule(m: nat, n: nat, adds: bool)
    requires RuleWords(IpRule(m), adds) == RuleWords(IpRule(n), adds)
    ensures m == n
  {
    assert RuleWords(IpRule(m), adds)[6] == Decimal(m) && RuleWords(IpRule(n), adds)[6] == Decimal(n);
    Numbers.PrintInjective(m, n, Numbers.Ten);
  }

  lemma SameRoute(m: nat, n: nat, adds: bool)
    requires RuleWords(LocalRoute(m), adds) == RuleWords(LocalRoute(n), adds)
    ensures m == n
  {
    assert RuleWords(LocalRoute(m), adds)[8] == Decimal(m) && RuleWords(LocalRoute(n), adds)[8] == Decimal(n);
    Numbers.PrintInjective(m, n, Numbers.Ten);
  }

  lemma SameAccept(i: Word, m: nat, j: Word, n: nat, adds: bool)
    requires RuleWords(InputAccept(i, m), adds) == RuleWords(InputAccept(j, n), adds)
    ensures i == j && m == n
  {
    var a, b := RuleWords(InputAccept(i, m), adds), RuleWords(InputAccept(j, n), adds);
    var at := if adds then 4 else 3;
    assert a[at..] == AcceptWords(i, m) && b[at..] == AcceptWords(j, n);
    assert AcceptWords(i, m)[1] == AcceptWords(j, n)[1] && AcceptWords(i, m)[5] == AcceptWords(j, n)[5];
    MarkInjective(m, n);
  }

  lemma SameMangled(i: string, j: string, how: string, a: seq<string>, b: seq<string>)
    requires Mangle(how, i) + a == Mangle(how, j) + b
    ensures i == j && a == b
  {
    assert (Mangle(how, i) + a)[6] == i && (Mangle(how, j) + b)[6] == j;
    assert (Mangle(how, i) + a)[7..] == a && (Mangle(how, j) + b)[7..] == b;
  }

  /** A line is for one rule only. */
  lemma SameRule(r: Rule, q: Rule, adds: bool)
    requires Printable(r) && Printable(q) && RuleWords(r, adds) == RuleWords(q, adds)
    ensures r == q
  {
    WordsLength(r, adds);
    WordsLength(q, adds);
    var how := if adds then "-A" else "-D";
    match r
    case IpRule(m) => SameIpRule(m, q.mark, adds);
    case LocalRoute(m) => SameRoute(m, q.mark, adds);
    case InputAccept(i, m) => SameAccept(i, m, q.iface, q.mark, adds);
    case LocalReturn(i) =>
      var rest := ["-m", "addrtype", "--dst-type", "LOCAL", "-j", "RETURN"];
      SameMangled(i, q.iface, how, rest, rest);
    case Steer(i, p, port, m) =>
      SameMangled(i, q.iface, how, SteerWords(p, port, m), SteerWords(q.proto, q.port, q.mark));
      SteerTells(p, port, m, q.proto, q.port, q.mark);
  }

  /**
    Comparing lines is comparing rules: two hand-off lines are the same text exactly
    when they are for the same rule, adding or deleting.
  */
  lemma LinesTellRulesApart(r: Rule, q: Rule)
    requires Printable(r) && Printable(q)
    ensures Line(AddWords(r)) == Line(AddWords(q)) <==> r == q
    ensures Line(DelWords(r)) == Line(DelWords(q)) <==> r == q
  {
    RuleWordsOk(r);
    RuleWordsOk(q);
    LineSplits(AddWords(r));
    LineSplits(AddWords(q));
    LineSplits(DelWords(r));
    LineSplits(DelWords(q));
    if AddWords(r) == AddWords(q) {
      SameRule(r, q, true);
    }
    if DelWords(r) == DelWords(q) {
      SameRule(r, q, false);
    }
  }

  // -------------------------------------------------------------- the lines spelled out

  /** A port or a table is written in decimal, a mark in hexadecimal, and each reads back. */
  lemma NumbersRead(n: nat)
    ensures Numbers.Read(Decimal(n), Numbers.Ten) == Some(n)
    ensures Mark(n)[..2] == "0x" && Numbers.Read(Mark(n)[2..], Numbers.Sixteen) == Some(n)
  {
    Numbers.ReadPrint(n, Numbers.Ten);
    Numbers.ReadPrint(n, Numbers.Sixteen);
    assert Mark(n)[2..] == Numbers.Print(n, Numbers.Sixteen);
  }

  lemma LineOfRule(r: Rule, adds: bool)
    requires Printable(r)
    ensures Split(Line(RuleWords(r, adds)), ' ') == RuleWords(r, adds)
  {
    RuleWordsOk(r);
    LineSplits(RuleWords(r, adds));
  }

  /** The mark's lookup, in a table of the same number. */
  lemma IpRuleArgv(m: nat, adds: bool)
    ensures Split(Line(RuleWords(IpRule(m), adds)), ' ') ==
              ["ip", "rule", if adds then "add" else "del", "fwmark", Mark(m), "lookup", Decimal(m)]
  {
    LineOfRule(IpRule(m), adds);
  }

  /** Everything in that table is delivered to this node. */
  lemma LocalRouteArgv(m: nat, adds: bool)
    ensures Split(Line(RuleWords(LocalRoute(m), adds)), ' ') ==
              ["ip", "route", if adds then "add" else "del", "local", "0.0.0.0/0", "dev", "lo", "table", Decimal(m)]
  {
    LineOfRule(LocalRoute(m), adds);
  }

  /** What carries the mark is accepted, at the top of INPUT. */
  lemma AcceptArgv(i: Word, m: nat, adds: bool)
    ensures Split(Line(RuleWords(InputAccept(i, m), adds)), ' ') ==
              (if adds then ["iptables", "-I", "INPUT", "1"] else ["iptables", "-D", "INPUT"]) +
              ["-i", i, "-m", "mark", "--mark", Mark(m), "-j", "ACCEPT"]
  {
    LineOfRule(InputAccept(i, m), adds);
  }

  /** The node's own traffic is let out. */
  lemma ReturnArgv(i: Word, adds: bool)
    ensures Split(Line(RuleWords(LocalReturn(i), adds)), ' ') ==
              ["iptables", "-t", "mangle", if adds then "-A" else "-D", "PREROUTING", "-i", i,
               "-m", "addrtype", "--dst-type", "LOCAL", "-j", "RETURN"]
  {
    LineOfRule(LocalReturn(i), adds);
  }

  /** A protocol is steered to the port under the mark. */
  lemma SteerArgv(i: Word, p: Proto, port: nat, m: nat, adds: bool)
    ensures Split(Line(RuleWords(Steer(i, p, port, m), adds)), ' ') ==
              ["iptables", "-t", "mangle", if adds then "-A" else "-D", "PREROUTING", "-i", i,
               "-p", if p.Tcp? then "tcp" else "udp", "-j", "TPROXY", "--on-ip", "127.0.0.1",
               "--on-port", Decimal(port), "--tproxy-mark", Mark(m)]
  {
    LineOfRule(Steer(i, p, port, m), adds);
  }

  // ------------------------------------------------------------ what is let through

  const SHELL_CHARS: set<char> := {';', '&', '|', '$', '`', '\n', '<', '>'}

  /** A hook is let through exactly when it is empty, or one of five commands with nothing a shell would act on. */
  lemma HookOkIff(cmd: string)
    ensures HookOk(cmd) <==>
              || cmd == ""
              || ((forall i :: 0 <= i < |cmd| ==> cmd[i] !in SHELL_CHARS) &&
                  ("iptables " <= cmd || "ip6tables " <= cmd || "ip " <= cmd || "sysctl " <= cmd || "echo " <= cmd))
  {
    assert PREFIXES[0] == "iptables " && PREFIXES[1] == "ip6tables " && PREFIXES[2] == "ip ";
    assert PREFIXES[3] == "sysctl " && PREFIXES[4] == "echo ";
  }
}
