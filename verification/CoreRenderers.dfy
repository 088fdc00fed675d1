/**
  The two renderers of a node's core versions: the panel's install command
  (core-versions.ts:383-389, 483-499, 591-627) and the agent's core-env lines
  (coreenv.go:85-126). Each writes a version only beside its checksum.
*/
module CoreRenderers {
  import opened Common
  import opened Text
  import opened VersionText

  datatype Component = Xray | Singbox | Hysteria | AwgModule | AwgTools | Mtg | Mita | CaddyNaive
  datatype Engine = EngXray | EngSingbox | EngHysteria | EngAmneziawg | EngMtproto | EngMieru | EngNaive
  datatype Arch = Amd64 | Arm64 | Armv7

  const COMPONENTS: seq<Component> := [Xray, Singbox, Hysteria, AwgModule, AwgTools, Mtg, Mita, CaddyNaive]

  /** The same by name, as sort.Strings puts their keys. */
  const BY_NAME: seq<Component> := [AwgModule, AwgTools, CaddyNaive, Hysteria, Mita, Mtg, Singbox, Xray]

  /** A release: by the sha256 of its file for an arch, or by the commit its tag is at ("" for none). */
  datatype Release = Release(version: string, tag: string, assets: map<Arch, string>, commit: string)

  datatype Entry = Entry(engine: Engine, releases: seq<Release>, pinned: Option<string>)

  type Manifest = Component -> Entry

  /** A key of an intent is any text: a component's name, or another. */
  datatype Key = Of(component: Component) | Unknown(name: string)

  /** An intent: a version under each key, or none under a key that is there all the same. */
  type Intent = map<Key, Option<string>>

  type Prefix(==, !new, 0)

  /** A variable line: <prefix>_VERSION=…, _SHA256=…, _TAG=… or _SHA=…. */
  datatype Field = VERSION | SHA256 | TAG | SHA
  datatype Line = Line(prefix: Prefix, field: Field, value: string)

  // ------------------------------------------------------------------ the manifest

  function Find(rs: seq<Release>, version: string): Option<Release> {
    if rs == [] then None else if rs[0].version == version then Some(rs[0]) else Find(rs[1..], version)
  }

  /** coreReleaseOf. */
  function ReleaseOf(m: Manifest, c: Component, version: string): Option<Release> {
    var v := Normalize(version);
    if v.None? then None else Find(m(c).releases, v.value)
  }

  lemma {:induction false} FoundIsListed(rs: seq<Release>, version: string)
    ensures Find(rs, version).Some? ==> Find(rs, version).value in rs && Find(rs, version).value.version == version
    ensures Find(rs, version).None? <==> forall i :: 0 <= i < |rs| ==> rs[i].version != version
  {
    if rs != [] && rs[0].version != version {
      FoundIsListed(rs[1..], version);
    }
  }

  /** The version the intent names for a component. */
  function Choice(intent: Intent, c: Component): Option<string> {
    if Of(c) in intent then intent[Of(c)] else None
  }

  /** The release a node is meant to get: its choice, else the pin. */
  function Chosen(m: Manifest, intent: Intent, c: Component): Option<Release> {
    if Choice(intent, c).Some? then ReleaseOf(m, c, Choice(intent, c).value)
    else if m(c).pinned.Some? then ReleaseOf(m, c, m(c).pinned.value)
    else None
  }

  /** What is wrong with one key: no component has that name, or its version is not listed. */
  predicate KeyOk(m: Manifest, key: Key, version: Option<string>) {
    key.Of? && (version.Some? ==> ReleaseOf(m, key.component, version.value).Some?)
  }

  /** Every key is a component's, and every version named is a listed release of it. */
  ghost predicate ValidIntent(m: Manifest, intent: Intent) {
    forall k :: k in intent ==> KeyOk(m, k, intent[k])
  }

  /** Every pin is one of the listed releases. */
  ghost predicate PinsListed(m: Manifest) {
    forall c :: m(c).pinned.Some? ==> ReleaseOf(m, c, m(c).pinned.value).Some?
  }

  /** checkCoreVersionIntent: the keys something is wrong with. */
  method CheckIntent(m: Manifest, intent: Intent) returns (problems: set<Key>)
    ensures problems == set k | k in intent && !KeyOk(m, k, intent[k])
    ensures problems == {} <==> ValidIntent(m, intent)
  {
    problems := {};
    var todo := intent.Keys;
    while todo != {}
      invariant todo <= intent.Keys
      invariant problems == set k | k in intent && k !in todo && !KeyOk(m, k, intent[k])
    {
      var k :| k in todo;
      if k.Unknown? {
        problems := problems + {k};
      } else if intent[k].Some? && ReleaseOf(m, k.component, intent[k].value).None? {
        problems := problems + {k};
      }
      todo := todo - {k};
    }
    if ValidIntent(m, intent) {
      assert forall k :: k in intent ==> KeyOk(m, k, intent[k]);
    } else {
      var k :| k in intent && !KeyOk(m, k, intent[k]);
      assert k in problems;
    }
  }

  /** The version chosen for a component, else its pin; either is a listed release. */
  method ChosenOne(m: Manifest, intent: Intent, c: Component) returns (r: Option<Release>)
    requires PinsListed(m) && ValidIntent(m, intent)
    ensures r == Chosen(m, intent, c)
  {
    var version := if Choice(intent, c).Some? then Choice(intent, c) else m(c).pinned;
    if version.None? {
      return None;
    }
    if Of(c) in intent {
      assert KeyOk(m, Of(c), intent[Of(c)]);
    }
    return Some(ReleaseOf(m, c, version.value).value);
  }

  method ResolveAmong(m: Manifest, intent: Intent, cs: seq<Component>) returns (res: map<Component, Release>)
    requires PinsListed(m) && ValidIntent(m, intent)
    ensures forall c :: c in res <==> c in cs && Chosen(m, intent, c).Some?
    ensures forall c :: c in res ==> res[c] == Chosen(m, intent, c).value
  {
    res := map[];
    for k := 0 to |cs|
      invariant forall c :: c in res <==> c in cs[..k] && Chosen(m, intent, c).Some?
      invariant forall c :: c in res ==> res[c] == Chosen(m, intent, c).value
    {
      var r := ChosenOne(m, intent, cs[k]);
      assert cs[..k + 1] == cs[..k] + [cs[k]];
      if r.Some? {
        res := res[cs[k] := r.value];
      }
    }
    assert cs[..|cs|] == cs;
  }

  lemma AllListed()
    ensures forall c: Component :: c in COMPONENTS && c in BY_NAME
  {
    forall c: Component
      ensures c in COMPONENTS && c in BY_NAME
    {
      assert c == COMPONENTS[0] || c == COMPONENTS[1] || c == COMPONENTS[2] || c == COMPONENTS[3] ||
             c == COMPONENTS[4] || c == COMPONENTS[5] || c == COMPONENTS[6] || c == COMPONENTS[7];
      assert c == BY_NAME[0] || c == BY_NAME[1] || c == BY_NAME[2] || c == BY_NAME[3] ||
             c == BY_NAME[4] || c == BY_NAME[5] || c == BY_NAME[6] || c == BY_NAME[7];
    }
  }

  /** resolveCoreVersions: none when the intent is refused. */
  method Resolve(m: Manifest, intent: Intent) returns (out: Option<map<Component, Release>>)
    requires PinsListed(m)
    ensures out.Some? <==> ValidIntent(m, intent)
    ensures out.Some? ==> forall c :: c in out.value <==> Chosen(m, intent, c).Some?
    ensures out.Some? ==> forall c :: c in out.value ==> out.value[c] == Chosen(m, intent, c).value
  {
    var problems := CheckIntent(m, intent);
    if problems != {} {
      return None;
    }
    var res := ResolveAmong(m, intent, COMPONENTS);
    AllListed();
    out := Some(res);
  }

  // --------------------------------------------------------------- the panel's side

  datatype Why = NoArch | NoAsset | NotPinned

  /** coreEnvPair: the kind of the component's first release. */
  function EnvPair(m: Manifest, c: Component): Option<(Field, Field)> {
    if m(c).releases == [] then None
    else if m(c).releases[0].commit != "" then Some((TAG, SHA)) else Some((VERSION, SHA256))
  }

  /** What the command says of one component, or why it says nothing. */
  function VarsFor(m: Manifest, names: Component -> Prefix, intent: Intent, arch: Option<Arch>, c: Component)
    : (seq<Line>, Option<Why>)
  {
    var release, pair, p := Chosen(m, intent, c), EnvPair(m, c), names(c);
    if release.None? || pair.None? then ([], Some(NotPinned))
    else if release.value.commit != "" then
      ([Line(p, pair.value.0, release.value.tag), Line(p, pair.value.1, release.value.commit)], None)
    else if arch.None? then ([], Some(NoArch))
    else if arch.value !in release.value.assets then ([], Some(NoAsset))
    else ([Line(p, pair.value.0, release.value.version), Line(p, pair.value.1, release.value.assets[arch.value])], None)
  }

  method ComponentsOfEngine(m: Manifest, e: Engine) returns (cs: seq<Component>)
    ensures forall c :: c in cs <==> m(c).engine == e
  {
    cs := [];
    for k := 0 to |COMPONENTS|
      invariant forall c :: c in cs <==> c in COMPONENTS[..k] && m(c).engine == e
    {
      if m(COMPONENTS[k]).engine == e {
        cs := cs + [COMPONENTS[k]];
      }
    }
    assert COMPONENTS[..|COMPONENTS|] == COMPONENTS;
    AllListed();
  }

  ghost predicate IsPair(lines: seq<Line>, k: nat)
    requires k < |lines|
  {
    k + 1 < |lines| && lines[k].prefix == lines[k + 1].prefix &&
    ((lines[k].field == VERSION && lines[k + 1].field == SHA256) ||
        (lines[k].field == TAG && lines[k + 1].field == SHA))
  }

  /** Lines come in pairs of one prefix, a version or a tag and then its checksum. */
  ghost predicate Paired(lines: seq<Line>) {
    |lines| % 2 == 0 && forall k :: 0 <= k < |lines| && k % 2 == 0 ==> IsPair(lines, k)
  }

  lemma PairedAppend(a: seq<Line>, x: Line, y: Line)
    requires Paired(a) && Paired([x, y])
    ensures Paired(a + [x, y])
  {
    assert IsPair([x, y], 0);
    forall k | 0 <= k < |a + [x, y]| && k % 2 == 0
      ensures IsPair(a + [x, y], k)
    {
      if k < |a| {
        assert IsPair(a, k);
      }
    }
  }

  /** The lines of these components, all of them and nothing else. */
  ghost predicate LinesOf(m: Manifest, names: Component -> Prefix, intent: Intent, arch: Option<Arch>,
                          cs: seq<Component>, vars: seq<Line>)
  {
    Paired(vars) && forall l :: l in vars <==> exists c :: c in cs && l in VarsFor(m, names, intent, arch, c).0
  }

  ghost predicate AllGave(m: Manifest, names: Component -> Prefix, intent: Intent, arch: Option<Arch>,
                          cs: seq<Component>)
  {
    forall c :: c in cs ==> |VarsFor(m, names, intent, arch, c).0| == 2
  }

  lemma OneMoreGives(m: Manifest, names: Component -> Prefix, intent: Intent, arch: Option<Arch>, cs: seq<Component>,
                     c: Component, vars: seq<Line>)
    requires LinesOf(m, names, intent, arch, cs, vars)
    ensures LinesOf(m, names, intent, arch, cs + [c], vars + VarsFor(m, names, intent, arch, c).0)
    ensures AllGave(m, names, intent, arch, cs + [c]) <==>
              AllGave(m, names, intent, arch, cs) && VarsFor(m, names, intent, arch, c).1.None?
  {
    var (more, reason) := VarsFor(m, names, intent, arch, c);
    if reason.None? {
      assert IsPair(more, 0);
      assert more == [more[0], more[1]];
      PairedAppend(vars, more[0], more[1]);
    } else {
      assert vars + more == vars;
    }
    assert forall d :: d in cs + [c] <==> d in cs || d == c;
    forall l
      ensures l in vars + more <==> exists d :: d in cs + [c] && l in VarsFor(m, names, intent, arch, d).0
    {
    }
  }

  /**
    coreInstallCommand's variables. They are those of the engine's components,
    always in pairs, and the command is pinned exactly when every component
    gave its pair.
  */
  method InstallVars(m: Manifest, names: Component -> Prefix, e: Engine, intent: Intent, arch: Option<Arch>)
    returns (vars: seq<Line>, why: Option<Why>)
    ensures forall l :: l in vars <==> exists c :: m(c).engine == e && l in VarsFor(m, names, intent, arch, c).0
    ensures why.None? <==> forall c :: m(c).engine == e ==> |VarsFor(m, names, intent, arch, c).0| == 2
    ensures Paired(vars)
  {
    vars, why := [], None;
    var cs := ComponentsOfEngine(m, e);
    for k := 0 to |cs|
      invariant LinesOf(m, names, intent, arch, cs[..k], vars)
      invariant why.None? <==> AllGave(m, names, intent, arch, cs[..k])
    {
      var c := cs[k];
      var (more, reason) := VarsFor(m, names, intent, arch, c);
      OneMoreGives(m, names, intent, arch, cs[..k], c, vars);
      assert cs[..k + 1] == cs[..k] + [c];
      if reason.Some? {
        assert vars + more == vars;
        if why.None? {
          why := reason;
        }
      } else {
        vars := vars + more;
      }
    }
    assert cs[..|cs|] == cs;
  }

  // --------------------------------------------------------------- the agent's side

  predicate Among(s: string, extra: string) {
    forall i :: 0 <= i < |s| ==> IsDigit(s[i]) || 'A' <= s[i] <= 'Z' || 'a' <= s[i] <= 'z' || s[i] in extra
  }

  predicate VersionShape(s: string) {
    1 <= |s| <= 64 && Among(s[..1], "") && Among(s, ".+-")
  }

  predicate TagShape(s: string) {
    1 <= |s| <= 128 && Among(s[..1], "") && Among(s, "./+-")
  }

  predicate HexShape(s: string, n: nat) {
    |s| == n && forall i :: 0 <= i < n ==> IsDigit(s[i]) || 'a' <= s[i] <= 'f'
  }

  function LinesFor(known: map<Component, Prefix>, arch: Option<Arch>, c: Component, r: Release): seq<Line> {
    if c !in known then []
    else if r.commit != "" then
      if !TagShape(r.tag) || !HexShape(r.commit, 40) then []
      else [Line(known[c], TAG, r.tag), Line(known[c], SHA, r.commit)]
    else if |r.assets| > 0 then
      if arch.None? || arch.value !in r.assets then []
      else if !VersionShape(r.version) || !HexShape(r.assets[arch.value], 64) then []
      else [Line(known[c], VERSION, r.version), Line(known[c], SHA256, r.assets[arch.value])]
    else []
  }

  /** CoreEnv: the lines of the components it can turn into a safe pair, a warning for every other. */
  method CoreEnv(versions: map<Component, Release>, known: map<Component, Prefix>, arch: Option<Arch>)
    returns (lines: seq<Line>, warned: seq<Component>)
    ensures forall l :: l in lines <==> exists c :: c in versions && l in LinesFor(known, arch, c, versions[c])
    ensures forall c :: c in warned <==> c in versions && LinesFor(known, arch, c, versions[c]) == []
    ensures Paired(lines)
  {
    lines, warned := [], [];
    for k := 0 to |BY_NAME|
      invariant forall l :: l in lines <==>
                  exists c :: c in BY_NAME[..k] && c in versions && l in LinesFor(known, arch, c, versions[c])
      invariant forall c :: c in warned <==>
              c in BY_NAME[..k] && c in versions && LinesFor(known, arch, c, versions[c]) == []
      invariant Paired(lines)
    {
      var c := BY_NAME[k];
      assert BY_NAME[..k + 1] == BY_NAME[..k] + [c];
      if c in versions {
        var more := LinesFor(known, arch, c, versions[c]);
        if more == [] {
          warned := warned + [c];
        } else {
          assert IsPair(more, 0);
          assert more == [more[0], more[1]];
          PairedAppend(lines, more[0], more[1]);
          lines := lines + more;
        }
      }
    }
    assert BY_NAME[..|BY_NAME|] == BY_NAME;
    AllListed();
  }

  // ------------------------------------------------------------------ they agree

  /** A component's releases are all of one kind, and their values have the shapes a script may take. */
  ghost predicate WellShaped(m: Manifest) {
    forall c, r :: r in m(c).releases ==>
      (r.commit != "" <==> m(c).releases[0].commit != "") &&
      (r.commit != "" ==> TagShape(r.tag) && HexShape(r.commit, 40)) &&
      (r.commit == "" ==> VersionShape(r.version) && forall a :: a in r.assets ==> HexShape(r.assets[a], 64))
  }

  /** The agent knows every component there is a release of, by the same prefix. */
  ghost predicate SamePrefixes(m: Manifest, names: Component -> Prefix, known: map<Component, Prefix>) {
    forall c :: m(c).releases != [] ==> c in known && known[c] == names(c)
  }

  lemma ComponentAgrees(m: Manifest, names: Component -> Prefix, known: map<Component, Prefix>, intent: Intent,
      arch: Option<Arch>, c: Component)
    requires WellShaped(m) && SamePrefixes(m, names, known)
    ensures VarsFor(m, names, intent, arch, c).0 ==
            var r := Chosen(m, intent, c); if r.Some? then LinesFor(known, arch, c, r.value) else []
  {
    var r := Chosen(m, intent, c);
    if r.Some? {
      var version := if Choice(intent, c).Some? then Choice(intent, c).value else m(c).pinned.value;
      FoundIsListed(m(c).releases, Normalize(version).value);
      assert r.value in m(c).releases;
      if arch.Some? && arch.value in r.value.assets {
        assert |r.value.assets| > 0;
      }
    }
  }

  /**
    For every manifest, every intent and every arch: what the install commands
    of all the engines set is, as a set, what the agent's core-env sets from
    the resolved payload.
  */
  lemma RenderersAgree(m: Manifest, names: Component -> Prefix, known: map<Component, Prefix>, intent: Intent,
                       arch: Option<Arch>, resolved: map<Component, Release>, l: Line)
    requires WellShaped(m) && SamePrefixes(m, names, known)
    requires forall c :: c in resolved <==> Chosen(m, intent, c).Some?
    requires forall c :: c in resolved ==> resolved[c] == Chosen(m, intent, c).value
    ensures (exists c :: l in VarsFor(m, names, intent, arch, c).0) <==>
            (exists c :: c in resolved && l in LinesFor(known, arch, c, resolved[c]))
  {
    forall c
      ensures l in VarsFor(m, names, intent, arch, c).0 <==> c in resolved && l in LinesFor(known, arch, c, resolved[c])
    {
      ComponentAgrees(m, names, known, intent, arch, c);
    }
  }

  // ------------------------------------------------------------ what a script may take

  predicate LetterOrDigit(c: char) {
    c in "0123456789" || 'a' <= c <= 'z' || 'A' <= c <= 'Z'
  }

  /** A version: up to 64 letters, digits, dots, pluses and dashes, a letter or digit first. */
  lemma VersionShapeIff(s: string)
    ensures VersionShape(s) <==>
              && |s| > 0 && |s| < 65 && LetterOrDigit(s[0])
              && forall i :: 0 <= i < |s| ==> LetterOrDigit(s[i]) || s[i] == '.' || s[i] == '+' || s[i] == '-'
  {
    if |s| > 0 {
      assert s[..1][0] == s[0];
    }
  }

  /** A tag: up to 128 of the same, and slashes. */
  lemma TagShapeIff(s: string)
    ensures TagShape(s) <==>
              && |s| > 0 && |s| < 129 && LetterOrDigit(s[0])
              && forall i :: 0 <= i < |s| ==>
                    LetterOrDigit(s[i]) || s[i] == '.' || s[i] == '/' || s[i] == '+' || s[i] == '-'
  {
    if |s| > 0 {
      assert s[..1][0] == s[0];
    }
  }

  lemma HexShapeIff(s: string, n: nat)
    ensures HexShape(s, n) <==> |s| == n && forall i :: 0 <= i < |s| ==> s[i] in "0123456789abcdef"
  {
    assert forall c: char :: c in "0123456789abcdef" <==> '0' <= c <= '9' || 'a' <= c <= 'f';
  }

  /**
    A component known to this agent gets a pair exactly when it is built from a commit
    and tag and commit have their shapes, or, with no commit, ships a file for this arch
    and version and checksum have theirs.
  */
  lemma PairIff(known: map<Component, Prefix>, arch: Option<Arch>, c: Component, r: Release)
    ensures LinesFor(known, arch, c, r) != [] <==>
              && c in known
              && (if r.commit != "" then TagShape(r.tag) && HexShape(r.commit, 40)
                  else arch.Some? && arch.value in r.assets && VersionShape(r.version) &&
                       HexShape(r.assets[arch.value], 64))
  {
    if arch.Some? && arch.value in r.assets {
      assert |r.assets| > 0;
    }
  }
}
