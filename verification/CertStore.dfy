/**
  The agent's server certificate and its renewal in place (certstore.go): a new
  pair is served at once, waits for the panel's confirm, and is rolled back when
  none comes by the deadline, across restarts.

  X.509 and hashing are not part of this model: a leaf carries what the checks
  ask of it, and stands for its own fingerprint.
*/
module CertStore {
  import opened Common

  datatype Name = Empty | Named(id: nat)

  /** `chains`: the leaf chains to this node's CA for server auth while it is in date. */
  datatype Leaf = Leaf(id: nat, dns: seq<Name>, ips: seq<nat>, chains: bool, notBefore: int, notAfter: int)

  datatype Pem = Pem(leaf: Leaf, keyMatches: bool)

  datatype Pending = Pending(leaf: Leaf, confirmBy: int)

  const SECOND := 1_000_000_000
  const CONFIRM_WINDOW := 600 * SECOND

  function ToSecond(t: int): int {
    t - t % SECOND
  }

  /** Names compare as text: what missingNames answers, "" being nothing. */
  datatype Said = SaidName(name: Name) | SaidIp(ip: nat)

  const NOTHING := SaidName(Empty)

  predicate Covers(next: Leaf, was: Leaf) {
    (forall n :: n in was.dns ==> n in next.dns) && (forall i :: i in was.ips ==> i in next.ips)
  }

  /** The first DNS name of `was` that `next` lacks is the empty one. */
  ghost predicate EmptyNameHides(next: Leaf, was: Leaf) {
    exists k :: 0 <= k < |was.dns| && was.dns[k] == Empty && Empty !in next.dns &&
                forall j :: 0 <= j < k ==> was.dns[j] in next.dns
  }

  /**
    missingNames. Its answer is read as "nothing is missing" exactly when the
    new leaf carries every name, or the first one it lacks is the empty name.
  */
  method MissingNames(was: Leaf, next: Leaf) returns (said: Said)
    ensures said == NOTHING <==> Covers(next, was) || EmptyNameHides(next, was)
  {
    var names: set<Name> := {};
    for k := 0 to |next.dns|
      invariant forall n :: n in names <==> n in next.dns[..k]
    {
      names := names + {next.dns[k]};
    }
    assert next.dns[..|next.dns|] == next.dns;
    for k := 0 to |was.dns|
      invariant forall j :: 0 <= j < k ==> was.dns[j] in next.dns
    {
      if was.dns[k] !in names {
        assert was.dns[k] in was.dns && was.dns[k] !in next.dns;
        return SaidName(was.dns[k]);
      }
    }
    for k := 0 to |was.ips|
      invariant forall j :: 0 <= j < k ==> was.ips[j] in next.ips
    {
      var found := false;
      for m := 0 to |next.ips|
        invariant found <==> was.ips[k] in next.ips[..m]
      {
        if next.ips[m] == was.ips[k] {
          found := true;
          assert next.ips[..m + 1][m] == was.ips[k];
        }
      }
      if !found {
        assert next.ips[..|next.ips|] == next.ips;
        assert was.ips[k] in was.ips && was.ips[k] !in next.ips;
        return SaidIp(was.ips[k]);
      }
    }
    return NOTHING;
  }

  ghost predicate NamesPass(next: Leaf, was: Leaf) {
    Covers(next, was) || EmptyNameHides(next, was)
  }

  // ------------------------------------------------------------- memory and disk

  /**
    `diskNow`, `diskPrev`: the pair files; `diskPending`: pending.json;
    `armed`: when the timer fires.
  */
  datatype State = State(current: Leaf, prev: Option<Leaf>, pending: Option<Pending>, armed: Option<int>,
                         diskNow: Option<Leaf>, diskPrev: Option<Leaf>, diskPending: Option<Pending>)

  predicate Strict(p: Pem, now: int) {
    p.keyMatches && p.leaf.chains && p.leaf.notBefore <= now <= p.leaf.notAfter
  }

  function RolledBack(s: State): State {
    if s.prev.None? then s.(pending := None)
    else s.(current := s.prev.value, pending := None, armed := None, diskNow := s.prev, diskPending := None)
  }

  /** The pair a file holds, when it loads and chains. */
  function Loadable(file: Option<Leaf>): Option<Leaf> {
    if file.Some? && file.value.chains then file else None
  }

  function Opened(payload: Leaf, d: State, now: int): State {
    var current := if Loadable(d.diskNow).Some? then d.diskNow.value else payload;
    var s := State(current, Loadable(d.diskPrev), None, None, d.diskNow, d.diskPrev, d.diskPending);
    if d.diskPending.None? then s
    else if d.diskPending.value.leaf != current then s.(diskPending := None)
    else
      var waiting := s.(pending := d.diskPending);
      if now >= d.diskPending.value.confirmBy then RolledBack(waiting)
      else waiting.(armed := Some(d.diskPending.value.confirmBy))
  }

  ghost predicate Takes(s: State, p: Pem, now: int) {
    s.pending.None? && Strict(p, now) && NamesPass(p.leaf, s.current)
  }

  function Rotated(s: State, next: Leaf, now: int): State {
    var pf := Some(Pending(next, ToSecond(now + CONFIRM_WINDOW)));
    State(next, Some(s.current), pf, Some(now + CONFIRM_WINDOW), Some(next), Some(s.current), pf)
  }

  predicate Confirms(s: State, fp: Leaf) {
    s.pending.Some? && s.pending.value.leaf == fp
  }

  datatype Outcome = Done | Invalid | StillPending | NotPending

  /** The store as it runs, with a directory; every write to it succeeds. */
  class Store {
    const payload: Leaf
    var current: Leaf
    var prev: Option<Leaf>
    var pending: Option<Pending>
    var armed: Option<int>
    var diskNow: Option<Leaf>
    var diskPrev: Option<Leaf>
    var diskPending: Option<Pending>

    ghost function View(): State
      reads this
    {
      State(current, prev, pending, armed, diskNow, diskPrev, diskPending)
    }

    method Rollback()
      modifies this
      ensures View() == RolledBack(old(View()))
    {
      if prev.None? {
        pending := None;
        return;
      }
      diskNow := prev;
      diskPending := None;
      current, pending := prev.value, None;
      armed := None;
    }

    constructor Open(payload: Leaf, diskNow: Option<Leaf>, diskPrev: Option<Leaf>, diskPending: Option<Pending>,
        now: int)
      ensures View() == Opened(payload, State(payload, None, None, None, diskNow, diskPrev, diskPending), now)
    {
      this.payload, current := payload, payload;
      prev, pending, armed := None, None, None;
      this.diskNow, this.diskPrev, this.diskPending := diskNow, diskPrev, diskPending;
      new;
      if Loadable(diskNow).Some? {
        current := diskNow.value;
      }
      if Loadable(diskPrev).Some? {
        prev := diskPrev;
      }
      if diskPending.Some? {
        if diskPending.value.leaf == current {
          pending := diskPending;
          if now >= diskPending.value.confirmBy {
            Rollback();
          } else {
            armed := Some(diskPending.value.confirmBy);
          }
        } else {
          this.diskPending := None;
        }
      }
    }

    method Rotate(p: Pem, now: int) returns (o: Outcome)
      modifies this
      ensures o.Done? <==> old(Takes(View(), p, now))
      ensures o.StillPending? <==> old(pending).Some?
      ensures View() == if o.Done? then Rotated(old(View()), p.leaf, now) else old(View())
    {
      if pending.Some? {
        return StillPending;
      }
      if !(p.keyMatches && p.leaf.chains && p.leaf.notBefore <= now <= p.leaf.notAfter) {
        return Invalid;
      }
      var missing := MissingNames(current, p.leaf);
      if missing != NOTHING {
        return Invalid;
      }
      diskPrev := Some(current);
      diskNow := Some(p.leaf);
      var pf := Pending(p.leaf, ToSecond(now + CONFIRM_WINDOW));
      diskPending := Some(pf);
      prev, current, pending := Some(current), p.leaf, Some(pf);
      armed := Some(now + CONFIRM_WINDOW);
      return Done;
    }

    method Confirm(fp: Leaf) returns (o: Outcome)
      modifies this
      ensures o.Done? <==> old(Confirms(View(), fp))
      ensures View() ==
              if o.Done? then old(View()).(pending := None, armed := None, diskPending := None) else old(View())
    {
      if pending.None? || pending.value.leaf != fp {
        return NotPending;
      }
      armed := None;
      pending := None;
      diskPending := None;
      return Done;
    }

    /** The timer's function. */
    method Fire()
      modifies this
      ensures View() == if old(pending).Some? then RolledBack(old(View())) else old(View())
    {
      if pending.Some? {
        Rollback();
      }
    }
  }

  // ------------------------------------------------------------------- whole runs

  datatype Event =
    | Rotate(pem: Pem, now: int)
    | Confirm(fp: Leaf)
    | Fire
    | Restart(now: int)

  /**
    The store with what happened to it: the pairs confirmed, the one in force
    before the last rotation, and whether the agent has restarted since.
  */
  datatype World = World(payload: Leaf, s: State, confirmed: set<Leaf>, before: Leaf, restarted: bool)

  ghost function After(w: World, e: Event): World {
    match e
    case Rotate(p, now) =>
      if Takes(w.s, p, now) then w.(s := Rotated(w.s, p.leaf, now), before := w.s.current, restarted := false)
      else w
    case Confirm(fp) =>
      if Confirms(w.s, fp) then
        w.(s := w.s.(pending := None, armed := None, diskPending := None), confirmed := w.confirmed + {fp})
      else w
    case Fire => if w.s.pending.Some? then w.(s := RolledBack(w.s)) else w
    case Restart(now) => w.(s := Opened(w.payload, w.s, now), restarted := true)
  }

  ghost function Run(w: World, es: seq<Event>): World
    decreases |es|
  {
    if es == [] then w else Run(After(w, es[0]), es[1..])
  }

  function Fresh(payload: Leaf): World {
    World(payload, State(payload, None, None, None, None, None, None), {}, payload, false)
  }

  /** No certificate of the run names the empty name. */
  ghost predicate NoEmptyNames(es: seq<Event>) {
    forall k :: 0 <= k < |es| && es[k].Rotate? ==> Empty !in es[k].pem.leaf.dns
  }

  ghost predicate Trusted(w: World, l: Leaf) {
    l == w.payload || l in w.confirmed
  }

  ghost predicate Sane(w: World, l: Leaf) {
    l.chains && Covers(l, w.payload) && Empty !in l.dns
  }

  ghost predicate Inv(w: World) {
    && Sane(w, w.s.current) && Sane(w, w.payload) && Sane(w, w.before) && Trusted(w, w.before)
    && (if w.s.pending.Some? then
          && w.s.current == w.s.pending.value.leaf && w.s.prev == Some(w.before) && w.s.armed.Some?
          && w.s.diskNow == Some(w.s.current) && w.s.diskPrev == Some(w.before) && w.s.diskPending == w.s.pending
        else
          && Trusted(w, w.s.current) && w.s.diskPending.None? && w.s.armed.None?
          && (w.s.diskNow == Some(w.s.current) || (w.s.diskNow.None? && w.s.current == w.payload)))
  }

  lemma NoHiding(next: Leaf, was: Leaf)
    requires Empty !in was.dns
    ensures NamesPass(next, was) <==> Covers(next, was)
  {
  }

  lemma CoversAll(a: Leaf, b: Leaf, c: Leaf)
    requires Covers(a, b) && Covers(b, c)
    ensures Covers(a, c)
  {
  }

  lemma StepKeepsInv(w: World, e: Event)
    requires Inv(w) && NoEmptyNames([e])
    ensures Inv(After(w, e))
  {
    if e.Rotate? {
      assert [e][0] == e;
      if Takes(w.s, e.pem, e.now) {
        NoHiding(e.pem.leaf, w.s.current);
        CoversAll(e.pem.leaf, w.s.current, w.payload);
      }
    }
  }

  lemma {:induction false} RunKeepsInv(w: World, es: seq<Event>)
    requires Inv(w) && NoEmptyNames(es)
    ensures Inv(Run(w, es)) && Run(w, es).payload == w.payload
    decreases |es|
  {
    if es != [] {
      assert es[0] in es;
      forall k | 0 <= k < |[es[0]]| && [es[0]][k].Rotate?
        ensures Empty !in [es[0]][k].pem.leaf.dns
      {
        assert [es[0]][k] == es[0];
      }
      StepKeepsInv(w, es[0]);
      forall k | 0 <= k < |es[1..]| && es[1..][k].Rotate?
        ensures Empty !in es[1..][k].pem.leaf.dns
      {
        assert es[1..][k] == es[k + 1];
      }
      RunKeepsInv(After(w, es[0]), es[1..]);
    }
  }

  /**
    Over any run from a payload whose leaf chains and names no empty name: the
    pair served is the payload's, a confirmed one or the one waiting; it names
    all the payload's names; and while one waits, the pair to go back to, in
    memory and on disk, is the one in force before it.
  */
  lemma ServedIsTrusted(payload: Leaf, es: seq<Event>)
    requires payload.chains && Empty !in payload.dns && NoEmptyNames(es)
    ensures var w := Run(Fresh(payload), es);
            && (Trusted(w, w.s.current) || (w.s.pending.Some? && w.s.pending.value.leaf == w.s.current))
            && Covers(w.s.current, payload)
            && (w.s.pending.Some? ==>
                w.s.prev == Some(w.before) && w.s.diskPrev == Some(w.before) && Trusted(w, w.before))
  {
    RunKeepsInv(Fresh(payload), es);
  }

  // ------------------------------------------------------------ the missed deadline

  /**
    What holds whatever the payload and the names: what waits is on disk beside
    the pair before it, and that pair is known in memory unless it does not
    chain and a restart has had to read it back.
  */
  ghost predicate WaitingOnDisk(w: World) {
    (w.s.pending.Some? || w.s.diskPending.Some? ==>
       && w.s.current.chains && w.s.diskNow == Some(w.s.current) && w.s.diskPrev == Some(w.before)
       && w.s.diskPending.Some? && w.s.diskPending.value.leaf == w.s.current
       && w.s.prev == if w.before.chains || !w.restarted then Some(w.before) else None) &&
    (w.s.pending.Some? ==> w.s.pending == w.s.diskPending) &&
    (w.s.pending.None? && w.s.diskPending.Some? ==> w.s.prev.None?)
  }

  lemma {:induction false} RunKeepsWaiting(w: World, es: seq<Event>)
    requires WaitingOnDisk(w)
    ensures WaitingOnDisk(Run(w, es))
    decreases |es|
  {
    if es != [] {
      RunKeepsWaiting(After(w, es[0]), es[1..]);
    }
  }

  /** The pair in force before the rotation is back, in memory and on disk, and nothing waits. */
  predicate Restored(w: World, v: World) {
    v.s.current == w.before && v.s.diskNow == Some(w.before) && v.s.pending.None? && v.s.diskPending.None?
  }

  /** The pair nobody confirmed is still served and still on disk, with nothing in memory to roll it back. */
  predicate LeftServed(w: World, v: World) {
    v.s.current == w.s.current && v.s.diskNow == w.s.diskNow && v.s.pending.None? && v.s.diskPending == w.s.diskPending
  }

  /**
    Over every run, whatever the payload and the names: a missed deadline puts
    the pair in force before back exactly when that pair chains, or the timer
    meets the deadline in the process that rotated. The payload's pair is taken
    at the first start without asking whether it chains; the one a restart reads
    back is asked. Otherwise the unconfirmed pair is served on. A restart before
    the deadline waits on.
  */
  lemma MissedDeadlineRestoresIff(payload: Leaf, es: seq<Event>, e: Event)
    requires Run(Fresh(payload), es).s.pending.Some?
    requires e.Fire? || e.Restart?
    ensures var w := Run(Fresh(payload), es); var v := After(w, e);
            if e.Fire? || e.now >= w.s.pending.value.confirmBy then
              (Restored(w, v) <==> w.before.chains || (e.Fire? && !w.restarted)) && (Restored(w, v) || LeftServed(w, v))
            else
              v.s.current == w.s.current && v.s.pending == w.s.pending &&
              v.s.armed == Some(w.s.pending.value.confirmBy)
  {
    RunKeepsWaiting(Fresh(payload), es);
  }

  /**
    From a payload that chains and names no empty name, a missed deadline always
    puts the pair in force before back, in memory and on disk, whether the timer
    meets it or a restart does; a restart before the deadline waits on.
  */
  lemma MissedDeadlineRestores(payload: Leaf, es: seq<Event>, e: Event)
    requires payload.chains && Empty !in payload.dns && NoEmptyNames(es)
    requires Run(Fresh(payload), es).s.pending.Some?
    requires e.Fire? || e.Restart?
    ensures var w := Run(Fresh(payload), es); var v := After(w, e);
            if e.Fire? || e.now >= w.s.pending.value.confirmBy then
              v.s.current == w.before && v.s.diskNow == Some(w.before) && v.s.pending.None? && v.s.diskPending.None?
            else
              v.s.current == w.s.current && v.s.pending == w.s.pending && v.s.prev == Some(w.before) &&
              v.s.armed == Some(w.s.pending.value.confirmBy)
  {
    RunKeepsInv(Fresh(payload), es);
  }

  /**
    A restart is meant to find what the store held: true of the pair served in
    every state of a run, and the deadline found is never later than the
    timer's.
  */
  lemma RestartServesTheSame(payload: Leaf, es: seq<Event>, now: int)
    requires payload.chains && Empty !in payload.dns && NoEmptyNames(es)
    requires var w := Run(Fresh(payload), es); w.s.pending.Some? ==> now < w.s.pending.value.confirmBy
    ensures var w := Run(Fresh(payload), es);
            After(w, Restart(now)).s.current == w.s.current && After(w, Restart(now)).s.pending == w.s.pending
  {
    RunKeepsInv(Fresh(payload), es);
  }

  /**
    The payload's pair is taken without asking whether it chains, the one on
    disk is not: after a first rotation, a restart past the deadline goes back
    exactly when the payload's leaf chains. Otherwise the unconfirmed pair stays.
  */
  lemma RestoredIffPayloadChains(payload: Leaf, p: Pem, now: int, later: int)
    requires Takes(Fresh(payload).s, p, now) && p.leaf != payload
    requires later >= ToSecond(now + CONFIRM_WINDOW)
    ensures var v := After(After(Fresh(payload), Rotate(p, now)), Restart(later));
            (v.s.current == payload <==> payload.chains) && (v.s.diskPending.None? <==> payload.chains)
  {
  }

  /** The names are not kept without the condition: an empty first name lets every other one go. */
  lemma EmptyNameLosesTheRest(lost: Name, now: int)
    ensures var payload := Leaf(1, [Empty, lost], [], true, now, now);
            var p := Pem(Leaf(2, [], [], true, now, now), true);
            var v := After(Fresh(payload), Rotate(p, now));
            v.s.current == p.leaf && !Covers(v.s.current, payload)
  {
    var payload := Leaf(1, [Empty, lost], [], true, now, now);
    var next := Leaf(2, [], [], true, now, now);
    assert payload.dns[0] == Empty;
    assert EmptyNameHides(next, payload);
    assert payload.dns[1] in payload.dns;
  }

  // ------------------------------------------------------------ what a rotation asks

  /** The deadline is ten minutes after the rotation, to the second, and the timer's to the nanosecond. */
  lemma TenMinutes(s: State, p: Pem, now: int)
    ensures var v := Rotated(s, p.leaf, now);
      && v.armed == Some(now + 600_000_000_000)
      && v.pending.Some? && v.pending.value.leaf == p.leaf
      && v.pending.value.confirmBy <= now + 600_000_000_000 < v.pending.value.confirmBy + 1_000_000_000
      && v.pending.value.confirmBy % 1_000_000_000 == 0
  {
  }

  /** A pair presented to a rotation of the run, its key matching, chaining, and in date at the time. */
  ghost predicate Presented(es: seq<Event>, l: Leaf) {
    exists k :: 0 <= k < |es| && es[k].Rotate? && es[k].pem.leaf == l && es[k].pem.keyMatches && l.chains &&
                l.notBefore <= es[k].now <= l.notAfter
  }

  ghost predicate Held(w: World, l: Leaf) {
    l == w.s.current || w.s.prev == Some(l) || w.s.diskNow == Some(l) || w.s.diskPrev == Some(l)
  }

  lemma StepHolds(w: World, e: Event, l: Leaf)
    requires Held(After(w, e), l)
    ensures Held(w, l) || l == w.payload || Presented([e], l)
  {
    assert e.Rotate? ==> [e][0] == e;
  }

  lemma PresentedLater(es: seq<Event>, l: Leaf)
    requires es != [] && (Presented([es[0]], l) || Presented(es[1..], l))
    ensures Presented(es, l)
  {
    if Presented([es[0]], l) {
      assert [es[0]][0] == es[0];
    } else {
      var k :| 0 <= k < |es[1..]| && es[1..][k].Rotate? && es[1..][k].pem.leaf == l && es[1..][k].pem.keyMatches &&
          l.chains && l.notBefore <= es[1..][k].now <= l.notAfter;
      assert es[k + 1] == es[1..][k];
    }
  }

  lemma {:induction false} RunHolds(w: World, es: seq<Event>, l: Leaf)
    requires Held(Run(w, es), l)
    ensures Held(w, l) || l == w.payload || Presented(es, l)
    decreases |es|
  {
    if es != [] {
      RunHolds(After(w, es[0]), es[1..], l);
      if !Presented(es[1..], l) && Held(After(w, es[0]), l) {
        StepHolds(w, es[0], l);
      }
      if Presented([es[0]], l) || Presented(es[1..], l) {
        PresentedLater(es, l);
      }
    }
  }

  /**
    Over every run, whatever the payload: a pair that is served, or kept to go back to,
    is the payload's or one that was presented with its own key, chained, and was in
    date when it was taken.
  */
  lemma ServedWasPresented(payload: Leaf, es: seq<Event>, l: Leaf)
    requires Held(Run(Fresh(payload), es), l)
    ensures l == payload || Presented(es, l)
  {
    RunHolds(Fresh(payload), es, l);
  }

  /** A rotation is taken exactly when none waits and the pair is fit and names what the old one named. */
  lemma RotatesIff(w: World, p: Pem, now: int)
    ensures Takes(w.s, p, now) ==>
              After(w, Rotate(p, now)).s.current == p.leaf && After(w, Rotate(p, now)).s.prev == Some(w.s.current)
    ensures !Takes(w.s, p, now) ==> After(w, Rotate(p, now)) == w
    ensures Takes(w.s, p, now) <==>
              && w.s.pending.None? && p.keyMatches && p.leaf.chains
              && p.leaf.notBefore <= now && now <= p.leaf.notAfter
              && (Covers(p.leaf, w.s.current) || EmptyNameHides(p.leaf, w.s.current))
  {
  }

  /** A start waits on for a record on disk of the pair it serves, until its time, and removes any other. */
  lemma RecordOnDisk(payload: Leaf, d: State, now: int)
    ensures var s := Opened(payload, d, now);
      && (d.diskPending.None? ==> s.pending.None? && s.diskPending.None?)
      && (d.diskPending.Some? && d.diskPending.value.leaf != s.current && now < d.diskPending.value.confirmBy ==>
            s.pending.None? && s.diskPending.None? && s.armed.None?)
      && (s.pending.Some? ==>
            && s.pending == d.diskPending && s.pending.value.leaf == s.current
            && now < s.pending.value.confirmBy && s.armed == Some(s.pending.value.confirmBy))
  {
  }
}
