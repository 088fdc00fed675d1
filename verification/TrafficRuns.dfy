/** The accounting over whole runs, of received bytes or of sent ones. */
module TrafficRuns {
  import opened Traffic

  /**
    The interface and the adapter together. `passed` and `billed` are the
    history: what a key carried since its first baseline, and what the panel
    was told.
  */
  datatype World = World(peers: map<Id, Key>, kernel: Table, last: Table, passed: Table, billed: Table)

  datatype Event =
    | Carry(key: Key, bytes: nat)
    | Bounce                    // the interface restarts, every counter from zero
    | Put(id: Id, key: Key)     // AddUser: a new peer, or a user's new key
    | Leave(id: Id)             // RemoveUser
    | Answer(dump: Table)       // a poll the interface answered
    | Silence                   // a poll it did not

  /** A peer the interface loses takes its counters with it. */
  function Forget(kernel: Table, peers: map<Id, Key>): Table {
    map k | k in kernel && k in peers.Values :: kernel[k]
  }

  function Passing(passed: Table, peers: map<Id, Key>): Table {
    map k | k in passed.Keys + peers.Values :: At(passed, k)
  }

  function Billed(billed: Table, peers: map<Id, Key>, last: Table, dump: Table): Table {
    map k | k in billed.Keys + peers.Values ::
      At(billed, k) + if k in peers.Values then Billing(last, dump, k) else 0
  }

  function After(w: World, e: Event): World {
    match e
    case Carry(k, n) =>
      if k !in w.peers.Values then w
      else World(w.peers, w.kernel[k := At(w.kernel, k) + n], w.last,
                 if k in w.passed then w.passed[k := w.passed[k] + n] else w.passed, w.billed)
    case Bounce => World(w.peers, map[], w.last, w.passed, w.billed)
    case Put(id, k) => World(w.peers[id := k], Forget(w.kernel, w.peers[id := k]), w.last, w.passed, w.billed)
    case Leave(id) => World(w.peers - {id}, Forget(w.kernel, w.peers - {id}), w.last, w.passed, w.billed)
    case Silence => w
    case Answer(dump) =>
      World(w.peers, w.kernel, Snapshot(w.peers, dump), Passing(w.passed, w.peers),
            Billed(w.billed, w.peers, w.last, dump))
  }

  function Run(w: World, es: seq<Event>): World
    decreases |es|
  {
    if es == [] then w else Run(After(w, es[0]), es[1..])
  }

  /** What a step may be: the lines an answer prints are true, though it may lack some, and no two users share a key. */
  ghost predicate Honest(w: World, e: Event) {
    && (e.Answer? ==> forall k :: k in e.dump && k in w.peers.Values ==> e.dump[k] == At(w.kernel, k))
    && (e.Put? ==> forall id :: id in w.peers && w.peers[id] == e.key ==> id == e.id)
  }

  ghost predicate HonestRun(w: World, es: seq<Event>)
    decreases |es|
  {
    es != [] ==> Honest(w, es[0]) && HonestRun(After(w, es[0]), es[1..])
  }

  /** An answer prints the peer's line, or its bill so far leaves room for all the kernel counts. */
  predicate Harmless(w: World, e: Event, k: Key) {
    e.Answer? && k in w.peers.Values && k !in e.dump ==> At(w.billed, k) + At(w.kernel, k) <= At(w.passed, k)
  }

  ghost predicate HarmlessRun(w: World, es: seq<Event>, k: Key)
    decreases |es|
  {
    es != [] ==> Harmless(w, es[0], k) && HarmlessRun(After(w, es[0]), es[1..], k)
  }

  /** What the next answered poll would still bill. */
  function Pending(w: World, k: Key): nat {
    if k in w.last then Grown(At(w.kernel, k), w.last[k]) else 0
  }

  predicate CoveredAt(w: World, k: Key) {
    && (k in w.last || k in w.billed ==> k in w.passed)
    && (k in w.passed ==> At(w.billed, k) + Pending(w, k) <= w.passed[k])
  }

  /** The next answer that prints the peer bills no more than passed, exactly when the peer is covered now. */
  lemma NextBillIff(w: World, dump: Table, k: Key)
    requires Honest(w, Answer(dump)) && k in w.peers.Values && k in dump && k in w.passed
    ensures At(After(w, Answer(dump)).billed, k) <= At(After(w, Answer(dump)).passed, k) <==> CoveredAt(w, k)
  {
    assert Billing(w.last, dump, k) == Pending(w, k);
  }

  /** An answer keeps a covered peer covered exactly when it is harmless to it. */
  lemma CoveredAnswerIff(w: World, dump: Table, k: Key)
    requires CoveredAt(w, k) && Honest(w, Answer(dump))
    ensures CoveredAt(After(w, Answer(dump)), k) <==> Harmless(w, Answer(dump), k)
  {
    var v := After(w, Answer(dump));
    assert k in v.last <==> k in w.peers.Values;
    if k in w.peers.Values {
      if k in dump {
        assert Pending(v, k) == 0;
        assert Billing(w.last, dump, k) == Pending(w, k);
      } else {
        assert Billing(w.last, dump, k) == 0;
        assert Pending(v, k) == At(w.kernel, k);
      }
    }
  }

  lemma CoveredStepIff(w: World, e: Event, k: Key)
    requires CoveredAt(w, k) && Honest(w, e)
    ensures CoveredAt(After(w, e), k) <==> Harmless(w, e, k)
  {
    if e.Answer? {
      CoveredAnswerIff(w, e.dump, k);
    } else if !(e.Carry? && e.key == k) {
      assert At(After(w, e).kernel, k) == At(w.kernel, k) || At(After(w, e).kernel, k) == 0;
    }
  }

  ghost predicate CoveredThroughout(w: World, es: seq<Event>, k: Key)
    decreases |es|
  {
    CoveredAt(w, k) && (es != [] ==> CoveredThroughout(After(w, es[0]), es[1..], k))
  }

  /**
    Over any run of traffic, bounces, peer churn and polls silent or true in what
    they print, a peer is covered all along, so that no poll bills it more than it
    carried, exactly when every answer prints its line or is harmless without it.
  */
  lemma {:induction false} NeverOverbilledIff(w: World, es: seq<Event>, k: Key)
    requires CoveredAt(w, k) && HonestRun(w, es)
    ensures CoveredThroughout(w, es, k) <==> HarmlessRun(w, es, k)
    decreases |es|
  {
    if es != [] {
      CoveredStepIff(w, es[0], k);
      if Harmless(w, es[0], k) {
        NeverOverbilledIff(After(w, es[0]), es[1..], k);
      }
    }
  }

  /** In such a run no key is ever billed more than it carried since its first baseline. */
  lemma {:induction false} NeverOverbilled(w: World, es: seq<Event>, k: Key)
    requires CoveredAt(w, k) && HonestRun(w, es) && HarmlessRun(w, es, k)
    ensures CoveredAt(Run(w, es), k)
    ensures k in Run(w, es).passed ==> At(Run(w, es).billed, k) <= Run(w, es).passed[k]
    ensures k in Run(w, es).billed ==> k in Run(w, es).passed
    decreases |es|
  {
    if es != [] {
      CoveredStepIff(w, es[0], k);
      NeverOverbilled(After(w, es[0]), es[1..], k);
    }
  }

  /** A fresh agent, over an interface that may have been up for years. */
  lemma FreshNeverOverbills(peers: map<Id, Key>, kernel: Table, es: seq<Event>, k: Key)
    requires HonestRun(World(peers, kernel, map[], map[], map[]), es)
    requires HarmlessRun(World(peers, kernel, map[], map[], map[]), es, k)
    ensures var v := Run(World(peers, kernel, map[], map[], map[]), es);
            At(v.billed, k) <= At(v.passed, k)
  {
    NeverOverbilled(World(peers, kernel, map[], map[], map[]), es, k);
  }

  /** An answer tells the peer's counter: by its line, or by none where the counter is zero. */
  predicate Tells(w: World, e: Event, k: Key) {
    e.Answer? ==> At(e.dump, k) == At(w.kernel, k)
  }

  ghost predicate TellsThroughout(w: World, es: seq<Event>, k: Key)
    decreases |es|
  {
    es != [] ==> Tells(w, es[0], k) && TellsThroughout(After(w, es[0]), es[1..], k)
  }

  /** The key stays a peer and the interface stays up. */
  ghost predicate Undisturbed(w: World, es: seq<Event>, k: Key)
    decreases |es|
  {
    k in w.peers.Values && (es != [] ==> !es[0].Bounce? && Undisturbed(After(w, es[0]), es[1..], k))
  }

  /** Nothing is owed and nothing is lost: billed and passed grew by the same. */
  ghost predicate Even(w: World, v: World, k: Key) {
    && k in v.last && k in v.passed && v.last[k] <= At(v.kernel, k)
    && k in w.last && k in w.passed
    && At(v.billed, k) + w.last[k] == At(w.billed, k) + v.last[k]
    && v.passed[k] + At(w.kernel, k) == w.passed[k] + At(v.kernel, k)
  }

  lemma EvenStep(w: World, v: World, e: Event, k: Key)
    requires Even(w, v, k) && Honest(v, e) && Tells(v, e, k)
    requires !e.Bounce? && k in v.peers.Values && k in After(v, e).peers.Values
    ensures Even(w, After(v, e), k)
  {
    var u := After(v, e);
    if e.Answer? {
      assert u.last[k] == At(v.kernel, k);
      assert At(u.billed, k) == At(v.billed, k) + Grown(At(v.kernel, k), v.last[k]);
    } else if !(e.Carry? && e.key == k) {
      assert At(u.kernel, k) == At(v.kernel, k);
    }
  }

  /**
    With no reset, no removal and no answer that hides its counter, what a peer is
    billed is exactly its last counter seen less the baseline, however many polls
    stayed silent.
  */
  lemma {:induction false} NothingLost(w: World, v: World, es: seq<Event>, k: Key)
    requires Even(w, v, k) && HonestRun(v, es) && TellsThroughout(v, es, k) && Undisturbed(v, es, k)
    ensures Even(w, Run(v, es), k)
    decreases |es|
  {
    if es != [] {
      EvenStep(w, v, es[0], k);
      NothingLost(w, After(v, es[0]), es[1..], k);
    }
  }

  lemma {:induction false} StillPeer(w: World, es: seq<Event>, k: Key)
    requires Undisturbed(w, es, k)
    ensures k in Run(w, es).peers.Values
    decreases |es|
  {
    if es != [] {
      StillPeer(After(w, es[0]), es[1..], k);
    }
  }

  /** From one answered poll to another, through any such run, the panel is billed exactly what passed. */
  lemma BilledIsPassed(w: World, es: seq<Event>, first: Table, final: Table, k: Key)
    requires Honest(w, Answer(first)) && Tells(w, Answer(first), k)
    requires HonestRun(After(w, Answer(first)), es) && Undisturbed(After(w, Answer(first)), es, k)
    requires TellsThroughout(After(w, Answer(first)), es, k)
    requires Honest(Run(After(w, Answer(first)), es), Answer(final)) &&
            Tells(Run(After(w, Answer(first)), es), Answer(final), k)
    ensures var a := After(w, Answer(first)); var z := After(Run(a, es), Answer(final));
            At(z.billed, k) + At(a.passed, k) == At(a.billed, k) + At(z.passed, k)
  {
    var a := After(w, Answer(first));
    var b := Run(a, es);
    assert Even(a, a, k);
    NothingLost(a, a, es, k);
    StillPeer(a, es, k);
    EvenStep(a, b, Answer(final), k);
    assert After(b, Answer(final)).last[k] == At(b.kernel, k);
  }

  // ------------------------------------------------------------------- across resets

  /**
    What one answer that prints the peer bills it, by what the kernel counts now and
    what it counted at the last answer: the growth; the whole counter, when that has
    gone back; and nothing at first sight.
  */
  lemma AnswerBills(w: World, dump: Table, k: Key)
    requires Honest(w, Answer(dump)) && k in w.peers.Values && k in dump
    ensures var v := After(w, Answer(dump)); var count := At(w.kernel, k);
      && k in v.last && v.last[k] == count
      && (k !in w.last ==> At(v.billed, k) == At(w.billed, k))
      && (k in w.last && count >= w.last[k] ==> At(v.billed, k) + w.last[k] == At(w.billed, k) + count)
      && (k in w.last && count < w.last[k] ==> At(v.billed, k) == At(w.billed, k) + count)
  {
  }

  /** What the kernel counted for the peer since the last answer; `bounced` since then, it counts from zero. */
  function Since(v: World, k: Key, bounced: bool): int {
    if bounced then At(v.kernel, k) else At(v.kernel, k) - At(v.last, k)
  }

  /**
    What a step makes unbillable: a bounce, the bytes no answer has told; an answer
    after a bounce that finds the counter past its old mark, which it cannot tell
    from growth, that mark.
  */
  function Missed(v: World, e: Event, k: Key, bounced: bool): int {
    match e
    case Bounce => Since(v, k, bounced)
    case Answer(_) => if bounced && At(v.kernel, k) >= At(v.last, k) then At(v.last, k) else 0
    case _ => 0
  }

  predicate BouncedAfter(e: Event, bounced: bool) {
    e.Bounce? || (bounced && !e.Answer?)
  }

  function MissedThroughout(v: World, es: seq<Event>, k: Key, bounced: bool): int
    decreases |es|
  {
    if es == [] then 0
    else Missed(v, es[0], k, bounced) + MissedThroughout(After(v, es[0]), es[1..], k, BouncedAfter(es[0], bounced))
  }

  predicate BouncedAtEnd(es: seq<Event>, bounced: bool)
    decreases |es|
  {
    if es == [] then bounced else BouncedAtEnd(es[1..], BouncedAfter(es[0], bounced))
  }

  /** The key stays a peer; the interface may bounce. */
  ghost predicate StaysPeer(w: World, es: seq<Event>, k: Key)
    decreases |es|
  {
    k in w.peers.Values && (es != [] ==> StaysPeer(After(w, es[0]), es[1..], k))
  }

  /** A peer with its baseline, its counter past the last mark unless the interface bounced. */
  predicate Tracked(v: World, k: Key, bounced: bool) {
    k in v.last && k in v.passed && (!bounced ==> v.last[k] <= At(v.kernel, k))
  }

  lemma MissedStep(v: World, e: Event, k: Key, bounced: bool)
    requires Tracked(v, k, bounced) && Honest(v, e) && Tells(v, e, k)
    requires k in v.peers.Values && k in After(v, e).peers.Values
    ensures var u, b := After(v, e), BouncedAfter(e, bounced);
      && Tracked(u, k, b) && Missed(v, e, k, bounced) >= 0
      && At(u.passed, k) - At(v.passed, k) ==
          At(u.billed, k) - At(v.billed, k) + Missed(v, e, k, bounced) + Since(u, k, b) - Since(v, k, bounced)
  {
    var u := After(v, e);
    if e.Answer? {
      assert At(u.last, k) == At(v.kernel, k);
    } else if !(e.Carry? && e.key == k) && !e.Bounce? {
      assert At(u.kernel, k) == At(v.kernel, k);
    }
  }

  /** Every byte that passed is billed, missed, or still to be told. */
  lemma {:induction false} NoneUnaccounted(v: World, es: seq<Event>, k: Key, bounced: bool)
    requires Tracked(v, k, bounced) && HonestRun(v, es) && TellsThroughout(v, es, k) && StaysPeer(v, es, k)
    ensures var z, b := Run(v, es), BouncedAtEnd(es, bounced);
      && Tracked(z, k, b) && MissedThroughout(v, es, k, bounced) >= 0
      && At(z.passed, k) - At(v.passed, k) ==
          At(z.billed, k) - At(v.billed, k) + MissedThroughout(v, es, k, bounced) +
              Since(z, k, b) - Since(v, k, bounced)
    decreases |es|
  {
    if es != [] {
      MissedStep(v, es[0], k, bounced);
      NoneUnaccounted(After(v, es[0]), es[1..], k, BouncedAfter(es[0], bounced));
    }
  }

  /**
    A bounce comes when every byte has been told, and the answer after one finds the
    counter below the mark it last saw.
  */
  predicate Noticed(v: World, e: Event, k: Key, bounced: bool) {
    && (e.Bounce? ==> At(v.kernel, k) == if bounced then 0 else At(v.last, k))
    && (e.Answer? && bounced ==> At(v.kernel, k) < At(v.last, k) || At(v.last, k) == 0)
  }

  ghost predicate NoticedThroughout(v: World, es: seq<Event>, k: Key, bounced: bool)
    decreases |es|
  {
    es != [] ==>
      Noticed(v, es[0], k, bounced) && NoticedThroughout(After(v, es[0]), es[1..], k, BouncedAfter(es[0], bounced))
  }

  lemma {:induction false} NothingMissedIff(v: World, es: seq<Event>, k: Key, bounced: bool)
    requires Tracked(v, k, bounced) && HonestRun(v, es) && TellsThroughout(v, es, k) && StaysPeer(v, es, k)
    ensures MissedThroughout(v, es, k, bounced) == 0 <==> NoticedThroughout(v, es, k, bounced)
    decreases |es|
  {
    if es != [] {
      var b := BouncedAfter(es[0], bounced);
      MissedStep(v, es[0], k, bounced);
      NothingMissedIff(After(v, es[0]), es[1..], k, b);
      NoneUnaccounted(After(v, es[0]), es[1..], k, b);
    }
  }

  /**
    From one answered poll on, through any run of traffic, polls and bounces in which
    the key stays a peer and every answer tells its counter, and up to a state with
    nothing untold: the panel is billed exactly what passed if and only if every
    bounce was noticed.
  */
  lemma BilledAcrossResetsIff(a: World, es: seq<Event>, k: Key)
    requires Tracked(a, k, false) && Since(a, k, false) == 0
    requires HonestRun(a, es) && TellsThroughout(a, es, k) && StaysPeer(a, es, k)
    requires Since(Run(a, es), k, BouncedAtEnd(es, false)) == 0
    ensures var z := Run(a, es);
      && At(z.billed, k) - At(a.billed, k) <= At(z.passed, k) - At(a.passed, k)
      && (At(z.billed, k) - At(a.billed, k) == At(z.passed, k) - At(a.passed, k) <==>
          NoticedThroughout(a, es, k, false))
  {
    NoneUnaccounted(a, es, k, false);
    NothingMissedIff(a, es, k, false);
  }

  /** A bounce that is not: more passes after it than the counter held before, and the old mark is never billed. */
  lemma UnnoticedBounceUnderbills(u: Id, k: Key, mark: nat, more: nat)
    requires more >= mark
    ensures var w := World(map[u := k], map[k := mark], map[k := mark], map[k := mark], map[k := mark]);
      var es := [Bounce, Carry(k, more), Answer(map[k := more])];
      && HonestRun(w, es) && TellsThroughout(w, es, k) && StaysPeer(w, es, k)
      && At(Run(w, es).passed, k) == mark + more && At(Run(w, es).billed, k) == more
  {
    var w := World(map[u := k], map[k := mark], map[k := mark], map[k := mark], map[k := mark]);
    var es := [Bounce, Carry(k, more), Answer(map[k := more])];
    assert w.peers[u] == k && k in w.peers.Values;
    var a := After(w, Bounce);
    var b := After(a, Carry(k, more));
    var c := After(b, Answer(map[k := more]));
    assert At(b.kernel, k) == more && b.last[k] == mark && b.passed[k] == mark + more;
    AnswerBills(b, map[k := more], k);
    assert es[1..] == [Carry(k, more), Answer(map[k := more])];
    assert es[1..][1..] == [Answer(map[k := more])] && es[1..][1..][1..] == [];
    assert Run(c, []) == c;
    assert HonestRun(b, [Answer(map[k := more])]) && TellsThroughout(b, [Answer(map[k := more])], k);
    assert StaysPeer(c, [], k);
    assert StaysPeer(b, [Answer(map[k := more])], k);
    var last, rest := [Answer(map[k := more])], [Carry(k, more), Answer(map[k := more])];
    assert Run(b, last) == c && Run(a, rest) == Run(b, last);
    assert HonestRun(a, rest) && TellsThroughout(a, rest, k) && StaysPeer(a, rest, k);
  }

  /** An answer that tells the counter leaves nothing untold. */
  lemma AnswerTellsAll(w: World, dump: Table, k: Key)
    requires Honest(w, Answer(dump)) && Tells(w, Answer(dump), k) && k in w.peers.Values
    ensures Tracked(After(w, Answer(dump)), k, false) && Since(After(w, Answer(dump)), k, false) == 0
  {
  }

  /**
    The case outside the condition: a poll that succeeds without a peer's line is
    taken for a counter of zero, and the next one bills its lifetime.
  */
  lemma MissingLineOverbills(u: Id, p: Key, life: nat)
    requires life > 0
    ensures var w := World(map[u := p], map[p := life], map[], map[], map[]);
            var es := [Answer(map[]), Answer(map[p := life])];
            && HonestRun(w, es) && CoveredAt(w, p) && !HarmlessRun(w, es, p)
            && At(Run(w, es).passed, p) == 0 && At(Run(w, es).billed, p) == life
  {
    var full: Table := map[p := life];
    var w := World(map[u := p], full, map[], map[], map[]);
    var es := [Answer(map[]), Answer(full)];
    assert w.peers[u] == p;
    assert p in w.peers.Values;
    var a := After(w, Answer(map[]));
    assert a.last[p] == 0 && a.peers == w.peers;
    assert es[1..] == [Answer(full)] && es[1..][1..] == [];
    assert Run(w, es) == Run(a, [Answer(full)]);
    assert Run(a, [Answer(full)]) == After(a, Answer(full));
    assert Honest(w, es[0]) && Honest(a, Answer(full));
    assert HonestRun(a, [Answer(full)]);
  }

  /** Who is a peer, and with which key, after each kind of event; a removed key's counter goes with it. */
  lemma PeersAfter(w: World, id: Id, k: Key)
    ensures After(w, Put(id, k)).peers == w.peers[id := k] && After(w, Leave(id)).peers == w.peers - {id}
    ensures forall x :: x in After(w, Leave(id)).kernel <==> x in w.kernel && x in (w.peers - {id}).Values
    ensures forall x :: x in After(w, Put(id, k)).kernel <==> x in w.kernel && x in w.peers[id := k].Values
    ensures After(w, Bounce).kernel == map[] && After(w, Bounce).peers == w.peers && After(w, Silence) == w
  {
  }
}
