/**
  What the rules do to a packet (chain_tproxy.go:52-91): the kernel's list read top
  down for the packets an AmneziaWG interface brings in.
*/
module HandOffPackets {
  import opened Common
  import opened HandOff
  import opened HandOffProofs

  /** TCP or UDP arriving on an interface, for this node itself or for someone else's address. */
  datatype Packet = Packet(iface: string, proto: Proto, local: bool)

  /** Mangle PREROUTING: let out, steered to a port under a mark, or neither. */
  datatype Fate = Untouched | Returned | Steered(port: int, mark: int)

  predicate Matches(r: Rule, p: Packet) {
    match r
    case LocalReturn(i) => i == p.iface && p.local
    case Steer(i, proto, _, _) => i == p.iface && proto == p.proto
    case _ => false
  }

  /** The first rule that matches decides. */
  function Mangled(s: Rules, p: Packet): Fate {
    if s == [] then Untouched
    else if !Matches(s[0], p) then Mangled(s[1..], p)
    else if s[0].Steer? then Steered(s[0].port, s[0].mark)
    else Returned
  }

  /**
    The packet comes to the socket on this port: steered there, its mark looked up in
    the table that delivers it to this node, and accepted on the way in.
  */
  predicate Delivered(s: Rules, p: Packet, port: int, mark: int) {
    && Mangled(s, p) == Steered(port, mark)
    && IpRule(mark) in s && LocalRoute(mark) in s && InputAccept(p.iface, mark) in s
  }

  /** Everything the interface brings in for someone else goes to this hand-off, and nothing of the node's own does. */
  ghost predicate HandsTo(s: Rules, i: string, t: Option<TProxy>) {
    forall p: Packet :: p.iface == i ==>
      if p.local || t.None? then !Mangled(s, p).Steered? else Delivered(s, p, t.value.port, t.value.mark)
  }

  /** On the way from one hand-off to another: to either of them, and nowhere else. */
  ghost predicate HandsToEither(s: Rules, i: string, a: Option<TProxy>, b: Option<TProxy>) {
    forall p: Packet :: p.iface == i ==>
      if p.local then !Mangled(s, p).Steered?
      else
        || (a.Some? && Delivered(s, p, a.value.port, a.value.mark))
        || (b.Some? && Delivered(s, p, b.value.port, b.value.mark))
        || ((a.None? || b.None?) && Mangled(s, p) == Untouched)
  }

  /** The accept stands ahead of everything the host has put there. */
  predicate Leads(s: Rules, r: Rule) {
    s != [] && (s[0] == r || (!s[0].Foreign? && Leads(s[1..], r)))
  }

  predicate AcceptLeads(s: Rules, i: string, t: Option<TProxy>) {
    t.Some? ==> Leads(s, InputAccept(i, t.value.mark))
  }

  /** Nobody but this hand-off steers the interface. */
  ghost predicate SteersOnly(s: Rules, i: string, t: Option<TProxy>) {
    forall st :: st in s && st.Steer? && st.iface == i ==> st in Up(i, t)
  }

  ghost predicate SteersEither(s: Rules, i: string, a: Option<TProxy>, b: Option<TProxy>) {
    forall st :: st in s && st.Steer? && st.iface == i ==> st in Up(i, a) || st in Up(i, b)
  }

  // -------------------------------------------------------------------- one packet

  ghost predicate Decides(s: Rules, p: Packet, k: int) {
    0 <= k < |s| && Matches(s[k], p) && forall j :: 0 <= j < k ==> !Matches(s[j], p)
  }

  lemma {:induction false} Decider(s: Rules, p: Packet)
    ensures Mangled(s, p).Untouched? ==> forall r :: r in s ==> !Matches(r, p)
    ensures !Mangled(s, p).Untouched? ==> exists k :: Decides(s, p, k)
    ensures forall k :: Decides(s, p, k) ==>
              Mangled(s, p) == if s[k].Steer? then Steered(s[k].port, s[k].mark) else Returned
  {
    if s != [] {
      var tail := s[1..];
      assert forall r :: r in s <==> r == s[0] || r in tail;
      if Matches(s[0], p) {
        assert Decides(s, p, 0);
      } else {
        Decider(tail, p);
        forall k | Decides(s, p, k) ensures Decides(tail, p, k - 1) {
        }
        if !Mangled(s, p).Untouched? {
          var k :| Decides(tail, p, k);
          assert Decides(s, p, k + 1);
        }
      }
    }
  }

  /** A packet is steered by a rule that is there, and one for the node itself is not where the return goes first. */
  lemma SteeredBy(s: Rules, p: Packet)
    ensures Mangled(s, p).Steered? ==> Steer(p.iface, p.proto, Mangled(s, p).port, Mangled(s, p).mark) in s
    ensures Mangled(s, p).Returned? ==> p.local
    ensures ReturnFirst(s) && p.local ==> !Mangled(s, p).Steered?
  {
    Decider(s, p);
    if !Mangled(s, p).Untouched? {
      var k :| Decides(s, p, k);
      assert ReturnFirst(s) && p.local ==> !s[k].Steer?;
    }
  }

  lemma SteerLine(i: string, t: TProxy, p: Proto)
    ensures Steer(i, p, t.port, t.mark) in Up(i, Some(t))
    ensures forall st :: st in Up(i, Some(t)) && st.Steer? ==>
              st.iface == i && st.port == t.port && st.mark == t.mark
  {
    var up := HookUp(i, t);
    assert up[4] in up && up[5] in up;
  }

  /** A steered packet is delivered where its rule says, in a sound list. */
  lemma SteeredIsDelivered(s: Rules, p: Packet)
    requires Sound(s) && Mangled(s, p).Steered?
    ensures Delivered(s, p, Mangled(s, p).port, Mangled(s, p).mark)
  {
    SteeredBy(s, p);
    var st := Steer(p.iface, p.proto, Mangled(s, p).port, Mangled(s, p).mark);
    assert Needs(st, IpRule(st.mark)) && Needs(st, LocalRoute(st.mark)) && Needs(st, InputAccept(st.iface, st.mark));
  }

  /** Nothing else steers, and one of the two is in force. */
  lemma OneOfTwo(s: Rules, i: string, a: Option<TProxy>, b: Option<TProxy>)
    requires Sound(s) && SteersEither(s, i, a, b) && (InForce(s, i, a) || InForce(s, i, b))
    ensures HandsToEither(s, i, a, b)
  {
    forall p: Packet | p.iface == i
      ensures p.local ==> !Mangled(s, p).Steered?
      ensures !p.local ==>
                || (a.Some? && Delivered(s, p, a.value.port, a.value.mark))
                || (b.Some? && Delivered(s, p, b.value.port, b.value.mark))
                || ((a.None? || b.None?) && Mangled(s, p) == Untouched)
    {
      SteeredBy(s, p);
      if !p.local && Mangled(s, p).Steered? {
        SteeredIsDelivered(s, p);
        if a.Some? { SteerLine(i, a.value, p.proto); }
        if b.Some? { SteerLine(i, b.value, p.proto); }
      } else if !p.local && a.Some? && b.Some? {
        Decider(s, p);
        var t := if InForce(s, i, a) then a.value else b.value;
        SteerLine(i, t, p.proto);
        assert Matches(Steer(i, p.proto, t.port, t.mark), p);
      }
    }
  }

  lemma OnlyOne(s: Rules, i: string, t: Option<TProxy>)
    requires Sound(s) && SteersOnly(s, i, t) && InForce(s, i, t)
    ensures HandsTo(s, i, t)
  {
    OneOfTwo(s, i, t, t);
    forall p: Packet | p.iface == i
      ensures if p.local || t.None? then !Mangled(s, p).Steered? else Delivered(s, p, t.value.port, t.value.mark)
    {
      SteeredBy(s, p);
    }
  }

  // ----------------------------------------------------------------- a whole change

  lemma {:induction false} SweepLineVisitsNothingNew(s: Rules, r: Rule, n: nat, m: Rules, x: Rule)
    requires m in SweepLine(s, r, n).visited && x in m
    ensures x in s
    decreases |s|
  {
    if n != 0 && r in s {
      SweepLineStep(s, r, n);
      if m != Del(s, r) {
        SweepLineVisitsNothingNew(Del(s, r), r, n - 1, m, x);
      }
      DelMember(s, r, x);
    }
  }

  lemma {:induction false} SweepVisitsNothingNew(s: Rules, lines: Rules, m: Rules, x: Rule)
    requires m in Sweep(s, lines).visited && x in m
    ensures x in s
    decreases |lines|
  {
    if lines != [] {
      var w := SweepLine(s, lines[0], SWEEP_MAX_REPEATS);
      if m in w.visited {
        SweepLineVisitsNothingNew(s, lines[0], SWEEP_MAX_REPEATS, m, x);
      } else {
        SweepVisitsNothingNew(w.end, lines[1..], m, x);
        SweepLineShrinks(s, lines[0], SWEEP_MAX_REPEATS, x);
      }
    }
  }

  lemma {:induction false} AddVisitsOnlyThese(s: Rules, lines: Rules, grant: nat, m: Rules, x: Rule)
    requires (m in AddAll(s, lines, grant).visited || m == AddAll(s, lines, grant).end) && x in m
    ensures x in s || x in lines
    decreases |lines|
  {
    if lines != [] && grant != 0 {
      if m != Add(s, lines[0]) {
        AddVisitsOnlyThese(Add(s, lines[0]), lines[1..], grant - 1, m, x);
      }
    }
  }

  /** A walk in which nothing is there that was neither there before nor among these lines. */
  ghost predicate Brings(w: Walk, s: Rules, lines: Rules) {
    forall m, x :: (m in w.visited || m == w.end) && x in m ==> x in s || x in lines
  }

  lemma SweepBrings(s: Rules, down: Rules, lines: Rules)
    ensures Brings(Sweep(s, down), s, lines)
  {
    forall m, x | (m in Sweep(s, down).visited || m == Sweep(s, down).end) && x in m ensures x in s {
      if m in Sweep(s, down).visited {
        SweepVisitsNothingNew(s, down, m, x);
      } else {
        SweepShrinks(s, down, x);
      }
    }
  }

  lemma BringsThen(a: Walk, b: Walk, s: Rules, lines: Rules)
    requires Brings(a, s, lines) && Brings(b, a.end, lines)
    ensures Brings(Then(a, b), s, lines)
  {
    forall m, x | (m in Then(a, b).visited || m == b.end) && x in m ensures x in s || x in lines {
      if m !in a.visited {
        assert m in b.visited || m == b.end;
        if x in a.end {
          assert x in s || x in lines;
        }
      }
    }
  }

  lemma SwapBrings(s: Rules, residue: Rules, up: Rules, prevOnly: Rules, grant: nat)
    ensures Brings(SwapLines(s, residue, up, prevOnly, grant), s, up)
  {
    var cleaned := Sweep(s, residue);
    SweepBrings(s, residue, up);
    var adding := AddAll(cleaned.end, up, grant);
    forall m, x | (m in adding.visited || m == adding.end) && x in m ensures x in cleaned.end || x in up {
      AddVisitsOnlyThese(cleaned.end, up, grant, m, x);
    }
    BringsThen(cleaned, adding, s, up);
    var added := Then(cleaned, adding);
    SweepBrings(added.end, prevOnly, up);
    BringsThen(added, Sweep(added.end, prevOnly), s, up);
  }

  lemma UndoBrings(w: Walk, s: Rules, residue: Rules, up: Rules)
    requires Brings(w, s, up)
    ensures var u := Sweep(w.end, residue); Brings(Walk(w.visited + u.visited, u.end, false), s, up)
  {
    SweepBrings(w.end, residue, up);
    BringsThen(w, Sweep(w.end, residue), s, up);
    assert Brings(Then(w, Sweep(w.end, residue)), s, up);
  }

  lemma ChangeBrings(s: Rules, i: string, prev: Option<TProxy>, next: Option<TProxy>, grant: nat)
    ensures Brings(Change(s, i, prev, next, grant), s, NewUp(i, prev, next))
  {
    var w := Swap(s, i, prev, next, grant);
    SwapBrings(s, NewDown(i, prev, next), NewUp(i, prev, next), NewDown(i, next, prev), grant);
    UndoBrings(w, s, NewDown(i, prev, next), NewUp(i, prev, next));
  }

  lemma StillEither(m: Rules, s: Rules, i: string, prev: Option<TProxy>, next: Option<TProxy>)
    requires SteersEither(s, i, prev, next)
    requires forall x :: x in m ==> x in s || x in NewUp(i, prev, next)
    ensures SteersEither(m, i, prev, next)
  {
    NewLines(i, prev, next);
  }

  lemma OwnIsEither(s: Rules, i: string, prev: Option<TProxy>, next: Option<TProxy>)
    requires OwnSteering(s, i, prev, next)
    ensures SteersEither(s, i, prev, next)
  {
  }

  /** What a change needs to find: the old hand-off in force, backed and returned first, and nobody else's steering. */
  ghost predicate WellHanded(s: Rules, i: string, prev: Option<TProxy>, next: Option<TProxy>) {
    && Sound(s) && OwnSteering(s, i, prev, next) && InForce(s, i, prev)
    && Sweepable(s, NewDown(i, next, prev))
  }

  /**
    In every state a change goes through, whatever the kernel refuses and whatever
    residue it starts among, each packet for someone else comes to the old hand-off's
    port or the new one's, and none of the node's own is steered.
  */
  lemma AlwaysDelivered(s: Rules, i: string, prev: Option<TProxy>, next: Option<TProxy>, grant: nat)
    requires WellHanded(s, i, prev, next)
    ensures forall m :: m in Change(s, i, prev, next, grant).visited ==> HandsToEither(m, i, prev, next)
  {
    ChangeAlwaysSound(s, i, prev, next, grant);
    ChangeNeverUnsteered(s, i, prev, next, grant);
    ChangeBrings(s, i, prev, next, grant);
    OwnIsEither(s, i, prev, next);
    forall m | m in Change(s, i, prev, next, grant).visited ensures HandsToEither(m, i, prev, next) {
      StillEither(m, s, i, prev, next);
      OneOfTwo(m, i, prev, next);
    }
  }

  /** After a change that succeeded, only the new set steers the interface, and all of it is there. */
  lemma SucceededEnds(s: Rules, i: string, prev: Option<TProxy>, next: Option<TProxy>, grant: nat)
    requires WellHanded(s, i, prev, next) && prev != next && Change(s, i, prev, next, grant).ok
    ensures SteersOnly(Change(s, i, prev, next, grant).end, i, next)
    ensures InForce(Change(s, i, prev, next, grant).end, i, next)
  {
    var end := Change(s, i, prev, next, grant).end;
    SwapEnds(s, i, prev, next, grant);
    forall st | st in end && st.Steer? && st.iface == i ensures st in Up(i, next) {
      assert Count(end, st) > 0;
      assert st !in Up(i, next) ==> Count(s, st) > 0;
    }
    forall r | r in Up(i, next) ensures r in end {
      assert r in Up(i, prev) ==> Count(s, r) > 0;
      assert Count(end, r) > 0;
    }
  }

  /** And after one that failed, the old set, unless a line of the new one was there 64 times. */
  lemma FailedEnds(s: Rules, i: string, prev: Option<TProxy>, next: Option<TProxy>, grant: nat)
    requires WellHanded(s, i, prev, next) && !Change(s, i, prev, next, grant).ok
    requires Sweepable(s, NewDown(i, prev, next)) || SteersOnly(s, i, prev)
    ensures SteersOnly(Change(s, i, prev, next, grant).end, i, prev)
  {
    var newDown := NewDown(i, prev, next);
    var end := Change(s, i, prev, next, grant).end;
    SwapEnds(s, i, prev, next, grant);
    NewLines(i, prev, next);
    if Sweepable(s, newDown) {
      UndoRestores(s, i, prev, next, grant);
      forall st | st in end && st.Steer? && st.iface == i ensures st in Up(i, prev) {
        assert Count(end, st) > 0;
        DropCount(s, SetOf(NewUp(i, prev, next)), st);
        assert st in s;
      }
    } else {
      SweepEnds(s, newDown);
      forall st | st in end ensures st in s {
        SweepShrinks(Sweep(s, newDown).end, newDown, st);
        SweepShrinks(s, newDown, st);
      }
    }
  }

  /**
    What a change is for: once it has succeeded, every TCP and UDP packet the
    interface brings in for someone else comes to the new hand-off's port under its
    mark; once it has failed, to the old one's; and with no hand-off none is steered.
  */
  lemma ChangeHandsTo(s: Rules, i: string, prev: Option<TProxy>, next: Option<TProxy>, grant: nat)
    requires WellHanded(s, i, prev, next)
    requires Sweepable(s, NewDown(i, prev, next)) || SteersOnly(s, i, prev)
    ensures prev != next ==>
              HandsTo(Change(s, i, prev, next, grant).end, i,
                      if Change(s, i, prev, next, grant).ok then next else prev)
    ensures prev == next ==> Change(s, i, prev, next, grant).ok && HandsTo(s, i, prev)
  {
    var end := Change(s, i, prev, next, grant).end;
    ChangeAlwaysSound(s, i, prev, next, grant);
    if prev == next {
      OnlyOne(s, i, prev);
    } else if Change(s, i, prev, next, grant).ok {
      SucceededEnds(s, i, prev, next, grant);
      OnlyOne(end, i, next);
    } else {
      FailedEnds(s, i, prev, next, grant);
      ChangeNeverUnsteered(s, i, prev, next, grant);
      OnlyOne(end, i, prev);
    }
  }

  // ------------------------------------------------------------- ahead of the firewall

  lemma {:induction false} LeadsBefore(s: Rules, t: Rules, r: Rule)
    requires Leads(s, r)
    ensures Leads(s + t, r)
  {
    if s[0] != r {
      assert (s + t)[1..] == s[1..] + t;
      LeadsBefore(s[1..], t, r);
    }
  }

  lemma LeadsAdd(s: Rules, x: Rule, r: Rule)
    requires Leads(s, r) || x == r
    requires r.InputAccept?
    ensures Leads(Add(s, x), r)
  {
    if x.InputAccept? {
      assert ([x] + s)[1..] == s;
    } else {
      LeadsBefore(s, [x], r);
    }
  }

  lemma {:induction false} LeadsAddAll(s: Rules, lines: Rules, grant: nat, r: Rule)
    requires r.InputAccept? && (Leads(s, r) || (r in lines && |lines| <= grant))
    ensures Leads(AddAll(s, lines, grant).end, r)
    decreases |lines|
  {
    if lines != [] && grant != 0 {
      if Leads(s, r) || lines[0] == r {
        LeadsAdd(s, lines[0], r);
      }
      LeadsAddAll(Add(s, lines[0]), lines[1..], grant - 1, r);
    }
  }

  lemma {:induction false} LeadsDrop(s: Rules, gone: set<Rule>, r: Rule)
    requires Leads(s, r) && r !in gone
    ensures Leads(Drop(s, gone), r)
  {
    if s[0] != r {
      LeadsDrop(s[1..], gone, r);
    }
  }

  /** The end of a change that succeeded, and of one refused in its adds, as lists. */
  lemma SwapListed(s: Rules, i: string, prev: Option<TProxy>, next: Option<TProxy>, grant: nat)
    requires Swap(s, i, prev, next, grant).ok
    ensures Swap(s, i, prev, next, grant).end ==
              Drop(AddAll(Drop(s, SetOf(NewDown(i, prev, next))), NewUp(i, prev, next), grant).end,
                   SetOf(NewDown(i, next, prev)))
    ensures |NewUp(i, prev, next)| <= grant
  {
    SwapEnds(s, i, prev, next, grant);
    SweepEnds(s, NewDown(i, prev, next));
    SweepEnds(AddAll(Drop(s, SetOf(NewDown(i, prev, next))), NewUp(i, prev, next), grant).end, NewDown(i, next, prev));
  }

  lemma AcceptOf(i: string, t: TProxy)
    ensures InputAccept(i, t.mark) in Up(i, Some(t))
  {
    assert HookUp(i, t)[2] == InputAccept(i, t.mark);
  }

  lemma LeadsThrough(s: Rules, residue: set<Rule>, up: Rules, grant: nat, gone: set<Rule>, r: Rule)
    requires r.InputAccept? && r !in gone
    requires (Leads(s, r) && r !in residue) || (r in up && |up| <= grant)
    ensures Leads(Drop(AddAll(Drop(s, residue), up, grant).end, gone), r)
  {
    if Leads(s, r) && r !in residue {
      LeadsDrop(s, residue, r);
    }
    LeadsAddAll(Drop(s, residue), up, grant, r);
    LeadsDrop(AddAll(Drop(s, residue), up, grant).end, gone, r);
  }

  /** Kept from the old set, or brought by the new one, and not among what goes. */
  lemma AcceptKeptOrNew(i: string, prev: Option<TProxy>, t: TProxy)
    ensures var r := InputAccept(i, t.mark);
      && r !in SetOf(NewDown(i, Some(t), prev))
      && (r in NewUp(i, prev, Some(t)) ||
          (prev.Some? && prev.value.mark == t.mark && r !in SetOf(NewDown(i, prev, Some(t)))))
  {
    AcceptOf(i, t);
    NewLines(i, prev, Some(t));
    NewLines(i, Some(t), prev);
  }

  lemma NewAcceptLeads(s: Rules, i: string, prev: Option<TProxy>, t: TProxy, grant: nat)
    requires Swap(s, i, prev, Some(t), grant).ok && AcceptLeads(s, i, prev)
    ensures Leads(Swap(s, i, prev, Some(t), grant).end, InputAccept(i, t.mark))
  {
    AcceptKeptOrNew(i, prev, t);
    SwapListed(s, i, prev, Some(t), grant);
    LeadsThrough(s, SetOf(NewDown(i, prev, Some(t))), NewUp(i, prev, Some(t)), grant, SetOf(NewDown(i, Some(t), prev)),
                 InputAccept(i, t.mark));
  }

  /**
    The accept of the hand-off in force is ahead of every rule of the host's, after a
    change as before it: a new one goes in at the top, a kept one stays where it was.
  */
  lemma AcceptStaysAhead(s: Rules, i: string, prev: Option<TProxy>, next: Option<TProxy>, grant: nat)
    requires AcceptLeads(s, i, prev) && Sweepable(s, NewDown(i, prev, next))
    requires Sweepable(s, NewDown(i, next, prev))
    ensures AcceptLeads(Change(s, i, prev, next, grant).end, i,
                        if Change(s, i, prev, next, grant).ok then next else prev)
  {
    NewSets(i, prev, next);
    NewLines(i, prev, next);
    NewLines(i, next, prev);
    SwapEnds(s, i, prev, next, grant);
    if prev != next && Change(s, i, prev, next, grant).ok {
      if next.Some? {
        NewAcceptLeads(s, i, prev, next.value, grant);
      }
    } else if prev != next && prev.Some? {
      AcceptOf(i, prev.value);
      UndoRestores(s, i, prev, next, grant);
      LeadsDrop(s, SetOf(NewUp(i, prev, next)), InputAccept(i, prev.value.mark));
    }
  }
}
