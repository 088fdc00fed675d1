/** ApplyCascade over the two interfaces of one adapter (adapter.go:999-1046). */
module HandOffPair {
  import opened Common
  import opened HandOff
  import opened HandOffProofs

  /** What ApplyCascade reads off the wire: the 1.x and the 3.1 hand-off; neither is the null payload. */
  datatype Payload = Payload(one: Option<TProxy>, three: Option<TProxy>)

  predicate PayloadOk(p: Payload) {
    (p.one.Some? ==> Accepted(p.one.value)) && (p.three.Some? ==> Accepted(p.three.value)) &&
    (p.one.Some? && p.three.Some? ==> p.one.value.mark != p.three.value.mark)
  }

  predicate SameMark(a: Option<TProxy>, b: Option<TProxy>) {
    a.Some? && b.Some? && a.value.mark == b.value.mark
  }

  const V1 := "awg0"
  const V3 := "awg3"

  /** Both interfaces up and no add refused: the 1.x one is changed first, then the 3.1 one. */
  function ChangeBoth(s: Rules, prev1: Option<TProxy>, prev3: Option<TProxy>,
                      next1: Option<TProxy>, next3: Option<TProxy>): Rules {
    Change(Change(s, V1, prev1, next1, 6).end, V3, prev3, next3, 6).end
  }

  lemma {:induction false} WithoutShorter(lines: Rules, other: Rules)
    ensures |Without(lines, other)| <= |lines|
  {
    if lines != [] {
      WithoutShorter(lines[1..], other);
    }
  }

  lemma FewLines(i: string, prev: Option<TProxy>, next: Option<TProxy>)
    ensures |NewUp(i, prev, next)| <= 6
  {
    WithoutShorter(Up(i, next), Up(i, prev));
  }

  /** Two interfaces can have in common only the ip rule and the route of a mark both hold. */
  lemma Shared(i: string, a: Option<TProxy>, j: string, b: Option<TProxy>, r: Rule)
    requires i != j && r in Up(i, a) && r in Up(j, b)
    ensures SameMark(a, b) && (r == IpRule(a.value.mark) || r == LocalRoute(a.value.mark))
  {
  }

  lemma MarkRule(i: string, t: Option<TProxy>)
    requires t.Some?
    ensures IpRule(t.value.mark) in Up(i, t)
  {
    assert Up(i, t)[0] == IpRule(t.value.mark);
  }

  ghost predicate FewCopies(s: Rules, i: string, t: Option<TProxy>) {
    Sweepable(s, Up(i, t))
  }

  /** One interface's change, told of one rule. */
  lemma ChangeCounts(s: Rules, i: string, prev: Option<TProxy>, next: Option<TProxy>, r: Rule)
    requires FewCopies(s, i, prev) && FewCopies(s, i, next)
    ensures Count(Change(s, i, prev, next, 6).end, r) ==
              if r in Up(i, next) && r !in Up(i, prev) then 1
              else if r in Up(i, prev) && r !in Up(i, next) then 0
              else Count(s, r)
  {
    if prev != next {
      FewLines(i, prev, next);
      NewLines(i, prev, next);
      NewLines(i, next, prev);
      SwapEnds(s, i, prev, next, 6);
    }
  }

  lemma StillFew(s: Rules, prev1: Option<TProxy>, next1: Option<TProxy>, t: Option<TProxy>)
    requires FewCopies(s, V1, prev1) && FewCopies(s, V1, next1) && FewCopies(s, V3, t)
    ensures FewCopies(Change(s, V1, prev1, next1, 6).end, V3, t)
  {
    forall r | r in Up(V3, t)
      ensures Count(Change(s, V1, prev1, next1, 6).end, r) < SWEEP_MAX_REPEATS
    {
      ChangeCounts(s, V1, prev1, next1, r);
    }
  }

  /** A payload as the wire lets it through, and no line concerned has 64 copies. */
  ghost predicate BothFew(s: Rules, prev1: Option<TProxy>, prev3: Option<TProxy>, p: Payload) {
    PayloadOk(p) &&
    FewCopies(s, V1, prev1) && FewCopies(s, V3, prev3) && FewCopies(s, V1, p.one) && FewCopies(s, V3, p.three)
  }

  /** The lines a change leaves alone are there: so they are when the old hand-off is in force. */
  ghost predicate KeptThere(s: Rules, i: string, prev: Option<TProxy>, next: Option<TProxy>) {
    forall r :: r in Up(i, prev) && r in Up(i, next) ==> r in s
  }

  /** Both changes, told of one rule. */
  lemma BothCounts(s: Rules, prev1: Option<TProxy>, prev3: Option<TProxy>, p: Payload, r: Rule)
    requires BothFew(s, prev1, prev3, p)
    ensures Count(ChangeBoth(s, prev1, prev3, p.one, p.three), r) ==
              if r in Up(V3, p.three) && r !in Up(V3, prev3) then 1
              else if r in Up(V3, prev3) && r !in Up(V3, p.three) then 0
              else if r in Up(V1, p.one) && r !in Up(V1, prev1) then 1
              else if r in Up(V1, prev1) && r !in Up(V1, p.one) then 0
              else Count(s, r)
  {
    StillFew(s, prev1, p.one, prev3);
    StillFew(s, prev1, p.one, p.three);
    ChangeCounts(s, V1, prev1, p.one, r);
    ChangeCounts(Change(s, V1, prev1, p.one, 6).end, V3, prev3, p.three, r);
  }

  lemma ThreeLost(s: Rules, prev1: Option<TProxy>, prev3: Option<TProxy>, p: Payload)
    requires BothFew(s, prev1, prev3, p) && SameMark(prev1, prev3) && SameMark(prev3, p.three)
    ensures !InForce(ChangeBoth(s, prev1, prev3, p.one, p.three), V3, p.three)
  {
    var lost := IpRule(prev1.value.mark);
    MarkRule(V1, prev1);
    MarkRule(V3, prev3);
    MarkRule(V3, p.three);
    if lost in Up(V1, p.one) {
      Shared(V1, p.one, V3, p.three, lost);
    }
    BothCounts(s, prev1, prev3, p, lost);
  }

  /** The 3.1 hand-off keeps a mark the 1.x one shared: leaving the mark, 1.x takes rule and route along. */
  lemma ThreeInForceIff(s: Rules, prev1: Option<TProxy>, prev3: Option<TProxy>, p: Payload)
    requires BothFew(s, prev1, prev3, p)
    ensures InForce(ChangeBoth(s, prev1, prev3, p.one, p.three), V3, p.three) <==>
              !(SameMark(prev1, prev3) && SameMark(prev3, p.three)) && KeptThere(s, V3, prev3, p.three)
  {
    var end := ChangeBoth(s, prev1, prev3, p.one, p.three);
    if SameMark(prev1, prev3) && SameMark(prev3, p.three) {
      ThreeLost(s, prev1, prev3, p);
    } else if r :| r in Up(V3, prev3) && r in Up(V3, p.three) && r !in s {
      BothCounts(s, prev1, prev3, p, r);
      if r in Up(V1, p.one) {
        Shared(V1, p.one, V3, p.three, r);
      }
      assert Count(end, r) == 0;
    } else {
      forall r | r in Up(V3, p.three)
        ensures r in end
      {
        BothCounts(s, prev1, prev3, p, r);
        if r in Up(V3, prev3) && r in Up(V1, prev1) {
          Shared(V1, prev1, V3, prev3, r);
          Shared(V1, prev1, V3, p.three, r);
        }
        assert Count(end, r) > 0;
      }
    }
  }

  lemma OneLost(s: Rules, prev1: Option<TProxy>, prev3: Option<TProxy>, p: Payload)
    requires BothFew(s, prev1, prev3, p) && SameMark(p.one, prev3)
    ensures !InForce(ChangeBoth(s, prev1, prev3, p.one, p.three), V1, p.one)
  {
    var lost := IpRule(p.one.value.mark);
    MarkRule(V1, p.one);
    MarkRule(V3, prev3);
    if lost in Up(V3, p.three) {
      Shared(V1, p.one, V3, p.three, lost);
    }
    BothCounts(s, prev1, prev3, p, lost);
  }

  lemma OneInForceIff(s: Rules, prev1: Option<TProxy>, prev3: Option<TProxy>, p: Payload)
    requires BothFew(s, prev1, prev3, p)
    ensures InForce(ChangeBoth(s, prev1, prev3, p.one, p.three), V1, p.one) <==>
              !SameMark(p.one, prev3) && KeptThere(s, V1, prev1, p.one)
  {
    var end := ChangeBoth(s, prev1, prev3, p.one, p.three);
    if SameMark(p.one, prev3) {
      OneLost(s, prev1, prev3, p);
    } else if r :| r in Up(V1, prev1) && r in Up(V1, p.one) && r !in s {
      BothCounts(s, prev1, prev3, p, r);
      if r in Up(V3, p.three) {
        Shared(V1, p.one, V3, p.three, r);
      }
      assert Count(end, r) == 0;
    } else {
      forall r | r in Up(V1, p.one)
        ensures r in end
      {
        BothCounts(s, prev1, prev3, p, r);
        if r in Up(V3, prev3) {
          Shared(V1, p.one, V3, prev3, r);
        }
        assert Count(end, r) > 0;
      }
    }
  }

  /**
    What a push leaves in force, for any kernel. Lines both the old and the new
    hand-off have are not touched, so they must be there; they are when the old
    one is in force. The 1.x hand-off is then lost exactly when it is handed the
    mark the 3.1 one is leaving: the wire check compares the two NEW marks only,
    and the 3.1 change sweeps away the rule and the route 1.x has just been
    given. The 3.1 one is lost exactly when the two shared a mark and 3.1 keeps
    it, for then 1.x must leave it.
  */
  lemma BothInForceIff(s: Rules, prev1: Option<TProxy>, prev3: Option<TProxy>, p: Payload)
    requires BothFew(s, prev1, prev3, p)
    ensures InForce(ChangeBoth(s, prev1, prev3, p.one, p.three), V1, p.one) <==>
              !SameMark(p.one, prev3) && KeptThere(s, V1, prev1, p.one)
    ensures InForce(ChangeBoth(s, prev1, prev3, p.one, p.three), V3, p.three) <==>
              !(SameMark(prev1, prev3) && SameMark(prev3, p.three)) && KeptThere(s, V3, prev3, p.three)
    ensures InForce(s, V1, prev1) ==> KeptThere(s, V1, prev1, p.one)
    ensures InForce(s, V3, prev3) ==> KeptThere(s, V3, prev3, p.three)
  {
    OneInForceIff(s, prev1, prev3, p);
    ThreeInForceIff(s, prev1, prev3, p);
  }

  // ------------------------------------------------------------- while one changes

  ghost predicate Keeps(w: Walk, j: string, t: Option<TProxy>) {
    InForce(w.end, j, t) && forall m :: m in w.visited ==> InForce(m, j, t)
  }

  lemma AddingTouches(s: Rules, newDown: Rules, newUp: Rules, grant: nat)
    requires SetOf(newUp) == SetOf(newDown)
    ensures var cleaned := Sweep(s, newDown);
      OnlyTouches(cleaned, s, SetOf(newDown)) &&
      OnlyTouches(Then(cleaned, AddAll(cleaned.end, newUp, grant)), s, SetOf(newDown))
  {
    var cleaned := Sweep(s, newDown);
    SweepTouches(s, newDown);
    AddTouches(cleaned.end, newUp, grant);
    TouchesThen(cleaned, AddAll(cleaned.end, newUp, grant), s, SetOf(newDown));
  }

  lemma SwapTouches(s: Rules, newDown: Rules, newUp: Rules, oldDown: Rules, grant: nat)
    requires SetOf(newUp) == SetOf(newDown)
    ensures grant < |newUp| ==>
              OnlyTouches(SwapLines(s, newDown, newUp, oldDown, grant), s, SetOf(newDown))
    ensures OnlyTouches(SwapLines(s, newDown, newUp, oldDown, grant), s, SetOf(newDown) + SetOf(oldDown))
  {
    var ownNew, both := SetOf(newDown), SetOf(newDown) + SetOf(oldDown);
    var cleaned := Sweep(s, newDown);
    var added := Then(cleaned, AddAll(cleaned.end, newUp, grant));
    AddingTouches(s, newDown, newUp, grant);
    AddEnds(cleaned.end, newUp, grant, Foreign(0));
    TouchesMore(cleaned, s, ownNew, SetOf(oldDown));
    TouchesMore(added, s, ownNew, SetOf(oldDown));
    SweepTouches(added.end, oldDown);
    TouchesMore(Sweep(added.end, oldDown), added.end, SetOf(oldDown), ownNew);
    assert SetOf(oldDown) + ownNew == both;
    TouchesThen(added, Sweep(added.end, oldDown), s, both);
  }

  lemma UndoTouches(w: Walk, s: Rules, newDown: Rules, gone: set<Rule>)
    requires OnlyTouches(w, s, gone) && SetOf(newDown) <= gone
    ensures var u := Sweep(w.end, newDown); OnlyTouches(Walk(w.visited + u.visited, u.end, false), s, gone)
  {
    SweepTouches(w.end, newDown);
    TouchesMore(Sweep(w.end, newDown), w.end, SetOf(newDown), gone);
    assert SetOf(newDown) + gone == gone;
  }

  /** A change touches the new set's own lines, and the old set's only when every add is taken. */
  lemma ChangeTouches(s: Rules, i: string, prev: Option<TProxy>, next: Option<TProxy>, grant: nat)
    ensures grant < |NewUp(i, prev, next)| ==>
              OnlyTouches(Change(s, i, prev, next, grant), s, SetOf(NewDown(i, prev, next)))
    ensures OnlyTouches(Change(s, i, prev, next, grant), s,
                        SetOf(NewDown(i, prev, next)) + SetOf(NewDown(i, next, prev)))
  {
    var newDown, oldDown := NewDown(i, prev, next), NewDown(i, next, prev);
    var w := Swap(s, i, prev, next, grant);
    NewSets(i, prev, next);
    SwapTouches(s, newDown, NewUp(i, prev, next), oldDown, grant);
    UndoTouches(w, s, newDown, SetOf(newDown) + SetOf(oldDown));
    if grant < |NewUp(i, prev, next)| {
      UndoTouches(w, s, newDown, SetOf(newDown));
    }
  }

  lemma {:induction false} SweepLineVisitsEnd(s: Rules, r: Rule, n: nat)
    ensures SweepLine(s, r, n).end == s || SweepLine(s, r, n).end in SweepLine(s, r, n).visited
    decreases |s|
  {
    if n != 0 && r in s {
      SweepLineVisitsEnd(Del(s, r), r, n - 1);
      SweepLineStep(s, r, n);
    }
  }

  lemma {:induction false} SweepVisitsEnd(s: Rules, lines: Rules)
    ensures Sweep(s, lines).end == s || Sweep(s, lines).end in Sweep(s, lines).visited
    decreases |lines|
  {
    if lines != [] {
      var w := SweepLine(s, lines[0], SWEEP_MAX_REPEATS);
      SweepLineVisitsEnd(s, lines[0], SWEEP_MAX_REPEATS);
      SweepVisitsEnd(w.end, lines[1..]);
    }
  }

  lemma SweptAway(s: Rules, lines: Rules, lost: Rule)
    requires Sweepable(s, lines) && lost in lines && lost in s
    ensures Sweep(s, lines).ok && lost !in Sweep(s, lines).end && Sweep(s, lines).end in Sweep(s, lines).visited
  {
    SweepEnds(s, lines);
    SweepVisitsEnd(s, lines);
    DropCount(s, SetOf(lines), lost);
  }

  lemma VisitsResidue(s: Rules, i: string, prev: Option<TProxy>, next: Option<TProxy>, grant: nat, m: Rules)
    requires prev != next && m in Sweep(s, NewDown(i, prev, next)).visited
    ensures m in Change(s, i, prev, next, grant).visited
  {
  }

  /** The residue of the new lines is swept before any is added, and the other interface's rule with it. */
  lemma LostInResidue(s: Rules, i: string, prev: Option<TProxy>, next: Option<TProxy>, grant: nat,
                      j: string, t: Option<TProxy>)
    requires i != j && InForce(s, j, t) && FewCopies(s, i, next)
    requires SameMark(next, t) && !SameMark(prev, next)
    ensures !Keeps(Change(s, i, prev, next, grant), j, t)
  {
    var newDown, lost := NewDown(i, prev, next), IpRule(t.value.mark);
    MarkRule(i, next);
    MarkRule(j, t);
    NewLines(i, prev, next);
    SweptAway(s, newDown, lost);
    VisitsResidue(s, i, prev, next, grant, Sweep(s, newDown).end);
  }

  lemma LostAtTheEnd(s: Rules, i: string, prev: Option<TProxy>, next: Option<TProxy>, grant: nat,
                     j: string, t: Option<TProxy>)
    requires i != j && InForce(s, j, t) && FewCopies(s, i, prev) && FewCopies(s, i, next)
    requires SameMark(prev, t) && !SameMark(prev, next) && grant >= |NewUp(i, prev, next)|
    ensures !Keeps(Change(s, i, prev, next, grant), j, t)
  {
    var lost := IpRule(t.value.mark);
    MarkRule(i, prev);
    MarkRule(j, t);
    NewLines(i, prev, next);
    NewLines(i, next, prev);
    SwapEnds(s, i, prev, next, grant);
    assert lost !in Up(i, next);
    assert Count(Change(s, i, prev, next, grant).end, lost) == 0;
  }

  lemma NotOwn(i: string, prev: Option<TProxy>, next: Option<TProxy>, j: string, t: Option<TProxy>, r: Rule)
    requires i != j && r in Up(j, t)
    ensures r in Up(i, next) && r !in Up(i, prev) ==> SameMark(next, t) && !SameMark(prev, next)
    ensures r in Up(i, prev) && r !in Up(i, next) ==> SameMark(prev, t) && !SameMark(prev, next)
  {
    if r in Up(i, next) && r !in Up(i, prev) {
      Shared(i, next, j, t, r);
      if prev.Some? {
        assert Up(i, prev)[0] == IpRule(prev.value.mark) && Up(i, prev)[1] == LocalRoute(prev.value.mark);
      }
    }
    if r in Up(i, prev) && r !in Up(i, next) {
      Shared(i, prev, j, t, r);
      if next.Some? {
        assert Up(i, next)[0] == IpRule(next.value.mark) && Up(i, next)[1] == LocalRoute(next.value.mark);
      }
    }
  }

  lemma KeptApart(s: Rules, i: string, prev: Option<TProxy>, next: Option<TProxy>, grant: nat,
                  j: string, t: Option<TProxy>)
    requires i != j && InForce(s, j, t)
    requires SameMark(prev, next) ||
               (!SameMark(next, t) && (SameMark(prev, t) ==> grant < |NewUp(i, prev, next)|))
    ensures Keeps(Change(s, i, prev, next, grant), j, t)
  {
    var gone := SetOf(NewDown(i, prev, next));
    if grant >= |NewUp(i, prev, next)| {
      gone := gone + SetOf(NewDown(i, next, prev));
    }
    ChangeTouches(s, i, prev, next, grant);
    NewLines(i, prev, next);
    NewLines(i, next, prev);
    forall r | r in gone && r in Up(j, t)
      ensures false
    {
      NotOwn(i, prev, next, j, t, r);
    }
    var w := Change(s, i, prev, next, grant);
    forall m | m in w.visited || m == w.end
      ensures InForce(m, j, t)
    {
      InForceWhere(m, s, j, t, gone);
    }
  }

  /**
    While one interface changes, whatever the kernel refuses, the other one's
    hand-off stays in force in every state gone through exactly when no mark of
    the lines that change is the mark it holds: not the new one, swept before it
    is added, nor the old one, swept once every new line is in.
  */
  lemma OtherKeptIff(s: Rules, i: string, prev: Option<TProxy>, next: Option<TProxy>, grant: nat,
                     j: string, t: Option<TProxy>)
    requires i != j && InForce(s, j, t) && FewCopies(s, i, prev) && FewCopies(s, i, next)
    ensures Keeps(Change(s, i, prev, next, grant), j, t) <==>
              SameMark(prev, next) ||
              (!SameMark(next, t) && (SameMark(prev, t) ==> grant < |NewUp(i, prev, next)|))
  {
    if !SameMark(prev, next) && SameMark(next, t) {
      LostInResidue(s, i, prev, next, grant, j, t);
    } else if !SameMark(prev, next) && SameMark(prev, t) && grant >= |NewUp(i, prev, next)| {
      LostAtTheEnd(s, i, prev, next, grant, j, t);
    } else {
      KeptApart(s, i, prev, next, grant, j, t);
    }
  }

  // -------------------------------------------------------------------- two payloads

  lemma {:induction false} CountAtMost(s: Rules, r: Rule)
    ensures Count(s, r) <= |s|
  {
    if s != [] {
      assert s == [s[0]] + s[1..];
      CountAtMost(s[1..], r);
    }
  }

  /** A payload that meets every check of the wire and ends with the 1.x hand-off out of force. */
  lemma MarkHandedOn()
    ensures var one, three := Some(TProxy(7890, 1001)), Some(TProxy(7890, 1002));
      var p := Payload(Some(TProxy(7890, 1002)), Some(TProxy(7890, 1003)));
      var s := Up(V1, one) + Up(V3, three);
      && PayloadOk(p) && InForce(s, V1, one) && InForce(s, V3, three)
      && !InForce(ChangeBoth(s, one, three, p.one, p.three), V1, p.one)
  {
    var one, three := Some(TProxy(7890, 1001)), Some(TProxy(7890, 1002));
    var p := Payload(Some(TProxy(7890, 1002)), Some(TProxy(7890, 1003)));
    var s := Up(V1, one) + Up(V3, three);
    forall r ensures Count(s, r) < SWEEP_MAX_REPEATS {
      CountAtMost(s, r);
    }
    BothInForceIff(s, one, three, p);
  }

  /** 1.x is given the mark 3.1 holds, and the kernel refuses 3.1's first new line: 1.x stays, 3.1 is undone. */
  function HalfRefused(s: Rules, prev1: Option<TProxy>, prev3: Option<TProxy>, p: Payload): Rules {
    Change(Change(s, V1, prev1, p.one, 6).end, V3, prev3, p.three, 0).end
  }

  /** A change whose first add is refused only sweeps the residue of its new lines. */
  lemma RefusedCounts(s: Rules, i: string, prev: Option<TProxy>, next: Option<TProxy>, r: Rule)
    requires FewCopies(s, i, next) && next.Some? && prev.Some? && !SameMark(prev, next)
    ensures Count(Change(s, i, prev, next, 0).end, r) ==
              if r in Up(i, next) && r !in Up(i, prev) then 0 else Count(s, r)
  {
    var own := NewUp(i, prev, next);
    NewLines(i, prev, next);
    MarkRule(i, next);
    assert IpRule(next.value.mark) in own;
    UndoRestores(s, i, prev, next, 0);
    DropCount(s, SetOf(own), r);
  }

  lemma HalfRefusedCounts(s: Rules, prev1: Option<TProxy>, prev3: Option<TProxy>, p: Payload, r: Rule)
    requires BothFew(s, prev1, prev3, p) && p.three.Some? && prev3.Some? && !SameMark(prev3, p.three)
    ensures Count(HalfRefused(s, prev1, prev3, p), r) ==
              if r in Up(V3, p.three) && r !in Up(V3, prev3) then 0
              else if r in Up(V1, p.one) && r !in Up(V1, prev1) then 1
              else if r in Up(V1, prev1) && r !in Up(V1, p.one) then 0
              else Count(s, r)
  {
    ChangeCounts(s, V1, prev1, p.one, r);
    StillFew(s, prev1, p.one, p.three);
    RefusedCounts(Change(s, V1, prev1, p.one, 6).end, V3, prev3, p.three, r);
  }

  lemma StaysOnTheMark(s: Rules, one: TProxy, three: TProxy, other: TProxy)
    requires BothFew(s, Some(one), Some(three), Payload(Some(TProxy(one.port, three.mark)), Some(other)))
    requires InForce(s, V1, Some(one)) && InForce(s, V3, Some(three))
    requires one.mark != three.mark && other.mark != three.mark
    ensures var s1 := HalfRefused(s, Some(one), Some(three), Payload(Some(TProxy(one.port, three.mark)), Some(other)));
      InForce(s1, V1, Some(TProxy(one.port, three.mark))) && InForce(s1, V3, Some(three))
  {
    var moved := Some(TProxy(one.port, three.mark));
    var p := Payload(moved, Some(other));
    var s1 := HalfRefused(s, Some(one), Some(three), p);
    forall r | r in Up(V1, moved) || r in Up(V3, Some(three))
      ensures Count(s1, r) > 0
    {
      HalfRefusedCounts(s, Some(one), Some(three), p, r);
      if r in Up(V1, moved) && r in Up(V3, p.three) {
        Shared(V1, moved, V3, p.three, r);
      }
      if r in Up(V3, Some(three)) && r in Up(V1, Some(one)) {
        Shared(V1, Some(one), V3, Some(three), r);
      }
    }
  }

  /**
    Two pushes that meet every check of the wire. The first one moves 1.x onto
    the mark 3.1 is about to leave, but 3.1's half is refused and undone, so both
    are in force on one mark. The second one moves 1.x back and leaves 3.1 alone,
    and ends with the 3.1 hand-off out of force, for any ports and marks.
  */
  lemma MarkSharedThenLost(one: TProxy, three: TProxy, other: TProxy)
    requires Accepted(one) && Accepted(three) && Accepted(other)
    requires one.mark != three.mark && other.mark != three.mark
    ensures var s := Up(V1, Some(one)) + Up(V3, Some(three));
      var moved := TProxy(one.port, three.mark);
      var p := Payload(Some(moved), Some(other));
      var s1 := HalfRefused(s, Some(one), Some(three), p);
      var q := Payload(Some(one), Some(three));
      && PayloadOk(p) && PayloadOk(q)
      && InForce(s1, V1, Some(moved)) && InForce(s1, V3, Some(three))
      && !InForce(ChangeBoth(s1, Some(moved), Some(three), q.one, q.three), V3, q.three)
  {
    var s := Up(V1, Some(one)) + Up(V3, Some(three));
    var moved := TProxy(one.port, three.mark);
    var p := Payload(Some(moved), Some(other));
    var s1 := HalfRefused(s, Some(one), Some(three), p);
    forall r ensures Count(s, r) < SWEEP_MAX_REPEATS {
      CountAtMost(s, r);
    }
    forall r ensures Count(s1, r) < SWEEP_MAX_REPEATS {
      HalfRefusedCounts(s, Some(one), Some(three), p, r);
    }
    StaysOnTheMark(s, one, three, other);
    BothInForceIff(s1, Some(moved), Some(three), Payload(Some(one), Some(three)));
  }
}
