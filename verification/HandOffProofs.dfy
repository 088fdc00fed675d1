/** What a change of hand-off keeps at every moment, and what it ends with. */
module HandOffProofs {
  import opened Common
  import opened HandOff

  // ------------------------------------------------------------------ small steps

  lemma {:induction false} DelCount(s: Rules, r: Rule, x: Rule)
    requires r in s
    ensures Count(Del(s, r), x) == Count(s, x) - if x == r then 1 else 0
  {
    assert s == [s[0]] + s[1..];
    if s[0] != r {
      DelCount(s[1..], r, x);
    }
  }

  lemma SweepLineStep(s: Rules, r: Rule, n: nat)
    requires r in s && n != 0
    ensures var rest := SweepLine(Del(s, r), r, n - 1);
            SweepLine(s, r, n) == Walk([Del(s, r)] + rest.visited, rest.end, rest.ok)
  {
  }

  lemma {:induction false} DropCount(s: Rules, gone: set<Rule>, r: Rule)
    ensures Count(Drop(s, gone), r) == if r in gone then 0 else Count(s, r)
  {
    if s != [] {
      assert s == [s[0]] + s[1..];
      DropCount(s[1..], gone, r);
    }
  }

  lemma {:induction false} DropNothing(s: Rules, gone: set<Rule>)
    requires forall r :: r in gone ==> r !in s
    ensures Drop(s, gone) == s
  {
    if s != [] {
      DropNothing(s[1..], gone);
    }
  }

  lemma {:induction false} DropDel(s: Rules, r: Rule, gone: set<Rule>)
    requires r in s && r in gone
    ensures Drop(Del(s, r), gone) == Drop(s, gone)
  {
    if s[0] != r {
      DropDel(s[1..], r, gone);
    }
  }

  lemma {:induction false} DropConcat(a: Rules, b: Rules, gone: set<Rule>)
    ensures Drop(a + b, gone) == Drop(a, gone) + Drop(b, gone)
  {
    if a == [] {
      assert a + b == b;
    } else {
      assert (a + b)[1..] == a[1..] + b;
      DropConcat(a[1..], b, gone);
    }
  }

  lemma {:induction false} DropTwice(s: Rules, a: set<Rule>, b: set<Rule>)
    ensures Drop(Drop(s, a), b) == Drop(s, a + b)
  {
    if s != [] {
      DropTwice(s[1..], a, b);
    }
  }

  lemma DropAdd(s: Rules, r: Rule, gone: set<Rule>)
    requires r in gone
    ensures Drop(Add(s, r), gone) == Drop(s, gone)
  {
    DropConcat([r], s, gone);
    DropConcat(s, [r], gone);
    assert Drop([r], gone) == [];
  }

  lemma {:induction false} WithoutMembers(lines: Rules, other: Rules)
    ensures forall r :: r in Without(lines, other) <==> r in lines && r !in other
  {
    if lines != [] {
      WithoutMembers(lines[1..], other);
    }
  }

  lemma NewLines(i: string, prev: Option<TProxy>, next: Option<TProxy>)
    ensures forall r :: r in NewDown(i, prev, next) <==> r in Up(i, next) && r !in Up(i, prev)
    ensures forall r :: r in NewUp(i, prev, next) <==> r in Up(i, next) && r !in Up(i, prev)
  {
    WithoutMembers(Down(i, next), Down(i, prev));
    WithoutMembers(Up(i, next), Up(i, prev));
  }

  // -------------------------------------------------------------- sweeping a line

  /** Sweeping one line succeeds exactly when it has fewer copies than the limit. */
  lemma {:induction false} SweepLineOk(s: Rules, r: Rule, n: nat)
    ensures SweepLine(s, r, n).ok <==> Count(s, r) < n
    decreases |s|
  {
    if n != 0 && r in s {
      DelCount(s, r, r);
      SweepLineOk(Del(s, r), r, n - 1);
    }
  }

  /** It takes away nothing else, and on success every copy. */
  lemma {:induction false} SweepLineEnds(s: Rules, r: Rule, n: nat)
    ensures SweepLine(s, r, n).ok ==> SweepLine(s, r, n).end == Drop(s, {r})
    ensures Drop(SweepLine(s, r, n).end, {r}) == Drop(s, {r})
    ensures forall m :: m in SweepLine(s, r, n).visited ==> Drop(m, {r}) == Drop(s, {r})
    decreases |s|
  {
    if n != 0 {
      if r in s {
        var d := Del(s, r);
        SweepLineEnds(d, r, n - 1);
        DropDel(s, r, {r});
        SweepLineStep(s, r, n);
      } else {
        DropNothing(s, {r});
      }
    }
  }

  lemma SameBesides(m: Rules, s: Rules, gone: set<Rule>, more: set<Rule>)
    requires Drop(m, gone) == Drop(s, gone)
    ensures Drop(m, gone + more) == Drop(s, gone + more)
  {
    DropTwice(m, gone, more);
    DropTwice(s, gone, more);
  }

  ghost predicate Sweepable(s: Rules, lines: Rules) {
    forall r :: r in lines ==> Count(s, r) < SWEEP_MAX_REPEATS
  }

  /** Nothing outside `gone` changed, at any moment of the walk. */
  ghost predicate OnlyTouches(w: Walk, s: Rules, gone: set<Rule>) {
    Drop(w.end, gone) == Drop(s, gone) && forall m :: m in w.visited ==> Drop(m, gone) == Drop(s, gone)
  }

  lemma TouchesMore(w: Walk, s: Rules, gone: set<Rule>, more: set<Rule>)
    requires OnlyTouches(w, s, gone)
    ensures OnlyTouches(w, s, gone + more)
  {
    forall m | m in w.visited || m == w.end
      ensures Drop(m, gone + more) == Drop(s, gone + more)
    {
      SameBesides(m, s, gone, more);
    }
  }

  lemma TouchesThen(a: Walk, b: Walk, s: Rules, gone: set<Rule>)
    requires OnlyTouches(a, s, gone) && OnlyTouches(b, a.end, gone)
    ensures OnlyTouches(Then(a, b), s, gone)
  {
  }

  lemma {:induction false} SweepTouches(s: Rules, lines: Rules)
    ensures OnlyTouches(Sweep(s, lines), s, SetOf(lines))
    decreases |lines|
  {
    if lines != [] {
      var r, tail := lines[0], lines[1..];
      var w := SweepLine(s, r, SWEEP_MAX_REPEATS);
      SweepLineEnds(s, r, SWEEP_MAX_REPEATS);
      TouchesMore(w, s, {r}, SetOf(tail));
      assert SetOf(lines) == {r} + SetOf(tail);
      if w.ok {
        SweepTouches(w.end, tail);
        TouchesMore(Sweep(w.end, tail), w.end, SetOf(tail), {r});
        assert SetOf(lines) == SetOf(tail) + {r};
        TouchesThen(w, Sweep(w.end, tail), s, SetOf(lines));
      }
    }
  }

  lemma SweepStep(s: Rules, r: Rule, tail: Rules)
    ensures var first := SweepLine(s, r, SWEEP_MAX_REPEATS); var rest := Sweep(first.end, tail);
            Sweep(s, [r] + tail) == if first.ok then Then(first, rest) else first
  {
    assert ([r] + tail)[1..] == tail;
  }

  lemma SweepableAfter(s: Rules, r: Rule, tail: Rules)
    requires Count(s, r) < SWEEP_MAX_REPEATS
    ensures Sweepable(Drop(s, {r}), tail) <==> Sweepable(s, [r] + tail)
  {
    forall x | x in tail
      ensures Count(Drop(s, {r}), x) < SWEEP_MAX_REPEATS <==> Count(s, x) < SWEEP_MAX_REPEATS
    {
      DropCount(s, {r}, x);
    }
  }

  /** A sweep succeeds exactly when no line has 64 copies, and then leaves none of them. */
  lemma {:induction false} SweepEnds(s: Rules, lines: Rules)
    ensures Sweep(s, lines).ok <==> Sweepable(s, lines)
    ensures Sweep(s, lines).ok ==> Sweep(s, lines).end == Drop(s, SetOf(lines))
    decreases |lines|
  {
    if lines == [] {
      DropNothing(s, SetOf(lines));
    } else {
      var r, tail := lines[0], lines[1..];
      assert lines == [r] + tail;
      SweepStep(s, r, tail);
      SweepLineOk(s, r, SWEEP_MAX_REPEATS);
      SweepLineEnds(s, r, SWEEP_MAX_REPEATS);
      SweepEnds(Drop(s, {r}), tail);
      if Count(s, r) < SWEEP_MAX_REPEATS {
        SweepableAfter(s, r, tail);
        DropTwice(s, {r}, SetOf(tail));
        assert SetOf(lines) == {r} + SetOf(tail);
      }
    }
  }

  lemma {:induction false} AddTouches(s: Rules, lines: Rules, grant: nat)
    ensures OnlyTouches(AddAll(s, lines, grant), s, SetOf(lines))
    decreases |lines|
  {
    if lines != [] && grant != 0 {
      var r, tail := lines[0], lines[1..];
      var rest := AddAll(Add(s, r), tail, grant - 1);
      assert SetOf(lines) == SetOf(tail) + {r};
      AddTouches(Add(s, r), tail, grant - 1);
      TouchesMore(rest, Add(s, r), SetOf(tail), {r});
      DropAdd(s, r, SetOf(lines));
    }
  }

  lemma {:induction false} AddEnds(s: Rules, lines: Rules, grant: nat, x: Rule)
    ensures AddAll(s, lines, grant).ok <==> |lines| <= grant
    ensures Count(AddAll(s, lines, grant).end, x) <= Count(s, x) + Count(lines, x)
    ensures AddAll(s, lines, grant).ok ==> Count(AddAll(s, lines, grant).end, x) == Count(s, x) + Count(lines, x)
    decreases |lines|
  {
    if lines != [] && grant != 0 {
      assert lines == [lines[0]] + lines[1..];
      AddEnds(Add(s, lines[0]), lines[1..], grant - 1, x);
    }
  }

  // ------------------------------------------------------------------- soundness

  /** Where Del cuts. */
  lemma {:induction false} DelAt(s: Rules, r: Rule) returns (at: nat)
    requires r in s
    ensures at < |s| && s[at] == r
    ensures forall k :: 0 <= k < |s| - 1 ==> Del(s, r)[k] == s[if k < at then k else k + 1]
  {
    if s[0] == r {
      at := 0;
    } else {
      var rest := DelAt(s[1..], r);
      at := rest + 1;
    }
  }

  lemma DelReturnFirst(s: Rules, r: Rule)
    requires r in s && ReturnFirst(s)
    requires r.LocalReturn? ==> forall st :: st in s && st.Steer? ==> st.iface != r.iface
    ensures ReturnFirst(Del(s, r))
  {
    var at := DelAt(s, r);
    var d := Del(s, r);
    forall k | 0 <= k < |d| && d[k].Steer?
      ensures Before(d, LocalReturn(d[k].iface), k)
    {
      var o := if k < at then k else k + 1;
      assert d[k] == s[o] && s[o] in s;
      assert Before(s, LocalReturn(s[o].iface), o);
      var j :| 0 <= j < o && s[j] == LocalReturn(s[o].iface);
      assert j != at;
      var at' := if j < at then j else j - 1;
      assert d[at'] == s[j] && at' < k;
    }
  }

  lemma DelMember(s: Rules, r: Rule, x: Rule)
    requires r in s && x in Del(s, r)
    ensures x in s
  {
    DelCount(s, r, x);
    assert Count(Del(s, r), x) > 0;
  }

  lemma DelSound(s: Rules, r: Rule)
    requires r in s && Sound(s)
    requires forall st :: st in s ==> !Needs(st, r)
    ensures Sound(Del(s, r))
  {
    forall st | st in s && st.Steer? && r.LocalReturn?
      ensures st.iface != r.iface
    {
      assert !Needs(st, r);
    }
    DelReturnFirst(s, r);
    forall x | x in Del(s, r)
      ensures x in s
    {
      DelMember(s, r, x);
    }
    forall st, x | st in Del(s, r) && Needs(st, x)
      ensures x in Del(s, r)
    {
      assert x in s && x != r;
      DelCount(s, r, x);
      assert Count(Del(s, r), x) > 0;
    }
  }

  lemma {:induction false} SweepLineSound(s: Rules, r: Rule, n: nat)
    requires Sound(s)
    requires forall st :: st in s ==> !Needs(st, r)
    ensures forall m :: m in SweepLine(s, r, n).visited ==> Sound(m)
    ensures Sound(SweepLine(s, r, n).end)
    decreases |s|
  {
    if n != 0 && r in s {
      var d := Del(s, r);
      DelSound(s, r);
      forall st | st in d
        ensures !Needs(st, r)
      {
        DelMember(s, r, st);
      }
      SweepLineSound(d, r, n - 1);
      SweepLineStep(s, r, n);
    }
  }

  /** A line is swept only after every steering line that needs it. */
  ghost predicate SteersGoFirst(s: Rules, lines: Rules) {
    forall j, st :: 0 <= j < |lines| && st in s && Needs(st, lines[j]) ==> st in lines[..j]
  }

  lemma SteersAfter(s: Rules, r: Rule, tail: Rules)
    requires SteersGoFirst(s, [r] + tail)
    ensures forall st :: st in s ==> !Needs(st, r)
    ensures SteersGoFirst(Drop(s, {r}), tail)
  {
    var lines := [r] + tail;
    assert lines[0] == r && lines[..0] == [];
    forall j, st | 0 <= j < |tail| && st in Drop(s, {r}) && Needs(st, tail[j])
      ensures st in tail[..j]
    {
      DropCount(s, {r}, st);
      assert Needs(st, lines[j + 1]) && st in s;
      assert lines[..j + 1] == [r] + tail[..j];
    }
  }

  lemma {:induction false} SweepSound(s: Rules, lines: Rules)
    requires Sound(s) && SteersGoFirst(s, lines)
    ensures forall m :: m in Sweep(s, lines).visited ==> Sound(m)
    ensures Sound(Sweep(s, lines).end)
    decreases |lines|
  {
    if lines != [] {
      assert lines == [lines[0]] + lines[1..];
      SteersAfter(s, lines[0], lines[1..]);
      SweepLineSound(s, lines[0], SWEEP_MAX_REPEATS);
      SweepLineEnds(s, lines[0], SWEEP_MAX_REPEATS);
      if SweepLine(s, lines[0], SWEEP_MAX_REPEATS).ok {
        SweepSound(Drop(s, {lines[0]}), lines[1..]);
      }
    }
  }

  lemma AddSound(s: Rules, r: Rule)
    requires Sound(s)
    requires forall x :: Needs(r, x) ==> x in s
    ensures Sound(Add(s, r))
  {
    var a := Add(s, r);
    forall x
      ensures x in a <==> x in s || x == r
    {
    }
    forall k | 0 <= k < |a| && a[k].Steer?
      ensures Before(a, LocalReturn(a[k].iface), k)
    {
      var front := if r.InputAccept? then 1 else 0;
      if k - front < |s| {
        assert a[k] == s[k - front];
        assert Before(s, LocalReturn(a[k].iface), k - front);
        var j :| 0 <= j < k - front && s[j] == LocalReturn(a[k].iface);
        assert a[j + front] == s[j];
      } else {
        assert Needs(r, LocalReturn(r.iface));
        var j :| 0 <= j < |s| && s[j] == LocalReturn(r.iface);
        assert a[j] == s[j];
      }
    }
  }

  /** A steering line is added only when what it needs is there. */
  ghost predicate NeedsComeFirst(s: Rules, lines: Rules) {
    forall j, x :: 0 <= j < |lines| && Needs(lines[j], x) ==> x in s || x in lines[..j]
  }

  lemma NeedsAfter(s: Rules, r: Rule, tail: Rules)
    requires NeedsComeFirst(s, [r] + tail)
    ensures NeedsComeFirst(Add(s, r), tail)
  {
    var lines := [r] + tail;
    forall j, x | 0 <= j < |tail| && Needs(tail[j], x)
      ensures x in Add(s, r) || x in tail[..j]
    {
      assert Needs(lines[j + 1], x);
      assert lines[..j + 1] == [r] + tail[..j];
    }
  }

  lemma {:induction false} AddAllSound(s: Rules, lines: Rules, grant: nat)
    requires Sound(s) && NeedsComeFirst(s, lines)
    ensures forall m :: m in AddAll(s, lines, grant).visited ==> Sound(m)
    ensures Sound(AddAll(s, lines, grant).end)
    decreases |lines|
  {
    if lines != [] && grant != 0 {
      var r, tail := lines[0], lines[1..];
      assert lines[..0] == [];
      forall x
        ensures Needs(r, x) ==> x in s
      {
      }
      AddSound(s, r);
      assert lines == [r] + tail;
      NeedsAfter(s, r, tail);
      AddAllSound(Add(s, r), tail, grant - 1);
    }
  }

  // ------------------------------------------------------------------- the swap

  lemma {:induction false} WithoutCount(lines: Rules, other: Rules, r: Rule)
    ensures Count(Without(lines, other), r) == if r in other then 0 else Count(lines, r)
  {
    if lines != [] {
      assert lines == [lines[0]] + lines[1..];
      WithoutCount(lines[1..], other, r);
    }
  }

  lemma UpOnce(i: string, t: Option<TProxy>, r: Rule)
    ensures Count(Up(i, t), r) == if r in Up(i, t) then 1 else 0
  {
    if t.Some? {
      var lines := HookUp(i, t.value);
      assert lines == [lines[0], lines[1], lines[2], lines[3], lines[4], lines[5]];
    }
  }

  lemma NewOnce(i: string, prev: Option<TProxy>, next: Option<TProxy>, r: Rule)
    ensures Count(NewUp(i, prev, next), r) == if r in Up(i, next) && r !in Up(i, prev) then 1 else 0
  {
    WithoutCount(Up(i, next), Up(i, prev), r);
    UpOnce(i, next, r);
  }

  lemma NewSets(i: string, prev: Option<TProxy>, next: Option<TProxy>)
    ensures SetOf(NewUp(i, prev, next)) == SetOf(NewDown(i, prev, next))
    ensures SetOf(NewUp(i, prev, next)) !! SetOf(NewDown(i, next, prev))
    ensures SetOf(NewUp(i, prev, next)) !! SetOf(Up(i, prev))
    ensures SetOf(NewDown(i, next, prev)) !! SetOf(Up(i, next))
  {
    NewLines(i, prev, next);
    NewLines(i, next, prev);
  }

  /**
    The whole effect of a swap, for any contents of the kernel: it succeeds
    exactly when no line to be swept has 64 copies and the kernel takes every
    new line, and then the new set's own lines are there once, the old set's
    own lines not at all, and everything else as it was.
  */
  lemma SwapEnds(s: Rules, i: string, prev: Option<TProxy>, next: Option<TProxy>, grant: nat)
    ensures Swap(s, i, prev, next, grant).ok <==>
            Sweepable(s, NewDown(i, prev, next)) && Sweepable(s, NewDown(i, next, prev)) &&
                |NewUp(i, prev, next)| <= grant
    ensures Swap(s, i, prev, next, grant).ok ==> forall r ::
              Count(Swap(s, i, prev, next, grant).end, r) ==
              if r in Up(i, next) && r !in Up(i, prev) then 1
              else if r in Up(i, prev) && r !in Up(i, next) then 0
              else Count(s, r)
  {
    var newDown, newUp, oldDown := NewDown(i, prev, next), NewUp(i, prev, next), NewDown(i, next, prev);
    NewLines(i, prev, next);
    NewLines(i, next, prev);
    SweepEnds(s, newDown);
    if Sweep(s, newDown).ok {
      var cleaned := Drop(s, SetOf(newDown));
      var added := AddAll(cleaned, newUp, grant);
      AddEnds(cleaned, newUp, grant, Foreign(0));
      if added.ok {
        forall r
          ensures Count(added.end, r) == if r in newUp then 1 else Count(s, r)
        {
          AddEnds(cleaned, newUp, grant, r);
          DropCount(s, SetOf(newDown), r);
          NewOnce(i, prev, next, r);
        }
        SweepEnds(added.end, oldDown);
        forall r
          ensures Count(Drop(added.end, SetOf(oldDown)), r) == if r in oldDown then 0 else Count(added.end, r)
        {
          DropCount(added.end, SetOf(oldDown), r);
        }
      }
    }
  }

  lemma InForceWhere(m: Rules, s: Rules, i: string, t: Option<TProxy>, gone: set<Rule>)
    requires Drop(m, gone) == Drop(s, gone) && gone !! SetOf(Up(i, t))
    requires InForce(s, i, t)
    ensures InForce(m, i, t)
  {
    forall r | r in Up(i, t)
      ensures r in m
    {
      assert r in SetOf(Up(i, t));
      DropCount(m, gone, r);
      DropCount(s, gone, r);
      assert Count(s, r) > 0;
    }
  }

  lemma AddedInForce(s: Rules, i: string, prev: Option<TProxy>, next: Option<TProxy>, grant: nat)
    requires InForce(s, i, prev)
    requires Sweep(s, NewDown(i, prev, next)).ok
    requires AddAll(Sweep(s, NewDown(i, prev, next)).end, NewUp(i, prev, next), grant).ok
    ensures InForce(AddAll(Sweep(s, NewDown(i, prev, next)).end, NewUp(i, prev, next), grant).end, i, next)
  {
    var newDown, newUp := NewDown(i, prev, next), NewUp(i, prev, next);
    var cleaned := Sweep(s, newDown).end;
    var added := AddAll(cleaned, newUp, grant);
    SweepEnds(s, newDown);
    NewLines(i, prev, next);
    forall r | r in Up(i, next)
      ensures r in added.end
    {
      AddEnds(cleaned, newUp, grant, r);
      NewOnce(i, prev, next, r);
      DropCount(s, SetOf(newDown), r);
      assert r !in newUp ==> r in s;
      assert Count(added.end, r) > 0;
    }
  }

  /**
    No packet is ever left to the host: whatever the kernel refuses and
    whatever residue is about, every state a change goes through holds all of
    the old hand-off or all of the new one. The old lines have fewer than 64
    copies (they are in force once).
  */
  lemma ChangeNeverUnsteered(s: Rules, i: string, prev: Option<TProxy>, next: Option<TProxy>, grant: nat)
    requires InForce(s, i, prev) && Sweepable(s, NewDown(i, next, prev))
    ensures forall m :: m in Change(s, i, prev, next, grant).visited ==> InForce(m, i, prev) || InForce(m, i, next)
    ensures !Change(s, i, prev, next, grant).ok ==> InForce(Change(s, i, prev, next, grant).end, i, prev)
  {
    var newDown, newUp, oldDown := NewDown(i, prev, next), NewUp(i, prev, next), NewDown(i, next, prev);
    NewSets(i, prev, next);
    var cleaned := Sweep(s, newDown);
    SweepTouches(s, newDown);
    forall m | m in cleaned.visited || m == cleaned.end
      ensures InForce(m, i, prev)
    {
      InForceWhere(m, s, i, prev, SetOf(newDown));
    }
    var added := AddAll(cleaned.end, newUp, grant);
    AddTouches(cleaned.end, newUp, grant);
    forall m | m in added.visited || m == added.end
      ensures InForce(m, i, prev)
    {
      InForceWhere(m, cleaned.end, i, prev, SetOf(newUp));
    }
    if cleaned.ok && added.ok {
      SwapEnds(s, i, prev, next, grant);
      SweepEnds(s, newDown);
      AddedInForce(s, i, prev, next, grant);
      SweepTouches(added.end, oldDown);
      var last := Sweep(added.end, oldDown);
      forall m | m in last.visited
        ensures InForce(m, i, next)
      {
        InForceWhere(m, added.end, i, next, SetOf(oldDown));
      }
      AddEnds(cleaned.end, newUp, grant, Foreign(0));
    }
    var w := Swap(s, i, prev, next, grant);
    if !w.ok {
      assert InForce(w.end, i, prev);
      var u := Sweep(w.end, newDown);
      SweepTouches(w.end, newDown);
      forall m | m in u.visited || m == u.end
        ensures InForce(m, i, prev)
      {
        InForceWhere(m, w.end, i, prev, SetOf(newDown));
      }
    }
  }

  /**
    A change that fails at any added line gives back the kernel it started
    from, rule for rule and in the same order, less the residue of the new
    lines; with no residue, exactly what it was.
  */
  lemma UndoRestores(s: Rules, i: string, prev: Option<TProxy>, next: Option<TProxy>, grant: nat)
    requires prev != next
    requires Sweepable(s, NewDown(i, prev, next)) && grant < |NewUp(i, prev, next)|
    ensures !Change(s, i, prev, next, grant).ok
    ensures Change(s, i, prev, next, grant).end == Drop(s, SetOf(NewUp(i, prev, next)))
    ensures (forall r :: r in NewUp(i, prev, next) ==> r !in s) ==> Change(s, i, prev, next, grant).end == s
  {
    var newDown, newUp := NewDown(i, prev, next), NewUp(i, prev, next);
    var gone := SetOf(newDown);
    NewSets(i, prev, next);
    NewLines(i, prev, next);
    SweepEnds(s, newDown);
    var cleaned := Drop(s, gone);
    AddEnds(cleaned, newUp, grant, Foreign(0));
    AddTouches(cleaned, newUp, grant);
    var added := AddAll(cleaned, newUp, grant).end;
    forall r | r in newDown
      ensures Count(added, r) < SWEEP_MAX_REPEATS
    {
      AddEnds(cleaned, newUp, grant, r);
      NewOnce(i, prev, next, r);
      DropCount(s, gone, r);
    }
    SweepEnds(added, newDown);
    DropTwice(s, gone, gone);
    assert gone + gone == gone;
    if forall r :: r in newUp ==> r !in s {
      DropNothing(s, gone);
    }
  }

  // ------------------------------------------------------------- up and down again

  lemma {:induction false} DelEachCounts(s: Rules, lines: Rules)
    requires forall r :: Count(lines, r) <= Count(s, r)
    ensures DelEach(s, lines).Some?
    ensures forall r :: Count(DelEach(s, lines).value, r) == Count(s, r) - Count(lines, r)
    decreases |lines|
  {
    if lines != [] {
      var first, tail := lines[0], lines[1..];
      assert lines == [first] + tail;
      assert Count(lines, first) > 0;
      forall r ensures Count(Del(s, first), r) == Count(s, r) - if r == first then 1 else 0 {
        DelCount(s, first, r);
      }
      DelEachCounts(Del(s, first), tail);
    }
  }

  lemma {:induction false} DelEachTouches(s: Rules, lines: Rules, gone: set<Rule>)
    requires DelEach(s, lines).Some? && forall r :: r in lines ==> r in gone
    ensures Drop(DelEach(s, lines).value, gone) == Drop(s, gone)
    decreases |lines|
  {
    if lines != [] {
      DropDel(s, lines[0], gone);
      DelEachTouches(Del(s, lines[0]), lines[1..], gone);
    }
  }

  lemma {:induction false} ReversedCounts(a: Rules, b: Rules)
    requires |a| == |b| && forall k :: 0 <= k < |a| ==> b[k] == a[|a| - 1 - k]
    ensures forall r :: Count(b, r) == Count(a, r)
    decreases |a|
  {
    if a != [] {
      var n := |a| - 1;
      assert a == [a[0]] + a[1..] && b == b[..n] + [b[n]];
      ReversedCounts(a[1..], b[..n]);
      forall r ensures Count(b, r) == Count(a, r) {
        assert Count(b[..n], r) == Count(a[1..], r);
      }
    }
  }

  ghost predicate Mirrors(up: Rules, down: Rules) {
    forall r :: Count(down, r) == Count(up, r)
  }

  lemma DownOnce(i: string, t: Option<TProxy>)
    ensures Mirrors(Up(i, t), Down(i, t))
  {
    DownMirrorsUp(i, t);
    ReversedCounts(Up(i, t), Down(i, t));
  }

  ghost predicate SameCounts(a: Rules, b: Rules) {
    forall r :: Count(a, r) == Count(b, r)
  }

  ghost predicate NoneThere(s: Rules, lines: Rules) {
    forall r :: r in lines ==> r !in s
  }

  lemma DelAfterAdd(s: Rules, up: Rules, down: Rules, grant: nat)
    requires |up| <= grant && Mirrors(up, down)
    ensures var added := AddAll(s, up, grant);
      added.ok && DelEach(added.end, down).Some? && SameCounts(DelEach(added.end, down).value, s)
  {
    var added := AddAll(s, up, grant);
    AddEnds(s, up, grant, Foreign(0));
    forall r ensures Count(added.end, r) == Count(s, r) + Count(down, r) {
      AddEnds(s, up, grant, r);
    }
    DelEachCounts(added.end, down);
    forall r ensures Count(DelEach(added.end, down).value, r) == Count(s, r) {
      assert Count(added.end, r) == Count(s, r) + Count(down, r);
    }
  }

  lemma DelAfterAddExactly(s: Rules, up: Rules, down: Rules, grant: nat)
    requires |up| <= grant && Mirrors(up, down) && NoneThere(s, up)
    ensures DelEach(AddAll(s, up, grant).end, down) == Some(s)
  {
    DelAfterAdd(s, up, down, grant);
    var gone := SetOf(up);
    var added := AddAll(s, up, grant).end;
    var end := DelEach(added, down).value;
    forall r | r in down ensures r in gone {
      assert Count(down, r) == Count(up, r);
    }
    AddTouches(s, up, grant);
    DelEachTouches(added, down, gone);
    DropNothing(s, gone);
    forall r | r in gone ensures r !in end {
      assert Count(end, r) == Count(s, r);
    }
    DropNothing(end, gone);
  }

  /**
    What an interface's PostUp lines add its PostDown lines take away again: the
    kernel is left with as many of every rule as before, and exactly as it was, in
    order, when none of the lines was there.
  */
  lemma DownTakesUpAway(s: Rules, i: string, t: Option<TProxy>, grant: nat)
    requires grant >= 6
    ensures var up := AddAll(s, Up(i, t), grant);
      up.ok && DelEach(up.end, Down(i, t)).Some? && SameCounts(DelEach(up.end, Down(i, t)).value, s)
    ensures NoneThere(s, Up(i, t)) ==> DelEach(AddAll(s, Up(i, t), grant).end, Down(i, t)) == Some(s)
  {
    DownOnce(i, t);
    DelAfterAdd(s, Up(i, t), Down(i, t), grant);
    if NoneThere(s, Up(i, t)) {
      DelAfterAddExactly(s, Up(i, t), Down(i, t), grant);
    }
  }

  ghost predicate SteersFirst(lines: Rules) {
    forall a, b :: 0 <= a < b < |lines| && lines[b].Steer? ==> lines[a].Steer?
  }

  ghost predicate SteersLast(lines: Rules) {
    forall a, b :: 0 <= a < b < |lines| && lines[a].Steer? ==> lines[b].Steer?
  }

  /** Both lists steer last going up and first going down. */
  lemma LinesSteer(i: string, t: Option<TProxy>)
    ensures SteersLast(Up(i, t)) && SteersFirst(Down(i, t))
  {
  }

  /** Filtering keeps the order. */
  lemma {:induction false} WithoutOrder(lines: Rules, other: Rules, j: nat, k: nat)
    requires j < k < |Without(lines, other)|
    ensures exists a, b ::
              0 <= a < b < |lines| && lines[a] == Without(lines, other)[j] && lines[b] == Without(lines, other)[k]
  {
    if lines[0] in other {
      WithoutOrder(lines[1..], other, j, k);
      var a, b :| 0 <= a < b < |lines[1..]| && lines[1..][a] == Without(lines, other)[j] &&
          lines[1..][b] == Without(lines, other)[k];
      assert lines[a + 1] == lines[1..][a] && lines[b + 1] == lines[1..][b];
    } else if j == 0 {
      WithoutMembers(lines[1..], other);
      var r := Without(lines, other)[k];
      assert r == Without(lines[1..], other)[k - 1];
      assert r in Without(lines[1..], other);
      assert r in lines[1..];
      var b :| 0 <= b < |lines[1..]| && lines[1..][b] == r;
      assert lines[0] == Without(lines, other)[0] && lines[b + 1] == r;
    } else {
      WithoutOrder(lines[1..], other, j - 1, k - 1);
      var a, b :| 0 <= a < b < |lines[1..]| && lines[1..][a] == Without(lines, other)[j] &&
          lines[1..][b] == Without(lines, other)[k];
      assert lines[a + 1] == lines[1..][a] && lines[b + 1] == lines[1..][b];
    }
  }

  lemma FilteredSteers(lines: Rules, other: Rules)
    ensures SteersFirst(lines) ==> SteersFirst(Without(lines, other))
    ensures SteersLast(lines) ==> SteersLast(Without(lines, other))
  {
    var left := Without(lines, other);
    forall j, k | 0 <= j < k < |left|
      ensures exists a, b :: 0 <= a < b < |lines| && lines[a] == left[j] && lines[b] == left[k]
    {
      WithoutOrder(lines, other, j, k);
    }
  }

  lemma SteeredBefore(lines: Rules, st: Rule, j: nat)
    requires SteersFirst(lines) && j < |lines| && st in lines && Needs(st, lines[j])
    ensures st in lines[..j]
  {
    var k :| 0 <= k < |lines| && lines[k] == st;
    assert k < j;
    assert lines[..j][k] == st;
  }

  lemma DownOrder(i: string, prev: Option<TProxy>, next: Option<TProxy>, st: Rule, j: nat)
    requires j < |NewDown(i, prev, next)| && st in NewDown(i, prev, next) && Needs(st, NewDown(i, prev, next)[j])
    ensures st in NewDown(i, prev, next)[..j]
  {
    LinesSteer(i, next);
    FilteredSteers(Down(i, next), Down(i, prev));
    SteeredBefore(NewDown(i, prev, next), st, j);
  }

  lemma NeededBefore(lines: Rules, r: Rule, j: nat)
    requires SteersLast(lines) && j < |lines| && r in lines && Needs(lines[j], r)
    ensures r in lines[..j]
  {
    var k :| 0 <= k < |lines| && lines[k] == r;
    assert k < j;
    assert lines[..j][k] == r;
  }

  lemma UpOrder(i: string, prev: Option<TProxy>, next: Option<TProxy>, r: Rule, j: nat)
    requires j < |NewUp(i, prev, next)| && r in NewUp(i, prev, next) && Needs(NewUp(i, prev, next)[j], r)
    ensures r in NewUp(i, prev, next)[..j]
  {
    LinesSteer(i, next);
    FilteredSteers(Up(i, next), Up(i, prev));
    NeededBefore(NewUp(i, prev, next), r, j);
  }

  lemma {:induction false} SweepLineShrinks(s: Rules, r: Rule, n: nat, x: Rule)
    requires x in SweepLine(s, r, n).end
    ensures x in s
    decreases |s|
  {
    if n != 0 && r in s {
      SweepLineShrinks(Del(s, r), r, n - 1, x);
      DelMember(s, r, x);
    }
  }

  lemma {:induction false} SweepShrinks(s: Rules, lines: Rules, x: Rule)
    requires x in Sweep(s, lines).end
    ensures x in s
    decreases |lines|
  {
    if lines != [] {
      var w := SweepLine(s, lines[0], SWEEP_MAX_REPEATS);
      if w.ok {
        SweepShrinks(w.end, lines[1..], x);
      }
      SweepLineShrinks(s, lines[0], SWEEP_MAX_REPEATS, x);
    }
  }

  lemma NeedsInside(i: string, t: Option<TProxy>, st: Rule, r: Rule)
    requires Needs(st, r)
    ensures st in Up(i, t) ==> r in Up(i, t)
    ensures st.iface != i && (t.Some? ==> st.mark != t.value.mark) ==> r !in Up(i, t)
  {
    if t.Some? {
      var h := HookUp(i, t.value);
      assert h[0] in h && h[1] in h && h[2] in h && h[3] in h;
    }
  }

  lemma SteersFirstWhen(m: Rules, i: string, prev: Option<TProxy>, next: Option<TProxy>)
    requires OwnSteering(m, i, prev, next)
    ensures SteersGoFirst(m, NewDown(i, prev, next))
  {
    var down := NewDown(i, prev, next);
    NewLines(i, prev, next);
    forall j, st | 0 <= j < |down| && st in m && Needs(st, down[j])
      ensures st in down[..j]
    {
      assert down[j] in down;
      NeedsInside(i, prev, st, down[j]);
      NeedsInside(i, next, st, down[j]);
      assert st in down;
      DownOrder(i, prev, next, st, j);
    }
  }

  lemma NeedsFirstWhen(m: Rules, i: string, prev: Option<TProxy>, next: Option<TProxy>)
    requires InForce(m, i, prev)
    ensures NeedsComeFirst(m, NewUp(i, prev, next))
  {
    var up := NewUp(i, prev, next);
    NewLines(i, prev, next);
    forall j, x | 0 <= j < |up| && Needs(up[j], x)
      ensures x in m || x in up[..j]
    {
      assert up[j] in up;
      if x !in Up(i, prev) {
        UpOrder(i, prev, next, x, j);
      }
    }
  }

  /** Sweeping in a sound state where only prev and next steer keeps it sound. */
  lemma OwnSweepSound(m: Rules, i: string, prev: Option<TProxy>, next: Option<TProxy>)
    requires Sound(m) && OwnSteering(m, i, prev, next)
    ensures var w := Sweep(m, NewDown(i, prev, next));
            Sound(w.end) && OwnSteering(w.end, i, prev, next) && forall v :: v in w.visited ==> Sound(v)
  {
    SteersFirstWhen(m, i, prev, next);
    SweepSound(m, NewDown(i, prev, next));
    forall x | x in Sweep(m, NewDown(i, prev, next)).end
      ensures x in m
    {
      SweepShrinks(m, NewDown(i, prev, next), x);
    }
  }

  lemma OwnAddSound(m: Rules, i: string, prev: Option<TProxy>, next: Option<TProxy>, grant: nat)
    requires Sound(m) && OwnSteering(m, i, prev, next) && InForce(m, i, prev)
    ensures var w := AddAll(m, NewUp(i, prev, next), grant);
            Sound(w.end) && OwnSteering(w.end, i, prev, next) && forall v :: v in w.visited ==> Sound(v)
  {
    NeedsFirstWhen(m, i, prev, next);
    AddAllSound(m, NewUp(i, prev, next), grant);
    NewLines(i, prev, next);
    var w := AddAll(m, NewUp(i, prev, next), grant);
    forall x | x in w.end && x !in m
      ensures x in Up(i, next)
    {
      AddEnds(m, NewUp(i, prev, next), grant, x);
      NewOnce(i, prev, next, x);
    }
  }

  lemma SwapSound(s: Rules, i: string, prev: Option<TProxy>, next: Option<TProxy>, grant: nat)
    requires Sound(s) && OwnSteering(s, i, prev, next) && InForce(s, i, prev)
    ensures var w := Swap(s, i, prev, next, grant);
            Sound(w.end) && OwnSteering(w.end, i, prev, next) && forall m :: m in w.visited ==> Sound(m)
  {
    OwnSweepSound(s, i, prev, next);
    var cleaned := Sweep(s, NewDown(i, prev, next));
    if cleaned.ok {
      NewSets(i, prev, next);
      SweepTouches(s, NewDown(i, prev, next));
      InForceWhere(cleaned.end, s, i, prev, SetOf(NewDown(i, prev, next)));
      OwnAddSound(cleaned.end, i, prev, next, grant);
      var added := AddAll(cleaned.end, NewUp(i, prev, next), grant);
      if added.ok {
        assert OwnSteering(added.end, i, next, prev);
        OwnSweepSound(added.end, i, next, prev);
      }
    }
  }

  /**
    What is steered is always routed and accepted, and the node's own traffic
    is let out first: in every state a change goes through, successful or not,
    and whatever residue of the new lines it starts among.
  */
  lemma ChangeAlwaysSound(s: Rules, i: string, prev: Option<TProxy>, next: Option<TProxy>, grant: nat)
    requires Sound(s) && OwnSteering(s, i, prev, next) && InForce(s, i, prev)
    ensures forall m :: m in Change(s, i, prev, next, grant).visited ==> Sound(m)
    ensures Sound(Change(s, i, prev, next, grant).end)
  {
    SwapSound(s, i, prev, next, grant);
    OwnSweepSound(Swap(s, i, prev, next, grant).end, i, prev, next);
  }
}
