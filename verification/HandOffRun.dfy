/** The swap as it is run: loops over commands against the kernel. */
module HandOffRun {
  import opened Common
  import opened HandOff
  import opened HandOffProofs

  /** `without`: the lines the other list does not hold, in order. */
  method LinesWithout(lines: Rules, other: Rules) returns (res: Rules)
    ensures res == Without(lines, other)
  {
    var skip: set<Rule> := {};
    for k := 0 to |other|
      invariant forall r :: r in skip <==> r in other[..k]
    {
      skip := skip + {other[k]};
    }
    res := [];
    for k := 0 to |lines|
      invariant res + Without(lines[k..], other) == Without(lines, other)
    {
      if lines[k] !in skip {
        res := res + [lines[k]];
      }
    }
  }

  function AddedThenSwept(added: Walk, prevOnly: Rules): Walk {
    if added.ok then Then(added, Sweep(added.end, prevOnly)) else added
  }

  lemma Appended(a: seq<Rules>, b: seq<Rules>, c: seq<Rules>)
    ensures (a + b) + c == a + (b + c)
  {
  }

  /** A swap is the sweep of the residue and, when that ends, the rest. */
  lemma SwapLinesAre(s: Rules, residue: Rules, nextOnly: Rules, prevOnly: Rules, grant: nat)
    ensures var cleaned := Sweep(s, residue);
      SwapLines(s, residue, nextOnly, prevOnly, grant) ==
        if cleaned.ok then Then(cleaned, AddedThenSwept(AddAll(cleaned.end, nextOnly, grant), prevOnly)) else cleaned
  {
    var cleaned := Sweep(s, residue);
    var added := AddAll(cleaned.end, nextOnly, grant);
    Appended(cleaned.visited, added.visited, Sweep(added.end, prevOnly).visited);
  }

  /** What follows a swap that did not go through. */
  function SwapOrUndone(w: Walk, residue: Rules): Walk {
    if w.ok then w
    else
      var u := Sweep(w.end, residue);
      Walk(w.visited + u.visited, u.end, false)
  }

  lemma ChangeIs(s: Rules, i: string, prev: Option<TProxy>, next: Option<TProxy>, grant: nat)
    requires prev != next
    ensures Change(s, i, prev, next, grant) == SwapOrUndone(Swap(s, i, prev, next, grant), NewDown(i, prev, next))
  {
  }

  /** `rest` is what is left of the walk `all` when `seen` has grown to `now`. */
  ghost predicate Continues(all: Walk, rest: Walk, seen: seq<Rules>, now: seq<Rules>) {
    all.ok == rest.ok && all.end == rest.end && seen + all.visited == now + rest.visited
  }

  /** The walk `all` has come to its end. */
  ghost predicate CameTo(all: Walk, ok: bool, end: Rules, seen: seq<Rules>, now: seq<Rules>) {
    all.ok == ok && all.end == end && seen + all.visited == now
  }

  /** One more copy deleted, or none left, or the limit reached. */
  lemma ContinuesSweep(all: Walk, s: Rules, r: Rule, n: nat, seen: seq<Rules>, now: seq<Rules>)
    requires Continues(all, SweepLine(s, r, n), seen, now)
    ensures n == 0 ==> CameTo(all, false, s, seen, now)
    ensures n != 0 && r !in s ==> CameTo(all, true, s, seen, now)
    ensures n != 0 && r in s ==> Continues(all, SweepLine(Del(s, r), r, n - 1), seen, now + [Del(s, r)])
  {
    if n != 0 && r in s {
      SweepLineStep(s, r, n);
    }
  }

  /** One more line swept, or stuck. */
  lemma ContinuesLines(all: Walk, s: Rules, down: Rules, k: nat, seen: seq<Rules>, now: seq<Rules>)
    requires k < |down| && Continues(all, Sweep(s, down[k..]), seen, now)
    ensures var w := SweepLine(s, down[k], SWEEP_MAX_REPEATS);
      if w.ok then Continues(all, Sweep(w.end, down[k + 1..]), seen, now + w.visited)
      else CameTo(all, false, w.end, seen, now + w.visited)
  {
    var w := SweepLine(s, down[k], SWEEP_MAX_REPEATS);
    SweepStep(s, down[k], down[k + 1..]);
    assert down[k..] == [down[k]] + down[k + 1..];
    Appended(now, w.visited, Sweep(w.end, down[k + 1..]).visited);
  }

  /** One more line added, or refused. */
  lemma ContinuesAdd(all: Walk, s: Rules, up: Rules, k: nat, grant: nat, seen: seq<Rules>, now: seq<Rules>)
    requires k < |up| && Continues(all, AddAll(s, up[k..], grant), seen, now)
    ensures grant == 0 ==> CameTo(all, false, s, seen, now)
    ensures grant != 0 ==>
              Continues(all, AddAll(Add(s, up[k]), up[k + 1..], grant - 1), seen, now + [Add(s, up[k])])
  {
    assert up[k..][1..] == up[k + 1..];
  }

  lemma ContinuesDone(all: Walk, s: Rules, seen: seq<Rules>, now: seq<Rules>)
    requires Continues(all, Walk([], s, true), seen, now)
    ensures CameTo(all, true, s, seen, now)
  {
  }

  /** The kernel's rules, and how many more adds it takes before refusing one. */
  class Kernel {
    var rules: Rules
    var grant: nat
    ghost var visited: seq<Rules>

    constructor (rules: Rules, grant: nat)
      ensures this.rules == rules && this.grant == grant && visited == []
    {
      this.rules, this.grant, visited := rules, grant, [];
    }

    method Delete(r: Rule) returns (ok: bool)
      modifies this
      ensures ok == (r in old(rules)) && grant == old(grant)
      ensures ok ==> rules == Del(old(rules), r) && visited == old(visited) + [rules]
      ensures !ok ==> rules == old(rules) && visited == old(visited)
    {
      ok := r in rules;
      if ok {
        rules := Del(rules, r);
        visited := visited + [rules];
      }
    }

    method Insert(r: Rule) returns (ok: bool)
      modifies this
      ensures ok == (old(grant) > 0)
      ensures ok ==> rules == Add(old(rules), r) && visited == old(visited) + [rules] && grant == old(grant) - 1
      ensures !ok ==> rules == old(rules) && visited == old(visited) && grant == old(grant)
    {
      ok := grant > 0;
      if ok {
        rules, grant := Add(rules, r), grant - 1;
        visited := visited + [rules];
      }
    }

    /** One line deleted until that fails, `limit` times at most. */
    method SweepOne(r: Rule, limit: nat) returns (ok: bool)
      modifies this
      ensures var w := SweepLine(old(rules), r, limit);
              ok == w.ok && rules == w.end && visited == old(visited) + w.visited && grant == old(grant)
    {
      ghost var line := SweepLine(rules, r, limit);
      var n := 0;
      while n < limit
        invariant n <= limit && grant == old(grant)
        invariant Continues(line, SweepLine(rules, r, limit - n), old(visited), visited)
      {
        ContinuesSweep(line, rules, r, limit - n, old(visited), visited);
        var deleted := Delete(r);
        if !deleted {
          return true;
        }
        n := n + 1;
      }
      ContinuesSweep(line, rules, r, 0, old(visited), visited);
      return false;
    }

    /** sweepChainTProxy. */
    method SweepLines(down: Rules) returns (ok: bool)
      modifies this
      ensures var w := Sweep(old(rules), down);
              ok == w.ok && rules == w.end && visited == old(visited) + w.visited && grant == old(grant)
    {
      ghost var whole := Sweep(rules, down);
      for k := 0 to |down|
        invariant grant == old(grant)
        invariant Continues(whole, Sweep(rules, down[k..]), old(visited), visited)
      {
        ContinuesLines(whole, rules, down, k, old(visited), visited);
        ok := SweepOne(down[k], SWEEP_MAX_REPEATS);
        if !ok {
          return;
        }
      }
      ContinuesDone(whole, rules, old(visited), visited);
      ok := true;
    }

    /** The new lines, in order, up to the first the kernel refuses. */
    method AddLines(up: Rules) returns (ok: bool)
      modifies this
      ensures var w := AddAll(old(rules), up, old(grant));
              ok == w.ok && rules == w.end && visited == old(visited) + w.visited
    {
      ghost var whole := AddAll(rules, up, grant);
      for k := 0 to |up|
        invariant Continues(whole, AddAll(rules, up[k..], grant), old(visited), visited)
      {
        ContinuesAdd(whole, rules, up, k, grant, old(visited), visited);
        ok := Insert(up[k]);
        if !ok {
          return;
        }
      }
      ContinuesDone(whole, rules, old(visited), visited);
      ok := true;
    }

    method AddThenSweep(nextOnly: Rules, prevOnly: Rules) returns (ok: bool)
      modifies this
      ensures var w := AddedThenSwept(AddAll(old(rules), nextOnly, old(grant)), prevOnly);
              ok == w.ok && rules == w.end && visited == old(visited) + w.visited
    {
      ghost var before, added := visited, AddAll(rules, nextOnly, grant);
      ok := AddLines(nextOnly);
      if ok {
        ghost var swept := Sweep(rules, prevOnly);
        ok := SweepLines(prevOnly);
        Appended(before, added.visited, swept.visited);
      }
    }

    method SwapByLine(residue: Rules, nextOnly: Rules, prevOnly: Rules) returns (ok: bool)
      modifies this
      ensures var w := SwapLines(old(rules), residue, nextOnly, prevOnly, old(grant));
              ok == w.ok && rules == w.end && visited == old(visited) + w.visited
    {
      SwapLinesAre(rules, residue, nextOnly, prevOnly, grant);
      ghost var before, cleaned := visited, Sweep(rules, residue);
      ok := SweepLines(residue);
      if ok {
        ghost var rest := AddedThenSwept(AddAll(rules, nextOnly, grant), prevOnly);
        ok := AddThenSweep(nextOnly, prevOnly);
        Appended(before, cleaned.visited, rest.visited);
      }
    }

    method SwapChainLive(i: string, prev: Option<TProxy>, next: Option<TProxy>) returns (ok: bool)
      modifies this
      ensures var w := Swap(old(rules), i, prev, next, old(grant));
              ok == w.ok && rules == w.end && visited == old(visited) + w.visited
    {
      var residue := LinesWithout(Down(i, next), Down(i, prev));
      var nextOnly := LinesWithout(Up(i, next), Up(i, prev));
      var prevOnly := LinesWithout(Down(i, prev), Down(i, next));
      ok := SwapByLine(residue, nextOnly, prevOnly);
    }

    method UndoSwap(i: string, prev: Option<TProxy>, next: Option<TProxy>)
      modifies this
      ensures var w := Sweep(old(rules), NewDown(i, prev, next));
              rules == w.end && visited == old(visited) + w.visited
    {
      var nextOnly := LinesWithout(Down(i, next), Down(i, prev));
      var _ := SweepLines(nextOnly);
    }

    /** The live branch of applyCascadeOne, for a hand-off that is not the one in force. */
    method SwapOrUndo(i: string, prev: Option<TProxy>, next: Option<TProxy>) returns (ok: bool)
      modifies this
      ensures var w := SwapOrUndone(Swap(old(rules), i, prev, next, old(grant)), NewDown(i, prev, next));
              ok == w.ok && rules == w.end && visited == old(visited) + w.visited
    {
      ghost var before, swapped := visited, Swap(rules, i, prev, next, grant);
      ok := SwapChainLive(i, prev, next);
      if !ok {
        ghost var undone := Sweep(rules, NewDown(i, prev, next));
        UndoSwap(i, prev, next);
        Appended(before, swapped.visited, undone.visited);
      }
    }

    /** The live branch of applyCascadeOne. */
    method ChangeLive(i: string, prev: Option<TProxy>, next: Option<TProxy>) returns (ok: bool)
      modifies this
      ensures var w := Change(old(rules), i, prev, next, old(grant));
              ok == w.ok && rules == w.end && visited == old(visited) + w.visited
    {
      if prev == next {
        return true;
      }
      ChangeIs(rules, i, prev, next, grant);
      ok := SwapOrUndo(i, prev, next);
    }
  }
}
