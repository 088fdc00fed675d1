/**
  What a run of the tunnel reconcile leaves behind, from any state of the machine:
  after a crash, a hand-made interface or an earlier run that failed half way.
*/
module TunnelProofs {
  import opened Common
  import opened Tunnels

  // ------------------------------------------------------- what the block asks for

  lemma NamedAppend(ts: seq<Tunnel>, t: Tunnel)
    ensures Named(ts + [t]) == Named(ts) + {t.iface}
  {
    var more := ts + [t];
    forall i ensures i in Named(more) <==> i in Named(ts) || i == t.iface {
      if i in Named(ts) {
        var k :| 0 <= k < |ts| && ts[k].iface == i;
        assert more[k].iface == i;
      }
      if i == t.iface {
        assert more[|ts|].iface == i;
      }
    }
  }

  /** The config the block names last for an interface. */
  function LastConf(ts: seq<Tunnel>, i: Iface): (r: Option<Conf>)
    ensures r.Some? <==> i in Named(ts)
  {
    if ts == [] then None
    else
      assert ts == ts[..|ts| - 1] + [ts[|ts| - 1]];
      NamedAppend(ts[..|ts| - 1], ts[|ts| - 1]);
      if ts[|ts| - 1].iface == i then Some(ts[|ts| - 1].conf) else LastConf(ts[..|ts| - 1], i)
  }

  ghost predicate LegsOnly(ts: seq<Tunnel>) {
    forall k :: 0 <= k < |ts| ==> IsLeg(ts[k].iface)
  }

  /** No file of a tunnel that is not wanted resists removal. */
  ghost predicate Erases(m: Machine, ts: seq<Tunnel>, w: World) {
    forall i :: i in m.files && IsLeg(i) && i !in Named(ts) ==> w.erase(i)
  }

  ghost predicate SameAt(a: Machine, b: Machine, i: Iface) {
    && (i in a.links <==> i in b.links) && (i in a.links ==> a.links[i] == b.links[i])
    && (i in a.files <==> i in b.files) && (i in a.files ==> a.files[i] == b.files[i])
  }

  /** The legs and their files are exactly the block's, and nothing else has moved. */
  ghost predicate Converged(before: Machine, after: Machine, ts: seq<Tunnel>) {
    && (forall i :: IsLeg(i) ==> (i in after.links <==> i in Named(ts)))
    && (forall i :: IsLeg(i) ==> (if i in after.files then Some(after.files[i]) else None) == LastConf(ts, i))
    && (forall i :: !IsLeg(i) ==> SameAt(before, after, i))
  }

  // ------------------------------------------------------------- following one run

  /** Every tunnel of the block for this interface is what the machine already has. */
  ghost predicate Untouched(m: Machine, ts: seq<Tunnel>, i: Iface) {
    i in m.links && i in m.files && forall k :: 0 <= k < |ts| && ts[k].iface == i ==> ts[k].conf == m.files[i]
  }

  /** After the tunnels so far: what each of their interfaces has and runs. */
  ghost predicate Follows(m: Machine, after: Machine, ts: seq<Tunnel>, i: Iface) {
    if i !in Named(ts) then SameAt(m, after, i)
    else
      && i in after.links && i in after.files && Some(after.files[i]) == LastConf(ts, i)
      && after.links[i] == if Untouched(m, ts, i) then m.links[i] else Some(after.files[i])
  }

  lemma UntouchedAppend(m: Machine, ts: seq<Tunnel>, t: Tunnel)
    ensures Untouched(m, ts + [t], t.iface) <==>
            Untouched(m, ts, t.iface) && t.conf == m.files[t.iface]
  {
    var more := ts + [t];
    assert more[|ts|] == t;
    assert forall j :: 0 <= j < |ts| ==> more[j] == ts[j];
  }

  lemma {:induction false} LastIsNamed(ts: seq<Tunnel>, i: Iface)
    requires i in Named(ts)
    ensures exists j :: 0 <= j < |ts| && ts[j] == Tunnel(i, LastConf(ts, i).value)
  {
    var shorter := ts[..|ts| - 1];
    if ts[|ts| - 1].iface == i {
      assert ts[|ts| - 1] == Tunnel(i, LastConf(ts, i).value);
    } else {
      assert ts == shorter + [ts[|ts| - 1]];
      NamedAppend(shorter, ts[|ts| - 1]);
      LastIsNamed(shorter, i);
      var j :| 0 <= j < |shorter| && shorter[j] == Tunnel(i, LastConf(shorter, i).value);
      assert ts[j] == shorter[j];
    }
  }

  lemma StepFollows(m: Machine, mid: Machine, ts: seq<Tunnel>, t: Tunnel, k: nat, w: World, i: Iface)
    requires Follows(m, mid, ts, i) && RaiseOne(mid, t, k, w).2
    ensures Follows(m, RaiseOne(mid, t, k, w).0, ts + [t], i)
  {
    var more := ts + [t];
    NamedAppend(ts, t);
    assert more[..|ts|] == ts && more[|ts|] == t;
    assert forall j :: 0 <= j < |ts| ==> more[j] == ts[j];
    if i == t.iface {
      UntouchedAppend(m, ts, t);
      if i in Named(ts) {
        LastIsNamed(ts, i);
        if Untouched(m, ts, i) {
          var j :| 0 <= j < |ts| && ts[j] == Tunnel(i, mid.files[i]);
        }
      }
    } else {
      assert LastConf(more, i) == LastConf(ts, i);
      assert i in m.links && i in m.files ==> (Untouched(m, more, i) <==> Untouched(m, ts, i));
    }
  }

  lemma RaisedFollows(m: Machine, ts: seq<Tunnel>, k: nat, w: World, i: Iface)
    requires k < |ts| && RaiseAll(m, ts, k + 1, w).ok && Follows(m, RaiseAll(m, ts, k, w).m, ts[..k], i)
    ensures Follows(m, RaiseAll(m, ts, k + 1, w).m, ts[..k + 1], i)
  {
    StepFollows(m, RaiseAll(m, ts, k, w).m, ts[..k], ts[k], k, w, i);
    assert ts[..k + 1] == ts[..k] + [ts[k]];
  }

  lemma {:induction false} RunFollows(m: Machine, ts: seq<Tunnel>, k: nat, w: World)
    requires k <= |ts| && RaiseAll(m, ts, k, w).ok
    ensures forall i :: Follows(m, RaiseAll(m, ts, k, w).m, ts[..k], i)
  {
    if k > 0 {
      RunFollows(m, ts, k - 1, w);
      forall i ensures Follows(m, RaiseAll(m, ts, k, w).m, ts[..k], i) {
        RaisedFollows(m, ts, k - 1, w, i);
      }
    }
  }

  // ------------------------------------------------------------------ convergence

  /** A run that succeeds leaves exactly the block's legs and files, whatever was there, and touches nothing else. */
  lemma SuccessConverges(m: Machine, ts: seq<Tunnel>, w: World)
    requires Succeeds(m, ts, w) && LegsOnly(ts) && Erases(m, ts, w)
    ensures Converged(m, Applied(m, ts, w).m, ts)
  {
    var swept := Swept(m, Named(ts), w);
    RunFollows(swept, ts, |ts|, w);
    assert ts[..|ts|] == ts;
    var after := Applied(m, ts, w).m;
    forall i ensures (IsLeg(i) ==> (i in after.links <==> i in Named(ts)))
      ensures IsLeg(i) ==> (if i in after.files then Some(after.files[i]) else None) == LastConf(ts, i)
      ensures !IsLeg(i) ==> SameAt(m, after, i)
    {
      assert Follows(swept, after, ts, i);
      if i in m.links && IsLeg(i) && i !in Named(ts) {
        assert Doomed(m, Named(ts), i);
      }
    }
  }

  /** The leg is kept as it is although it was not raised from its file. */
  ghost predicate Stale(m: Machine, ts: seq<Tunnel>, i: Iface) {
    i in Named(ts) && Untouched(m, ts, i) && m.links[i] != Some(m.files[i])
  }

  ghost predicate RunsTheBlock(m: Machine, ts: seq<Tunnel>) {
    forall i :: i in Named(ts) ==> i in m.links && m.links[i] == LastConf(ts, i)
  }

  /** Every leg runs the config the block names for it exactly when none was kept stale. */
  lemma RunsTheBlockIff(m: Machine, ts: seq<Tunnel>, w: World)
    requires Succeeds(m, ts, w)
    ensures RunsTheBlock(Applied(m, ts, w).m, ts) <==> forall i :: !Stale(m, ts, i)
  {
    var swept := Swept(m, Named(ts), w);
    var after := Applied(m, ts, w).m;
    RunFollows(swept, ts, |ts|, w);
    assert ts[..|ts|] == ts;
    forall i | i in Named(ts)
      ensures i in after.links && (after.links[i] == LastConf(ts, i) <==> !Stale(m, ts, i))
    {
      assert Follows(swept, after, ts, i);
      assert SameAt(m, swept, i);
      assert Untouched(m, ts, i) <==> Untouched(swept, ts, i);
      if Untouched(m, ts, i) {
        LastIsNamed(ts, i);
        var j :| 0 <= j < |ts| && ts[j] == Tunnel(i, LastConf(ts, i).value);
        assert LastConf(ts, i) == Some(m.files[i]);
      }
    }
  }

  // ----------------------------------------------- files and interfaces agreeing

  /** A leg that has a file was raised from it. */
  ghost predicate Coherent(m: Machine) {
    forall i :: IsLeg(i) && i in m.links && i in m.files ==> m.links[i] == Some(m.files[i])
  }

  /** The file is new, the interface would not go, and so it still runs what it ran. */
  ghost predicate Stuck(m: Machine, t: Tunnel, k: nat, w: World) {
    !Kept(m, t) && w.write(k) && t.iface in m.links && !Gone(w.down(k)) && m.links[t.iface] != Some(t.conf)
  }

  lemma StepCoherent(m: Machine, t: Tunnel, k: nat, w: World)
    requires Coherent(m) && IsLeg(t.iface)
    ensures Coherent(RaiseOne(m, t, k, w).0) <==> !Stuck(m, t, k, w)
    ensures Stuck(m, t, k, w) ==> !RaiseOne(m, t, k, w).2
  {
    var after := RaiseOne(m, t, k, w).0;
    if Stuck(m, t, k, w) {
      assert after.links[t.iface] != Some(after.files[t.iface]);
    } else {
      forall i | IsLeg(i) && i in after.links && i in after.files ensures after.links[i] == Some(after.files[i]) {
      }
    }
  }

  lemma {:induction false} RunCoherent(m: Machine, ts: seq<Tunnel>, k: nat, w: World)
    requires Coherent(m) && LegsOnly(ts) && k <= |ts| && RaiseAll(m, ts, k, w).ok
    ensures Coherent(RaiseAll(m, ts, k, w).m)
  {
    if k > 0 {
      RunCoherent(m, ts, k - 1, w);
      StepCoherent(RaiseAll(m, ts, k - 1, w).m, ts[k - 1], k - 1, w);
    }
  }

  /** A run that stopped raised every tunnel before the one that failed. */
  lemma {:induction false} StoppedAt(m: Machine, ts: seq<Tunnel>, k: nat, w: World)
    requires k <= |ts| && !RaiseAll(m, ts, k, w).ok
    ensures var r := RaiseAll(m, ts, k, w); var before := RaiseAll(m, ts, r.done, w);
      before.ok && r.m == RaiseOne(before.m, ts[r.done], r.done, w).0 && !RaiseOne(before.m, ts[r.done], r.done, w).2
  {
    if !RaiseAll(m, ts, k - 1, w).ok {
      StoppedAt(m, ts, k - 1, w);
    }
  }

  /**
    A run keeps files and interfaces in agreement exactly when it was not stopped by
    a changed tunnel whose interface would not go down.
  */
  lemma KeepsCoherentIff(m: Machine, ts: seq<Tunnel>, w: World)
    requires Coherent(m) && LegsOnly(ts)
    ensures var swept := Swept(m, Named(ts), w);
      var r := Applied(m, ts, w);
      Coherent(r.m) <==> r.ok || !Stuck(RaiseAll(swept, ts, r.done, w).m, ts[r.done], r.done, w)
  {
    var swept, r := Swept(m, Named(ts), w), Applied(m, ts, w);
    if r.ok {
      RunCoherent(swept, ts, |ts|, w);
    } else {
      StoppedAt(swept, ts, |ts|, w);
      RunCoherent(swept, ts, r.done, w);
      StepCoherent(RaiseAll(swept, ts, r.done, w).m, ts[r.done], r.done, w);
    }
  }

  /** From agreement, success means every leg runs the block's config. */
  lemma CoherentSuccessRuns(m: Machine, ts: seq<Tunnel>, w: World)
    requires Coherent(m) && LegsOnly(ts) && Succeeds(m, ts, w)
    ensures RunsTheBlock(Applied(m, ts, w).m, ts) && Coherent(Applied(m, ts, w).m)
  {
    KeepsCoherentIff(m, ts, w);
    RunsTheBlockIff(m, ts, w);
    forall i ensures !Stale(m, ts, i) {
      if i in Named(ts) {
        var k :| 0 <= k < |ts| && ts[k].iface == i;
        assert IsLeg(ts[k].iface);
      }
    }
  }

  /**
    A tunnel changed while its interface would not go down: the push fails, and the
    same block sent again succeeds without a command while the old config runs.
  */
  lemma RetrySucceedsOnTheOldConfig(i: Iface, was: Conf, now: Conf, w: World, again: World)
    requires IsLeg(i) && was != now
    requires w.listing.Some? && w.write(0) && w.down(0) == Failed(false) && again.listing.Some?
    ensures var m := Machine(map[i := Some(was)], map[i := was]);
      var block := [Tunnel(i, now)];
      var left := Applied(m, block, w).m;
      && Coherent(m) && !Succeeds(m, block, w)
      && Succeeds(left, block, again) && Applied(left, block, again).commands == 0
      && Applied(left, block, again).m.links[i] == Some(was)
  {
    var m := Machine(map[i := Some(was)], map[i := was]);
    var block := [Tunnel(i, now)];
    assert block == [] + [Tunnel(i, now)];
    NamedAppend([], Tunnel(i, now));
    assert Named([]) == {};
    assert Named(block) == {i};
    assert Swept(m, {i}, w) == m;
    var one := RaiseOne(m, block[0], 0, w);
    assert RaiseAll(m, block, 0, w) == Raised(m, 0, 0, true);
    assert RaiseAll(m, block, 1, w) == Raised(one.0, one.1, 0, false);
    var left := one.0;
    assert Swept(left, {i}, again) == left;
    assert RaiseAll(left, block, 0, again) == Raised(left, 0, 0, true);
    assert RaiseAll(left, block, 1, again) == Raised(left, 0, 1, true);
  }

  // ------------------------------------------------------------------ doing it twice

  ghost predicate OneConfEach(ts: seq<Tunnel>) {
    forall j, k :: 0 <= j < k < |ts| && ts[j].iface == ts[k].iface ==> ts[j].conf == ts[k].conf
  }

  lemma {:induction false} QuietIffKept(m: Machine, ts: seq<Tunnel>, k: nat, w: World)
    requires k <= |ts|
    ensures var r := RaiseAll(m, ts, k, w);
      (r.ok && r.commands == 0) <==> forall j :: 0 <= j < k ==> Kept(m, ts[j])
    ensures RaiseAll(m, ts, k, w).ok && RaiseAll(m, ts, k, w).commands == 0 ==> RaiseAll(m, ts, k, w).m == m
  {
    if k > 0 {
      QuietIffKept(m, ts, k - 1, w);
      var before := RaiseAll(m, ts, k - 1, w);
      if before.ok && before.commands == 0 {
        assert before.m == m;
      }
      assert (forall j :: 0 <= j < k ==> Kept(m, ts[j])) <==>
          (forall j :: 0 <= j < k - 1 ==> Kept(m, ts[j])) && Kept(m, ts[k - 1]);
    }
  }

  lemma OneConfIff(ts: seq<Tunnel>)
    ensures OneConfEach(ts) <==> forall k :: 0 <= k < |ts| ==> LastConf(ts, ts[k].iface) == Some(ts[k].conf)
  {
    forall k | 0 <= k < |ts| && OneConfEach(ts) ensures LastConf(ts, ts[k].iface) == Some(ts[k].conf) {
      LastIsNamed(ts, ts[k].iface);
      var j :| 0 <= j < |ts| && ts[j] == Tunnel(ts[k].iface, LastConf(ts, ts[k].iface).value);
      assert ts[j].conf == ts[k].conf;
    }
  }

  /** With legs and files those of the block, a second sweep finds nothing. */
  lemma NothingToSweep(left: Machine, ts: seq<Tunnel>, w: World)
    requires NothingDoomed(left, Named(ts)) && w.listing.Some?
    requires forall i :: i in left.files && IsLeg(i) ==> LastConf(ts, i).Some?
    ensures Swept(left, Named(ts), w) == left
  {
  }

  /**
    An immediate second run of a block that succeeded issues no command and changes
    nothing, exactly when the block gives no interface two different configs.
  */
  lemma SecondRunQuietIff(m: Machine, ts: seq<Tunnel>, w: World, again: World)
    requires Succeeds(m, ts, w) && LegsOnly(ts) && Erases(m, ts, w) && again.listing.Some?
    ensures var left := Applied(m, ts, w).m;
      var r := Applied(left, ts, again);
      && NothingDoomed(left, Named(ts))
      && ((r.ok && r.commands == 0) <==> OneConfEach(ts))
      && (OneConfEach(ts) ==> r.m == left && Succeeds(left, ts, again))
  {
    var left := Applied(m, ts, w).m;
    SuccessConverges(m, ts, w);
    NothingToSweep(left, ts, again);
    QuietIffKept(left, ts, |ts|, again);
    forall k | 0 <= k < |ts| ensures Kept(left, ts[k]) <==> Some(ts[k].conf) == LastConf(ts, ts[k].iface) {
      assert IsLeg(ts[k].iface);
    }
    OneConfIff(ts);
  }

  // -------------------------------------------------------------------- one tunnel

  /** A tunnel comes up exactly when it is left alone, or written, taken down if it was there, and raised. */
  lemma RaisedIff(m: Machine, t: Tunnel, k: nat, w: World)
    ensures RaiseOne(m, t, k, w).2 <==>
              || Kept(m, t)
              || (w.write(k) && (t.iface in m.links ==> Gone(w.down(k))) && w.up(k))
    ensures RaiseOne(m, t, k, w).2 && !Kept(m, t) ==>
              && RaiseOne(m, t, k, w).0.files == m.files[t.iface := t.conf]
              && RaiseOne(m, t, k, w).0.links == m.links[t.iface := Some(t.conf)]
  {
  }

  /** What is run for it: nothing if it is left alone or not written, else an up, after a down if it was there. */
  lemma CommandsFor(m: Machine, t: Tunnel, k: nat, w: World)
    ensures RaiseOne(m, t, k, w).1 ==
              if Kept(m, t) || !w.write(k) then 0 else if t.iface in m.links then 2 else 1
  {
  }
}
