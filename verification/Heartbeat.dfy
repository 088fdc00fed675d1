/**
  The heartbeat loop (heartbeat.go): when the agent takes the panel's 410 for
  its own removal. A run is the list of what the polls brought back.
*/
module Heartbeat {
  import opened Common

  /** What one poll brings back: no answer, or a status code and the body's status field. */
  datatype Reply =
    | NoReply
    | Reply(code: nat, body: Option<string>)   // None: a body that does not parse

  datatype Status = Active | Disabled | Gone | Failed

  /** pollOnce. */
  function StatusOf(r: Reply): Status {
    if r.NoReply? then Failed
    else if r.code == 410 then Gone
    else if r.code == 200 && r.body == Some("active") then Active
    else if r.code == 200 && r.body == Some("disabled") then Disabled
    else Failed
  }

  const DEFAULT_GONE := 3

  /** The configured threshold if it is positive, else three: never so few that no answer fires. */
  function Threshold(configured: int): (t: nat)
    ensures t >= 1
    ensures t == configured <==> configured > 0
    ensures t != configured ==> t == 3
  {
    if configured <= 0 then DEFAULT_GONE else configured
  }

  /** The panel knew the node: an active or a disabled answer. */
  predicate Known(r: Reply) {
    StatusOf(r).Active? || StatusOf(r).Disabled?
  }

  function CountGone(rs: seq<Reply>): nat {
    if rs == [] then 0
    else CountGone(rs[..|rs| - 1]) + if StatusOf(rs[|rs| - 1]).Gone? then 1 else 0
  }

  /** After `n` polls: the latest known answer is the one before `from`, if there is one. */
  ghost predicate LatestKnown(rs: seq<Reply>, n: nat, from: nat) {
    from <= n <= |rs| &&
    (from > 0 ==> Known(rs[from - 1])) &&
    forall k :: from <= k < n ==> !Known(rs[k])
  }

  /**
    The node is gone at poll `n`: the panel knew it before, and since the latest
    such answer the 410s reach the threshold with this one.
  */
  ghost predicate GoneAt(rs: seq<Reply>, n: nat, threshold: nat) {
    n < |rs| && StatusOf(rs[n]).Gone? &&
    exists from :: from > 0 && LatestKnown(rs, n, from) && CountGone(rs[from..n + 1]) >= threshold
  }

  /** There is only one latest known answer. */
  lemma OneLatest(rs: seq<Reply>, n: nat, from: nat)
    requires LatestKnown(rs, n, from)
    ensures forall other: nat :: LatestKnown(rs, n, other) ==> other == from
  {
  }

  /**
    The loop. It fires exactly at the first poll where the node is gone, and
    never when there is none, so a run the panel never knew never fires.
  */
  method Run(rs: seq<Reply>, configured: int, hasOnGone: bool) returns (fired: Option<nat>)
    ensures fired.Some? ==> hasOnGone && GoneAt(rs, fired.value, Threshold(configured))
    ensures fired.Some? ==> forall n :: 0 <= n < fired.value ==> !GoneAt(rs, n, Threshold(configured))
    ensures fired.None? && hasOnGone ==> forall n :: 0 <= n < |rs| ==> !GoneAt(rs, n, Threshold(configured))
  {
    var threshold := Threshold(configured);
    var seenActive, gone := false, 0;
    ghost var from := 0;
    for n := 0 to |rs|
      invariant LatestKnown(rs, n, from)
      invariant seenActive <==> from > 0
      invariant gone == CountGone(rs[from..n])
      invariant hasOnGone ==> forall k :: 0 <= k < n ==> !GoneAt(rs, k, threshold)
    {
      assert rs[from..n + 1][..n - from] == rs[from..n];
      match StatusOf(rs[n]) {
        case Active =>
          gone, seenActive := 0, true;
          from := n + 1;
        case Disabled =>
          gone, seenActive := 0, true;
          from := n + 1;
        case Gone =>
          gone := gone + 1;
          if seenActive {
            if gone >= threshold && hasOnGone {
              return Some(n);
            }
          }
          OneLatest(rs, n, from);
        case Failed =>
      }
    }
    return None;
  }

  predicate Counts(r: Reply) {
    !StatusOf(r).Failed?
  }

  /** The run without its failed polls: errors, 401, 5xx, unreadable or unknown bodies. */
  function Heard(rs: seq<Reply>): seq<Reply> {
    if rs == [] then []
    else Heard(rs[..|rs| - 1]) + if Counts(rs[|rs| - 1]) then [rs[|rs| - 1]] else []
  }

  /**
    The loop's memory after a run: the 410s counted, and whether the panel
    ever knew the node.
  */
  function Memory(rs: seq<Reply>): (nat, bool) {
    if rs == [] then (0, false)
    else
      var (gone, seen) := Memory(rs[..|rs| - 1]);
      match StatusOf(rs[|rs| - 1])
      case Active => (0, true)
      case Disabled => (0, true)
      case Gone => (gone + 1, seen)
      case Failed => (gone, seen)
  }

  /** Failed polls neither advance nor reset the count: deleting them all changes nothing. */
  lemma {:induction false} FailuresDoNotCount(rs: seq<Reply>)
    ensures Memory(Heard(rs)) == Memory(rs)
  {
    if rs != [] {
      var before, last := rs[..|rs| - 1], rs[|rs| - 1];
      FailuresDoNotCount(before);
      if Counts(last) {
        assert Heard(rs)[..|Heard(rs)| - 1] == Heard(before);
      } else {
        assert Heard(rs) == Heard(before);
      }
    }
  }

  /** What the loop remembers is what GoneAt asks about. */
  lemma {:induction false} MemoryMeans(rs: seq<Reply>, from: nat)
    requires LatestKnown(rs, |rs|, from)
    ensures Memory(rs) == (CountGone(rs[from..]), from > 0)
  {
    if rs != [] {
      var before := rs[..|rs| - 1];
      if from == |rs| {
        assert Known(rs[from - 1]);
        assert rs[from..] == [];
      } else {
        assert LatestKnown(before, |before|, from);
        MemoryMeans(before, from);
        assert rs[from..][..|rs| - 1 - from] == before[from..];
        assert !Known(rs[|rs| - 1]);
      }
    }
  }

  /** A run in which the panel never knew the node is never taken for its removal. */
  lemma NeverKnownNeverGone(rs: seq<Reply>, threshold: nat)
    requires forall k :: 0 <= k < |rs| ==> !Known(rs[k])
    ensures forall n: nat :: !GoneAt(rs, n, threshold)
  {
    forall n: nat, from: nat | from > 0 && n < |rs|
      ensures !LatestKnown(rs, n, from)
    {
    }
  }

  lemma {:induction false} CountAtMost(rs: seq<Reply>)
    ensures CountGone(rs) <= |rs|
  {
    if rs != [] {
      CountAtMost(rs[..|rs| - 1]);
    }
  }

  /** With the node known, GoneAt needs no fewer than `threshold` answers of 410 since. */
  lemma GoneNeedsThreshold(rs: seq<Reply>, n: nat, threshold: nat)
    requires GoneAt(rs, n, threshold)
    ensures n >= threshold
  {
    var from :| from > 0 && LatestKnown(rs, n, from) && CountGone(rs[from..n + 1]) >= threshold;
    CountAtMost(rs[from..n + 1]);
  }

  /** What a poll says: gone on a 410, active or disabled on a 200 whose body says so, and nothing otherwise. */
  lemma StatusIff(code: nat, body: Option<string>)
    ensures StatusOf(Reply(code, body)) == Gone <==> code == 410
    ensures StatusOf(Reply(code, body)) == Active <==> code == 200 && body == Some("active")
    ensures StatusOf(Reply(code, body)) == Disabled <==> code == 200 && body == Some("disabled")
    ensures StatusOf(NoReply) == Failed
  {
    assert "active"[0] != "disabled"[0];
  }
}
