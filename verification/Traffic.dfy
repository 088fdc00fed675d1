/**
  Traffic accounting of the AmneziaWG adapter (adapter.go, GetStats, statsOne,
  mergeStats): cumulative kernel counters become per-poll deltas. Counters are
  kept by public key, users by id.
*/
module Traffic {

  type Id(==, !new, 0)
  type Key(==, !new, 0)

  /** Received and sent bytes are counted alike and apart. */
  datatype Counters = Counters(rx: nat, tx: nat)

  datatype Side = Rx | Tx

  function Of(c: Counters, d: Side): nat {
    if d == Rx then c.rx else c.tx
  }

  type Dump = map<Key, Counters>
  type Table = map<Key, nat>

  function OneSide(m: Dump, d: Side): Table {
    map k | k in m :: Of(m[k], d)
  }

  function At(m: Table, k: Key): nat {
    if k in m then m[k] else 0
  }

  /** A counter that went backwards was reset: it counts from zero again. */
  function Grown(cur: nat, last: nat): nat {
    if cur >= last then cur - last else cur
  }

  /** What a poll bills for one key: nothing at first sight. */
  function Billing(last: Table, dump: Table, k: Key): nat {
    if k in last then Grown(At(dump, k), last[k]) else 0
  }

  /** What a poll bills one user. */
  function Due(peers: map<Id, Key>, last: Table, dump: Table, id: Id): nat {
    if id in peers then Billing(last, dump, peers[id]) else 0
  }

  /** The snapshot a poll leaves: the current peers and nobody else. */
  function Snapshot(peers: map<Id, Key>, dump: Table): Table {
    map k | k in peers.Values :: At(dump, k)
  }

  datatype UserStats = UserStats(id: Id, bytes: Counters)

  datatype Stats = Stats(users: seq<UserStats>, total: Counters, noData: bool)

  function SumAll(us: seq<UserStats>, d: Side): nat {
    if us == [] then 0 else Of(us[0].bytes, d) + SumAll(us[1..], d)
  }

  function Share(u: UserStats, id: Id, d: Side): nat {
    if u.id == id then Of(u.bytes, d) else 0
  }

  function SumOf(us: seq<UserStats>, id: Id, d: Side): nat {
    if us == [] then 0 else Share(us[0], id, d) + SumOf(us[1..], id, d)
  }

  lemma {:induction false} SumAllAppend(us: seq<UserStats>, u: UserStats, d: Side)
    ensures SumAll(us + [u], d) == SumAll(us, d) + Of(u.bytes, d)
  {
    if us == [] {
      assert us + [u] == [u];
    } else {
      assert (us + [u])[1..] == us[1..] + [u];
      SumAllAppend(us[1..], u, d);
    }
  }

  lemma {:induction false} SumOfAppend(us: seq<UserStats>, u: UserStats, id: Id, d: Side)
    ensures SumOf(us + [u], id, d) == SumOf(us, id, d) + Share(u, id, d)
  {
    if us == [] {
      assert us + [u] == [u];
    } else {
      assert (us + [u])[1..] == us[1..] + [u];
      SumOfAppend(us[1..], u, id, d);
    }
  }

  lemma {:induction false} SumOfSplit(us: seq<UserStats>, i: nat, id: Id, d: Side)
    requires i < |us|
    ensures SumOf(us, id, d) == SumOf(us[..i], id, d) + Share(us[i], id, d) + SumOf(us[i + 1..], id, d)
  {
    if i > 0 {
      assert us[1..][..i - 1] == us[..i][1..];
      SumOfSplit(us[1..], i - 1, id, d);
    }
  }

  lemma SumOfChange(us: seq<UserStats>, vs: seq<UserStats>, i: nat, u: UserStats, id: Id, d: Side)
    requires i < |us| && us[i].id == u.id && |vs| == |us|
    requires vs[..i] == us[..i] && vs[i + 1..] == us[i + 1..]
    requires vs[i].id == u.id && Of(vs[i].bytes, d) == Of(us[i].bytes, d) + Of(u.bytes, d)
    ensures SumOf(vs, id, d) == SumOf(us, id, d) + Share(u, id, d)
  {
    SumOfSplit(us, i, id, d);
    SumOfSplit(vs, i, id, d);
  }

  /** One more entry of the other interface, on the user's line or on a new one. */
  method AddLine(users: seq<UserStats>, at: map<Id, nat>, u: UserStats) returns (out: seq<UserStats>)
    requires forall id :: id in at ==> at[id] < |users| && users[at[id]].id == id
    ensures forall id :: id in at ==> at[id] < |out| && out[at[id]].id == id
    ensures forall id, d :: SumOf(out, id, d) == SumOf(users, id, d) + Share(u, id, d)
  {
    if u.id in at {
      var i := at[u.id];
      var was := users[i].bytes;
      out := users[i := UserStats(u.id, Counters(was.rx + u.bytes.rx, was.tx + u.bytes.tx))];
      forall id, d ensures SumOf(out, id, d) == SumOf(users, id, d) + Share(u, id, d) {
        SumOfChange(users, out, i, u, id, d);
      }
    } else {
      out := users + [u];
      forall id, d ensures SumOf(out, id, d) == SumOf(users, id, d) + Share(u, id, d) {
        SumOfAppend(users, u, id, d);
      }
    }
  }

  /** Two interfaces, one bill: nobody's bytes are lost or counted twice. */
  method MergeStats(a: Stats, b: Stats) returns (out: Stats)
    ensures forall id, d :: SumOf(out.users, id, d) == SumOf(a.users, id, d) + SumOf(b.users, id, d)
    ensures forall d :: Of(out.total, d) == Of(a.total, d) + Of(b.total, d)
    ensures out.noData <==> a.noData && b.noData
  {
    var users: seq<UserStats> := [];
    var at: map<Id, nat> := map[];
    for k := 0 to |a.users|
      invariant users == a.users[..k]
      invariant forall id :: id in at ==> at[id] < |users| && users[at[id]].id == id
    {
      at := at[a.users[k].id := |users|];
      users := users + [a.users[k]];
    }
    assert users == a.users;
    for k := 0 to |b.users|
      invariant forall id :: id in at ==> at[id] < |users| && users[at[id]].id == id
      invariant forall id, d :: SumOf(users, id, d) == SumOf(a.users, id, d) + SumOf(b.users[..k], id, d)
    {
      users := AddLine(users, at, b.users[k]);
      assert b.users[..k + 1] == b.users[..k] + [b.users[k]];
      forall id, d ensures SumOf(users, id, d) == SumOf(a.users, id, d) + SumOf(b.users[..k + 1], id, d) {
        SumOfAppend(b.users[..k], b.users[k], id, d);
      }
    }
    assert b.users == b.users[..|b.users|];
    out := Stats(users, Counters(a.total.rx + b.total.rx, a.total.tx + b.total.tx), a.noData && b.noData);
  }

  /** One peer's line of the bill: nothing at first sight; each counter's growth; all of it once it went back. */
  function Line(last: Dump, dump: Dump, k: Key): Counters {
    var now := if k in dump then dump[k] else Counters(0, 0);
    if k !in last then Counters(0, 0)
    else
      Counters(if now.rx < last[k].rx then now.rx else now.rx - last[k].rx,
               if now.tx < last[k].tx then now.tx else now.tx - last[k].tx)
  }

  /** What is due for a user is their key's line, received bytes and sent ones apart; nobody else is due anything. */
  lemma DueIsTheLine(peers: map<Id, Key>, last: Dump, dump: Dump, id: Id)
    ensures id in peers ==>
              var line := Line(last, dump, peers[id]);
              && Due(peers, OneSide(last, Rx), OneSide(dump, Rx), id) == line.rx
              && Due(peers, OneSide(last, Tx), OneSide(dump, Tx), id) == line.tx
    ensures id !in peers ==> forall d :: Due(peers, OneSide(last, d), OneSide(dump, d), id) == 0
  {
  }

  /** Bills add up from nothing, one line at a time. */
  lemma SumsStart(u: UserStats, d: Side)
    ensures SumAll([], d) == 0 && SumAll([u], d) == if d == Rx then u.bytes.rx else u.bytes.tx
    ensures SumOf([], u.id, d) == 0 && SumOf([u], u.id, d) == SumAll([u], d)
    ensures forall id :: id != u.id ==> SumOf([u], id, d) == 0
  {
    assert [u][1..] == [];
  }

  /** The adapter's part of the accounting. */
  class Meter {
    var peers: map<Id, Key>
    var lastStats: Dump
    var configured: bool

    constructor ()
      ensures peers == map[] && lastStats == map[] && !configured
    {
      peers, lastStats, configured := map[], map[], false;
    }

    /** An interface that did not answer: the snapshot waits for its next answer. */
    method Silent() returns (st: Stats)
      ensures st.noData <==> configured
      ensures forall d :: Of(st.total, d) == 0 && forall id :: SumOf(st.users, id, d) == 0
    {
      var users: seq<UserStats> := [];
      if configured {
        return Stats([], Counters(0, 0), true);
      }
      var todo := peers.Keys;
      while todo != {}
        invariant forall id, d :: SumOf(users, id, d) == 0
      {
        var id :| id in todo;
        var u := UserStats(id, Counters(0, 0));
        forall other, d ensures SumOf(users + [u], other, d) == 0 {
          SumOfAppend(users, u, other, d);
        }
        users, todo := users + [u], todo - {id};
      }
      st := Stats(users, Counters(0, 0), false);
    }

    /** statsOne on an interface that answered. */
    method Poll(dump: Dump) returns (st: Stats)
      modifies `lastStats
      ensures !st.noData
      ensures forall d :: OneSide(lastStats, d) == Snapshot(peers, OneSide(dump, d))
      ensures forall id, d :: SumOf(st.users, id, d) == Due(peers, OneSide(old(lastStats), d), OneSide(dump, d), id)
      ensures forall d :: Of(st.total, d) == SumAll(st.users, d)
    {
      var users: seq<UserStats>, total, next: Dump := [], Counters(0, 0), map[];
      var todo := peers.Keys;
      ghost var done: set<Id> := {};
      while todo != {}
        invariant todo + done == peers.Keys && todo !! done
        invariant lastStats == old(lastStats)
        invariant forall id, d :: SumOf(users, id, d) ==
                    (if id in done then Due(peers, OneSide(lastStats, d), OneSide(dump, d), id) else 0)
        invariant forall d :: Of(total, d) == SumAll(users, d)
        invariant forall id :: id in done ==> peers[id] in next
        invariant forall k :: k in next ==>
                k in peers.Values && next[k] == if k in dump then dump[k] else Counters(0, 0)
      {
        var id :| id in todo;
        var key := peers[id];
        var cur := if key in dump then dump[key] else Counters(0, 0);
        next := next[key := cur];
        var bytes := Counters(0, 0);
        if key in lastStats {
          var last := lastStats[key];
          bytes := Counters(Grown(cur.rx, last.rx), Grown(cur.tx, last.tx));
        }
        var u := UserStats(id, bytes);
        forall other, d ensures SumOf(users + [u], other, d) == SumOf(users, other, d) + Share(u, other, d) {
          SumOfAppend(users, u, other, d);
        }
        forall d ensures SumAll(users + [u], d) == SumAll(users, d) + Of(bytes, d) {
          SumAllAppend(users, u, d);
        }
        users, total := users + [u], Counters(total.rx + bytes.rx, total.tx + bytes.tx);
        todo, done := todo - {id}, done + {id};
      }
      forall k | k in peers.Values
        ensures k in next
      {
        var id :| id in peers && peers[id] == k;
      }
      forall d ensures OneSide(next, d) == Snapshot(peers, OneSide(dump, d)) {
      }
      lastStats := next;
      st := Stats(users, total, false);
    }
  }
}
