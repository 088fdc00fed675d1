/**
  The order peers are written in (sortedPeers, core/amneziawg/adapter.go:1367-1376):
  by the text of their address, so that successive renders are the same bytes.
*/
module PeerOrder {
  import opened AwgConfig

  type User(==, !new, 0)

  type Peers = map<User, Peer>

  // ------------------------------------------------------------- the order of texts

  predicate Before(a: string, b: string) {
    b != "" && (a == "" || a[0] < b[0] || (a[0] == b[0] && Before(a[1..], b[1..])))
  }

  lemma {:induction false} Total(a: string, b: string)
    ensures Before(a, b) || a == b || Before(b, a)
    ensures !(Before(a, b) && Before(b, a)) && !Before(a, a)
    decreases |a|
  {
    if a != "" && b != "" {
      if a[0] == b[0] {
        Total(a[1..], b[1..]);
        assert a == [a[0]] + a[1..] && b == [b[0]] + b[1..];
      }
    }
    if a != "" {
      Total(a[1..], a[1..]);
    }
  }

  lemma {:induction false} Transitive(a: string, b: string, c: string)
    requires !Before(b, a) && !Before(c, b)
    ensures !Before(c, a)
    decreases |a|
  {
    if a != "" && c != "" && b != "" && a[0] == c[0] {
      if b[0] == a[0] {
        Transitive(a[1..], b[1..], c[1..]);
      }
    }
  }

  // ------------------------------------------------------------ the order of the peers

  predicate Known(us: seq<User>, peers: Peers) {
    forall i :: 0 <= i < |us| ==> us[i] in peers
  }

  function PeersOf(us: seq<User>, peers: Peers): (r: seq<Peer>)
    requires Known(us, peers)
  {
    seq(|us|, i requires 0 <= i < |us| => peers[us[i]])
  }

  predicate Distinct(us: seq<User>) {
    forall i, j :: 0 <= i < j < |us| ==> us[i] != us[j]
  }

  ghost predicate Covers(us: seq<User>, peers: Peers) {
    Known(us, peers) && forall u :: u in peers ==> u in us
  }

  predicate NotAfter(u: User, v: User, peers: Peers)
    requires u in peers && v in peers
  {
    !Before(peers[v].ip, peers[u].ip)
  }

  predicate Sorted(us: seq<User>, peers: Peers)
    requires Known(us, peers)
  {
    forall i, j {:trigger NotAfter(us[i], us[j], peers)} :: 0 <= i < j < |us| ==> NotAfter(us[i], us[j], peers)
  }

  /** The users in an order their peers may be written in. */
  ghost predicate Ordered(us: seq<User>, peers: Peers) {
    Covers(us, peers) && Distinct(us) && Sorted(us, peers)
  }

  predicate AllPeersValid(peers: Peers, lib: Library) {
    forall u :: u in peers ==> PeerOk(peers[u], lib)
  }

  lemma ValidInAnyOrder(us: seq<User>, peers: Peers, lib: Library)
    requires Ordered(us, peers) && AllPeersValid(peers, lib)
    ensures AllPeersOk(PeersOf(us, peers), lib)
  {
  }

  // ----------------------------------------------------------------------- sorting

  /** One user put where their peer's address belongs. */
  function Inserted(us: seq<User>, u: User, peers: Peers): (r: seq<User>)
    requires Known(us, peers) && u in peers
    ensures Known(r, peers) && forall v :: v in r <==> v == u || v in us
    decreases |us|
  {
    if us == [] || NotAfter(us[|us| - 1], u, peers) then us + [u]
    else
      assert us == us[..|us| - 1] + [us[|us| - 1]];
      Inserted(us[..|us| - 1], u, peers) + [us[|us| - 1]]
  }

  lemma {:induction false} InsertedSorted(us: seq<User>, u: User, peers: Peers)
    requires Known(us, peers) && u in peers && u !in us
    requires Distinct(us) && Sorted(us, peers)
    ensures Distinct(Inserted(us, u, peers)) && Sorted(Inserted(us, u, peers), peers)
    decreases |us|
  {
    var r := Inserted(us, u, peers);
    if us == [] {
    } else if NotAfter(us[|us| - 1], u, peers) {
      forall i | 0 <= i < |us| ensures NotAfter(us[i], u, peers) {
        if i < |us| - 1 {
          assert NotAfter(us[i], us[|us| - 1], peers);
          Transitive(peers[us[i]].ip, peers[us[|us| - 1]].ip, peers[u].ip);
        }
      }
    } else {
      var front, last := us[..|us| - 1], us[|us| - 1];
      var mid := Inserted(front, u, peers);
      InsertedSorted(front, u, peers);
      Total(peers[u].ip, peers[last].ip);
      forall i | 0 <= i < |mid| ensures NotAfter(mid[i], last, peers) && mid[i] != last {
        assert mid[i] in mid;
        if mid[i] != u {
          var k :| 0 <= k < |front| && front[k] == mid[i];
          assert us[k] == mid[i];
          assert NotAfter(us[k], us[|us| - 1], peers);
        }
      }
    }
  }

  /** sortedPeers: the peers of the map, in whatever order it gives them, sorted. */
  method SortedPeers(peers: Peers) returns (us: seq<User>)
    ensures Ordered(us, peers)
  {
    us := [];
    var rest := peers.Keys;
    while rest != {}
      invariant rest <= peers.Keys && Known(us, peers)
      invariant forall v :: v in us <==> v in peers && v !in rest
      invariant Distinct(us) && Sorted(us, peers)
      decreases |rest|
    {
      var u :| u in rest;
      InsertedSorted(us, u, peers);
      us := Inserted(us, u, peers);
      rest := rest - {u};
    }
  }

  // ------------------------------------------------------------- one order, or several

  lemma {:induction false} OrderExists(peers: Peers)
    ensures exists us :: Ordered(us, peers)
    decreases |peers|
  {
    if peers == map[] {
      assert Ordered([], peers);
    } else {
      var u :| u in peers;
      var fewer := peers - {u};
      OrderExists(fewer);
      var us :| Ordered(us, fewer);
      assert Sorted(us, peers) by {
        forall i, j | 0 <= i < j < |us| ensures NotAfter(us[i], us[j], peers) {
          assert NotAfter(us[i], us[j], fewer);
        }
      }
      InsertedSorted(us, u, peers);
      assert Ordered(Inserted(us, u, peers), peers);
    }
  }

  /** Users with the same address have the same peer. */
  ghost predicate AddressTellsPeer(peers: Peers) {
    forall u, v {:trigger peers[u], peers[v]} :: u in peers && v in peers && peers[u].ip == peers[v].ip ==>
        peers[u] == peers[v]
  }

  ghost predicate OneArrangement(peers: Peers) {
    forall us, vs :: Ordered(us, peers) && Ordered(vs, peers) ==> PeersOf(us, peers) == PeersOf(vs, peers)
  }

  lemma {:induction false} AsManyAsKeys(us: seq<User>, keys: set<User>)
    requires Distinct(us) && forall u :: u in us <==> u in keys
    ensures |us| == |keys|
    decreases |us|
  {
    if us == [] {
      assert keys == {};
    } else {
      var front, last := us[..|us| - 1], us[|us| - 1];
      forall u ensures u in front <==> u in keys - {last} {
        assert us == front + [last];
      }
      AsManyAsKeys(front, keys - {last});
      assert last in us;
    }
  }

  lemma SameLength(us: seq<User>, vs: seq<User>, peers: Peers)
    requires Covers(us, peers) && Distinct(us) && Covers(vs, peers) && Distinct(vs)
    ensures |us| == |vs|
  {
    AsManyAsKeys(us, peers.Keys);
    AsManyAsKeys(vs, peers.Keys);
  }

  /** The last of an order has the greatest address. */
  lemma LastIsGreatest(us: seq<User>, peers: Peers, u: User)
    requires Ordered(us, peers) && u in peers
    ensures us != [] && NotAfter(u, us[|us| - 1], peers)
  {
    var k :| 0 <= k < |us| && us[k] == u;
    if k == |us| - 1 {
      Total(peers[u].ip, peers[u].ip);
    } else {
      assert NotAfter(us[k], us[|us| - 1], peers);
    }
  }

  lemma ShorterOrdered(us: seq<User>, peers: Peers)
    requires us != [] && Ordered(us, peers)
    ensures Ordered(us[..|us| - 1], peers - {us[|us| - 1]})
    ensures forall i :: 0 <= i < |us| - 1 ==> us[..|us| - 1][i] == us[i]
  {
    var front, last := us[..|us| - 1], us[|us| - 1];
    var fewer := peers - {last};
    forall i | 0 <= i < |front| ensures front[i] in fewer {
      assert us[i] != us[|us| - 1];
    }
    forall u | u in fewer ensures u in front {
      assert us == front + [last];
    }
    forall i, j | 0 <= i < j < |front| ensures NotAfter(front[i], front[j], fewer) {
      assert NotAfter(us[i], us[j], peers);
    }
  }

  /** Two users with the same peer may change places. */
  lemma SwapOrdered(us: seq<User>, i: nat, j: nat, peers: Peers)
    requires Ordered(us, peers) && i < |us| && j < |us| && peers[us[i]].ip == peers[us[j]].ip
    ensures Ordered(us[i := us[j]][j := us[i]], peers)
  {
    var vs := us[i := us[j]][j := us[i]];
    assert vs[i] == us[j] && vs[j] == us[i] && forall k :: 0 <= k < |us| && k != i && k != j ==> vs[k] == us[k];
    forall u | u in peers ensures u in vs {
      var k :| 0 <= k < |us| && us[k] == u;
      assert vs[if k == i then j else if k == j then i else k] == u;
    }
    forall a, b | 0 <= a < b < |vs| ensures NotAfter(vs[a], vs[b], peers) {
      assert peers[vs[a]].ip == peers[us[a]].ip && peers[vs[b]].ip == peers[us[b]].ip;
      assert NotAfter(us[a], us[b], peers);
    }
  }

  lemma LastAlike(us: seq<User>, vs: seq<User>, peers: Peers)
    requires Ordered(us, peers) && Ordered(vs, peers) && us != [] && vs != [] && AddressTellsPeer(peers)
    ensures peers[us[|us| - 1]] == peers[vs[|vs| - 1]]
  {
    var u, v := us[|us| - 1], vs[|vs| - 1];
    LastIsGreatest(us, peers, v);
    LastIsGreatest(vs, peers, u);
    Total(peers[u].ip, peers[v].ip);
  }

  ghost predicate Alike(us: seq<User>, vs: seq<User>, peers: Peers)
    requires Known(us, peers) && Known(vs, peers)
  {
    |us| == |vs| && forall i :: 0 <= i < |us| ==> peers[us[i]] == peers[vs[i]]
  }

  lemma SwapAlike(vs: seq<User>, i: nat, j: nat, peers: Peers)
    requires Known(vs, peers) && i < |vs| && j < |vs| && peers[vs[i]] == peers[vs[j]]
    ensures Known(vs[i := vs[j]][j := vs[i]], peers) && Alike(vs[i := vs[j]][j := vs[i]], vs, peers)
  {
  }

  /** The same order with a given user, alike to the last one, last. */
  lemma BroughtLast(vs: seq<User>, k: nat, peers: Peers) returns (ws: seq<User>)
    requires Ordered(vs, peers) && k < |vs| && peers[vs[k]] == peers[vs[|vs| - 1]]
    ensures Ordered(ws, peers) && |ws| == |vs| && ws[|ws| - 1] == vs[k] && Alike(ws, vs, peers)
  {
    SwapOrdered(vs, k, |vs| - 1, peers);
    SwapAlike(vs, k, |vs| - 1, peers);
    ws := vs[k := vs[|vs| - 1]][|vs| - 1 := vs[k]];
  }

  lemma AlikeFromFronts(us: seq<User>, ws: seq<User>, peers: Peers)
    requires us != [] && |us| == |ws| && Known(us, peers) && Known(ws, peers) && us[|us| - 1] == ws[|us| - 1]
    requires var fewer := peers - {us[|us| - 1]};
      Known(us[..|us| - 1], fewer) && Known(ws[..|us| - 1], fewer) && Alike(us[..|us| - 1], ws[..|us| - 1], fewer)
    ensures Alike(us, ws, peers)
  {
    var n := |us| - 1;
    forall i | 0 <= i < n ensures peers[us[i]] == peers[ws[i]] {
      assert us[..n][i] == us[i] && ws[..n][i] == ws[i];
    }
  }

  lemma PlaceOf(vs: seq<User>, u: User, peers: Peers) returns (k: nat)
    requires Covers(vs, peers) && u in peers
    ensures k < |vs| && vs[k] == u
  {
    k :| 0 <= k < |vs| && vs[k] == u;
  }

  lemma Matched(us: seq<User>, vs: seq<User>, peers: Peers) returns (ws: seq<User>)
    requires Ordered(us, peers) && Ordered(vs, peers) && AddressTellsPeer(peers) && us != []
    ensures Ordered(ws, peers) && |ws| == |us| == |vs| && ws[|us| - 1] == us[|us| - 1] && Alike(ws, vs, peers)
  {
    SameLength(us, vs, peers);
    var k := PlaceOf(vs, us[|us| - 1], peers);
    LastAlike(us, vs, peers);
    ws := BroughtLast(vs, k, peers);
  }

  lemma AlikeTransitive(us: seq<User>, ws: seq<User>, vs: seq<User>, peers: Peers)
    requires Known(us, peers) && Known(ws, peers) && Known(vs, peers)
    requires Alike(us, ws, peers) && Alike(ws, vs, peers)
    ensures Alike(us, vs, peers)
  {
  }

  lemma {:induction false} OneIfTold(us: seq<User>, vs: seq<User>, peers: Peers)
    requires Ordered(us, peers) && Ordered(vs, peers) && AddressTellsPeer(peers)
    ensures Alike(us, vs, peers)
    decreases |us|
  {
    if us == [] {
      SameLength(us, vs, peers);
    } else {
      var ws := Matched(us, vs, peers);
      FrontsTold(us, ws, peers);
      AlikeFromFronts(us, ws, peers);
      AlikeTransitive(us, ws, vs, peers);
    }
  }

  lemma FewerTold(peers: Peers, u: User)
    requires AddressTellsPeer(peers)
    ensures AddressTellsPeer(peers - {u})
  {
  }

  /** The same of the orders without their common last user. */
  lemma {:induction false} FrontsTold(us: seq<User>, ws: seq<User>, peers: Peers)
    requires Ordered(us, peers) && Ordered(ws, peers) && AddressTellsPeer(peers)
    requires us != [] && |us| == |ws| && us[|us| - 1] == ws[|us| - 1]
    ensures var fewer := peers - {us[|us| - 1]};
      Known(us[..|us| - 1], fewer) && Known(ws[..|us| - 1], fewer) && Alike(us[..|us| - 1], ws[..|us| - 1], fewer)
    decreases |us|, 0
  {
    ShorterOrdered(us, peers);
    ShorterOrdered(ws, peers);
    FewerTold(peers, us[|us| - 1]);
    OneIfTold(us[..|us| - 1], ws[..|us| - 1], peers - {us[|us| - 1]});
  }

  /** Every render lists the peers alike exactly when no two users share an address with different keys. */
  lemma OneArrangementIff(peers: Peers)
    ensures OneArrangement(peers) <==> AddressTellsPeer(peers)
  {
    if AddressTellsPeer(peers) {
      forall us, vs | Ordered(us, peers) && Ordered(vs, peers) ensures PeersOf(us, peers) == PeersOf(vs, peers) {
        OneIfTold(us, vs, peers);
      }
    } else {
      var u, v :| u in peers && v in peers && peers[u].ip == peers[v].ip && peers[u] != peers[v];
      OrderExists(peers);
      var us :| Ordered(us, peers);
      var i :| 0 <= i < |us| && us[i] == u;
      var j :| 0 <= j < |us| && us[j] == v;
      SwapOrdered(us, i, j, peers);
      var vs := us[i := v][j := u];
      assert PeersOf(us, peers)[i] != PeersOf(vs, peers)[i];
    }
  }
}
