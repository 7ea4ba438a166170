/**
 * `roomUpdate`'s snapshot: the room with its players listed, each choice
 * masked to "has voted" until the room is revealed, and ADMIN players moved to
 * the front (each is `unshift`ed while every other player is `push`ed).
 */
module Snapshots {
  import opened Rooms
  import opened GatewayTypes
  import JsMap

  /** One player as published: `{ ...player, choice }` with the choice raw only in REVEAL. */
  function Expose(status: RoomStatus, p: Player): SnapshotPlayer {
    SnapshotPlayer(p.id, p.name, p.canVote, if status == Reveal then p.choice else Flag(Truthy(p.choice)), p.role)
  }

  function ExposeAll(status: RoomStatus, ps: seq<Player>): (r: seq<SnapshotPlayer>)
    ensures |r| == |ps|
  {
    if ps == [] then [] else ExposeAll(status, ps[..|ps| - 1]) + [Expose(status, ps[|ps| - 1])]
  }

  /** The ADMIN players of `ps`, in order. */
  function AdminsOf(ps: seq<Player>): (r: seq<Player>)
    ensures forall x | x in r :: x in ps && x.role == Admin
  {
    if ps == [] then []
    else AdminsOf(ps[..|ps| - 1]) + (if ps[|ps| - 1].role == Admin then [ps[|ps| - 1]] else [])
  }

  /** The players of `ps` that are not ADMIN, in order. */
  function OthersOf(ps: seq<Player>): (r: seq<Player>)
    ensures forall x | x in r :: x in ps && x.role != Admin
  {
    if ps == [] then []
    else OthersOf(ps[..|ps| - 1]) + (if ps[|ps| - 1].role != Admin then [ps[|ps| - 1]] else [])
  }

  function Reversed<T>(s: seq<T>): seq<T> {
    if s == [] then [] else [s[|s| - 1]] + Reversed(s[..|s| - 1])
  }

  /**
   * What the for-of loop of `roomUpdate` builds: every `unshift`ed ADMIN ends
   * up in front, in reverse visiting order, followed by the `push`ed players
   * in visiting (insertion) order.
   */
  function SnapshotOf(room: GatewayRoom): RoomSnapshot {
    RoomSnapshot(room.id, room.status, Listed(room.status, JsMap.Values(room.players)))
  }

  /** The players list the loop builds from `ps`. */
  function Listed(status: RoomStatus, ps: seq<Player>): seq<SnapshotPlayer> {
    Reversed(ExposeAll(status, AdminsOf(ps))) + ExposeAll(status, OthersOf(ps))
  }

  lemma {:induction false} ReversedPermutes<T>(s: seq<T>)
    ensures multiset(Reversed(s)) == multiset(s)
  {
    if s != [] {
      ReversedPermutes(s[..|s| - 1]);
      assert s == s[..|s| - 1] + [s[|s| - 1]];
    }
  }

  lemma {:induction false} ExposeAllAt(status: RoomStatus, ps: seq<Player>, i: nat)
    requires i < |ps|
    ensures ExposeAll(status, ps)[i] == Expose(status, ps[i])
  {
    if i < |ps| - 1 {
      ExposeAllAt(status, ps[..|ps| - 1], i);
    }
  }

  lemma ExposeAllSnoc(status: RoomStatus, s: seq<Player>, x: Player)
    ensures multiset(ExposeAll(status, s + [x])) == multiset(ExposeAll(status, s)) + multiset{Expose(status, x)}
  {
    ExposeAllAppend(status, s, x);
  }

  lemma ExposeAllAppend(status: RoomStatus, s: seq<Player>, x: Player)
    ensures ExposeAll(status, s + [x]) == ExposeAll(status, s) + [Expose(status, x)]
  {
    assert (s + [x])[..|s|] == s;
  }

  lemma ReversedAppend<T>(s: seq<T>, x: T)
    ensures Reversed(s + [x]) == [x] + Reversed(s)
  {
    assert (s + [x])[..|s|] == s;
  }

  /** One turn of `roomUpdate`'s loop on an ADMIN: it is `unshift`ed. */
  lemma ListedAppendAdmin(status: RoomStatus, s: seq<Player>, x: Player)
    requires x.role == Admin
    ensures Listed(status, s + [x]) == [Expose(status, x)] + Listed(status, s)
  {
    var a, o := AdminsOf(s), OthersOf(s);
    assert (s + [x])[..|s|] == s;
    assert AdminsOf(s + [x]) == a + [x] && OthersOf(s + [x]) == o;
    var ea, eo, ex := ExposeAll(status, a), ExposeAll(status, o), Expose(status, x);
    ExposeAllAppend(status, a, x);
    ReversedAppend(ea, ex);
    var ra := Reversed(ea);
    calc {
      Listed(status, s + [x]);
      ([ex] + ra) + eo;
      { assert forall i | 0 <= i < 1 + |ra| + |eo| :: (([ex] + ra) + eo)[i] == ([ex] + (ra + eo))[i]; }
      [ex] + (ra + eo);
    }
  }

  /** One turn of `roomUpdate`'s loop on any other player: it is `push`ed. */
  lemma ListedAppendOther(status: RoomStatus, s: seq<Player>, x: Player)
    requires x.role != Admin
    ensures Listed(status, s + [x]) == Listed(status, s) + [Expose(status, x)]
  {
    var a, o := AdminsOf(s), OthersOf(s);
    assert (s + [x])[..|s|] == s;
    assert AdminsOf(s + [x]) == a && OthersOf(s + [x]) == o + [x];
    var eo, ex := ExposeAll(status, o), Expose(status, x);
    ExposeAllAppend(status, o, x);
    var ra := Reversed(ExposeAll(status, a));
    calc {
      Listed(status, s + [x]);
      ra + (eo + [ex]);
      { assert forall i | 0 <= i < |ra| + |eo| + 1 :: (ra + (eo + [ex]))[i] == ((ra + eo) + [ex])[i]; }
      (ra + eo) + [ex];
    }
  }

  /** One turn of `roomUpdate`'s loop, for the prefixes a loop over `ps` visits. */
  lemma ListedStep(status: RoomStatus, ps: seq<Player>, i: nat)
    requires i < |ps|
    ensures ps[i].role == Admin ==> Listed(status, ps[..i + 1]) == [Expose(status, ps[i])] + Listed(status, ps[..i])
    ensures ps[i].role != Admin ==> Listed(status, ps[..i + 1]) == Listed(status, ps[..i]) + [Expose(status, ps[i])]
  {
    assert ps[..i + 1] == ps[..i] + [ps[i]];
    if ps[i].role == Admin {
      ListedAppendAdmin(status, ps[..i], ps[i]);
    } else {
      ListedAppendOther(status, ps[..i], ps[i]);
    }
  }

  lemma {:induction false} SplitPermutes(status: RoomStatus, ps: seq<Player>)
    ensures multiset(ExposeAll(status, AdminsOf(ps))) + multiset(ExposeAll(status, OthersOf(ps)))
         == multiset(ExposeAll(status, ps))
  {
    if ps != [] {
      var init, last := ps[..|ps| - 1], ps[|ps| - 1];
      SplitPermutes(status, init);
      ExposeAllSnoc(status, init, last);
      var a, o := AdminsOf(init), OthersOf(init);
      var mi := multiset(ExposeAll(status, init));
      var ma, mo := multiset(ExposeAll(status, a)), multiset(ExposeAll(status, o));
      assert ma + mo == mi;
      var e := multiset{Expose(status, last)};
      assert multiset(ExposeAll(status, ps)) == mi + e;
      if last.role == Admin {
        assert AdminsOf(ps) == a + [last] && OthersOf(ps) == o;
        ExposeAllSnoc(status, a, last);
        assert multiset(ExposeAll(status, AdminsOf(ps))) == ma + e;
      } else {
        assert AdminsOf(ps) == a && OthersOf(ps) == o + [last];
        ExposeAllSnoc(status, o, last);
        assert multiset(ExposeAll(status, OthersOf(ps))) == mo + e;
      }
    }
  }

  /** The snapshot lists exactly the room's players: a permutation of them, each exposed. */
  lemma SnapshotIsPermutation(room: GatewayRoom)
    ensures multiset(SnapshotOf(room).players) == multiset(ExposeAll(room.status, JsMap.Values(room.players)))
    ensures |SnapshotOf(room).players| == JsMap.Size(room.players)
  {
    var st, ps := room.status, JsMap.Values(room.players);
    ReversedPermutes(ExposeAll(st, AdminsOf(ps)));
    SplitPermutes(st, ps);
    assert |multiset(SnapshotOf(room).players)| == |multiset(ExposeAll(st, ps))|;
  }

  /**
   * Vote visibility: every published entry is a seated player with its name,
   * eligibility and role, and its choice is the raw choice in REVEAL and only
   * the truthiness of the choice otherwise; every seated player is published.
   */
  lemma SnapshotPublishes(room: GatewayRoom)
    requires RoomWellFormed(room)
    ensures forall sp | sp in SnapshotOf(room).players ::
      && sp.id in room.players.data
      && sp.name == room.players.data[sp.id].name
      && sp.canVote == room.players.data[sp.id].canVote
      && sp.role == room.players.data[sp.id].role
      && sp.choice == (if room.status == Reveal then room.players.data[sp.id].choice
                       else Flag(Truthy(room.players.data[sp.id].choice)))
    ensures forall k | k in room.players.data :: Expose(room.status, room.players.data[k]) in SnapshotOf(room).players
  {
    var st, ps := room.status, JsMap.Values(room.players);
    var all := ExposeAll(st, ps);
    SnapshotIsPermutation(room);
    forall sp | sp in SnapshotOf(room).players
      ensures sp.id in room.players.data && sp == Expose(st, room.players.data[sp.id])
    {
      assert sp in multiset(all);
      var i :| 0 <= i < |all| && all[i] == sp;
      ExposeAllAt(st, ps, i);
      assert room.players.keys[i] in room.players.data;
    }
    forall k | k in room.players.data
      ensures Expose(st, room.players.data[k]) in SnapshotOf(room).players
    {
      var i := JsMap.KeyPosition(room.players, k);
      ExposeAllAt(st, ps, i);
      assert all[i] == Expose(st, room.players.data[k]);
      assert all[i] in multiset(SnapshotOf(room).players);
    }
  }

  lemma {:induction false} AdminsOfKeeps(ps: seq<Player>, i: nat)
    requires i < |ps| && ps[i].role == Admin
    ensures ps[i] in AdminsOf(ps)
  {
    if i < |ps| - 1 {
      AdminsOfKeeps(ps[..|ps| - 1], i);
    }
  }

  lemma {:induction false} NoAdmins(ps: seq<Player>)
    requires forall i | 0 <= i < |ps| :: ps[i].role != Admin
    ensures AdminsOf(ps) == []
  {
    if ps != [] {
      NoAdmins(ps[..|ps| - 1]);
    }
  }

  lemma {:induction false} AdminsAtMostOne(ps: seq<Player>)
    requires forall i, j | 0 <= i < j < |ps| :: !(ps[i].role == Admin && ps[j].role == Admin)
    ensures |AdminsOf(ps)| <= 1
  {
    if ps != [] {
      var init, last := ps[..|ps| - 1], ps[|ps| - 1];
      AdminsAtMostOne(init);
      if last.role == Admin {
        forall i | 0 <= i < |init| ensures init[i].role != Admin {
          assert init[i] == ps[i];
        }
        NoAdmins(init);
      }
    }
  }

  /**
   * In a well-formed room the snapshot lists the ADMIN first and then every
   * other player in insertion order; the ADMIN, when there is one, is entry 0.
   */
  lemma SnapshotAdminFirst(room: GatewayRoom)
    requires RoomWellFormed(room)
    ensures |AdminsOf(JsMap.Values(room.players))| <= 1
    ensures SnapshotOf(room).players
         == ExposeAll(room.status, AdminsOf(JsMap.Values(room.players)))
          + ExposeAll(room.status, OthersOf(JsMap.Values(room.players)))
    ensures forall k | IsAdminIn(room, k) ::
      |SnapshotOf(room).players| > 0 && SnapshotOf(room).players[0] == Expose(room.status, room.players.data[k])
  {
    var st, ps := room.status, JsMap.Values(room.players);
    forall i, j | 0 <= i < j < |ps| ensures !(ps[i].role == Admin && ps[j].role == Admin) {
      var ki, kj := room.players.keys[i], room.players.keys[j];
      assert ki != kj;
      if ps[i].role == Admin && ps[j].role == Admin {
        assert IsAdminIn(room, ki) && IsAdminIn(room, kj);
      }
    }
    AdminsAtMostOne(ps);
    var a := ExposeAll(st, AdminsOf(ps));
    assert |a| <= 1;
    if |a| == 1 {
      assert Reversed(a) == [a[0]] + Reversed(a[..0]);
    }
    assert Reversed(a) == a;
    assert SnapshotOf(room).players == Reversed(a) + ExposeAll(st, OthersOf(ps));
    forall k | IsAdminIn(room, k)
      ensures |SnapshotOf(room).players| > 0 && SnapshotOf(room).players[0] == Expose(st, room.players.data[k])
    {
      var i := JsMap.KeyPosition(room.players, k);
      AdminsOfKeeps(ps, i);
      assert AdminsOf(ps) == [ps[i]];
    }
  }
}
