/** Which entry a full bucket gives up, in terms of the tables and the random draws. */
module AddrVictims {
  import opened FiniteSets
  import opened AddrTypes
  import opened AddrBook
  import opened AddrTables
  import opened AddrOutcomes
  import opened TriedChoice

  // ---- a new bucket ----

  /** A member that the source calls terrible: not just tried, and not healthy. */
  ghost predicate Poor(t: Tables, id: int, nNow: int) {
    id in t.mapInfo && !JustTried(t.mapInfo[id].peer, nNow) && !Healthy(t.mapInfo[id].peer, nNow)
  }

  /** Position `i` of `n` is one of the four drawn. */
  ghost predicate AmongFour(rnd: nat -> nat, n: nat, i: nat)
    requires n > 0
  {
    i == rnd(0) % n || i == rnd(1) % n || i == rnd(2) % n || i == rnd(3) % n
  }

  ghost function Seen(t: Tables, id: int): int {
    if id in t.mapInfo then t.mapInfo[id].peer.addr.nTime else 0
  }

  /** The member of a full new bucket that leaves it: the first poor one in id order if there is one, otherwise, of the
      members at four drawn places in id order, the one seen longest ago, and of several such the first. */
  ghost predicate Leaves(t: Tables, b: int, nNow: int, rnd: nat -> nat, id: int)
    requires 0 <= b < |t.vvNew|
  {
    var members := t.vvNew[b];
    && id in members && id in t.mapInfo
    && if exists j :: j in members && Poor(t, j, nNow)
       then Poor(t, id, nNow) && forall j :: j in members && Poor(t, j, nNow) ==> id <= j
       else
         var ids := Ascending(members);
         exists i: nat :: i < |ids| && id == ids[i] && AmongFour(rnd, |ids|, i)
           && (forall j: nat :: j < |ids| && AmongFour(rnd, |ids|, j) ==> Seen(t, id) <= Seen(t, ids[j]))
           && (forall j: nat :: j < i && AmongFour(rnd, |ids|, j) ==> Seen(t, id) < Seen(t, ids[j]))
  }

  lemma PoorIff(t: Tables, b: int, id: int, nNow: int)
    requires 0 <= b < |t.vvNew|
    ensures TerribleMember(t, b, id, nNow) <==> id in t.vvNew[b] && Poor(t, id, nNow)
  {
    if id in t.mapInfo {
      TerribleIff(t.mapInfo[id].peer, nNow);
    }
  }

  lemma VictimLeaves(t: Tables, b: int, nNow: int, rnd: nat -> nat, id: int)
    requires 0 <= b < |t.vvNew| && forall id :: id in t.vvNew[b] ==> id in t.mapInfo
    requires ShrinkVictim(t, b, nNow, rnd, id)
    ensures Leaves(t, b, nNow, rnd, id)
  {
    hide Poor, TerribleMember, Ascending;
    forall j ensures TerribleMember(t, b, j, nNow) <==> j in t.vvNew[b] && Poor(t, j, nNow) {
      PoorIff(t, b, j, nNow);
    }
    if !exists j :: TerribleMember(t, b, j, nNow) {
      var ids := Ascending(t.vvNew[b]);
      var i :| OldestDrawn(t, ids, rnd, i, |t.vvNew[b]|) && id == ids[i];
      assert forall j: nat :: j < |ids| ==> (AmongFour(rnd, |ids|, j) <==> Drawn(rnd, |ids|, j));
      assert forall j :: SeenAt(t, j) == Seen(t, j);
    }
  }

  /** `v` is the address of the member that leaves bucket `b`, when that is full. */
  ghost predicate LetGo(t: Tables, b: int, nNow: int, rnd: nat -> nat, v: NetAddr) {
    && 0 <= b < |t.vvNew|
    && (|t.vvNew[b]| == 64 ==>
          exists id :: id in t.mapInfo && t.mapInfo[id].peer.addr.net == v && Leaves(t, b, nNow, rnd, id))
  }

  /** Only the members of the bucket matter. */
  lemma LeavesAlike(t: Tables, t': Tables, b: int, nNow: int, rnd: nat -> nat, id: int)
    requires 0 <= b < |t.vvNew| && 0 <= b < |t'.vvNew| && t.vvNew[b] == t'.vvNew[b]
    requires forall j :: j in t.vvNew[b] ==>
      j in t.mapInfo && j in t'.mapInfo && t.mapInfo[j].peer == t'.mapInfo[j].peer
    requires Leaves(t, b, nNow, rnd, id)
    ensures Leaves(t', b, nNow, rnd, id)
  {
    hide JustTried, Healthy, AmongFour, Ascending;
    var ids := Ascending(t.vvNew[b]);
    assert forall i :: 0 <= i < |ids| ==> ids[i] in t.vvNew[b];
    forall j | j in t.vvNew[b] ensures Poor(t, j, nNow) == Poor(t', j, nNow) && Seen(t, j) == Seen(t', j) {
    }
  }

  lemma LetGoAlike(t: Tables, t': Tables, b: int, nNow: int, rnd: nat -> nat, v: NetAddr)
    requires 0 <= b < |t.vvNew| && 0 <= b < |t'.vvNew| && t.vvNew[b] == t'.vvNew[b]
    requires forall j :: j in t.vvNew[b] ==>
      j in t.mapInfo && j in t'.mapInfo && t.mapInfo[j].peer == t'.mapInfo[j].peer
    requires LetGo(t, b, nNow, rnd, v)
    ensures LetGo(t', b, nNow, rnd, v)
  {
    hide Leaves;
    if |t.vvNew[b]| == 64 {
      var id :| id in t.mapInfo && t.mapInfo[id].peer.addr.net == v && Leaves(t, b, nNow, rnd, id);
      LeavesMember(t, b, nNow, rnd, id);
      LeavesAlike(t, t', b, nNow, rnd, id);
    }
  }

  lemma LeavesMember(t: Tables, b: int, nNow: int, rnd: nat -> nat, id: int)
    requires 0 <= b < |t.vvNew| && Leaves(t, b, nNow, rnd, id)
    ensures id in t.vvNew[b]
  {
    hide Poor, AmongFour;
  }

  /** The random order after an entry has left the manager, or not: its place goes to the last entry. */
  ghost predicate OrderAfter(q: seq<int>, q': seq<int>, id: int, left: bool) {
    if !left then q' == q
    else exists p: nat :: p < |q| && q[p] == id && q' == q[p := q[|q| - 1]][..|q| - 1]
  }

  lemma ListedOrder(t: Tables, b: int, id: int, victim: int)
    requires 0 <= b < |t.vvNew| && id in t.mapInfo && victim in t.mapInfo && RandomOk(t)
    requires t.mapInfo[victim].peer.addr.net in t.mapAddr
    ensures var u, v := Listed(t, b, id, victim), t.mapInfo[victim].peer.addr.net;
      u.nIdCount == t.nIdCount && OrderAfter(t.vRandom, u.vRandom, victim, v !in u.mapAddr)
  {
    if |t.vvNew[b]| == NEW_BUCKET_SIZE {
      LastPlace(t, victim);
      if t.mapInfo[victim].nRefCount == 1 {
        LeftOrder(t, b, victim);
      }
    }
  }

  lemma LeftOrder(t: Tables, b: int, id: int)
    requires 0 <= b < |t.vvNew| && id in t.mapInfo && RandomOk(t) && t.mapInfo[id].nRefCount == 1
    ensures 0 <= t.mapInfo[id].nRandomPos < |t.vRandom| && t.vRandom[t.mapInfo[id].nRandomPos] == id
    ensures t.vRandom[|t.vRandom| - 1] in t.mapInfo
    ensures var u := Unreferenced(t, b, id);
      && OrderAfter(t.vRandom, u.vRandom, id, true) && u.nIdCount == t.nIdCount
      && t.mapInfo[id].peer.addr.net !in u.mapAddr
  {
    LastPlace(t, id);
    var p, q := t.mapInfo[id].nRandomPos, t.vRandom;
    assert Unreferenced(t, b, id).vRandom == q[p := q[|q| - 1]][..|q| - 1];
  }

  // ---- a tried bucket ----

  /** `v` is the address of the entry that gives way in tried bucket `k`, when that is full: four entries are drawn and
      put in front, and the slot from which the one of the least recent success was drawn is replaced. */
  ghost predicate GivesWay(t: Tables, k: int, rnd: nat -> nat, v: NetAddr) {
    && 0 <= k < |t.vvTried|
    && (|t.vvTried[k]| == 64 ==>
          var q, lastSuccess := t.vvTried[k], map id | id in t.mapInfo :: t.mapInfo[id].peer.nLastSuccess;
          && AllKnown(q, lastSuccess)
          && var id := Shuffled(q, rnd, 4)[ChosenSlot(q, lastSuccess, rnd)];
             id in t.mapInfo && t.mapInfo[id].peer.addr.net == v)
  }

  /** The tried buckets after `Good_` has moved entry `id` to bucket `k`. */
  ghost predicate Sits(t: Tables, vvTried: seq<seq<int>>, k: int, rnd: nat -> nat, id: int) {
    && 0 <= k < |t.vvTried|
    && vvTried == t.vvTried[k := Seated(t, k, rnd, id)]
  }

  /** A tried bucket after `id` has entered it: behind the others, or in the slot of the one that gives way. */
  ghost function Seated(t: Tables, k: int, rnd: nat -> nat, id: int): seq<int>
    requires 0 <= k < |t.vvTried|
  {
    var q, lastSuccess := t.vvTried[k], map id | id in t.mapInfo :: t.mapInfo[id].peer.nLastSuccess;
    if |q| < 64 || !AllKnown(q, lastSuccess) then q + [id]
    else Shuffled(q, rnd, 4)[ChosenSlot(q, lastSuccess, rnd) := id]
  }

  lemma {:induction false} OldestDrawAlike(q: seq<int>, m: map<int, int>, m': map<int, int>, rnd: nat -> nat, n: nat)
    requires AllKnown(q, m) && AllKnown(q, m') && 0 < n <= |q|
    requires forall i :: 0 <= i < |q| ==> m[q[i]] == m'[q[i]]
    ensures OldestDraw(q, m, rnd, n) == OldestDraw(q, m', rnd, n)
  {
    hide DrawnFrom;
    if n > 1 {
      OldestDrawAlike(q, m, m', rnd, n - 1);
    }
  }

  /** Only the entries of the bucket matter. */
  lemma GivesWayAlike(t: Tables, t': Tables, k: int, rnd: nat -> nat, v: NetAddr)
    requires 0 <= k < |t.vvTried| && 0 <= k < |t'.vvTried| && t.vvTried[k] == t'.vvTried[k]
    requires forall i :: 0 <= i < |t.vvTried[k]| ==>
      var id := t.vvTried[k][i]; id in t.mapInfo && id in t'.mapInfo && t.mapInfo[id].peer == t'.mapInfo[id].peer
    requires GivesWay(t, k, rnd, v)
    ensures GivesWay(t', k, rnd, v)
  {
    hide Shuffled, OldestDraw, Draw;
    if |t.vvTried[k]| == 64 {
      var q, m, m' := t.vvTried[k], LastSuccesses(t.mapInfo), LastSuccesses(t'.mapInfo);
      OldestDrawAlike(q, m, m', rnd, 4);
      var pos := ChosenSlot(q, m, rnd);
      assert pos == ChosenSlot(q, m', rnd);
      FromBucket(q, rnd, 4, pos);
    }
  }

  lemma SitsAlike(t: Tables, t': Tables, vvTried: seq<seq<int>>, k: int, rnd: nat -> nat, id: int)
    requires t.vvTried == t'.vvTried && 0 <= k < |t.vvTried|
    requires forall i :: 0 <= i < |t.vvTried[k]| ==>
      var id := t.vvTried[k][i]; id in t.mapInfo && id in t'.mapInfo && t.mapInfo[id].peer == t'.mapInfo[id].peer
    requires Sits(t, vvTried, k, rnd, id)
    ensures Sits(t', vvTried, k, rnd, id)
  {
    SeatedAlike(t, t', k, rnd, id);
  }

  lemma SeatedAlike(t: Tables, t': Tables, k: int, rnd: nat -> nat, id: int)
    requires 0 <= k < |t.vvTried| && 0 <= k < |t'.vvTried| && t.vvTried[k] == t'.vvTried[k]
    requires forall i :: 0 <= i < |t.vvTried[k]| ==>
      var id := t.vvTried[k][i]; id in t.mapInfo && id in t'.mapInfo && t.mapInfo[id].peer == t'.mapInfo[id].peer
    ensures Seated(t, k, rnd, id) == Seated(t', k, rnd, id)
  {
    hide Shuffled, OldestDraw, Draw;
    var q, m, m' := t.vvTried[k], LastSuccesses(t.mapInfo), LastSuccesses(t'.mapInfo);
    forall i | 0 <= i < |q| ensures q[i] in m && q[i] in m' && m[q[i]] == m'[q[i]] {
      assert t.vvTried[k][i] in t.mapInfo;
    }
    if |q| >= 64 && AllKnown(q, m) {
      OldestDrawAlike(q, m, m', rnd, 4);
    }
  }

  lemma FromBucket(q: seq<int>, rnd: nat -> nat, n: nat, pos: nat)
    requires n <= |q| && pos < |q|
    ensures exists i :: 0 <= i < |q| && Shuffled(q, rnd, n)[pos] == q[i]
  {
    hide Shuffled;
    ShuffledPermutes(q, rnd, n);
    assert Shuffled(q, rnd, n)[pos] in multiset(q);
  }
}
