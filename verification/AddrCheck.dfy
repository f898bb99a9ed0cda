/** `Check_`, the manager's own consistency check: what it establishes and what it leaves unchecked. */
module AddrCheck {
  import opened FiniteSets
  import opened AddrTypes
  import opened AddrBook
  import opened AddrTables
  import opened AddrBookSafety

  /** How often each id occurs in the tried buckets. */
  ghost function TriedBag(vvTried: seq<seq<int>>): multiset<int> {
    if vvTried == [] then multiset{} else TriedBag(vvTried[..|vvTried| - 1]) + multiset(vvTried[|vvTried| - 1])
  }

  /** How often each id occurs in the new buckets. */
  ghost function NewBag(vvNew: seq<set<int>>): multiset<int> {
    if vvNew == [] then multiset{} else NewBag(vvNew[..|vvNew| - 1]) + multiset(vvNew[|vvNew| - 1])
  }

  function CountIn(m: map<int, int>, id: int): int { if id in m then m[id] else 0 }

  /** `mapAddr[a]` as `operator[]` reads it. */
  function IdOf(m: map<NetAddr, int>, a: NetAddr): int { if a in m then m[a] else 0 }

  /** The tests of the first loop on one entry. */
  predicate InfoPasses(mapAddr: map<NetAddr, int>, vRandom: seq<int>, id: int, info: Info) {
    && (if info.fInTried then info.peer.nLastSuccess != 0 && info.nRefCount == 0
        else 1 <= info.nRefCount <= NEW_BUCKETS_PER_ADDRESS)
    && IdOf(mapAddr, info.peer.addr.net) == id
    && 0 <= info.nRandomPos < |vRandom| && vRandom[info.nRandomPos] == id
    && info.peer.nLastTry >= 0 && info.peer.nLastSuccess >= 0
  }

  /** Entries created with value 0 do not change what the tests read. */
  lemma SameIdOf(info: Info, m: map<NetAddr, int>, m': map<NetAddr, int>, vRandom: seq<int>, id: int)
    requires forall a :: IdOf(m', a) == IdOf(m, a)
    ensures InfoPasses(m', vRandom, id, info) == InfoPasses(m, vRandom, id, info)
  {
  }

  /** What the first loop has collected from the ids in `seen`. */
  ghost predicate Tallied(m: map<int, Info>, seen: set<int>, setTried: set<int>, mapNew: map<int, int>) {
    && seen <= m.Keys
    && (forall id :: id in setTried <==> id in seen && m[id].fInTried)
    && (forall id :: id in mapNew <==> id in seen && !m[id].fInTried)
    && (forall id :: id in mapNew ==> mapNew[id] == m[id].nRefCount)
  }

  lemma NothingTallied(m: map<int, Info>)
    ensures Tallied(m, {}, {}, map[])
  {
  }

  lemma TalliedStep(m: map<int, Info>, seen: set<int>, setTried: set<int>, mapNew: map<int, int>, id: int)
    requires Tallied(m, seen, setTried, mapNew) && id in m
    ensures m[id].fInTried ==> Tallied(m, seen + {id}, setTried + {id}, mapNew)
    ensures !m[id].fInTried ==> Tallied(m, seen + {id}, setTried, mapNew[id := m[id].nRefCount])
  {
  }

  lemma TalliedAll(m: map<int, Info>, seen: set<int>, setTried: set<int>, mapNew: map<int, int>)
    requires Tallied(m, seen, setTried, mapNew) && seen == m.Keys
    ensures setTried == TriedIds(m) && mapNew.Keys == NewIds(m) && |mapNew| == |NewIds(m)|
    ensures forall id :: CountIn(mapNew, id) == if id in NewIds(m) then m[id].nRefCount else 0
  {
    forall id ensures id in setTried <==> id in TriedIds(m) {}
    forall id ensures id in mapNew.Keys <==> id in NewIds(m) {}
    assert mapNew.Keys == NewIds(m);
  }

  /** What a return value of 0 means. */
  ghost predicate Checked(t: Tables) {
    && |t.vRandom| == t.nTried + t.nNew
    && (forall id :: id in t.mapInfo ==> InfoPasses(t.mapAddr, t.vRandom, id, t.mapInfo[id]))
    && |TriedIds(t.mapInfo)| == t.nTried
    && |NewIds(t.mapInfo)| == t.nNew
    && TriedBag(t.vvTried) == multiset(TriedIds(t.mapInfo))
    && forall id :: NewBag(t.vvNew)[id] == if id in NewIds(t.mapInfo) then t.mapInfo[id].nRefCount else 0
  }

  /** After the first loop, the rest of the check decides. */
  lemma CheckedRest(t: Tables, setTried: set<int>, mapNew: map<int, int>)
    requires |t.vRandom| == t.nTried + t.nNew
    requires forall id :: id in t.mapInfo ==> InfoPasses(t.mapAddr, t.vRandom, id, t.mapInfo[id])
    requires Tallied(t.mapInfo, t.mapInfo.Keys, setTried, mapNew)
    ensures Checked(t) <==>
      && |setTried| == t.nTried && |mapNew| == t.nNew
      && TriedBag(t.vvTried) == multiset(setTried)
      && forall id :: NewBag(t.vvNew)[id] == CountIn(mapNew, id)
    ensures forall id :: id in mapNew ==> mapNew[id] > 0
  {
    hide TriedBag, NewBag, CountIn, InfoPasses, Tallied;
    TalliedAll(t.mapInfo, t.mapInfo.Keys, setTried, mapNew);
    TalliedPositive(t, setTried, mapNew);
  }

  lemma TalliedPositive(t: Tables, setTried: set<int>, mapNew: map<int, int>)
    requires forall id :: id in t.mapInfo ==> InfoPasses(t.mapAddr, t.vRandom, id, t.mapInfo[id])
    requires Tallied(t.mapInfo, t.mapInfo.Keys, setTried, mapNew)
    ensures forall id :: id in mapNew ==> mapNew[id] > 0
  {
  }

  lemma {:induction false} TriedBagPrefix(vvTried: seq<seq<int>>, n: nat)
    requires n <= |vvTried|
    ensures TriedBag(vvTried[..n]) <= TriedBag(vvTried)
  {
    if n == |vvTried| {
      assert vvTried[..n] == vvTried;
    } else {
      TriedBagPrefix(vvTried[..|vvTried| - 1], n);
      assert vvTried[..|vvTried| - 1][..n] == vvTried[..n];
    }
  }

  lemma {:induction false} NewBagPrefix(vvNew: seq<set<int>>, n: nat)
    requires n <= |vvNew|
    ensures NewBag(vvNew[..n]) <= NewBag(vvNew)
  {
    if n == |vvNew| {
      assert vvNew[..n] == vvNew;
    } else {
      NewBagPrefix(vvNew[..|vvNew| - 1], n);
      assert vvNew[..|vvNew| - 1][..n] == vvNew[..n];
    }
  }

  lemma BagAt(vvTried: seq<seq<int>>, n: nat, i: nat)
    requires n < |vvTried| && i <= |vvTried[n]|
    ensures TriedBag(vvTried[..n + 1]) == TriedBag(vvTried[..n]) + multiset(vvTried[n])
    ensures TriedBag(vvTried[..n]) + multiset(vvTried[n][..i]) <= TriedBag(vvTried)
  {
    assert vvTried[..n + 1][..n] == vvTried[..n];
    assert vvTried[n] == vvTried[n][..i] + vvTried[n][i..];
    TriedBagPrefix(vvTried, n + 1);
  }

  /** The loop over the tried buckets: each slot must hold an id still expected. */
  method CheckTried(vvTried: seq<seq<int>>, ids: set<int>) returns (code: int, setTried: set<int>)
    ensures code == 0 && setTried == {} <==> TriedBag(vvTried) == multiset(ids)
  {
    hide TriedBag;
    setTried := ids;
    EmptyBag();
    assert vvTried[..0] == [];
    for n := 0 to |vvTried|
      invariant TriedBag(vvTried[..n]) + multiset(setTried) == multiset(ids)
    {
      BagAt(vvTried, n, |vvTried[n]|);
      code, setTried := CheckTriedBucket(vvTried[n], setTried, TriedBag(vvTried[..n]), ids);
      if code != 0 {
        assert vvTried[n][..|vvTried[n]|] == vvTried[n];
        return;
      }
    }
    assert vvTried[..|vvTried|] == vvTried;
    code := 0;
    EmptySetBag(setTried);
  }

  lemma EmptyBag()
    ensures TriedBag([]) == multiset{}
  {
  }

  lemma EmptySetBag(s: set<int>)
    ensures multiset(s) == multiset{} <==> s == {}
  {
    if s != {} {
      var id := Pick(s);
      assert multiset(s)[id] == 1;
    }
  }

  /** The inner loop over the slots of one tried bucket; `seen` are the ids of the buckets before it. */
  method CheckTriedBucket(vTried: seq<int>, setTried: set<int>, ghost seen: multiset<int>, ghost ids: set<int>)
    returns (code: int, left: set<int>)
    requires seen + multiset(setTried) == multiset(ids)
    ensures code == 0 ==> seen + multiset(vTried) + multiset(left) == multiset(ids)
    ensures code != 0 ==> !(seen + multiset(vTried) <= multiset(ids))
  {
    left := setTried;
    for i := 0 to |vTried|
      invariant seen + multiset(vTried[..i]) + multiset(left) == multiset(ids)
    {
      assert vTried[..i + 1] == vTried[..i] + [vTried[i]];
      if vTried[i] !in left {
        assert vTried == vTried[..i + 1] + vTried[i + 1..];
        assert multiset(vTried[..i + 1])[vTried[i]] == multiset(vTried[..i])[vTried[i]] + 1;
        assert (seen + multiset(vTried[..i]))[vTried[i]] == multiset(ids)[vTried[i]];
        return -11, left;
      }
      left := left - {vTried[i]};
    }
    assert vTried[..|vTried|] == vTried;
    code := 0;
  }

  lemma {:induction false} AscendingBag(s: set<int>)
    ensures multiset(Ascending(s)) == multiset(s)
  {
    if s == {} {
      assert Ascending(s) == [];
    } else {
      var m := Least(s);
      AscendingBag(s - {m});
      assert Ascending(s) == [m] + Ascending(s - {m});
      assert s == {m} + (s - {m});
    }
  }

  /** `mapNew` is what is left of `counts` after the ids of `seen`. */
  ghost predicate LeftOver(counts: map<int, int>, seen: multiset<int>, mapNew: map<int, int>) {
    && (forall id :: seen[id] + CountIn(mapNew, id) == CountIn(counts, id))
    && (forall id :: id in mapNew ==> mapNew[id] > 0)
  }

  lemma NewBagAt(vvNew: seq<set<int>>, n: nat)
    requires n < |vvNew|
    ensures NewBag(vvNew[..n + 1]) == NewBag(vvNew[..n]) + multiset(Ascending(vvNew[n]))
    ensures NewBag(vvNew[..n]) + multiset(Ascending(vvNew[n])) <= NewBag(vvNew)
  {
    assert vvNew[..n + 1][..n] == vvNew[..n];
    AscendingBag(vvNew[n]);
    NewBagPrefix(vvNew, n + 1);
    hide Ascending;
  }

  /** One id is counted down, and leaves the map at zero. */
  method CountDown(mapNew: map<int, int>, id: int, ghost counts: map<int, int>, ghost seen: multiset<int>)
    returns (mapNew': map<int, int>)
    requires LeftOver(counts, seen, mapNew) && id in mapNew
    ensures LeftOver(counts, seen + multiset{id}, mapNew')
  {
    mapNew' := mapNew[id := mapNew[id] - 1];
    if mapNew'[id] == 0 {
      mapNew' := mapNew' - {id};
    }
  }

  /** The inner loop over the ids of one new bucket. */
  method CheckNewBucket(ids: seq<int>, mapNew: map<int, int>, ghost counts: map<int, int>, ghost seen: multiset<int>)
    returns (code: int, mapNew': map<int, int>)
    requires LeftOver(counts, seen, mapNew)
    ensures code == 0 ==> LeftOver(counts, seen + multiset(ids), mapNew')
    ensures code != 0 ==> exists id :: (seen + multiset(ids))[id] > CountIn(counts, id)
  {
    mapNew' := mapNew;
    assert seen + multiset(ids[..0]) == seen;
    for i := 0 to |ids|
      invariant LeftOver(counts, seen + multiset(ids[..i]), mapNew')
    {
      ghost var now := seen + multiset(ids[..i]);
      assert ids[..i + 1] == ids[..i] + [ids[i]];
      assert seen + multiset(ids[..i + 1]) == now + multiset{ids[i]};
      if ids[i] !in mapNew' {
        assert ids == ids[..i + 1] + ids[i + 1..];
        assert (seen + multiset(ids))[ids[i]] >= (now + multiset{ids[i]})[ids[i]] > CountIn(counts, ids[i]);
        return -12, mapNew';
      }
      mapNew' := CountDown(mapNew', ids[i], counts, now);
    }
    assert ids[..|ids|] == ids;
    code := 0;
  }

  /** The loop over the new buckets: each occurrence must still be counted for. */
  method CheckNew(vvNew: seq<set<int>>, counts: map<int, int>) returns (code: int, mapNew: map<int, int>)
    requires forall id :: id in counts ==> counts[id] > 0
    ensures code == 0 && mapNew == map[] <==> forall id :: NewBag(vvNew)[id] == CountIn(counts, id)
  {
    mapNew := counts;
    for n := 0 to |vvNew|
      invariant LeftOver(counts, NewBag(vvNew[..n]), mapNew)
    {
      hide NewBag, Ascending;
      NewBagAt(vvNew, n);
      code, mapNew := CheckNewBucket(Ascending(vvNew[n]), mapNew, counts, NewBag(vvNew[..n]));
      if code != 0 {
        return;
      }
    }
    assert vvNew[..|vvNew|] == vvNew;
    code := 0;
    if mapNew != map[] {
      var id := Pick(mapNew.Keys);
      assert CountIn(mapNew, id) > 0;
    }
  }

  // ------------------------------------------------------------------ what the check means

  /** What `Check_` does not look at. */
  ghost predicate Unchecked(h: Hasher, t: Tables) {
    && IdsOk(t) && SizesOk(t)
    && |t.vvTried| == TRIED_BUCKET_COUNT && |t.vvNew| == NEW_BUCKET_COUNT
    && (forall id :: id in t.mapInfo ==> t.mapInfo[id].peer.addr.net in t.mapAddr)
    && (forall a :: a in t.mapAddr ==> t.mapAddr[a] in t.mapInfo && t.mapInfo[t.mapAddr[a]].peer.addr.net == a)
    && (forall k, i :: 0 <= k < |t.vvTried| && 0 <= i < |t.vvTried[k]| && t.vvTried[k][i] in t.mapInfo ==>
          TriedHomeOf(h, t.mapInfo[t.vvTried[k][i]].peer) == k)
  }

  /** What the times of single entries must satisfy. */
  ghost predicate InfoTimesOk(t: Tables) {
    forall id :: id in t.mapInfo ==>
      && t.mapInfo[id].peer.nLastTry >= 0 && t.mapInfo[id].peer.nLastSuccess >= 0
      && (t.mapInfo[id].fInTried ==> t.mapInfo[id].peer.nLastSuccess != 0)
  }

  lemma {:induction false} NewBagCounts(vvNew: seq<set<int>>, id: int)
    ensures NewBag(vvNew)[id] == |Buckets(vvNew, id)|
  {
    if vvNew == [] {
      assert Buckets(vvNew, id) == {};
    } else {
      var last, init := |vvNew| - 1, vvNew[..|vvNew| - 1];
      NewBagCounts(init, id);
      assert Buckets(vvNew, id) == Buckets(init, id) + if id in vvNew[last] then {last} else {};
      assert last !in Buckets(init, id);
    }
  }

  lemma {:induction false} DistinctCount(q: seq<int>, id: int)
    requires forall i, j :: 0 <= i < j < |q| ==> q[i] != q[j]
    ensures multiset(q)[id] == if id in q then 1 else 0
  {
    if q != [] {
      var init := q[..|q| - 1];
      DistinctCount(init, id);
      assert q == init + [q[|q| - 1]];
    }
  }

  lemma {:induction false} CountDistinct(q: seq<int>)
    requires forall id :: multiset(q)[id] <= 1
    ensures forall i, j :: 0 <= i < j < |q| ==> q[i] != q[j]
  {
    if q != [] {
      var init, last := q[..|q| - 1], q[|q| - 1];
      assert q == init + [last];
      forall id ensures multiset(init)[id] <= 1 {
        assert multiset(q)[id] >= multiset(init)[id];
      }
      CountDistinct(init);
      assert multiset(q)[last] == multiset(init)[last] + 1;
      assert last !in multiset(init);
    }
  }

  /** A tried id is counted by the bucket its address selects. */
  lemma {:induction false} TriedBagHome(h: Hasher, t: Tables, id: int, n: nat)
    requires TriedOk(h, t) && n <= |t.vvTried|
    ensures TriedBag(t.vvTried[..n])[id]
            == if id in TriedIds(t.mapInfo) && TriedHomeOf(h, t.mapInfo[id].peer) < n then 1 else 0
  {
    if n > 0 {
      TriedBagHome(h, t, id, n - 1);
      assert t.vvTried[..n][..n - 1] == t.vvTried[..n - 1];
      var q := t.vvTried[n - 1];
      assert forall i, j :: 0 <= i < j < |q| ==> q[i] != q[j];
      DistinctCount(q, id);
      TriedAtHome(h, t, id, n - 1);
      hide TriedOk, TriedIds, TriedHomeOf;
    }
  }

  lemma TriedAtHome(h: Hasher, t: Tables, id: int, k: nat)
    requires TriedOk(h, t) && k < |t.vvTried|
    ensures id in t.vvTried[k] <==> id in TriedIds(t.mapInfo) && TriedHomeOf(h, t.mapInfo[id].peer) == k
  {
    if id in t.vvTried[k] {
      var i :| 0 <= i < |t.vvTried[k]| && t.vvTried[k][i] == id;
    }
  }

  lemma {:induction false} TriedBagFinds(vvTried: seq<seq<int>>, id: int)
    requires TriedBag(vvTried)[id] > 0
    ensures exists k :: 0 <= k < |vvTried| && id in vvTried[k]
  {
    var last, init := |vvTried| - 1, vvTried[..|vvTried| - 1];
    if multiset(vvTried[last])[id] > 0 {
      assert id in vvTried[last];
    } else {
      TriedBagFinds(init, id);
      var k :| 0 <= k < |init| && id in init[k];
      assert id in vvTried[k];
    }
  }

  lemma TriedOkChecked(h: Hasher, t: Tables)
    requires TriedOk(h, t)
    ensures TriedBag(t.vvTried) == multiset(TriedIds(t.mapInfo))
  {
    assert t.vvTried[..|t.vvTried|] == t.vvTried;
    forall id ensures TriedBag(t.vvTried)[id] == multiset(TriedIds(t.mapInfo))[id] {
      TriedBagHome(h, t, id, |t.vvTried|);
    }
  }

  lemma CheckedTriedOk(h: Hasher, t: Tables)
    requires TriedBag(t.vvTried) == multiset(TriedIds(t.mapInfo)) && Unchecked(h, t)
    ensures TriedOk(h, t)
  {
    forall k | 0 <= k < |t.vvTried|
      ensures forall i :: 0 <= i < |t.vvTried[k]| ==> t.vvTried[k][i] in TriedIds(t.mapInfo)
      ensures forall i, j :: 0 <= i < j < |t.vvTried[k]| ==> t.vvTried[k][i] != t.vvTried[k][j]
    {
      var q := t.vvTried[k];
      BagAt(t.vvTried, k, |q|);
      assert q[..|q|] == q;
      assert multiset(q) <= TriedBag(t.vvTried);
      forall id ensures multiset(q)[id] <= 1 {
        assert multiset(TriedIds(t.mapInfo))[id] <= 1;
      }
      CountDistinct(q);
      forall i | 0 <= i < |q| ensures q[i] in TriedIds(t.mapInfo) {
        assert multiset(q)[q[i]] > 0;
        assert multiset(TriedIds(t.mapInfo))[q[i]] > 0;
      }
    }
    forall id | id in t.mapInfo && t.mapInfo[id].fInTried
      ensures id in t.vvTried[TriedHomeOf(h, t.mapInfo[id].peer)]
    {
      assert multiset(TriedIds(t.mapInfo))[id] == 1;
      TriedBagFinds(t.vvTried, id);
      var k :| 0 <= k < |t.vvTried| && id in t.vvTried[k];
      var i :| 0 <= i < |t.vvTried[k]| && t.vvTried[k][i] == id;
    }
  }

  /** Each id having its own place, all places are taken. */
  lemma PlacesTaken(t: Tables)
    requires |t.vRandom| == |t.mapInfo.Keys|
    requires forall id :: id in t.mapInfo ==>
      0 <= t.mapInfo[id].nRandomPos < |t.vRandom| && t.vRandom[t.mapInfo[id].nRandomPos] == id
    ensures RandomOk(t)
  {
    var placeOf := map id | id in t.mapInfo :: t.mapInfo[id].nRandomPos;
    var places, all := set id | id in t.mapInfo :: placeOf[id], Below(|t.vRandom|);
    ImageSize(t.mapInfo.Keys, places, placeOf);
    SubsetSize(places, all);
    forall i | 0 <= i < |t.vRandom| ensures t.vRandom[i] in t.mapInfo && t.mapInfo[t.vRandom[i]].nRandomPos == i {
      assert i in all && i in places;
    }
  }

  ghost function Below(n: nat): (r: set<int>)
    ensures |r| == n && forall i :: i in r <==> 0 <= i < n
  {
    if n == 0 then {} else Below(n - 1) + {n - 1}
  }

  lemma IdsSplit(t: Tables)
    ensures |t.mapInfo.Keys| == |TriedIds(t.mapInfo)| + |NewIds(t.mapInfo)|
  {
    assert t.mapInfo.Keys == TriedIds(t.mapInfo) + NewIds(t.mapInfo);
  }

  lemma ConsistentChecks(h: Hasher, t: Tables)
    requires Consistent(h, t) && InfoTimesOk(t)
    ensures Checked(t) && Unchecked(h, t)
  {
    hide IdsOk, AddrIndexOk, RandomOk, TriedOk, NewOk, SizesOk, TriedBag, NewBag, InfoPasses, BookOf, Unchecked,
      InfoTimesOk;
    BookSize(h, t);
    TriedOkChecked(h, t);
    NewOkChecked(t);
    InfosPass(h, t);
    NewTableSize(t);
    UncheckedHolds(h, t);
  }

  lemma NewTableSize(t: Tables)
    requires NewOk(t, NOBODY)
    ensures |t.vvNew| == NEW_BUCKET_COUNT
  {
  }

  lemma UncheckedHolds(h: Hasher, t: Tables)
    requires IdsOk(t) && AddrIndexOk(t) && TriedOk(h, t) && SizesOk(t) && |t.vvNew| == NEW_BUCKET_COUNT
    ensures Unchecked(h, t)
  {
  }

  lemma InfosPass(h: Hasher, t: Tables)
    requires Consistent(h, t) && InfoTimesOk(t)
    ensures forall id :: id in t.mapInfo ==> InfoPasses(t.mapAddr, t.vRandom, id, t.mapInfo[id])
  {
    hide TriedOk, CountersOk, SizesOk, Buckets;
  }

  lemma NewOkChecked(t: Tables)
    requires IdsOk(t) && NewOk(t, NOBODY)
    ensures forall id :: NewBag(t.vvNew)[id] == if id in NewIds(t.mapInfo) then t.mapInfo[id].nRefCount else 0
  {
    forall id ensures NewBag(t.vvNew)[id] == if id in NewIds(t.mapInfo) then t.mapInfo[id].nRefCount else 0 {
      NewBagCounts(t.vvNew, id);
      if id !in NewIds(t.mapInfo) { NotNewNowhere(t, id); }
    }
  }

  lemma NotNewNowhere(t: Tables, id: int)
    requires NewOk(t, NOBODY) && id !in NewIds(t.mapInfo)
    ensures Buckets(t.vvNew, id) == {}
  {
    forall b, j | 0 <= b < |t.vvNew| && j in t.vvNew[b] ensures j != id {
      assert j in t.mapInfo && !t.mapInfo[j].fInTried;
      assert j in NewIds(t.mapInfo);
    }
  }

  lemma CheckedConsistent(h: Hasher, t: Tables)
    requires Checked(t) && Unchecked(h, t)
    ensures Consistent(h, t) && InfoTimesOk(t)
  {
    CheckedIndexes(h, t);
    IdsSplit(t);
    assert IdsOk(t) && SizesOk(t) && CountersOk(t);
    PlacesTaken(t);
    CheckedTriedOk(h, t);
    CheckedNewOk(h, t);
    hide TriedBag, NewBag, Buckets, TriedOk, NewOk, Unchecked, Checked, IdsOk, AddrIndexOk, CountersOk, SizesOk,
        InfoTimesOk;
  }

  lemma CheckedIndexes(h: Hasher, t: Tables)
    requires Checked(t) && Unchecked(h, t)
    ensures AddrIndexOk(t) && InfoTimesOk(t)
    ensures forall id :: id in t.mapInfo ==>
      0 <= t.mapInfo[id].nRandomPos < |t.vRandom| && t.vRandom[t.mapInfo[id].nRandomPos] == id
  {
    hide TriedBag, NewBag;
  }

  lemma CheckedNewOk(h: Hasher, t: Tables)
    requires Checked(t) && Unchecked(h, t)
    ensures NewOk(t, NOBODY)
  {
    forall b, id | 0 <= b < |t.vvNew| && id in t.vvNew[b] ensures id in t.mapInfo && !t.mapInfo[id].fInTried {
      NewBagCounts(t.vvNew, id);
      assert b in Buckets(t.vvNew, id);
    }
    forall id | id in t.mapInfo ensures t.mapInfo[id].nRefCount == |Buckets(t.vvNew, id)| {
      NewBagCounts(t.vvNew, id);
    }
    hide Buckets, NewBag, TriedBag;
  }

  /** `Check_` returns 0 and nothing it overlooks is wrong, exactly when the tables agree and the times are sane. */
  lemma CheckComplete(h: Hasher, t: Tables)
    ensures Checked(t) && Unchecked(h, t) <==> Consistent(h, t) && InfoTimesOk(t)
  {
    if Checked(t) && Unchecked(h, t) { CheckedConsistent(h, t); }
    if Consistent(h, t) && InfoTimesOk(t) { ConsistentChecks(h, t); }
  }

  /** In terms of the book: in every state of every run with positive times, `Check_` finds nothing. */
  lemma BookChecks(h: Hasher, t: Tables)
    requires Consistent(h, t) && TimesOk(BookOf(h, t))
    ensures Checked(t)
  {
    forall id | id in t.mapInfo
      ensures t.mapInfo[id].peer.nLastTry >= 0 && t.mapInfo[id].peer.nLastSuccess >= 0
      ensures t.mapInfo[id].fInTried ==> t.mapInfo[id].peer.nLastSuccess != 0
    {
      EntryShown(h, t, id);
    }
    assert InfoTimesOk(t);
    hide Consistent, BookOf;
    ConsistentChecks(h, t);
  }
}
