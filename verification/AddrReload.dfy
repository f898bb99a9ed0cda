/** Reading back a saved address manager rebuilds it under new ids. */
module AddrReload {
  import opened FiniteSets
  import opened AddrTypes
  import opened AddrBook
  import opened AddrTables
  import opened AddrStore

  /** Old ids in the order in which reading numbers them: the new entries, then the tried ones. */
  ghost function FileOrder(t: Tables): seq<int> {
    NewOrder(t) + TriedOrder(t)
  }

  /** What the order has to be for the entries to be read back. */
  ghost predicate GoodOrder(t: Tables, order: seq<int>, nNew: nat) {
    && nNew <= |order|
    && (forall i, j :: 0 <= i < j < |order| ==> order[i] != order[j])
    && (forall j :: 0 <= j < |order| ==> order[j] in t.mapInfo && (t.mapInfo[order[j]].fInTried <==> j >= nNew))
    && (forall id :: id in t.mapInfo ==> id in order)
  }

  lemma AscendingIn(s: set<int>)
    ensures forall i :: 0 <= i < |Ascending(s)| ==> Ascending(s)[i] in s
    ensures forall i, j :: 0 <= i < j < |Ascending(s)| ==> Ascending(s)[i] != Ascending(s)[j]
  {
    forall i | 0 <= i < |Ascending(s)| ensures Ascending(s)[i] in s {
      assert Ascending(s)[i] in Ascending(s);
    }
  }

  /** The two orders list the new and the tried ids, each once. */
  lemma OrdersHold(t: Tables)
    ensures var q, r := NewOrder(t), TriedOrder(t);
      && (forall i :: 0 <= i < |q| ==> q[i] in t.mapInfo && !t.mapInfo[q[i]].fInTried)
      && (forall i :: 0 <= i < |r| ==> r[i] in t.mapInfo && t.mapInfo[r[i]].fInTried)
      && (forall i, j :: 0 <= i < j < |q| ==> q[i] != q[j])
      && (forall i, j :: 0 <= i < j < |r| ==> r[i] != r[j])
      && (forall id :: id in t.mapInfo ==> id in q || id in r)
  {
    AscendingIn(NewIds(t.mapInfo));
    AscendingIn(TriedIds(t.mapInfo));
    forall id | id in t.mapInfo ensures id in NewOrder(t) || id in TriedOrder(t) {
      assert id in NewIds(t.mapInfo) || id in TriedIds(t.mapInfo);
    }
    hide Ascending;
  }

  lemma FileOrderIsGood(t: Tables)
    ensures GoodOrder(t, FileOrder(t), |NewOrder(t)|)
  {
    OrdersHold(t);
    var q, r := NewOrder(t), TriedOrder(t);
    hide NewOrder, TriedOrder;
    forall id | id in t.mapInfo ensures id in q + r {
      assert id in q || id in r;
    }
  }

  /** The first `m` entries have been read. */
  ghost predicate EntriesRead(h: Hasher, t: Tables, order: seq<int>, nNew: nat, u: Tables, m: nat)
    requires m <= |order|
  {
    && u.nIdCount == m && u.nTried == t.nTried && u.nNew == t.nNew
    && (forall j :: j in u.mapInfo <==> 0 <= j < m)
    && (forall j :: 0 <= j < m ==>
          u.mapInfo[j] == Info(Restore(Save(PeerOf(t, order[j]))), 0, j >= nNew, j))
    && (forall a :: a in u.mapAddr ==> a in t.mapAddr)
    && (forall j :: 0 <= j < m ==>
          PeerOf(t, order[j]).addr.net in u.mapAddr && u.mapAddr[PeerOf(t, order[j]).addr.net] == j)
    && |u.vRandom| == m && (forall j :: 0 <= j < m ==> u.vRandom[j] == j)
    && |u.vvNew| == NEW_BUCKET_COUNT && (forall b :: 0 <= b < |u.vvNew| ==> u.vvNew[b] == {})
    && TriedEntries(h, t, order, nNew, u, m)
  }

  /** The part of it that the tried table shows. */
  ghost predicate TriedEntries(h: Hasher, t: Tables, order: seq<int>, nNew: nat, u: Tables, m: nat)
    requires m <= |order|
  {
    && |u.vvTried| == TRIED_BUCKET_COUNT
    && (forall k, i :: 0 <= k < |u.vvTried| && 0 <= i < |u.vvTried[k]| ==>
          nNew <= u.vvTried[k][i] < m && TriedHomeOf(h, PeerOf(t, order[u.vvTried[k][i]])) == k)
    && (forall k, i, j :: 0 <= k < |u.vvTried| && 0 <= i < j < |u.vvTried[k]| ==> u.vvTried[k][i] != u.vvTried[k][j])
    && (forall j :: nNew <= j < m ==> j in u.vvTried[TriedHomeOf(h, PeerOf(t, order[j]))])
  }

  lemma OtherNets(t: Tables, order: seq<int>, nNew: nat, m: nat)
    requires AddrIndexOk(t) && GoodOrder(t, order, nNew) && m < |order|
    ensures PeerOf(t, order[m]).addr.net in t.mapAddr
    ensures forall j :: 0 <= j < m ==> PeerOf(t, order[j]).addr.net != PeerOf(t, order[m]).addr.net
  {
    forall j | 0 <= j <= m
      ensures PeerOf(t, order[j]).addr.net in t.mapAddr && t.mapAddr[PeerOf(t, order[j]).addr.net] == order[j]
    {
      var id := order[j];
      assert id in t.mapInfo;
    }
  }

  lemma ReadNewStep(h: Hasher, t: Tables, order: seq<int>, nNew: nat, u: Tables, m: nat)
    requires AddrIndexOk(t) && GoodOrder(t, order, nNew) && m < nNew
    requires EntriesRead(h, t, order, nNew, u, m)
    ensures EntriesRead(h, t, order, nNew, ReadNew(h, u, true, Save(PeerOf(t, order[m]))), m + 1)
  {
    OtherNets(t, order, nNew, m);
    hide AddrIndexOk;
  }

  lemma ReadTriedStep(h: Hasher, t: Tables, order: seq<int>, nNew: nat, u: Tables, m: nat)
    requires AddrIndexOk(t) && TriedOk(h, t) && SizesOk(t) && GoodOrder(t, order, nNew) && nNew <= m < |order|
    requires EntriesRead(h, t, order, nNew, u, m)
    ensures EntriesRead(h, t, order, nNew, ReadTried(h, u, Save(PeerOf(t, order[m]))), m + 1)
  {
    hide AddrIndexOk, TriedOk, SizesOk;
    OtherNets(t, order, nNew, m);
    RoomLeft(h, t, order, nNew, u, m, TriedHomeOf(h, PeerOf(t, order[m])));
    var k := TriedHomeOf(h, PeerOf(t, order[m]));
    var u' := ReadTried(h, u, Save(PeerOf(t, order[m])));
    assert |u.vvTried| == TRIED_BUCKET_COUNT;
    assert u'.vvTried == u.vvTried[k := u.vvTried[k] + [m]];
    ReadTriedBuckets(h, t, order, nNew, u, m, k);
    hide TriedEntries;
    SameTried(h, t, order, nNew, u.(vvTried := u'.vvTried), u', m + 1);
  }

  lemma SameTried(h: Hasher, t: Tables, order: seq<int>, nNew: nat, u: Tables, u': Tables, m: nat)
    requires m <= |order| && u'.vvTried == u.vvTried && TriedEntries(h, t, order, nNew, u, m)
    ensures TriedEntries(h, t, order, nNew, u', m)
  {
  }

  lemma ReadTriedBuckets(h: Hasher, t: Tables, order: seq<int>, nNew: nat, u: Tables, m: nat, k: int)
    requires nNew <= m < |order|
    requires TriedEntries(h, t, order, nNew, u, m) && k == TriedHomeOf(h, PeerOf(t, order[m]))
    ensures TriedEntries(h, t, order, nNew, u.(vvTried := u.vvTried[k := u.vvTried[k] + [m]]), m + 1)
  {
    hide PeerOf, Restore, Save, GetTriedBucket;
    var vv := u.vvTried[k := u.vvTried[k] + [m]];
    forall j | nNew <= j < m + 1 ensures j in vv[TriedHomeOf(h, PeerOf(t, order[j]))] {
      if j == m {
        assert vv[k][|u.vvTried[k]|] == m;
      } else {
        assert j in u.vvTried[TriedHomeOf(h, PeerOf(t, order[j]))];
      }
    }
  }

  /** Old ids of the entries of a tried bucket read so far. */
  ghost function OldIds(order: seq<int>, q: seq<int>): (r: seq<int>)
    requires forall i :: 0 <= i < |q| ==> 0 <= q[i] < |order|
    ensures |r| == |q| && forall i :: 0 <= i < |q| ==> r[i] == order[q[i]]
  {
    seq(|q|, i requires 0 <= i < |q| => order[q[i]])
  }

  lemma OldIdsTried(h: Hasher, t: Tables, order: seq<int>, nNew: nat, u: Tables, m: nat, k: int)
    requires TriedOk(h, t) && GoodOrder(t, order, nNew) && m <= |order| && 0 <= k < |t.vvTried|
    requires EntriesRead(h, t, order, nNew, u, m)
    ensures var r := OldIds(order, u.vvTried[k]);
      && (forall i, j :: 0 <= i < j < |r| ==> r[i] != r[j])
      && (forall i :: 0 <= i < |r| ==> r[i] in t.vvTried[k])
      && (forall i :: m <= i < |order| ==> order[i] !in r)
  {
    var r := OldIds(order, u.vvTried[k]);
    forall i | 0 <= i < |r| ensures r[i] in t.vvTried[k] {
      var id := order[u.vvTried[k][i]];
      assert id in t.mapInfo && t.mapInfo[id].fInTried && TriedHomeOf(h, t.mapInfo[id].peer) == k;
    }
  }

  /** Reading overfills no tried bucket: its entries came out of one bucket that fitted. */
  lemma RoomLeft(h: Hasher, t: Tables, order: seq<int>, nNew: nat, u: Tables, m: nat, k: int)
    requires TriedOk(h, t) && SizesOk(t) && GoodOrder(t, order, nNew) && nNew <= m < |order|
    requires EntriesRead(h, t, order, nNew, u, m) && k == TriedHomeOf(h, PeerOf(t, order[m]))
    ensures |u.vvTried[k]| < TRIED_BUCKET_SIZE
  {
    OldIdsTried(h, t, order, nNew, u, m, k);
    var id, r := order[m], OldIds(order, u.vvTried[k]);
    assert id in t.mapInfo && t.mapInfo[id].fInTried;
    assert id in t.vvTried[k] && id !in r;
    assert |t.vvTried[k]| <= TRIED_BUCKET_SIZE;
    assert forall i, j :: 0 <= i < j < |t.vvTried[k]| ==> t.vvTried[k][i] != t.vvTried[k][j];
    hide TriedOk, SizesOk, GoodOrder, EntriesRead;
    StrictlyInside(r, t.vvTried[k], id);
  }

  lemma StrictlyInside(r: seq<int>, q: seq<int>, extra: int)
    requires forall i, j :: 0 <= i < j < |r| ==> r[i] != r[j]
    requires forall i, j :: 0 <= i < j < |q| ==> q[i] != q[j]
    requires forall i :: 0 <= i < |r| ==> r[i] in q
    requires extra in q && extra !in r
    ensures |r| < |q|
  {
    var have, all := set x | x in r, set x | x in q;
    DistinctSize(r, have);
    DistinctSize(q, all);
    forall x | x in have ensures x in all - {extra} {
      var i :| 0 <= i < |r| && r[i] == x;
    }
    SubsetSize(have, all - {extra});
  }

  lemma NewEntryAt(h: Hasher, t: Tables, n: nat)
    requires |t.vvNew| == NEW_BUCKET_COUNT && n < |NewOrder(t)|
    ensures FileOrder(t)[n] == NewOrder(t)[n] && FileOrder(t)[n] in t.mapInfo
    ensures AfterNew(h, FileOf(h, t), n + 1)
            == ReadNew(h, AfterNew(h, FileOf(h, t), n), true, Save(PeerOf(t, FileOrder(t)[n])))
  {
    AscendingIn(NewIds(t.mapInfo));
    hide Ascending;
  }

  lemma TriedEntryAt(h: Hasher, t: Tables, n: nat)
    requires |t.vvNew| == NEW_BUCKET_COUNT && n < |TriedOrder(t)|
    ensures FileOrder(t)[|NewOrder(t)| + n] in t.mapInfo
    ensures AfterTried(h, FileOf(h, t), n + 1)
            == ReadTried(h, AfterTried(h, FileOf(h, t), n), Save(PeerOf(t, FileOrder(t)[|NewOrder(t)| + n])))
  {
    AscendingIn(TriedIds(t.mapInfo));
    hide Ascending;
  }

  lemma FileOrderSize(t: Tables)
    ensures |FileOrder(t)| == |NewOrder(t)| + |TriedOrder(t)|
  {
  }

  lemma NoEntriesRead(h: Hasher, t: Tables, file: AddrFile)
    requires GoodOrder(t, FileOrder(t), |NewOrder(t)|) && file.nNew == t.nNew && file.nTried == t.nTried
    ensures EntriesRead(h, t, FileOrder(t), |NewOrder(t)|, Empty(file), 0)
  {
    hide FileOrder, NewOrder, GoodOrder, PeerOf, Restore, Save;
  }

  lemma {:induction false} NewEntriesRead(h: Hasher, t: Tables, n: nat)
    requires AddrIndexOk(t) && |t.vvNew| == NEW_BUCKET_COUNT && n <= |NewOrder(t)|
    requires GoodOrder(t, FileOrder(t), |NewOrder(t)|)
    ensures EntriesRead(h, t, FileOrder(t), |NewOrder(t)|, AfterNew(h, FileOf(h, t), n), n)
  {
    hide AddrIndexOk, EntriesRead, GoodOrder, ReadNew, FileOrder, NewOrder, FileOf, Save, PeerOf;
    if n == 0 {
      NoEntriesRead(h, t, FileOf(h, t));
    } else {
      NewEntriesRead(h, t, n - 1);
      NewEntryAt(h, t, n - 1);
      FileOrderSize(t);
      ReadNewStep(h, t, FileOrder(t), |NewOrder(t)|, AfterNew(h, FileOf(h, t), n - 1), n - 1);
    }
  }

  lemma {:induction false} TriedEntriesRead(h: Hasher, t: Tables, n: nat)
    requires AddrIndexOk(t) && TriedOk(h, t) && SizesOk(t) && |t.vvNew| == NEW_BUCKET_COUNT
    requires n <= |TriedOrder(t)| && t.nNew == |NewOrder(t)|
    requires GoodOrder(t, FileOrder(t), |NewOrder(t)|)
    ensures EntriesRead(h, t, FileOrder(t), |NewOrder(t)|, AfterTried(h, FileOf(h, t), n), |NewOrder(t)| + n)
  {
    hide AddrIndexOk, TriedOk, SizesOk, EntriesRead, GoodOrder, ReadTried, NewOrder, TriedOrder, FileOf, Save, PeerOf;
    if n == 0 {
      NewEntriesRead(h, t, |NewOrder(t)|);
    } else {
      TriedEntriesRead(h, t, n - 1);
      TriedEntryAt(h, t, n - 1);
      FileOrderSize(t);
      ReadTriedStep(h, t, FileOrder(t), |NewOrder(t)|, AfterTried(h, FileOf(h, t), n - 1), |NewOrder(t)| + n - 1);
    }
  }

  // ------------------------------------------------------------------ the bucket lists

  ghost function Members(q: seq<int>): set<int> { set x | x in q }

  /** The old ids that bucket `c` has got back when reading is at entry `i` of bucket `b`. */
  ghost function Done(t: Tables, b: nat, i: nat, c: nat): set<int>
    requires c < |t.vvNew| && (b < |t.vvNew| ==> i <= |t.vvNew[b]|)
  {
    if c < b then t.vvNew[c] else if c == b then Members(Ascending(t.vvNew[b])[..i]) else {}
  }

  /** The new ids of a set of old ids. */
  ghost function NewNames(order: seq<int>, nNew: nat, ids: set<int>): set<int>
    requires nNew <= |order|
  {
    set j | 0 <= j < nNew && order[j] in ids
  }

  /** Reading is at entry `i` of bucket `b`; `base` is the state after all entries. */
  ghost predicate BucketsRead(t: Tables, order: seq<int>, nNew: nat, base: Tables, u: Tables, b: nat, i: nat) {
    && |u.vvNew| == |t.vvNew| && b <= |t.vvNew| && nNew <= |order|
    && (b < |t.vvNew| ==> i <= |t.vvNew[b]|)
    && u == base.(mapInfo := u.mapInfo, vvNew := u.vvNew)
    && (forall j :: j in u.mapInfo <==> 0 <= j < |order|)
    && (forall j :: j in base.mapInfo <==> 0 <= j < |order|)
    && (forall j :: 0 <= j < |order| ==>
          u.mapInfo[j] == base.mapInfo[j].(nRefCount := |Buckets(u.vvNew, j)|))
    && (forall c :: 0 <= c < |u.vvNew| ==> u.vvNew[c] == NewNames(order, nNew, Done(t, b, i, c)))
  }

  lemma PrefixOf(q: seq<int>, i: nat)
    requires i < |q|
    ensures Members(q[..i + 1]) == Members(q[..i]) + {q[i]}
  {
    assert q[..i + 1] == q[..i] + [q[i]];
  }

  lemma DoneElsewhere(t: Tables, b: nat, i: nat)
    requires b < |t.vvNew| && i < |t.vvNew[b]|
    ensures forall c :: 0 <= c < |t.vvNew| && c != b ==>
      Done(t, b, i + 1, c) == Done(t, b, i, c) && Done(t, b, i, c) <= t.vvNew[c]
  {
    hide Ascending;
  }

  lemma DoneStep(t: Tables, b: nat, i: nat, id: int)
    requires b < |t.vvNew| && i < |t.vvNew[b]| && id == Ascending(t.vvNew[b])[i]
    ensures id in t.vvNew[b] && id !in Done(t, b, i, b)
    ensures Done(t, b, i + 1, b) == Done(t, b, i, b) + {id}
    ensures forall c :: 0 <= c < |t.vvNew| && c != b ==> Done(t, b, i + 1, c) == Done(t, b, i, c)
    ensures forall c :: 0 <= c < |t.vvNew| ==> Done(t, b, i, c) <= t.vvNew[c]
  {
    AscendingIn(t.vvNew[b]);
    var q := Ascending(t.vvNew[b]);
    PrefixOf(q, i);
    DoneElsewhere(t, b, i);
    hide Ascending;
    assert Done(t, b, i, b) == Members(q[..i]) && Done(t, b, i + 1, b) == Members(q[..i + 1]);
    hide Done;
    forall x | x in q[..i] ensures x in t.vvNew[b] && x != id {
      var i' :| 0 <= i' < i && q[i'] == x;
    }
  }

  lemma DoneNext(t: Tables, b: nat)
    requires b < |t.vvNew|
    ensures forall c :: 0 <= c < |t.vvNew| ==> Done(t, b, |t.vvNew[b]|, c) == Done(t, b + 1, 0, c)
  {
    var q := Ascending(t.vvNew[b]);
    assert q[..|t.vvNew[b]|] == q;
    assert Members(q) == t.vvNew[b];
    hide Ascending;
  }

  lemma NamesGrow(order: seq<int>, nNew: nat, ids: set<int>, j: int)
    requires 0 <= j < nNew <= |order| && forall i, k :: 0 <= i < k < |order| ==> order[i] != order[k]
    ensures NewNames(order, nNew, ids + {order[j]}) == NewNames(order, nNew, ids) + {j}
    ensures j in NewNames(order, nNew, ids) <==> order[j] in ids
  {
  }

  lemma ReadIndexStep(t: Tables, order: seq<int>, nNew: nat, base: Tables, u: Tables, b: nat, i: nat, j: int)
    requires NewOk(t, NOBODY) && IdsOk(t) && GoodOrder(t, order, nNew)
    requires BucketsRead(t, order, nNew, base, u, b, i) && b < |t.vvNew| && i < |t.vvNew[b]|
    requires 0 <= j < nNew && order[j] == Ascending(t.vvNew[b])[i]
    ensures BucketsRead(t, order, nNew, base, ReadIndex(u, true, b, j), b, i + 1)
  {
    hide NewOk, IdsOk, Buckets, Done, NewNames, Ascending, ReadIndex;
    DoneStep(t, b, i, order[j]);
    NamesGrow(order, nNew, Done(t, b, i, b), j);
    RoomForReference(t, order, nNew, base, u, b, i, j);
    ReadIndexRefers(u, b, j);
    ReferencedBuckets(t, order, nNew, base, u, b, i, j);
    ReferencedCounts(t, order, nNew, base, u, b, i, j);
  }

  /** `j` enters bucket `b` and is counted once more. */
  ghost function Referenced(u: Tables, b: nat, j: int): Tables
    requires b < |u.vvNew| && j in u.mapInfo
  {
    EnterBucket(SetRefCount(u, j, u.mapInfo[j].nRefCount + 1), b, j)
  }

  lemma ReadIndexRefers(u: Tables, b: nat, j: int)
    requires b < |u.vvNew| && j in u.mapInfo && u.mapInfo[j].nRefCount < NEW_BUCKETS_PER_ADDRESS
    ensures ReadIndex(u, true, b, j) == Referenced(u, b, j)
  {
  }

  lemma ReferencedBuckets(t: Tables, order: seq<int>, nNew: nat, base: Tables, u: Tables, b: nat, i: nat, j: int)
    requires BucketsRead(t, order, nNew, base, u, b, i) && b < |t.vvNew| && i < |t.vvNew[b]| && 0 <= j < nNew
    requires Done(t, b, i + 1, b) == Done(t, b, i, b) + {order[j]}
    requires forall c :: 0 <= c < |t.vvNew| && c != b ==> Done(t, b, i + 1, c) == Done(t, b, i, c)
    requires NewNames(order, nNew, Done(t, b, i, b) + {order[j]}) == NewNames(order, nNew, Done(t, b, i, b)) + {j}
    ensures var u' := Referenced(u, b, j);
      forall c :: 0 <= c < |u'.vvNew| ==> u'.vvNew[c] == NewNames(order, nNew, Done(t, b, i + 1, c))
  {
    hide Buckets, Done, NewNames;
  }

  lemma ReferencedCounts(t: Tables, order: seq<int>, nNew: nat, base: Tables, u: Tables, b: nat, i: nat, j: int)
    requires BucketsRead(t, order, nNew, base, u, b, i) && b < |t.vvNew| && 0 <= j < nNew
    requires j !in u.vvNew[b]
    ensures var u' := Referenced(u, b, j);
      forall m :: 0 <= m < |order| ==> u'.mapInfo[m] == base.mapInfo[m].(nRefCount := |Buckets(u'.vvNew, m)|)
  {
    EnteredBuckets(u.vvNew, b, j);
    assert b !in Buckets(u.vvNew, j);
    hide Buckets, Done, NewNames;
  }

  lemma CountedBuckets(t: Tables, id: int)
    requires NewOk(t, NOBODY) && IdsOk(t) && id in t.mapInfo
    ensures |Buckets(t.vvNew, id)| <= NEW_BUCKETS_PER_ADDRESS
  {
  }

  /** The buckets read so far for an entry are among its old ones, without the one being read. */
  lemma FewerBuckets(t: Tables, order: seq<int>, nNew: nat, base: Tables, u: Tables, b: nat, i: nat, j: int)
    requires GoodOrder(t, order, nNew)
    requires BucketsRead(t, order, nNew, base, u, b, i) && b < |t.vvNew| && i < |t.vvNew[b]|
    requires 0 <= j < nNew && order[j] == Ascending(t.vvNew[b])[i]
    ensures order[j] in t.mapInfo && Buckets(u.vvNew, j) <= Buckets(t.vvNew, order[j]) - {b}
  {
    hide Done, Ascending;
    var id := order[j];
    DoneStep(t, b, i, id);
    assert id in t.mapInfo;
    forall c | c in Buckets(u.vvNew, j) ensures c in Buckets(t.vvNew, id) - {b} {
      BucketRead(t, order, nNew, base, u, b, i, j, c);
    }
    hide BucketsRead;
  }

  /** An entry in a bucket read so far has its old id among the members read. */
  lemma BucketRead(t: Tables, order: seq<int>, nNew: nat, base: Tables, u: Tables, b: nat, i: nat, j: int, c: int)
    requires BucketsRead(t, order, nNew, base, u, b, i) && 0 <= j < |order| && c in Buckets(u.vvNew, j)
    ensures 0 <= c < |t.vvNew| && order[j] in Done(t, b, i, c)
  {
    hide Done;
    assert j in u.vvNew[c] && u.vvNew[c] == NewNames(order, nNew, Done(t, b, i, c));
  }

  /** The limit of four buckets cuts nothing off. */
  lemma RoomForReference(t: Tables, order: seq<int>, nNew: nat, base: Tables, u: Tables, b: nat, i: nat, j: int)
    requires NewOk(t, NOBODY) && IdsOk(t) && GoodOrder(t, order, nNew)
    requires BucketsRead(t, order, nNew, base, u, b, i) && b < |t.vvNew| && i < |t.vvNew[b]|
    requires 0 <= j < nNew && order[j] == Ascending(t.vvNew[b])[i]
    ensures |Buckets(u.vvNew, j)| < NEW_BUCKETS_PER_ADDRESS
  {
    var id := order[j];
    DoneStep(t, b, i, id);
    FewerBuckets(t, order, nNew, base, u, b, i, j);
    CountedBuckets(t, id);
    hide NewOk, IdsOk, GoodOrder, BucketsRead, Done, NewNames;
    assert b in Buckets(t.vvNew, id);
    hide Buckets;
    SubsetSize(Buckets(u.vvNew, j), Buckets(t.vvNew, id) - {b});
  }

  lemma BucketsStart(h: Hasher, t: Tables, order: seq<int>, nNew: nat, base: Tables)
    requires EntriesRead(h, t, order, nNew, base, |order|) && |t.vvNew| == NEW_BUCKET_COUNT && nNew <= |order|
    ensures BucketsRead(t, order, nNew, base, base, 0, 0)
  {
    forall j ensures Buckets(base.vvNew, j) == {} {}
    assert forall c :: 0 <= c < |t.vvNew| ==> Done(t, 0, 0, c) == {};
    assert NewNames(order, nNew, {}) == {};
    hide Done, NewNames, Buckets;
  }

  lemma BucketsNext(t: Tables, order: seq<int>, nNew: nat, base: Tables, u: Tables, b: nat)
    requires b < |t.vvNew| && BucketsRead(t, order, nNew, base, u, b, |t.vvNew[b]|)
    ensures BucketsRead(t, order, nNew, base, u, b + 1, 0)
  {
    DoneNext(t, b);
    hide Done, NewNames, Buckets;
  }

  lemma BucketAt(h: Hasher, t: Tables, b: nat)
    requires b < |t.vvNew|
    ensures FileOf(h, t).buckets[b] == Indices(NewOrder(t), Ascending(t.vvNew[b]))
  {
  }

  lemma BucketMember(t: Tables, b: nat, id: int)
    requires NewOk(t, NOBODY) && b < |t.vvNew| && id in t.vvNew[b]
    ensures id in NewOrder(t)
  {
    hide Buckets;
    assert id in t.mapInfo && !t.mapInfo[id].fInTried;
    assert id in NewIds(t.mapInfo);
  }

  lemma BucketEntryAt(h: Hasher, t: Tables, b: nat, i: nat)
    requires NewOk(t, NOBODY) && b < |t.vvNew| && i < |t.vvNew[b]|
    ensures b < |FileOf(h, t).buckets| && i < |FileOf(h, t).buckets[b]|
    ensures var j := FileOf(h, t).buckets[b][i];
      0 <= j < |NewOrder(t)| && FileOrder(t)[j] == Ascending(t.vvNew[b])[i]
  {
    hide Ascending, NewOrder, TriedOrder, FileOf, NewOk, Indices, IndexOf;
    AscendingIn(t.vvNew[b]);
    BucketMember(t, b, Ascending(t.vvNew[b])[i]);
    BucketAt(h, t, b);
  }

  lemma BucketLength(h: Hasher, t: Tables, b: nat)
    requires b < |t.vvNew|
    ensures b < |FileOf(h, t).buckets| && |FileOf(h, t).buckets[b]| == |t.vvNew[b]|
  {
  }

  ghost predicate ReadyToLoad(h: Hasher, t: Tables) {
    && IdsOk(t) && NewOk(t, NOBODY)
    && GoodOrder(t, FileOrder(t), |NewOrder(t)|)
    && EntriesRead(h, t, FileOrder(t), |NewOrder(t)|, AfterTried(h, FileOf(h, t), |TriedOrder(t)|), |FileOrder(t)|)
  }

  lemma {:induction false} IndicesRead(h: Hasher, t: Tables, base: Tables, u: Tables, b: nat, n: nat)
    requires IdsOk(t) && NewOk(t, NOBODY) && GoodOrder(t, FileOrder(t), |NewOrder(t)|)
    requires b < |t.vvNew| && b < |FileOf(h, t).buckets| && n <= |FileOf(h, t).buckets[b]| == |t.vvNew[b]|
    requires BucketsRead(t, FileOrder(t), |NewOrder(t)|, base, u, b, 0)
    ensures BucketsRead(t, FileOrder(t), |NewOrder(t)|, base,
                        AfterIndices(u, true, b, FileOf(h, t).buckets[b], n), b, n)
  {
    hide IdsOk, NewOk, GoodOrder, FileOrder, NewOrder, FileOf, ReadIndex, Ascending;
    if n > 0 {
      IndicesRead(h, t, base, u, b, n - 1);
      BucketEntryAt(h, t, b, n - 1);
      var before := AfterIndices(u, true, b, FileOf(h, t).buckets[b], n - 1);
      hide BucketsRead;
      ReadIndexStep(t, FileOrder(t), |NewOrder(t)|, base, before, b, n - 1, FileOf(h, t).buckets[b][n - 1]);
    }
  }

  lemma {:induction false} BucketListsRead(h: Hasher, t: Tables, n: nat)
    requires ReadyToLoad(h, t) && n <= |FileOf(h, t).buckets| == |t.vvNew| == NEW_BUCKET_COUNT
    ensures BucketsRead(t, FileOrder(t), |NewOrder(t)|, AfterTried(h, FileOf(h, t), |TriedOrder(t)|),
                        AfterBuckets(h, FileOf(h, t), n), n, 0)
  {
    hide IdsOk, NewOk, GoodOrder, EntriesRead, FileOrder, NewOrder, TriedOrder, FileOf, AfterTried, AfterIndices,
        BucketsRead;
    var base := AfterTried(h, FileOf(h, t), |TriedOrder(t)|);
    FileOrderSize(t);
    if n == 0 {
      BucketsStart(h, t, FileOrder(t), |NewOrder(t)|, base);
    } else {
      BucketListsRead(h, t, n - 1);
      BucketLength(h, t, n - 1);
      var before := AfterBuckets(h, FileOf(h, t), n - 1);
      IndicesRead(h, t, base, before, n - 1, |t.vvNew[n - 1]|);
      BucketsNext(t, FileOrder(t), |NewOrder(t)|, base, AfterBuckets(h, FileOf(h, t), n), n - 1);
    }
  }

  // ------------------------------------------------------------------ the whole round trip

  lemma ReadBucketsMatch(t: Tables, order: seq<int>, nNew: nat, base: Tables, u: Tables)
    requires NewOk(t, NOBODY) && GoodOrder(t, order, nNew)
    requires BucketsRead(t, order, nNew, base, u, |t.vvNew|, 0)
    ensures forall b, j :: 0 <= b < |u.vvNew| && j in u.vvNew[b] ==> 0 <= j < |order|
    ensures forall b, j :: 0 <= b < |u.vvNew| && 0 <= j < |order| ==> (j in u.vvNew[b] <==> order[j] in t.vvNew[b])
    ensures forall b :: 0 <= b < |t.vvNew| ==> |u.vvNew[b]| == |t.vvNew[b]|
    ensures forall j :: 0 <= j < |order| ==> Buckets(u.vvNew, j) == Buckets(t.vvNew, order[j])
  {
    forall b | 0 <= b < |u.vvNew|
      ensures u.vvNew[b] == NewNames(order, nNew, t.vvNew[b]) && |u.vvNew[b]| == |t.vvNew[b]|
    {
      assert Done(t, |t.vvNew|, 0, b) == t.vvNew[b];
      NewNamesSize(t, order, nNew, b);
    }
    forall b, j | 0 <= b < |u.vvNew| && 0 <= j < |order|
      ensures j in u.vvNew[b] <==> order[j] in t.vvNew[b]
    {
      assert u.vvNew[b] == NewNames(order, nNew, t.vvNew[b]);
      if order[j] in t.vvNew[b] {
        assert order[j] in t.mapInfo && !t.mapInfo[order[j]].fInTried;
      }
    }
  }

  lemma NewNamesSize(t: Tables, order: seq<int>, nNew: nat, b: nat)
    requires NewOk(t, NOBODY) && GoodOrder(t, order, nNew) && b < |t.vvNew|
    ensures |NewNames(order, nNew, t.vvNew[b])| == |t.vvNew[b]|
  {
    var oldId := map j | 0 <= j < |order| :: order[j];
    forall id | id in t.vvNew[b] ensures exists j :: j in NewNames(order, nNew, t.vvNew[b]) && oldId[j] == id {
      assert id in t.mapInfo && !t.mapInfo[id].fInTried && id in order;
      var j :| 0 <= j < |order| && order[j] == id;
      assert j in NewNames(order, nNew, t.vvNew[b]) && oldId[j] == id;
    }
    ImageSize(NewNames(order, nNew, t.vvNew[b]), t.vvNew[b], oldId);
  }

  lemma ReadTriedMatch(h: Hasher, t: Tables, order: seq<int>, nNew: nat, u: Tables, k: nat)
    requires TriedOk(h, t) && GoodOrder(t, order, nNew) && k < |t.vvTried|
    requires EntriesRead(h, t, order, nNew, u, |order|)
    ensures |u.vvTried[k]| == |t.vvTried[k]|
    ensures forall i :: 0 <= i < |u.vvTried[k]| ==>
      0 <= u.vvTried[k][i] < |order| && order[u.vvTried[k][i]] in t.vvTried[k]
    ensures forall j :: 0 <= j < |order| && order[j] in t.vvTried[k] ==> j in u.vvTried[k]
  {
    OldIdsTried(h, t, order, nNew, u, |order|, k);
    var r := OldIds(order, u.vvTried[k]);
    forall i | 0 <= i < |u.vvTried[k]| ensures order[u.vvTried[k][i]] in t.vvTried[k] {
      assert r[i] in t.vvTried[k];
    }
    forall j | 0 <= j < |order| && order[j] in t.vvTried[k] ensures j in u.vvTried[k] {
      var i :| 0 <= i < |t.vvTried[k]| && t.vvTried[k][i] == order[j];
      var id := t.vvTried[k][i];
      assert id in t.mapInfo && t.mapInfo[id].fInTried && TriedHomeOf(h, t.mapInfo[id].peer) == k;
    }
    forall i | 0 <= i < |t.vvTried[k]| ensures t.vvTried[k][i] in r {
      var id := t.vvTried[k][i];
      assert id in t.mapInfo && id in order;
      var j :| 0 <= j < |order| && order[j] == id;
      assert j in u.vvTried[k];
      var i' :| 0 <= i' < |u.vvTried[k]| && u.vvTried[k][i'] == j;
      assert r[i'] == id;
    }
    var q := t.vvTried[k];
    assert forall i, j :: 0 <= i < j < |q| ==> q[i] != q[j];
    hide TriedOk, EntriesRead, GoodOrder;
    SameMembers(r, q);
  }

  lemma SameMembers(r: seq<int>, q: seq<int>)
    requires forall i, j :: 0 <= i < j < |r| ==> r[i] != r[j]
    requires forall i, j :: 0 <= i < j < |q| ==> q[i] != q[j]
    requires forall i :: 0 <= i < |r| ==> r[i] in q
    requires forall i :: 0 <= i < |q| ==> q[i] in r
    ensures |r| == |q|
  {
    var s := set x | x in r;
    forall x ensures x in s <==> x in q {
      if x in s { var i :| 0 <= i < |r| && r[i] == x; }
      if x in q { var i :| 0 <= i < |q| && q[i] == x; }
    }
    DistinctSize(r, s);
    DistinctSize(q, s);
  }

  lemma ReadRenumbers(h: Hasher, t: Tables, order: seq<int>, nNew: nat, base: Tables, u: Tables)
    requires Consistent(h, t) && GoodOrder(t, order, nNew)
    requires EntriesRead(h, t, order, nNew, base, |order|)
    requires BucketsRead(t, order, nNew, base, u, |t.vvNew|, 0)
    ensures Renumbered(t, order, u)
  {
    hide IdsOk, AddrIndexOk, RandomOk, TriedOk, NewOk, CountersOk, SizesOk, Buckets, NewNames, Done, GoodOrder;
    ReadBucketsMatch(t, order, nNew, base, u);
    TriedTableSize(h, t);
    ReadTriedTable(h, t, order, nNew, base);
    ReadEntriesMatch(h, t, order, nNew, base, u);
    ReadIndexesMatch(h, t, order, nNew, base);
    hide RenumberedTriedTable;
    assert RenumberedNewTable(t, order, u);
  }

  lemma ReadTriedTable(h: Hasher, t: Tables, order: seq<int>, nNew: nat, base: Tables)
    requires TriedOk(h, t) && GoodOrder(t, order, nNew) && EntriesRead(h, t, order, nNew, base, |order|)
    ensures RenumberedTriedTable(t, order, base)
  {
    assert |t.vvTried| == TRIED_BUCKET_COUNT;
    hide TriedOk, GoodOrder;
    forall k: nat | k < |t.vvTried|
      ensures |base.vvTried[k]| == |t.vvTried[k]|
      ensures forall i :: 0 <= i < |base.vvTried[k]| ==>
        0 <= base.vvTried[k][i] < |order| && order[base.vvTried[k][i]] in t.vvTried[k]
      ensures forall j :: 0 <= j < |order| && order[j] in t.vvTried[k] ==> j in base.vvTried[k]
    {
      ReadTriedMatch(h, t, order, nNew, base, k);
    }
  }

  /** The indexes by address and by random place, and the order of the ids. */
  lemma ReadIndexesMatch(h: Hasher, t: Tables, order: seq<int>, nNew: nat, base: Tables)
    requires GoodOrder(t, order, nNew) && EntriesRead(h, t, order, nNew, base, |order|)
    ensures forall i, j :: 0 <= i < j < |order| ==> order[i] != order[j]
    ensures forall j :: 0 <= j < |order| ==> order[j] in t.mapInfo
    ensures forall id :: id in t.mapInfo ==> id in order
    ensures forall a :: a in base.mapAddr ==> a in t.mapAddr
    ensures forall j :: 0 <= j < |order| ==>
      t.mapInfo[order[j]].peer.addr.net in base.mapAddr && base.mapAddr[t.mapInfo[order[j]].peer.addr.net] == j
  {
  }

  lemma TriedTableSize(h: Hasher, t: Tables)
    requires TriedOk(h, t) && NewOk(t, NOBODY)
    ensures |t.vvTried| == TRIED_BUCKET_COUNT && |t.vvNew| == NEW_BUCKET_COUNT
  {
  }

  lemma ReadEntriesMatch(h: Hasher, t: Tables, order: seq<int>, nNew: nat, base: Tables, u: Tables)
    requires IdsOk(t) && NewOk(t, NOBODY) && GoodOrder(t, order, nNew)
    requires EntriesRead(h, t, order, nNew, base, |order|)
    requires BucketsRead(t, order, nNew, base, u, |t.vvNew|, 0)
    requires forall j :: 0 <= j < |order| ==> Buckets(u.vvNew, j) == Buckets(t.vvNew, order[j])
    ensures forall j :: j in u.mapInfo <==> 0 <= j < |order|
    ensures forall j :: 0 <= j < |order| ==>
      && u.mapInfo[j].peer == Restore(Save(t.mapInfo[order[j]].peer))
      && u.mapInfo[j].fInTried == t.mapInfo[order[j]].fInTried
      && u.mapInfo[j].nRefCount == t.mapInfo[order[j]].nRefCount
      && u.mapInfo[j].nRandomPos == j
  {
    hide Buckets, NewNames, Done;
  }

  /** What `Unserialize` builds from what `Serialize` wrote is the same manager under new ids. */
  lemma LoadedRenumbers(h: Hasher, t: Tables)
    requires Consistent(h, t)
    ensures Readable(FileOf(h, t)) && Renumbered(t, FileOrder(t), Loaded(h, FileOf(h, t)))
  {
    FileOrderIsGood(t);
    FileOrderSize(t);
    hide IdsOk, AddrIndexOk, RandomOk, TriedOk, SizesOk, GoodOrder, EntriesRead, BucketsRead, FileOrder,
        AfterTried, AfterBuckets, Renumbered, Ascending;
    TriedEntriesRead(h, t, |TriedOrder(t)|);
    BucketListsRead(h, t, |t.vvNew|);
    var base := AfterTried(h, FileOf(h, t), |TriedOrder(t)|);
    ReadRenumbers(h, t, FileOrder(t), |NewOrder(t)|, base, Loaded(h, FileOf(h, t)));
  }

  /** Saving and reloading keeps the manager consistent and its whole book, last tries apart. */
  lemma ReloadRoundTrip(h: Hasher, t: Tables)
    requires Consistent(h, t)
    ensures Readable(FileOf(h, t))
    ensures Consistent(h, Loaded(h, FileOf(h, t)))
    ensures BookOf(h, Loaded(h, FileOf(h, t))) == Reloaded(BookOf(h, t))
  {
    LoadedRenumbers(h, t);
    hide IdsOk, AddrIndexOk, RandomOk, TriedOk, NewOk, CountersOk, SizesOk, Renumbered, FileOf, Loaded;
    RenumberedAgrees(h, t, FileOrder(t), Loaded(h, FileOf(h, t)));
  }
}
