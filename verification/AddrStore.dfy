/** Saving and reloading the address manager (src/addrman.h): what is written, what reading it back
    builds, and that the result is the same manager under new ids. */
module AddrStore {
  import opened FiniteSets
  import opened AddrTypes
  import opened AddrBook
  import opened AddrTables

  /** The saved fields of `CAddrInfo`. */
  datatype Saved = Saved(addr: Address, source: NetAddr, nLastSuccess: int, nAttempts: int)

  datatype AddrFile = AddrFile(
    nKey: seq<bv8>,
    nNew: int,
    nTried: int,
    nUBuckets: int,
    newInfos: seq<Saved>,
    triedInfos: seq<Saved>,
    buckets: seq<seq<int>>)

  /** A stream that can be read to its end: the entries and buckets that it counts are there. Of a negative number
      there are none. */
  predicate Readable(file: AddrFile) {
    && |file.newInfos| == Max0(file.nNew)
    && |file.triedInfos| == Max0(file.nTried)
    && |file.buckets| == Max0(file.nUBuckets) <= NEW_BUCKET_COUNT
  }

  function Save(p: Peer): Saved { Saved(p.addr, p.source, p.nLastSuccess, p.nAttempts) }

  /** The last-try time is not saved; reading sets it to 0. */
  function Restore(s: Saved): Peer { Peer(s.addr, s.source, s.nLastSuccess, 0, s.nAttempts) }

  // ------------------------------------------------------------------ writing

  /** The new entries in the order they are written; a file id is a position in it. */
  ghost function NewOrder(t: Tables): seq<int> { Ascending(NewIds(t.mapInfo)) }

  ghost function TriedOrder(t: Tables): seq<int> { Ascending(TriedIds(t.mapInfo)) }

  /** The first position of `id`; the length if there is none. */
  function IndexOf(q: seq<int>, id: int): (i: nat)
    ensures i <= |q|
    ensures id in q <==> i < |q|
    ensures i < |q| ==> q[i] == id
  {
    if q == [] then 0 else if q[0] == id then 0 else 1 + IndexOf(q[1..], id)
  }

  ghost function SavedOf(t: Tables, ids: seq<int>): (r: seq<Saved>)
    ensures |r| == |ids|
    ensures forall i :: 0 <= i < |ids| && ids[i] in t.mapInfo ==> r[i] == Save(t.mapInfo[ids[i]].peer)
  {
    var nobody := Saved(Address(NetAddr([]), 0, 0, 0), NetAddr([]), 0, 0);
    seq(|ids|, i requires 0 <= i < |ids| =>
      if ids[i] in t.mapInfo then Save(t.mapInfo[ids[i]].peer) else nobody)
  }

  ghost function Indices(q: seq<int>, ids: seq<int>): (r: seq<int>)
    ensures |r| == |ids|
    ensures forall i :: 0 <= i < |ids| ==> r[i] == IndexOf(q, ids[i])
  {
    seq(|ids|, i requires 0 <= i < |ids| => IndexOf(q, ids[i]))
  }

  /** What `Serialize` writes. */
  ghost function FileOf(h: Hasher, t: Tables): (file: AddrFile)
    ensures |file.newInfos| == |NewOrder(t)| && |file.triedInfos| == |TriedOrder(t)| && |file.buckets| == |t.vvNew|
    ensures file.nUBuckets == |t.vvNew| && file.nNew == t.nNew && file.nTried == t.nTried
  {
    AddrFile(h.nKey, t.nNew, t.nTried, |t.vvNew|,
             SavedOf(t, NewOrder(t)),
             SavedOf(t, TriedOrder(t)),
             seq(|t.vvNew|, b requires 0 <= b < |t.vvNew| => Indices(NewOrder(t), Ascending(t.vvNew[b]))))
  }

  /** The members of `q` that are in `keep`, in order. */
  ghost function Kept(q: seq<int>, keep: set<int>): seq<int> {
    if q == [] then []
    else Kept(q[..|q| - 1], keep) + if q[|q| - 1] in keep then [q[|q| - 1]] else []
  }

  lemma {:induction false} KeptMembers(q: seq<int>, keep: set<int>)
    ensures forall x :: x in Kept(q, keep) <==> x in q && x in keep
  {
    if q != [] {
      KeptMembers(q[..|q| - 1], keep);
      assert q == q[..|q| - 1] + [q[|q| - 1]];
    }
  }

  lemma {:induction false} KeptAscends(q: seq<int>, keep: set<int>)
    requires StrictlyAscending(q)
    ensures StrictlyAscending(Kept(q, keep))
  {
    if q != [] {
      var init := q[..|q| - 1];
      KeptAscends(init, keep);
      KeptMembers(init, keep);
      forall i | 0 <= i < |Kept(init, keep)| ensures Kept(init, keep)[i] < q[|q| - 1] {
        assert Kept(init, keep)[i] in Kept(init, keep);
        assert Kept(init, keep)[i] in init;
      }
    }
  }

  /** There is only one way to list a set in ascending order. */
  lemma {:induction false} AscendingUnique(q: seq<int>, r: seq<int>)
    requires StrictlyAscending(q) && StrictlyAscending(r)
    requires forall x :: x in q <==> x in r
    ensures q == r
  {
    assert q != [] ==> q[0] in q;
    assert r != [] ==> r[0] in r;
    if q != [] && r != [] {
      LastIsGreatest(q, r);
      LastIsGreatest(r, q);
      var q', r' := q[..|q| - 1], r[..|r| - 1];
      assert q == q' + [q[|q| - 1]] && r == r' + [r[|r| - 1]];
      forall x ensures x in q' <==> x in r' {
        if x in q' {
          var i :| 0 <= i < |q'| && q'[i] == x;
          assert x in q && x != r[|r| - 1];
        }
        if x in r' {
          var i :| 0 <= i < |r'| && r'[i] == x;
          assert x in r && x != q[|q| - 1];
        }
      }
      AscendingUnique(q', r');
    }
  }

  lemma LastIsGreatest(q: seq<int>, r: seq<int>)
    requires StrictlyAscending(q) && StrictlyAscending(r) && q != [] && r != []
    requires forall x :: x in q ==> x in r
    ensures q[|q| - 1] <= r[|r| - 1]
  {
    assert q[|q| - 1] in q;
    var i :| 0 <= i < |r| && r[i] == q[|q| - 1];
  }

  /** Walking all ids in order and keeping some lists those in order. */
  lemma KeptAscending(all: set<int>, keep: set<int>)
    requires keep <= all
    ensures Kept(Ascending(all), keep) == Ascending(keep)
  {
    KeptMembers(Ascending(all), keep);
    KeptAscends(Ascending(all), keep);
    AscendingUnique(Kept(Ascending(all), keep), Ascending(keep));
  }

  lemma {:induction false} KeptPrefix(q: seq<int>, keep: set<int>, n: nat)
    requires n <= |q|
    ensures |Kept(q[..n], keep)| <= |Kept(q, keep)|
    ensures Kept(q[..n], keep) == Kept(q, keep)[..|Kept(q[..n], keep)|]
  {
    if n == |q| {
      assert q[..n] == q;
    } else {
      KeptPrefix(q[..|q| - 1], keep, n);
      assert q[..|q| - 1][..n] == q[..n];
    }
  }

  lemma KeptAll(q: seq<int>, keep: set<int>, i: nat)
    requires i <= |q| && (i < |q| ==> |Kept(q[..i], keep)| == |Kept(q, keep)|)
    ensures Kept(q[..i], keep) == Kept(q, keep)
  {
    KeptPrefix(q, keep, i);
    assert i == |q| ==> q[..i] == q;
  }

  lemma WriteReady(h: Hasher, t: Tables)
    requires Consistent(h, t)
    ensures Kept(Ascending(t.mapInfo.Keys), NewIds(t.mapInfo)) == NewOrder(t) && |NewOrder(t)| == t.nNew
    ensures Kept(Ascending(t.mapInfo.Keys), TriedIds(t.mapInfo)) == TriedOrder(t) && |TriedOrder(t)| == t.nTried
    ensures forall id :: id in t.mapInfo ==> (t.mapInfo[id].nRefCount != 0 <==> id in NewIds(t.mapInfo))
    ensures forall id :: id in t.mapInfo ==> (t.mapInfo[id].fInTried <==> id in TriedIds(t.mapInfo))
  {
    KeptAscending(t.mapInfo.Keys, NewIds(t.mapInfo));
    KeptAscending(t.mapInfo.Keys, TriedIds(t.mapInfo));
    hide Kept, Ascending, IdsOk, AddrIndexOk, RandomOk, TriedOk, SizesOk, Buckets;
  }

  lemma IndexOfNumbered(q: seq<int>, m: map<int, int>, id: int)
    requires Numbers(m, q) && id in q
    ensures id in m && m[id] == IndexOf(q, id)
  {
  }

  /** The members of new bucket `b` are all numbered. */
  lemma BucketNumbered(h: Hasher, t: Tables, m: map<int, int>, b: nat)
    requires Consistent(h, t) && Numbers(m, NewOrder(t)) && b < |t.vvNew|
    ensures forall id :: id in t.vvNew[b] ==> id in m && m[id] == IndexOf(NewOrder(t), id)
  {
    forall id | id in t.vvNew[b] ensures id in m && m[id] == IndexOf(NewOrder(t), id) {
      assert id in t.mapInfo && !t.mapInfo[id].fInTried;
      assert id in NewIds(t.mapInfo);
      IndexOfNumbered(NewOrder(t), m, id);
    }
  }

  lemma NamesAreIndices(order: seq<int>, ids: set<int>, m: map<int, int>, indices: seq<int>)
    requires forall id :: id in ids ==> id in m && m[id] == IndexOf(order, id)
    requires |indices| == |Ascending(ids)|
    requires forall j :: 0 <= j < |indices| ==> Ascending(ids)[j] in m && indices[j] == m[Ascending(ids)[j]]
    ensures indices == Indices(order, Ascending(ids))
  {
    var q := Ascending(ids);
    hide Ascending, Indices, IndexOf;
    forall j | 0 <= j < |q| ensures indices[j] == Indices(order, q)[j] {
      assert q[j] in q;
    }
  }

  lemma KeptNothing(keep: set<int>)
    ensures Kept([], keep) == [] && Numbers(map[], [])
    ensures forall t :: SavedOf(t, []) == []
  {
  }

  lemma KeptStep(q: seq<int>, keep: set<int>, i: nat)
    requires i < |q| && StrictlyAscending(q)
    ensures q[i] in keep ==> Kept(q[..i + 1], keep) == Kept(q[..i], keep) + [q[i]]
    ensures q[i] !in keep ==> Kept(q[..i + 1], keep) == Kept(q[..i], keep)
    ensures q[i] !in Kept(q[..i], keep)
  {
    assert q[..i + 1][..i] == q[..i];
    KeptMembers(q[..i], keep);
  }

  /** `m` gives every member of `q` its position. */
  ghost predicate Numbers(m: map<int, int>, q: seq<int>) {
    forall i :: 0 <= i < |q| ==> q[i] in m && m[q[i]] == i
  }

  lemma NumbersStep(m: map<int, int>, q: seq<int>, id: int)
    requires Numbers(m, q) && id !in q
    ensures Numbers(m[id := |q|], q) && Numbers(m[id := |q|], q + [id])
  {
  }

  lemma SavedStep(t: Tables, q: seq<int>, id: int)
    requires id in t.mapInfo
    ensures SavedOf(t, q + [id]) == SavedOf(t, q) + [Save(t.mapInfo[id].peer)]
  {
  }

  // ------------------------------------------------------------------ reading

  /** The entry that `mapInfo[nIndex]` creates when the index is unknown. */
  const NoAddr := NetAddr([0, 0, 0, 0, 0, 0, 0, 0, 0, 0, 0, 0, 0, 0, 0, 0])
  const UnknownInfo := Info(Peer(Address(NoAddr, 0, 1, 100000000), NoAddr, 0, 0, 0), 0, false, -1)

  /** The peer behind an id, for any id. */
  ghost function PeerOf(t: Tables, id: int): Peer {
    if id in t.mapInfo then t.mapInfo[id].peer else UnknownInfo.peer
  }

  predicate Native(file: AddrFile) { file.nUBuckets == NEW_BUCKET_COUNT }

  function ReadNew(h: Hasher, t: Tables, native: bool, s: Saved): Tables
    requires |t.vvNew| == NEW_BUCKET_COUNT
  {
    var id := t.nIdCount;
    var b := GetNewBucket(h, s.addr.net, s.source);
    t.(nIdCount := id + 1,
       mapInfo := t.mapInfo[id := Info(Restore(s), if native then 0 else 1, false, |t.vRandom|)],
       mapAddr := t.mapAddr[s.addr.net := id],
       vRandom := t.vRandom + [id],
       vvNew := if native then t.vvNew else t.vvNew[b := t.vvNew[b] + {id}])
  }

  function ReadTried(h: Hasher, t: Tables, s: Saved): Tables
    requires |t.vvTried| == TRIED_BUCKET_COUNT
  {
    var id := t.nIdCount;
    var k := GetTriedBucket(h, s.addr.net, s.addr.port);
    if |t.vvTried[k]| < TRIED_BUCKET_SIZE then
      t.(nIdCount := id + 1,
         mapInfo := t.mapInfo[id := Info(Restore(s), 0, true, |t.vRandom|)],
         mapAddr := t.mapAddr[s.addr.net := id],
         vRandom := t.vRandom + [id],
         vvTried := t.vvTried[k := t.vvTried[k] + [id]])
    else t.(nTried := t.nTried - 1)
  }

  function ReadIndex(t: Tables, native: bool, b: int, nIndex: int): Tables
    requires 0 <= b < |t.vvNew|
  {
    var known := if nIndex in t.mapInfo then t.mapInfo else t.mapInfo[nIndex := UnknownInfo];
    if native && known[nIndex].nRefCount < NEW_BUCKETS_PER_ADDRESS then
      t.(mapInfo := known[nIndex := known[nIndex].(nRefCount := known[nIndex].nRefCount + 1)],
         vvNew := t.vvNew[b := t.vvNew[b] + {nIndex}])
    else t.(mapInfo := known)
  }

  function Empty(file: AddrFile): Tables {
    Tables(0, map[], map[], [], file.nTried, seq(TRIED_BUCKET_COUNT, _ => []),
           file.nNew, seq(NEW_BUCKET_COUNT, _ => {}))
  }

  function AfterNew(h: Hasher, file: AddrFile, n: nat): (t: Tables)
    requires n <= |file.newInfos|
    ensures |t.vvTried| == TRIED_BUCKET_COUNT && |t.vvNew| == NEW_BUCKET_COUNT
    ensures t.nIdCount == n && t.nNew == file.nNew
  {
    if n == 0 then Empty(file) else ReadNew(h, AfterNew(h, file, n - 1), Native(file), file.newInfos[n - 1])
  }

  function AfterTried(h: Hasher, file: AddrFile, n: nat): (t: Tables)
    requires n <= |file.triedInfos|
    ensures |t.vvTried| == TRIED_BUCKET_COUNT && |t.vvNew| == NEW_BUCKET_COUNT
  {
    if n == 0 then AfterNew(h, file, |file.newInfos|).(nIdCount := file.nNew)
    else ReadTried(h, AfterTried(h, file, n - 1), file.triedInfos[n - 1])
  }

  function AfterIndices(t: Tables, native: bool, b: int, indices: seq<int>, n: nat): (r: Tables)
    requires 0 <= b < |t.vvNew| && n <= |indices|
    ensures |r.vvNew| == |t.vvNew|
  {
    if n == 0 then t else ReadIndex(AfterIndices(t, native, b, indices, n - 1), native, b, indices[n - 1])
  }

  function AfterBuckets(h: Hasher, file: AddrFile, n: nat): (t: Tables)
    requires n <= |file.buckets| <= NEW_BUCKET_COUNT
    ensures |t.vvNew| == NEW_BUCKET_COUNT
  {
    if n == 0 then AfterTried(h, file, |file.triedInfos|)
    else AfterIndices(AfterBuckets(h, file, n - 1), Native(file), n - 1, file.buckets[n - 1], |file.buckets[n - 1]|)
  }

  /** The tables that `Unserialize` builds. */
  function Loaded(h: Hasher, file: AddrFile): Tables
    requires Readable(file)
  {
    AfterBuckets(h, file, |file.buckets|)
  }

  // ------------------------------------------------------------------ the same manager under new ids

  /** `u` is `t` with id `order[j]` renamed to `j`, without the last-try times. */
  ghost predicate Renumbered(t: Tables, order: seq<int>, u: Tables) {
    && RenumberedInfos(t, order, u)
    && u.nTried == t.nTried && u.nNew == t.nNew
    && RenumberedTriedTable(t, order, u)
    && RenumberedNewTable(t, order, u)
  }

  ghost predicate RenumberedInfos(t: Tables, order: seq<int>, u: Tables) {
    && (forall i, j :: 0 <= i < j < |order| ==> order[i] != order[j])
    && (forall j :: 0 <= j < |order| ==> order[j] in t.mapInfo)
    && (forall id :: id in t.mapInfo ==> id in order)
    && u.nIdCount == |order|
    && (forall j :: j in u.mapInfo <==> 0 <= j < |order|)
    && (forall j :: 0 <= j < |order| ==>
          && u.mapInfo[j].peer == Restore(Save(t.mapInfo[order[j]].peer))
          && u.mapInfo[j].fInTried == t.mapInfo[order[j]].fInTried
          && u.mapInfo[j].nRefCount == t.mapInfo[order[j]].nRefCount
          && u.mapInfo[j].nRandomPos == j)
    && (forall a :: a in u.mapAddr ==> a in t.mapAddr)
    && (forall j :: 0 <= j < |order| ==>
          t.mapInfo[order[j]].peer.addr.net in u.mapAddr && u.mapAddr[t.mapInfo[order[j]].peer.addr.net] == j)
    && |u.vRandom| == |order| && (forall j :: 0 <= j < |order| ==> u.vRandom[j] == j)
  }

  ghost predicate RenumberedTriedTable(t: Tables, order: seq<int>, u: Tables) {
    && |u.vvTried| == |t.vvTried|
    && (forall k :: 0 <= k < |t.vvTried| ==> |u.vvTried[k]| == |t.vvTried[k]|)
    && (forall k, i, j :: 0 <= k < |u.vvTried| && 0 <= i < j < |u.vvTried[k]| ==> u.vvTried[k][i] != u.vvTried[k][j])
    && (forall k, i :: 0 <= k < |u.vvTried| && 0 <= i < |u.vvTried[k]| ==>
          0 <= u.vvTried[k][i] < |order| && order[u.vvTried[k][i]] in t.vvTried[k])
    && (forall k, j :: 0 <= k < |u.vvTried| && 0 <= j < |order| && order[j] in t.vvTried[k] ==> j in u.vvTried[k])
  }

  ghost predicate RenumberedNewTable(t: Tables, order: seq<int>, u: Tables) {
    && |u.vvNew| == |t.vvNew|
    && (forall b :: 0 <= b < |t.vvNew| ==> |u.vvNew[b]| == |t.vvNew[b]|)
    && (forall b, j :: 0 <= b < |u.vvNew| && j in u.vvNew[b] ==> 0 <= j < |order|)
    && (forall b, j :: 0 <= b < |u.vvNew| && 0 <= j < |order| ==> (j in u.vvNew[b] <==> order[j] in t.vvNew[b]))
  }

  lemma RenumberedIndexes(t: Tables, order: seq<int>, u: Tables)
    requires Renumbered(t, order, u) && AddrIndexOk(t)
    ensures IdsOk(u) && AddrIndexOk(u) && RandomOk(u)
    ensures u.mapAddr.Keys == t.mapAddr.Keys
  {
    assert IdsOk(u) && RandomOk(u);
    hide RandomOk, IdsOk;
    RenumberedAddresses(t, order, u);
  }

  lemma RenumberedAddresses(t: Tables, order: seq<int>, u: Tables)
    requires Renumbered(t, order, u) && AddrIndexOk(t)
    ensures AddrIndexOk(u) && u.mapAddr.Keys == t.mapAddr.Keys
  {
    forall a | a in t.mapAddr
      ensures a in u.mapAddr && 0 <= u.mapAddr[a] < |order| && order[u.mapAddr[a]] == t.mapAddr[a]
    {
      RenumberedAddress(t, order, u, a);
    }
    RenumberedPeers(t, order, u);
    hide Renumbered;
  }

  lemma RenumberedAddress(t: Tables, order: seq<int>, u: Tables, a: NetAddr)
    requires Renumbered(t, order, u) && AddrIndexOk(t) && a in t.mapAddr
    ensures a in u.mapAddr && 0 <= u.mapAddr[a] < |order| && order[u.mapAddr[a]] == t.mapAddr[a]
  {
    var id := t.mapAddr[a];
    assert id in t.mapInfo && id in order;
    var j :| 0 <= j < |order| && order[j] == id;
  }

  /** The part of the renumbering that the address index depends on. */
  lemma RenumberedPeers(t: Tables, order: seq<int>, u: Tables)
    requires Renumbered(t, order, u)
    ensures forall a :: a in u.mapAddr ==> a in t.mapAddr
    ensures forall j :: j in u.mapInfo <==> 0 <= j < |order|
    ensures forall j :: 0 <= j < |order| ==> order[j] in t.mapInfo
    ensures forall j :: 0 <= j < |order| ==> u.mapInfo[j].peer.addr.net == t.mapInfo[order[j]].peer.addr.net
    ensures forall j :: 0 <= j < |order| ==>
      t.mapInfo[order[j]].peer.addr.net in u.mapAddr && u.mapAddr[t.mapInfo[order[j]].peer.addr.net] == j
  {
  }

  lemma RenumberedTried(h: Hasher, t: Tables, order: seq<int>, u: Tables)
    requires Renumbered(t, order, u) && TriedOk(h, t)
    ensures TriedOk(h, u)
  {
    forall k, i | 0 <= k < |u.vvTried| && 0 <= i < |u.vvTried[k]|
      ensures u.vvTried[k][i] in u.mapInfo && u.mapInfo[u.vvTried[k][i]].fInTried
      ensures TriedHomeOf(h, u.mapInfo[u.vvTried[k][i]].peer) == k
    {
      var id := order[u.vvTried[k][i]];
      assert id in t.vvTried[k];
      var i' :| 0 <= i' < |t.vvTried[k]| && t.vvTried[k][i'] == id;
    }
    forall j | j in u.mapInfo && u.mapInfo[j].fInTried
      ensures j in u.vvTried[TriedHomeOf(h, u.mapInfo[j].peer)]
    {
      var id := order[j];
      assert 0 <= j < |order| && u.mapInfo[j].fInTried == t.mapInfo[id].fInTried;
      assert id in t.vvTried[TriedHomeOf(h, t.mapInfo[id].peer)];
    }
  }

  lemma RenumberedNew(t: Tables, order: seq<int>, u: Tables)
    requires Renumbered(t, order, u) && IdsOk(t) && NewOk(t, NOBODY)
    ensures NewOk(u, NOBODY)
    ensures forall j :: 0 <= j < |order| ==> Buckets(u.vvNew, j) == Buckets(t.vvNew, order[j])
  {
    forall j | 0 <= j < |order| ensures Buckets(u.vvNew, j) == Buckets(t.vvNew, order[j]) {
    }
    forall b, j | 0 <= b < |u.vvNew| && j in u.vvNew[b] ensures j in u.mapInfo && !u.mapInfo[j].fInTried {
      assert order[j] in t.vvNew[b] && 0 <= j < |order|;
    }
    hide Buckets;
    forall j | j in u.mapInfo
      ensures u.mapInfo[j].nRefCount == |Buckets(u.vvNew, j)| <= NEW_BUCKETS_PER_ADDRESS
      ensures u.mapInfo[j].fInTried <==> u.mapInfo[j].nRefCount == 0
    {
      var id := order[j];
      assert id in t.mapInfo && Buckets(u.vvNew, j) == Buckets(t.vvNew, id);
    }
  }

  lemma RenumberedCounters(t: Tables, order: seq<int>, u: Tables)
    requires Renumbered(t, order, u) && CountersOk(t)
    ensures CountersOk(u)
  {
    var oldId := map j | 0 <= j < |order| :: order[j];
    forall id | id in TriedIds(t.mapInfo) ensures exists j :: j in TriedIds(u.mapInfo) && oldId[j] == id {
      assert id in order;
      var j :| 0 <= j < |order| && order[j] == id;
      assert j in TriedIds(u.mapInfo) && oldId[j] == id;
    }
    forall id | id in NewIds(t.mapInfo) ensures exists j :: j in NewIds(u.mapInfo) && oldId[j] == id {
      assert id in order;
      var j :| 0 <= j < |order| && order[j] == id;
      assert j in NewIds(u.mapInfo) && oldId[j] == id;
    }
    ImageSize(TriedIds(u.mapInfo), TriedIds(t.mapInfo), oldId);
    ImageSize(NewIds(u.mapInfo), NewIds(t.mapInfo), oldId);
  }

  lemma RenumberedBook(h: Hasher, t: Tables, order: seq<int>, u: Tables)
    requires Renumbered(t, order, u) && AddrIndexOk(t) && AddrIndexOk(u)
    requires u.mapAddr.Keys == t.mapAddr.Keys
    requires forall j :: 0 <= j < |order| ==> Buckets(u.vvNew, j) == Buckets(t.vvNew, order[j])
    ensures BookOf(h, u) == Reloaded(BookOf(h, t))
  {
    hide Renumbered, PlaceOf, Buckets, AddrIndexOk;
    forall a | a in t.mapAddr
      ensures BookOf(h, u)[a] == Reloaded(BookOf(h, t))[a]
    {
      RenumberedEntry(h, t, order, u, a);
    }
  }

  /** One address of the renumbered manager. */
  lemma RenumberedEntry(h: Hasher, t: Tables, order: seq<int>, u: Tables, a: NetAddr)
    requires Renumbered(t, order, u) && AddrIndexOk(t) && AddrIndexOk(u) && a in t.mapAddr && a in u.mapAddr
    requires forall j :: 0 <= j < |order| ==> Buckets(u.vvNew, j) == Buckets(t.vvNew, order[j])
    ensures var id, j := t.mapAddr[a], u.mapAddr[a];
      && id in t.mapInfo && j in u.mapInfo
      && u.mapInfo[j].peer == Restore(Save(t.mapInfo[id].peer)) && PlaceOf(h, u, j) == PlaceOf(h, t, id)
  {
    hide Buckets;
    var id := t.mapAddr[a];
    assert id in t.mapInfo && id in order;
    var j :| 0 <= j < |order| && order[j] == id;
    assert u.mapAddr[a] == j;
  }

  lemma RenumberedSizes(t: Tables, order: seq<int>, u: Tables)
    requires Renumbered(t, order, u) && SizesOk(t)
    ensures SizesOk(u)
  {
  }

  /** A renumbered consistent manager is consistent and represents the same book, last tries forgotten. */
  lemma RenumberedAgrees(h: Hasher, t: Tables, order: seq<int>, u: Tables)
    requires Consistent(h, t) && Renumbered(t, order, u)
    ensures Consistent(h, u) && BookOf(h, u) == Reloaded(BookOf(h, t))
  {
    hide Renumbered, IdsOk, AddrIndexOk, RandomOk, TriedOk, NewOk, CountersOk, SizesOk, BookOf, Buckets;
    RenumberedIndexes(t, order, u);
    RenumberedTried(h, t, order, u);
    RenumberedNew(t, order, u);
    RenumberedCounters(t, order, u);
    RenumberedBook(h, t, order, u);
    RenumberedSizes(t, order, u);
  }
}
