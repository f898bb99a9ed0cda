/** The six tables of `CAddrMan` as one value, what it means for them to agree, and the book they represent. */
module AddrTables {
  import opened FiniteSets
  import opened AddrTypes
  import opened AddrBook

  datatype Tables = Tables(
    nIdCount: int,
    mapInfo: map<int, Info>,
    mapAddr: map<NetAddr, int>,
    vRandom: seq<int>,
    nTried: int,
    vvTried: seq<seq<int>>,
    nNew: int,
    vvNew: seq<set<int>>)

  const NOBODY := -1

  /** The new buckets that hold `id`. */
  ghost function Buckets(vvNew: seq<set<int>>, id: int): set<int> {
    set b | 0 <= b < |vvNew| && id in vvNew[b]
  }

  ghost function TriedIds(mapInfo: map<int, Info>): set<int> {
    set id | id in mapInfo && mapInfo[id].fInTried
  }

  ghost function NewIds(mapInfo: map<int, Info>): set<int> {
    set id | id in mapInfo && !mapInfo[id].fInTried
  }

  ghost predicate IdsOk(t: Tables) {
    && 0 <= t.nIdCount
    && forall id :: id in t.mapInfo ==> 0 <= id < t.nIdCount
  }

  /** `mapAddr` and `mapInfo` are inverse. */
  ghost predicate AddrIndexOk(t: Tables) {
    && (forall id :: id in t.mapInfo ==>
          t.mapInfo[id].peer.addr.net in t.mapAddr && t.mapAddr[t.mapInfo[id].peer.addr.net] == id)
    && (forall a :: a in t.mapAddr ==>
          t.mapAddr[a] in t.mapInfo && t.mapInfo[t.mapAddr[a]].peer.addr.net == a)
  }

  /** `vRandom` and `nRandomPos` are inverse. */
  ghost predicate RandomOk(t: Tables) {
    && (forall i :: 0 <= i < |t.vRandom| ==>
          t.vRandom[i] in t.mapInfo && t.mapInfo[t.vRandom[i]].nRandomPos == i)
    && (forall id :: id in t.mapInfo ==>
          0 <= t.mapInfo[id].nRandomPos < |t.vRandom| && t.vRandom[t.mapInfo[id].nRandomPos] == id)
  }

  /** Every tried id sits exactly once, in the bucket its address selects. */
  ghost predicate TriedOk(h: Hasher, t: Tables) {
    && |t.vvTried| == TRIED_BUCKET_COUNT
    && (forall k, i :: 0 <= k < |t.vvTried| && 0 <= i < |t.vvTried[k]| ==>
          && t.vvTried[k][i] in t.mapInfo
          && t.mapInfo[t.vvTried[k][i]].fInTried
          && TriedHomeOf(h, t.mapInfo[t.vvTried[k][i]].peer) == k)
    && (forall k, i, j :: 0 <= k < |t.vvTried| && 0 <= i < j < |t.vvTried[k]| ==> t.vvTried[k][i] != t.vvTried[k][j])
    && (forall id :: id in t.mapInfo && t.mapInfo[id].fInTried ==>
          id in t.vvTried[TriedHomeOf(h, t.mapInfo[id].peer)])
  }

  /** `nRefCount` counts the new buckets that hold the id; `pending` has been counted once too often already. */
  ghost predicate NewOk(t: Tables, pending: int) {
    && |t.vvNew| == NEW_BUCKET_COUNT
    && (forall b, id :: 0 <= b < |t.vvNew| && id in t.vvNew[b] ==> id in t.mapInfo && !t.mapInfo[id].fInTried)
    && (forall id :: id in t.mapInfo ==>
          && t.mapInfo[id].nRefCount == |Buckets(t.vvNew, id)| + (if id == pending then 1 else 0)
          && t.mapInfo[id].nRefCount <= NEW_BUCKETS_PER_ADDRESS
          && (t.mapInfo[id].fInTried <==> t.mapInfo[id].nRefCount == 0))
  }

  ghost predicate CountersOk(t: Tables) {
    && t.nTried == |TriedIds(t.mapInfo)|
    && t.nNew == |NewIds(t.mapInfo)|
  }

  ghost predicate SizesOk(t: Tables) {
    && (forall k :: 0 <= k < |t.vvTried| ==> |t.vvTried[k]| <= TRIED_BUCKET_SIZE)
    && (forall b :: 0 <= b < |t.vvNew| ==> |t.vvNew[b]| <= NEW_BUCKET_SIZE)
  }

  ghost predicate Agree(h: Hasher, t: Tables, pending: int) {
    && IdsOk(t) && AddrIndexOk(t) && RandomOk(t) && TriedOk(h, t) && NewOk(t, pending) && CountersOk(t) && SizesOk(t)
  }

  ghost predicate Consistent(h: Hasher, t: Tables) {
    Agree(h, t, NOBODY)
  }

  ghost function PlaceOf(h: Hasher, t: Tables, id: int): Place
    requires id in t.mapInfo
  {
    if t.mapInfo[id].fInTried then InTried(TriedHomeOf(h, t.mapInfo[id].peer))
    else InNew(Buckets(t.vvNew, id))
  }

  /** The book that the tables represent. */
  ghost function BookOf(h: Hasher, t: Tables): Book
    requires AddrIndexOk(t)
  {
    map a | a in t.mapAddr :: Entry(t.mapInfo[t.mapAddr[a]].peer, PlaceOf(h, t, t.mapAddr[a]))
  }

  /** What the tables say about an id is what the book says about its address. */
  lemma EntryShown(h: Hasher, t: Tables, id: int)
    requires Consistent(h, t) && id in t.mapInfo
    ensures var a, book := t.mapInfo[id].peer.addr.net, BookOf(h, t);
      && a in book && book[a] == Entry(t.mapInfo[id].peer, PlaceOf(h, t, id))
      && (book[a].place.InTried? <==> t.mapInfo[id].fInTried)
      && (book[a].place.InNew? ==>
            && |book[a].place.buckets| == t.mapInfo[id].nRefCount
            && forall b :: b in book[a].place.buckets <==> 0 <= b < |t.vvNew| && id in t.vvNew[b])
  {
  }

  // ------------------------------------------------------------------ steps on the tables

  function SetPeer(t: Tables, id: int, p: Peer): Tables
    requires id in t.mapInfo
  {
    t.(mapInfo := t.mapInfo[id := t.mapInfo[id].(peer := p)])
  }

  lemma SameIds(m: map<int, Info>, m': map<int, Info>)
    requires forall id :: id in m <==> id in m'
    requires forall id :: id in m ==> m'[id].fInTried == m[id].fInTried
    ensures TriedIds(m') == TriedIds(m) && NewIds(m') == NewIds(m)
  {
    forall id ensures id in NewIds(m') <==> id in NewIds(m) {}
    forall id ensures id in TriedIds(m') <==> id in TriedIds(m) {}
  }

  /** Nothing that the tried table depends on has changed. */
  lemma TriedFrame(h: Hasher, t: Tables, t': Tables)
    requires TriedOk(h, t) && t'.vvTried == t.vvTried
    requires forall id :: id in t.mapInfo && t.mapInfo[id].fInTried ==> id in t'.mapInfo && t'.mapInfo[id].fInTried
    requires forall id :: id in t'.mapInfo && t'.mapInfo[id].fInTried ==>
      && id in t.mapInfo && t.mapInfo[id].fInTried
      && t'.mapInfo[id].peer.addr.net == t.mapInfo[id].peer.addr.net
      && t'.mapInfo[id].peer.addr.port == t.mapInfo[id].peer.addr.port
    ensures TriedOk(h, t')
  {
    forall k, i | 0 <= k < |t'.vvTried| && 0 <= i < |t'.vvTried[k]|
      ensures t'.vvTried[k][i] in t'.mapInfo && t'.mapInfo[t'.vvTried[k][i]].fInTried
      ensures TriedHomeOf(h, t'.mapInfo[t'.vvTried[k][i]].peer) == k
    {
      var id := t.vvTried[k][i];
      assert id in t.mapInfo && t.mapInfo[id].fInTried && TriedHomeOf(h, t.mapInfo[id].peer) == k;
      assert id in t'.mapInfo && t'.mapInfo[id].fInTried;
    }
  }

  lemma SetPeerAgrees(h: Hasher, t: Tables, id: int, p: Peer)
    requires Consistent(h, t) && id in t.mapInfo
    requires p.addr.net == t.mapInfo[id].peer.addr.net && p.addr.port == t.mapInfo[id].peer.addr.port
    ensures Consistent(h, SetPeer(t, id, p))
    ensures BookOf(h, SetPeer(t, id, p)) == Touched(BookOf(h, t), p.addr.net, p)
  {
    var t' := SetPeer(t, id, p);
    SameIds(t.mapInfo, t'.mapInfo);
    TriedFrame(h, t, t');
    SetPeerIndexes(t, id, p);
    SetPeerBook(h, t, id, p);
    hide IdsOk, AddrIndexOk, RandomOk, TriedOk, NewOk, BookOf, Touched;
  }

  lemma SetPeerIndexes(t: Tables, id: int, p: Peer)
    requires IdsOk(t) && RandomOk(t) && NewOk(t, NOBODY) && SizesOk(t) && id in t.mapInfo
    ensures var t' := SetPeer(t, id, p); IdsOk(t') && RandomOk(t') && NewOk(t', NOBODY) && SizesOk(t')
  {
    hide Buckets;
  }

  lemma SetPeerBook(h: Hasher, t: Tables, id: int, p: Peer)
    requires AddrIndexOk(t) && id in t.mapInfo
    requires p.addr.net == t.mapInfo[id].peer.addr.net && p.addr.port == t.mapInfo[id].peer.addr.port
    ensures AddrIndexOk(SetPeer(t, id, p))
    ensures BookOf(h, SetPeer(t, id, p)) == Touched(BookOf(h, t), p.addr.net, p)
  {
  }

  // ------------------------------------------------------------------ the random order

  /** `SwapRandom`. */
  function Swapped(t: Tables, i: int, j: int): Tables
    requires 0 <= i < |t.vRandom| && 0 <= j < |t.vRandom|
    requires t.vRandom[i] in t.mapInfo && t.vRandom[j] in t.mapInfo
  {
    if i == j then t
    else
      var id1 := t.vRandom[i];
      var id2 := t.vRandom[j];
      var moved := t.mapInfo[id1 := t.mapInfo[id1].(nRandomPos := j)];
      t.(mapInfo := moved[id2 := moved[id2].(nRandomPos := i)], vRandom := t.vRandom[i := id2][j := id1])
  }

  /** `t'` differs from `t` in the random order only. */
  ghost predicate SameButRandom(t: Tables, t': Tables) {
    && t' == t.(mapInfo := t'.mapInfo, vRandom := t'.vRandom)
    && (forall id :: id in t'.mapInfo <==> id in t.mapInfo)
    && (forall id :: id in t.mapInfo ==>
          && t'.mapInfo[id].peer == t.mapInfo[id].peer
          && t'.mapInfo[id].nRefCount == t.mapInfo[id].nRefCount
          && t'.mapInfo[id].fInTried == t.mapInfo[id].fInTried)
  }

  lemma BookFrame(h: Hasher, t: Tables, t': Tables)
    requires SameButRandom(t, t') && AddrIndexOk(t)
    ensures AddrIndexOk(t') && BookOf(h, t') == BookOf(h, t)
  {
    assert t'.mapAddr == t.mapAddr && t'.vvNew == t.vvNew;
    forall a | a in t.mapAddr
      ensures t'.mapAddr[a] in t'.mapInfo && t'.mapInfo[t'.mapAddr[a]].peer == t.mapInfo[t.mapAddr[a]].peer
      ensures PlaceOf(h, t', t'.mapAddr[a]) == PlaceOf(h, t, t.mapAddr[a])
    {
      var id := t.mapAddr[a];
      assert id in t.mapInfo && id in t'.mapInfo && t'.mapAddr[a] == id;
    }
  }

  lemma NewFrame(t: Tables, t': Tables, pending: int)
    requires SameButRandom(t, t') && NewOk(t, pending)
    ensures NewOk(t', pending)
  {
    assert t'.vvNew == t.vvNew;
  }

  lemma RandomFrame(h: Hasher, t: Tables, t': Tables, pending: int)
    requires SameButRandom(t, t') && Agree(h, t, pending) && RandomOk(t')
    ensures Agree(h, t', pending) && BookOf(h, t') == BookOf(h, t)
  {
    SameIds(t.mapInfo, t'.mapInfo);
    assert IdsOk(t') && CountersOk(t') && SizesOk(t');
    BookFrame(h, t, t');
    NewFrame(t, t', pending);
    TriedFrame(h, t, t');
  }

  lemma SwappedKeeps(t: Tables, i: int, j: int)
    requires RandomOk(t) && 0 <= i < |t.vRandom| && 0 <= j < |t.vRandom|
    ensures RandomOk(Swapped(t, i, j)) && SameButRandom(t, Swapped(t, i, j))
    ensures Swapped(t, i, j).vRandom == t.vRandom[i := t.vRandom[j]][j := t.vRandom[i]]
    ensures multiset(Swapped(t, i, j).vRandom) == multiset(t.vRandom)
  {
    SwappedPermutes(t.vRandom, i, j);
    SwappedRandom(t, i, j);
    hide RandomOk;
  }

  lemma SwappedPermutes(q: seq<int>, i: int, j: int)
    requires 0 <= i < |q| && 0 <= j < |q|
    ensures multiset(q[i := q[j]][j := q[i]]) == multiset(q)
  {
  }

  lemma SwappedRandom(t: Tables, i: int, j: int)
    requires RandomOk(t) && 0 <= i < |t.vRandom| && 0 <= j < |t.vRandom|
    ensures RandomOk(Swapped(t, i, j))
  {
  }

  lemma SwappedAgrees(h: Hasher, t: Tables, i: int, j: int, pending: int)
    requires Agree(h, t, pending) && 0 <= i < |t.vRandom| && 0 <= j < |t.vRandom|
    ensures Agree(h, Swapped(t, i, j), pending)
    ensures BookOf(h, Swapped(t, i, j)) == BookOf(h, t)
  {
    SwappedKeeps(t, i, j);
    RandomFrame(h, t, Swapped(t, i, j), pending);
  }

  // ------------------------------------------------------------------ the new table

  /** `id`, already last in the random order, disappears from every index. */
  function Popped(t: Tables, id: int): Tables
    requires |t.vRandom| > 0 && id in t.mapInfo
  {
    t.(vRandom := t.vRandom[..|t.vRandom| - 1],
       mapAddr := t.mapAddr - {t.mapInfo[id].peer.addr.net},
       mapInfo := t.mapInfo - {id},
       nNew := t.nNew - 1)
  }

  function SetRefCount(t: Tables, id: int, n: int): Tables
    requires id in t.mapInfo
  {
    t.(mapInfo := t.mapInfo[id := t.mapInfo[id].(nRefCount := n)])
  }

  function LeaveBucket(t: Tables, b: int, id: int): Tables
    requires 0 <= b < |t.vvNew|
  {
    t.(vvNew := t.vvNew[b := t.vvNew[b] - {id}])
  }

  function EnterBucket(t: Tables, b: int, id: int): Tables
    requires 0 <= b < |t.vvNew|
  {
    t.(vvNew := t.vvNew[b := t.vvNew[b] + {id}])
  }

  lemma LeftBuckets(vvNew: seq<set<int>>, b: int, id: int)
    requires 0 <= b < |vvNew|
    ensures Buckets(vvNew[b := vvNew[b] - {id}], id) == Buckets(vvNew, id) - {b}
    ensures forall j :: j != id ==> Buckets(vvNew[b := vvNew[b] - {id}], j) == Buckets(vvNew, j)
  {
    var after := vvNew[b := vvNew[b] - {id}];
    forall j ensures Buckets(after, j) == if j == id then Buckets(vvNew, j) - {b} else Buckets(vvNew, j) {
      forall c ensures c in Buckets(after, j) <==> c in if j == id then Buckets(vvNew, j) - {b} else Buckets(vvNew,
          j) {}
    }
  }

  lemma EnteredBuckets(vvNew: seq<set<int>>, b: int, id: int)
    requires 0 <= b < |vvNew|
    ensures Buckets(vvNew[b := vvNew[b] + {id}], id) == Buckets(vvNew, id) + {b}
    ensures forall j :: j != id ==> Buckets(vvNew[b := vvNew[b] + {id}], j) == Buckets(vvNew, j)
  {
    var after := vvNew[b := vvNew[b] + {id}];
    forall j ensures Buckets(after, j) == if j == id then Buckets(vvNew, j) + {b} else Buckets(vvNew, j) {
      forall c
        ensures c in Buckets(after, j) <==> c in if j == id then Buckets(vvNew, j) + {b} else Buckets(vvNew, j)
      {
      }
    }
  }

  /** An id held by several new buckets leaves one of them. */
  function Unlisted(t: Tables, b: int, id: int): Tables
    requires 0 <= b < |t.vvNew| && id in t.mapInfo
  {
    LeaveBucket(SetRefCount(t, id, t.mapInfo[id].nRefCount - 1), b, id)
  }

  lemma UnlistedAgrees(h: Hasher, t: Tables, b: int, id: int, pending: int)
    requires Agree(h, t, pending) && 0 <= b < |t.vvNew| && id in t.vvNew[b] && id != pending
    requires t.mapInfo[id].nRefCount > 1
    ensures Agree(h, Unlisted(t, b, id), pending)
    ensures BookOf(h, Unlisted(t, b, id)) == Dropped(BookOf(h, t), t.mapInfo[id].peer.addr.net, b)
  {
    var t' := Unlisted(t, b, id);
    SameIds(t.mapInfo, t'.mapInfo);
    TriedFrame(h, t, t');
    UnlistedIndexes(t, b, id);
    SeveralBuckets(t, b, id, pending);
    UnlistedNew(t, b, id, pending);
    hide IdsOk, AddrIndexOk, RandomOk, TriedOk, NewOk, SizesOk, BookOf, Buckets;
    UnlistedBook(h, t, b, id);
  }

  lemma SeveralBuckets(t: Tables, b: int, id: int, pending: int)
    requires NewOk(t, pending) && 0 <= b < |t.vvNew| && id in t.vvNew[b] && id != pending
    requires id in t.mapInfo && t.mapInfo[id].nRefCount > 1
    ensures !t.mapInfo[id].fInTried && Buckets(t.vvNew, id) != {b}
  {
    hide Buckets;
  }

  lemma UnlistedIndexes(t: Tables, b: int, id: int)
    requires IdsOk(t) && AddrIndexOk(t) && RandomOk(t) && SizesOk(t)
    requires 0 <= b < |t.vvNew| && id in t.vvNew[b] && id in t.mapInfo
    ensures var t' := Unlisted(t, b, id); IdsOk(t') && AddrIndexOk(t') && RandomOk(t') && SizesOk(t')
  {
  }

  lemma UnlistedNew(t: Tables, b: int, id: int, pending: int)
    requires NewOk(t, pending) && 0 <= b < |t.vvNew| && id in t.vvNew[b] && id != pending
    requires id in t.mapInfo && t.mapInfo[id].nRefCount > 1
    ensures NewOk(Unlisted(t, b, id), pending)
  {
    LeftBuckets(t.vvNew, b, id);
    assert b in Buckets(t.vvNew, id);
    hide Buckets;
  }

  lemma UnlistedBook(h: Hasher, t: Tables, b: int, id: int)
    requires AddrIndexOk(t) && 0 <= b < |t.vvNew| && id in t.vvNew[b]
    requires id in t.mapInfo && !t.mapInfo[id].fInTried && Buckets(t.vvNew, id) != {b}
    ensures AddrIndexOk(Unlisted(t, b, id))
    ensures BookOf(h, Unlisted(t, b, id)) == Dropped(BookOf(h, t), t.mapInfo[id].peer.addr.net, b)
  {
    UnlistedAddresses(t, b, id);
    var t' := Unlisted(t, b, id);
    forall a | a in t.mapAddr
      ensures BookOf(h, t')[a] == Dropped(BookOf(h, t), t.mapInfo[id].peer.addr.net, b)[a]
    {
      UnlistedEntry(h, t, b, id, a);
    }
    hide Buckets, PlaceOf;
  }

  lemma UnlistedAddresses(t: Tables, b: int, id: int)
    requires AddrIndexOk(t) && 0 <= b < |t.vvNew| && id in t.mapInfo
    ensures AddrIndexOk(Unlisted(t, b, id)) && Unlisted(t, b, id).mapAddr == t.mapAddr
  {
  }

  /** One address after `id` has left one of its buckets. */
  lemma UnlistedEntry(h: Hasher, t: Tables, b: int, id: int, a: NetAddr)
    requires AddrIndexOk(t) && 0 <= b < |t.vvNew| && id in t.vvNew[b] && a in t.mapAddr
    requires id in t.mapInfo && !t.mapInfo[id].fInTried && Buckets(t.vvNew, id) != {b}
    ensures AddrIndexOk(Unlisted(t, b, id)) && a in BookOf(h, Unlisted(t, b, id))
    ensures BookOf(h, Unlisted(t, b, id))[a] == Dropped(BookOf(h, t), t.mapInfo[id].peer.addr.net, b)[a]
  {
    UnlistedAddresses(t, b, id);
    LeftBuckets(t.vvNew, b, id);
    hide Buckets;
    assert t.mapAddr[a] in t.mapInfo;
  }

  /** An id held by one new bucket only is forgotten with it. */
  function Forgotten(t: Tables, b: int, id: int): Tables
    requires 0 <= b < |t.vvNew| && id in t.mapInfo
    requires 0 <= t.mapInfo[id].nRandomPos < |t.vRandom|
    requires t.vRandom[t.mapInfo[id].nRandomPos] in t.mapInfo && t.vRandom[|t.vRandom| - 1] in t.mapInfo
  {
    var counted := SetRefCount(t, id, t.mapInfo[id].nRefCount - 1);
    var last := Swapped(counted, t.mapInfo[id].nRandomPos, |t.vRandom| - 1);
    LeaveBucket(Popped(last, id), b, id)
  }

  lemma ForgottenAgrees(h: Hasher, t: Tables, b: int, id: int, pending: int)
    requires Agree(h, t, pending) && 0 <= b < |t.vvNew| && id in t.vvNew[b] && id != pending
    requires t.mapInfo[id].nRefCount == 1
    ensures Agree(h, Forgotten(t, b, id), pending)
    ensures BookOf(h, Forgotten(t, b, id)) == Dropped(BookOf(h, t), t.mapInfo[id].peer.addr.net, b)
  {
    var u, i, j := SwappedToLast(t, b, id);
    hide IdsOk, AddrIndexOk, RandomOk, TriedOk, NewOk, CountersOk, SizesOk, BookOf, Buckets, Forgotten;
    SwappedAgrees(h, t, i, j, pending);
    PoppedAgrees(h, u, b, id, pending);
  }

  /** The place of an id, and the last place, are places of known ids. */
  lemma LastPlace(t: Tables, id: int)
    requires RandomOk(t) && id in t.mapInfo
    ensures var i, j := t.mapInfo[id].nRandomPos, |t.vRandom| - 1;
      && 0 <= i <= j < |t.vRandom| && t.vRandom[i] == id && t.vRandom[j] in t.mapInfo
  {
  }

  lemma SwappedToLast(t: Tables, b: int, id: int) returns (u: Tables, i: int, j: int)
    requires RandomOk(t) && 0 <= b < |t.vvNew| && id in t.mapInfo
    ensures 0 <= i < |t.vRandom| && 0 <= j < |t.vRandom|
    ensures t.vRandom[i] in t.mapInfo && t.vRandom[j] in t.mapInfo && u == Swapped(t, i, j)
    ensures u.vvNew == t.vvNew && id in u.mapInfo
    ensures u.mapInfo[id].peer == t.mapInfo[id].peer && u.mapInfo[id].nRefCount == t.mapInfo[id].nRefCount
    ensures |u.vRandom| > 0 && u.vRandom[|u.vRandom| - 1] == id
    ensures Forgotten(t, b, id) == LeaveBucket(Popped(u, id), b, id)
  {
    LastPlace(t, id);
    i, j := t.mapInfo[id].nRandomPos, |t.vRandom| - 1;
    SwapIgnoresRefCount(t, id, i, j);
    SwappedEntry(t, id, i, j);
    hide RandomOk, Swapped;
    u := Swapped(t, i, j);
  }

  lemma SwappedEntry(t: Tables, id: int, i: int, j: int)
    requires 0 <= i < |t.vRandom| && 0 <= j < |t.vRandom| && t.vRandom[i] == id && id in t.mapInfo
    requires t.vRandom[j] in t.mapInfo
    ensures var u := Swapped(t, i, j);
      && u.vvNew == t.vvNew && |u.vRandom| == |t.vRandom| && u.vRandom[j] == id && id in u.mapInfo
      && u.mapInfo[id].peer == t.mapInfo[id].peer && u.mapInfo[id].nRefCount == t.mapInfo[id].nRefCount
  {
  }

  lemma SwapIgnoresRefCount(t: Tables, id: int, i: int, j: int)
    requires RandomOk(t) && 0 <= i < |t.vRandom| && 0 <= j < |t.vRandom| && id in t.mapInfo
    ensures var counted := SetRefCount(t, id, t.mapInfo[id].nRefCount - 1);
      Popped(Swapped(counted, i, j), id) == Popped(Swapped(t, i, j), id)
  {
    var counted := SetRefCount(t, id, t.mapInfo[id].nRefCount - 1);
    assert Swapped(counted, i, j).mapInfo - {id} == Swapped(t, i, j).mapInfo - {id};
  }

  lemma PoppedAgrees(h: Hasher, t: Tables, b: int, id: int, pending: int)
    requires Agree(h, t, pending) && 0 <= b < |t.vvNew| && id in t.vvNew[b] && id != pending
    requires t.mapInfo[id].nRefCount == 1 && |t.vRandom| > 0 && t.vRandom[|t.vRandom| - 1] == id
    ensures Agree(h, LeaveBucket(Popped(t, id), b, id), pending)
    ensures BookOf(h, LeaveBucket(Popped(t, id), b, id)) == Dropped(BookOf(h, t), t.mapInfo[id].peer.addr.net, b)
  {
    hide IdsOk, AddrIndexOk, RandomOk, TriedOk, NewOk, CountersOk, SizesOk, BookOf, Dropped, Buckets;
    hide Popped, LeaveBucket;
    NewMemberOf(t, b, id, pending);
    OnlyBucket(t, b, id, pending);
    PoppedCounters(t, b, id);
    PoppedIndexes(t, b, id);
    PoppedTried(h, t, b, id);
    PoppedNew(t, b, id, pending);
    PoppedBook(h, t, b, id);
  }

  lemma NewMemberOf(t: Tables, b: int, id: int, pending: int)
    requires NewOk(t, pending) && 0 <= b < |t.vvNew| && id in t.vvNew[b]
    ensures id in t.mapInfo && !t.mapInfo[id].fInTried
  {
  }

  lemma PoppedCounters(t: Tables, b: int, id: int)
    requires IdsOk(t) && CountersOk(t) && SizesOk(t) && 0 <= b < |t.vvNew| && |t.vRandom| > 0
    requires id in t.mapInfo && !t.mapInfo[id].fInTried
    ensures var t' := LeaveBucket(Popped(t, id), b, id); IdsOk(t') && CountersOk(t') && SizesOk(t')
  {
    var t' := LeaveBucket(Popped(t, id), b, id);
    assert TriedIds(t'.mapInfo) == TriedIds(t.mapInfo);
    assert NewIds(t'.mapInfo) == NewIds(t.mapInfo) - {id};
  }

  lemma PoppedTried(h: Hasher, t: Tables, b: int, id: int)
    requires TriedOk(h, t) && 0 <= b < |t.vvNew| && |t.vRandom| > 0 && id in t.mapInfo && !t.mapInfo[id].fInTried
    ensures TriedOk(h, LeaveBucket(Popped(t, id), b, id))
  {
    TriedFrame(h, t, LeaveBucket(Popped(t, id), b, id));
  }

  lemma OnlyBucket(t: Tables, b: int, id: int, pending: int)
    requires NewOk(t, pending) && 0 <= b < |t.vvNew| && id in t.vvNew[b] && id != pending
    requires t.mapInfo[id].nRefCount == 1
    ensures Buckets(t.vvNew, id) == {b}
  {
    assert {b} <= Buckets(t.vvNew, id);
    SubsetSize({b}, Buckets(t.vvNew, id));
  }

  lemma PoppedIndexes(t: Tables, b: int, id: int)
    requires AddrIndexOk(t) && RandomOk(t) && 0 <= b < |t.vvNew| && id in t.mapInfo
    requires |t.vRandom| > 0 && t.vRandom[|t.vRandom| - 1] == id
    ensures AddrIndexOk(LeaveBucket(Popped(t, id), b, id))
    ensures RandomOk(LeaveBucket(Popped(t, id), b, id))
  {
  }

  lemma PoppedNew(t: Tables, b: int, id: int, pending: int)
    requires NewOk(t, pending) && 0 <= b < |t.vvNew| && id in t.mapInfo && |t.vRandom| > 0
    requires Buckets(t.vvNew, id) == {b}
    ensures NewOk(LeaveBucket(Popped(t, id), b, id), pending)
  {
    LeftBuckets(t.vvNew, b, id);
    assert forall c :: 0 <= c < |t.vvNew| && id in t.vvNew[c] ==> c in Buckets(t.vvNew, id);
    hide Buckets;
  }

  lemma PoppedBook(h: Hasher, t: Tables, b: int, id: int)
    requires AddrIndexOk(t) && 0 <= b < |t.vvNew| && id in t.mapInfo && !t.mapInfo[id].fInTried && |t.vRandom| > 0
    requires Buckets(t.vvNew, id) == {b}
    ensures AddrIndexOk(LeaveBucket(Popped(t, id), b, id))
    ensures BookOf(h, LeaveBucket(Popped(t, id), b, id)) == Dropped(BookOf(h, t), t.mapInfo[id].peer.addr.net, b)
  {
    var t' := LeaveBucket(Popped(t, id), b, id);
    LeftBuckets(t.vvNew, b, id);
    hide Buckets;
    forall a | a in t.mapAddr && t.mapAddr[a] != id
      ensures t.mapAddr[a] in t'.mapInfo && PlaceOf(h, t', t.mapAddr[a]) == PlaceOf(h, t, t.mapAddr[a])
    {
      assert t.mapAddr[a] in t.mapInfo;
    }
  }

  /** One reference to `id` goes, and with the last one `id` itself. */
  function Unreferenced(t: Tables, b: int, id: int): (u: Tables)
    requires 0 <= b < |t.vvNew| && id in t.mapInfo
    requires 0 <= t.mapInfo[id].nRandomPos < |t.vRandom|
    requires t.vRandom[t.mapInfo[id].nRandomPos] in t.mapInfo && t.vRandom[|t.vRandom| - 1] in t.mapInfo
    ensures |u.vvNew| == |t.vvNew|
  {
    if t.mapInfo[id].nRefCount == 1 then Forgotten(t, b, id) else Unlisted(t, b, id)
  }

  lemma UnreferencedAgrees(h: Hasher, t: Tables, b: int, id: int, pending: int)
    requires Agree(h, t, pending) && 0 <= b < |t.vvNew| && id in t.vvNew[b] && id != pending
    ensures Agree(h, Unreferenced(t, b, id), pending)
    ensures BookOf(h, Unreferenced(t, b, id)) == Dropped(BookOf(h, t), t.mapInfo[id].peer.addr.net, b)
  {
    if t.mapInfo[id].nRefCount == 1 {
      ForgottenAgrees(h, t, b, id, pending);
    } else {
      UnlistedAgrees(h, t, b, id, pending);
    }
  }

  lemma UnreferencedKeeps(t: Tables, b: int, id: int, other: int)
    requires RandomOk(t) && 0 <= b < |t.vvNew| && id in t.mapInfo && other in t.mapInfo && other != id
    ensures Unreferenced(t, b, id).vvNew == t.vvNew[b := t.vvNew[b] - {id}]
    ensures other in Unreferenced(t, b, id).mapInfo
    ensures Unreferenced(t, b, id).mapInfo[other].peer == t.mapInfo[other].peer
  {
  }

  /** `pending` enters a bucket with room, which makes its count exact. */
  lemma EnteredAgrees(h: Hasher, t: Tables, b: int, id: int)
    requires Agree(h, t, id) && id in t.mapInfo && 0 <= b < |t.vvNew| && id !in t.vvNew[b]
    requires |t.vvNew[b]| < NEW_BUCKET_SIZE
    ensures Consistent(h, EnterBucket(t, b, id))
    ensures BookOf(h, EnterBucket(t, b, id)) == Grown(BookOf(h, t), t.mapInfo[id].peer.addr.net, b)
  {
    hide IdsOk, AddrIndexOk, RandomOk, TriedOk, NewOk, CountersOk, SizesOk, BookOf, Grown, Buckets, EnterBucket;
    PendingIsNew(t, id);
    EnteredIndexes(h, t, b, id);
    EnteredNew(t, b, id);
    EnteredBook(h, t, b, id);
  }

  /** An id that has been counted for another bucket is not tried. */
  lemma PendingIsNew(t: Tables, id: int)
    requires NewOk(t, id) && id in t.mapInfo
    ensures !t.mapInfo[id].fInTried
  {
    hide Buckets;
  }

  lemma EnteredIndexes(h: Hasher, t: Tables, b: int, id: int)
    requires IdsOk(t) && AddrIndexOk(t) && RandomOk(t) && TriedOk(h, t) && CountersOk(t) && SizesOk(t)
    requires 0 <= b < |t.vvNew| && |t.vvNew[b]| < NEW_BUCKET_SIZE
    ensures var t' := EnterBucket(t, b, id);
      IdsOk(t') && AddrIndexOk(t') && RandomOk(t') && TriedOk(h, t') && CountersOk(t') && SizesOk(t')
  {
    var t' := EnterBucket(t, b, id);
    TriedFrame(h, t, t');
    assert SizesOk(t');
    hide SizesOk, TriedOk;
  }

  lemma EnteredNew(t: Tables, b: int, id: int)
    requires IdsOk(t) && NewOk(t, id) && id in t.mapInfo && 0 <= b < |t.vvNew| && id !in t.vvNew[b]
    ensures NewOk(EnterBucket(t, b, id), NOBODY)
  {
    EnteredBuckets(t.vvNew, b, id);
    assert b !in Buckets(t.vvNew, id);
    hide Buckets;
  }

  lemma EnteredBook(h: Hasher, t: Tables, b: int, id: int)
    requires AddrIndexOk(t) && id in t.mapInfo && !t.mapInfo[id].fInTried && 0 <= b < |t.vvNew|
    ensures AddrIndexOk(EnterBucket(t, b, id))
    ensures BookOf(h, EnterBucket(t, b, id)) == Grown(BookOf(h, t), t.mapInfo[id].peer.addr.net, b)
  {
    var t' := EnterBucket(t, b, id);
    EnteredBuckets(t.vvNew, b, id);
    hide Buckets;
    forall a | a in t.mapAddr && t.mapAddr[a] != id
      ensures PlaceOf(h, t', t.mapAddr[a]) == PlaceOf(h, t, t.mapAddr[a])
    {
      assert t.mapAddr[a] in t.mapInfo;
    }
  }

  /** `id` is about to enter one more new bucket. */
  lemma CountedAgrees(h: Hasher, t: Tables, id: int)
    requires Consistent(h, t) && id in t.mapInfo && !t.mapInfo[id].fInTried
    requires t.mapInfo[id].nRefCount < NEW_BUCKETS_PER_ADDRESS
    ensures Agree(h, SetRefCount(t, id, t.mapInfo[id].nRefCount + 1), id)
    ensures BookOf(h, SetRefCount(t, id, t.mapInfo[id].nRefCount + 1)) == BookOf(h, t)
  {
    CountedIndexes(h, t, id);
    CountedNew(t, id);
    hide IdsOk, AddrIndexOk, RandomOk, TriedOk, NewOk, CountersOk, SizesOk, BookOf, Buckets;
    SetRefCountBook(h, t, id, t.mapInfo[id].nRefCount + 1);
  }

  lemma CountedIndexes(h: Hasher, t: Tables, id: int)
    requires IdsOk(t) && AddrIndexOk(t) && RandomOk(t) && TriedOk(h, t) && CountersOk(t) && SizesOk(t)
    requires id in t.mapInfo
    ensures var t' := SetRefCount(t, id, t.mapInfo[id].nRefCount + 1);
      IdsOk(t') && AddrIndexOk(t') && RandomOk(t') && TriedOk(h, t') && CountersOk(t') && SizesOk(t')
  {
    var t' := SetRefCount(t, id, t.mapInfo[id].nRefCount + 1);
    assert IdsOk(t') && RandomOk(t') && SizesOk(t');
    CountedAddresses(t, id);
    hide IdsOk, RandomOk, SizesOk, AddrIndexOk;
    SameIds(t.mapInfo, t'.mapInfo);
    TriedFrame(h, t, t');
  }

  lemma CountedAddresses(t: Tables, id: int)
    requires AddrIndexOk(t) && id in t.mapInfo
    ensures AddrIndexOk(SetRefCount(t, id, t.mapInfo[id].nRefCount + 1))
  {
  }

  lemma CountedNew(t: Tables, id: int)
    requires IdsOk(t) && NewOk(t, NOBODY) && id in t.mapInfo && !t.mapInfo[id].fInTried
    requires t.mapInfo[id].nRefCount < NEW_BUCKETS_PER_ADDRESS
    ensures NewOk(SetRefCount(t, id, t.mapInfo[id].nRefCount + 1), id)
  {
    hide Buckets;
  }

  lemma SetRefCountBook(h: Hasher, t: Tables, id: int, n: int)
    requires AddrIndexOk(t) && id in t.mapInfo
    ensures AddrIndexOk(SetRefCount(t, id, n))
    ensures BookOf(h, SetRefCount(t, id, n)) == BookOf(h, t)
  {
    var t' := SetRefCount(t, id, n);
    hide Buckets;
    forall a | a in t.mapAddr
      ensures t.mapAddr[a] in t'.mapInfo && PlaceOf(h, t', t.mapAddr[a]) == PlaceOf(h, t, t.mapAddr[a])
    {
      assert t.mapAddr[a] in t.mapInfo;
    }
  }

  /** `Create`. */
  function Created(t: Tables, p: Peer): Tables {
    var id := t.nIdCount;
    t.(nIdCount := id + 1,
       mapInfo := t.mapInfo[id := Info(p, 0, false, |t.vRandom|)],
       mapAddr := t.mapAddr[p.addr.net := id],
       vRandom := t.vRandom + [id])
  }

  /** A new id, counted as new and as about to enter its first bucket. */
  lemma CreatedAgrees(h: Hasher, t: Tables, p: Peer)
    requires Consistent(h, t) && p.addr.net !in t.mapAddr
    ensures Agree(h, CreatedCounted(t, p), t.nIdCount)
    ensures BookOf(h, CreatedCounted(t, p)) == BookOf(h, t)[p.addr.net := Entry(p, InNew({}))]
  {
    UnusedId(t);
    CreatedCounters(t, p);
    CreatedIndexes(h, t, p);
    CreatedNew(t, p);
    hide IdsOk, AddrIndexOk, RandomOk, TriedOk, NewOk, CountersOk, SizesOk, BookOf, Buckets;
    CreatedBook(h, t, p);
  }

  function CreatedCounted(t: Tables, p: Peer): Tables {
    SetRefCount(Created(t, p).(nNew := t.nNew + 1), t.nIdCount, 1)
  }

  lemma UnusedId(t: Tables)
    requires IdsOk(t) && NewOk(t, NOBODY)
    ensures t.nIdCount !in t.mapInfo && Buckets(t.vvNew, t.nIdCount) == {}
  {
    forall b, id | 0 <= b < |t.vvNew| && id in t.vvNew[b] ensures id != t.nIdCount {
      assert id in t.mapInfo;
    }
  }

  lemma CreatedCounters(t: Tables, p: Peer)
    requires CountersOk(t) && t.nIdCount !in t.mapInfo
    ensures CountersOk(CreatedCounted(t, p))
  {
    var m' := CreatedCounted(t, p).mapInfo;
    forall id ensures id in TriedIds(m') <==> id in TriedIds(t.mapInfo) {}
    forall id ensures id in NewIds(m') <==> id in NewIds(t.mapInfo) + {t.nIdCount} {}
    assert TriedIds(m') == TriedIds(t.mapInfo);
    assert NewIds(m') == NewIds(t.mapInfo) + {t.nIdCount};
  }

  lemma CreatedIndexes(h: Hasher, t: Tables, p: Peer)
    requires IdsOk(t) && AddrIndexOk(t) && RandomOk(t) && TriedOk(h, t)
    requires p.addr.net !in t.mapAddr
    ensures var t' := CreatedCounted(t, p); IdsOk(t') && AddrIndexOk(t') && RandomOk(t') && TriedOk(h, t')
  {
    CreatedTried(h, t, p);
    CreatedRandom(t, p);
    hide RandomOk, TriedOk;
  }

  lemma CreatedTried(h: Hasher, t: Tables, p: Peer)
    requires IdsOk(t) && TriedOk(h, t)
    ensures TriedOk(h, CreatedCounted(t, p))
  {
    var t' := CreatedCounted(t, p);
    assert t.nIdCount !in t.mapInfo && t'.vvTried == t.vvTried;
    assert forall id :: id in t.mapInfo ==> id in t'.mapInfo && t'.mapInfo[id] == t.mapInfo[id];
    assert forall id :: id in t'.mapInfo && t'.mapInfo[id].fInTried ==> id in t.mapInfo;
    hide TriedOk, IdsOk;
    TriedFrame(h, t, t');
  }

  lemma CreatedRandom(t: Tables, p: Peer)
    requires IdsOk(t) && RandomOk(t)
    ensures RandomOk(CreatedCounted(t, p))
  {
  }

  lemma CreatedNew(t: Tables, p: Peer)
    requires IdsOk(t) && NewOk(t, NOBODY) && Buckets(t.vvNew, t.nIdCount) == {}
    ensures NewOk(CreatedCounted(t, p), t.nIdCount)
  {
    var t' := CreatedCounted(t, p);
    forall b, id | 0 <= b < |t'.vvNew| && id in t'.vvNew[b] ensures id in t'.mapInfo && !t'.mapInfo[id].fInTried {
      assert id in t.vvNew[b];
    }
    hide Buckets;
  }

  lemma CreatedBook(h: Hasher, t: Tables, p: Peer)
    requires AddrIndexOk(t) && IdsOk(t) && p.addr.net !in t.mapAddr && Buckets(t.vvNew, t.nIdCount) == {}
    ensures var t' := CreatedCounted(t, p);
      && AddrIndexOk(t')
      && BookOf(h, t') == BookOf(h, t)[p.addr.net := Entry(p, InNew({}))]
  {
    var t' := CreatedCounted(t, p);
    hide Buckets;
    CreatedAddrIndex(t, p);
    forall a | a in t.mapAddr
      ensures t.mapAddr[a] in t'.mapInfo && PlaceOf(h, t', t.mapAddr[a]) == PlaceOf(h, t, t.mapAddr[a])
    {
      assert t.mapAddr[a] in t.mapInfo;
    }
    assert PlaceOf(h, t', t.nIdCount) == InNew({});
    hide PlaceOf;
  }

  lemma CreatedAddrIndex(t: Tables, p: Peer)
    requires AddrIndexOk(t) && IdsOk(t) && p.addr.net !in t.mapAddr
    ensures AddrIndexOk(CreatedCounted(t, p))
  {
  }

  // ------------------------------------------------------------------ the tried table

  function Without(vvNew: seq<set<int>>, id: int): (r: seq<set<int>>)
    ensures |r| == |vvNew|
    ensures forall b :: 0 <= b < |r| ==> r[b] == vvNew[b] - {id}
  {
    seq(|vvNew|, b requires 0 <= b < |vvNew| => vvNew[b] - {id})
  }

  lemma WithoutBuckets(vvNew: seq<set<int>>, id: int)
    ensures Buckets(Without(vvNew, id), id) == {}
    ensures forall j :: j != id ==> Buckets(Without(vvNew, id), j) == Buckets(vvNew, j)
  {
    forall j ensures Buckets(Without(vvNew, id), j) == if j == id then {} else Buckets(vvNew, j) {
      forall b ensures b in Buckets(Without(vvNew, id), j) <==> b in if j == id then {} else Buckets(vvNew, j) {}
    }
  }

  /** `MakeTried` into a tried bucket with room. */
  function Moved(t: Tables, id: int, k: int): Tables
    requires id in t.mapInfo && 0 <= k < |t.vvTried|
  {
    t.(vvNew := Without(t.vvNew, id),
       nNew := t.nNew - 1,
       vvTried := t.vvTried[k := t.vvTried[k] + [id]],
       nTried := t.nTried + 1,
       mapInfo := t.mapInfo[id := t.mapInfo[id].(nRefCount := 0, fInTried := true)])
  }

  lemma MovedAgrees(h: Hasher, t: Tables, id: int, k: int)
    requires Consistent(h, t) && id in t.mapInfo && !t.mapInfo[id].fInTried
    requires k == TriedHomeOf(h, t.mapInfo[id].peer) && |t.vvTried[k]| < TRIED_BUCKET_SIZE
    ensures Consistent(h, Moved(t, id, k))
    ensures var a := t.mapInfo[id].peer.addr.net;
      a in BookOf(h, t) && BookOf(h, Moved(t, id, k)) == BookOf(h, t)[a := BookOf(h, t)[a].(place := InTried(k))]
  {
    MovedCounters(t, id, k);
    MovedIndexes(h, t, id, k);
    MovedTried(h, t, id, k);
    MovedNew(t, id, k);
    MovedSizes(t, id, k);
    MovedBook(h, t, id, k);
    hide IdsOk, AddrIndexOk, RandomOk, TriedOk, NewOk, CountersOk, SizesOk, BookOf, Buckets;
  }

  lemma MovedSizes(t: Tables, id: int, k: int)
    requires SizesOk(t) && id in t.mapInfo && 0 <= k < |t.vvTried| && |t.vvTried[k]| < TRIED_BUCKET_SIZE
    ensures SizesOk(Moved(t, id, k))
  {
    forall b | 0 <= b < |t.vvNew| ensures |t.vvNew[b] - {id}| <= NEW_BUCKET_SIZE {
      SubsetSize(t.vvNew[b] - {id}, t.vvNew[b]);
    }
  }

  lemma MovedCounters(t: Tables, id: int, k: int)
    requires CountersOk(t) && id in t.mapInfo && !t.mapInfo[id].fInTried && 0 <= k < |t.vvTried|
    ensures CountersOk(Moved(t, id, k))
  {
    var m' := Moved(t, id, k).mapInfo;
    forall j ensures j in TriedIds(m') <==> j in TriedIds(t.mapInfo) + {id} {}
    forall j ensures j in NewIds(m') <==> j in NewIds(t.mapInfo) - {id} {}
    assert TriedIds(m') == TriedIds(t.mapInfo) + {id};
    assert NewIds(m') == NewIds(t.mapInfo) - {id};
    assert id in NewIds(t.mapInfo);
  }

  lemma MovedIndexes(h: Hasher, t: Tables, id: int, k: int)
    requires IdsOk(t) && AddrIndexOk(t) && RandomOk(t) && id in t.mapInfo && 0 <= k < |t.vvTried|
    ensures var t' := Moved(t, id, k); IdsOk(t') && AddrIndexOk(t') && RandomOk(t')
  {
  }

  lemma MovedTried(h: Hasher, t: Tables, id: int, k: int)
    requires TriedOk(h, t) && id in t.mapInfo && !t.mapInfo[id].fInTried
    requires k == TriedHomeOf(h, t.mapInfo[id].peer)
    ensures TriedOk(h, Moved(t, id, k))
  {
    hide Without;
    var t' := Moved(t, id, k);
    forall j | j in t'.mapInfo && t'.mapInfo[j].fInTried
      ensures j in t'.vvTried[TriedHomeOf(h, t'.mapInfo[j].peer)]
    {
      if j == id {
        assert t'.vvTried[k][|t.vvTried[k]|] == id;
      } else {
        assert j in t.vvTried[TriedHomeOf(h, t.mapInfo[j].peer)];
      }
    }
  }

  lemma MovedNew(t: Tables, id: int, k: int)
    requires NewOk(t, NOBODY) && id in t.mapInfo && !t.mapInfo[id].fInTried && 0 <= k < |t.vvTried| && id != NOBODY
    ensures NewOk(Moved(t, id, k), NOBODY)
  {
    WithoutBuckets(t.vvNew, id);
    hide Buckets;
  }

  lemma MovedBook(h: Hasher, t: Tables, id: int, k: int)
    requires AddrIndexOk(t) && id in t.mapInfo && 0 <= k < |t.vvTried| && k == TriedHomeOf(h, t.mapInfo[id].peer)
    ensures AddrIndexOk(Moved(t, id, k))
    ensures var a := t.mapInfo[id].peer.addr.net;
      a in BookOf(h, t) && BookOf(h, Moved(t, id, k)) == BookOf(h, t)[a := BookOf(h, t)[a].(place := InTried(k))]
  {
    var t' := Moved(t, id, k);
    WithoutBuckets(t.vvNew, id);
    hide Buckets;
    forall a | a in t.mapAddr && t.mapAddr[a] != id
      ensures PlaceOf(h, t', t.mapAddr[a]) == PlaceOf(h, t, t.mapAddr[a])
    {
      assert t.mapAddr[a] in t.mapInfo;
    }
  }

  /** `MakeTried` over the entry at `pos` of a full tried bucket, which goes to the new bucket `dest`. */
  function Displaced(t: Tables, id: int, k: int, pos: int, dest: int): Tables
    requires id in t.mapInfo && 0 <= k < |t.vvTried| && 0 <= pos < |t.vvTried[k]|
    requires t.vvTried[k][pos] in t.mapInfo && 0 <= dest < |t.vvNew|
  {
    var victim := t.vvTried[k][pos];
    var kept := t.mapInfo[victim := t.mapInfo[victim].(nRefCount := 1, fInTried := false)];
    var erased := Without(t.vvNew, id);
    t.(vvNew := erased[dest := erased[dest] + {victim}],
       vvTried := t.vvTried[k := t.vvTried[k][pos := id]],
       mapInfo := kept[id := kept[id].(nRefCount := 0, fInTried := true)])
  }

  /** What `MakeTried` knows when it displaces an entry. */
  ghost predicate MayDisplace(h: Hasher, t: Tables, id: int, k: int, pos: int, dest: int) {
    && id in t.mapInfo && !t.mapInfo[id].fInTried && id != NOBODY
    && 0 <= k < |t.vvTried| && k == TriedHomeOf(h, t.mapInfo[id].peer)
    && 0 <= pos < |t.vvTried[k]|
    && t.vvTried[k][pos] in t.mapInfo && t.mapInfo[t.vvTried[k][pos]].fInTried && t.vvTried[k][pos] != NOBODY
    && 0 <= dest < |t.vvNew|
    && |t.vvNew[dest] - {id}| < NEW_BUCKET_SIZE
  }

  lemma DisplacedAgrees(h: Hasher, t: Tables, id: int, k: int, pos: int, dest: int)
    requires Consistent(h, t) && MayDisplace(h, t, id, k, pos, dest)
    ensures Consistent(h, Displaced(t, id, k, pos, dest))
    ensures var a, v, book := t.mapInfo[id].peer.addr.net, t.mapInfo[t.vvTried[k][pos]].peer.addr.net, BookOf(h, t);
      && a in book && v in book && v in TriedMembers(book, k)
      && BookOf(h, Displaced(t, id, k, pos, dest))
         == book[a := book[a].(place := InTried(k))][v := Entry(book[v].peer, InNew({dest}))]
  {
    DisplacedCounters(h, t, id, k, pos, dest);
    DisplacedIndexes(h, t, id, k, pos, dest);
    DisplacedTried(h, t, id, k, pos, dest);
    DisplacedNew(h, t, id, k, pos, dest);
    DisplacedBook(h, t, id, k, pos, dest);
    DisplacedSizes(h, t, id, k, pos, dest);
    hide IdsOk, AddrIndexOk, RandomOk, TriedOk, NewOk, CountersOk, SizesOk, BookOf, Buckets, MayDisplace, Displaced;
  }

  lemma DisplacedSizes(h: Hasher, t: Tables, id: int, k: int, pos: int, dest: int)
    requires SizesOk(t) && MayDisplace(h, t, id, k, pos, dest)
    ensures SizesOk(Displaced(t, id, k, pos, dest))
  {
    forall b | 0 <= b < |t.vvNew| ensures |t.vvNew[b] - {id}| <= NEW_BUCKET_SIZE {
      SubsetSize(t.vvNew[b] - {id}, t.vvNew[b]);
    }
  }

  lemma DisplacedCounters(h: Hasher, t: Tables, id: int, k: int, pos: int, dest: int)
    requires CountersOk(t) && MayDisplace(h, t, id, k, pos, dest)
    ensures CountersOk(Displaced(t, id, k, pos, dest))
  {
    var m, m', victim := t.mapInfo, Displaced(t, id, k, pos, dest).mapInfo, t.vvTried[k][pos];
    forall j ensures j in TriedIds(m') <==> j in TriedIds(m) + {id} - {victim} {}
    forall j ensures j in NewIds(m') <==> j in NewIds(m) - {id} + {victim} {}
    assert TriedIds(m') == TriedIds(m) + {id} - {victim};
    assert NewIds(m') == NewIds(m) - {id} + {victim};
    assert victim in TriedIds(m) && id in NewIds(m);
  }

  lemma DisplacedIndexes(h: Hasher, t: Tables, id: int, k: int, pos: int, dest: int)
    requires IdsOk(t) && AddrIndexOk(t) && RandomOk(t) && MayDisplace(h, t, id, k, pos, dest)
    ensures var t' := Displaced(t, id, k, pos, dest); IdsOk(t') && AddrIndexOk(t') && RandomOk(t')
  {
  }

  lemma DisplacedTried(h: Hasher, t: Tables, id: int, k: int, pos: int, dest: int)
    requires TriedOk(h, t) && MayDisplace(h, t, id, k, pos, dest)
    ensures TriedOk(h, Displaced(t, id, k, pos, dest))
  {
    hide Without;
    var t' := Displaced(t, id, k, pos, dest);
    forall c, i | 0 <= c < |t'.vvTried| && 0 <= i < |t'.vvTried[c]|
      ensures t'.vvTried[c][i] in t'.mapInfo && t'.mapInfo[t'.vvTried[c][i]].fInTried
      ensures TriedHomeOf(h, t'.mapInfo[t'.vvTried[c][i]].peer) == c
    {
      DisplacedSlot(h, t, id, k, pos, dest, c, i);
    }
    forall j | j in t'.mapInfo && t'.mapInfo[j].fInTried
      ensures j in t'.vvTried[TriedHomeOf(h, t'.mapInfo[j].peer)]
    {
      DisplacedHome(h, t, id, k, pos, dest, j);
    }
    hide TriedHomeOf;
  }

  /** The id in one slot of the tried table after a displacement. */
  lemma DisplacedSlot(h: Hasher, t: Tables, id: int, k: int, pos: int, dest: int, c: int, i: int)
    requires TriedOk(h, t) && MayDisplace(h, t, id, k, pos, dest)
    requires 0 <= c < |t.vvTried| && 0 <= i < |t.vvTried[c]|
    ensures var t' := Displaced(t, id, k, pos, dest);
      && t'.vvTried[c][i] in t'.mapInfo && t'.mapInfo[t'.vvTried[c][i]].fInTried
      && TriedHomeOf(h, t'.mapInfo[t'.vvTried[c][i]].peer) == c
  {
    hide Without;
    if c != k || i != pos {
      var j := t.vvTried[c][i];
      assert TriedHomeOf(h, t.mapInfo[j].peer) == c;
      assert j != t.vvTried[k][pos];
    }
  }

  /** A tried id after a displacement sits in its bucket. */
  lemma DisplacedHome(h: Hasher, t: Tables, id: int, k: int, pos: int, dest: int, j: int)
    requires TriedOk(h, t) && MayDisplace(h, t, id, k, pos, dest)
    requires var t' := Displaced(t, id, k, pos, dest); j in t'.mapInfo && t'.mapInfo[j].fInTried
    ensures var t' := Displaced(t, id, k, pos, dest); j in t'.vvTried[TriedHomeOf(h, t'.mapInfo[j].peer)]
  {
    hide Without;
    var t' := Displaced(t, id, k, pos, dest);
    if j == id {
      assert t'.vvTried[k][pos] == id;
    } else {
      var c := TriedHomeOf(h, t.mapInfo[j].peer);
      assert j in t.vvTried[c];
      var i :| 0 <= i < |t.vvTried[c]| && t.vvTried[c][i] == j;
      assert t'.vvTried[c][i] == j;
    }
  }

  lemma DisplacedNew(h: Hasher, t: Tables, id: int, k: int, pos: int, dest: int)
    requires NewOk(t, NOBODY) && MayDisplace(h, t, id, k, pos, dest)
    ensures NewOk(Displaced(t, id, k, pos, dest), NOBODY)
  {
    hide Buckets, TriedHomeOf;
    var victim := t.vvTried[k][pos];
    TriedInNoBucket(t, victim);
    WithoutBuckets(t.vvNew, id);
    EnteredBuckets(Without(t.vvNew, id), dest, victim);
    DisplacedMembers(h, t, id, k, pos, dest);
    var t' := Displaced(t, id, k, pos, dest);
    var erased := Without(t.vvNew, id);
    assert t'.vvNew == erased[dest := erased[dest] + {victim}];
    forall j | j in t'.mapInfo
      ensures t'.mapInfo[j].nRefCount == |Buckets(t'.vvNew, j)| + (if j == NOBODY then 1 else 0)
      ensures t'.mapInfo[j].nRefCount <= NEW_BUCKETS_PER_ADDRESS
      ensures t'.mapInfo[j].fInTried <==> t'.mapInfo[j].nRefCount == 0
    {
      assert Buckets(t'.vvNew, j) == if j == victim then {dest} else Buckets(erased, j);
      assert j in t.mapInfo;
    }
  }

  lemma TriedInNoBucket(t: Tables, id: int)
    requires NewOk(t, NOBODY) && id in t.mapInfo && t.mapInfo[id].fInTried
    ensures Buckets(t.vvNew, id) == {}
  {
  }

  /** The new buckets after a displacement hold new ids only. */
  lemma DisplacedMembers(h: Hasher, t: Tables, id: int, k: int, pos: int, dest: int)
    requires NewOk(t, NOBODY) && MayDisplace(h, t, id, k, pos, dest)
    ensures var t' := Displaced(t, id, k, pos, dest);
      && |t'.vvNew| == NEW_BUCKET_COUNT
      && forall b, j :: 0 <= b < |t'.vvNew| && j in t'.vvNew[b] ==> j in t'.mapInfo && !t'.mapInfo[j].fInTried
  {
    hide Buckets, TriedHomeOf;
  }

  lemma DisplacedBook(h: Hasher, t: Tables, id: int, k: int, pos: int, dest: int)
    requires AddrIndexOk(t) && TriedOk(h, t) && NewOk(t, NOBODY) && MayDisplace(h, t, id, k, pos, dest)
    ensures AddrIndexOk(Displaced(t, id, k, pos, dest))
    ensures var a, v, book := t.mapInfo[id].peer.addr.net, t.mapInfo[t.vvTried[k][pos]].peer.addr.net, BookOf(h, t);
      && a in book && v in book && v in TriedMembers(book, k)
      && BookOf(h, Displaced(t, id, k, pos, dest))
         == book[a := book[a].(place := InTried(k))][v := Entry(book[v].peer, InNew({dest}))]
  {
    var t', victim := Displaced(t, id, k, pos, dest), t.vvTried[k][pos];
    assert TriedHomeOf(h, t.mapInfo[victim].peer) == k;
    hide TriedOk;
    forall j | j in t.mapInfo
      ensures j in t'.mapInfo
      ensures PlaceOf(h, t', j)
              == if j == id then InTried(k) else if j == victim then InNew({dest}) else PlaceOf(h, t, j)
    {
      DisplacedPlace(h, t, id, k, pos, dest, j);
    }
    assert PlaceOf(h, t, victim) == InTried(k);
    hide PlaceOf, NewOk;
    TwoPlaces(h, t, t', id, InTried(k), victim, InNew({dest}));
  }

  /** `t'` differs from `t`, as far as the book shows, in the places of two ids. */
  lemma TwoPlaces(h: Hasher, t: Tables, t': Tables, id: int, p: Place, victim: int, q: Place)
    requires AddrIndexOk(t) && id in t.mapInfo && victim in t.mapInfo && id != victim
    requires t'.mapAddr == t.mapAddr
    requires forall j :: j in t.mapInfo ==> j in t'.mapInfo && t'.mapInfo[j].peer == t.mapInfo[j].peer
    requires forall j :: j in t'.mapInfo ==> j in t.mapInfo
    requires forall j :: j in t.mapInfo ==>
      PlaceOf(h, t', j) == if j == id then p else if j == victim then q else PlaceOf(h, t, j)
    ensures AddrIndexOk(t')
    ensures var a, v, book := t.mapInfo[id].peer.addr.net, t.mapInfo[victim].peer.addr.net, BookOf(h, t);
      && a in book && v in book && a != v
      && book[v] == Entry(t.mapInfo[victim].peer, PlaceOf(h, t, victim))
      && BookOf(h, t') == book[a := book[a].(place := p)][v := Entry(book[v].peer, q)]
  {
    hide PlaceOf;
    var a, v := t.mapInfo[id].peer.addr.net, t.mapInfo[victim].peer.addr.net;
    forall c | c in t.mapAddr
      ensures t.mapAddr[c] in t.mapInfo
      ensures t.mapAddr[c] == id <==> c == a
      ensures t.mapAddr[c] == victim <==> c == v
    {
    }
    assert AddrIndexOk(t');
  }

  lemma DisplacedPlace(h: Hasher, t: Tables, id: int, k: int, pos: int, dest: int, j: int)
    requires NewOk(t, NOBODY) && MayDisplace(h, t, id, k, pos, dest) && j in t.mapInfo
    ensures var t', victim := Displaced(t, id, k, pos, dest), t.vvTried[k][pos];
      && j in t'.mapInfo
      && PlaceOf(h, t', j) == if j == id then InTried(k) else if j == victim then InNew({dest}) else PlaceOf(h, t, j)
  {
    var victim := t.vvTried[k][pos];
    WithoutBuckets(t.vvNew, id);
    EnteredBuckets(Without(t.vvNew, id), dest, victim);
    assert Buckets(t.vvNew, victim) == {};
    hide Buckets;
  }

  /** The tried buckets in another order. */
  lemma ShuffledAgrees(h: Hasher, t: Tables, vvTried: seq<seq<int>>)
    requires Consistent(h, t) && TriedOk(h, t.(vvTried := vvTried))
    requires forall k :: 0 <= k < |t.vvTried| ==> |vvTried[k]| == |t.vvTried[k]|
    ensures Consistent(h, t.(vvTried := vvTried))
    ensures BookOf(h, t.(vvTried := vvTried)) == BookOf(h, t)
  {
    var t' := t.(vvTried := vvTried);
    ShuffledIndexes(t, vvTried);
    hide IdsOk, AddrIndexOk, RandomOk, TriedOk, NewOk, CountersOk, SizesOk;
    ShuffledBook(h, t, vvTried);
  }

  lemma ShuffledIndexes(t: Tables, vvTried: seq<seq<int>>)
    requires IdsOk(t) && AddrIndexOk(t) && RandomOk(t) && NewOk(t, NOBODY) && CountersOk(t) && SizesOk(t)
    requires |vvTried| == |t.vvTried| && forall k :: 0 <= k < |t.vvTried| ==> |vvTried[k]| == |t.vvTried[k]|
    ensures var t' := t.(vvTried := vvTried);
      IdsOk(t') && AddrIndexOk(t') && RandomOk(t') && NewOk(t', NOBODY) && CountersOk(t') && SizesOk(t')
  {
    hide Buckets;
  }

  /** The book does not depend on the order inside the tried buckets. */
  lemma ShuffledBook(h: Hasher, t: Tables, vvTried: seq<seq<int>>)
    requires AddrIndexOk(t)
    ensures AddrIndexOk(t.(vvTried := vvTried)) && BookOf(h, t.(vvTried := vvTried)) == BookOf(h, t)
  {
    hide Buckets;
  }

  // ------------------------------------------------------------------ sizes of the buckets

  lemma NewMembersSize(h: Hasher, t: Tables, b: int, pending: int)
    requires AddrIndexOk(t) && NewOk(t, pending) && 0 <= b < |t.vvNew|
    ensures |NewMembers(BookOf(h, t), b)| == |t.vvNew[b]|
  {
    var members := NewMembers(BookOf(h, t), b);
    var addrOf := map id | id in t.mapInfo :: t.mapInfo[id].peer.addr.net;
    assert forall id :: id in t.vvNew[b] ==> id in addrOf && !t.mapInfo[id].fInTried;
    forall a ensures a in members <==> exists id :: id in t.vvNew[b] && addrOf[id] == a {
      if a in members {
        var id := t.mapAddr[a];
        assert b in Buckets(t.vvNew, id);
        assert id in t.vvNew[b] && addrOf[id] == a;
      }
      if id :| id in t.vvNew[b] && addrOf[id] == a {
        assert t.mapAddr[a] == id && b in Buckets(t.vvNew, id);
      }
    }
    ImageSize(t.vvNew[b], members, addrOf);
  }

  lemma TriedMembersSize(h: Hasher, t: Tables, k: int)
    requires AddrIndexOk(t) && TriedOk(h, t) && 0 <= k < |t.vvTried|
    ensures |TriedMembers(BookOf(h, t), k)| == |t.vvTried[k]|
  {
    var members := TriedMembers(BookOf(h, t), k);
    var ids := set id | id in t.mapInfo && id in t.vvTried[k];
    DistinctSize(t.vvTried[k], ids);
    var addrOf := map id | id in t.mapInfo :: t.mapInfo[id].peer.addr.net;
    forall a ensures a in members <==> exists id :: id in ids && addrOf[id] == a {
      if a in members {
        var id := t.mapAddr[a];
        assert id in ids && addrOf[id] == a;
      }
      if id :| id in ids && addrOf[id] == a {
        assert t.mapAddr[a] == id && t.mapInfo[id].fInTried && TriedHomeOf(h, t.mapInfo[id].peer) == k;
      }
    }
    ImageSize(ids, members, addrOf);
  }

  // ------------------------------------------------------------------ which member leaves a full bucket

  ghost predicate TerribleMember(t: Tables, b: int, id: int, nNow: int)
    requires 0 <= b < |t.vvNew|
  {
    id in t.vvNew[b] && id in t.mapInfo && IsTerrible(t.mapInfo[id].peer, nNow)
  }

  /** Is the i-th member one of the four drawn? */
  predicate Drawn(rnd: nat -> nat, size: nat, i: nat) {
    || i == GetRandInt(rnd(0), size)
    || i == GetRandInt(rnd(1), size)
    || i == GetRandInt(rnd(2), size)
    || i == GetRandInt(rnd(3), size)
  }

  ghost function SeenAt(t: Tables, id: int): int {
    if id in t.mapInfo then t.mapInfo[id].peer.addr.nTime else 0
  }

  /** Of the first `n` members, the i-th is the first, in id order, of the least recently seen drawn ones. */
  ghost predicate OldestDrawn(t: Tables, ids: seq<int>, rnd: nat -> nat, i: int, n: int)
    requires n <= |ids|
  {
    && 0 <= i < n && Drawn(rnd, |ids|, i)
    && (forall j :: 0 <= j < n && Drawn(rnd, |ids|, j) ==> SeenAt(t, ids[i]) <= SeenAt(t, ids[j]))
    && (forall j :: 0 <= j < i && Drawn(rnd, |ids|, j) ==> SeenAt(t, ids[i]) < SeenAt(t, ids[j]))
  }

  lemma SeenAtIs(t: Tables, id: int)
    ensures id in t.mapInfo ==> SeenAt(t, id) == t.mapInfo[id].peer.addr.nTime
  {
  }

  lemma OldestStep(t: Tables, ids: seq<int>, rnd: nat -> nat, i: int, n: nat)
    requires n < |ids|
    ensures !Drawn(rnd, |ids|, n) && OldestDrawn(t, ids, rnd, i, n) ==> OldestDrawn(t, ids, rnd, i, n + 1)
    ensures Drawn(rnd, |ids|, n) && OldestDrawn(t, ids, rnd, i, n) ==>
      OldestDrawn(t, ids, rnd, if SeenAt(t, ids[n]) < SeenAt(t, ids[i]) then n else i, n + 1)
    ensures Drawn(rnd, |ids|, n) && (forall j :: 0 <= j < n ==> !Drawn(rnd, |ids|, j)) ==>
      OldestDrawn(t, ids, rnd, n, n + 1)
    ensures OldestDrawn(t, ids, rnd, i, n) ==> 0 <= i < n
  {
    hide Drawn, SeenAt;
  }

  /** `nOldest` after the first `n` members, `i` being its position; `NOBODY` while none of them was drawn. */
  ghost predicate OldestSoFar(t: Tables, ids: seq<int>, rnd: nat -> nat, id: int, i: int, n: int)
    requires 0 <= n <= |ids|
  {
    if id == NOBODY then forall j :: 0 <= j < n ==> !Drawn(rnd, |ids|, j)
    else OldestDrawn(t, ids, rnd, i, n) && ids[i] == id
  }

  /** One pass of the loop over the members. */
  lemma OldestSoFarStep(t: Tables, ids: seq<int>, rnd: nat -> nat, id: int, i: int, n: nat)
    requires n < |ids| && OldestSoFar(t, ids, rnd, id, i, n) && ids[n] != NOBODY
    ensures var moves := Drawn(rnd, |ids|, n) && (id == NOBODY || SeenAt(t, ids[n]) < SeenAt(t, id));
      OldestSoFar(t, ids, rnd, if moves then ids[n] else id, if moves then n else i, n + 1)
  {
    hide Drawn, SeenAt, OldestDrawn;
    OldestStep(t, ids, rnd, i, n);
  }

  lemma OldestSoFarFound(t: Tables, ids: seq<int>, rnd: nat -> nat, id: int, i: int)
    requires ids != [] && OldestSoFar(t, ids, rnd, id, i, |ids|)
    ensures OldestDrawn(t, ids, rnd, i, |ids|) && id == ids[i]
  {
    assert Drawn(rnd, |ids|, GetRandInt(rnd(0), |ids|));
    hide Drawn, OldestDrawn;
  }

  lemma OldestSoFarNone(t: Tables, ids: seq<int>, rnd: nat -> nat)
    ensures OldestSoFar(t, ids, rnd, NOBODY, -1, 0)
  {
  }

  /** The least terrible id if there is one, otherwise the oldest of four draws. */
  ghost predicate ShrinkVictim(t: Tables, b: int, nNow: int, rnd: nat -> nat, id: int)
    requires 0 <= b < |t.vvNew| && forall id :: id in t.vvNew[b] ==> id in t.mapInfo
  {
    && id in t.vvNew[b]
    && if exists j :: TerribleMember(t, b, j, nNow)
       then TerribleMember(t, b, id, nNow) && forall j :: TerribleMember(t, b, j, nNow) ==> id <= j
       else exists i :: OldestDrawn(t, Ascending(t.vvNew[b]), rnd, i, |t.vvNew[b]|) && id == Ascending(t.vvNew[b])[i]
  }

  lemma TerribleVictim(t: Tables, b: int, nNow: int, rnd: nat -> nat, id: int)
    requires 0 <= b < |t.vvNew| && forall j :: j in t.vvNew[b] ==> j in t.mapInfo
    requires TerribleMember(t, b, id, nNow) && forall j :: TerribleMember(t, b, j, nNow) ==> id <= j
    ensures ShrinkVictim(t, b, nNow, rnd, id) && id in t.mapInfo
  {
  }

  lemma OldestVictim(t: Tables, b: int, nNow: int, rnd: nat -> nat, id: int)
    requires 0 <= b < |t.vvNew| && forall j :: j in t.vvNew[b] ==> j in t.mapInfo
    requires forall j :: !TerribleMember(t, b, j, nNow)
    requires exists i :: OldestDrawn(t, Ascending(t.vvNew[b]), rnd, i, |t.vvNew[b]|) && id == Ascending(t.vvNew[b])[i]
    ensures ShrinkVictim(t, b, nNow, rnd, id) && id in t.mapInfo
  {
    assert id in Ascending(t.vvNew[b]);
    hide TerribleMember, Ascending;
  }

  lemma VictimMayShrink(h: Hasher, t: Tables, b: int, nNow: int, rnd: nat -> nat, id: int, pending: int)
    requires Agree(h, t, pending) && 0 <= b < |t.vvNew| && ShrinkVictim(t, b, nNow, rnd, id)
    ensures MayShrink(BookOf(h, t), b, t.mapInfo[id].peer.addr.net, nNow)
  {
    var book := BookOf(h, t);
    MemberShown(h, t, b, id, pending);
    if w :| w in NewMembers(book, b) && IsTerrible(book[w].peer, nNow) {
      ShownMember(h, t, b, w);
      assert TerribleMember(t, b, t.mapAddr[w], nNow);
    }
    hide Agree, NewMembers, BookOf, OldestDrawn, IsTerrible, Ascending;
  }

  /** A member of a new bucket, as the book shows it. */
  lemma MemberShown(h: Hasher, t: Tables, b: int, id: int, pending: int)
    requires AddrIndexOk(t) && NewOk(t, pending) && 0 <= b < |t.vvNew| && id in t.vvNew[b]
    ensures id in t.mapInfo
    ensures var a, book := t.mapInfo[id].peer.addr.net, BookOf(h, t);
      a in NewMembers(book, b) && book[a].peer == t.mapInfo[id].peer
  {
    assert b in Buckets(t.vvNew, id);
    hide Buckets;
  }

  lemma ShownMember(h: Hasher, t: Tables, b: int, w: NetAddr)
    requires AddrIndexOk(t) && 0 <= b < |t.vvNew| && w in NewMembers(BookOf(h, t), b)
    ensures w in t.mapAddr && t.mapAddr[w] in t.mapInfo && t.mapAddr[w] in t.vvNew[b]
    ensures t.mapInfo[t.mapAddr[w]].peer == BookOf(h, t)[w].peer
  {
    assert b in Buckets(t.vvNew, t.mapAddr[w]);
  }

  lemma AgreeParts(h: Hasher, t: Tables, pending: int)
    requires Agree(h, t, pending)
    ensures IdsOk(t) && RandomOk(t) && |t.vvNew| == NEW_BUCKET_COUNT
    ensures forall b, id :: 0 <= b < |t.vvNew| && id in t.vvNew[b] ==> id in t.mapInfo
  {
  }

  /** `id` enters bucket `b`, after a victim has left it if it was full. */
  ghost function Listed(t: Tables, b: int, id: int, victim: int): Tables
    requires 0 <= b < |t.vvNew| && victim in t.mapInfo && RandomOk(t)
  {
    if |t.vvNew[b]| == NEW_BUCKET_SIZE then EnterBucket(Unreferenced(t, b, victim), b, id) else EnterBucket(t, b, id)
  }

  lemma ListedPlaces(h: Hasher, t: Tables, b: int, id: int, victim: int, nNow: int, rnd: nat -> nat)
    requires Agree(h, t, id) && id in t.mapInfo && 0 <= b < |t.vvNew| && id !in t.vvNew[b] && victim in t.mapInfo
    requires |t.vvNew[b]| == NEW_BUCKET_SIZE ==> ShrinkVictim(t, b, nNow, rnd, victim)
    ensures Consistent(h, Listed(t, b, id, victim))
    ensures var a, book := t.mapInfo[id].peer.addr.net, BookOf(h, t);
      && a in book && book[a].place.InNew? && b !in book[a].place.buckets
      && PlacedFor(book, BookOf(h, Listed(t, b, id, victim)), a, b, nNow, t.mapInfo[victim].peer.addr.net)
  {
    ListedStart(h, t, b, id);
    if |t.vvNew[b]| == NEW_BUCKET_SIZE {
      VictimMayShrink(h, t, b, nNow, rnd, victim, id);
      UnreferencedAgrees(h, t, b, victim, id);
      UnreferencedKeeps(t, b, victim, id);
      assert |t.vvNew[b] - {victim}| < NEW_BUCKET_SIZE;
      hide IdsOk, AddrIndexOk, TriedOk, NewOk, CountersOk, SizesOk, BookOf, Buckets, NewMembers, Unreferenced,
          ShrinkVictim, Dropped;
      EnteredAgrees(h, Unreferenced(t, b, victim), b, id);
    } else {
      assert |t.vvNew[b]| < NEW_BUCKET_SIZE;
      hide IdsOk, AddrIndexOk, TriedOk, NewOk, CountersOk, SizesOk, BookOf, Buckets, NewMembers;
      EnteredAgrees(h, t, b, id);
    }
  }

  lemma ListedStart(h: Hasher, t: Tables, b: int, id: int)
    requires Agree(h, t, id) && id in t.mapInfo && 0 <= b < |t.vvNew| && id !in t.vvNew[b]
    ensures var a, book := t.mapInfo[id].peer.addr.net, BookOf(h, t);
      && a in book && book[a].place.InNew? && b !in book[a].place.buckets
      && |NewMembers(book, b)| == |t.vvNew[b]|
  {
    NewMembersSize(h, t, b, id);
  }

  // ------------------------------------------------------------------ the two ways into `Add_`

  lemma NewcomerReady(h: Hasher, t: Tables, addr: Address, source: NetAddr, nTimePenalty: int, nNow: int)
    requires Consistent(h, t) && addr.net !in t.mapAddr
    ensures var p := FreshPeer(addr, source, nTimePenalty); var t' := CreatedCounted(t, p);
      && Agree(h, t', t.nIdCount)
      && BookOf(h, t') == Announced(BookOf(h, t), addr, source, nTimePenalty, nNow)
      && addr.net !in BookOf(h, t)
      && forall b :: 0 <= b < |t'.vvNew| ==> t.nIdCount !in t'.vvNew[b]
  {
    CreatedAgrees(h, t, FreshPeer(addr, source, nTimePenalty));
    UnusedId(t);
    forall b | 0 <= b < |t.vvNew| ensures t.nIdCount !in t.vvNew[b] {
      assert b !in Buckets(t.vvNew, t.nIdCount);
    }
  }

  lemma KnownReady(h: Hasher, t: Tables, id: int, addr: Address, source: NetAddr, nTimePenalty: int, nNow: int)
    requires Consistent(h, t) && addr.net in t.mapAddr && id == t.mapAddr[addr.net]
    ensures id in t.mapInfo && t.mapInfo[id].peer.addr.net == addr.net
    ensures var p := Refreshed(t.mapInfo[id].peer, addr, nTimePenalty, nNow); var t' := SetPeer(t, id, p);
      && Consistent(h, t') && |t'.vvNew| == NEW_BUCKET_COUNT
      && addr.net in BookOf(h, t) && addr.net in BookOf(h, t')
      && BookOf(h, t') == Announced(BookOf(h, t), addr, source, nTimePenalty, nNow)
      && var e := BookOf(h, t')[addr.net];
      && e.peer == p
      && (e.place.InTried? <==> t.mapInfo[id].fInTried)
      && (e.place.InNew? <==> !t.mapInfo[id].fInTried)
      && 0 <= t.mapInfo[id].nRefCount <= NEW_BUCKETS_PER_ADDRESS
      && (e.place.InNew? ==>
            && |e.place.buckets| == t.mapInfo[id].nRefCount
            && forall b :: 0 <= b < NEW_BUCKET_COUNT ==> (b in e.place.buckets <==> id in t'.vvNew[b]))
  {
    var p := Refreshed(t.mapInfo[id].peer, addr, nTimePenalty, nNow);
    var t' := SetPeer(t, id, p);
    EntryShown(h, t, id);
    SetPeerAgrees(h, t, id, p);
    EntryShown(h, t', id);
  }

  // ------------------------------------------------------------------ `MakeTried`

  lemma SameBag(q: seq<int>, r: seq<int>)
    requires multiset(q) == multiset(r)
    ensures |q| == |r| && forall id :: id in q <==> id in r
  {
    assert |q| == |multiset(q)| && |r| == |multiset(r)|;
    assert forall id :: id in q <==> id in multiset(q);
    assert forall id :: id in r <==> id in multiset(r);
  }

  /** Another order inside tried bucket `k`. */
  lemma ReorderedTried(h: Hasher, t: Tables, k: int, q: seq<int>)
    requires TriedOk(h, t) && 0 <= k < |t.vvTried|
    requires multiset(q) == multiset(t.vvTried[k])
    requires forall i, j :: 0 <= i < j < |q| ==> q[i] != q[j]
    ensures TriedOk(h, t.(vvTried := t.vvTried[k := q]))
    ensures |q| == |t.vvTried[k]|
  {
    SameBag(q, t.vvTried[k]);
    var t' := t.(vvTried := t.vvTried[k := q]);
    forall c, i | 0 <= c < |t'.vvTried| && 0 <= i < |t'.vvTried[c]|
      ensures t'.vvTried[c][i] in t.mapInfo && t.mapInfo[t'.vvTried[c][i]].fInTried
      ensures TriedHomeOf(h, t.mapInfo[t'.vvTried[c][i]].peer) == c
    {
      if c == k { assert q[i] in q; } else { assert t.vvTried[c][i] in t.vvTried[c]; }
      var j :| 0 <= j < |t.vvTried[c]| && t.vvTried[c][j] == t'.vvTried[c][i];
    }
    forall id | id in t.mapInfo && t.mapInfo[id].fInTried
      ensures id in t'.vvTried[TriedHomeOf(h, t.mapInfo[id].peer)]
    {
    }
  }

  /** `id` has left every new bucket and is not yet in a tried one. */
  function Erased(t: Tables, id: int): Tables
    requires id in t.mapInfo
  {
    t.(vvNew := Without(t.vvNew, id),
       mapInfo := t.mapInfo[id := t.mapInfo[id].(nRefCount := 0)],
       nNew := t.nNew - 1)
  }

  lemma MovedPromotes(h: Hasher, t: Tables, id: int, origin: int)
    requires Consistent(h, t) && id in t.mapInfo && !t.mapInfo[id].fInTried
    requires |t.vvTried[TriedHomeOf(h, t.mapInfo[id].peer)]| < TRIED_BUCKET_SIZE
    ensures var k, a := TriedHomeOf(h, t.mapInfo[id].peer), t.mapInfo[id].peer.addr.net;
      && Consistent(h, Moved(t, id, k))
      && a in BookOf(h, t)
      && PromotedFor(h, BookOf(h, t), BookOf(h, Moved(t, id, k)), a, origin, a)
  {
    var k := TriedHomeOf(h, t.mapInfo[id].peer);
    MovedAgrees(h, t, id, k);
    TriedMembersSize(h, t, k);
    EntryShown(h, t, id);
    hide IdsOk, AddrIndexOk, RandomOk, TriedOk, NewOk, CountersOk, SizesOk, BookOf, TriedMembers, Moved, PlaceOf;
  }

  /** The new bucket that `MakeTried` chooses for the entry it displaces. */
  function DestOf(h: Hasher, t: Tables, id: int, victim: int, origin: int): int
    requires |t.vvNew| == NEW_BUCKET_COUNT && victim in t.mapInfo
  {
    var p := t.mapInfo[victim].peer;
    var u := GetNewBucket(h, p.addr.net, p.source);
    if |t.vvNew[u] - {id}| < NEW_BUCKET_SIZE then u else origin
  }

  lemma DisplacedPromotes(h: Hasher, t: Tables, id: int, origin: int, pos: int)
    requires Consistent(h, t) && id in t.mapInfo && !t.mapInfo[id].fInTried
    requires 0 <= origin < |t.vvNew| && id in t.vvNew[origin]
    requires |t.vvTried[TriedHomeOf(h, t.mapInfo[id].peer)]| == TRIED_BUCKET_SIZE && 0 <= pos < TRIED_BUCKET_SIZE
    ensures var k, a := TriedHomeOf(h, t.mapInfo[id].peer), t.mapInfo[id].peer.addr.net;
      var dest := DestOf(h, t, id, t.vvTried[k][pos], origin);
      && 0 <= dest < |t.vvNew|
      && Consistent(h, Displaced(t, id, k, pos, dest))
      && a in BookOf(h, t)
      && t.vvTried[k][pos] in t.mapInfo
      && PromotedFor(h, BookOf(h, t), BookOf(h, Displaced(t, id, k, pos, dest)), a, origin,
                     t.mapInfo[t.vvTried[k][pos]].peer.addr.net)
  {
    DisplaceReady(h, t, id, origin, pos);
    hide Consistent, BookOf, TriedMembers, NewMembers, Displaced, PlaceOf, DestOf, Buckets, EvictionBucket;
    var k, a := TriedHomeOf(h, t.mapInfo[id].peer), t.mapInfo[id].peer.addr.net;
    var victim := t.vvTried[k][pos];
    var dest := DestOf(h, t, id, victim, origin);
    DisplacedAgrees(h, t, id, k, pos, dest);
    TriedMembersSize(h, t, k);
    EntryShown(h, t, id);
    EntryShown(h, t, victim);
    DestShown(h, t, id, victim, k, origin);
    var book, v := BookOf(h, t), t.mapInfo[victim].peer.addr.net;
    var moved := book[a := book[a].(place := InTried(k))];
    assert v != a;
    assert BookOf(h, Displaced(t, id, k, pos, dest)) == Evicted(h, moved, v, origin);
  }

  lemma DisplaceReady(h: Hasher, t: Tables, id: int, origin: int, pos: int)
    requires Consistent(h, t) && id in t.mapInfo && !t.mapInfo[id].fInTried
    requires 0 <= origin < |t.vvNew| && id in t.vvNew[origin]
    requires var k := TriedHomeOf(h, t.mapInfo[id].peer); 0 <= pos < |t.vvTried[k]|
    ensures var k := TriedHomeOf(h, t.mapInfo[id].peer);
      && t.vvTried[k][pos] in t.mapInfo
      && MayDisplace(h, t, id, k, pos, DestOf(h, t, id, t.vvTried[k][pos], origin))
  {
    assert |t.vvNew[origin] - {id}| == |t.vvNew[origin]| - 1;
  }

  /** The bucket chosen from the tables is the one the book prescribes. */
  lemma DestShown(h: Hasher, t: Tables, id: int, victim: int, k: int, origin: int)
    requires Consistent(h, t) && id in t.mapInfo && !t.mapInfo[id].fInTried && victim in t.mapInfo
    ensures var a, book := t.mapInfo[id].peer.addr.net, BookOf(h, t);
      && a in book
      && DestOf(h, t, id, victim, origin)
         == EvictionBucket(h, book[a := book[a].(place := InTried(k))], t.mapInfo[victim].peer, origin)
  {
    EntryShown(h, t, id);
    var p := t.mapInfo[victim].peer;
    var u := GetNewBucket(h, p.addr.net, p.source);
    var a, book := t.mapInfo[id].peer.addr.net, BookOf(h, t);
    NewMembersSize(h, t, u, NOBODY);
    assert NewMembers(book[a := book[a].(place := InTried(k))], u) == NewMembers(book, u) - {a};
    assert id in t.vvNew[u] <==> a in NewMembers(book, u);
  }

  /** The new buckets from `n` on that hold `id`. */
  ghost function BucketsFrom(vvNew: seq<set<int>>, id: int, n: nat): set<int> {
    set b | n <= b < |vvNew| && id in vvNew[b]
  }

  /** `id` has left the first `n` new buckets. */
  ghost function WithoutBelow(vvNew: seq<set<int>>, id: int, n: nat): (r: seq<set<int>>)
    requires n <= |vvNew|
    ensures |r| == |vvNew|
  {
    Without(vvNew[..n], id) + vvNew[n..]
  }

  lemma EraseStep(vvNew: seq<set<int>>, id: int, n: nat)
    requires n < |vvNew|
    ensures WithoutBelow(vvNew, id, n)[n] == vvNew[n]
    ensures WithoutBelow(vvNew, id, n)[n := vvNew[n] - {id}] == WithoutBelow(vvNew, id, n + 1)
    ensures id !in vvNew[n] ==> WithoutBelow(vvNew, id, n) == WithoutBelow(vvNew, id, n + 1)
    ensures |BucketsFrom(vvNew, id, n)| == |BucketsFrom(vvNew, id, n + 1)| + if id in vvNew[n] then 1 else 0
  {
    EraseCounts(vvNew, id, n);
    hide BucketsFrom;
    assert WithoutBelow(vvNew, id, n)[n := vvNew[n] - {id}] == WithoutBelow(vvNew, id, n + 1);
    if id !in vvNew[n] {
      assert vvNew[n] - {id} == vvNew[n];
    }
  }

  lemma EraseCounts(vvNew: seq<set<int>>, id: int, n: nat)
    requires n < |vvNew|
    ensures |BucketsFrom(vvNew, id, n)| == |BucketsFrom(vvNew, id, n + 1)| + if id in vvNew[n] then 1 else 0
  {
    if id in vvNew[n] {
      assert BucketsFrom(vvNew, id, n) == BucketsFrom(vvNew, id, n + 1) + {n};
    } else {
      assert BucketsFrom(vvNew, id, n) == BucketsFrom(vvNew, id, n + 1);
    }
  }

  lemma EraseEnds(vvNew: seq<set<int>>, id: int)
    ensures WithoutBelow(vvNew, id, 0) == vvNew && BucketsFrom(vvNew, id, 0) == Buckets(vvNew, id)
    ensures WithoutBelow(vvNew, id, |vvNew|) == Without(vvNew, id) && BucketsFrom(vvNew, id, |vvNew|) == {}
  {
    assert vvNew[..|vvNew|] == vvNew;
    assert WithoutBelow(vvNew, id, 0) == vvNew;
    assert WithoutBelow(vvNew, id, |vvNew|) == Without(vvNew, id);
  }

  /** The tables when the erasing loop has passed the first `n` new buckets. */
  ghost function ErasedBelow(t: Tables, id: int, n: nat): Tables
    requires id in t.mapInfo && n <= |t.vvNew|
  {
    t.(vvNew := WithoutBelow(t.vvNew, id, n),
       mapInfo := t.mapInfo[id := t.mapInfo[id].(nRefCount := |BucketsFrom(t.vvNew, id, n)|)])
  }

  /** One pass of the erasing loop. */
  function ErasedAt(t: Tables, id: int, n: nat): Tables
    requires id in t.mapInfo && n < |t.vvNew|
  {
    if id in t.vvNew[n] then
      t.(vvNew := t.vvNew[n := t.vvNew[n] - {id}],
         mapInfo := t.mapInfo[id := t.mapInfo[id].(nRefCount := t.mapInfo[id].nRefCount - 1)])
    else t
  }

  lemma ErasedBelowStep(t: Tables, id: int, n: nat)
    requires id in t.mapInfo && n < |t.vvNew|
    ensures var u := ErasedBelow(t, id, n);
      && |u.vvNew| == |t.vvNew| && id in u.mapInfo
      && ErasedAt(u, id, n) == ErasedBelow(t, id, n + 1)
  {
    EraseStep(t.vvNew, id, n);
    hide WithoutBelow, BucketsFrom;
  }

  lemma ErasedBelowEnds(t: Tables, id: int)
    requires id in t.mapInfo && t.mapInfo[id].nRefCount == |Buckets(t.vvNew, id)|
    ensures ErasedBelow(t, id, 0) == t && ErasedBelow(t, id, |t.vvNew|).nNew == t.nNew
    ensures ErasedBelow(t, id, |t.vvNew|).(nNew := t.nNew - 1) == Erased(t, id)
  {
    EraseEnds(t.vvNew, id);
    hide WithoutBelow, BucketsFrom, Without;
  }

  lemma ErasedTried(h: Hasher, t: Tables, id: int)
    requires IdsOk(t) && TriedOk(h, t) && id in t.mapInfo && !t.mapInfo[id].fInTried
    ensures IdsOk(Erased(t, id)) && TriedOk(h, Erased(t, id))
  {
    TriedFrame(h, t, Erased(t, id));
  }

  /** The tables before the erasing, with tried bucket `k` in its new order. */
  lemma ShuffleReady(h: Hasher, t: Tables, id: int, k: int, vvTried: seq<seq<int>>, pos: int)
    requires Consistent(h, t) && id in t.mapInfo && !t.mapInfo[id].fInTried
    requires 0 <= k < |t.vvTried| == |vvTried| && |vvTried[k]| == |t.vvTried[k]| && 0 <= pos < |vvTried[k]|
    requires vvTried == t.vvTried[k := vvTried[k]]
    requires TriedOk(h, Erased(t, id).(vvTried := vvTried))
    ensures Consistent(h, t.(vvTried := vvTried)) && BookOf(h, t.(vvTried := vvTried)) == BookOf(h, t)
    ensures vvTried[k][pos] in t.mapInfo && vvTried[k][pos] != id
  {
    var erased := Erased(t, id).(vvTried := vvTried);
    assert erased.mapInfo[vvTried[k][pos]].fInTried;
    TriedFrame(h, erased, t.(vvTried := vvTried));
    ShuffledAgrees(h, t, vvTried);
  }

  lemma RandomSize(t: Tables)
    requires RandomOk(t)
    ensures |t.vRandom| == |t.mapInfo.Keys|
    ensures forall i, j :: 0 <= i < j < |t.vRandom| ==> t.vRandom[i] != t.vRandom[j]
  {
    forall id ensures id in t.mapInfo.Keys <==> id in t.vRandom {
      if id in t.mapInfo { assert t.vRandom[t.mapInfo[id].nRandomPos] == id; }
    }
    DistinctSize(t.vRandom, t.mapInfo.Keys);
  }

  lemma AddressesSize(t: Tables)
    requires AddrIndexOk(t)
    ensures |t.mapAddr.Keys| == |t.mapInfo.Keys|
  {
    var addrOf := map id | id in t.mapInfo :: t.mapInfo[id].peer.addr.net;
    var ids, addrs := t.mapInfo.Keys, t.mapAddr.Keys;
    forall a | a in addrs ensures exists id :: id in ids && addrOf[id] == a {
      var id := t.mapAddr[a];
      assert id in ids && addrOf[id] == a;
    }
    forall id | id in ids ensures addrOf[id] in addrs {
      assert id in t.mapInfo;
    }
    ImageSize(ids, addrs, addrOf);
  }

  /** The random order lists every known address once; `nNew` and `nTried` add up to it. */
  lemma BookSize(h: Hasher, t: Tables)
    requires Consistent(h, t)
    ensures |BookOf(h, t)| == |t.vRandom| == t.nTried + t.nNew
  {
    RandomSize(t);
    AddressesSize(t);
    assert CountersOk(t);
    assert BookOf(h, t).Keys == t.mapAddr.Keys;
    hide AddrIndexOk, RandomOk, TriedOk, NewOk, IdsOk, SizesOk, BookOf;
    assert t.mapInfo.Keys == TriedIds(t.mapInfo) + NewIds(t.mapInfo);
  }

  /** The addresses at the first places of the random order are known, and no two are the same. */
  lemma RandomAddressesDistinct(h: Hasher, t: Tables, n: nat, vAddr: seq<Address>)
    requires Consistent(h, t) && n <= |t.vRandom| && |vAddr| == n
    requires forall i :: 0 <= i < n ==> t.vRandom[i] in t.mapInfo && vAddr[i] == t.mapInfo[t.vRandom[i]].peer.addr
    ensures forall i, j :: 0 <= i < j < n ==> vAddr[i].net != vAddr[j].net
    ensures forall i :: 0 <= i < n ==> vAddr[i].net in BookOf(h, t) && BookOf(h, t)[vAddr[i].net].peer.addr == vAddr[i]
  {
    forall i | 0 <= i < n
      ensures vAddr[i].net in t.mapAddr && t.mapAddr[vAddr[i].net] == t.vRandom[i]
    {
      var id := t.vRandom[i];
      assert id in t.mapInfo && t.mapInfo[id].peer.addr.net == vAddr[i].net;
    }
    RandomSize(t);
    hide TriedOk, NewOk, CountersOk, PlaceOf, RandomOk;
  }

  lemma DrawnRandom(h: Hasher, t: Tables, n: nat, pos: nat)
    requires Consistent(h, t) && n <= pos < |t.vRandom|
    ensures t.vRandom[n] in t.mapInfo && t.vRandom[pos] in t.mapInfo
    ensures var t' := Swapped(t, n, pos);
      && Consistent(h, t') && BookOf(h, t') == BookOf(h, t)
      && multiset(t'.vRandom) == multiset(t.vRandom) && |t'.vRandom| == |t.vRandom|
      && (forall i :: 0 <= i < n ==> t'.vRandom[i] == t.vRandom[i])
      && t'.vRandom[n] == t.vRandom[pos] && t'.vRandom[n] in t'.mapInfo
      && t'.vRandom == t.vRandom[pos := t.vRandom[n]][n := t.vRandom[pos]]
      && (forall id :: id in t.mapInfo ==> id in t'.mapInfo && t'.mapInfo[id].peer == t.mapInfo[id].peer)
  {
    hide AddrIndexOk, TriedOk, NewOk, CountersOk, SizesOk, IdsOk, BookOf;
    SwappedAgrees(h, t, n, pos, NOBODY);
    SwappedKeeps(t, n, pos);
    SwappedPlaces(t, n, pos);
  }

  lemma SwappedPlaces(t: Tables, n: nat, pos: nat)
    requires n <= pos < |t.vRandom| && t.vRandom[n] in t.mapInfo && t.vRandom[pos] in t.mapInfo
    ensures var t' := Swapped(t, n, pos);
      && (forall i :: 0 <= i < n ==> t'.vRandom[i] == t.vRandom[i])
      && t'.vRandom[n] == t.vRandom[pos] && t'.vRandom[n] in t'.mapInfo
      && (forall id :: id in t.mapInfo ==> id in t'.mapInfo && t'.mapInfo[id].peer == t.mapInfo[id].peer)
  {
  }
}
