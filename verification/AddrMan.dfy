/** `CAddrMan`: the address manager, statement by statement, proved against the book it represents.
    Random numbers are inputs: `rnd(i)` is the raw number behind the i-th draw of a call. */
module AddrMan {
  import opened FiniteSets
  import opened AddrTypes
  import opened AddrBook
  import opened AddrTables
  import opened AddrOutcomes
  import opened AddrVictims
  import opened TriedChoice
  import opened AddrStore
  import opened AddrCheck

  class CAddrMan {
    const h: Hasher
    var nIdCount: int
    var mapInfo: map<int, Info>
    var mapAddr: map<NetAddr, int>
    var vRandom: seq<int>
    var nTried: int
    var vvTried: seq<seq<int>>
    var nNew: int
    var vvNew: seq<set<int>>

    ghost function View(): Tables
      reads this
    {
      Tables(nIdCount, mapInfo, mapAddr, vRandom, nTried, vvTried, nNew, vvNew)
    }

    ghost predicate Valid()
      reads this
    {
      Consistent(h, View())
    }

    /** The book that the manager represents. */
    ghost function Book(): Book
      reads this
      requires Valid()
    {
      BookOf(h, View())
    }

    constructor (h: Hasher)
      ensures this.h == h && Valid() && Book() == map[]
    {
      this.h := h;
      nIdCount, mapInfo, mapAddr, vRandom := 0, map[], map[], [];
      nTried, vvTried := 0, seq(TRIED_BUCKET_COUNT, _ => []);
      nNew, vvNew := 0, seq(NEW_BUCKET_COUNT, _ => {});
      new;
      assert TriedIds(mapInfo) == {} && NewIds(mapInfo) == {};
    }

    /** The id known for an address, if any. */
    method Find(a: NetAddr) returns (found: bool, id: int)
      requires AddrIndexOk(View())
      ensures found <==> a in mapAddr
      ensures found ==> id in mapInfo && mapAddr[a] == id && mapInfo[id].peer.addr.net == a
    {
      if a !in mapAddr {
        return false, 0;
      }
      return mapAddr[a] in mapInfo, mapAddr[a];
    }

    method Create(addr: Address, source: NetAddr) returns (id: int)
      requires IdsOk(View())
      modifies this
      ensures id == old(nIdCount)
      ensures View() == Created(old(View()), Peer(addr, source, 0, 0, 0))
    {
      id := nIdCount;
      nIdCount := nIdCount + 1;
      mapInfo := mapInfo[id := Info(Peer(addr, source, 0, 0, 0), 0, false, -1)];
      mapAddr := mapAddr[addr.net := id];
      mapInfo := mapInfo[id := mapInfo[id].(nRandomPos := |vRandom|)];
      vRandom := vRandom + [id];
    }

    method SwapRandom(nRndPos1: nat, nRndPos2: nat)
      requires nRndPos1 < |vRandom| && nRndPos2 < |vRandom|
      requires vRandom[nRndPos1] in mapInfo && vRandom[nRndPos2] in mapInfo
      modifies this
      ensures View() == Swapped(old(View()), nRndPos1, nRndPos2)
    {
      if nRndPos1 == nRndPos2 {
        return;
      }
      var nId1 := vRandom[nRndPos1];
      var nId2 := vRandom[nRndPos2];
      mapInfo := mapInfo[nId1 := mapInfo[nId1].(nRandomPos := nRndPos2)];
      mapInfo := mapInfo[nId2 := mapInfo[nId2].(nRandomPos := nRndPos1)];
      vRandom := vRandom[nRndPos1 := nId2];
      vRandom := vRandom[nRndPos2 := nId1];
    }

    /** The end of an entry: it goes to the last random place, and leaves every table but the buckets. */
    method Forget(id: int)
      requires id in mapInfo && 0 <= mapInfo[id].nRandomPos < |vRandom| && vRandom[mapInfo[id].nRandomPos] == id
      requires vRandom[|vRandom| - 1] in mapInfo
      modifies this
      ensures View() == Popped(Swapped(old(View()), old(mapInfo)[id].nRandomPos, |old(vRandom)| - 1), id)
      ensures vvNew == old(vvNew)
    {
      ghost var t := View();
      SwappedEntry(t, id, mapInfo[id].nRandomPos, |vRandom| - 1);
      hide Swapped;
      var net := mapInfo[id].peer.addr.net;
      SwapRandom(mapInfo[id].nRandomPos, |vRandom| - 1);
      vRandom := vRandom[..|vRandom| - 1];
      mapAddr := mapAddr - {net};
      mapInfo := mapInfo - {id};
      nNew := nNew - 1;
    }

    /** Drop one reference of `id` and, with the last one, `id` itself; then take it out of the bucket. */
    method Unreference(b: nat, id: int)
      requires RandomOk(View()) && b < |vvNew| && id in mapInfo
      modifies this
      ensures View() == Unreferenced(old(View()), b, id)
    {
      hide RandomOk, Swapped, Popped;
      LastPlace(View(), id);
      ghost var t := View();
      mapInfo := mapInfo[id := mapInfo[id].(nRefCount := mapInfo[id].nRefCount - 1)];
      assert View() == SetRefCount(t, id, t.mapInfo[id].nRefCount - 1);
      if mapInfo[id].nRefCount == 0 {
        Forget(id);
      }
      vvNew := vvNew[b := vvNew[b] - {id}];
    }

    /** The first loop of `ShrinkNew`: the least terrible id of a bucket, or `NOBODY`. */
    method FirstTerrible(nUBucket: nat, nNow: int) returns (id: int)
      requires IdsOk(View()) && nUBucket < |vvNew| && forall j :: j in vvNew[nUBucket] ==> j in mapInfo
      ensures id == NOBODY <==> forall j :: !TerribleMember(View(), nUBucket, j, nNow)
      ensures id != NOBODY ==>
        TerribleMember(View(), nUBucket, id, nNow) && forall j :: TerribleMember(View(), nUBucket, j, nNow) ==> id <= j
    {
      var ids := Ascending(vvNew[nUBucket]);
      for i := 0 to |ids|
        invariant forall j :: 0 <= j < i ==> !TerribleMember(View(), nUBucket, ids[j], nNow)
      {
        assert ids[i] in ids;
        if IsTerrible(mapInfo[ids[i]].peer, nNow) {
          assert TerribleMember(View(), nUBucket, ids[i], nNow);
          forall j | TerribleMember(View(), nUBucket, j, nNow) ensures ids[i] <= j {
            assert j in ids;
          }
          return ids[i];
        }
      }
      forall j | j in vvNew[nUBucket] ensures !TerribleMember(View(), nUBucket, j, nNow) {
        assert j in ids;
      }
      return NOBODY;
    }

    /** The second loop of `ShrinkNew`: the oldest of four members drawn at random. */
    method OldestOfFour(nUBucket: nat, rnd: nat -> nat) returns (nOldest: int)
      requires IdsOk(View()) && nUBucket < |vvNew| && vvNew[nUBucket] != {}
      requires forall j :: j in vvNew[nUBucket] ==> j in mapInfo
      ensures exists i :: OldestDrawn(View(), Ascending(vvNew[nUBucket]), rnd, i, |vvNew[nUBucket]|)
                          && nOldest == Ascending(vvNew[nUBucket])[i]
    {
      var ids := Ascending(vvNew[nUBucket]);
      var n0, n1 := GetRandInt(rnd(0), |ids|), GetRandInt(rnd(1), |ids|);
      var n2, n3 := GetRandInt(rnd(2), |ids|), GetRandInt(rnd(3), |ids|);
      nOldest := NOBODY;
      ghost var oldestAt: int := -1;
      OldestSoFarNone(View(), ids, rnd);
      hide Ascending, OldestDrawn, OldestSoFar, GetRandInt, SeenAt;
      for nI := 0 to |ids|
        invariant OldestSoFar(View(), ids, rnd, nOldest, oldestAt, nI)
        invariant nOldest == NOBODY || nOldest in mapInfo
      {
        assert ids[nI] in ids;
        SeenAtIs(View(), ids[nI]);
        SeenAtIs(View(), nOldest);
        OldestSoFarStep(View(), ids, rnd, nOldest, oldestAt, nI);
        if nI == n0 || nI == n1 || nI == n2 || nI == n3 {
          if nOldest == NOBODY || mapInfo[ids[nI]].peer.addr.nTime < mapInfo[nOldest].peer.addr.nTime {
            nOldest, oldestAt := ids[nI], nI;
          }
        }
      }
      OldestSoFarFound(View(), ids, rnd, nOldest, oldestAt);
    }

    /** Remove one member from a bucket: the first terrible one, or the oldest of four drawn at random. */
    method ShrinkNew(nUBucket: nat, nNow: int, rnd: nat -> nat) returns (code: int, ghost victim: int)
      requires IdsOk(View()) && RandomOk(View()) && nUBucket < |vvNew| && vvNew[nUBucket] != {}
      requires forall id :: id in vvNew[nUBucket] ==> id in mapInfo
      modifies this
      ensures |vvNew| == |old(vvNew)| && victim in old(mapInfo)
      ensures ShrinkVictim(old(View()), nUBucket, nNow, rnd, victim)
      ensures Leaves(old(View()), nUBucket, nNow, rnd, victim)
      ensures View() == Unreferenced(old(View()), nUBucket, victim)
      ensures code == 0 <==> exists id :: TerribleMember(old(View()), nUBucket, id, nNow)
    {
      hide RandomOk, IdsOk, Unreferenced, ShrinkVictim, TerribleMember, OldestDrawn, Ascending, Leaves;
      ghost var t := View();
      var terrible := FirstTerrible(nUBucket, nNow);
      if terrible != NOBODY {
        victim := terrible;
        TerribleVictim(t, nUBucket, nNow, rnd, victim);
        VictimLeaves(t, nUBucket, nNow, rnd, victim);
        Unreference(nUBucket, terrible);
        return 0, victim;
      }
      var nOldest := OldestOfFour(nUBucket, rnd);
      victim := nOldest;
      OldestVictim(t, nUBucket, nNow, rnd, victim);
      VictimLeaves(t, nUBucket, nNow, rnd, victim);
      Unreference(nUBucket, nOldest);
      return 1, victim;
    }

    /** Store new facts about a known peer. */
    method Update(id: int, p: Peer)
      requires Valid() && id in mapInfo
      requires p.addr.net == mapInfo[id].peer.addr.net && p.addr.port == mapInfo[id].peer.addr.port
      modifies this
      ensures Valid() && Book() == Touched(old(Book()), p.addr.net, p)
      ensures View() == SetPeer(old(View()), id, p)
    {
      hide Consistent, BookOf, Touched;
      SetPeerAgrees(h, View(), id, p);
      mapInfo := mapInfo[id := mapInfo[id].(peer := p)];
    }

    /** Put `id`, known but in one bucket too few, into bucket `nUBucket`; `v` leaves the bucket if it is full. */
    method EnterNew(nUBucket: nat, id: int, nNow: int, rnd: nat -> nat) returns (ghost v: NetAddr)
      requires Agree(h, View(), id) && nUBucket < |vvNew| && id in mapInfo && id !in vvNew[nUBucket]
      modifies this
      ensures Valid()
      ensures var a, book := old(mapInfo)[id].peer.addr.net, BookOf(h, old(View()));
        && a in book && book[a].place.InNew? && nUBucket !in book[a].place.buckets
        && PlacedFor(book, Book(), a, nUBucket, nNow, v)
      ensures LetGo(old(View()), nUBucket, nNow, rnd, v)
      ensures nIdCount == old(nIdCount) && v in old(mapAddr)
      ensures OrderAfter(old(vRandom), vRandom, old(mapAddr)[v], v !in mapAddr)
    {
      hide Agree, IdsOk, RandomOk, ShrinkVictim, Unreferenced, PlacedFor, BookOf, Leaves, OrderAfter;
      ghost var t, victim := View(), id;
      AgreeParts(h, t, id);
      if |vvNew[nUBucket]| == NEW_BUCKET_SIZE {
        var code;
        code, victim := ShrinkNew(nUBucket, nNow, rnd);
      }
      vvNew := vvNew[nUBucket := vvNew[nUBucket] + {id}];
      assert View() == Listed(t, nUBucket, id, victim);
      ListedPlaces(h, t, nUBucket, id, victim, nNow, rnd);
      v := t.mapInfo[victim].peer.addr.net;
      AddressIndexed(h, t, id, victim);
      ListedOrder(t, nUBucket, id, victim);
    }

    static lemma AddressIndexed(h: Hasher, t: Tables, pending: int, id: int)
      requires Agree(h, t, pending) && id in t.mapInfo
      ensures t.mapInfo[id].peer.addr.net in t.mapAddr && t.mapAddr[t.mapInfo[id].peer.addr.net] == id
    {
      hide RandomOk, TriedOk, NewOk, CountersOk, SizesOk;
    }

    /** The branch of `Add_` for an address that is already known. */
    method AddKnown(nId: int, addr: Address, source: NetAddr, nTimePenalty: int, nNow: int, coin: nat, rnd: nat -> nat)
      returns (ghost v: NetAddr)
      requires Valid() && addr.net in mapAddr && nId == mapAddr[addr.net] && h.routable(addr.net)
      modifies this
      ensures Valid() && AddStepFor(h, old(Book()), Book(), addr, source, nTimePenalty, nNow, coin, false, v)
      ensures addr.net in old(Book()) && addr.net in Book()
      ensures Book()[addr.net].place == old(Book())[addr.net].place
              || LetGo(old(View()), GetNewBucket(h, addr.net, source), nNow, rnd, v)
      ensures nIdCount == old(nIdCount) && v in old(mapAddr)
      ensures OrderAfter(old(vRandom), vRandom, old(mapAddr)[v], v !in mapAddr)
    {
      hide IdsOk, AddrIndexOk, RandomOk, TriedOk, NewOk, CountersOk, SizesOk, BookOf, PlacedFor, Announced, LetGo,
          OrderAfter;
      SameOrder(vRandom, nId);
      KnownReady(h, View(), nId, addr, source, nTimePenalty, nNow);
      AnnouncedPlace(Book(), addr, source, nTimePenalty, nNow);
      v := addr.net;
      var info := mapInfo[nId];
      var p := Refreshed(info.peer, addr, nTimePenalty, nNow);
      mapInfo := mapInfo[nId := mapInfo[nId].(peer := p)];
      assert View() == SetPeer(old(View()), nId, p);
      if !HasNews(p, addr) {
        return;
      }
      if info.fInTried {
        return;
      }
      if info.nRefCount == NEW_BUCKETS_PER_ADDRESS {
        return;
      }
      var nFactor := 1;
      for n := 0 to info.nRefCount
        invariant nFactor == Pow2(n)
      {
        nFactor := nFactor * 2;
      }
      if nFactor > 1 && GetRandInt(coin, nFactor) != 0 {
        return;
      }
      var nUBucket := GetNewBucket(h, p.addr.net, source);
      if nId !in vvNew[nUBucket] {
        CountedAgrees(h, View(), nId);
        mapInfo := mapInfo[nId := mapInfo[nId].(nRefCount := mapInfo[nId].nRefCount + 1)];
        ghost var t := View();
        assert t == SetRefCount(SetPeer(old(View()), nId, p), nId, info.nRefCount + 1);
        v := EnterNew(nUBucket, nId, nNow, rnd);
        MembersAlike(h, old(View()), t, nUBucket, nId);
        LetGoAlike(t, old(View()), nUBucket, nNow, rnd, v);
        PlacedStays(BookOf(h, t), Book(), addr.net, nUBucket, nNow, v);
      }
    }

    /** Whoever enters a bucket is known afterwards. */
    static lemma PlacedStays(book: Book, book': Book, a: NetAddr, b: int, nNow: int, v: NetAddr)
      requires a in book && book[a].place.InNew? && b !in book[a].place.buckets
      requires PlacedFor(book, book', a, b, nNow, v)
      ensures a in book'
    {
    }

    static lemma SameOrder(q: seq<int>, id: int)
      ensures OrderAfter(q, q, id, false)
    {
    }

    /** Merging an announcement moves nobody. */
    static lemma AnnouncedPlace(book: Book, addr: Address, source: NetAddr, nTimePenalty: int, nNow: int)
      requires addr.net in book
      ensures var known := Announced(book, addr, source, nTimePenalty, nNow);
        addr.net in known && known[addr.net].place == book[addr.net].place
    {
    }

    /** Writing one entry leaves the members of a bucket that it is not in as they are. */
    static lemma MembersAlike(h: Hasher, t: Tables, t': Tables, b: int, id: int)
      requires Consistent(h, t) && 0 <= b < |t.vvNew| && id !in t.vvNew[b] && t'.vvNew == t.vvNew
      requires forall j :: j in t.mapInfo && j != id ==> j in t'.mapInfo && t'.mapInfo[j] == t.mapInfo[j]
      ensures forall j :: j in t.vvNew[b] ==>
        j in t.mapInfo && j in t'.mapInfo && t.mapInfo[j].peer == t'.mapInfo[j].peer
    {
      hide IdsOk, AddrIndexOk, RandomOk, TriedOk, CountersOk;
    }

    /** Create an entry that is about to enter its first new bucket. */
    method CreateCounted(addr: Address, source: NetAddr, nTimePenalty: int) returns (nId: int)
      requires IdsOk(View())
      modifies this
      ensures nId == old(nIdCount)
      ensures View() == CreatedCounted(old(View()), FreshPeer(addr, source, nTimePenalty))
    {
      nId := Create(addr, source);
      mapInfo := mapInfo[nId := mapInfo[nId].(peer := FreshPeer(addr, source, nTimePenalty))];
      nNew := nNew + 1;
      mapInfo := mapInfo[nId := mapInfo[nId].(nRefCount := mapInfo[nId].nRefCount + 1)];
    }

    /** The branch of `Add_` for an unknown address. */
    method AddUnknown(addr: Address, source: NetAddr, nTimePenalty: int, nNow: int, rnd: nat -> nat)
      returns (ghost v: NetAddr)
      requires Valid() && addr.net !in mapAddr && h.routable(addr.net)
      modifies this
      ensures Valid() && AddStepFor(h, old(Book()), Book(), addr, source, nTimePenalty, nNow, 0, true, v)
      ensures LetGo(old(View()), GetNewBucket(h, addr.net, source), nNow, rnd, v)
      ensures nIdCount == old(nIdCount) + 1 && (v in old(mapAddr) || (v == addr.net && v in mapAddr))
      ensures OrderAfter(old(vRandom) + [old(nIdCount)], vRandom, if v in old(mapAddr) then old(mapAddr)[v] else 0,
                         v in old(mapAddr) && v !in mapAddr)
    {
      hide IdsOk, AddrIndexOk, RandomOk, TriedOk, CountersOk, SizesOk, BookOf, PlacedFor, LetGo, OrderAfter;
      NewcomerReady(h, View(), addr, source, nTimePenalty, nNow);
      ghost var was := View();
      var nId := CreateCounted(addr, source, nTimePenalty);
      var nUBucket := GetNewBucket(h, addr.net, source);
      ghost var t := View();
      v := EnterNew(nUBucket, nId, nNow, rnd);
      MembersAlike(h, was, t, nUBucket, nId);
      LetGoAlike(t, was, nUBucket, nNow, rnd, v);
      Newcomer(h, was, t, addr, source, nTimePenalty);
      PlacedStays(BookOf(h, t), Book(), addr.net, nUBucket, nNow, v);
      KnownFacts(h, View(), addr.net);
      if v == addr.net {
        StillAll(t.vRandom, vRandom, nId, 0);
      }
    }

    static lemma StillAll(q: seq<int>, q': seq<int>, id: int, other: int)
      requires OrderAfter(q, q', id, false)
      ensures OrderAfter(q, q', other, false)
    {
    }

    static lemma Newcomer(h: Hasher, t: Tables, u: Tables, addr: Address, source: NetAddr, nTimePenalty: int)
      requires u == CreatedCounted(t, FreshPeer(addr, source, nTimePenalty))
      ensures u.nIdCount == t.nIdCount + 1 && u.vRandom == t.vRandom + [t.nIdCount]
      ensures u.mapAddr == t.mapAddr[addr.net := t.nIdCount]
    {
    }

    /** `Add_`; `nNow` is the adjusted time and `coin` the raw draw of the stochastic test. When an address enters a
        full new bucket, `v` is the one that leaves it. */
    method Add(addr: Address, source: NetAddr, nTimePenalty: int, nNow: int, coin: nat, rnd: nat -> nat)
      returns (fNew: bool, ghost v: NetAddr)
      requires Valid()
      modifies this
      ensures Valid() && AddStep(h, old(Book()), Book(), addr, source, nTimePenalty, nNow, coin, fNew)
      ensures AddOutcome(h, old(Book()), Book(), addr, source, nTimePenalty, nNow, coin, fNew, v)
      ensures addr.net in Book()
              && !(addr.net in old(Book()) && old(Book())[addr.net].place == Book()[addr.net].place) ==>
        LetGo(old(View()), GetNewBucket(h, addr.net, source), nNow, rnd, v)
      ensures nIdCount == old(nIdCount) + if fNew then 1 else 0
      ensures OrderAfter(old(vRandom) + (if fNew then [old(nIdCount)] else []), vRandom,
                         if v in old(mapAddr) then old(mapAddr)[v] else 0, v in old(mapAddr) && v !in mapAddr)
    {
      hide BookOf, AddStepFor, AddOutcome, GetNewBucket, LetGo, OrderAfter;
      ghost var t, book := View(), Book();
      SameOrder(vRandom, if addr.net in mapAddr then mapAddr[addr.net] else 0);
      assert vRandom + [] == vRandom;
      KnownFacts(h, t, addr.net);
      v := addr.net;
      if !h.routable(addr.net) {
        fNew := false;
        NothingAdded(h, book, addr, source, nTimePenalty, nNow, coin, v);
      } else {
        var found, nId := Find(addr.net);
        if found {
          v := AddKnown(nId, addr, source, nTimePenalty, nNow, coin, rnd);
        } else {
          v := AddUnknown(addr, source, nTimePenalty, nNow, rnd);
          CoinUnused(h, book, Book(), addr, source, nTimePenalty, nNow, coin, v);
        }
        fNew := !found;
      }
      AddDoes(h, book, Book(), addr, source, nTimePenalty, nNow, coin, fNew, v);
    }

    static lemma KnownFacts(h: Hasher, t: Tables, a: NetAddr)
      requires Consistent(h, t)
      ensures a in BookOf(h, t) <==> a in t.mapAddr
      ensures var book := BookOf(h, t);
        a in book ==> book[a].peer.addr.net == a && (book[a].place.InNew? ==> |book[a].place.buckets| <= 4)
    {
      if a in t.mapAddr {
        EntryShown(h, t, t.mapAddr[a]);
      }
      hide RandomOk, TriedOk, CountersOk;
    }

    static lemma NothingAdded(h: Hasher, book: Book, addr: Address, source: NetAddr, nTimePenalty: int, nNow: int,
        coin: nat, v: NetAddr)
      requires !h.routable(addr.net)
      ensures AddStepFor(h, book, book, addr, source, nTimePenalty, nNow, coin, false, v)
    {
    }

    static lemma CoinUnused(h: Hasher, book: Book, book': Book, addr: Address, source: NetAddr, nTimePenalty: int,
        nNow: int, coin: nat, v: NetAddr)
      requires addr.net !in book && AddStepFor(h, book, book', addr, source, nTimePenalty, nNow, 0, true, v)
      ensures AddStepFor(h, book, book', addr, source, nTimePenalty, nNow, coin, true, v)
    {
    }

    /** `SelectTried`: shuffle the first few entries of a tried bucket and choose one to replace. */
    method SelectTried(nKBucket: nat, rnd: nat -> nat) returns (nOldestPos: int)
      requires IdsOk(View()) && TriedOk(h, View()) && nKBucket < |vvTried| && vvTried[nKBucket] != []
      modifies this
      ensures TriedOk(h, View()) && 0 <= nOldestPos < |old(vvTried)[nKBucket]|
      ensures |vvTried| == |old(vvTried)| && |vvTried[nKBucket]| == |old(vvTried)[nKBucket]|
      ensures View() == old(View()).(vvTried := old(vvTried)[nKBucket := vvTried[nKBucket]])
      ensures var vTried := old(vvTried)[nKBucket];
        && AllKnown(vTried, LastSuccesses(mapInfo))
        && vvTried[nKBucket] == Shuffled(vTried, rnd, Inspected(|vTried|))
        && nOldestPos == ChosenSlot(vTried, LastSuccesses(mapInfo), rnd)
        && AllKnown(vvTried[nKBucket], LastSuccesses(mapInfo))
        && (LeastRecent(vvTried[nKBucket], LastSuccesses(mapInfo), nOldestPos)
            <==> PromiseKept(vTried, LastSuccesses(mapInfo), rnd))
    {
      hide LeastRecent, PromiseKept, ChosenSlot, Shuffled;
      ghost var t := View();
      var vTried;
      vTried, nOldestPos := ShuffleAndChoose(vvTried[nKBucket], LastSuccesses(mapInfo), rnd);
      LeastRecentReturnedIff(vvTried[nKBucket], LastSuccesses(mapInfo), rnd);
      assert Distinct(vvTried[nKBucket]);
      ShuffledDistinct(vvTried[nKBucket], rnd, Inspected(|vvTried[nKBucket]|));
      ShuffledPermutes(vvTried[nKBucket], rnd, Inspected(|vvTried[nKBucket]|));
      ReorderedTried(h, t, nKBucket, vTried);
      vvTried := vvTried[nKBucket := vTried];
    }

    method EraseFromBucket(id: int, n: nat)
      requires id in mapInfo && n < |vvNew|
      modifies this
      ensures View() == ErasedAt(old(View()), id, n)
    {
      if id in vvNew[n] {
        vvNew := vvNew[n := vvNew[n] - {id}];
        mapInfo := mapInfo[id := mapInfo[id].(nRefCount := mapInfo[id].nRefCount - 1)];
      }
    }

    /** The loop of `MakeTried` that takes `id` out of every new bucket. */
    method EraseFromNew(id: int)
      requires id in mapInfo && mapInfo[id].nRefCount == |Buckets(vvNew, id)|
      modifies this
      ensures View() == Erased(old(View()), id)
    {
      ghost var t := View();
      ErasedBelowEnds(t, id);
      hide ErasedBelow, Erased, ErasedAt, Buckets;
      for n := 0 to |vvNew|
        invariant View() == ErasedBelow(t, id, n) && |vvNew| == |t.vvNew|
      {
        ErasedBelowStep(t, id, n);
        EraseFromBucket(id, n);
      }
      nNew := nNew - 1;
    }

    /** The part of `MakeTried` for a tried bucket with room; `t` is the state before `EraseFromNew`. */
    method AppendTried(nId: int, nKBucket: nat, ghost t: Tables)
      requires nId in t.mapInfo && View() == Erased(t, nId) && nKBucket < |vvTried|
      modifies this
      ensures View() == Moved(t, nId, nKBucket)
    {
      vvTried := vvTried[nKBucket := vvTried[nKBucket] + [nId]];
      nTried := nTried + 1;
      mapInfo := mapInfo[nId := mapInfo[nId].(fInTried := true)];
    }

    /** The part of `MakeTried` for a full tried bucket, the entry at `nPos` being replaced. */
    method ReplaceTried(nId: int, nOrigin: nat, nKBucket: nat, nPos: nat, ghost t: Tables)
      requires nId in t.mapInfo && View() == Erased(t, nId)
      requires |t.vvNew| == NEW_BUCKET_COUNT && nOrigin < |t.vvNew|
      requires nKBucket < |vvTried| && nPos < |vvTried[nKBucket]|
      requires vvTried[nKBucket][nPos] in t.mapInfo && vvTried[nKBucket][nPos] != nId
      modifies this
      ensures var dest := DestOf(h, t, nId, t.vvTried[nKBucket][nPos], nOrigin);
        0 <= dest < |t.vvNew| && View() == Displaced(t, nId, nKBucket, nPos, dest)
    {
      hide Without, GetNewBucket, DestOf;
      DestRoom(h, t, nId, vvTried[nKBucket][nPos], nOrigin);
      var victim := vvTried[nKBucket][nPos];
      Demote(victim, nOrigin);
      nNew := nNew + 1;
      vvTried := vvTried[nKBucket := vvTried[nKBucket][nPos := nId]];
      mapInfo := mapInfo[nId := mapInfo[nId].(fInTried := true)];
    }

    static lemma DestRoom(h: Hasher, t: Tables, id: int, victim: int, origin: nat)
      requires |t.vvNew| == NEW_BUCKET_COUNT && victim in t.mapInfo && origin < |t.vvNew|
      ensures var own := GetNewBucket(h, t.mapInfo[victim].peer.addr.net, t.mapInfo[victim].peer.source);
        var dest := if |Without(t.vvNew, id)[own]| < NEW_BUCKET_SIZE then own else origin;
        DestOf(h, t, id, victim, origin) == dest && 0 <= dest < |t.vvNew|
    {
    }

    /** The entry that is replaced goes back to a new bucket: its own if there is room,
        otherwise that of its successor. */
    method Demote(victim: int, nOrigin: nat)
      requires victim in mapInfo && |vvNew| == NEW_BUCKET_COUNT && nOrigin < |vvNew|
      modifies this`mapInfo, this`vvNew
      ensures mapInfo == old(mapInfo)[victim := old(mapInfo)[victim].(fInTried := false, nRefCount := 1)]
      ensures var own := GetNewBucket(h, old(mapInfo)[victim].peer.addr.net, old(mapInfo)[victim].peer.source);
        var dest := if |old(vvNew)[own]| < NEW_BUCKET_SIZE then own else nOrigin;
        vvNew == old(vvNew)[dest := old(vvNew)[dest] + {victim}]
    {
      var nUBucket := GetNewBucket(h, mapInfo[victim].peer.addr.net, mapInfo[victim].peer.source);
      mapInfo := mapInfo[victim := mapInfo[victim].(fInTried := false, nRefCount := 1)];
      if |vvNew[nUBucket]| < NEW_BUCKET_SIZE {
        vvNew := vvNew[nUBucket := vvNew[nUBucket] + {victim}];
      } else {
        vvNew := vvNew[nOrigin := vvNew[nOrigin] + {victim}];
      }
    }

    /** `MakeTried` when the tried bucket is full: choose the entry that gives way, and replace it. */
    method PromoteReplacing(nId: int, nOrigin: nat, nKBucket: nat, rnd: nat -> nat, ghost t: Tables)
      returns (ghost v: NetAddr)
      requires Consistent(h, t) && nId in t.mapInfo && !t.mapInfo[nId].fInTried
      requires nOrigin < |t.vvNew| && nId in t.vvNew[nOrigin] && View() == Erased(t, nId)
      requires nKBucket == TriedHomeOf(h, t.mapInfo[nId].peer) && |t.vvTried[nKBucket]| == TRIED_BUCKET_SIZE
      modifies this
      ensures Valid()
      ensures var a, book := t.mapInfo[nId].peer.addr.net, BookOf(h, t);
        a in book && PromotedFor(h, book, Book(), a, nOrigin, v)
      ensures GivesWay(t, nKBucket, rnd, v)
      ensures vRandom == t.vRandom && nIdCount == t.nIdCount && mapAddr == t.mapAddr
      ensures vvTried == t.vvTried[nKBucket := Seated(t, nKBucket, rnd, nId)]
    {
      hide Consistent, IdsOk, TriedOk, BookOf, PromotedFor, GivesWay, Seated, Shuffled, ChosenSlot, LeastRecent,
          PromiseKept, Erased, AllKnown, TriedHomeOf;
      ErasedSound(h, t, nId);
      var nPos := SelectTried(nKBucket, rnd);
      ghost var u := t.(vvTried := vvTried);
      Chosen(t, nId, nKBucket, vvTried[nKBucket], nPos, rnd);
      ShuffleReady(h, t, nId, nKBucket, vvTried, nPos);
      v := t.mapInfo[vvTried[nKBucket][nPos]].peer.addr.net;
      ErasedReordered(t, nId, vvTried);
      PromoteDisplacing(nId, nOrigin, nKBucket, nPos, u, v);
    }

    /** The rest of `MakeTried` once slot `nPos` of the shuffled bucket is chosen. */
    method PromoteDisplacing(nId: int, nOrigin: nat, nKBucket: nat, nPos: nat, ghost u: Tables, ghost v: NetAddr)
      requires Consistent(h, u) && nId in u.mapInfo && !u.mapInfo[nId].fInTried
      requires nOrigin < |u.vvNew| && nId in u.vvNew[nOrigin] && View() == Erased(u, nId)
      requires nKBucket == TriedHomeOf(h, u.mapInfo[nId].peer) && |u.vvTried[nKBucket]| == TRIED_BUCKET_SIZE
      requires nPos < TRIED_BUCKET_SIZE && u.vvTried[nKBucket][nPos] in u.mapInfo && u.vvTried[nKBucket][nPos] != nId
      requires v == u.mapInfo[u.vvTried[nKBucket][nPos]].peer.addr.net
      modifies this
      ensures Valid()
      ensures var a, book := u.mapInfo[nId].peer.addr.net, BookOf(h, u);
        a in book && PromotedFor(h, book, Book(), a, nOrigin, v)
      ensures vRandom == u.vRandom && nIdCount == u.nIdCount && mapAddr == u.mapAddr
      ensures vvTried == u.vvTried[nKBucket := u.vvTried[nKBucket][nPos := nId]]
    {
      hide Consistent, IdsOk, TriedOk, BookOf, Displaced, PromotedFor, DestOf, Erased, TriedHomeOf;
      ErasedSound(h, u, nId);
      DisplacedPromotes(h, u, nId, nOrigin, nPos);
      ReplaceTried(nId, nOrigin, nKBucket, nPos, u);
      DisplacedSeats(u, nId, nKBucket, nPos, DestOf(h, u, nId, u.vvTried[nKBucket][nPos], nOrigin));
    }

    static lemma ErasedSound(h: Hasher, t: Tables, id: int)
      requires Consistent(h, t) && id in t.mapInfo && !t.mapInfo[id].fInTried
      ensures |t.vvTried| == TRIED_BUCKET_COUNT && |t.vvNew| == NEW_BUCKET_COUNT
      ensures 0 <= TriedHomeOf(h, t.mapInfo[id].peer) < TRIED_BUCKET_COUNT
      ensures var u := Erased(t, id);
        && IdsOk(u) && TriedOk(h, u) && u.vvTried == t.vvTried && u.vRandom == t.vRandom && u.nIdCount == t.nIdCount
    {
      ErasedTried(h, t, id);
      hide Without, AddrIndexOk, RandomOk, CountersOk, SizesOk;
    }

    static lemma ErasedReordered(t: Tables, id: int, vvTried: seq<seq<int>>)
      requires id in t.mapInfo
      ensures Erased(t, id).(vvTried := vvTried) == Erased(t.(vvTried := vvTried), id)
    {
    }

    static lemma DisplacedSeats(t: Tables, id: int, k: nat, pos: nat, dest: int)
      requires id in t.mapInfo && k < |t.vvTried| && pos < |t.vvTried[k]|
      requires t.vvTried[k][pos] in t.mapInfo && 0 <= dest < |t.vvNew|
      ensures var u := Displaced(t, id, k, pos, dest);
        && u.vRandom == t.vRandom && u.nIdCount == t.nIdCount && u.mapAddr == t.mapAddr
        && u.vvTried == t.vvTried[k := t.vvTried[k][pos := id]]
    {
      hide Without;
    }

    /** The entry in the chosen slot, by the tables before `nId` left its new buckets. */
    static lemma Chosen(t: Tables, nId: int, k: nat, vTried: seq<int>, nPos: nat, rnd: nat -> nat)
      requires nId in t.mapInfo && k < |t.vvTried| && |t.vvTried[k]| == TRIED_BUCKET_SIZE
      requires var q, lastSuccess := t.vvTried[k], LastSuccesses(Erased(t, nId).mapInfo);
        && AllKnown(q, lastSuccess)
        && vTried == Shuffled(q, rnd, Inspected(|q|)) && nPos == ChosenSlot(q, lastSuccess, rnd)
      ensures nPos < |vTried| && vTried[nPos] in t.mapInfo
      ensures Seated(t, k, rnd, nId) == vTried[nPos := nId]
      ensures GivesWay(t, k, rnd, t.mapInfo[vTried[nPos]].peer.addr.net)
    {
      hide Without, Shuffled, ChosenSlot;
      assert LastSuccesses(Erased(t, nId).mapInfo) == LastSuccesses(t.mapInfo);
      FromBucket(t.vvTried[k], rnd, 4, nPos);
    }

    /** `MakeTried` when the tried bucket has room. */
    method PromoteAppending(nId: int, nOrigin: nat, nKBucket: nat, ghost rnd: nat -> nat, ghost t: Tables)
      requires Consistent(h, t) && nId in t.mapInfo && !t.mapInfo[nId].fInTried && View() == Erased(t, nId)
      requires nKBucket == TriedHomeOf(h, t.mapInfo[nId].peer) && nKBucket < |t.vvTried|
      requires |t.vvTried[nKBucket]| < TRIED_BUCKET_SIZE
      modifies this
      ensures Valid()
      ensures var a, book := t.mapInfo[nId].peer.addr.net, BookOf(h, t);
        a in book && PromotedFor(h, book, Book(), a, nOrigin, a)
      ensures GivesWay(t, nKBucket, rnd, t.mapInfo[nId].peer.addr.net)
      ensures vRandom == t.vRandom && nIdCount == t.nIdCount && mapAddr == t.mapAddr
      ensures vvTried == t.vvTried[nKBucket := Seated(t, nKBucket, rnd, nId)]
    {
      hide Consistent, BookOf, Moved, PromotedFor, TriedHomeOf, Shuffled, ChosenSlot, Erased;
      ErasedSound(h, t, nId);
      MovedPromotes(h, t, nId, nOrigin);
      MovedSeats(t, nId, nKBucket);
      AppendTried(nId, nKBucket, t);
    }

    static lemma MovedSeats(t: Tables, id: int, k: nat)
      requires id in t.mapInfo && k < |t.vvTried|
      ensures var u := Moved(t, id, k);
        && u.vRandom == t.vRandom && u.nIdCount == t.nIdCount && u.mapAddr == t.mapAddr
        && u.vvTried == t.vvTried[k := t.vvTried[k] + [id]]
    {
      hide Without;
    }

    /** `MakeTried`: `nId`, in new bucket `nOrigin`, moves to the tried table; `v` gives way when its tried bucket is
        full. */
    method MakeTried(nId: int, nOrigin: nat, rnd: nat -> nat) returns (ghost v: NetAddr)
      requires Valid() && nId in mapInfo && !mapInfo[nId].fInTried
      requires nOrigin < |vvNew| && nId in vvNew[nOrigin]
      modifies this
      ensures Valid()
      ensures var a, book := old(mapInfo)[nId].peer.addr.net, old(Book());
        a in book && PromotedFor(h, book, Book(), a, nOrigin, v)
      ensures GivesWay(old(View()), TriedHomeOf(h, old(mapInfo)[nId].peer), rnd, v)
      ensures vRandom == old(vRandom) && nIdCount == old(nIdCount) && mapAddr == old(mapAddr)
      ensures Sits(old(View()), vvTried, TriedHomeOf(h, old(mapInfo)[nId].peer), rnd, nId)
    {
      ghost var t := View();
      v := mapInfo[nId].peer.addr.net;
      EraseFromNew(nId);
      var nKBucket := GetTriedBucket(h, mapInfo[nId].peer.addr.net, mapInfo[nId].peer.addr.port);
      if |vvTried[nKBucket]| < TRIED_BUCKET_SIZE {
        PromoteAppending(nId, nOrigin, nKBucket, rnd, t);
      } else {
        v := PromoteReplacing(nId, nOrigin, nKBucket, rnd, t);
      }
    }

    /** The id known for exactly this address and port, if any. */
    method FindService(net: NetAddr, port: nat) returns (found: bool, id: int)
      requires Valid()
      ensures found <==> Names(Book(), net, port)
      ensures found ==> id in mapInfo && mapInfo[id].peer.addr.net == net && Book()[net].peer == mapInfo[id].peer
      ensures found ==> Book()[net].place == PlaceOf(h, View(), id)
    {
      found, id := Find(net);
      if found {
        EntryShown(h, View(), id);
        found := mapInfo[id].peer.addr.port == port;
      }
    }

    /** `Attempt_`. */
    method Attempt(net: NetAddr, port: nat, nTime: int)
      requires Valid()
      modifies this
      ensures Valid() && Book() == AttemptStep(old(Book()), net, port, nTime)
      ensures Attempted(old(Book()), Book(), net, port, nTime)
    {
      AttemptDoes(Book(), net, port, nTime);
      hide BookOf;
      var found, id := FindService(net, port);
      if found {
        Update(id, MarkedTried(mapInfo[id].peer, nTime));
      }
    }

    /** `Connected_`. */
    method Connected(net: NetAddr, port: nat, nTime: int)
      requires Valid()
      modifies this
      ensures Valid() && Book() == ConnectedStep(old(Book()), net, port, nTime)
      ensures SeenAgain(old(Book()), Book(), net, port, nTime)
    {
      ConnectedDoes(Book(), net, port, nTime);
      hide BookOf;
      var found, id := FindService(net, port);
      if found {
        Update(id, MarkedConnected(mapInfo[id].peer, nTime));
      }
    }

    /** The loop of `Good_` that looks for a new bucket holding `id`, from a random start. */
    method FindBucket(id: int, nRnd: nat) returns (nUBucket: int)
      requires |vvNew| == NEW_BUCKET_COUNT
      ensures nUBucket == -1 <==> Buckets(vvNew, id) == {}
      ensures nUBucket != -1 ==> FirstFrom(Buckets(vvNew, id), nRnd, nUBucket)
    {
      for n := 0 to |vvNew|
        invariant forall m: nat :: m < n ==> Around(nRnd, m) !in Buckets(vvNew, id)
      {
        var nB := (n + nRnd) % |vvNew|;
        assert nB == Around(nRnd, n);
        if id in vvNew[nB] {
          assert nB in Buckets(vvNew, id);
          return nB;
        }
      }
      forall b | 0 <= b < |vvNew| ensures id !in vvNew[b] {
        var n := (b - nRnd) % NEW_BUCKET_COUNT;
        AroundReaches(nRnd, b);
      }
      return -1;
    }

    /** Walking all buckets from any start meets every one of them. */
    lemma AroundReaches(start: nat, b: nat)
      requires b < NEW_BUCKET_COUNT
      ensures (b - start) % NEW_BUCKET_COUNT < NEW_BUCKET_COUNT
      ensures Around(start, (b - start) % NEW_BUCKET_COUNT) == b
    {
    }

    /** `Good_`; `start` is the raw draw of the first bucket to look at. An entry that becomes tried is found in new
        bucket `origin`, and `v` gives way to it when its tried bucket is full. */
    method Good(net: NetAddr, port: nat, nTime: int, start: nat, rnd: nat -> nat)
      returns (ghost origin: int, ghost v: NetAddr)
      requires Valid()
      modifies this
      ensures Valid() && GoodStep(h, old(Book()), Book(), net, port, nTime, GetRandInt(start, NEW_BUCKET_COUNT))
      ensures GoodOutcome(h, old(Book()), Book(), net, port, nTime, start % 256, origin, v)
      ensures net in Book() && net in old(Book()) && Book()[net].place != old(Book())[net].place ==>
        GivesWay(old(View()), GetTriedBucket(h, net, port), rnd, v)
      ensures vRandom == old(vRandom) && nIdCount == old(nIdCount) && mapAddr == old(mapAddr)
      ensures if net in old(Book()) && old(Book())[net].peer.addr.port == port && old(Book())[net].place.InNew?
              then net in mapAddr && Sits(old(View()), vvTried, GetTriedBucket(h, net, port), rnd, mapAddr[net])
              else vvTried == old(vvTried)
    {
      hide BookOf, GoodOutcome, GoodStepFor, GivesWay, GetTriedBucket, Sits;
      ghost var t, book := View(), Book();
      KnownFacts(h, t, net);
      origin, v := GoodNamed(net, port, nTime, start, rnd);
      GoodDoes(h, book, Book(), net, port, nTime, start % 256, origin, v);
    }

    method GoodNamed(net: NetAddr, port: nat, nTime: int, start: nat, rnd: nat -> nat)
      returns (ghost origin: int, ghost v: NetAddr)
      requires Valid()
      modifies this
      ensures Valid()
      ensures GoodStepFor(h, old(Book()), Book(), net, port, nTime, GetRandInt(start, NEW_BUCKET_COUNT), origin, v)
      ensures net in Book() && net in old(Book()) && Book()[net].place != old(Book())[net].place ==>
        GivesWay(old(View()), GetTriedBucket(h, net, port), rnd, v)
      ensures vRandom == old(vRandom) && nIdCount == old(nIdCount) && mapAddr == old(mapAddr)
      ensures if Names(old(Book()), net, port) && old(Book())[net].place.InNew?
              then net in mapAddr && Sits(old(View()), vvTried, GetTriedBucket(h, net, port), rnd, mapAddr[net])
              else vvTried == old(vvTried)
    {
      hide GivesWay, GetTriedBucket, PromotedFor, FirstFrom, MarkedGood, BookOf, Sits;
      origin, v := 0, net;
      var found, nId := FindService(net, port);
      if !found {
        return;
      }
      ghost var t := View();
      Marked(mapInfo[nId].peer, nTime);
      Update(nId, MarkedGood(mapInfo[nId].peer, nTime));
      EntryShown(h, View(), nId);
      if mapInfo[nId].fInTried {
        return;
      }
      ghost var u := View();
      TriedAlike(h, u, t, nId);
      hide Consistent;
      origin, v := Promote(nId, start, rnd);
      GivesWayAlike(u, t, GetTriedBucket(h, net, port), rnd, v);
      SitsAlike(u, t, vvTried, GetTriedBucket(h, net, port), rnd, nId);
    }

    /** The part of `Good_` for a new entry. */
    method Promote(nId: int, start: nat, rnd: nat -> nat) returns (ghost origin: int, ghost v: NetAddr)
      requires Valid() && nId in mapInfo && !mapInfo[nId].fInTried
      modifies this
      ensures Valid()
      ensures var a, book := old(mapInfo)[nId].peer.addr.net, old(Book());
        && a in book && book[a].place.InNew?
        && FirstFrom(book[a].place.buckets, GetRandInt(start, NEW_BUCKET_COUNT), origin)
        && PromotedFor(h, book, Book(), a, origin, v)
      ensures GivesWay(old(View()), TriedHomeOf(h, old(mapInfo)[nId].peer), rnd, v)
      ensures vRandom == old(vRandom) && nIdCount == old(nIdCount) && mapAddr == old(mapAddr)
      ensures Sits(old(View()), vvTried, TriedHomeOf(h, old(mapInfo)[nId].peer), rnd, nId)
    {
      hide GivesWay, PromotedFor, FirstFrom, Buckets, BookOf;
      EntryShown(h, View(), nId);
      HeldSomewhere(h, View(), nId);
      var nUBucket := FindBucket(nId, GetRandInt(start, |vvNew|));
      if nUBucket == -1 {
        assert false;
        return;
      }
      origin := nUBucket;
      FoundHolds(vvNew, nId, GetRandInt(start, NEW_BUCKET_COUNT), nUBucket);
      v := MakeTried(nId, nUBucket, rnd);
    }

    static lemma Marked(p: Peer, nTime: int)
      ensures MarkedGood(p, nTime).addr.net == p.addr.net && MarkedGood(p, nTime).addr.port == p.addr.port
    {
    }

    static lemma HeldSomewhere(h: Hasher, t: Tables, id: int)
      requires Consistent(h, t) && id in t.mapInfo && !t.mapInfo[id].fInTried
      ensures Buckets(t.vvNew, id) != {}
    {
      hide AddrIndexOk, RandomOk, TriedOk, CountersOk, Buckets;
    }

    static lemma FoundHolds(vvNew: seq<set<int>>, id: int, start: nat, b: int)
      requires FirstFrom(Buckets(vvNew, id), start, b)
      ensures 0 <= b < |vvNew| && id in vvNew[b]
    {
    }

    /** Writing a new entry leaves the entries of the tried buckets as they are. */
    static lemma TriedAlike(h: Hasher, t: Tables, t': Tables, id: int)
      requires Consistent(h, t) && id in t.mapInfo && !t.mapInfo[id].fInTried && t'.vvTried == t.vvTried
      requires forall j :: j in t.mapInfo && j != id ==> j in t'.mapInfo && t'.mapInfo[j] == t.mapInfo[j]
      ensures forall k, i :: 0 <= k < |t.vvTried| && 0 <= i < |t.vvTried[k]| ==>
        var j := t.vvTried[k][i]; j in t.mapInfo && j in t'.mapInfo && t.mapInfo[j].peer == t'.mapInfo[j].peer
    {
      hide IdsOk, AddrIndexOk, RandomOk, NewOk, CountersOk;
    }

    /** One step of the shuffle of `GetAddr_`. */
    method DrawRandom(n: nat, raw: nat)
      requires Valid() && n < |vRandom|
      modifies this
      ensures Valid() && Book() == old(Book())
      ensures multiset(vRandom) == old(multiset(vRandom)) && |vRandom| == |old(vRandom)|
      ensures forall i :: 0 <= i < n ==> vRandom[i] == old(vRandom)[i]
      ensures forall id :: id in old(mapInfo) ==> id in mapInfo && mapInfo[id].peer == old(mapInfo)[id].peer
      ensures vRandom[n] == old(vRandom)[GetRandInt(raw, |old(vRandom)| - n) + n] && vRandom[n] in mapInfo
      ensures vRandom == Exchanged(old(vRandom), n, GetRandInt(raw, |old(vRandom)| - n) + n)
    {
      hide AddrIndexOk, RandomOk, TriedOk, NewOk, CountersOk, SizesOk, IdsOk, BookOf, Swapped, GetRandInt;
      var nRndPos := GetRandInt(raw, |vRandom| - n) + n;
      DrawnRandom(h, View(), n, nRndPos);
      SwapRandom(n, nRndPos);
    }

    static lemma ShuffledStart(q: seq<int>, rnd: nat -> nat)
      ensures Shuffled(q, rnd, 0) == q
    {
    }

    /** `GetAddr_`: a random choice of up to 23 percent of the known addresses. */
    method GetAddr(rnd: nat -> nat) returns (vAddr: seq<Address>)
      requires Valid()
      modifies this
      ensures Valid() && Book() == old(Book())
      ensures var share := 23 * |Book()| / 100; |vAddr| == if share > 2500 then 2500 else share
      ensures forall i, j :: 0 <= i < j < |vAddr| ==> vAddr[i].net != vAddr[j].net
      ensures forall i :: 0 <= i < |vAddr| ==> vAddr[i].net in Book() && Book()[vAddr[i].net].peer.addr == vAddr[i]
      ensures multiset(vRandom) == old(multiset(vRandom)) && |vAddr| <= |vRandom| == |old(vRandom)|
      ensures vRandom == Shuffled(old(vRandom), rnd, |vAddr|)
      ensures forall i :: 0 <= i < |vAddr| ==> vRandom[i] in mapInfo && vAddr[i] == mapInfo[vRandom[i]].peer.addr
    {
      hide AddrIndexOk, RandomOk, TriedOk, NewOk, CountersOk, SizesOk, IdsOk, BookOf, GetRandInt,
          Exchanged, Shuffled, Draw, DrawnFrom, Consistent;
      BookSize(h, View());
      ShuffledStart(vRandom, rnd);
      var nNodes := GETADDR_MAX_PCT * |vRandom| / 100;
      if nNodes > GETADDR_MAX {
        nNodes := GETADDR_MAX;
      }
      vAddr := [];
      for n := 0 to nNodes
        invariant Valid() && Book() == old(Book())
        invariant multiset(vRandom) == old(multiset(vRandom)) && |vRandom| == |old(vRandom)|
        invariant |vAddr| == n && vRandom == Shuffled(old(vRandom), rnd, n)
        invariant forall i :: 0 <= i < n ==> vRandom[i] in mapInfo && vAddr[i] == mapInfo[vRandom[i]].peer.addr
      {
        ShuffledStep(old(vRandom), rnd, n);
        DrawRandom(n, rnd(n));
        vAddr := vAddr + [mapInfo[vRandom[n]].peer.addr];
      }
      RandomAddressesDistinct(h, View(), nNodes, vAddr);
    }

    // ---------------------------------------------------------------- saving

    /** The first loop of `Serialize`: the new entries in id order, and the file id of each. */
    method WriteNew() returns (infos: seq<Saved>, mapUnkIds: map<int, int>)
      requires Valid()
      ensures infos == SavedOf(View(), NewOrder(View())) && Numbers(mapUnkIds, NewOrder(View()))
    {
      infos, mapUnkIds := [], map[];
      var nIds, ids, i := 0, Ascending(mapInfo.Keys), 0;
      ghost var keep, t := NewIds(mapInfo), View();
      hide IdsOk, AddrIndexOk, RandomOk, TriedOk, NewOk, CountersOk, SizesOk, NewIds, NewOrder, Numbers, SavedOf, Kept;
      WriteReady(h, t);
      KeptNothing(keep);
      while i < |ids| && nIds != nNew
        invariant 0 <= i <= |ids| && nIds == |Kept(ids[..i], keep)|
        invariant infos == SavedOf(t, Kept(ids[..i], keep)) && Numbers(mapUnkIds, Kept(ids[..i], keep))
      {
        assert ids[i] in ids;
        KeptStep(ids, keep, i);
        NumbersStep(mapUnkIds, Kept(ids[..i], keep), ids[i]);
        SavedStep(t, Kept(ids[..i], keep), ids[i]);
        mapUnkIds := mapUnkIds[ids[i] := nIds];
        if mapInfo[ids[i]].nRefCount != 0 {
          infos := infos + [Save(mapInfo[ids[i]].peer)];
          nIds := nIds + 1;
        }
        i := i + 1;
      }
      KeptAll(ids, keep, i);
    }

    /** The second loop of `Serialize`: the tried entries in id order. */
    method WriteTried() returns (infos: seq<Saved>)
      requires Valid()
      ensures infos == SavedOf(View(), TriedOrder(View()))
    {
      infos := [];
      var nIds, ids, i := 0, Ascending(mapInfo.Keys), 0;
      ghost var keep, t := TriedIds(mapInfo), View();
      hide IdsOk, AddrIndexOk, RandomOk, TriedOk, NewOk, CountersOk, SizesOk, TriedIds, TriedOrder, SavedOf, Kept;
      WriteReady(h, t);
      KeptNothing(keep);
      while i < |ids| && nIds != nTried
        invariant 0 <= i <= |ids| && nIds == |Kept(ids[..i], keep)|
        invariant infos == SavedOf(t, Kept(ids[..i], keep))
      {
        assert ids[i] in ids;
        KeptStep(ids, keep, i);
        SavedStep(t, Kept(ids[..i], keep), ids[i]);
        if mapInfo[ids[i]].fInTried {
          infos := infos + [Save(mapInfo[ids[i]].peer)];
          nIds := nIds + 1;
        }
        i := i + 1;
      }
      KeptAll(ids, keep, i);
    }

    /** One pass of the last loop of `Serialize`: the file ids of one new bucket. */
    method WriteBucket(b: nat, mapUnkIds: map<int, int>) returns (indices: seq<int>)
      requires b < |vvNew| && forall id :: id in vvNew[b] ==> id in mapUnkIds
      ensures |indices| == |Ascending(vvNew[b])|
      ensures forall j :: 0 <= j < |indices| ==>
        Ascending(vvNew[b])[j] in mapUnkIds && indices[j] == mapUnkIds[Ascending(vvNew[b])[j]]
    {
      indices := [];
      var ids := Ascending(vvNew[b]);
      hide Ascending;
      assert forall j :: 0 <= j < |ids| ==> ids[j] in vvNew[b] && ids[j] in mapUnkIds;
      for i := 0 to |ids|
        invariant |indices| == i
        invariant forall j :: 0 <= j < i ==> indices[j] == mapUnkIds[ids[j]]
      {
        indices := indices + [mapUnkIds[ids[i]]];
      }
    }

    /** `Serialize`. */
    method Serialize() returns (file: AddrFile)
      requires Valid()
      ensures file == FileOf(h, View())
    {
      hide IdsOk, AddrIndexOk, RandomOk, TriedOk, NewOk, CountersOk, SizesOk, NewOrder, TriedOrder, Numbers,
          SavedOf, Ascending, Indices;
      var newInfos, mapUnkIds := WriteNew();
      var triedInfos := WriteTried();
      var buckets: seq<seq<int>> := [];
      for b := 0 to |vvNew|
        invariant |buckets| == b
        invariant forall c :: 0 <= c < b ==> buckets[c] == Indices(NewOrder(View()), Ascending(vvNew[c]))
      {
        BucketNumbered(h, View(), mapUnkIds, b);
        var indices := WriteBucket(b, mapUnkIds);
        NamesAreIndices(NewOrder(View()), vvNew[b], mapUnkIds, indices);
        buckets := buckets + [indices];
      }
      file := AddrFile(h.nKey, nNew, nTried, |vvNew|, newInfos, triedInfos, buckets);
    }

    /** `Unserialize`, which overwrites every field of the manager; the hash functions stay, the key is read. */
    constructor Unserialize(h: Hasher, file: AddrFile)
      requires Readable(file)
      ensures this.h == h.(nKey := file.nKey)
      ensures View() == Loaded(h.(nKey := file.nKey), file)
    {
      this.h := h.(nKey := file.nKey);
      nTried, nNew := file.nTried, file.nNew;
      nIdCount, mapInfo, mapAddr, vRandom := 0, map[], map[], [];
      vvTried := seq(TRIED_BUCKET_COUNT, _ => []);
      vvNew := seq(NEW_BUCKET_COUNT, _ => {});
      new;
      ReadNewEntries(file);
      ReadTriedEntries(file);
      ReadBuckets(file);
    }

    /** The first loop of `Unserialize`. */
    method ReadNewEntries(file: AddrFile)
      requires Readable(file) && View() == Empty(file)
      modifies this
      ensures View() == AfterNew(h, file, |file.newInfos|).(nIdCount := file.nNew)
    {
      hide ReadNew;
      for n := 0 to |file.newInfos|
        invariant View() == AfterNew(h, file, n)
      {
        ReadNewEntry(n, file.newInfos[n], file.nUBuckets);
      }
      nIdCount := nNew;
    }

    /** The second loop of `Unserialize`. */
    method ReadTriedEntries(file: AddrFile)
      requires Readable(file) && View() == AfterNew(h, file, |file.newInfos|).(nIdCount := file.nNew)
      modifies this
      ensures View() == AfterTried(h, file, |file.triedInfos|)
    {
      hide ReadTried;
      var nLost := 0;
      for n := 0 to |file.triedInfos|
        invariant View().(nTried := nTried - nLost) == AfterTried(h, file, n)
      {
        var lost := ReadTriedEntry(file.triedInfos[n], nLost);
        nLost := nLost + lost;
      }
      nTried := nTried - nLost;
    }

    /** The last loops of `Unserialize`. */
    method ReadBuckets(file: AddrFile)
      requires Readable(file) && View() == AfterTried(h, file, |file.triedInfos|)
      modifies this
      ensures View() == AfterBuckets(h, file, |file.buckets|)
    {
      for b := 0 to |file.buckets|
        invariant View() == AfterBuckets(h, file, b)
      {
        ReadBucket(file.nUBuckets, b, file.buckets[b]);
      }
    }

    method ReadBucket(nUBuckets: int, b: nat, indices: seq<int>)
      requires b < |vvNew|
      modifies this
      ensures View() == AfterIndices(old(View()), nUBuckets == NEW_BUCKET_COUNT, b, indices, |indices|)
    {
      for n := 0 to |indices|
        invariant View() == AfterIndices(old(View()), nUBuckets == NEW_BUCKET_COUNT, b, indices, n)
      {
        hide ReadIndex;
        ReadBucketEntry(nUBuckets, b, indices[n]);
      }
    }

    /** One pass of the first loop of `Unserialize`. */
    method ReadNewEntry(n: nat, s: Saved, nUBuckets: int)
      requires |vvNew| == NEW_BUCKET_COUNT && n == nIdCount
      modifies this
      ensures View() == ReadNew(h, old(View()), nUBuckets == NEW_BUCKET_COUNT, s)
    {
      ghost var was := mapInfo;
      mapInfo := mapInfo[n := Info(Restore(s), 0, false, -1)];
      mapAddr := mapAddr[s.addr.net := n];
      UpdatedTwice(was, n, mapInfo[n], mapInfo[n].(nRandomPos := |vRandom|));
      mapInfo := mapInfo[n := mapInfo[n].(nRandomPos := |vRandom|)];
      vRandom := vRandom + [n];
      if nUBuckets != NEW_BUCKET_COUNT {
        UpdatedTwice(was, n, mapInfo[n], mapInfo[n].(nRefCount := mapInfo[n].nRefCount + 1));
        var b := GetNewBucket(h, s.addr.net, s.source);
        vvNew := vvNew[b := vvNew[b] + {n}];
        mapInfo := mapInfo[n := mapInfo[n].(nRefCount := mapInfo[n].nRefCount + 1)];
      }
      nIdCount := n + 1;
    }

    /** One pass of the second loop of `Unserialize`; an entry without room is lost. */
    method ReadTriedEntry(s: Saved, ghost nLost: int) returns (lost: int)
      requires |vvTried| == TRIED_BUCKET_COUNT
      modifies this
      ensures View().(nTried := nTried - nLost - lost)
              == ReadTried(h, old(View()).(nTried := old(nTried) - nLost), s)
    {
      var k := GetTriedBucket(h, s.addr.net, s.addr.port);
      if |vvTried[k]| < TRIED_BUCKET_SIZE {
        vRandom := vRandom + [nIdCount];
        mapInfo := mapInfo[nIdCount := Info(Restore(s), 0, true, |vRandom| - 1)];
        mapAddr := mapAddr[s.addr.net := nIdCount];
        vvTried := vvTried[k := vvTried[k] + [nIdCount]];
        nIdCount := nIdCount + 1;
        lost := 0;
      } else {
        lost := 1;
      }
    }

    /** The innermost step of `Unserialize`: one file id of one new bucket. */
    method ReadBucketEntry(nUBuckets: int, b: nat, nIndex: int)
      requires b < |vvNew|
      modifies this
      ensures View() == ReadIndex(old(View()), nUBuckets == NEW_BUCKET_COUNT, b, nIndex)
    {
      if nIndex !in mapInfo {
        mapInfo := mapInfo[nIndex := UnknownInfo];
      }
      if nUBuckets == NEW_BUCKET_COUNT && mapInfo[nIndex].nRefCount < NEW_BUCKETS_PER_ADDRESS {
        mapInfo := mapInfo[nIndex := mapInfo[nIndex].(nRefCount := mapInfo[nIndex].nRefCount + 1)];
        vvNew := vvNew[b := vvNew[b] + {nIndex}];
      }
    }

    // ---------------------------------------------------------------- the consistency check

    /** The tests of the first loop of `Check_` on one entry; reading `mapAddr[info]` may create it. */
    method CheckInfo(id: int) returns (code: int)
      requires id in mapInfo
      modifies this`mapAddr
      ensures code == 0 <==> InfoPasses(old(mapAddr), vRandom, id, mapInfo[id])
      ensures forall a :: IdOf(mapAddr, a) == IdOf(old(mapAddr), a)
      ensures mapInfo[id].peer.addr.net in old(mapAddr) ==> mapAddr == old(mapAddr)
    {
      var info := mapInfo[id];
      if info.fInTried {
        if info.peer.nLastSuccess == 0 { return -1; }
        if info.nRefCount != 0 { return -2; }
      } else {
        if info.nRefCount < 0 || info.nRefCount > NEW_BUCKETS_PER_ADDRESS { return -3; }
        if info.nRefCount == 0 { return -4; }
      }
      var a := info.peer.addr.net;
      if a !in mapAddr {
        mapAddr := mapAddr[a := 0];
      }
      if mapAddr[a] != id { return -5; }
      if info.nRandomPos < 0 || info.nRandomPos >= |vRandom| || vRandom[info.nRandomPos] != id { return -14; }
      if info.peer.nLastTry < 0 { return -6; }
      if info.peer.nLastSuccess < 0 { return -8; }
      return 0;
    }

    /** The first loop of `Check_`. */
    method CheckInfos() returns (code: int, setTried: set<int>, mapNew: map<int, int>)
      modifies this`mapAddr
      ensures code == 0 <==> forall id :: id in mapInfo ==> InfoPasses(old(mapAddr), vRandom, id, mapInfo[id])
      ensures code == 0 ==> Tallied(mapInfo, mapInfo.Keys, setTried, mapNew)
      ensures (forall id :: id in mapInfo ==> mapInfo[id].peer.addr.net in old(mapAddr)) ==> mapAddr == old(mapAddr)
    {
      hide InfoPasses, Tallied, IdOf, Ascending;
      setTried, mapNew := {}, map[];
      var ids := Ascending(mapInfo.Keys);
      ghost var seen, was := {}, mapAddr;
      NothingTallied(mapInfo);
      for i := 0 to |ids|
        invariant forall a :: IdOf(mapAddr, a) == IdOf(was, a)
        invariant (forall id :: id in mapInfo ==> mapInfo[id].peer.addr.net in was) ==> mapAddr == was
        invariant seen <= mapInfo.Keys && forall j :: 0 <= j < i ==> ids[j] in seen
        invariant forall id :: id in seen ==> InfoPasses(was, vRandom, id, mapInfo[id])
        invariant Tallied(mapInfo, seen, setTried, mapNew)
      {
        var id := ids[i];
        assert id in ids;
        TalliedStep(mapInfo, seen, setTried, mapNew, id);
        SameIdOf(mapInfo[id], was, mapAddr, vRandom, id);
        code := CheckInfo(id);
        if code != 0 {
          return;
        }
        seen := seen + {id};
        if mapInfo[id].fInTried {
          setTried := setTried + {id};
        } else {
          mapNew := mapNew[id := mapInfo[id].nRefCount];
        }
      }
      forall id | id in mapInfo ensures id in seen {
        assert id in ids;
      }
      assert seen == mapInfo.Keys;
      code := 0;
    }

    /** `Check_`. */
    method Check() returns (code: int)
      modifies this`mapAddr
      ensures code == 0 <==> Checked(old(View()))
      ensures old(AddrIndexOk(View())) ==> View() == old(View())
    {
      ghost var t := View();
      if |vRandom| != nTried + nNew { return -7; }
      var setTried, mapNew;
      code, setTried, mapNew := CheckInfos();
      if code != 0 { return; }
      CheckedRest(t, setTried, mapNew);
      hide TriedBag, NewBag, CountIn, InfoPasses, Tallied, Checked;
      if |setTried| != nTried { return -9; }
      if |mapNew| != nNew { return -10; }
      code, setTried := CheckTried(vvTried, setTried);
      if code != 0 { return; }
      code, mapNew := CheckNew(vvNew, mapNew);
      if code != 0 { return; }
      if setTried != {} { return -13; }
      if mapNew != map[] { return -15; }
      return 0;
    }
  }
}
