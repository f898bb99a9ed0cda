/** What `Add_`, `Good_`, `Attempt_` and `Connected_` leave behind, in numbers and field by field: which entries change,
    what becomes of the peer that was named, and which entry may be sent away for it. */
module AddrOutcomes {
  import opened AddrTypes
  import opened AddrBook

  /** Tried in the last minute. */
  predicate JustTried(p: Peer, nNow: int) { p.nLastTry != 0 && nNow <= p.nLastTry + 60 }

  /** Seen at most 30 days back and at most ten minutes ahead; neither three attempts without any success nor ten with
      the last success more than seven days back. */
  predicate Healthy(p: Peer, nNow: int) {
    && p.addr.nTime != 0 && nNow - 2_592_000 <= p.addr.nTime <= nNow + 600
    && (p.nLastSuccess == 0 ==> p.nAttempts < 3)
    && (p.nLastSuccess < nNow - 604_800 ==> p.nAttempts < 10)
  }

  /** What may be said of the member `v` that leaves a full bucket. */
  ghost predicate MayGo(book: Book, b: int, v: NetAddr, nNow: int) {
    && v in NewMembers(book, b)
    && (JustTried(book[v].peer, nNow) ==>
          forall w :: w in NewMembers(book, b) ==> JustTried(book[w].peer, nNow) || Healthy(book[w].peer, nNow))
    && ((exists w :: w in NewMembers(book, b) && !JustTried(book[w].peer, nNow) && !Healthy(book[w].peer, nNow)) ==>
          !JustTried(book[v].peer, nNow) && !Healthy(book[v].peer, nNow))
  }

  lemma TerribleIff(p: Peer, nNow: int)
    ensures IsTerrible(p, nNow) <==> !JustTried(p, nNow) && !Healthy(p, nNow)
  {
  }

  lemma ShrinkMayGo(book: Book, b: int, v: NetAddr, nNow: int)
    requires MayShrink(book, b, v, nNow)
    ensures MayGo(book, b, v, nNow)
  {
    hide IsTerrible, JustTried, Healthy;
    forall w | w in NewMembers(book, b)
      ensures IsTerrible(book[w].peer, nNow) <==> !JustTried(book[w].peer, nNow) && !Healthy(book[w].peer, nNow)
    {
      TerribleIff(book[w].peer, nNow);
    }
  }

  ghost predicate Untouched(book: Book, book': Book, x: NetAddr) {
    if x in book then x in book' && book'[x] == book[x] else x !in book'
  }

  /** `a` is the only entry that changes, unless bucket `b` is full; then `v` leaves the bucket, and the book if it is
      in no other. */
  ghost predicate MakesRoom(book: Book, book': Book, a: NetAddr, b: int, nNow: int, v: NetAddr) {
    if |NewMembers(book, b)| < 64 then forall x :: x != a ==> Untouched(book, book', x)
    else
      && v != a && MayGo(book, b, v, nNow)
      && (forall x :: x != a && x != v ==> Untouched(book, book', x))
      && if book[v].place.buckets == {b} then v !in book'
         else v in book' && book'[v] == Entry(book[v].peer, InNew(book[v].place.buckets - {b}))
  }

  /** The time that an announcement is credited with. */
  function Credited(nTime: nat, nTimePenalty: int): nat {
    (if nTimePenalty < nTime then nTime - nTimePenalty else 0) % 0x1_0000_0000
  }

  /** A known peer after an announcement: its services are joined, and its time moves forward when the announced time is
      newer by more than an hour, or a day if the announcement itself is older than that. */
  ghost predicate Merged(p: Peer, p': Peer, addr: Address, nTimePenalty: int, nNow: int) {
    && p'.addr.net == p.addr.net && p'.addr.port == p.addr.port && p'.source == p.source
    && p'.nLastSuccess == p.nLastSuccess && p'.nLastTry == p.nLastTry && p'.nAttempts == p.nAttempts
    && p'.addr.nServices == p.addr.nServices | addr.nServices
    && p'.addr.nTime ==
       if addr.nTime == 0 then p.addr.nTime
       else if p.addr.nTime == 0 then Credited(addr.nTime, nTimePenalty)
       else if p.addr.nTime + (if nNow < addr.nTime + 86_400 then 3_600 else 86_400) + nTimePenalty < addr.nTime
         then Credited(addr.nTime, nTimePenalty)
       else p.addr.nTime
  }

  /** Whether a known address enters one more bucket: the announcement is newer than what is known, the address is not
      tried, it is in fewer than four buckets, a coin comes up, and it is not in the bucket yet. */
  ghost predicate EntersAgain(e: Entry, p': Peer, addr: Address, coin: nat, b: int) {
    && addr.nTime != 0 && (p'.addr.nTime == 0 || p'.addr.nTime < addr.nTime)
    && e.place.InNew? && |e.place.buckets| < 4 && b !in e.place.buckets
    && coin % [1, 2, 4, 8][|e.place.buckets|] == 0
  }

  /** `Add_`: nothing happens to an address that cannot be routed; an unknown one enters a bucket; a known one is
      merged, and may enter one more. */
  ghost predicate AddOutcome(h: Hasher, book: Book, book': Book, addr: Address, source: NetAddr, nTimePenalty: int,
      nNow: int, coin: nat, added: bool, v: NetAddr)
  {
    var a, b := addr.net, GetNewBucket(h, addr.net, source);
    if !h.routable(a) then book' == book && !added
    else
      && a in book' && (added <==> a !in book)
      && if added then
           && book'[a] == Entry(Peer(Address(a, addr.port, addr.nServices, Credited(addr.nTime, nTimePenalty)),
                                     source, 0, 0, 0), InNew({b}))
           && MakesRoom(book, book', a, b, nNow, v)
         else
           var p' := book'[a].peer;
           && Merged(book[a].peer, p', addr, nTimePenalty, nNow)
           && if EntersAgain(book[a], p', addr, coin, b)
              then book'[a].place == InNew(book[a].place.buckets + {b}) && MakesRoom(book, book', a, b, nNow, v)
              else book'[a].place == book[a].place && forall x :: x != a ==> Untouched(book, book', x)
  }

  /** Entering a bucket, for an entry whose peer has just been written. */
  lemma PlacedMakesRoom(book: Book, known: Book, book': Book, a: NetAddr, b: int, nNow: int, v: NetAddr)
    requires a in known && known[a].place.InNew? && b !in known[a].place.buckets
    requires forall x :: x != a ==> Untouched(book, known, x)
    requires a in book ==> known[a].place == book[a].place
    requires PlacedFor(known, book', a, b, nNow, v)
    ensures MakesRoom(book, book', a, b, nNow, v)
    ensures a in book' && book'[a] == Entry(known[a].peer, InNew(known[a].place.buckets + {b}))
  {
    hide MayGo, MayShrink, NewMembers;
    SameMembers(book, known, a, b);
    if |NewMembers(book, b)| >= 64 {
      ShrinkMayGo(known, b, v, nNow);
      SameMayGo(book, known, a, b, nNow, v);
      DroppedElsewhere(book, known, a, b, v);
    } else {
      forall x | x != a ensures Untouched(book, book', x) {
        assert Untouched(book, known, x);
      }
    }
  }

  lemma DroppedElsewhere(book: Book, known: Book, a: NetAddr, b: int, v: NetAddr)
    requires a in known && known[a].place.InNew? && v in known && v != a && known[v].place.InNew?
    requires forall x :: x != a ==> Untouched(book, known, x)
    ensures v in book && book[v] == known[v]
    ensures a in Dropped(known, v, b) && Dropped(known, v, b)[a] == known[a]
    ensures var book' := Grown(Dropped(known, v, b), a, b);
      && (forall x :: x != a && x != v ==> Untouched(book, book', x))
      && if book[v].place.buckets == {b} then v !in book'
         else v in book' && book'[v] == Entry(book[v].peer, InNew(book[v].place.buckets - {b}))
  {
    assert Untouched(book, known, v);
    var book' := Grown(Dropped(known, v, b), a, b);
    forall x | x != a && x != v ensures Untouched(book, book', x) {
      assert Untouched(book, known, x);
    }
  }

  lemma SameMembers(book: Book, known: Book, a: NetAddr, b: int)
    requires a in known && known[a].place.InNew? && b !in known[a].place.buckets
    requires forall x :: x != a ==> Untouched(book, known, x)
    requires a in book ==> known[a].place == book[a].place
    ensures NewMembers(known, b) == NewMembers(book, b) && a !in NewMembers(book, b)
  {
    forall x ensures x in NewMembers(known, b) <==> x in NewMembers(book, b) {
      if x != a {
        assert Untouched(book, known, x);
      }
    }
  }

  lemma SameMayGo(book: Book, known: Book, a: NetAddr, b: int, nNow: int, v: NetAddr)
    requires a !in NewMembers(book, b) && NewMembers(known, b) == NewMembers(book, b)
    requires forall x :: x != a ==> Untouched(book, known, x)
    requires MayGo(known, b, v, nNow)
    ensures MayGo(book, b, v, nNow) && v != a && v in known && known[v].place.InNew?
  {
    hide JustTried, Healthy;
    forall w | w in NewMembers(book, b) ensures known[w].peer == book[w].peer {
      assert Untouched(book, known, w);
    }
  }

  lemma RefreshedMerges(p: Peer, addr: Address, nTimePenalty: int, nNow: int)
    ensures Merged(p, Refreshed(p, addr, nTimePenalty, nNow), addr, nTimePenalty, nNow)
  {
  }

  lemma FreshCredited(addr: Address, source: NetAddr, nTimePenalty: int)
    ensures FreshPeer(addr, source, nTimePenalty)
         == Peer(Address(addr.net, addr.port, addr.nServices, Credited(addr.nTime, nTimePenalty)), source, 0, 0, 0)
  {
  }

  lemma Powers(n: nat, coin: nat)
    requires n < 4
    ensures GetRandInt(coin, Pow2(n)) == coin % [1, 2, 4, 8][n]
  {
    assert Pow2(1) == 2 && Pow2(2) == 4 && Pow2(3) == 8;
  }

  /** The step of the book, in numbers. */
  lemma AddDoes(h: Hasher, book: Book, book': Book, addr: Address, source: NetAddr, nTimePenalty: int, nNow: int,
      coin: nat, added: bool, v: NetAddr)
    requires AddStepFor(h, book, book', addr, source, nTimePenalty, nNow, coin, added, v)
    requires addr.net in book ==> book[addr.net].peer.addr.net == addr.net
    requires addr.net in book && book[addr.net].place.InNew? ==> |book[addr.net].place.buckets| <= 4
    ensures AddOutcome(h, book, book', addr, source, nTimePenalty, nNow, coin, added, v)
  {
    var a := addr.net;
    var known := Announced(book, addr, source, nTimePenalty, nNow);
    var b := GetNewBucket(h, a, source);
    FreshCredited(addr, source, nTimePenalty);
    hide GetNewBucket, FreshPeer, PlacedFor, MakesRoom, Credited, Merged;
    if h.routable(a) {
      if a in book {
        var p' := Refreshed(book[a].peer, addr, nTimePenalty, nNow);
        RefreshedMerges(book[a].peer, addr, nTimePenalty, nNow);
        RefreshedNet(book[a].peer, addr, nTimePenalty, nNow);
        hide Refreshed, Pow2, GetRandInt;
        if known[a].place.InNew? && |known[a].place.buckets| < 4 {
          Powers(|known[a].place.buckets|, coin);
        }
        if EntersAgain(book[a], p', addr, coin, b) {
          PlacedMakesRoom(book, known, book', a, b, nNow, v);
        }
      } else {
        PlacedMakesRoom(book, known, book', a, b, nNow, v);
        assert {} + {b} == {b};
      }
    }
  }

  lemma RefreshedNet(p: Peer, addr: Address, nTimePenalty: int, nNow: int)
    ensures Refreshed(p, addr, nTimePenalty, nNow).addr.net == p.addr.net
  {
  }

  // ---- `Good_` ----

  /** A peer after a success: seen, succeeded and tried at `nTime`, and no failed attempts any more. */
  ghost predicate Succeeded(p: Peer, p': Peer, nTime: int) {
    && p'.addr.net == p.addr.net && p'.addr.port == p.addr.port && p'.source == p.source
    && p'.addr.nServices == p.addr.nServices && p'.addr.nTime == nTime % 0x1_0000_0000
    && p'.nLastSuccess == nTime && p'.nLastTry == nTime && p'.nAttempts == 0
  }

  /** `origin` is the first of the 256 new buckets, from `start` on and around, that holds an entry. */
  ghost predicate FoundFrom(buckets: set<int>, start: nat, origin: int) {
    && origin in buckets
    && exists n: nat :: n < 256 && origin == Around(start, n) == (n + start) % 256
                        && forall m: nat :: m < n ==>
                             Around(start, m) == (m + start) % 256 && Around(start, m) !in buckets
  }

  /** `a` is the only entry that changes, unless tried bucket `k` is full; then `v` goes back from it to one new bucket:
      the one that its own addresses select, if that has room without `a`, or else `origin`. */
  ghost predicate Displaces(h: Hasher, book: Book, book': Book, a: NetAddr, k: int, origin: int, v: NetAddr) {
    if |TriedMembers(book, k)| < 64 then forall x :: x != a ==> Untouched(book, book', x)
    else
      && v != a && v in TriedMembers(book, k) && v in book'
      && (forall x :: x != a && x != v ==> Untouched(book, book', x))
      && var own := GetNewBucket(h, book[v].peer.addr.net, book[v].peer.source);
         book'[v] == Entry(book[v].peer, InNew({if |NewMembers(book, own) - {a}| < 64 then own else origin}))
  }

  /** `Good_`: nothing happens unless address and port are known together; a new entry moves to the tried bucket that
      address and port select. */
  ghost predicate GoodOutcome(h: Hasher, book: Book, book': Book, a: NetAddr, port: nat, nTime: int, start: nat,
      origin: int, v: NetAddr)
  {
    if !(a in book && book[a].peer.addr.port == port) then book' == book
    else
      && a in book' && Succeeded(book[a].peer, book'[a].peer, nTime)
      && if book[a].place.InTried? then
           book'[a].place == book[a].place && forall x :: x != a ==> Untouched(book, book', x)
         else
           var k := GetTriedBucket(h, a, port);
           && book'[a].place == InTried(k) && FoundFrom(book[a].place.buckets, start, origin)
           && Displaces(h, book, book', a, k, origin, v)
  }

  lemma GoodMarks(p: Peer, nTime: int)
    ensures Succeeded(p, MarkedGood(p, nTime), nTime)
  {
  }

  lemma FirstIsFound(buckets: set<int>, start: nat, origin: int)
    requires FirstFrom(buckets, start, origin)
    ensures FoundFrom(buckets, start, origin)
  {
  }

  /** Moving `a` to the tried table, seen from the book before its peer was written. */
  lemma PromotedDisplaces(h: Hasher, book: Book, p: Peer, book': Book, a: NetAddr, origin: int, v: NetAddr)
    requires a in book && book[a].place.InNew? && p.addr.net == a
    requires PromotedFor(h, Touched(book, a, p), book', a, origin, v)
    ensures var k := GetTriedBucket(h, a, p.addr.port);
      && a in book' && book'[a] == Entry(p, InTried(k)) && Displaces(h, book, book', a, k, origin, v)
  {
    hide GetTriedBucket, GetNewBucket;
    var known, k := Touched(book, a, p), GetTriedBucket(h, a, p.addr.port);
    var moved := known[a := known[a].(place := InTried(k))];
    assert TriedMembers(known, k) == TriedMembers(book, k);
    if |TriedMembers(book, k)| >= 64 {
      assert v != a;
      var own := GetNewBucket(h, book[v].peer.addr.net, book[v].peer.source);
      assert NewMembers(moved, own) == NewMembers(book, own) - {a};
    }
  }

  /** The step of the book, in numbers. */
  lemma GoodDoes(h: Hasher, book: Book, book': Book, a: NetAddr, port: nat, nTime: int, start: nat, origin: int,
      v: NetAddr)
    requires GoodStepFor(h, book, book', a, port, nTime, start, origin, v)
    requires a in book ==> book[a].peer.addr.net == a
    ensures GoodOutcome(h, book, book', a, port, nTime, start, origin, v)
  {
    hide PromotedFor, FirstFrom, FoundFrom, GetTriedBucket, Displaces, Succeeded;
    if Names(book, a, port) {
      var p := MarkedGood(book[a].peer, nTime);
      GoodMarks(book[a].peer, nTime);
      if book[a].place.InNew? {
        FirstIsFound(book[a].place.buckets, start, origin);
        PromotedDisplaces(h, book, p, book', a, origin, v);
      }
    }
  }

  // ---- `Attempt_` and `Connected_` ----

  /** `Attempt_`: one attempt more, now. */
  ghost predicate Attempted(book: Book, book': Book, a: NetAddr, port: nat, nTime: int) {
    if !(a in book && book[a].peer.addr.port == port) then book' == book
    else
      var p := book[a].peer;
      && a in book'
      && book'[a] == Entry(Peer(p.addr, p.source, p.nLastSuccess, nTime, p.nAttempts + 1), book[a].place)
      && forall x :: x != a ==> Untouched(book, book', x)
  }

  lemma AttemptDoes(book: Book, a: NetAddr, port: nat, nTime: int)
    ensures Attempted(book, AttemptStep(book, a, port, nTime), a, port, nTime)
  {
  }

  /** `Connected_`: the time moves on when it is more than twenty minutes old. */
  ghost predicate SeenAgain(book: Book, book': Book, a: NetAddr, port: nat, nTime: int) {
    if !(a in book && book[a].peer.addr.port == port) then book' == book
    else
      var p := book[a].peer;
      var seen := if p.addr.nTime + 1_200 < nTime then nTime % 0x1_0000_0000 else p.addr.nTime;
      && a in book'
      && book'[a] == Entry(Peer(Address(p.addr.net, port, p.addr.nServices, seen), p.source, p.nLastSuccess,
                                p.nLastTry, p.nAttempts), book[a].place)
      && forall x :: x != a ==> Untouched(book, book', x)
  }

  lemma ConnectedDoes(book: Book, a: NetAddr, port: nat, nTime: int)
    ensures SeenAgain(book, ConnectedStep(book, a, port, nTime), a, port, nTime)
  {
  }

  // ---- the choice of buckets ----

  /** The first `n` of the new buckets that are open to addresses announced by one address range. */
  ghost function NewSlots(h: Hasher, group: seq<bv8>, n: nat): (r: set<int>)
    ensures |r| <= n
  {
    if n == 0 then {} else NewSlots(h, group, n - 1) + {h.hash([Bytes(h.nKey), Bytes(group), Num(n - 1)]) % 256}
  }

  ghost function TriedSlots(h: Hasher, group: seq<bv8>, n: nat): (r: set<int>)
    ensures |r| <= n
  {
    if n == 0 then {} else TriedSlots(h, group, n - 1) + {h.hash([Bytes(h.nKey), Bytes(group), Num(n - 1)]) % 64}
  }

  lemma {:induction false} NewSlotIn(h: Hasher, group: seq<bv8>, n: nat, slot: nat)
    requires slot < n
    ensures h.hash([Bytes(h.nKey), Bytes(group), Num(slot)]) % 256 in NewSlots(h, group, n)
  {
    if slot < n - 1 {
      NewSlotIn(h, group, n - 1, slot);
    }
  }

  lemma {:induction false} TriedSlotIn(h: Hasher, group: seq<bv8>, n: nat, slot: nat)
    requires slot < n
    ensures h.hash([Bytes(h.nKey), Bytes(group), Num(slot)]) % 64 in TriedSlots(h, group, n)
  {
    if slot < n - 1 {
      TriedSlotIn(h, group, n - 1, slot);
    }
  }

  /** Whatever one address range announces goes to at most 32 of the 256 new buckets, and addresses of one range that it
      announces all go to the same one. */
  lemma NewChoice(h: Hasher, net: NetAddr, other: NetAddr, src: NetAddr, src': NetAddr)
    requires h.group(src) == h.group(src')
    ensures GetNewBucket(h, net, src) in NewSlots(h, h.group(src), 32)
    ensures h.group(net) == h.group(other) ==> GetNewBucket(h, net, src) == GetNewBucket(h, other, src')
    ensures var hash1 := h.hash([Bytes(h.nKey), Bytes(h.group(net)), Bytes(h.group(src))]);
      GetNewBucket(h, net, src) == h.hash([Bytes(h.nKey), Bytes(h.group(src)), Num(hash1 % 32)]) % 256
  {
    hide NewSlots;
    var hash1 := h.hash([Bytes(h.nKey), Bytes(h.group(net)), Bytes(h.group(src))]);
    NewSlotIn(h, h.group(src), 32, hash1 % 32);
  }

  /** Addresses of one range go to at most 4 of the 64 tried buckets; which one of them depends on address and port. */
  lemma TriedChoices(h: Hasher, net: NetAddr, port: nat, other: NetAddr, port': nat)
    requires h.group(net) == h.group(other)
    ensures GetTriedBucket(h, net, port) in TriedSlots(h, h.group(net), 4)
    ensures h.serviceKey(net, port) == h.serviceKey(other, port') ==>
      GetTriedBucket(h, net, port) == GetTriedBucket(h, other, port')
    ensures var hash1 := h.hash([Bytes(h.nKey), Bytes(h.serviceKey(net, port))]);
      GetTriedBucket(h, net, port) == h.hash([Bytes(h.nKey), Bytes(h.group(net)), Num(hash1 % 4)]) % 64
  {
    hide TriedSlots;
    var hash1 := h.hash([Bytes(h.nKey), Bytes(h.serviceKey(net, port))]);
    TriedSlotIn(h, h.group(net), 4, hash1 % 4);
  }
}
