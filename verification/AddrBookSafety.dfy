/** Safety of whole runs of the address book. */
module AddrBookSafety {
  import opened FiniteSets
  import opened AddrTypes
  import opened AddrBook

  lemma GrownMembers(book: Book, a: NetAddr, b: int)
    requires a in book && book[a].place.InNew? && b !in book[a].place.buckets
    ensures NewMembers(Grown(book, a, b), b) == NewMembers(book, b) + {a}
    ensures forall c :: c != b ==> NewMembers(Grown(book, a, b), c) == NewMembers(book, c)
    ensures forall k :: TriedMembers(Grown(book, a, b), k) == TriedMembers(book, k)
  {
  }

  lemma DroppedMembers(book: Book, v: NetAddr, b: int)
    requires v in NewMembers(book, b)
    ensures NewMembers(Dropped(book, v, b), b) == NewMembers(book, b) - {v}
    ensures forall c :: c != b ==> NewMembers(Dropped(book, v, b), c) == NewMembers(book, c)
    ensures forall k :: TriedMembers(Dropped(book, v, b), k) == TriedMembers(book, k)
  {
    if book[v].place.buckets != {b} {
    } else {
      assert forall c :: c != b ==> c !in book[v].place.buckets;
    }
  }

  /** The part of `BookInv` about single entries. */
  ghost predicate EntryOk(h: Hasher, a: NetAddr, e: Entry) {
    && e.peer.addr.net == a
    && match e.place
       case InNew(bs) => 1 <= |bs| <= NEW_BUCKETS_PER_ADDRESS && forall b :: b in bs ==> 0 <= b < NEW_BUCKET_COUNT
       case InTried(k) => k == TriedHomeOf(h, e.peer)
  }

  lemma BookInvByEntries(h: Hasher, book: Book)
    requires forall a :: a in book ==> EntryOk(h, a, book[a])
    requires forall b :: |NewMembers(book, b)| <= NEW_BUCKET_SIZE
    requires forall k :: |TriedMembers(book, k)| <= TRIED_BUCKET_SIZE
    ensures BookInv(h, book)
  {
    forall a | a in book ensures EntryOk(h, a, book[a]) {}
  }

  lemma EntriesOk(h: Hasher, book: Book)
    requires BookInv(h, book)
    ensures forall a :: a in book ==> EntryOk(h, a, book[a])
  {
  }

  /** No bucket is over its capacity. */
  ghost predicate BucketsFit(book: Book) {
    && (forall b :: |NewMembers(book, b)| <= NEW_BUCKET_SIZE)
    && (forall k :: |TriedMembers(book, k)| <= TRIED_BUCKET_SIZE)
  }

  ghost predicate AllOkBut(h: Hasher, book: Book, a: NetAddr) {
    forall c :: c in book && c != a ==> EntryOk(h, c, book[c])
  }

  lemma DroppedOk(h: Hasher, book: Book, v: NetAddr, b: int, a: NetAddr)
    requires v in NewMembers(book, b) && v != a
    requires AllOkBut(h, book, a)
    ensures AllOkBut(h, Dropped(book, v, b), a)
  {
    var bs := book[v].place.buckets;
    assert EntryOk(h, v, book[v]);
    assert bs == {b} + (bs - {b});
    if bs != {b} {
      assert EntryOk(h, v, book[v].(place := InNew(bs - {b})));
    }
  }

  /** Placing into a bucket with room: `a` may still be in no bucket, as a new address is at first. */
  lemma GrownKeepsInv(h: Hasher, book: Book, a: NetAddr, b: int)
    requires a in book && book[a].place.InNew? && b !in book[a].place.buckets
    requires |book[a].place.buckets| < NEW_BUCKETS_PER_ADDRESS && 0 <= b < NEW_BUCKET_COUNT
    requires book[a].peer.addr.net == a
    requires forall c :: c in book[a].place.buckets ==> 0 <= c < NEW_BUCKET_COUNT
    requires AllOkBut(h, book, a) && BucketsFit(book)
    requires |NewMembers(book, b)| < NEW_BUCKET_SIZE
    ensures BookInv(h, Grown(book, a, b))
  {
    var book' := Grown(book, a, b);
    GrownMembers(book, a, b);
    assert EntryOk(h, a, book'[a]);
    assert BucketsFit(book');
    BookInvByEntries(h, book');
  }

  lemma PlacedKeepsInv(h: Hasher, book: Book, book': Book, a: NetAddr, b: int, nNow: int)
    requires a in book && book[a].place.InNew? && b !in book[a].place.buckets
    requires |book[a].place.buckets| < NEW_BUCKETS_PER_ADDRESS && 0 <= b < NEW_BUCKET_COUNT
    requires book[a].peer.addr.net == a
    requires forall c :: c in book[a].place.buckets ==> 0 <= c < NEW_BUCKET_COUNT
    requires AllOkBut(h, book, a) && BucketsFit(book)
    requires Placed(book, book', a, b, nNow)
    ensures BookInv(h, book')
  {
    hide AllOkBut, BucketsFit, BookInv, Grown;
    var v :| PlacedFor(book, book', a, b, nNow, v);
    if |NewMembers(book, b)| < NEW_BUCKET_SIZE {
      GrownKeepsInv(h, book, a, b);
    } else {
      DroppedReady(h, book, v, b, a);
      GrownKeepsInv(h, Dropped(book, v, b), a, b);
    }
  }

  /** After a member has left a full bucket, there is room in it for a known address that it does not hold. */
  lemma DroppedReady(h: Hasher, book: Book, v: NetAddr, b: int, a: NetAddr)
    requires a in book && book[a].place.InNew? && b !in book[a].place.buckets && book[a].peer.addr.net == a
    requires v in NewMembers(book, b) && AllOkBut(h, book, a) && BucketsFit(book)
    ensures var book' := Dropped(book, v, b);
      && a in book' && book'[a] == book[a] && AllOkBut(h, book', a) && BucketsFit(book')
      && |NewMembers(book', b)| < NEW_BUCKET_SIZE
  {
    DroppedMembers(book, v, b);
    DroppedOk(h, book, v, b, a);
    assert v != a;
    hide NewMembers, TriedMembers, AllOkBut;
  }

  lemma TouchedKeepsInv(h: Hasher, book: Book, a: NetAddr, p: Peer)
    requires BookInv(h, book) && a in book
    requires p.addr.net == a && p.addr.port == book[a].peer.addr.port
    ensures BookInv(h, Touched(book, a, p))
  {
    var book' := Touched(book, a, p);
    forall b ensures NewMembers(book', b) == NewMembers(book, b) {}
    forall k ensures TriedMembers(book', k) == TriedMembers(book, k) {}
  }

  lemma AnnouncedFits(h: Hasher, book: Book, addr: Address, source: NetAddr, nTimePenalty: int, nNow: int)
    requires BookInv(h, book) && addr.net !in book
    ensures var known := Announced(book, addr, source, nTimePenalty, nNow);
      BucketsFit(known) && AllOkBut(h, known, addr.net)
  {
    var known := Announced(book, addr, source, nTimePenalty, nNow);
    forall b ensures NewMembers(known, b) == NewMembers(book, b) {}
    forall k ensures TriedMembers(known, k) == TriedMembers(book, k) {}
    EntriesOk(h, book);
  }

  lemma AddKeepsInv(h: Hasher, book: Book, book': Book, addr: Address, source: NetAddr,
                    nTimePenalty: int, nNow: int, coin: nat, added: bool)
    requires BookInv(h, book)
    requires AddStep(h, book, book', addr, source, nTimePenalty, nNow, coin, added)
    ensures BookInv(h, book')
  {
    var a := addr.net;
    var v :| AddStepFor(h, book, book', addr, source, nTimePenalty, nNow, coin, added, v);
    var known := Announced(book, addr, source, nTimePenalty, nNow);
    if h.routable(a) {
      if a in book {
        TouchedKeepsInv(h, book, a, known[a].peer);
        if book' != known {
          EntriesOk(h, known);
          PlacedKeepsInv(h, known, book', a, GetNewBucket(h, known[a].peer.addr.net, source), nNow);
        }
      } else {
        AnnouncedFits(h, book, addr, source, nTimePenalty, nNow);
        hide NewMembers, TriedMembers;
        PlacedKeepsInv(h, known, book', a, GetNewBucket(h, known[a].peer.addr.net, source), nNow);
      }
    }
  }

  lemma MovedMembers(book: Book, a: NetAddr, k: int)
    requires a in book && book[a].place.InNew?
    ensures var moved := book[a := book[a].(place := InTried(k))];
      && (forall b :: NewMembers(moved, b) == NewMembers(book, b) - {a})
      && (forall j :: TriedMembers(moved, j) == if j == k then TriedMembers(book, j) + {a} else TriedMembers(book, j))
  {
  }

  lemma EvictedMembers(h: Hasher, book: Book, v: NetAddr, k: int, origin: int)
    requires v in TriedMembers(book, k)
    ensures var dest := EvictionBucket(h, book, book[v].peer, origin);
      var book' := Evicted(h, book, v, origin);
      && (forall b :: NewMembers(book', b) == if b == dest then NewMembers(book, b) + {v} else NewMembers(book, b))
      && (forall j :: TriedMembers(book', j) == if j == k then TriedMembers(book, j) - {v} else TriedMembers(book, j))
  {
  }

  lemma PromotedKeepsInv(h: Hasher, book: Book, book': Book, a: NetAddr, origin: int)
    requires BookInv(h, book)
    requires a in book && book[a].place.InNew? && origin in book[a].place.buckets
    requires Promoted(h, book, book', a, origin)
    ensures BookInv(h, book')
  {
    var k := TriedHomeOf(h, book[a].peer);
    var moved := book[a := book[a].(place := InTried(k))];
    EntriesOk(h, book);
    MovedMembers(book, a, k);
    var v :| PromotedFor(h, book, book', a, origin, v);
    if |TriedMembers(book, k)| < TRIED_BUCKET_SIZE {
      BookInvByEntries(h, moved);
    } else {
      EvictedKeepsInv(h, book, moved, a, v, k, origin);
    }
  }

  lemma MembersApart(book: Book, a: NetAddr, v: NetAddr, k: int, b: int)
    requires a in NewMembers(book, b) && v in TriedMembers(book, k)
    ensures a in book && book[a].place.InNew? && a != v && a !in TriedMembers(book, k)
    ensures v in book && book[v].place.InTried?
  {
  }

  /** The bucket `a` has just left has room for the entry that `a` displaces. */
  lemma EvictedFits(h: Hasher, book: Book, moved: Book, a: NetAddr, v: NetAddr, k: int, origin: int)
    requires BucketsFit(book)
    requires a in NewMembers(book, origin) && moved == book[a := book[a].(place := InTried(k))]
    requires v in TriedMembers(book, k)
    ensures BucketsFit(Evicted(h, moved, v, origin))
  {
    hide NewMembers, TriedMembers, Evicted;
    MembersApart(book, a, v, k, origin);
    MovedMembers(book, a, k);
    EvictedMembers(h, moved, v, k, origin);
    assert |NewMembers(moved, origin)| == |NewMembers(book, origin)| - 1;
    assert TriedMembers(Evicted(h, moved, v, origin), k) == TriedMembers(book, k) + {a} - {v};
    assert |TriedMembers(book, k) + {a} - {v}| <= |TriedMembers(book, k)|;
  }

  lemma EvictedKeepsInv(h: Hasher, book: Book, moved: Book, a: NetAddr, v: NetAddr, k: int, origin: int)
    requires BookInv(h, book)
    requires a in book && book[a].place.InNew? && origin in book[a].place.buckets
    requires k == TriedHomeOf(h, book[a].peer) && moved == book[a := book[a].(place := InTried(k))]
    requires v in TriedMembers(book, k)
    ensures BookInv(h, Evicted(h, moved, v, origin))
  {
    OriginBound(h, book, a, origin);
    TriedMember(book, v, k);
    hide NewMembers, TriedMembers, EvictionBucket, GetTriedBucket, BucketsFit, EntryOk, Evicted;
    EvictedFits(h, book, moved, a, v, k, origin);
    var book' := Evicted(h, moved, v, origin);
    forall c | c in book' ensures EntryOk(h, c, book'[c]) {
      EvictedEntry(h, book, moved, a, v, k, origin, c);
    }
    BookInvByEntries(h, book');
  }

  lemma OriginBound(h: Hasher, book: Book, a: NetAddr, origin: int)
    requires BookInv(h, book) && a in book && book[a].place.InNew? && origin in book[a].place.buckets
    ensures a in NewMembers(book, origin) && 0 <= origin < NEW_BUCKET_COUNT
  {
    assert EntryOk(h, a, book[a]);
    hide TriedMembers, BucketsFit;
  }

  lemma TriedMember(book: Book, v: NetAddr, k: int)
    requires v in TriedMembers(book, k)
    ensures v in book && book[v].place.InTried?
  {
  }

  lemma EvictedEntry(h: Hasher, book: Book, moved: Book, a: NetAddr, v: NetAddr, k: int, origin: int, c: NetAddr)
    requires BookInv(h, book) && a in book && v in book && 0 <= origin < NEW_BUCKET_COUNT
    requires k == TriedHomeOf(h, book[a].peer) && moved == book[a := book[a].(place := InTried(k))]
    requires c in Evicted(h, moved, v, origin)
    ensures EntryOk(h, c, Evicted(h, moved, v, origin)[c])
  {
    assert 0 <= EvictionBucket(h, moved, moved[v].peer, origin) < NEW_BUCKET_COUNT;
    hide NewMembers, TriedMembers, BucketsFit, EvictionBucket, GetTriedBucket;
    assert c in book && EntryOk(h, c, book[c]);
  }

  lemma GoodKeepsInv(h: Hasher, book: Book, book': Book, a: NetAddr, port: nat, nTime: int, start: nat)
    requires BookInv(h, book)
    requires GoodStep(h, book, book', a, port, nTime, start)
    ensures BookInv(h, book')
  {
    var origin, v :| GoodStepFor(h, book, book', a, port, nTime, start, origin, v);
    if Names(book, a, port) {
      var known := Touched(book, a, MarkedGood(book[a].peer, nTime));
      TouchedKeepsInv(h, book, a, known[a].peer);
      if known[a].place.InNew? {
        assert FirstFrom(known[a].place.buckets, start, origin) && PromotedFor(h, known, book', a, origin, v);
        PromotedKeepsInv(h, known, book', a, origin);
      }
    }
  }

  lemma ReloadKeepsInv(h: Hasher, book: Book)
    requires BookInv(h, book)
    ensures BookInv(h, Reloaded(book))
  {
    var book' := Reloaded(book);
    forall b ensures NewMembers(book', b) == NewMembers(book, b) {}
    forall k ensures TriedMembers(book', k) == TriedMembers(book, k) {}
  }

  lemma StepKeepsInv(h: Hasher, op: Op, book: Book, book': Book)
    requires BookInv(h, book) && Step(h, op, book, book')
    ensures BookInv(h, book')
  {
    match op
    case Add(addr, source, nTimePenalty, nNow, coin) =>
      var added :| AddStep(h, book, book', addr, source, nTimePenalty, nNow, coin, added);
      AddKeepsInv(h, book, book', addr, source, nTimePenalty, nNow, coin, added);
    case Good(a, port, nTime, start) =>
      GoodKeepsInv(h, book, book', a, port, nTime, start);
    case Attempt(a, port, nTime) =>
      if Names(book, a, port) { TouchedKeepsInv(h, book, a, MarkedTried(book[a].peer, nTime)); }
    case Connected(a, port, nTime) =>
      if Names(book, a, port) { TouchedKeepsInv(h, book, a, MarkedConnected(book[a].peer, nTime)); }
    case GetAddr =>
    case Reload => ReloadKeepsInv(h, book);
  }

  /** The invariant holds in every state of every run that starts empty. */
  lemma {:induction false} RunKeepsInv(h: Hasher, ops: seq<Op>, books: seq<Book>, i: nat)
    requires Run(h, ops, books) && i < |books|
    ensures BookInv(h, books[i])
  {
    if i == 0 {
      forall b ensures NewMembers(books[0], b) == {} {}
      forall k ensures TriedMembers(books[0], k) == {} {}
    } else {
      RunKeepsInv(h, ops, books, i - 1);
      StepKeepsInv(h, ops[i - 1], books[i - 1], books[i]);
    }
  }

  // ------------------------------------------------------------------ bounds

  ghost function TriedBelow(book: Book, n: int): set<NetAddr> {
    set a | a in book && book[a].place.InTried? && 0 <= book[a].place.bucket < n
  }

  ghost function NewBelow(book: Book, n: int): set<NetAddr> {
    set a | a in book && book[a].place.InNew? && exists b :: 0 <= b < n && b in book[a].place.buckets
  }

  lemma UnionSize<T>(a: set<T>, b: set<T>, c: set<T>)
    requires a <= b + c
    ensures |a| <= |b| + |c|
  {
    SubsetSize(a, b + c);
    assert |b + c| == |b| + |c| - |b * c|;
  }

  lemma {:induction false} TriedBelowSize(book: Book, n: nat)
    requires forall k :: |TriedMembers(book, k)| <= TRIED_BUCKET_SIZE
    ensures |TriedBelow(book, n)| <= n * TRIED_BUCKET_SIZE
  {
    if n == 0 {
      assert TriedBelow(book, 0) == {};
    } else {
      TriedBelowSize(book, n - 1);
      UnionSize(TriedBelow(book, n), TriedBelow(book, n - 1), TriedMembers(book, n - 1));
    }
  }

  lemma {:induction false} NewBelowSize(book: Book, n: nat)
    requires forall b :: |NewMembers(book, b)| <= NEW_BUCKET_SIZE
    ensures |NewBelow(book, n)| <= n * NEW_BUCKET_SIZE
  {
    if n == 0 {
      assert NewBelow(book, 0) == {};
    } else {
      NewBelowSize(book, n - 1);
      UnionSize(NewBelow(book, n), NewBelow(book, n - 1), NewMembers(book, n - 1));
    }
  }

  /** The book never holds more addresses than its buckets have room for. */
  lemma Capacity(h: Hasher, book: Book)
    requires BookInv(h, book)
    ensures |book| <= 256 * 64 + 64 * 64
  {
    forall a | a in book.Keys ensures a in NewBelow(book, NEW_BUCKET_COUNT) + TriedBelow(book, TRIED_BUCKET_COUNT) {
      if book[a].place.InNew? {
        var b := Pick(book[a].place.buckets);
        assert 0 <= b < NEW_BUCKET_COUNT && b in book[a].place.buckets;
      }
    }
    NewBelowSize(book, NEW_BUCKET_COUNT);
    TriedBelowSize(book, TRIED_BUCKET_COUNT);
    UnionSize(book.Keys, NewBelow(book, NEW_BUCKET_COUNT), TriedBelow(book, TRIED_BUCKET_COUNT));
  }

  ghost function TriedOfGroup(h: Hasher, book: Book, group: seq<bv8>): set<NetAddr> {
    set a | a in book && book[a].place.InTried? && h.group(book[a].peer.addr.net) == group
  }

  /** Those of the group that sit in one of its first `n` buckets. */
  ghost function TriedOfGroupBelow(h: Hasher, book: Book, group: seq<bv8>, n: nat): set<NetAddr> {
    set a | a in book && book[a].place.InTried?
            && exists slot: nat :: slot < n && book[a].place.bucket == TriedBucketOfGroup(h, group, slot)
  }

  lemma {:induction false} TriedOfGroupBelowSize(h: Hasher, book: Book, group: seq<bv8>, n: nat)
    requires forall k :: |TriedMembers(book, k)| <= TRIED_BUCKET_SIZE
    ensures |TriedOfGroupBelow(h, book, group, n)| <= n * TRIED_BUCKET_SIZE
  {
    if n == 0 {
      assert TriedOfGroupBelow(h, book, group, 0) == {};
    } else {
      TriedOfGroupBelowSize(h, book, group, n - 1);
      UnionSize(TriedOfGroupBelow(h, book, group, n), TriedOfGroupBelow(h, book, group, n - 1),
                TriedMembers(book, TriedBucketOfGroup(h, group, n - 1)));
    }
  }

  /** One address range can hold at most 4 of the 64 tried buckets: 256 of the 4096 tried places. */
  lemma GroupBound(h: Hasher, book: Book, group: seq<bv8>)
    requires BookInv(h, book)
    ensures |TriedOfGroup(h, book, group)| <= 4 * 64
  {
    forall a | a in TriedOfGroup(h, book, group)
      ensures a in TriedOfGroupBelow(h, book, group, TRIED_BUCKETS_PER_GROUP)
    {
      var addr := book[a].peer.addr;
      var slot: nat := h.hash([Bytes(h.nKey), Bytes(h.serviceKey(addr.net, addr.port))]) % TRIED_BUCKETS_PER_GROUP;
      assert book[a].place.bucket == TriedBucketOfGroup(h, group, slot);
    }
    TriedOfGroupBelowSize(h, book, group, TRIED_BUCKETS_PER_GROUP);
    SubsetSize(TriedOfGroup(h, book, group), TriedOfGroupBelow(h, book, group, TRIED_BUCKETS_PER_GROUP));
  }

  // ------------------------------------------------------------------ history

  /** `book'` has the peers of `book`, tried entries in place and nothing newly tried but `a`. */
  ghost predicate Settled(book: Book, book': Book, a: NetAddr) {
    && (forall c :: c in book && c != a && book[c].place.InTried? ==> c in book')
    && (forall c :: c in book' ==> c in book && book'[c].peer == book[c].peer)
    && (forall c :: c in book' && c != a && book'[c].place.InTried? ==> book[c].place.InTried?)
  }

  lemma PlacedSettles(book: Book, book': Book, a: NetAddr, b: int, nNow: int)
    requires a in book && book[a].place.InNew? && b !in book[a].place.buckets
    requires Placed(book, book', a, b, nNow)
    ensures Settled(book, book', a) && a in book' && book'[a].place.InNew?
  {
    var v :| PlacedFor(book, book', a, b, nNow, v);
  }

  lemma PromotedSettles(h: Hasher, book: Book, book': Book, a: NetAddr, origin: int)
    requires a in book && book[a].place.InNew? && Promoted(h, book, book', a, origin)
    ensures Settled(book, book', a) && a in book' && book'[a].place.InTried?
  {
    hide EvictionBucket, TriedHomeOf, NewMembers;
    var v :| PromotedFor(h, book, book', a, origin, v);
  }

  /** No single step forgets an entry that is in the tried table. */
  lemma TriedSurvivesStep(h: Hasher, op: Op, book: Book, book': Book, a: NetAddr)
    requires Step(h, op, book, book')
    requires a in book && book[a].place.InTried?
    ensures a in book'
  {
    match op
    case Add(addr, source, nTimePenalty, nNow, coin) =>
      var added :| AddStep(h, book, book', addr, source, nTimePenalty, nNow, coin, added);
      AddSettles(h, book, book', addr, source, nTimePenalty, nNow, coin, added);
    case Good(c, port, nTime, start) =>
      GoodSettles(h, book, book', c, port, nTime, start);
    case Attempt(_, _, _) =>
    case Connected(_, _, _) =>
    case GetAddr =>
    case Reload =>
  }

  lemma AddSettles(h: Hasher, book: Book, book': Book, addr: Address, source: NetAddr,
                   nTimePenalty: int, nNow: int, coin: nat, added: bool)
    requires AddStep(h, book, book', addr, source, nTimePenalty, nNow, coin, added)
    ensures book' == book || Settled(Announced(book, addr, source, nTimePenalty, nNow), book', addr.net)
    ensures addr.net in book && book[addr.net].place.InTried? ==>
      addr.net in book' && book'[addr.net].place.InTried?
    ensures addr.net in book' && book'[addr.net].place.InTried? ==>
      addr.net in book && book[addr.net].place.InTried?
  {
    var a := addr.net;
    var v :| AddStepFor(h, book, book', addr, source, nTimePenalty, nNow, coin, added, v);
    var known := Announced(book, addr, source, nTimePenalty, nNow);
    if h.routable(a) && book' != known {
      PlacedSettles(known, book', a, GetNewBucket(h, known[a].peer.addr.net, source), nNow);
    }
  }

  lemma GoodSettles(h: Hasher, book: Book, book': Book, a: NetAddr, port: nat, nTime: int, start: nat)
    requires GoodStep(h, book, book', a, port, nTime, start)
    ensures !Names(book, a, port) ==> book' == book
    ensures Names(book, a, port) ==>
      && Settled(Touched(book, a, MarkedGood(book[a].peer, nTime)), book', a)
      && a in book' && book'[a].place.InTried?
  {
    var origin, v :| GoodStepFor(h, book, book', a, port, nTime, start, origin, v);
    if Names(book, a, port) {
      var known := Touched(book, a, MarkedGood(book[a].peer, nTime));
      if known[a].place.InNew? {
        assert FirstFrom(known[a].place.buckets, start, origin) && PromotedFor(h, known, book', a, origin, v);
        PromotedSettles(h, known, book', a, origin);
      }
    }
  }

  /** `Good_` forgets nobody. */
  lemma GoodKeepsKnown(h: Hasher, book: Book, book': Book, a: NetAddr, port: nat, nTime: int, start: nat)
    requires GoodStep(h, book, book', a, port, nTime, start)
    ensures book'.Keys == book.Keys
  {
    var origin, v :| GoodStepFor(h, book, book', a, port, nTime, start, origin, v);
    if Names(book, a, port) {
      var known := Touched(book, a, MarkedGood(book[a].peer, nTime));
      if known[a].place.InNew? {
        assert FirstFrom(known[a].place.buckets, start, origin) && PromotedFor(h, known, book', a, origin, v);
      }
    }
  }

  /** An entry enters the tried table only when `Good` names its exact address and port. */
  lemma TriedOnlyByGood(h: Hasher, op: Op, book: Book, book': Book, a: NetAddr)
    requires Step(h, op, book, book')
    requires a in book' && book'[a].place.InTried?
    requires !(a in book && book[a].place.InTried?)
    ensures op.Good? && op.net == a && Names(book, a, op.port)
    ensures book'[a].peer == MarkedGood(book[a].peer, op.nTime)
  {
    match op
    case Add(addr, source, nTimePenalty, nNow, coin) =>
      var added :| AddStep(h, book, book', addr, source, nTimePenalty, nNow, coin, added);
      AddSettles(h, book, book', addr, source, nTimePenalty, nNow, coin, added);
      assert false;
    case Good(c, port, nTime, start) =>
      GoodSettles(h, book, book', c, port, nTime, start);
    case Attempt(_, _, _) => assert false;
    case Connected(_, _, _) => assert false;
    case GetAddr => assert false;
    case Reload => assert false;
  }

  lemma TriedSurvivesRunStep(h: Hasher, ops: seq<Op>, books: seq<Book>, a: NetAddr, i: nat)
    requires Run(h, ops, books) && i < |ops|
    requires a in books[i] && books[i][a].place.InTried?
    ensures a in books[i + 1]
  {
    TriedSurvivesStep(h, ops[i], books[i], books[i + 1], a);
  }

  /** An address that was tried and is later unknown was demoted to the new table in between. */
  lemma {:induction false} ForgottenOnlyFromNew(h: Hasher, ops: seq<Op>, books: seq<Book>, a: NetAddr, i: nat, j: nat)
    requires Run(h, ops, books) && i <= j < |books|
    requires a in books[i] && books[i][a].place.InTried? && a !in books[j]
    ensures exists m :: i < m < j && a in books[m] && books[m][a].place.InNew?
    decreases j - i
  {
    TriedSurvivesRunStep(h, ops, books, a, i);
    if books[i + 1][a].place.InTried? {
      ForgottenOnlyFromNew(h, ops, books, a, i + 1, j);
    }
  }

  /** Times that the network layer passes in are positive. */
  predicate PositiveTime(op: Op) {
    match op
    case Good(_, _, nTime, _) => nTime > 0
    case Attempt(_, _, nTime) => nTime > 0
    case _ => true
  }

  ghost predicate TimesOk(book: Book) {
    forall a :: a in book ==>
      && book[a].peer.nLastTry >= 0
      && book[a].peer.nLastSuccess >= 0
      && (book[a].place.InTried? ==> book[a].peer.nLastSuccess > 0)
  }

  lemma StepKeepsTimes(h: Hasher, op: Op, book: Book, book': Book)
    requires TimesOk(book) && Step(h, op, book, book') && PositiveTime(op)
    ensures TimesOk(book')
  {
    match op
    case Add(addr, source, nTimePenalty, nNow, coin) =>
      var added :| AddStep(h, book, book', addr, source, nTimePenalty, nNow, coin, added);
      AddSettles(h, book, book', addr, source, nTimePenalty, nNow, coin, added);
    case Good(c, port, nTime, start) =>
      GoodSettles(h, book, book', c, port, nTime, start);
    case Attempt(_, _, _) =>
    case Connected(_, _, _) =>
    case GetAddr =>
    case Reload =>
  }

  lemma {:induction false} RunKeepsTimes(h: Hasher, ops: seq<Op>, books: seq<Book>, i: nat)
    requires Run(h, ops, books) && i < |books|
    requires forall j :: 0 <= j < |ops| ==> PositiveTime(ops[j])
    ensures TimesOk(books[i])
  {
    if i > 0 {
      RunKeepsTimes(h, ops, books, i - 1);
      assert Step(h, ops[i - 1], books[i - 1], books[i]);
      StepKeepsTimes(h, ops[i - 1], books[i - 1], books[i]);
    }
  }
}
