/** The address manager seen from outside: one map from network address to what is known about it and
    where it lives. The six tables of `CAddrMan` are proved, in `AddrMan`, to implement these steps. */
module AddrBook {
  import opened FiniteSets
  import opened AddrTypes

  datatype Place = InNew(buckets: set<int>) | InTried(bucket: int)

  datatype Entry = Entry(peer: Peer, place: Place)

  type Book = map<NetAddr, Entry>

  /** The tried bucket that a peer's address selects. */
  ghost function TriedHomeOf(h: Hasher, p: Peer): int {
    GetTriedBucket(h, p.addr.net, p.addr.port)
  }

  ghost function NewMembers(book: Book, b: int): set<NetAddr> {
    set a | a in book && book[a].place.InNew? && b in book[a].place.buckets
  }

  ghost function TriedMembers(book: Book, k: int): set<NetAddr> {
    set a | a in book && book[a].place == InTried(k)
  }

  /** `a` gains the new bucket `b`. */
  ghost function Grown(book: Book, a: NetAddr, b: int): Book
    requires a in book && book[a].place.InNew?
  {
    book[a := book[a].(place := InNew(book[a].place.buckets + {b}))]
  }

  /** `a` loses the new bucket `b`, and is forgotten with its last one. */
  ghost function Dropped(book: Book, a: NetAddr, b: int): Book
    requires a in book && book[a].place.InNew?
  {
    if book[a].place.buckets == {b} then book - {a}
    else book[a := book[a].(place := InNew(book[a].place.buckets - {b}))]
  }

  /** A member of a full bucket may go if it is terrible, or if no member is. */
  ghost predicate MayShrink(book: Book, b: int, v: NetAddr, nNow: int) {
    && v in NewMembers(book, b)
    && ((exists w :: w in NewMembers(book, b) && IsTerrible(book[w].peer, nNow))
        ==> IsTerrible(book[v].peer, nNow))
  }

  /** `a` enters the new bucket `b`; the member `v` leaves first when it is full. */
  ghost predicate PlacedFor(book: Book, book': Book, a: NetAddr, b: int, nNow: int, v: NetAddr)
    requires a in book && book[a].place.InNew? && b !in book[a].place.buckets
  {
    if |NewMembers(book, b)| < NEW_BUCKET_SIZE then book' == Grown(book, a, b)
    else MayShrink(book, b, v, nNow) && book' == Grown(Dropped(book, v, b), a, b)
  }

  ghost predicate Placed(book: Book, book': Book, a: NetAddr, b: int, nNow: int)
    requires a in book && book[a].place.InNew? && b !in book[a].place.buckets
  {
    exists v :: PlacedFor(book, book', a, b, nNow, v)
  }

  function Pow2(n: nat): nat { if n == 0 then 1 else 2 * Pow2(n - 1) }

  ghost function Touched(book: Book, a: NetAddr, p: Peer): Book
    requires a in book
  {
    book[a := book[a].(peer := p)]
  }

  /** The announcement is merged into the known entry, or makes one that is in no bucket yet. */
  ghost function Announced(book: Book, addr: Address, source: NetAddr, nTimePenalty: int, nNow: int): Book {
    var a := addr.net;
    if a in book then Touched(book, a, Refreshed(book[a].peer, addr, nTimePenalty, nNow))
    else book[a := Entry(FreshPeer(addr, source, nTimePenalty), InNew({}))]
  }

  /** `Add_`; `v` is the member that leaves a full bucket. */
  ghost predicate AddStepFor(h: Hasher, book: Book, book': Book, addr: Address, source: NetAddr,
                             nTimePenalty: int, nNow: int, coin: nat, added: bool, v: NetAddr)
  {
    var a := addr.net;
    var known := Announced(book, addr, source, nTimePenalty, nNow);
    var b := GetNewBucket(h, known[a].peer.addr.net, source);
    if !h.routable(a) then book' == book && !added
    else if a in book then
      && !added
      && if !HasNews(known[a].peer, addr)
            || known[a].place.InTried?
            || |known[a].place.buckets| == NEW_BUCKETS_PER_ADDRESS
            || GetRandInt(coin, Pow2(|known[a].place.buckets|)) != 0
            || b in known[a].place.buckets
         then book' == known
         else PlacedFor(known, book', a, b, nNow, v)
    else added && PlacedFor(known, book', a, b, nNow, v)
  }

  ghost predicate AddStep(h: Hasher, book: Book, book': Book, addr: Address, source: NetAddr,
                          nTimePenalty: int, nNow: int, coin: nat, added: bool)
  {
    exists v :: AddStepFor(h, book, book', addr, source, nTimePenalty, nNow, coin, added, v)
  }

  /** The n-th new bucket met when walking cyclically from `start`. */
  function Around(start: nat, n: nat): nat { (n + start) % NEW_BUCKET_COUNT }

  /** `b` is the first of `buckets` met when walking all new buckets cyclically from `start`. */
  ghost predicate FirstFrom(buckets: set<int>, start: nat, b: int) {
    && b in buckets
    && exists n: nat :: n < NEW_BUCKET_COUNT && b == Around(start, n)
                        && forall m: nat :: m < n ==> Around(start, m) !in buckets
  }

  /** Where an entry evicted from a tried bucket goes: its own new bucket, or the one just left. */
  ghost function EvictionBucket(h: Hasher, book: Book, p: Peer, origin: int): int {
    var u := GetNewBucket(h, p.addr.net, p.source);
    if |NewMembers(book, u)| < NEW_BUCKET_SIZE then u else origin
  }

  /** `v` goes back from its tried bucket to one new bucket. */
  ghost function Evicted(h: Hasher, book: Book, v: NetAddr, origin: int): Book
    requires v in book
  {
    book[v := Entry(book[v].peer, InNew({EvictionBucket(h, book, book[v].peer, origin)}))]
  }

  /** `MakeTried`; the entry `v` gives way when the tried bucket is full. */
  ghost predicate PromotedFor(h: Hasher, book: Book, book': Book, a: NetAddr, origin: int, v: NetAddr)
    requires a in book
  {
    var k := TriedHomeOf(h, book[a].peer);
    var moved := book[a := book[a].(place := InTried(k))];
    if |TriedMembers(book, k)| < TRIED_BUCKET_SIZE then book' == moved
    else v in TriedMembers(book, k) && book' == Evicted(h, moved, v, origin)
  }

  ghost predicate Promoted(h: Hasher, book: Book, book': Book, a: NetAddr, origin: int)
    requires a in book
  {
    exists v :: PromotedFor(h, book, book', a, origin, v)
  }

  ghost predicate Names(book: Book, a: NetAddr, port: nat) {
    a in book && book[a].peer.addr.port == port
  }

  /** `Good_`; `origin` is the new bucket that the entry is found in, and `v` gives way to it. */
  ghost predicate GoodStepFor(h: Hasher, book: Book, book': Book, a: NetAddr, port: nat, nTime: int, start: nat,
                              origin: int, v: NetAddr)
  {
    if !Names(book, a, port) then book' == book
    else
      var known := Touched(book, a, MarkedGood(book[a].peer, nTime));
      if known[a].place.InTried? then book' == known
      else FirstFrom(known[a].place.buckets, start, origin) && PromotedFor(h, known, book', a, origin, v)
  }

  ghost predicate GoodStep(h: Hasher, book: Book, book': Book, a: NetAddr, port: nat, nTime: int, start: nat) {
    exists origin, v :: GoodStepFor(h, book, book', a, port, nTime, start, origin, v)
  }

  /** `Attempt_`. */
  ghost function AttemptStep(book: Book, a: NetAddr, port: nat, nTime: int): Book {
    if Names(book, a, port) then Touched(book, a, MarkedTried(book[a].peer, nTime)) else book
  }

  /** `Connected_`. */
  ghost function ConnectedStep(book: Book, a: NetAddr, port: nat, nTime: int): Book {
    if Names(book, a, port) then Touched(book, a, MarkedConnected(book[a].peer, nTime)) else book
  }

  /** What survives a save and a reload: everything except the memory-only last-try time. */
  ghost function Reloaded(book: Book): Book {
    map a | a in book :: book[a].(peer := book[a].peer.(nLastTry := 0))
  }

  // ------------------------------------------------------------------ runs

  datatype Op =
    | Add(addr: Address, source: NetAddr, nTimePenalty: int, nNow: int, coin: nat)
    | Good(net: NetAddr, port: nat, nTime: int, start: nat)
    | Attempt(net: NetAddr, port: nat, nTime: int)
    | Connected(net: NetAddr, port: nat, nTime: int)
    | GetAddr
    | Reload

  ghost predicate Step(h: Hasher, op: Op, book: Book, book': Book) {
    match op
    case Add(addr, source, nTimePenalty, nNow, coin) =>
      exists added :: AddStep(h, book, book', addr, source, nTimePenalty, nNow, coin, added)
    case Good(a, port, nTime, start) => GoodStep(h, book, book', a, port, nTime, start)
    case Attempt(a, port, nTime) => book' == AttemptStep(book, a, port, nTime)
    case Connected(a, port, nTime) => book' == ConnectedStep(book, a, port, nTime)
    case GetAddr => book' == book
    case Reload => book' == Reloaded(book)
  }

  ghost predicate Run(h: Hasher, ops: seq<Op>, books: seq<Book>) {
    && |books| == |ops| + 1
    && books[0] == map[]
    && forall i {:trigger ops[i]} :: 0 <= i < |ops| ==> Step(h, ops[i], books[i], books[i + 1])
  }

  /** What holds of the book in every state of every run. */
  ghost predicate BookInv(h: Hasher, book: Book) {
    && (forall a :: a in book ==> book[a].peer.addr.net == a)
    && (forall a :: a in book && book[a].place.InNew? ==>
          && 1 <= |book[a].place.buckets| <= NEW_BUCKETS_PER_ADDRESS
          && forall b :: b in book[a].place.buckets ==> 0 <= b < NEW_BUCKET_COUNT)
    && (forall a :: a in book && book[a].place.InTried? ==>
          book[a].place.bucket == TriedHomeOf(h, book[a].peer))
    && (forall b :: |NewMembers(book, b)| <= NEW_BUCKET_SIZE)
    && (forall k :: |TriedMembers(book, k)| <= TRIED_BUCKET_SIZE)
  }
}
