/** Runs of the address manager itself: any sequence of operations, saving and reloading included. */
module AddrManRuns {
  import opened AddrTypes
  import opened AddrBook
  import opened AddrBookSafety
  import opened AddrTables
  import opened AddrStore
  import opened AddrReload
  import opened AddrCheck
  import opened AddrMan

  lemma SameAround(start: nat, n: nat)
    ensures Around(GetRandInt(start, NEW_BUCKET_COUNT), n) == Around(start, n)
  {
  }

  lemma SameFirst(buckets: set<int>, start: nat, b: int)
    requires FirstFrom(buckets, GetRandInt(start, NEW_BUCKET_COUNT), b)
    ensures FirstFrom(buckets, start, b)
  {
    var raw := GetRandInt(start, NEW_BUCKET_COUNT);
    hide GetRandInt, Around;
    forall n: nat ensures Around(raw, n) == Around(start, n) {
      SameAround(start, n);
    }
  }

  /** The draw of the first bucket to look at may as well be reduced to the number of buckets. */
  lemma SameGood(h: Hasher, book: Book, book': Book, a: NetAddr, port: nat, nTime: int, start: nat)
    requires GoodStep(h, book, book', a, port, nTime, GetRandInt(start, NEW_BUCKET_COUNT))
    ensures GoodStep(h, book, book', a, port, nTime, start)
  {
    hide GetRandInt, FirstFrom, PromotedFor;
    var raw := GetRandInt(start, NEW_BUCKET_COUNT);
    var origin, v :| GoodStepFor(h, book, book', a, port, nTime, raw, origin, v);
    if Names(book, a, port) && book[a].place.InNew? {
      SameFirst(book[a].place.buckets, start, origin);
    }
    assert GoodStepFor(h, book, book', a, port, nTime, start, origin, v);
  }

  /** Save the manager, and read it back into a new one with the same key. */
  method SaveAndLoad(am: CAddrMan) returns (next: CAddrMan)
    requires am.Valid()
    ensures next.Valid() && next.h == am.h && fresh(next) && next.Book() == Reloaded(am.Book())
  {
    hide Consistent, Reloaded, BookOf, FileOf, Loaded;
    ReloadRoundTrip(am.h, am.View());
    var file := am.Serialize();
    SameKey(am.h, am.View());
    next := new CAddrMan.Unserialize(am.h, file);
  }

  lemma SameKey(h: Hasher, t: Tables)
    ensures h.(nKey := FileOf(h, t).nKey) == h
  {
  }

  /** One operation; `rnd` are its raw random numbers. After a reload it is a new object that goes on. */
  method Apply(am: CAddrMan, op: Op, rnd: nat -> nat) returns (next: CAddrMan)
    requires am.Valid()
    modifies am
    ensures next.Valid() && next.h == am.h && (next == am || fresh(next))
    ensures Step(am.h, op, old(am.Book()), next.Book())
  {
    hide Consistent, AddStep, GoodStep, AttemptStep, ConnectedStep, Reloaded, BookOf;
    next := am;
    match op
    case Add(addr, source, nTimePenalty, nNow, coin) =>
      var _, _ := am.Add(addr, source, nTimePenalty, nNow, coin, rnd);
    case Good(net, port, nTime, start) =>
      ghost var book := am.Book();
      var _, _ := am.Good(net, port, nTime, start, rnd);
      SameGood(am.h, book, am.Book(), net, port, nTime, start);
    case Attempt(net, port, nTime) =>
      am.Attempt(net, port, nTime);
    case Connected(net, port, nTime) =>
      am.Connected(net, port, nTime);
    case GetAddr =>
      var _ := am.GetAddr(rnd);
    case Reload =>
      next := SaveAndLoad(am);
  }

  /** The sizes that a manager never exceeds. */
  ghost predicate WithinBounds(t: Tables) {
    && |t.vRandom| == t.nNew + t.nTried <= NEW_BUCKET_COUNT * NEW_BUCKET_SIZE + TRIED_BUCKET_COUNT * TRIED_BUCKET_SIZE
    && |t.vvNew| == NEW_BUCKET_COUNT && (forall b :: 0 <= b < |t.vvNew| ==> |t.vvNew[b]| <= NEW_BUCKET_SIZE)
    && |t.vvTried| == TRIED_BUCKET_COUNT && (forall k :: 0 <= k < |t.vvTried| ==> |t.vvTried[k]| <= TRIED_BUCKET_SIZE)
  }

  lemma RunBounded(h: Hasher, ops: seq<Op>, books: seq<Book>, t: Tables)
    requires Run(h, ops, books) && Consistent(h, t) && BookOf(h, t) == books[|ops|]
    ensures WithinBounds(t)
  {
    RunKeepsInv(h, ops, books, |ops|);
    Capacity(h, BookOf(h, t));
    BookSize(h, t);
    ConsistentSizes(h, t);
  }

  lemma ConsistentSizes(h: Hasher, t: Tables)
    requires Consistent(h, t)
    ensures SizesOk(t) && AddrIndexOk(t) && |t.vvNew| == NEW_BUCKET_COUNT && |t.vvTried| == TRIED_BUCKET_COUNT
  {
  }

  /** A run of operations on a new manager is a run of its book: everything proved of runs holds of the manager.
      It stays within its bounds. */
  method Drive(h: Hasher, ops: seq<Op>, rnd: nat -> nat -> nat) returns (am: CAddrMan, ghost books: seq<Book>)
    ensures am.Valid() && am.h == h && fresh(am)
    ensures Run(h, ops, books) && am.Book() == books[|ops|]
    ensures WithinBounds(am.View())
  {
    hide Consistent, Step, BookOf, WithinBounds;
    am := new CAddrMan(h);
    books := [am.Book()];
    for i := 0 to |ops|
      invariant am.Valid() && am.h == h && fresh(am)
      invariant |books| == i + 1 && books[0] == map[] && am.Book() == books[i]
      invariant forall j {:trigger ops[j]} :: 0 <= j < i ==> Step(h, ops[j], books[j], books[j + 1])
    {
      am := Apply(am, ops[i], rnd(i));
      books := books + [am.Book()];
    }
    RunBounded(h, ops, books, am.View());
  }

  /** After any run with positive times, `Check_` returns 0, and the manager that it leaves is within its bounds. */
  method DriveAndCheck(h: Hasher, ops: seq<Op>, rnd: nat -> nat -> nat) returns (am: CAddrMan, code: int)
    requires forall i :: 0 <= i < |ops| ==> PositiveTime(ops[i])
    ensures code == 0 && am.Valid() && WithinBounds(am.View())
  {
    hide Consistent, Run, BookOf, TimesOk, Checked, WithinBounds;
    ghost var books;
    am, books := Drive(h, ops, rnd);
    RunSize(h, ops, books);
    RunKeepsTimes(h, ops, books, |ops|);
    BookChecks(h, am.View());
    ConsistentSizes(h, am.View());
    code := am.Check();
  }

  lemma RunSize(h: Hasher, ops: seq<Op>, books: seq<Book>)
    requires Run(h, ops, books)
    ensures |books| == |ops| + 1
  {
  }
}
