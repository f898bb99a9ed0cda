/** A full tried bucket on which `SelectTried` returns an entry that is not the least recent one it inspected. */
module TriedExample {
  import opened FiniteSets
  import opened AddrTypes
  import opened AddrBook
  import opened AddrTables
  import opened TriedChoice

  const NEWCOMER := 64

  function Digit(d: nat): bv8
    requires d < 10
  {
    if d == 0 then 0 else if d == 1 then 1 else if d == 2 then 2 else if d == 3 then 3 else if d == 4 then 4
    else if d == 5 then 5 else if d == 6 then 6 else if d == 7 then 7 else if d == 8 then 8 else 9
  }

  lemma DigitsDiffer(c: nat, d: nat)
    requires c < 10 && d < 10 && Digit(c) == Digit(d)
    ensures c == d
  {
  }

  /** One address for each id. */
  function NetOf(id: nat): NetAddr
    requires id <= NEWCOMER
  {
    NetAddr([Digit(id / 10), Digit(id % 10), 0, 0, 0, 0, 0, 0, 0, 0, 0, 0, 0, 0, 0, 0])
  }

  lemma NetsDiffer(a: nat, b: nat)
    requires a <= NEWCOMER && b <= NEWCOMER && NetOf(a) == NetOf(b)
    ensures a == b
  {
    assert NetOf(a).ip[0] == NetOf(b).ip[0] && NetOf(a).ip[1] == NetOf(b).ip[1];
    DigitsDiffer(a / 10, b / 10);
    DigitsDiffer(a % 10, b % 10);
  }

  /** Every address has the first bucket of each table. */
  function OneBucket(): Hasher {
    Hasher([], _ => 0, (_, _) => [], _ => [], _ => true)
  }

  /** Id 5 had its last success before all the others. */
  function PeerOf(id: nat): Peer
    requires id <= NEWCOMER
  {
    Peer(Address(NetOf(id), 8333, 1, 1), NetOf(id), if id == 5 then 1 else 2, 0, 0)
  }

  function InfoOf(id: nat): Info
    requires id <= NEWCOMER
  {
    Info(PeerOf(id), if id == NEWCOMER then 1 else 0, id != NEWCOMER, id)
  }

  function Infos(): map<int, Info> {
    map id: nat | id <= NEWCOMER :: InfoOf(id)
  }

  lemma AllNetsDiffer()
    ensures forall a: nat, b: nat :: a <= NEWCOMER && b <= NEWCOMER && NetOf(a) == NetOf(b) ==> a == b
  {
    forall a: nat, b: nat | a <= NEWCOMER && b <= NEWCOMER && NetOf(a) == NetOf(b) ensures a == b {
      NetsDiffer(a, b);
    }
  }

  function Index(n: nat): map<NetAddr, int>
    requires n <= NEWCOMER + 1
  {
    if n == 0 then map[] else Index(n - 1)[NetOf(n - 1) := n - 1]
  }

  lemma {:induction false} IndexHolds(n: nat)
    requires n <= NEWCOMER + 1
    ensures forall id: nat :: id < n ==> NetOf(id) in Index(n) && Index(n)[NetOf(id)] == id
    ensures forall a :: a in Index(n) ==> 0 <= Index(n)[a] < n && NetOf(Index(n)[a]) == a
  {
    hide NetOf;
    if n > 0 {
      IndexHolds(n - 1);
      AllNetsDiffer();
    }
  }

  function Order(n: nat): (q: seq<int>)
    ensures |q| == n && forall i :: 0 <= i < n ==> q[i] == i
  {
    seq(n, i => i)
  }

  /** Ids 0 to 63 fill the first tried bucket; id 64 waits in the first new bucket. */
  function FullBucket(): Tables {
    Tables(
      NEWCOMER + 1, Infos(), Index(NEWCOMER + 1), Order(NEWCOMER + 1),
      NEWCOMER, seq(TRIED_BUCKET_COUNT, k => if k == 0 then Order(NEWCOMER) else []),
      1, seq(NEW_BUCKET_COUNT, b => if b == 0 then {NEWCOMER} else {}))
  }

  lemma IndexesAgree()
    ensures IdsOk(FullBucket()) && AddrIndexOk(FullBucket()) && RandomOk(FullBucket())
  {
    hide NetOf, Index, Order;
    IndexHolds(NEWCOMER + 1);
  }

  lemma TriedAgrees()
    ensures TriedOk(OneBucket(), FullBucket())
  {
    hide NetOf, Index, Order;
    var h, t := OneBucket(), FullBucket();
    forall id | id in t.mapInfo ensures TriedHomeOf(h, t.mapInfo[id].peer) == 0 {}
    forall id | id in t.mapInfo && t.mapInfo[id].fInTried ensures id in t.vvTried[0] {
      assert t.vvTried[0][id] == id;
    }
  }

  lemma NewAgrees()
    ensures NewOk(FullBucket(), NOBODY) && SizesOk(FullBucket())
  {
    hide NetOf, Index, Order;
    var t := FullBucket();
    forall id | id in t.mapInfo ensures Buckets(t.vvNew, id) == if id == NEWCOMER then {0} else {} {}
  }

  lemma CountersAgree()
    ensures CountersOk(FullBucket())
  {
    hide NetOf, Index, Order;
    var t := FullBucket();
    assert NewIds(t.mapInfo) == {NEWCOMER};
    forall id ensures id in TriedIds(t.mapInfo) <==> id in Order(NEWCOMER) {
      if id in TriedIds(t.mapInfo) { assert Order(NEWCOMER)[id] == id; }
    }
    DistinctSize(Order(NEWCOMER), TriedIds(t.mapInfo));
  }

  /** The draws: the first one picks the sixth entry, the others leave their slots alone. */
  function SixthFirst(): nat -> nat {
    (i: nat) => if i == 0 then 5 else 0
  }

  lemma Draws(i: nat)
    requires i < TRIED_ENTRIES_INSPECT_ON_EVICT
    ensures Draw(SixthFirst(), TRIED_BUCKET_SIZE, i) == (if i == 0 then 5 else i)
    ensures DrawnFrom(SixthFirst(), TRIED_BUCKET_SIZE, i) == (if i == 0 then 5 else i)
    ensures Sitting(SixthFirst(), TRIED_BUCKET_SIZE, i + 1, 5) == 0
  {
    if i > 0 { Draws(i - 1); }
    SittingStill(i, i);
  }

  /** The entry that a later draw picks has not moved. */
  lemma SittingStill(n: nat, t: nat)
    requires 0 <= n <= t < TRIED_ENTRIES_INSPECT_ON_EVICT
    ensures Sitting(SixthFirst(), TRIED_BUCKET_SIZE, n, t) == t
  {
    if n > 0 { SittingStill(n - 1, t); }
  }

  lemma FullBucketConsistent()
    ensures Consistent(OneBucket(), FullBucket())
  {
    hide NetOf, Index, Order, IdsOk, AddrIndexOk, RandomOk, TriedOk, NewOk, CountersOk, SizesOk, FullBucket;
    IndexesAgree();
    TriedAgrees();
    NewAgrees();
    CountersAgree();
  }

  /** The last successes of the ids 0 to 63 in some map of known ids. */
  lemma BrokenPromise(ages: map<int, int>)
    requires forall id :: 0 <= id < NEWCOMER ==> id in ages && ages[id] == if id == 5 then 1 else 2
    ensures AllKnown(Order(NEWCOMER), ages) && !PromiseKept(Order(NEWCOMER), ages, SixthFirst())
  {
    hide Shuffled, Draw, DrawnFrom, Sitting, OldestDraw;
    var q, rnd, n := Order(NEWCOMER), SixthFirst(), TRIED_ENTRIES_INSPECT_ON_EVICT;
    for i := 0 to n
      invariant forall j: nat :: j < i ==> DrawnSuccess(q, ages, rnd, j) == if j == 0 then 1 else 2
    {
      Draws(i);
    }
    var slot := OldestDraw(q, ages, rnd, n);
    assert DrawnSuccess(q, ages, rnd, slot) <= DrawnSuccess(q, ages, rnd, 0);
    Draws(0);
    Draws(n - 1);
  }

  /** In a consistent manager whose newcomer is to replace an entry of a full tried bucket, the comment fails:
      the returned slot holds an entry that was successful more recently than the first one inspected. */
  lemma MoreRecentReturned() returns (h: Hasher, t: Tables, nId: int, nOrigin: nat, k: nat, rnd: nat -> nat)
    ensures Consistent(h, t) && nId in t.mapInfo && !t.mapInfo[nId].fInTried
    ensures nOrigin < |t.vvNew| && nId in t.vvNew[nOrigin]
    ensures k == TriedHomeOf(h, t.mapInfo[nId].peer) && |t.vvTried[k]| == TRIED_BUCKET_SIZE
    ensures var q, ages := t.vvTried[k], LastSuccesses(Erased(t, nId).mapInfo);
      && AllKnown(q, ages) && AllKnown(Shuffled(q, rnd, Inspected(|q|)), ages)
      && !LeastRecent(Shuffled(q, rnd, Inspected(|q|)), ages, ChosenSlot(q, ages, rnd))
  {
    hide Consistent, NetOf, Index, Order, AllKnown, PromiseKept, LeastRecent, Shuffled;
    h, t, nId, nOrigin, k, rnd := OneBucket(), FullBucket(), NEWCOMER, 0, 0, SixthFirst();
    FullBucketConsistent();
    var q, ages := t.vvTried[k], LastSuccesses(Erased(t, nId).mapInfo);
    BrokenPromise(ages);
    LeastRecentReturnedIff(q, ages, rnd);
  }
}
