/** What reading builds from any stream, one that no manager wrote included: which new buckets an entry is in, how
    often it is referenced, and which tried entries find room. */
module AddrLoading {
  import opened AddrTypes
  import opened AddrBook
  import opened AddrTables
  import opened AddrStore

  // ---- the lists of a stream with 256 buckets ----

  /** How often `id` is among the first `n` of a list. */
  function Occurs(q: seq<int>, id: int, n: nat): nat
    requires n <= |q|
  {
    if n == 0 then 0 else Occurs(q, id, n - 1) + if q[n - 1] == id then 1 else 0
  }

  /** How often `id` is listed in the first `b` buckets. */
  function Listings(buckets: seq<seq<int>>, id: int, b: nat): nat
    requires b <= |buckets|
  {
    if b == 0 then 0 else Listings(buckets, id, b - 1) + Occurs(buckets[b - 1], id, |buckets[b - 1]|)
  }

  function AtMost4(n: int): int { if n < 4 then n else 4 }

  /** The reference count behind an id; reading an unknown one creates it without any. */
  function References(t: Tables, id: int): int {
    if id in t.mapInfo then t.mapInfo[id].nRefCount else 0
  }

  lemma {:induction false} OccursSome(q: seq<int>, id: int, n: nat)
    requires n <= |q|
    ensures Occurs(q, id, n) > 0 <==> exists i :: 0 <= i < n && q[i] == id
  {
    if n > 0 {
      OccursSome(q, id, n - 1);
    }
  }

  /** One list: references are counted up to four, and the bucket takes the ids that have fewer when it begins. */
  lemma {:induction false} ListRead(t: Tables, b: int, q: seq<int>, n: nat, id: int)
    requires 0 <= b < |t.vvNew| && n <= |q| && References(t, id) <= 4 && t.vvNew[b] == {}
    ensures var u := AfterIndices(t, true, b, q, n);
      && References(u, id) == AtMost4(References(t, id) + Occurs(q, id, n))
      && (id in u.vvNew[b] <==> References(t, id) < 4 && Occurs(q, id, n) > 0)
      && forall c :: 0 <= c < |t.vvNew| && c != b ==> u.vvNew[c] == t.vvNew[c]
  {
    if n > 0 {
      ListRead(t, b, q, n - 1, id);
    }
  }

  /** Buckets that have not been read yet are empty. */
  lemma {:induction false} UnreadEmpty(h: Hasher, file: AddrFile, n: nat, c: nat)
    requires Readable(file) && Native(file) && n <= c < 256 && n <= |file.buckets|
    ensures AfterBuckets(h, file, n).vvNew[c] == {}
  {
    if n == 0 {
      TriedKeepsNew(h, file, |file.triedInfos|);
      NewKeepsEmpty(h, file, |file.newInfos|);
    } else {
      UnreadEmpty(h, file, n - 1, c);
      UnreadEmpty(h, file, n - 1, n - 1);
      OtherBuckets(AfterBuckets(h, file, n - 1), n - 1, file.buckets[n - 1], |file.buckets[n - 1]|, c);
    }
  }

  lemma {:induction false} OtherBuckets(t: Tables, b: nat, q: seq<int>, n: nat, c: nat)
    requires b < |t.vvNew| && n <= |q| && c < |t.vvNew| && c != b
    ensures AfterIndices(t, true, b, q, n).vvNew[c] == t.vvNew[c]
  {
    if n > 0 {
      OtherBuckets(t, b, q, n - 1, c);
    }
  }

  lemma {:induction false} TriedKeepsNew(h: Hasher, file: AddrFile, n: nat)
    requires n <= |file.triedInfos|
    ensures AfterTried(h, file, n).vvNew == AfterNew(h, file, |file.newInfos|).vvNew
  {
    hide AfterNew, ReadTried;
    if n > 0 {
      TriedKeepsNew(h, file, n - 1);
      ReadTriedKeeps(h, AfterTried(h, file, n - 1), file.triedInfos[n - 1], 0);
    }
  }

  lemma {:induction false} NewKeepsEmpty(h: Hasher, file: AddrFile, n: nat)
    requires Native(file) && n <= |file.newInfos|
    ensures forall c :: 0 <= c < 256 ==> AfterNew(h, file, n).vvNew[c] == {}
  {
    if n > 0 {
      NewKeepsEmpty(h, file, n - 1);
    }
  }

  lemma {:induction false} NewUnreferenced(h: Hasher, file: AddrFile, n: nat, id: int)
    requires Native(file) && n <= |file.newInfos|
    ensures References(AfterNew(h, file, n), id) == 0
  {
    if n > 0 {
      NewUnreferenced(h, file, n - 1, id);
    }
  }

  lemma {:induction false} TriedUnreferenced(h: Hasher, file: AddrFile, n: nat, id: int)
    requires Native(file) && n <= |file.triedInfos|
    ensures References(AfterTried(h, file, n), id) == 0
  {
    hide AfterNew, ReadTried;
    if n > 0 {
      TriedUnreferenced(h, file, n - 1, id);
      ReadTriedKeeps(h, AfterTried(h, file, n - 1), file.triedInfos[n - 1], id);
    } else {
      NewUnreferenced(h, file, |file.newInfos|, id);
    }
  }

  /** After `n` of the 256 buckets. */
  lemma {:induction false} BucketsCounted(h: Hasher, file: AddrFile, n: nat, id: int)
    requires Readable(file) && Native(file) && n <= |file.buckets|
    ensures References(AfterBuckets(h, file, n), id) == AtMost4(Listings(file.buckets, id, n))
  {
    hide AfterBuckets, References, Occurs;
    if n == 0 {
      TriedUnreferenced(h, file, |file.triedInfos|, id);
      NoBucketsRead(h, file);
    } else {
      BucketsCounted(h, file, n - 1, id);
      NextBucket(h, file, n - 1, id);
    }
  }

  /** Bucket `b`, after it has been read. */
  lemma {:induction false} BucketRead(h: Hasher, file: AddrFile, n: nat, id: int, b: nat)
    requires Readable(file) && Native(file) && b < n <= |file.buckets|
    ensures id in AfterBuckets(h, file, n).vvNew[b] <==> Listings(file.buckets, id, b) < 4 && id in file.buckets[b]
  {
    hide AfterBuckets, References, Listings;
    BucketsCounted(h, file, n - 1, id);
    NextBucket(h, file, n - 1, id);
    if b < n - 1 {
      BucketRead(h, file, n - 1, id, b);
    }
  }

  lemma NoBucketsRead(h: Hasher, file: AddrFile)
    requires Readable(file)
    ensures AfterBuckets(h, file, 0) == AfterTried(h, file, |file.triedInfos|)
  {
    hide AfterTried;
  }

  lemma NextBucket(h: Hasher, file: AddrFile, n: nat, id: int)
    requires Readable(file) && Native(file) && n < |file.buckets| && References(AfterBuckets(h, file, n), id) <= 4
    ensures var t, u, q := AfterBuckets(h, file, n), AfterBuckets(h, file, n + 1), file.buckets[n];
      && References(u, id) == AtMost4(References(t, id) + Occurs(q, id, |q|))
      && (id in u.vvNew[n] <==> References(t, id) < 4 && id in q)
      && forall b :: 0 <= b < n ==> u.vvNew[b] == t.vvNew[b]
  {
    hide AfterIndices, Occurs, References, AfterTried;
    UnreadEmpty(h, file, n, n);
    var t, q := AfterBuckets(h, file, n), file.buckets[n];
    ListRead(t, n, q, |q|, id);
    OccursSome(q, id, |q|);
    assert id in q <==> exists i :: 0 <= i < |q| && q[i] == id;
  }

  /** A stream with 256 buckets, whoever wrote it: an entry is in the buckets that list it, until it has been listed
      four times, and its reference count is the number of listings, at most four. */
  lemma NativeBuckets(h: Hasher, file: AddrFile, id: int)
    requires Readable(file) && file.nUBuckets == 256
    ensures References(Loaded(h, file), id) == AtMost4(Listings(file.buckets, id, 256)) <= 4
    ensures |Loaded(h, file).vvNew| == 256
    ensures forall b :: 0 <= b < 256 ==>
      (id in Loaded(h, file).vvNew[b] <==> Listings(file.buckets, id, b) < 4 && id in file.buckets[b])
  {
    hide AfterBuckets, References, Listings;
    BucketsCounted(h, file, 256, id);
    forall b | 0 <= b < 256
      ensures id in Loaded(h, file).vvNew[b] <==> Listings(file.buckets, id, b) < 4 && id in file.buckets[b]
    {
      BucketRead(h, file, 256, id, b);
    }
  }

  // ---- a stream with another number of buckets ----

  /** Every new entry is in the bucket that the key selects for it now, whatever the stream lists. */
  lemma {:induction false} ForeignEntries(h: Hasher, file: AddrFile, n: nat, i: nat, b: nat)
    requires !Native(file) && i < n <= |file.newInfos| && b < 256
    ensures var t, s := AfterNew(h, file, n), file.newInfos[i];
      && i in t.mapInfo && t.mapInfo[i] == Info(Restore(s), 1, false, i) && |t.vRandom| == n && t.vRandom[i] == i
      && (i in t.vvNew[b] <==> b == GetNewBucket(h, s.addr.net, s.source))
  {
    hide AfterNew, GetNewBucket, Restore;
    ForeignIds(h, file, n - 1, b);
    ForeignRead(h, file, n - 1, b);
    if i < n - 1 {
      ForeignEntries(h, file, n - 1, i, b);
    }
  }

  lemma ForeignRead(h: Hasher, file: AddrFile, n: nat, b: nat)
    requires !Native(file) && n < |file.newInfos| && b < 256
    ensures var t, u, s := AfterNew(h, file, n), AfterNew(h, file, n + 1), file.newInfos[n];
      && u.mapInfo == t.mapInfo[n := Info(Restore(s), 1, false, |t.vRandom|)] && u.vRandom == t.vRandom + [n]
      && u.vvNew[b] == if b == GetNewBucket(h, s.addr.net, s.source) then t.vvNew[b] + {n} else t.vvNew[b]
  {
    hide GetNewBucket, Restore;
  }

  lemma {:induction false} ForeignIds(h: Hasher, file: AddrFile, n: nat, b: nat)
    requires !Native(file) && n <= |file.newInfos| && b < 256
    ensures var t := AfterNew(h, file, n);
      |t.vRandom| == n && forall id :: id in t.vvNew[b] ==> 0 <= id < n
  {
    hide ReadNew;
    if n > 0 {
      ForeignIds(h, file, n - 1, b);
      ForeignRead(h, file, n - 1, b);
    }
  }

  lemma {:induction false} TriedKeepsEntries(h: Hasher, file: AddrFile, n: nat, i: int)
    requires n <= |file.triedInfos| && Readable(file) && 0 <= i < |file.newInfos|
    requires i in AfterNew(h, file, |file.newInfos|).mapInfo
    ensures var t, u := AfterNew(h, file, |file.newInfos|), AfterTried(h, file, n);
      u.nIdCount >= |file.newInfos| && i in u.mapInfo && u.mapInfo[i] == t.mapInfo[i]
  {
    hide AfterNew, ReadTried;
    if n > 0 {
      TriedKeepsEntries(h, file, n - 1, i);
      ReadTriedKeeps(h, AfterTried(h, file, n - 1), file.triedInfos[n - 1], i);
    }
  }

  lemma ReadTriedKeeps(h: Hasher, t: Tables, s: Saved, i: int)
    requires |t.vvTried| == 64
    ensures var u := ReadTried(h, t, s);
      u.vvNew == t.vvNew && t.nIdCount <= u.nIdCount
      && (i != t.nIdCount ==> References(u, i) == References(t, i))
      && (References(t, i) == 0 ==> References(u, i) == 0)
      && (i in t.mapInfo && i != t.nIdCount ==> i in u.mapInfo && u.mapInfo[i] == t.mapInfo[i])
  {
    hide GetTriedBucket, Restore;
  }

  lemma {:induction false} ForeignIgnored(t: Tables, b: nat, q: seq<int>, n: nat, id: int)
    requires b < |t.vvNew| && n <= |q|
    ensures var u := AfterIndices(t, false, b, q, n);
      u.vvNew == t.vvNew && (id in t.mapInfo ==> id in u.mapInfo && u.mapInfo[id] == t.mapInfo[id])
  {
    if n > 0 {
      ForeignIgnored(t, b, q, n - 1, id);
    }
  }

  lemma {:induction false} ForeignLists(h: Hasher, file: AddrFile, n: nat, id: int)
    requires Readable(file) && !Native(file) && n <= |file.buckets|
    ensures var t, u := AfterTried(h, file, |file.triedInfos|), AfterBuckets(h, file, n);
      u.vvNew == t.vvNew && (id in t.mapInfo ==> id in u.mapInfo && u.mapInfo[id] == t.mapInfo[id])
  {
    if n > 0 {
      ForeignLists(h, file, n - 1, id);
      ForeignIgnored(AfterBuckets(h, file, n - 1), n - 1, file.buckets[n - 1], |file.buckets[n - 1]|, id);
    }
  }

  lemma ForeignBuckets(h: Hasher, file: AddrFile, i: nat, b: nat)
    requires Readable(file) && file.nUBuckets != 256 && i < |file.newInfos| && b < 256
    ensures var t, s := Loaded(h, file), file.newInfos[i];
      && i in t.mapInfo && t.mapInfo[i] == Info(Restore(s), 1, false, i) && |t.vvNew| == 256
      && (i in t.vvNew[b] <==> b == GetNewBucket(h, s.addr.net, s.source))
  {
    hide AfterNew, AfterTried, AfterBuckets;
    ForeignEntries(h, file, |file.newInfos|, i, b);
    TriedKeepsNew(h, file, |file.triedInfos|);
    TriedKeepsEntries(h, file, |file.triedInfos|, i);
    ForeignLists(h, file, |file.buckets|, i);
  }

  // ---- the tried entries ----

  /** How many of the first `n` tried entries select bucket `k`. */
  function Selecting(h: Hasher, infos: seq<Saved>, k: int, n: nat): nat
    requires n <= |infos|
  {
    if n == 0 then 0
    else
      var s := infos[n - 1];
      Selecting(h, infos, k, n - 1) + if GetTriedBucket(h, s.addr.net, s.addr.port) == k then 1 else 0
  }

  /** How many of the first `n` find no room. */
  function Lost(h: Hasher, infos: seq<Saved>, n: nat): nat
    requires n <= |infos|
  {
    if n == 0 then 0
    else
      var s := infos[n - 1];
      Lost(h, infos, n - 1)
      + if Selecting(h, infos, GetTriedBucket(h, s.addr.net, s.addr.port), n - 1) >= 64 then 1 else 0
  }

  lemma {:induction false} TriedRead(h: Hasher, file: AddrFile, n: nat, k: nat)
    requires n <= |file.triedInfos| && k < 64
    ensures var t, c := AfterTried(h, file, n), Selecting(h, file.triedInfos, k, n);
      && |t.vvTried[k]| == (if c < 64 then c else 64)
      && t.nTried == file.nTried - Lost(h, file.triedInfos, n)
      && t.nIdCount == file.nNew + n - Lost(h, file.triedInfos, n)
  {
    hide GetTriedBucket, ReadTried, AfterNew;
    if n > 0 {
      var s := file.triedInfos[n - 1];
      TriedRead(h, file, n - 1, k);
      TriedRead(h, file, n - 1, GetTriedBucket(h, s.addr.net, s.addr.port));
      ReadTriedSizes(h, AfterTried(h, file, n - 1), s, k);
    } else {
      NoneTried(h, file, |file.newInfos|);
    }
  }

  lemma ReadTriedSizes(h: Hasher, t: Tables, s: Saved, k: nat)
    requires |t.vvTried| == 64 && k < 64
    ensures var u, j := ReadTried(h, t, s), GetTriedBucket(h, s.addr.net, s.addr.port);
      var room := if |t.vvTried[j]| < 64 then 1 else 0;
      && |u.vvTried[k]| == |t.vvTried[k]| + (if j == k then room else 0)
      && u.nIdCount == t.nIdCount + room && u.nTried == t.nTried + room - 1
  {
    hide GetTriedBucket, Restore;
  }

  lemma {:induction false} NoneTried(h: Hasher, file: AddrFile, n: nat)
    requires n <= |file.newInfos|
    ensures AfterNew(h, file, n).nTried == file.nTried
    ensures forall k :: 0 <= k < 64 ==> AfterNew(h, file, n).vvTried[k] == []
  {
    hide ReadNew;
    if n > 0 {
      NoneTried(h, file, n - 1);
      ReadNewKeeps(h, AfterNew(h, file, n - 1), Native(file), file.newInfos[n - 1]);
    }
  }

  lemma ReadNewKeeps(h: Hasher, t: Tables, native: bool, s: Saved)
    requires |t.vvNew| == 256
    ensures ReadNew(h, t, native, s).nTried == t.nTried && ReadNew(h, t, native, s).vvTried == t.vvTried
  {
    hide GetNewBucket, Restore;
  }

  /** The entry that finds room has the next id, and the next slot of its bucket. */
  lemma TriedEntryRead(h: Hasher, file: AddrFile, n: nat)
    requires n < |file.triedInfos|
    ensures var s, t, u := file.triedInfos[n], AfterTried(h, file, n), AfterTried(h, file, n + 1);
      var k := GetTriedBucket(h, s.addr.net, s.addr.port);
      var c := Selecting(h, file.triedInfos, k, n);
      var id := file.nNew + n - Lost(h, file.triedInfos, n);
      if c < 64 then
        && u.vvTried[k] == t.vvTried[k] + [id] && |t.vvTried[k]| == c
        && u.mapInfo == t.mapInfo[id := Info(Restore(s), 0, true, |t.vRandom|)] && u.vRandom == t.vRandom + [id]
        && forall j :: 0 <= j < 64 && j != k ==> u.vvTried[j] == t.vvTried[j]
      else u.mapInfo == t.mapInfo && u.vRandom == t.vRandom && u.vvTried == t.vvTried
  {
    hide GetTriedBucket;
    var s := file.triedInfos[n];
    TriedRead(h, file, n, GetTriedBucket(h, s.addr.net, s.addr.port));
  }

  lemma {:induction false} ListsKeepTried(h: Hasher, file: AddrFile, n: nat)
    requires n <= |file.buckets| <= 256
    ensures var t, u := AfterTried(h, file, |file.triedInfos|), AfterBuckets(h, file, n);
      u.vvTried == t.vvTried && u.nTried == t.nTried && u.vRandom == t.vRandom
  {
    if n > 0 {
      ListsKeepTried(h, file, n - 1);
      ListKeepsTried(AfterBuckets(h, file, n - 1), Native(file), n - 1, file.buckets[n - 1], |file.buckets[n - 1]|);
    }
  }

  lemma {:induction false} ListKeepsTried(t: Tables, native: bool, b: nat, q: seq<int>, n: nat)
    requires b < |t.vvNew| && n <= |q|
    ensures var u := AfterIndices(t, native, b, q, n);
      u.vvTried == t.vvTried && u.nTried == t.nTried && u.vRandom == t.vRandom
  {
    if n > 0 {
      ListKeepsTried(t, native, b, q, n - 1);
    }
  }

  /** From any stream, a tried bucket takes the entries that select it until it holds 64, and the others are lost. */
  lemma TriedBuckets(h: Hasher, file: AddrFile, k: nat)
    requires Readable(file) && k < 64
    ensures var t, n := Loaded(h, file), |file.triedInfos|;
      var c := Selecting(h, file.triedInfos, k, n);
      && |t.vvTried| == 64 && |t.vvTried[k]| == (if c < 64 then c else 64)
      && t.nTried == file.nTried - Lost(h, file.triedInfos, n)
  {
    hide AfterTried, AfterBuckets, Selecting, Lost;
    TriedRead(h, file, |file.triedInfos|, k);
    ListsKeepTried(h, file, |file.buckets|);
  }
}
