/** Which entry of a full tried bucket is replaced: `SelectTried` on the bucket alone. */
module TriedChoice {
  import opened AddrTypes

  /** The slot drawn for slot `i` of a bucket of `size` entries. */
  function Draw(rnd: nat -> nat, size: nat, i: nat): (pos: nat)
    requires i < size
    ensures i <= pos < size
  {
    GetRandInt(rnd(i), size - i) + i
  }

  function Exchanged(q: seq<int>, i: nat, j: nat): (r: seq<int>)
    requires i < |q| && j < |q|
    ensures |r| == |q|
  {
    q[j := q[i]][i := q[j]]
  }

  /** The bucket after its first `n` slots have been drawn from the slots not yet fixed. */
  function Shuffled(q: seq<int>, rnd: nat -> nat, n: nat): (r: seq<int>)
    requires n <= |q|
    ensures |r| == |q|
  {
    if n == 0 then q else Exchanged(Shuffled(q, rnd, n - 1), n - 1, Draw(rnd, |q|, n - 1))
  }

  ghost predicate Distinct(q: seq<int>) {
    forall i, j :: 0 <= i < j < |q| ==> q[i] != q[j]
  }

  lemma ExchangedPermutes(q: seq<int>, i: nat, j: nat)
    requires i < |q| && j < |q|
    ensures multiset(Exchanged(q, i, j)) == multiset(q)
  {
  }

  function Bag(q: seq<int>): multiset<int> { multiset(q) }

  lemma ExchangedBag(q: seq<int>, i: nat, j: nat)
    requires i < |q| && j < |q|
    ensures Bag(Exchanged(q, i, j)) == Bag(q)
  {
    ExchangedPermutes(q, i, j);
  }

  lemma {:induction false} ShuffledBag(q: seq<int>, rnd: nat -> nat, n: nat)
    requires n <= |q|
    ensures Bag(Shuffled(q, rnd, n)) == Bag(q)
  {
    hide Bag, Exchanged, Draw;
    if n > 0 {
      ShuffledBag(q, rnd, n - 1);
      ExchangedBag(Shuffled(q, rnd, n - 1), n - 1, Draw(rnd, |q|, n - 1));
    }
  }

  lemma ShuffledPermutes(q: seq<int>, rnd: nat -> nat, n: nat)
    requires n <= |q|
    ensures multiset(Shuffled(q, rnd, n)) == multiset(q)
  {
    hide Shuffled;
    ShuffledBag(q, rnd, n);
  }

  lemma ExchangedDistinct(q: seq<int>, i: nat, j: nat)
    requires Distinct(q) && i < |q| && j < |q|
    ensures Distinct(Exchanged(q, i, j))
  {
  }

  lemma {:induction false} ShuffledDistinct(q: seq<int>, rnd: nat -> nat, n: nat)
    requires n <= |q| && Distinct(q)
    ensures Distinct(Shuffled(q, rnd, n))
  {
    if n > 0 {
      ShuffledDistinct(q, rnd, n - 1);
      ExchangedDistinct(Shuffled(q, rnd, n - 1), n - 1, Draw(rnd, |q|, n - 1));
    }
  }

  function Inspected(size: nat): (n: nat)
    ensures n <= size
  {
    if size < TRIED_ENTRIES_INSPECT_ON_EVICT then size else TRIED_ENTRIES_INSPECT_ON_EVICT
  }

  /** Where the entry that sits in slot `t` was before the first `n` slots were drawn. */
  function Sitting(rnd: nat -> nat, size: nat, n: nat, t: nat): (from: nat)
    requires n <= t < size
    ensures from < size
  {
    if n == 0 then t
    else if Draw(rnd, size, n - 1) == t then Sitting(rnd, size, n - 1, n - 1)
    else Sitting(rnd, size, n - 1, t)
  }

  /** Where the entry that the `i`-th draw picks was before the shuffle. */
  function DrawnFrom(rnd: nat -> nat, size: nat, i: nat): (from: nat)
    requires i < size
    ensures from < size
  {
    Sitting(rnd, size, i, Draw(rnd, size, i))
  }

  lemma {:induction false} SittingHolds(q: seq<int>, rnd: nat -> nat, n: nat, t: nat)
    requires n <= t < |q|
    ensures Shuffled(q, rnd, n)[t] == q[Sitting(rnd, |q|, n, t)]
  {
    if n > 0 {
      SittingHolds(q, rnd, n - 1, if Draw(rnd, |q|, n - 1) == t then n - 1 else t);
    }
  }

  /** A slot that has been drawn keeps its entry. */
  lemma {:induction false} DrawnStays(q: seq<int>, rnd: nat -> nat, n: nat, i: nat)
    requires i < n <= |q|
    ensures Shuffled(q, rnd, n)[i] == q[DrawnFrom(rnd, |q|, i)]
  {
    if i == n - 1 {
      SittingHolds(q, rnd, i, Draw(rnd, |q|, i));
    } else {
      DrawnStays(q, rnd, n - 1, i);
    }
  }

  /** The last success of every known id. */
  function LastSuccesses(infos: map<int, Info>): map<int, int> {
    map id | id in infos :: infos[id].peer.nLastSuccess
  }

  ghost predicate AllKnown(q: seq<int>, lastSuccess: map<int, int>) {
    forall i :: 0 <= i < |q| ==> 0 <= q[i] && q[i] in lastSuccess
  }

  /** The last success of the entry that the `i`-th draw picks. */
  ghost function DrawnSuccess(q: seq<int>, lastSuccess: map<int, int>, rnd: nat -> nat, i: nat): int
    requires AllKnown(q, lastSuccess) && i < |q|
  {
    lastSuccess[q[DrawnFrom(rnd, |q|, i)]]
  }

  /** Of the first `n` draws, the first one that picks an entry of the least last success. */
  ghost function OldestDraw(q: seq<int>, lastSuccess: map<int, int>, rnd: nat -> nat, n: nat): (slot: nat)
    requires AllKnown(q, lastSuccess) && 0 < n <= |q|
    ensures slot < n
    ensures forall j: nat :: j < n ==>
      DrawnSuccess(q, lastSuccess, rnd, slot) <= DrawnSuccess(q, lastSuccess, rnd, j)
    ensures forall j: nat :: j < slot ==>
      DrawnSuccess(q, lastSuccess, rnd, slot) < DrawnSuccess(q, lastSuccess, rnd, j)
  {
    if n == 1 then 0
    else
      var slot := OldestDraw(q, lastSuccess, rnd, n - 1);
      if DrawnSuccess(q, lastSuccess, rnd, n - 1) < DrawnSuccess(q, lastSuccess, rnd, slot) then n - 1 else slot
  }

  /** What `SelectTried` returns: the slot that the least recent inspected entry was drawn from. */
  ghost function ChosenSlot(q: seq<int>, lastSuccess: map<int, int>, rnd: nat -> nat): (pos: nat)
    requires AllKnown(q, lastSuccess) && q != []
    ensures pos < |q|
  {
    Draw(rnd, |q|, OldestDraw(q, lastSuccess, rnd, Inspected(|q|)))
  }

  lemma ShuffledStep(q: seq<int>, rnd: nat -> nat, i: nat)
    requires i < |q|
    ensures Shuffled(q, rnd, 0) == q
    ensures Draw(rnd, |q|, i) == GetRandInt(rnd(i), |q| - i) + i
    ensures Shuffled(q, rnd, i + 1) == Exchanged(Shuffled(q, rnd, i), i, Draw(rnd, |q|, i))
    ensures Shuffled(q, rnd, i)[Draw(rnd, |q|, i)] == q[DrawnFrom(rnd, |q|, i)]
  {
    SittingHolds(q, rnd, i, Draw(rnd, |q|, i));
  }

  /** `nOldest` and `nOldestPos` after the first `i` draws. */
  ghost predicate OldestIs(q: seq<int>, lastSuccess: map<int, int>, rnd: nat -> nat, i: nat, id: int, pos: int)
    requires AllKnown(q, lastSuccess) && i <= |q|
  {
    if i == 0 then id == -1
    else
      var slot := OldestDraw(q, lastSuccess, rnd, i);
      id == q[DrawnFrom(rnd, |q|, slot)] && pos == Draw(rnd, |q|, slot)
  }

  /** The comparison that the loop makes after the `i`-th draw. */
  lemma OldestIsStep(q: seq<int>, lastSuccess: map<int, int>, rnd: nat -> nat, i: nat, id: int, pos: int, drawn: int)
    requires AllKnown(q, lastSuccess) && i < |q| && OldestIs(q, lastSuccess, rnd, i, id, pos)
    requires drawn == q[DrawnFrom(rnd, |q|, i)]
    ensures drawn in lastSuccess && (id == -1 || id in lastSuccess)
    ensures var older := id == -1 || lastSuccess[drawn] < lastSuccess[id];
      OldestIs(q, lastSuccess, rnd, i + 1, if older then drawn else id, if older then Draw(rnd, |q|, i) else pos)
  {
    hide Draw, DrawnFrom;
  }

  lemma OldestIsNone(q: seq<int>, lastSuccess: map<int, int>, rnd: nat -> nat)
    requires AllKnown(q, lastSuccess)
    ensures OldestIs(q, lastSuccess, rnd, 0, -1, -1)
  {
  }

  lemma OldestIsChosen(q: seq<int>, lastSuccess: map<int, int>, rnd: nat -> nat, id: int, pos: int)
    requires AllKnown(q, lastSuccess) && q != [] && OldestIs(q, lastSuccess, rnd, Inspected(|q|), id, pos)
    ensures pos == ChosenSlot(q, lastSuccess, rnd)
  {
  }

  /** The loop of `SelectTried`. */
  method ShuffleAndChoose(q: seq<int>, lastSuccess: map<int, int>, rnd: nat -> nat)
    returns (vTried: seq<int>, nOldestPos: int)
    requires q != [] && AllKnown(q, lastSuccess)
    ensures vTried == Shuffled(q, rnd, Inspected(|q|))
    ensures nOldestPos == ChosenSlot(q, lastSuccess, rnd)
  {
    hide AllKnown, Shuffled, Draw, DrawnFrom, OldestDraw, OldestIs, ChosenSlot;
    ShuffledStep(q, rnd, 0);
    vTried := q;
    var nOldest, i := -1, 0;
    nOldestPos := -1;
    assert OldestIs(q, lastSuccess, rnd, 0, -1, -1) by { OldestIsNone(q, lastSuccess, rnd); }
    while i < TRIED_ENTRIES_INSPECT_ON_EVICT && i < |vTried|
      invariant 0 <= i <= Inspected(|q|)
      invariant vTried == Shuffled(q, rnd, i)
      invariant OldestIs(q, lastSuccess, rnd, i, nOldest, nOldestPos)
    {
      var nPos := GetRandInt(rnd(i), |vTried| - i) + i;
      ShuffledStep(q, rnd, i);
      var nTemp := vTried[nPos];
      vTried := vTried[nPos := vTried[i]][i := nTemp];
      OldestIsStep(q, lastSuccess, rnd, i, nOldest, nOldestPos, nTemp);
      assert nOldest == -1 || nTemp in lastSuccess;
      if nOldest == -1 || lastSuccess[nTemp] < lastSuccess[nOldest] {
        nOldest, nOldestPos := nTemp, nPos;
      }
      i := i + 1;
    }
    OldestIsChosen(q, lastSuccess, rnd, nOldest, nOldestPos);
  }

  /** What the source's comment promises of the slot: no inspected entry was successful longer ago. */
  ghost predicate LeastRecent(q': seq<int>, lastSuccess: map<int, int>, pos: nat)
    requires AllKnown(q', lastSuccess) && pos < |q'|
  {
    forall j :: 0 <= j < Inspected(|q'|) ==> lastSuccess[q'[pos]] <= lastSuccess[q'[j]]
  }

  /** When the returned slot keeps that promise: the draw of the least recent entry left it in its own slot; or
      its slot was itself inspected later, and the entry drawn there ties with it; or its slot was not inspected,
      and the entry that an exchange moved there was not successful more recently. */
  ghost predicate PromiseKept(q: seq<int>, lastSuccess: map<int, int>, rnd: nat -> nat)
    requires AllKnown(q, lastSuccess) && q != []
  {
    var n := Inspected(|q|);
    var slot := OldestDraw(q, lastSuccess, rnd, n);
    var pos := Draw(rnd, |q|, slot);
    var oldest := DrawnSuccess(q, lastSuccess, rnd, slot);
    || GetRandInt(rnd(slot), |q| - slot) == 0
    || (pos < n && DrawnSuccess(q, lastSuccess, rnd, pos) == oldest)
    || (pos >= n && lastSuccess[q[Sitting(rnd, |q|, n, pos)]] <= oldest)
  }

  lemma ShuffledKnown(q: seq<int>, lastSuccess: map<int, int>, rnd: nat -> nat)
    requires AllKnown(q, lastSuccess)
    ensures AllKnown(Shuffled(q, rnd, Inspected(|q|)), lastSuccess)
  {
    var n := Inspected(|q|);
    forall i | 0 <= i < |q| ensures Shuffled(q, rnd, n)[i] in q {
      if i < n { DrawnStays(q, rnd, n, i); } else { SittingHolds(q, rnd, n, i); }
    }
  }

  /** `SelectTried` means to return the least recently tried of the inspected entries. It returns the slot that
      entry was drawn from, and by then the slot may hold another one. */
  lemma LeastRecentReturnedIff(q: seq<int>, lastSuccess: map<int, int>, rnd: nat -> nat)
    requires q != [] && AllKnown(q, lastSuccess)
    ensures AllKnown(Shuffled(q, rnd, Inspected(|q|)), lastSuccess)
    ensures LeastRecent(Shuffled(q, rnd, Inspected(|q|)), lastSuccess, ChosenSlot(q, lastSuccess, rnd))
            <==> PromiseKept(q, lastSuccess, rnd)
  {
    hide Shuffled, DrawnFrom, Sitting, OldestDraw;
    ShuffledKnown(q, lastSuccess, rnd);
    var n := Inspected(|q|);
    var q', slot := Shuffled(q, rnd, n), OldestDraw(q, lastSuccess, rnd, n);
    var pos := Draw(rnd, |q|, slot);
    forall j: nat | j < n ensures lastSuccess[q'[j]] == DrawnSuccess(q, lastSuccess, rnd, j) {
      DrawnStays(q, rnd, n, j);
    }
    if pos < n {
      assert lastSuccess[q'[slot]] <= lastSuccess[q'[pos]];
    } else {
      SittingHolds(q, rnd, n, pos);
    }
  }
}
