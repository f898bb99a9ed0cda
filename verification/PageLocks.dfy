/** `LockedPageManagerBase`: a lock count per memory page. */
module PageLocks {
  import opened Division
  import opened Masks
  import opened Numerals

  /** `size_t` has 64 bits. */
  const WORD: nat := 0x1_0000_0000_0000_0000

  lemma Pow16()
    ensures Pow(2, 16) == 0x1_0000
  {
    assert Pow(2, 8) == 0x100;
  }

  lemma WordPower()
    ensures Pow(2, 64) == WORD
  {
    Pow16();
    hide Pow;
    PowSum(2, 16, 16);
    PowSum(2, 32, 32);
  }

  function Not(x: nat): nat
    requires x < WORD
  {
    WORD - 1 - x
  }

  datatype Range = Range(base: nat, size: nat)

  /** A range that is locked and not yet unlocked keeps every page that it overlaps. */
  predicate Overlaps(r: Range, page: nat, pageSize: nat) {
    r.size > 0 && page < r.base + r.size && r.base < page + pageSize
  }

  function Count(live: seq<Range>, page: nat, pageSize: nat): nat {
    if live == [] then 0
    else Count(live[1..], page, pageSize) + if Overlaps(live[0], page, pageSize) then 1 else 0
  }

  /** The live ranges after one unlock of `r`. */
  function Without(live: seq<Range>, r: Range): (rest: seq<Range>)
    requires r in live
    ensures multiset(rest) == multiset(live) - multiset{r}
  {
    assert live == [live[0]] + live[1..];
    if live[0] == r then live[1..] else [live[0]] + Without(live[1..], r)
  }

  lemma {:induction false} CountRemoved(live: seq<Range>, r: Range, page: nat, pageSize: nat)
    requires r in live
    ensures Count(live, page, pageSize)
         == Count(Without(live, r), page, pageSize) + if Overlaps(r, page, pageSize) then 1 else 0
  {
    hide Overlaps;
    if live[0] != r {
      CountRemoved(live[1..], r, page, pageSize);
      assert Without(live, r)[1..] == Without(live[1..], r);
    }
  }

  /** The start of the page of an address. */
  function PageOf(a: nat, pageSize: nat): nat
    requires pageSize > 0
  {
    a - a % pageSize
  }

  lemma PageOfIs(a: nat, pageSize: nat)
    requires pageSize > 0
    ensures PageOf(a, pageSize) == a / pageSize * pageSize && PageOf(a, pageSize) <= a < PageOf(a, pageSize) + pageSize
  {
    Recomposed(a, pageSize);
  }

  /** The mask `~(page_size - 1)` rounds down to the page. */
  lemma MaskIsPage(a: nat, pageSize: nat)
    requires a < WORD && 0 < pageSize < WORD && And(pageSize, pageSize - 1) == 0
    ensures And(a, Not(pageSize - 1)) == PageOf(a, pageSize)
    ensures WORD % pageSize == 0
  {
    hide Pow, And;
    var k := PowerOfTwo(pageSize);
    WordPower();
    if k > 64 {
      PowGrows(2, 64, k);
    }
    Masked(a, k, 64);
    BelowModulus(WORD, a);
    PowSum(2, 64 - k, k);
    Divided(pageSize, WORD, Pow(2, 64 - k), 0);
  }

  /** The pages from the first to the last of a range are the aligned ones that it overlaps. */
  lemma RangePages(r: Range, page: nat, pageSize: nat)
    requires pageSize > 0 && r.size > 0 && page % pageSize == 0
    ensures PageOf(r.base, pageSize) <= page <= PageOf(r.base + r.size - 1, pageSize) <==> Overlaps(r, page, pageSize)
  {
    PageOfIs(r.base, pageSize);
    PageOfIs(r.base + r.size - 1, pageSize);
    Recomposed(page, pageSize);
    var i := page / pageSize;
    Between(r.base / pageSize, i, pageSize);
    Between(i, (r.base + r.size - 1) / pageSize, pageSize);
  }

  lemma Between(a: nat, b: nat, p: nat)
    requires p > 0
    ensures a <= b <==> a * p <= b * p
    ensures a < b ==> a * p + p <= b * p
    ensures b < a ==> b * p + p <= a * p
  {
    assert (b - a) * p == b * p - a * p;
    Product(b - a, p);
  }

  /** Stepping from page to page passes over no aligned address. */
  lemma NextPage(page: nat, q: nat, pageSize: nat)
    requires pageSize > 0 && page % pageSize == 0 && q % pageSize == 0
    ensures (page + pageSize) % pageSize == 0
    ensures q < page + pageSize <==> q <= page
  {
    Recomposed(page, pageSize);
    Recomposed(q, pageSize);
    var i, j := page / pageSize, q / pageSize;
    assert (i + 1) * pageSize == i * pageSize + pageSize;
    Divided(pageSize, page + pageSize, i + 1, 0);
    Between(i, j, pageSize);
    Between(j, i, pageSize);
  }

  lemma PageAligned(a: nat, pageSize: nat)
    requires pageSize > 0
    ensures PageOf(a, pageSize) % pageSize == 0
  {
    PageOfIs(a, pageSize);
    Divided(pageSize, PageOf(a, pageSize), a / pageSize, 0);
  }

  // ---- where the loop over a range ends ----

  predicate BelowLastPage(r: Range, pageSize: nat) { r.base + r.size + pageSize <= WORD }

  /** The address that the loop tests after `k` steps. */
  function Tested(r: Range, pageSize: nat, k: nat): nat
    requires pageSize > 0
  {
    (PageOf(r.base, pageSize) + k * pageSize) % WORD
  }

  lemma MultipleAligned(p: nat, k: nat)
    requires p > 0
    ensures k * p % p == 0
  {
    Divided(p, k * p, k, 0);
  }

  /** Wrapping around keeps addresses aligned. */
  lemma TestedAligned(r: Range, pageSize: nat, k: nat)
    requires pageSize > 0 && WORD % pageSize == 0
    ensures Tested(r, pageSize, k) < WORD && Tested(r, pageSize, k) % pageSize == 0
  {
    PageOfIs(r.base, pageSize);
    Recomposed(WORD, pageSize);
    var pages, c := r.base / pageSize + k, WORD / pageSize;
    var q, rest := (pages * pageSize) / WORD, (pages * pageSize) % WORD;
    assert PageOf(r.base, pageSize) + k * pageSize == pages * pageSize;
    Recomposed(pages * pageSize, WORD);
    assert rest == (pages - q * c) * pageSize by { Regrouped(q, c, pageSize); }
    if pages < q * c { Product(pages - q * c, pageSize); }
    MultipleAligned(pageSize, pages - q * c);
  }

  lemma Regrouped(q: nat, c: nat, p: nat)
    ensures q * (c * p) == q * c * p
  {
  }

  /** Behind the last page of a range below the last page of the address space. */
  lemma LoopEnds(r: Range, pageSize: nat) returns (k: nat)
    requires 0 < pageSize && WORD % pageSize == 0 && r.size > 0 && BelowLastPage(r, pageSize)
    ensures Tested(r, pageSize, k) > PageOf(r.base + r.size - 1, pageSize)
  {
    var last := r.base + r.size - 1;
    var i, j := r.base / pageSize, last / pageSize;
    EndOnWord(last, pageSize);
    PageOfIs(r.base, pageSize);
    PageOfIs(last, pageSize);
    hide PageOf;
    Between(i, j, pageSize);
    Between(j, i, pageSize);
    k := j - i + 1;
    PagesApart(i, j, pageSize);
    BelowModulus(WORD, PageOf(last, pageSize) + pageSize);
  }

  lemma PagesApart(i: nat, j: nat, p: nat)
    ensures i * p + (j - i + 1) * p == j * p + p
  {
  }

  /** The last page of the address space: no aligned address is above it. */
  lemma LoopGoesOn(r: Range, pageSize: nat, k: nat)
    requires 0 < pageSize < WORD && WORD % pageSize == 0
    requires r.size > 0 && r.base + r.size <= WORD && !BelowLastPage(r, pageSize)
    ensures Tested(r, pageSize, k) <= PageOf(r.base + r.size - 1, pageSize)
  {
    var last := r.base + r.size - 1;
    TestedAligned(r, pageSize, k);
    PageOfIs(last, pageSize);
    PageAligned(last, pageSize);
    LastPageAligned(pageSize);
    hide PageOf, Tested;
    AlignedBelow(Tested(r, pageSize, k), WORD - pageSize, pageSize);
    AlignedBelow(WORD - pageSize, PageOf(last, pageSize), pageSize);
  }

  lemma LastPageAligned(pageSize: nat)
    requires 0 < pageSize < WORD && WORD % pageSize == 0
    ensures (WORD - pageSize) % pageSize == 0
  {
    var n := WORD / pageSize;
    Recomposed(WORD, pageSize);
    assert (n - 1) * pageSize == n * pageSize - pageSize;
    Divided(pageSize, WORD - pageSize, n - 1, 0);
  }

  /** The loop over a range ends exactly when the range lies below the last page of the address space: there, the
      address that it tests wraps around to zero. */
  lemma LoopEndsIff(r: Range, pageSize: nat)
    requires 0 < pageSize < WORD && And(pageSize, pageSize - 1) == 0
    requires r.size > 0 && r.base + r.size <= WORD
    ensures (exists k: nat :: Tested(r, pageSize, k) > PageOf(r.base + r.size - 1, pageSize))
            <==> BelowLastPage(r, pageSize)
  {
    hide And, PageOf, Tested;
    MaskIsPage(0, pageSize);
    if BelowLastPage(r, pageSize) {
      var _ := LoopEnds(r, pageSize);
    } else {
      forall k: nat ensures Tested(r, pageSize, k) <= PageOf(r.base + r.size - 1, pageSize) {
        LoopGoesOn(r, pageSize, k);
      }
    }
  }

  /** An aligned address less than a page above another one is not above it. */
  lemma AlignedBelow(a: nat, b: nat, p: nat)
    requires p > 0 && a % p == 0 && b % p == 0 && a < b + p
    ensures a <= b
  {
    NextPage(b, a, p);
  }

  lemma EndOnWord(last: nat, pageSize: nat)
    requires 0 < pageSize < WORD && WORD % pageSize == 0 && last + 1 + pageSize <= WORD
    ensures PageOf(last, pageSize) + pageSize < WORD
  {
    PageOfIs(last, pageSize);
  }

  class LockedPageManager {
    const pageSize: nat
    const pageMask: nat
    var histogram: map<nat, nat>
    /** The pages on which the last call to the operating system was a lock. */
    var locked: set<nat>
    /** The ranges that have been locked more often than unlocked. */
    ghost var live: seq<Range>

    function Held(page: nat): nat
      reads this
    {
      if page in histogram then histogram[page] else 0
    }

    ghost predicate Shape()
      reads this
    {
      && 0 < pageSize < WORD && And(pageSize, pageSize - 1) == 0 && pageMask == Not(pageSize - 1)
      && locked == histogram.Keys
      && (forall page :: page in histogram ==> page % pageSize == 0 && histogram[page] > 0)
    }

    /** The loop over the range ends (`LoopEndsIff`): the range lies below the last page of the address space. */
    predicate Fits(r: Range) { r.size == 0 || BelowLastPage(r, pageSize) }

    /** The count of every page is the number of live ranges on it, and the page is locked if the count is positive. */
    ghost predicate Valid()
      reads this
    {
      && Shape()
      && (forall page: nat :: page % pageSize == 0 ==> Held(page) == Count(live, page, pageSize))
    }

    /** The constructor's assertion: the page size is a power of two. */
    constructor (pageSize: nat)
      requires 0 < pageSize < WORD && And(pageSize, pageSize - 1) == 0
      ensures Valid() && live == [] && this.pageSize == pageSize
    {
      this.pageSize := pageSize;
      pageMask := Not(pageSize - 1);
      histogram, locked, live := map[], {}, [];
    }

    /** Part of a range has been counted: the pages below `page`. */
    ghost predicate Counted(r: Range, page: nat, sign: int)
      requires pageSize > 0
      reads this
    {
      forall q: nat :: q % pageSize == 0 ==>
        Held(q) == Count(live, q, pageSize) + if Overlaps(r, q, pageSize) && q < page then sign else 0
    }

    /** What `LockRange` does with one page. */
    method LockPage(page: nat)
      requires Shape() && page % pageSize == 0
      modifies this`locked, this`histogram
      ensures Shape() && Held(page) == old(Held(page)) + 1
      ensures forall q: nat :: q != page ==> Held(q) == old(Held(q))
    {
      if page !in histogram {
        locked := locked + {page};
        histogram := histogram[page := 1];
      } else {
        histogram := histogram[page := histogram[page] + 1];
      }
    }

    /** What `UnlockRange` does with one page. */
    method UnlockPage(page: nat)
      requires Shape() && page in histogram
      modifies this`locked, this`histogram
      ensures Shape() && Held(page) == old(Held(page)) - 1
      ensures forall q: nat :: q != page ==> Held(q) == old(Held(q))
    {
      histogram := histogram[page := histogram[page] - 1];
      if histogram[page] == 0 {
        locked := locked - {page};
        histogram := histogram - {page};
      }
    }

    /** Lock each page of a range once more. */
    method LockRange(baseAddr: nat, size: nat)
      requires Valid() && Fits(Range(baseAddr, size))
      modifies this
      ensures Valid() && live == if size > 0 then [Range(baseAddr, size)] + old(live) else old(live)
    {
      hide And, Overlaps, Count, PageOf;
      if size == 0 {
        return;
      }
      ghost var r := Range(baseAddr, size);
      var startPage := And(baseAddr, pageMask);
      var endPage := And((baseAddr + size - 1) % WORD, pageMask);
      Ends(r);
      var page := startPage;
      while page <= endPage
        invariant Shape() && live == old(live)
        invariant page % pageSize == 0 && startPage <= page
        invariant Counted(r, page, 1)
        decreases endPage + pageSize - page
      {
        RangePages(r, page, pageSize);
        LockPage(page);
        BelowModulus(WORD, page + pageSize);
        forall q: nat | q % pageSize == 0 ensures q < page + pageSize <==> q <= page {
          NextPage(page, q, pageSize);
        }
        NextPage(page, page, pageSize);
        page := (page + pageSize) % WORD;
      }
      live := [r] + live;
      forall q: nat | q % pageSize == 0 ensures Held(q) == Count(live, q, pageSize) {
        RangePages(r, q, pageSize);
        CountAdded(old(live), r, q, pageSize);
      }
    }

    /** Undo one lock of a range. The code's assertion that each page is counted holds. */
    method UnlockRange(baseAddr: nat, size: nat)
      requires Valid() && Fits(Range(baseAddr, size))
      requires size > 0 ==> Range(baseAddr, size) in live
      modifies this
      ensures Valid() && live == if size > 0 then Without(old(live), Range(baseAddr, size)) else old(live)
    {
      hide And, Overlaps, Count, PageOf, Without;
      if size == 0 {
        return;
      }
      ghost var r := Range(baseAddr, size);
      var startPage := And(baseAddr, pageMask);
      var endPage := And((baseAddr + size - 1) % WORD, pageMask);
      Ends(r);
      var page := startPage;
      while page <= endPage
        invariant Shape() && live == old(live)
        invariant page % pageSize == 0 && startPage <= page
        invariant Counted(r, page, -1)
        decreases endPage + pageSize - page
      {
        RangePages(r, page, pageSize);
        CountRemoved(live, r, page, pageSize);
        assert Held(page) > 0;
        assert page in histogram;
        UnlockPage(page);
        BelowModulus(WORD, page + pageSize);
        forall q: nat | q % pageSize == 0 ensures q < page + pageSize <==> q <= page {
          NextPage(page, q, pageSize);
        }
        NextPage(page, page, pageSize);
        page := (page + pageSize) % WORD;
      }
      live := Without(live, r);
      forall q: nat | q % pageSize == 0 ensures Held(q) == Count(live, q, pageSize) {
        RangePages(r, q, pageSize);
        CountRemoved(old(live), r, q, pageSize);
      }
    }

    /** The number of locked pages. */
    method GetLockedPageCount() returns (n: nat)
      requires Valid()
      ensures n == |locked|
    {
      n := |histogram|;
    }

    /** The operating system's lock is held exactly on the pages that a live range overlaps, and on none when every
        range has been unlocked. */
    lemma LockedExactly()
      requires Valid()
      ensures forall page: nat :: page in locked <==> page % pageSize == 0 && Count(live, page, pageSize) > 0
      ensures live == [] ==> locked == {}
    {
      forall page: nat ensures page in locked <==> page % pageSize == 0 && Count(live, page, pageSize) > 0 {
        if page % pageSize == 0 {
          assert Held(page) == Count(live, page, pageSize);
        }
      }
    }

    /** First and last page of a range. */
    lemma Ends(r: Range)
      requires Shape() && r.size > 0 && BelowLastPage(r, pageSize)
      ensures And(r.base, pageMask) == PageOf(r.base, pageSize)
      ensures And((r.base + r.size - 1) % WORD, pageMask) == PageOf(r.base + r.size - 1, pageSize)
      ensures PageOf(r.base, pageSize) % pageSize == 0
      ensures PageOf(r.base + r.size - 1, pageSize) + pageSize < WORD
      ensures forall q: nat :: q % pageSize == 0 && Overlaps(r, q, pageSize) ==> PageOf(r.base, pageSize) <= q
    {
      hide And, PageOf, Overlaps;
      BelowModulus(WORD, r.base + r.size - 1);
      MaskIsPage(r.base, pageSize);
      MaskIsPage(r.base + r.size - 1, pageSize);
      PageAligned(r.base, pageSize);
      PageOfIs(r.base + r.size - 1, pageSize);
      forall q: nat | q % pageSize == 0 && Overlaps(r, q, pageSize) ensures PageOf(r.base, pageSize) <= q {
        RangePages(r, q, pageSize);
      }
    }
  }

  lemma CountAdded(live: seq<Range>, r: Range, page: nat, pageSize: nat)
    ensures Count([r] + live, page, pageSize) == Count(live, page, pageSize) + if Overlaps(r, page,
        pageSize) then 1 else 0
  {
    assert ([r] + live)[1..] == live;
  }
}
