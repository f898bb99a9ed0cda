/** The main chain through the block index: the best block, the successor pointers, and what `SetBestChain`
    makes of them. */
module MainChain {
  import opened BlockTree

  /** `mapBlockIndex`, `pindexBest`, and `pnext` for the blocks where it is not null. */
  datatype Chain = Chain(tree: Tree, best: Hash, next: map<Hash, Hash>)

  /** What the disk and the database answer in `SetBestChain`: whether the first transaction succeeds, and how
      many of the postponed blocks connect after it. */
  datatype Writes = Writes(ok: bool, later: nat)

  ghost predicate Indexed(c: Chain) {
    Grown(c.tree) && c.best in c.tree
  }

  /** `IsInMainChain`. */
  predicate InMain(c: Chain, h: Hash) {
    h in c.next || h == c.best
  }

  /** A successor pointer leads to a child, and the child is the best block or before it. */
  ghost predicate PointersOk(c: Chain)
    requires Indexed(c)
  {
    forall a :: a in c.next ==>
      c.next[a] in c.tree && c.tree[c.next[a]].pprev == Some(a) && Descends(c.tree, c.next[a], c.best)
  }

  /** The blocks above `f` up to `d`, the lowest first. */
  ghost function Path(t: Tree, f: Hash, d: Hash): seq<Hash>
    requires Grown(t) && d in t && Descends(t, f, d)
    decreases t[d].nHeight
  {
    if d == f then [] else Path(t, f, t[d].pprev.hash) + [d]
  }

  ghost function Parents(t: Tree, q: seq<Hash>): set<Hash> {
    set x | x in q && x in t && t[x].pprev.Some? :: t[x].pprev.hash
  }

  /** Every block of the list has become its parent's successor. */
  ghost function Joined(t: Tree, next: map<Hash, Hash>, q: seq<Hash>): map<Hash, Hash> {
    if q == [] then next
    else
      var last, rest := q[|q| - 1], Joined(t, next, q[..|q| - 1]);
      if last in t && t[last].pprev.Some? then rest[t[last].pprev.hash := last] else rest
  }

  /** The lowest block on the way to `d` whose parent does not have more trust than the best block. */
  ghost function Intermediate(t: Tree, d: Hash, trust: nat): Hash
    requires Grown(t) && d in t
    decreases t[d].nHeight
  {
    if t[d].pprev.Some? && t[t[d].pprev.hash].bnChainTrust > trust then Intermediate(t, t[d].pprev.hash, trust)
    else d
  }

  /** Where two branches part, found by walking down whichever is higher. */
  ghost function Fork(t: Tree, a: Hash, b: Hash): Parent
    requires Grown(t) && a in t && b in t
    decreases t[a].nHeight + t[b].nHeight
  {
    if a == b then Some(a)
    else if t[b].nHeight > t[a].nHeight then Fork(t, a, t[b].pprev.hash)
    else if t[a].pprev == None then None
    else Fork(t, t[a].pprev.hash, b)
  }

  /** It is the highest common ancestor, if there is one. */
  lemma {:induction false} ForkIsHighest(t: Tree, a: Hash, b: Hash, x: Hash)
    requires Grown(t) && a in t && b in t
    ensures var f := Fork(t, a, b);
      if f.Some? then
        && f.hash in t && Descends(t, f.hash, a) && Descends(t, f.hash, b)
        && (Descends(t, x, a) && Descends(t, x, b) ==> Descends(t, x, f.hash))
      else !(Descends(t, x, a) && Descends(t, x, b))
    decreases t[a].nHeight + t[b].nHeight
  {
    if a == b {
    } else if t[b].nHeight > t[a].nHeight {
      ForkIsHighest(t, a, t[b].pprev.hash, x);
      NotBelow(t, b, a, x);
    } else if t[a].pprev.Some? {
      ForkIsHighest(t, t[a].pprev.hash, b, x);
      NotBelow(t, a, b, x);
    } else {
      NotBelow(t, a, b, x);
    }
  }

  /** A block as high as another one, or higher, is not before it. */
  lemma NotBelow(t: Tree, h: Hash, d: Hash, x: Hash)
    requires Grown(t) && h in t && d in t && h != d && t[h].nHeight >= t[d].nHeight
    ensures x == h ==> !Descends(t, x, d)
  {
    if x == h && Descends(t, x, d) {
      AncestorLower(t, x, d);
    }
  }

  lemma {:induction false} IntermediateOnWay(t: Tree, d: Hash, trust: nat)
    requires Grown(t) && d in t
    ensures var mid := Intermediate(t, d, trust);
      && mid in t && Descends(t, mid, d) && (mid != d ==> t[mid].bnChainTrust > trust)
      && (t[mid].pprev.Some? ==> t[t[mid].pprev.hash].bnChainTrust <= trust)
    decreases t[d].nHeight
  {
    if t[d].pprev.Some? && t[t[d].pprev.hash].bnChainTrust > trust {
      IntermediateOnWay(t, t[d].pprev.hash, trust);
      DescendsTwice(t, Intermediate(t, d, trust), t[d].pprev.hash, d);
    }
  }

  /** The way from `f` to `d` has the blocks between them. */
  lemma {:induction false} PathHas(t: Tree, f: Hash, d: Hash, x: Hash)
    requires Grown(t) && d in t && Descends(t, f, d)
    ensures x in Path(t, f, d) <==> x in t && Descends(t, x, d) && Descends(t, f, x) && x != f
    decreases t[d].nHeight
  {
    if d == f {
      if x in t && Descends(t, x, d) && Descends(t, f, x) {
        AncestorLower(t, x, d);
        AncestorLower(t, f, x);
      }
    } else {
      PathHas(t, f, t[d].pprev.hash, x);
    }
  }

  /** What `SetBestChain` does: on top of the best block it adds one pointer; otherwise the pointers above the
      fork are dropped, the new branch is joined up to the intermediate block, and then as far as it connects. */
  ghost function Switched(c: Chain, h: Hash, w: Writes): (r: (bool, Chain))
    requires Indexed(c) && h in c.tree
    ensures Indexed(r.1) && r.1.tree == c.tree
    ensures if r.0 then r.1.best == h else r.1 == c
  {
    if !w.ok then (false, c)
    else if c.tree[h].pprev == Some(c.best) then (true, Chain(c.tree, h, c.next[c.best := h]))
    else
      var mid := Intermediate(c.tree, h, c.tree[c.best].bnChainTrust);
      IntermediateOnWay(c.tree, h, c.tree[c.best].bnChainTrust);
      var fork := Fork(c.tree, c.best, mid);
      ForkIsHighest(c.tree, c.best, mid, mid);
      if fork == None then (false, c)
      else (true, Chain(c.tree, h, Rejoined(c.tree, c.next, c.best, fork.hash, mid, h, w.later)))
  }

  ghost function Rejoined(t: Tree, next: map<Hash, Hash>, best: Hash, fork: Hash, mid: Hash, h: Hash, later: nat)
    : map<Hash, Hash>
    requires Grown(t) && best in t && mid in t && h in t
    requires Descends(t, fork, best) && Descends(t, fork, mid) && Descends(t, mid, h)
  {
    Joined(t, Reorganized(t, next, best, fork, mid), Upto(Path(t, mid, h), later))
  }

  ghost function Reorganized(t: Tree, next: map<Hash, Hash>, best: Hash, fork: Hash, mid: Hash): map<Hash, Hash>
    requires Grown(t) && best in t && mid in t
    requires Descends(t, fork, best) && Descends(t, fork, mid)
  {
    Joined(t, next - Parents(t, Path(t, fork, best)), Path(t, fork, mid))
  }

  ghost function Upto(q: seq<Hash>, n: nat): (r: seq<Hash>)
    ensures forall x :: x in r ==> x in q
  {
    if n <= |q| then q[..n] else q
  }

  // ---- what it keeps ----

  lemma {:induction false} JoinedHas(t: Tree, next: map<Hash, Hash>, q: seq<Hash>, a: Hash)
    ensures a in next || a in Parents(t, q) <==> a in Joined(t, next, q)
    ensures a in Joined(t, next, q) ==>
      || (a in next && Joined(t, next, q)[a] == next[a])
      || (Joined(t, next, q)[a] in q && Joined(t, next, q)[a] in t && t[Joined(t, next, q)[a]].pprev == Some(a))
  {
    if q != [] {
      JoinedHas(t, next, q[..|q| - 1], a);
      assert q == q[..|q| - 1] + [q[|q| - 1]];
    }
  }

  /** A block in the main chain is the best block or before it. */
  lemma InMainDescends(c: Chain, h: Hash)
    requires Indexed(c) && PointersOk(c) && InMain(c, h)
    ensures h in c.tree && Descends(c.tree, h, c.best)
  {
    if h != c.best {
      DescendsTwice(c.tree, h, c.next[h], c.best);
    }
  }

  lemma ReorganizedPointers(t: Tree, next: map<Hash, Hash>, best: Hash, fork: Hash, mid: Hash, a: Hash)
    requires Indexed(Chain(t, best, next)) && PointersOk(Chain(t, best, next)) && mid in t && fork in t
    requires Descends(t, fork, best) && Descends(t, fork, mid)
    requires a in Reorganized(t, next, best, fork, mid)
    ensures var x := Reorganized(t, next, best, fork, mid)[a];
      x in t && t[x].pprev == Some(a) && Descends(t, x, mid)
  {
    var rest := next - Parents(t, Path(t, fork, best));
    JoinedHas(t, rest, Path(t, fork, mid), a);
    var x := Reorganized(t, next, best, fork, mid)[a];
    if x in Path(t, fork, mid) {
      PathHas(t, fork, mid, x);
    } else {
      PathHas(t, fork, best, x);
      if t[x].nHeight <= t[fork].nHeight {
        AncestorsInLine(t, x, fork, best);
        DescendsTwice(t, x, fork, mid);
      } else {
        AncestorsInLine(t, fork, x, best);
      }
    }
  }

  lemma RejoinedPointers(
      t: Tree, next: map<Hash, Hash>, best: Hash, fork: Hash, mid: Hash, h: Hash, later: nat, a: Hash)
    requires Indexed(Chain(t, best, next)) && PointersOk(Chain(t, best, next)) && mid in t && fork in t && h in t
    requires Descends(t, fork, best) && Descends(t, fork, mid) && Descends(t, mid, h)
    requires a in Rejoined(t, next, best, fork, mid, h, later)
    ensures var x := Rejoined(t, next, best, fork, mid, h, later)[a];
      x in t && t[x].pprev == Some(a) && Descends(t, x, h)
  {
    hide Reorganized, PointersOk;
    JoinedHas(t, Reorganized(t, next, best, fork, mid), Upto(Path(t, mid, h), later), a);
    var x := Rejoined(t, next, best, fork, mid, h, later)[a];
    var before := Reorganized(t, next, best, fork, mid);
    if a in before && x == before[a] {
      ReorganizedPointers(t, next, best, fork, mid, a);
      DescendsTwice(t, x, mid, h);
    } else {
      PathHas(t, mid, h, x);
    }
  }

  /** `SetBestChain` leaves only pointers along the chain that ends at its new best block. */
  lemma SwitchedKeepsPointers(c: Chain, h: Hash, w: Writes)
    requires Indexed(c) && PointersOk(c) && h in c.tree
    ensures PointersOk(Switched(c, h, w).1)
  {
    hide Rejoined, Fork, Intermediate;
    var (ok, d) := Switched(c, h, w);
    var t := c.tree;
    if ok && t[h].pprev == Some(c.best) {
      forall a | a in d.next
        ensures d.next[a] in t && t[d.next[a]].pprev == Some(a) && Descends(t, d.next[a], h)
      {
        if a != c.best { DescendsTwice(t, d.next[a], c.best, h); }
      }
    } else if ok {
      var mid := Intermediate(t, h, t[c.best].bnChainTrust);
      IntermediateOnWay(t, h, t[c.best].bnChainTrust);
      ForkIsHighest(t, c.best, mid, mid);
      var fork := Fork(t, c.best, mid).hash;
      forall a | a in d.next
        ensures d.next[a] in t && t[d.next[a]].pprev == Some(a) && Descends(t, d.next[a], h)
      {
        RejoinedPointers(t, c.next, c.best, fork, mid, h, w.later, a);
      }
    }
  }

  /** Where the new chain leaves the old one: a common ancestor of the two is at the fork or below it. */
  lemma CommonBelowFork(c: Chain, h: Hash, x: Hash)
    requires Indexed(c) && h in c.tree && x in c.tree && Descends(c.tree, x, c.best) && Descends(c.tree, x, h)
    ensures var mid := Intermediate(c.tree, h, c.tree[c.best].bnChainTrust);
      && mid in c.tree && Fork(c.tree, c.best, mid).Some? && Fork(c.tree, c.best, mid).hash in c.tree
      && Descends(c.tree, x, Fork(c.tree, c.best, mid).hash)
      && (Descends(c.tree, mid, c.best) ==> mid == h)
  {
    var t := c.tree;
    var mid := Intermediate(t, h, t[c.best].bnChainTrust);
    IntermediateOnWay(t, h, t[c.best].bnChainTrust);
    if Descends(t, mid, c.best) {
      AncestorTrust(t, mid, c.best);
    }
    if t[mid].nHeight <= t[x].nHeight {
      AncestorsInLine(t, mid, x, h);
      DescendsTwice(t, mid, x, c.best);
    } else {
      AncestorsInLine(t, x, mid, h);
    }
    ForkIsHighest(t, c.best, mid, x);
  }

  /** A block of the main chain from which the new best block descends stays in the main chain, by the code's own
      test; even if some of the postponed blocks fail to connect. */
  lemma SwitchedKeepsMain(c: Chain, h: Hash, w: Writes, x: Hash)
    requires Indexed(c) && PointersOk(c) && h in c.tree && InMain(c, x) && x in c.tree && Descends(c.tree, x, h)
    ensures InMain(Switched(c, h, w).1, x)
  {
    var (ok, d) := Switched(c, h, w);
    var t := c.tree;
    InMainDescends(c, x);
    if ok && t[h].pprev != Some(c.best) {
      var mid := Intermediate(t, h, t[c.best].bnChainTrust);
      IntermediateOnWay(t, h, t[c.best].bnChainTrust);
      ForkIsHighest(t, c.best, mid, mid);
      CommonBelowFork(c, h, x);
      var fork := Fork(t, c.best, mid).hash;
      JoinedHas(t, Reorganized(t, c.next, c.best, fork, mid), Upto(Path(t, mid, h), w.later), x);
      JoinedHas(t, c.next - Parents(t, Path(t, fork, c.best)), Path(t, fork, mid), x);
      if x == fork {
        if mid != fork { ForkJoined(t, fork, mid); }
      } else {
        BelowForkKept(t, x, fork, c.best);
      }
    }
  }

  /** The first block above the fork makes the fork a parent. */
  lemma {:induction false} ForkJoined(t: Tree, f: Hash, d: Hash)
    requires Grown(t) && d in t && Descends(t, f, d) && f != d
    ensures f in Parents(t, Path(t, f, d))
    decreases t[d].nHeight
  {
    if t[d].pprev.hash == f {
      assert d in Path(t, f, d);
    } else {
      ForkJoined(t, f, t[d].pprev.hash);
    }
  }

  /** No pointer of a block below the fork is dropped. */
  lemma BelowForkKept(t: Tree, x: Hash, f: Hash, best: Hash)
    requires Grown(t) && best in t && f in t && Descends(t, f, best) && Descends(t, x, f) && x != f
    ensures x != best && x !in Parents(t, Path(t, f, best))
  {
    AncestorLower(t, x, f);
    AncestorLower(t, f, best);
    forall y | y in Path(t, f, best) && y in t && t[y].pprev == Some(x) ensures false {
      PathHas(t, f, best, y);
      AncestorLower(t, f, y);
    }
  }

  ghost predicate Related(t: Tree, a: Hash, b: Hash)
    requires Grown(t) && a in t && b in t
  {
    exists x :: x in t && Descends(t, x, a) && Descends(t, x, b)
  }

  /** `SetBestChain` succeeds exactly when the writes do and the two branches have a common root. */
  lemma SwitchedSucceeds(c: Chain, h: Hash, w: Writes)
    requires Indexed(c) && h in c.tree
    ensures Switched(c, h, w).0 <==> w.ok && Related(c.tree, c.best, h)
  {
    hide Rejoined;
    var t := c.tree;
    if t[h].pprev == Some(c.best) {
      assert Descends(t, c.best, h);
    } else {
      var mid := Intermediate(t, h, t[c.best].bnChainTrust);
      IntermediateOnWay(t, h, t[c.best].bnChainTrust);
      ForkIsHighest(t, c.best, mid, mid);
      if Related(t, c.best, h) {
        var x :| x in t && Descends(t, x, c.best) && Descends(t, x, h);
        CommonBelowFork(c, h, x);
      }
      if Fork(t, c.best, mid).Some? {
        DescendsTwice(t, Fork(t, c.best, mid).hash, mid, h);
      }
    }
  }

  // ---- what it does not keep ----

  /** What is documented of the successor pointer: it is null exactly off the branch of the best block
      (and at the best block itself). */
  ghost predicate PointersComplete(c: Chain)
    requires Indexed(c)
  {
    forall a :: a in c.next <==> a in c.tree && Descends(c.tree, a, c.best) && a != c.best
  }

  /** The blocks that a way makes parents are those from its foot to just before its end. */
  lemma {:induction false} ParentsOnPath(t: Tree, f: Hash, d: Hash, a: Hash)
    requires Grown(t) && d in t && Descends(t, f, d)
    ensures a in Parents(t, Path(t, f, d)) <==> a in t && Descends(t, a, d) && Descends(t, f, a) && a != d
    decreases t[d].nHeight
  {
    if d == f {
      if a in t && Descends(t, a, d) && Descends(t, f, a) {
        AncestorLower(t, a, d);
        AncestorLower(t, f, a);
      }
    } else {
      var p := t[d].pprev.hash;
      ParentsOnPath(t, f, p, a);
      if a in t && Descends(t, d, a) && Descends(t, a, p) {
        AncestorLower(t, d, a);
        AncestorLower(t, a, p);
      }
      if a == p { assert d in Path(t, f, d); }
      assert forall x :: x in Path(t, f, d) <==> x in Path(t, f, p) || x == d;
    }
  }

  /** The block that the postponed connections reach. */
  ghost function Reached(t: Tree, mid: Hash, h: Hash, later: nat): (y: Hash)
    requires Grown(t) && h in t && Descends(t, mid, h)
    decreases t[h].nHeight
  {
    if later >= |Path(t, mid, h)| then h else Reached(t, mid, t[h].pprev.hash, later)
  }

  lemma {:induction false} ReachedOnWay(t: Tree, mid: Hash, h: Hash, later: nat)
    requires Grown(t) && h in t && Descends(t, mid, h)
    ensures var y := Reached(t, mid, h, later);
      && y in t && Descends(t, mid, y) && Descends(t, y, h) && Upto(Path(t, mid, h), later) == Path(t, mid, y)
      && (y == h <==> later >= |Path(t, mid, h)|)
    decreases t[h].nHeight
  {
    if later < |Path(t, mid, h)| {
      var p := t[h].pprev.hash;
      ReachedOnWay(t, mid, p, later);
      DescendsTwice(t, Reached(t, mid, h, later), p, h);
      AncestorLower(t, Reached(t, mid, h, later), p);
      assert Upto(Path(t, mid, h), later) == Upto(Path(t, mid, p), later);
    }
  }

  /** The pointers end where the postponed connections end. */
  lemma RejoinedReaches(t: Tree, next: map<Hash, Hash>, best: Hash, fork: Hash, mid: Hash, h: Hash, later: nat, a: Hash)
    requires Indexed(Chain(t, best, next)) && PointersComplete(Chain(t, best, next)) && mid in t && fork in t && h in t
    requires Descends(t, fork, best) && Descends(t, fork, mid) && Descends(t, mid, h)
    ensures var y := Reached(t, mid, h, later);
      && y in t
      && (a in Rejoined(t, next, best, fork, mid, h, later) <==> a in t && Descends(t, a, y) && a != y)
  {
    var y := Reached(t, mid, h, later);
    ReachedOnWay(t, mid, h, later);
    JoinedHas(t, Reorganized(t, next, best, fork, mid), Path(t, mid, y), a);
    JoinedHas(t, next - Parents(t, Path(t, fork, best)), Path(t, fork, mid), a);
    ParentsOnPath(t, fork, best, a);
    ParentsOnPath(t, fork, mid, a);
    ParentsOnPath(t, mid, y, a);
    hide Reorganized, Path, Parents, Joined, Rejoined, Reached;
    DescendsTwice(t, fork, mid, y);
    if a in t {
      BeforeOrAbove(t, a, fork, mid, y);
      BeforeOrAbove(t, a, fork, fork, best);
    }
  }

  /** A block of a branch is below the fork, from there to the middle, or from there to the end. */
  lemma BeforeOrAbove(t: Tree, a: Hash, f: Hash, m: Hash, d: Hash)
    requires Grown(t) && a in t && f in t && m in t && d in t && Descends(t, f, m) && Descends(t, m, d)
    ensures Descends(t, a, f) ==> Descends(t, a, m)
    ensures Descends(t, a, m) ==> Descends(t, a, d)
    ensures Descends(t, a, d) ==> Descends(t, a, m) || Descends(t, m, a)
    ensures Descends(t, a, m) ==> Descends(t, a, f) || Descends(t, f, a)
    ensures Descends(t, a, m) && a != m ==> a != d
    ensures Descends(t, a, f) && Descends(t, f, a) ==> a == f
  {
    if Descends(t, a, f) {
      DescendsTwice(t, a, f, m);
      AncestorLower(t, a, f);
      if Descends(t, f, a) { AncestorLower(t, f, a); }
    }
    if Descends(t, a, m) {
      DescendsTwice(t, a, m, d);
      AncestorLower(t, a, m);
      AncestorLower(t, m, d);
      InLine(t, a, f, m);
    }
    if Descends(t, a, d) { InLine(t, a, m, d); }
  }

  lemma InLine(t: Tree, a: Hash, b: Hash, d: Hash)
    requires Grown(t) && a in t && b in t && d in t && Descends(t, a, d) && Descends(t, b, d)
    ensures Descends(t, a, b) || Descends(t, b, a)
  {
    if t[a].nHeight <= t[b].nHeight { AncestorsInLine(t, a, b, d); } else { AncestorsInLine(t, b, a, d); }
  }

  /** The blocks whose connection `SetBestChain` postpones. */
  ghost function Postponed(c: Chain, h: Hash): seq<Hash>
    requires Indexed(c) && h in c.tree
  {
    IntermediateOnWay(c.tree, h, c.tree[c.best].bnChainTrust);
    Path(c.tree, Intermediate(c.tree, h, c.tree[c.best].bnChainTrust), h)
  }

  /** The documented shape of the pointers survives `SetBestChain` exactly when no postponed block fails to
      connect: the best block is moved all the same. */
  lemma SwitchedCompleteIff(c: Chain, h: Hash, w: Writes)
    requires Indexed(c) && PointersComplete(c) && h in c.tree && Switched(c, h, w).0
    ensures PointersComplete(Switched(c, h, w).1) <==>
            c.tree[h].pprev == Some(c.best) || w.later >= |Postponed(c, h)|
  {
    var d := Switched(c, h, w).1;
    var t := c.tree;
    if t[h].pprev == Some(c.best) {
      forall a ensures a in d.next <==> a in t && Descends(t, a, h) && a != h {
        if a in t && Descends(t, a, c.best) { AncestorLower(t, a, c.best); }
      }
    } else {
      var mid := Intermediate(t, h, t[c.best].bnChainTrust);
      IntermediateOnWay(t, h, t[c.best].bnChainTrust);
      ForkIsHighest(t, c.best, mid, mid);
      var fork := Fork(t, c.best, mid).hash;
      var y := Reached(t, mid, h, w.later);
      ReachedOnWay(t, mid, h, w.later);
      hide Intermediate, Fork, Rejoined, Reached, Path;
      forall a ensures a in d.next <==> a in t && Descends(t, a, y) && a != y {
        RejoinedReaches(t, c.next, c.best, fork, mid, h, w.later, a);
      }
      assert y !in d.next;
    }
  }

  /** Two branches above block 1: block 2 with trust 10, and the blocks 3, 4 and 5 with trust 6, 12 and 13. */
  ghost predicate Branches(t: Tree) {
    && Grown(t)
    && 1 in t && t[1] == Index(None, 0, 0)
    && 2 in t && t[2] == Index(Some(1), 1, 10)
    && 3 in t && t[3] == Index(Some(1), 1, 6)
    && 4 in t && t[4] == Index(Some(3), 2, 12)
    && 5 in t && t[5] == Index(Some(4), 3, 13)
  }

  lemma BranchesExist() returns (t: Tree)
    ensures Branches(t)
  {
    hide Descends, Grown;
    t := map[1 := Index(None, 0, 0)];
    assert Grown(t) by { OneBlockGrown(t); }
    AttachedGrows(t, 2, 1, 10);
    t := Attached(t, 2, 1, 10);
    AttachedGrows(t, 3, 1, 6);
    t := Attached(t, 3, 1, 6);
    AttachedGrows(t, 4, 3, 6);
    t := Attached(t, 4, 3, 6);
    AttachedGrows(t, 5, 4, 1);
    t := Attached(t, 5, 4, 1);
  }

  lemma OneBlockGrown(t: Tree)
    requires t == map[1 := Index(None, 0, 0)]
    ensures Grown(t)
  {
  }

  lemma OnBranches(t: Tree)
    requires Branches(t)
    ensures forall a :: Descends(t, a, 2) <==> a == 1 || a == 2
    ensures Descends(t, 1, 5) && Descends(t, 4, 5)
    ensures Intermediate(t, 5, 10) == 4 && Path(t, 4, 5) == [5]
  {
    hide Grown;
    assert Descends(t, 1, 3);
    assert Descends(t, 1, 4);
    assert Intermediate(t, 4, 10) == 4;
    assert Path(t, 4, 4) == [];
  }

  /** Block 5 becomes the best block, its connection being postponed, and it fails to connect: block 4 comes before
      the best block and has no successor. */
  lemma PostponedLost() returns (c: Chain, h: Hash, w: Writes)
    ensures Indexed(c) && PointersOk(c) && PointersComplete(c) && h in c.tree && Switched(c, h, w).0
    ensures !PointersComplete(Switched(c, h, w).1)
  {
    var t := BranchesExist();
    OnBranches(t);
    hide Grown, Descends, Intermediate, Path, Switched;
    c, h, w := Chain(t, 2, map[1 := 2]), 5, Writes(true, 0);
    SwitchedSucceeds(c, h, w);
    SwitchedCompleteIff(c, h, w);
  }
}
