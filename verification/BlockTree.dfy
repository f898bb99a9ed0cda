/** The index of known blocks: a tree that only grows, and descent in it. */
module BlockTree {

  /** A block hash; 0 stands for no block. */
  type Hash = nat

  datatype Parent = None | Some(hash: Hash)

  /** `CBlockIndex`: the parent pointer, the height and the trust of the chain that ends here. */
  datatype Index = Index(pprev: Parent, nHeight: nat, bnChainTrust: nat)

  /** `mapBlockIndex`. */
  type Tree = map<Hash, Index>

  /** Parents are known, a block is one higher than its parent, and trust does not shrink along a chain. */
  ghost predicate Grown(t: Tree) {
    && 0 !in t
    && forall h :: h in t ==>
      match t[h].pprev
      case None => t[h].nHeight == 0
      case Some(p) => p in t && t[h].nHeight == t[p].nHeight + 1 && t[p].bnChainTrust <= t[h].bnChainTrust
  }

  /** `a` is `d` or one of the blocks before it. */
  ghost predicate Descends(t: Tree, a: Hash, d: Hash)
    requires Grown(t) && d in t
    decreases t[d].nHeight
  {
    a == d || (t[d].pprev.Some? && Descends(t, a, t[d].pprev.hash))
  }

  ghost predicate Comparable(t: Tree, a: Hash, b: Hash)
    requires Grown(t) && a in t && b in t
  {
    Descends(t, a, b) || Descends(t, b, a)
  }

  lemma {:induction false} AncestorLower(t: Tree, a: Hash, d: Hash)
    requires Grown(t) && d in t && Descends(t, a, d)
    ensures a in t && t[a].nHeight <= t[d].nHeight
    ensures t[a].nHeight == t[d].nHeight ==> a == d
    decreases t[d].nHeight
  {
    if a != d {
      AncestorLower(t, a, t[d].pprev.hash);
    }
  }

  lemma {:induction false} AncestorTrust(t: Tree, a: Hash, d: Hash)
    requires Grown(t) && d in t && Descends(t, a, d)
    ensures a in t && t[a].bnChainTrust <= t[d].bnChainTrust
    decreases t[d].nHeight
  {
    if a != d {
      AncestorTrust(t, a, t[d].pprev.hash);
    }
  }

  lemma {:induction false} DescendsTwice(t: Tree, a: Hash, b: Hash, c: Hash)
    requires Grown(t) && b in t && c in t && Descends(t, a, b) && Descends(t, b, c)
    ensures Descends(t, a, c)
    decreases t[c].nHeight
  {
    if b != c {
      DescendsTwice(t, a, b, t[c].pprev.hash);
    }
  }

  /** The blocks before a block form one line. */
  lemma {:induction false} AncestorsInLine(t: Tree, a: Hash, b: Hash, d: Hash)
    requires Grown(t) && d in t && Descends(t, a, d) && Descends(t, b, d)
    requires a in t && b in t && t[a].nHeight <= t[b].nHeight
    ensures Descends(t, a, b)
    decreases t[d].nHeight
  {
    if b != d {
      if a == d {
        AncestorLower(t, b, d);
      } else {
        AncestorsInLine(t, a, b, t[d].pprev.hash);
      }
    }
  }

  /** There is one ancestor at each height. */
  lemma OneAtEachHeight(t: Tree, a: Hash, b: Hash, d: Hash)
    requires Grown(t) && d in t && Descends(t, a, d) && Descends(t, b, d)
    requires a in t && b in t && t[a].nHeight == t[b].nHeight
    ensures a == b
  {
    AncestorsInLine(t, a, b, d);
    AncestorLower(t, a, b);
  }

  /** `u` has every block of `t`, where it was. */
  ghost predicate Extends(u: Tree, t: Tree) {
    forall h :: h in t ==> h in u && u[h] == t[h]
  }

  /** A block of some trust arrives on a known parent. */
  function Attached(t: Tree, hash: Hash, prev: Hash, trust: nat): (u: Tree)
    requires prev in t
  {
    t[hash := Index(Some(prev), t[prev].nHeight + 1, t[prev].bnChainTrust + trust)]
  }

  lemma AttachedHas(t: Tree, hash: Hash, prev: Hash, trust: nat)
    requires prev in t
    ensures hash in Attached(t, hash, prev, trust)
    ensures forall h :: h in Attached(t, hash, prev, trust) && h !in t ==> h == hash
  {
  }

  lemma AttachedGrows(t: Tree, hash: Hash, prev: Hash, trust: nat)
    requires Grown(t) && prev in t && hash !in t && hash != 0
    ensures Grown(Attached(t, hash, prev, trust)) && Extends(Attached(t, hash, prev, trust), t)
    ensures forall a :: Descends(Attached(t, hash, prev, trust), a, hash) <==> a == hash || Descends(t, a, prev)
  {
    var u := Attached(t, hash, prev, trust);
    assert Grown(u);
    forall a ensures Descends(u, a, hash) <==> a == hash || Descends(t, a, prev) {
      DescentKept(t, u, a, prev);
    }
  }

  /** Descent between old blocks is the same in a grown tree. */
  lemma {:induction false} DescentKept(t: Tree, u: Tree, a: Hash, d: Hash)
    requires Grown(t) && Grown(u) && Extends(u, t) && d in t
    ensures d in u && (Descends(u, a, d) <==> Descends(t, a, d))
    decreases t[d].nHeight
  {
    assert u[d] == t[d];
    if a != d && t[d].pprev.Some? {
      DescentKept(t, u, a, t[d].pprev.hash);
    }
  }
}
