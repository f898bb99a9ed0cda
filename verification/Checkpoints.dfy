/** Synchronised checkpoints: what a message or a block does to them, as code that walks the index and as a
    specification in terms of descent. */
module Checkpoints {
  import opened BlockTree
  import opened MainChain
  import opened Reversal

  /** A signed checkpoint message; the body stands for the bytes and the signature. */
  datatype Message = Message(hashCheckpoint: Hash, body: seq<nat>)

  const NULL_MESSAGE: Message := Message(0, [])

  datatype State = State(
    chain: Chain, sync: Hash, pending: Hash, invalid: Hash, message: Message, messagePending: Message)

  /** What the disk and the database answer while a checkpoint is adopted. */
  datatype Answers = Answers(readOk: bool, writes: Writes, writeOk: bool, commitOk: bool)

  /** A block that has passed the checks of `AcceptBlock` other than `CheckSync` if `checks` is set, its own trust,
      and what the disk and the database answer when it is stored. */
  datatype Arrival = Arrival(hash: Hash, prev: Hash, trust: nat, checks: bool, committed: bool, writes: Writes)

  datatype Config = Config(testNet: bool, enforced: bool)

  // ---- the specification ----

  /** Every block the state speaks of is known. */
  ghost predicate Known(s: State) {
    Indexed(s.chain) && s.sync in s.chain.tree
  }

  /** Only a strict descendant of the current checkpoint is valid; a block on another branch is marked invalid. */
  ghost function Validated(s: State, h: Hash): (r: (bool, State))
    requires Grown(s.chain.tree)
    ensures r.1 == s.(invalid := r.1.invalid)
    ensures r.0 ==> r.1 == s && s.sync in s.chain.tree && h in s.chain.tree
  {
    if s.sync !in s.chain.tree || h !in s.chain.tree then (false, s)
    else if h != s.sync && Descends(s.chain.tree, s.sync, h) then (true, s)
    else if Descends(s.chain.tree, h, s.sync) then (false, s)
    else (false, s.(invalid := h))
  }

  /** Make a valid checkpoint part of the main chain and write it. */
  ghost function Adopted(s: State, h: Hash, a: Answers): (bool, State)
    requires Known(s) && h in s.chain.tree
  {
    var inMain := InMain(s.chain, h);
    if !inMain && !a.readOk then (false, s)
    else
      var (ok, chain) := if inMain then (true, s.chain) else Switched(s.chain, h, a.writes);
      if !ok then (false, s.(invalid := h))
      else if a.writeOk && a.commitOk then (true, s.(chain := chain, sync := h))
      else (false, s.(chain := chain))
  }

  ghost function PendingAccepted(s: State, a: Answers): (bool, State)
    requires Known(s)
  {
    if s.pending == 0 || s.pending !in s.chain.tree then (false, s)
    else
      var (valid, t) := Validated(s, s.pending);
      if !valid then (false, t.(pending := 0, messagePending := NULL_MESSAGE))
      else
        var (ok, u) := Adopted(t, s.pending, a);
        if !ok then (false, u)
        else (true, u.(pending := 0, message := s.messagePending, messagePending := NULL_MESSAGE))
  }

  ghost function Processed(s: State, m: Message, signed: bool, a: Answers): (bool, State)
    requires Known(s)
  {
    if !signed then (false, s)
    else if m.hashCheckpoint !in s.chain.tree then (false, s.(pending := m.hashCheckpoint, messagePending := m))
    else
      var (valid, t) := Validated(s, m.hashCheckpoint);
      if !valid then (false, t)
      else
        var (ok, u) := Adopted(t, m.hashCheckpoint, a);
        if !ok then (false, u)
        else (true, u.(pending := 0, message := m, messagePending := NULL_MESSAGE))
  }

  /** A block above the checkpoint must descend from it, at its height it must be it, below it must be known. */
  ghost predicate Passes(s: State, c: Config, hash: Hash, prev: Hash)
    requires Known(s) && prev in s.chain.tree
  {
    var height := s.chain.tree[prev].nHeight + 1;
    c.testNet
    || (height > s.chain.tree[s.sync].nHeight && Descends(s.chain.tree, s.sync, prev))
    || (height == s.chain.tree[s.sync].nHeight && hash == s.sync)
    || (height < s.chain.tree[s.sync].nHeight && hash in s.chain.tree)
  }

  ghost predicate Admitted(s: State, c: Config, b: Arrival)
    requires Known(s)
  {
    && b.hash != 0 && b.hash !in s.chain.tree && b.prev in s.chain.tree
    && (c.enforced ==> Passes(s, c, b.hash, b.prev)) && b.checks
  }

  /** The block is in the index. */
  ghost function Stored(s: State, b: Arrival): (t: State)
    requires Known(s) && b.prev in s.chain.tree && b.hash !in s.chain.tree && b.hash != 0
    ensures Known(t) && b.hash in t.chain.tree
  {
    AttachedGrows(s.chain.tree, b.hash, b.prev, b.trust);
    s.(chain := s.chain.(tree := Attached(s.chain.tree, b.hash, b.prev, b.trust)))
  }

  /** A stored block with more trust than the best block becomes the best block. */
  ghost function Added(s: State, b: Arrival): (r: (bool, State))
    requires Known(s) && b.prev in s.chain.tree && b.hash !in s.chain.tree && b.hash != 0
    ensures Known(r.1)
  {
    var t := Stored(s, b);
    if !b.committed then (false, t)
    else if t.chain.tree[b.hash].bnChainTrust > t.chain.tree[t.chain.best].bnChainTrust then
      var (ok, chain) := Switched(t.chain, b.hash, b.writes);
      (ok, t.(chain := chain))
    else (true, t)
  }

  ghost function Arrived(s: State, c: Config, b: Arrival, a: Answers): (bool, State)
    requires Known(s)
  {
    if !Admitted(s, c, b) then (false, s)
    else
      var (ok, t) := Added(s, b);
      if ok then (true, PendingAccepted(t, a).1) else (false, t)
  }

  /** A block in the index, with what its place and its own trust come to. */
  ghost predicate Indexes(t: Tree, u: Tree, b: Arrival)
    requires b.prev in t
  {
    && u.Keys == t.Keys + {b.hash} && (forall h :: h in t ==> u[h] == t[h])
    && u[b.hash].pprev == Some(b.prev) && u[b.hash].nHeight == t[b.prev].nHeight + 1
    && u[b.hash].bnChainTrust == t[b.prev].bnChainTrust + b.trust
  }

  /** What becomes of the best block when `b` is stored: it changes exactly when the block is committed, its chain has
      more trust, the first transaction succeeds and the two chains have a common root; then it is `b`. */
  ghost predicate BestOfTwo(c: Chain, d: Chain, b: Arrival, ok: bool)
    requires Indexed(c) && Indexed(d) && b.prev in c.tree && b.hash in d.tree && c.best in d.tree
  {
    var mine, theirs := c.tree[b.prev].bnChainTrust + b.trust, c.tree[c.best].bnChainTrust;
    && (ok <==> b.committed && (mine > theirs ==> b.writes.ok && Related(d.tree, c.best, b.hash)))
    && if ok && mine > theirs then d.best == b.hash else d.best == c.best && d.next == c.next
  }

  lemma AddedIs(s: State, b: Arrival)
    requires Known(s) && b.prev in s.chain.tree && b.hash !in s.chain.tree && b.hash != 0
    ensures var (ok, t) := Added(s, b);
      && Indexed(t.chain) && Indexes(s.chain.tree, t.chain.tree, b) && s.chain.best in t.chain.tree
      && t == s.(chain := t.chain) && BestOfTwo(s.chain, t.chain, b, ok)
  {
    hide Switched, Related, Grown;
    var t := Stored(s, b);
    assert Indexes(s.chain.tree, t.chain.tree, b);
    SwitchedSucceeds(t.chain, b.hash, b.writes);
  }

  /** What becomes of a block that arrives. Without a pending checkpoint among the known blocks, that is all. */
  ghost predicate BlockArrives(s: State, t: State, c: Config, b: Arrival, ok: bool)
    requires Known(s) && Known(t)
  {
    if b.hash == 0 || b.hash in s.chain.tree || b.prev !in s.chain.tree || !b.checks
       || (c.enforced && !Passes(s, c, b.hash, b.prev))
    then !ok && t == s
    else
      && Indexes(s.chain.tree, t.chain.tree, b) && s.chain.best in t.chain.tree
      && (s.pending !in t.chain.tree || !ok ==> t == s.(chain := t.chain) && BestOfTwo(s.chain, t.chain, b, ok))
      && t.chain.best in {b.hash, s.chain.best, s.pending}
  }

  lemma ArrivedIs(s: State, c: Config, b: Arrival, a: Answers)
    requires Known(s)
    ensures var (ok, t) := Arrived(s, c, b, a); Known(t) && BlockArrives(s, t, c, b, ok)
  {
    hide Grown, Passes, Added, BestOfTwo, Validated, Switched;
    if Admitted(s, c, b) {
      AddedIs(s, b);
      hide Indexes;
      var (ok, t) := Added(s, b);
      BestOrNew(s, b);
      StaysInTree(s, b, t, a);
    }
  }

  lemma BestOrNew(s: State, b: Arrival)
    requires Known(s) && b.prev in s.chain.tree && b.hash !in s.chain.tree && b.hash != 0
    ensures Added(s, b).1.chain.best in {b.hash, s.chain.best}
  {
    hide Grown, Switched;
  }

  lemma StaysInTree(s: State, b: Arrival, t: State, a: Answers)
    requires Known(t)
    ensures Known(PendingAccepted(t, a).1) && PendingAccepted(t, a).1.chain.tree == t.chain.tree
    ensures PendingAccepted(t, a).1.chain.best in {t.chain.best, t.pending}
    ensures t.pending !in t.chain.tree ==> PendingAccepted(t, a).1 == t
  {
    hide Grown, Switched, Descends;
  }

  /** What becomes of a checkpoint message. One that is not signed changes nothing; one for an unknown block waits; one
      that is taken leaves nothing waiting; and one that is refused leaves alone what waits. */
  ghost predicate MessageArrives(s: State, t: State, m: Message, signed: bool, ok: bool) {
    && (!signed ==> !ok && t == s)
    && (signed && m.hashCheckpoint !in s.chain.tree ==>
          !ok && t == s.(pending := m.hashCheckpoint, messagePending := m))
    && (ok ==> t.sync == m.hashCheckpoint && t.message == m && t.pending == 0 && t.messagePending == Message(0, []))
    && (m.hashCheckpoint in s.chain.tree && !ok ==>
          t.sync == s.sync && t.message == s.message && t.pending == s.pending && t.messagePending == s.messagePending)
  }

  lemma ProcessedIs(s: State, m: Message, signed: bool, a: Answers)
    requires Known(s)
    ensures MessageArrives(s, Processed(s, m, signed, a).1, m, signed, Processed(s, m, signed, a).0)
  {
    hide Grown, Switched, Descends;
  }

  /** What becomes of a checkpoint that waits. One whose block is unknown goes on waiting; one that is not a strict
      descendant of the checkpoint is dropped; one that is taken leaves nothing waiting, and its message is relayed; one
      that the disk or the database fails goes on waiting. */
  ghost predicate PendingSettles(s: State, t: State, ok: bool)
    requires Known(s)
  {
    if s.pending == 0 || s.pending !in s.chain.tree then !ok && t == s
    else if s.pending == s.sync || !Descends(s.chain.tree, s.sync, s.pending) then
      && !ok && t.pending == 0 && t.messagePending == Message(0, []) && t.sync == s.sync && t.message == s.message
      && t.chain == s.chain
    else if ok then
      t.sync == s.pending && t.message == s.messagePending && t.pending == 0 && t.messagePending == Message(0, [])
    else
      t.sync == s.sync && t.message == s.message && t.pending == s.pending && t.messagePending == s.messagePending
  }

  lemma PendingIs(s: State, a: Answers)
    requires Known(s)
    ensures PendingSettles(s, PendingAccepted(s, a).1, PendingAccepted(s, a).0)
  {
    hide Grown, Switched, Descends;
  }

  lemma PathKnown(t: Tree, f: Hash, d: Hash)
    requires Grown(t) && d in t && Descends(t, f, d)
    ensures forall x :: x in Path(t, f, d) ==> x in t && t[x].pprev.Some?
  {
    forall x | x in Path(t, f, d) ensures x in t && t[x].pprev.Some? {
      PathHas(t, f, d, x);
    }
  }

  lemma ReversedParents(t: Tree, q: seq<Hash>)
    ensures Parents(t, Reversed(q)) == Parents(t, q)
    ensures forall x :: x in Reversed(q) <==> x in q
  {
    forall x ensures x in Reversed(q) <==> x in q {
      if x in q {
        var i :| 0 <= i < |q| && q[i] == x;
        assert Reversed(q)[|q| - 1 - i] == x;
      }
    }
  }

  // ---- the code ----

  class SyncCheckpoints {
    const config: Config
    var mapBlockIndex: Tree
    var pindexBest: Hash
    var pnext: map<Hash, Hash>
    var hashSyncCheckpoint: Hash
    var hashPendingCheckpoint: Hash
    var hashInvalidCheckpoint: Hash
    var checkpointMessage: Message
    var checkpointMessagePending: Message

    ghost function ChainView(): Chain
      reads this
    {
      Chain(mapBlockIndex, pindexBest, pnext)
    }

    ghost function View(): State
      reads this
    {
      State(ChainView(), hashSyncCheckpoint, hashPendingCheckpoint, hashInvalidCheckpoint,
            checkpointMessage, checkpointMessagePending)
    }

    /** A new node: the genesis block is the best block and the checkpoint. */
    constructor (config: Config, genesis: Hash, trust: nat)
      requires genesis != 0
      ensures Known(View()) && this.config == config
      ensures View() == State(Chain(map[genesis := Index(None, 0, trust)], genesis, map[]), genesis, 0, 0,
                              NULL_MESSAGE, NULL_MESSAGE)
    {
      this.config := config;
      mapBlockIndex, pnext := map[genesis := Index(None, 0, trust)], map[];
      pindexBest, hashSyncCheckpoint := genesis, genesis;
      hashPendingCheckpoint, hashInvalidCheckpoint := 0, 0;
      checkpointMessage, checkpointMessagePending := NULL_MESSAGE, NULL_MESSAGE;
    }

    /** The walk towards the root, down to a height. A missing parent is an error the walk never meets. */
    method TraceBack(from: Hash, height: nat) returns (pindex: Hash)
      requires Grown(mapBlockIndex) && from in mapBlockIndex && height <= mapBlockIndex[from].nHeight
      ensures pindex in mapBlockIndex && mapBlockIndex[pindex].nHeight == height
      ensures forall a :: a in mapBlockIndex && mapBlockIndex[a].nHeight == height ==>
        (Descends(mapBlockIndex, a, from) <==> a == pindex)
    {
      pindex := from;
      while mapBlockIndex[pindex].nHeight > height
        invariant pindex in mapBlockIndex && height <= mapBlockIndex[pindex].nHeight
        invariant Descends(mapBlockIndex, pindex, from)
        decreases mapBlockIndex[pindex].nHeight
      {
        match mapBlockIndex[pindex].pprev
        case None => assert false;
        case Some(parent) =>
          DescendsTwice(mapBlockIndex, parent, pindex, from);
          pindex := parent;
      }
      forall a | a in mapBlockIndex && mapBlockIndex[a].nHeight == height && Descends(mapBlockIndex, a, from)
        ensures a == pindex
      {
        OneAtEachHeight(mapBlockIndex, a, pindex, from);
      }
    }

    /** Only a descendant of the current checkpoint is allowed. */
    method ValidateSyncCheckpoint(hashCheckpoint: Hash) returns (ok: bool)
      requires Grown(mapBlockIndex)
      modifies this`hashInvalidCheckpoint
      ensures (ok, View()) == Validated(old(View()), hashCheckpoint)
      ensures hashSyncCheckpoint in mapBlockIndex && hashCheckpoint in mapBlockIndex ==>
        hashInvalidCheckpoint ==
          if Comparable(mapBlockIndex, hashSyncCheckpoint, hashCheckpoint) then old(hashInvalidCheckpoint)
          else hashCheckpoint
    {
      if hashSyncCheckpoint !in mapBlockIndex {
        return false;
      }
      if hashCheckpoint !in mapBlockIndex {
        return false;
      }
      var sync := mapBlockIndex[hashSyncCheckpoint];
      var recv := mapBlockIndex[hashCheckpoint];
      Lower(hashSyncCheckpoint, hashCheckpoint);
      Lower(hashCheckpoint, hashSyncCheckpoint);
      if recv.nHeight <= sync.nHeight {
        var pindex := TraceBack(hashSyncCheckpoint, recv.nHeight);
        if pindex != hashCheckpoint {
          hashInvalidCheckpoint := hashCheckpoint;
          return false;
        }
        return false;
      }
      var pindex := TraceBack(hashCheckpoint, sync.nHeight);
      if pindex != hashSyncCheckpoint {
        hashInvalidCheckpoint := hashCheckpoint;
        return false;
      }
      return true;
    }

    lemma Lower(a: Hash, d: Hash)
      requires Grown(mapBlockIndex) && a in mapBlockIndex && d in mapBlockIndex
      ensures Descends(mapBlockIndex, a, d) ==> mapBlockIndex[a].nHeight <= mapBlockIndex[d].nHeight
      ensures Descends(mapBlockIndex, a, d) && mapBlockIndex[a].nHeight == mapBlockIndex[d].nHeight ==> a == d
    {
      if Descends(mapBlockIndex, a, d) {
        AncestorLower(mapBlockIndex, a, d);
      }
    }

    /** The database write comes first; the checkpoint in memory changes only when it succeeds. */
    method WriteSyncCheckpoint(hashCheckpoint: Hash, a: Answers) returns (ok: bool)
      modifies this`hashSyncCheckpoint
      ensures ok == (a.writeOk && a.commitOk)
      ensures hashSyncCheckpoint == if ok then hashCheckpoint else old(hashSyncCheckpoint)
    {
      if !a.writeOk {
        return false;
      }
      if !a.commitOk {
        return false;
      }
      hashSyncCheckpoint := hashCheckpoint;
      return true;
    }

    /** The part of `Reorganize` that looks for the fork; `None` stands for the errors on a missing parent. */
    method FindFork(pindexNew: Hash) returns (fork: Parent)
      requires Indexed(ChainView()) && pindexNew in mapBlockIndex
      ensures fork == Fork(mapBlockIndex, pindexBest, pindexNew)
    {
      var pfork, plonger := pindexBest, pindexNew;
      while pfork != plonger
        invariant pfork in mapBlockIndex && plonger in mapBlockIndex
        invariant Fork(mapBlockIndex, pfork, plonger) == Fork(mapBlockIndex, pindexBest, pindexNew)
        decreases mapBlockIndex[pfork].nHeight, mapBlockIndex[plonger].nHeight
      {
        while mapBlockIndex[plonger].nHeight > mapBlockIndex[pfork].nHeight
          invariant plonger in mapBlockIndex
          invariant Fork(mapBlockIndex, pfork, plonger) == Fork(mapBlockIndex, pindexBest, pindexNew)
          decreases mapBlockIndex[plonger].nHeight
        {
          match mapBlockIndex[plonger].pprev
          case None => assert false;
          case Some(parent) => plonger := parent;
        }
        if pfork == plonger {
          break;
        }
        match mapBlockIndex[pfork].pprev
        case None => return None;
        case Some(parent) => pfork := parent;
      }
      return Some(pfork);
    }

    /** The blocks from `pindex` down to the fork, as `vDisconnect` and (before it is reversed) `vConnect` list them. */
    method DownTo(pfork: Hash, from: Hash) returns (v: seq<Hash>)
      requires Grown(mapBlockIndex) && from in mapBlockIndex && Descends(mapBlockIndex, pfork, from)
      ensures v == Reversed(Path(mapBlockIndex, pfork, from))
    {
      v := [];
      var pindex := from;
      while pindex != pfork
        invariant pindex in mapBlockIndex && Descends(mapBlockIndex, pfork, pindex)
        invariant Path(mapBlockIndex, pfork, from) == Path(mapBlockIndex, pfork, pindex) + Reversed(v)
        decreases mapBlockIndex[pindex].nHeight
      {
        ReversedPush(v, pindex);
        v := v + [pindex];
        match mapBlockIndex[pindex].pprev
        case None => assert false;
        case Some(parent) => pindex := parent;
      }
      ReversedTwice(v);
    }

    /** What to disconnect and what to connect. */
    method BranchesFrom(pfork: Hash, pindexNew: Hash) returns (vDisconnect: seq<Hash>, vConnect: seq<Hash>)
      requires Indexed(ChainView()) && pindexNew in mapBlockIndex
      requires Descends(mapBlockIndex, pfork, pindexBest) && Descends(mapBlockIndex, pfork, pindexNew)
      ensures forall x :: x in vDisconnect ==> x in mapBlockIndex
      ensures forall x :: x in vConnect ==> x in mapBlockIndex
      ensures Parents(mapBlockIndex, vDisconnect) == Parents(mapBlockIndex, Path(mapBlockIndex, pfork, pindexBest))
      ensures vConnect == Path(mapBlockIndex, pfork, pindexNew)
    {
      hide Path, Grown, Descends, Parents;
      vDisconnect := DownTo(pfork, pindexBest);
      ReversedParents(mapBlockIndex, Path(mapBlockIndex, pfork, pindexBest));
      PathKnown(mapBlockIndex, pfork, pindexBest);
      vConnect := DownTo(pfork, pindexNew);
      ReversedTwice(Path(mapBlockIndex, pfork, pindexNew));
      PathKnown(mapBlockIndex, pfork, pindexNew);
      vConnect := Reversed(vConnect);
    }

    /** The memory of the shorter branch: its blocks' parents lose their successors. */
    method Disconnect(v: seq<Hash>)
      requires forall x :: x in v ==> x in mapBlockIndex
      modifies this`pnext
      ensures pnext == old(pnext) - Parents(mapBlockIndex, v)
    {
      for i := 0 to |v|
        invariant pnext == old(pnext) - Parents(mapBlockIndex, v[..i])
      {
        assert v[..i + 1] == v[..i] + [v[i]];
        match mapBlockIndex[v[i]].pprev
        case None =>
        case Some(parent) =>
          assert Parents(mapBlockIndex, v[..i + 1]) == Parents(mapBlockIndex, v[..i]) + {parent};
          pnext := pnext - {parent};
      }
    }

    /** The memory of the longer branch: its blocks become their parents' successors. */
    method Connect(v: seq<Hash>)
      requires forall x :: x in v ==> x in mapBlockIndex
      modifies this`pnext
      ensures pnext == Joined(mapBlockIndex, old(pnext), v)
    {
      for i := 0 to |v|
        invariant pnext == Joined(mapBlockIndex, old(pnext), v[..i])
      {
        assert v[i] in v && v[..i + 1][..i] == v[..i];
        match mapBlockIndex[v[i]].pprev
        case None =>
        case Some(parent) => pnext := pnext[parent := v[i]];
      }
      assert v[..|v|] == v;
    }

    /** The last loop of `SetBestChain`: postponed blocks are connected until one of them fails. */
    method ConnectFurther(v: seq<Hash>, later: nat)
      requires forall x :: x in v ==> x in mapBlockIndex && mapBlockIndex[x].pprev.Some?
      modifies this`pnext
      ensures pnext == Joined(mapBlockIndex, old(pnext), Upto(v, later))
    {
      for i := 0 to |v|
        invariant i <= later && pnext == Joined(mapBlockIndex, old(pnext), v[..i])
      {
        if i == later {
          return;
        }
        assert v[i] in v && v[..i + 1][..i] == v[..i];
        pnext := pnext[mapBlockIndex[v[i]].pprev.hash := v[i]];
      }
      assert v[..|v|] == v;
    }

    /** `Reorganize`: nothing in memory changes unless everything has been written. */
    method Reorganize(pindexNew: Hash, ok: bool) returns (done: bool)
      requires Indexed(ChainView()) && pindexNew in mapBlockIndex
      modifies this`pnext
      ensures var fork := Fork(mapBlockIndex, pindexBest, pindexNew);
        && done == (ok && fork.Some?)
        && (done ==>
              && Descends(mapBlockIndex, fork.hash, pindexBest) && Descends(mapBlockIndex, fork.hash, pindexNew)
              && pnext == Reorganized(mapBlockIndex, old(pnext), pindexBest, fork.hash, pindexNew))
        && (!done ==> pnext == old(pnext))
    {
      hide Path, Fork, Parents, Joined, Grown, Descends;
      var fork := FindFork(pindexNew);
      ForkIsHighest(mapBlockIndex, pindexBest, pindexNew, pindexNew);
      if fork == None || !ok {
        return false;
      }
      var vDisconnect, vConnect := BranchesFrom(fork.hash, pindexNew);
      Disconnect(vDisconnect);
      Connect(vConnect);
      return true;
    }

    /** The walk of `SetBestChain` to the first block that already has more trust than the best one; the blocks above
        it are connected later. */
    method Postpone(pindexNew: Hash) returns (pindexIntermediate: Hash, vpindexSecondary: seq<Hash>)
      requires Indexed(ChainView()) && pindexNew in mapBlockIndex
      ensures pindexIntermediate == Intermediate(mapBlockIndex, pindexNew, mapBlockIndex[pindexBest].bnChainTrust)
      ensures pindexIntermediate in mapBlockIndex && Descends(mapBlockIndex, pindexIntermediate, pindexNew)
      ensures mapBlockIndex[pindexIntermediate].pprev.Some? ==>
        mapBlockIndex[mapBlockIndex[pindexIntermediate].pprev.hash].bnChainTrust
        <= mapBlockIndex[pindexBest].bnChainTrust
      ensures Reversed(vpindexSecondary) == Path(mapBlockIndex, pindexIntermediate, pindexNew)
    {
      ghost var trust := mapBlockIndex[pindexBest].bnChainTrust;
      IntermediateOnWay(mapBlockIndex, pindexNew, trust);
      ghost var end := Intermediate(mapBlockIndex, pindexNew, trust);
      pindexIntermediate, vpindexSecondary := pindexNew, [];
      while mapBlockIndex[pindexIntermediate].pprev.Some?
            && mapBlockIndex[mapBlockIndex[pindexIntermediate].pprev.hash].bnChainTrust
               > mapBlockIndex[pindexBest].bnChainTrust
        invariant pindexIntermediate in mapBlockIndex
        invariant Intermediate(mapBlockIndex, pindexIntermediate, trust) == end
        invariant Descends(mapBlockIndex, end, pindexIntermediate)
        invariant Path(mapBlockIndex, end, pindexNew)
                  == Path(mapBlockIndex, end, pindexIntermediate) + Reversed(vpindexSecondary)
        decreases mapBlockIndex[pindexIntermediate].nHeight
      {
        var parent := mapBlockIndex[pindexIntermediate].pprev.hash;
        IntermediateOnWay(mapBlockIndex, parent, trust);
        AncestorLower(mapBlockIndex, end, parent);
        ReversedPush(vpindexSecondary, pindexIntermediate);
        vpindexSecondary := vpindexSecondary + [pindexIntermediate];
        pindexIntermediate := parent;
      }
    }

    /** `SetBestChain`. The postponed blocks are connected until one of them fails, and the best block is set all
        the same. */
    method SetBestChain(pindexNew: Hash, w: Writes) returns (ok: bool)
      requires Indexed(ChainView()) && pindexNew in mapBlockIndex
      modifies this`pnext, this`pindexBest
      ensures (ok, ChainView()) == Switched(old(ChainView()), pindexNew, w)
    {
      hide Path, Fork, Intermediate, Reorganized, Joined, Grown, Descends;
      if mapBlockIndex[pindexNew].pprev == Some(pindexBest) {
        if !w.ok {
          return false;
        }
        pnext := pnext[pindexBest := pindexNew];
      } else {
        var pindexIntermediate, vpindexSecondary := Postpone(pindexNew);
        IntermediateOnWay(mapBlockIndex, pindexNew, mapBlockIndex[pindexBest].bnChainTrust);
        ForkIsHighest(mapBlockIndex, pindexBest, pindexIntermediate, pindexIntermediate);
        var done := Reorganize(pindexIntermediate, w.ok);
        if !done {
          return false;
        }
        PathKnown(mapBlockIndex, pindexIntermediate, pindexNew);
        ConnectFurther(Reversed(vpindexSecondary), w.later);
      }
      pindexBest := pindexNew;
      return true;
    }

    predicate IsInMainChain(h: Hash)
      reads this
      ensures IsInMainChain(h) == InMain(ChainView(), h)
    {
      h in pnext || h == pindexBest
    }

    /** Accept a pending checkpoint once its block is known. */
    method AcceptPendingSyncCheckpoint(a: Answers) returns (ok: bool)
      requires Known(View())
      modifies this
      ensures (ok, View()) == PendingAccepted(old(View()), a)
      ensures PendingSettles(old(View()), View(), ok)
    {
      hide Grown, Descends, Validated, Switched, PendingSettles;
      PendingIs(View(), a);
      if hashPendingCheckpoint != 0 && hashPendingCheckpoint in mapBlockIndex {
        var valid := ValidateSyncCheckpoint(hashPendingCheckpoint);
        if !valid {
          hashPendingCheckpoint := 0;
          checkpointMessagePending := NULL_MESSAGE;
          return false;
        }
        if !IsInMainChain(hashPendingCheckpoint) {
          if !a.readOk {
            return false;
          }
          var done := SetBestChain(hashPendingCheckpoint, a.writes);
          if !done {
            hashInvalidCheckpoint := hashPendingCheckpoint;
            return false;
          }
        }
        var written := WriteSyncCheckpoint(hashPendingCheckpoint, a);
        if !written {
          return false;
        }
        hashPendingCheckpoint := 0;
        checkpointMessage := checkpointMessagePending;
        checkpointMessagePending := NULL_MESSAGE;
        return true;
      }
      return false;
    }

    /** A checkpoint message arrives; `signed` is the result of the signature check. */
    method ProcessSyncCheckpoint(m: Message, signed: bool, a: Answers) returns (ok: bool)
      requires Known(View())
      modifies this
      ensures (ok, View()) == Processed(old(View()), m, signed, a)
      ensures MessageArrives(old(View()), View(), m, signed, ok)
    {
      hide Grown, Descends, Validated, Switched, MessageArrives;
      ProcessedIs(View(), m, signed, a);
      if !signed {
        return false;
      }
      var hashCheckpoint := m.hashCheckpoint;
      if hashCheckpoint !in mapBlockIndex {
        hashPendingCheckpoint := hashCheckpoint;
        checkpointMessagePending := m;
        return false;
      }
      var valid := ValidateSyncCheckpoint(hashCheckpoint);
      if !valid {
        return false;
      }
      if !IsInMainChain(hashCheckpoint) {
        if !a.readOk {
          return false;
        }
        var done := SetBestChain(hashCheckpoint, a.writes);
        if !done {
          hashInvalidCheckpoint := hashCheckpoint;
          return false;
        }
      }
      var written := WriteSyncCheckpoint(hashCheckpoint, a);
      if !written {
        return false;
      }
      checkpointMessage := m;
      hashPendingCheckpoint := 0;
      checkpointMessagePending := NULL_MESSAGE;
      return true;
    }

    /** Check a block against the synchronised checkpoint. */
    method CheckSync(hashBlock: Hash, pindexPrev: Hash) returns (ok: bool)
      requires Known(View()) && pindexPrev in mapBlockIndex
      ensures ok == Passes(View(), config, hashBlock, pindexPrev)
    {
      hide Descends, Grown;
      if config.testNet {
        return true;
      }
      var nHeight := mapBlockIndex[pindexPrev].nHeight + 1;
      assert hashSyncCheckpoint in mapBlockIndex;
      var sync := mapBlockIndex[hashSyncCheckpoint];
      if nHeight > sync.nHeight {
        var pindex := TraceBack(pindexPrev, sync.nHeight);
        if mapBlockIndex[pindex].nHeight < sync.nHeight || pindex != hashSyncCheckpoint {
          return false;
        }
      }
      if nHeight == sync.nHeight && hashBlock != hashSyncCheckpoint {
        return false;
      }
      if nHeight < sync.nHeight && hashBlock !in mapBlockIndex {
        return false;
      }
      return true;
    }

    /** `AddToBlockIndex`, as far as it touches the index and the best chain. */
    method AddToBlockIndex(b: Arrival) returns (ok: bool)
      requires Known(View()) && b.hash != 0 && b.hash !in mapBlockIndex && b.prev in mapBlockIndex
      modifies this`mapBlockIndex, this`pindexBest, this`pnext
      ensures (ok, View()) == Added(old(View()), b)
      ensures Known(View()) && Indexes(old(mapBlockIndex), mapBlockIndex, b) && old(pindexBest) in mapBlockIndex
      ensures BestOfTwo(old(ChainView()), ChainView(), b, ok)
    {
      hide Grown, Descends, Attached, Switched, Indexes, BestOfTwo;
      AddedIs(View(), b);
      ghost var t := Stored(View(), b);
      AttachedHas(mapBlockIndex, b.hash, b.prev, b.trust);
      mapBlockIndex := Attached(mapBlockIndex, b.hash, b.prev, b.trust);
      assert View() == t;
      if !b.committed {
        return false;
      }
      if mapBlockIndex[b.hash].bnChainTrust > mapBlockIndex[pindexBest].bnChainTrust {
        var done := SetBestChain(b.hash, b.writes);
        if !done {
          return false;
        }
      }
      return true;
    }

    /** `AcceptBlock`, as far as it touches the index, the best block and the checkpoints. */
    method AcceptBlock(b: Arrival, a: Answers) returns (ok: bool)
      requires Known(View()) && b.hash != 0
      modifies this
      ensures (ok, View()) == Arrived(old(View()), config, b, a)
      ensures Known(View()) && BlockArrives(old(View()), View(), config, b, ok)
    {
      hide Grown, Descends, PendingAccepted, Passes, Attached, Added, BlockArrives, PendingSettles, Indexes, BestOfTwo;
      ArrivedIs(View(), config, b, a);
      if b.hash in mapBlockIndex {
        return false;
      }
      if b.prev !in mapBlockIndex {
        return false;
      }
      var passes := CheckSync(b.hash, b.prev);
      if !passes && config.enforced {
        return false;
      }
      if !b.checks {
        return false;
      }
      ok := AddToBlockIndex(b);
      if ok {
        var _ := AcceptPendingSyncCheckpoint(a);
      }
    }
  }
}
