/** The best block over runs of arriving blocks, and a checkpoint that waits for its block. */
module BestChainRuns {
  import opened BlockTree
  import opened MainChain
  import opened Checkpoints
  import opened CheckpointRuns

  // ---- the block of the most trust ----

  /** All blocks go back to one genesis block. */
  ghost predicate Rooted(t: Tree, genesis: Hash)
    requires Grown(t)
  {
    genesis in t && forall h :: h in t ==> Descends(t, genesis, h)
  }

  /** No known block has more chain trust than the best block. */
  ghost predicate Heaviest(c: Chain)
    requires Indexed(c)
  {
    forall h :: h in c.tree ==> c.tree[h].bnChainTrust <= c.tree[c.best].bnChainTrust
  }

  ghost function BestTrust(c: Chain): nat
    requires Indexed(c)
  {
    c.tree[c.best].bnChainTrust
  }

  /** A block arrives whose writes succeed while no checkpoint waits for it or for a known block, or a message that is
      not signed or names no known block. */
  ghost predicate Undisturbed(s: State, e: Event) {
    match e
    case Block(b, _) => b.committed && b.writes.ok && s.pending !in s.chain.tree && s.pending != b.hash
    case Announce(m, signed, _) => signed ==> m.hashCheckpoint !in s.chain.tree
  }

  lemma RootedGrows(t: Tree, u: Tree, b: Arrival, genesis: Hash)
    requires Grown(t) && Grown(u) && Rooted(t, genesis) && b.prev in t && b.hash !in t && Indexes(t, u, b)
    ensures Rooted(u, genesis)
  {
    forall h | h in u ensures Descends(u, genesis, h) {
      if h == b.hash {
        DescentKept(t, u, genesis, b.prev);
      } else {
        DescentKept(t, u, genesis, h);
      }
    }
  }

  lemma RootRelates(t: Tree, genesis: Hash, a: Hash, b: Hash)
    requires Grown(t) && Rooted(t, genesis) && a in t && b in t
    ensures Related(t, a, b)
  {
  }

  /** Of two blocks the heavier one is kept. */
  lemma HeavierKept(c: Chain, d: Chain, b: Arrival, ok: bool, genesis: Hash)
    requires Indexed(c) && Indexed(d) && b.prev in c.tree && b.hash !in c.tree && Indexes(c.tree, d.tree, b)
    requires c.best in d.tree && BestOfTwo(c, d, b, ok) && Heaviest(c) && Rooted(d.tree, genesis)
    requires b.committed && b.writes.ok
    ensures Heaviest(d) && BestTrust(c) <= BestTrust(d)
  {
    RootRelates(d.tree, genesis, c.best, b.hash);
    hide Grown, Descends, Related, Rooted;
  }

  lemma StepKeepsHeaviest(s: State, c: Config, e: Event, genesis: Hash)
    requires Known(s) && Undisturbed(s, e) && Rooted(s.chain.tree, genesis) && Heaviest(s.chain)
    ensures var t := Step(s, c, e);
      Known(t) && Rooted(t.chain.tree, genesis) && Heaviest(t.chain) && BestTrust(s.chain) <= BestTrust(t.chain)
  {
    hide Grown, Rooted, Heaviest, Passes, BestOfTwo, Indexes, Arrived, Processed;
    StepMoves(s, c, e);
    match e
    case Announce(m, signed, a) =>
      ProcessedIs(s, m, signed, a);
    case Block(b, a) =>
      ArrivedIs(s, c, b, a);
      var (ok, t) := Arrived(s, c, b, a);
      if t != s {
        RootedGrows(s.chain.tree, t.chain.tree, b, genesis);
        PendingUnknown(s, t, b);
        HeavierKept(s.chain, t.chain, b, ok, genesis);
      }
  }

  lemma PendingUnknown(s: State, t: State, b: Arrival)
    requires b.prev in s.chain.tree && Indexes(s.chain.tree, t.chain.tree, b)
    requires s.pending !in s.chain.tree && s.pending != b.hash
    ensures s.pending !in t.chain.tree
  {
  }

  /** In a run of arriving blocks the best block is always one of the most trust, and its trust never falls. */
  lemma {:induction false} HeaviestRun(s: State, c: Config, es: seq<Event>, genesis: Hash, i: nat, j: nat)
    requires Known(s) && Rooted(s.chain.tree, genesis) && Heaviest(s.chain) && i <= j <= |es|
    requires forall k :: 0 <= k < |es| ==> Undisturbed(After(s, c, es, k), es[k])
    ensures Rooted(After(s, c, es, j).chain.tree, genesis) && Heaviest(After(s, c, es, j).chain)
    ensures BestTrust(After(s, c, es, i).chain) <= BestTrust(After(s, c, es, j).chain)
  {
    hide Step, Rooted, Heaviest, Undisturbed, Known;
    if i < j {
      HeaviestRun(s, c, es, genesis, i, j - 1);
      StepKeepsHeaviest(After(s, c, es, j - 1), c, es[j - 1], genesis);
    } else if j > 0 {
      HeaviestRun(s, c, es, genesis, j - 1, j - 1);
      StepKeepsHeaviest(After(s, c, es, j - 1), c, es[j - 1], genesis);
    }
  }

  /** What a new node starts with. */
  lemma NewNodeHeaviest(genesis: Hash, trust: nat)
    requires genesis != 0
    ensures var chain := Chain(map[genesis := Index(None, 0, trust)], genesis, map[]);
      Indexed(chain) && Rooted(chain.tree, genesis) && Heaviest(chain)
  {
  }

  // ---- a checkpoint that waits for its block ----

  /** Nothing happens to a waiting checkpoint: other blocks arrive, and messages that are not signed. */
  predicate Waits(e: Event, h: Hash) {
    match e
    case Block(b, _) => b.hash != h
    case Announce(_, signed, _) => !signed
  }

  ghost predicate WaitsFor(s: State, m: Message) {
    s.pending == m.hashCheckpoint && s.messagePending == m && m.hashCheckpoint !in s.chain.tree
  }

  lemma StepWaits(s: State, c: Config, e: Event, m: Message)
    requires Known(s) && WaitsFor(s, m) && Waits(e, m.hashCheckpoint)
    ensures WaitsFor(Step(s, c, e), m) && Step(s, c, e).sync == s.sync && Step(s, c, e).message == s.message
  {
    hide Grown, Passes, BestOfTwo, Indexes, Arrived, Processed;
    match e
    case Announce(_, signed, a) =>
      ProcessedIs(s, e.message, signed, a);
    case Block(b, a) =>
      ArrivedIs(s, c, b, a);
      var (ok, t) := Arrived(s, c, b, a);
      if t != s {
        PendingUnknown(s, t, b);
      }
  }

  lemma {:induction false} RunWaits(s: State, c: Config, es: seq<Event>, m: Message, i: nat, j: nat)
    requires Known(s) && i <= j <= |es| && WaitsFor(After(s, c, es, i), m)
    requires forall k :: i <= k < j ==> Waits(es[k], m.hashCheckpoint)
    ensures WaitsFor(After(s, c, es, j), m) && After(s, c, es, j).sync == After(s, c, es, i).sync
  {
    hide Step, WaitsFor, Known;
    if i < j {
      RunWaits(s, c, es, m, i, j - 1);
      StepWaits(After(s, c, es, j - 1), c, es[j - 1], m);
    }
  }

  /** The block that a checkpoint waits for arrives on a branch of the current checkpoint, and the disk and the database
      do their part. */
  predicate Delivers(e: Event, h: Hash, prev: Hash) {
    match e
    case Block(b, a) =>
      && b.hash == h && b.prev == prev && b.checks && b.committed && b.writes.ok
      && a.readOk && a.writes.ok && a.writeOk && a.commitOk
    case Announce(_, _, _) => false
  }

  /** Then the checkpoint moves there. */
  lemma DeliveredIsTaken(s: State, c: Config, e: Event, m: Message, prev: Hash, genesis: Hash)
    requires Known(s) && Rooted(s.chain.tree, genesis) && WaitsFor(s, m) && m.hashCheckpoint != 0
    requires prev in s.chain.tree && Descends(s.chain.tree, s.sync, prev) && Delivers(e, m.hashCheckpoint, prev)
    ensures var t := Step(s, c, e);
      && t.sync == m.hashCheckpoint && t.message == m && t.pending == 0 && t.messagePending == Message(0, [])
      && InMain(t.chain, t.sync)
  {
    hide Grown, Switched, Added, Stored, Passes, BestOfTwo, Indexes, Rooted, Descends, Adopted, Validated;
    var b, a := e.arrival, e.answers;
    DeliveredPasses(s, c, b);
    AddedIs(s, b);
    var (ok, t) := Added(s, b);
    RootedGrows(s.chain.tree, t.chain.tree, b, genesis);
    AddedTakes(s, b, genesis);
    ValidStored(s, t, b);
    AdoptedTakes(t, m.hashCheckpoint, a, genesis);
    SentMessage(t, a);
  }

  lemma DeliveredPasses(s: State, c: Config, b: Arrival)
    requires Known(s) && b.prev in s.chain.tree && b.hash !in s.chain.tree && Descends(s.chain.tree, s.sync, b.prev)
    ensures Passes(s, c, b.hash, b.prev)
  {
    hide Grown, Descends, Passes;
    NewBlockPasses(s, c, b.hash, b.prev);
  }

  /** What is left when a waiting checkpoint has been adopted. */
  lemma SentMessage(t: State, a: Answers)
    requires Known(t) && t.pending != 0 && t.pending in t.chain.tree && Validated(t, t.pending) == (true, t)
    requires Adopted(t, t.pending, a).0
    ensures var u := PendingAccepted(t, a).1;
      && u.sync == t.pending && u.message == t.messagePending && u.pending == 0 && u.messagePending == Message(0, [])
      && u.chain == Adopted(t, t.pending, a).1.chain
  {
    hide Grown, Switched, Descends, Validated;
  }

  lemma AddedTakes(s: State, b: Arrival, genesis: Hash)
    requires Known(s) && b.prev in s.chain.tree && b.hash !in s.chain.tree && b.hash != 0
    requires b.committed && b.writes.ok && Known(Added(s, b).1) && Rooted(Added(s, b).1.chain.tree, genesis)
    ensures Added(s, b).0
  {
    AddedIs(s, b);
    var t := Added(s, b).1;
    hide Grown, Added, Related, Rooted, Descends;
    RootRelates(t.chain.tree, genesis, s.chain.best, b.hash);
  }

  lemma ValidStored(s: State, t: State, b: Arrival)
    requires Known(s) && Known(t) && b.prev in s.chain.tree && b.hash !in s.chain.tree && b.hash != 0
    requires Descends(s.chain.tree, s.sync, b.prev) && Indexes(s.chain.tree, t.chain.tree, b) && t.sync == s.sync
    ensures b.hash in t.chain.tree && Validated(t, b.hash) == (true, t)
  {
    DescentKept(s.chain.tree, t.chain.tree, s.sync, b.prev);
  }

  lemma AdoptedTakes(t: State, h: Hash, a: Answers, genesis: Hash)
    requires Known(t) && h in t.chain.tree && Rooted(t.chain.tree, genesis) && Validated(t, h) == (true, t)
    requires a.readOk && a.writes.ok && a.writeOk && a.commitOk
    ensures var (ok, u) := Adopted(t, h, a);
      ok && u.sync == h && InMain(u.chain, h) && u.pending == t.pending && u.messagePending == t.messagePending
  {
    hide Grown, Switched, Related, Rooted, Descends;
    RootRelates(t.chain.tree, genesis, t.chain.best, h);
    SwitchedSucceeds(t.chain, h, a.writes);
  }

  lemma {:induction false} RootedThroughout(s: State, c: Config, es: seq<Event>, genesis: Hash, k: nat)
    requires Known(s) && Rooted(s.chain.tree, genesis) && k <= |es|
    ensures Rooted(After(s, c, es, k).chain.tree, genesis)
  {
    hide Step, Rooted, Known;
    if k > 0 {
      RootedThroughout(s, c, es, genesis, k - 1);
      StepKeepsRoot(After(s, c, es, k - 1), c, es[k - 1], genesis);
    }
  }

  lemma StepKeepsRoot(s: State, c: Config, e: Event, genesis: Hash)
    requires Known(s) && Rooted(s.chain.tree, genesis)
    ensures Known(Step(s, c, e)) && Rooted(Step(s, c, e).chain.tree, genesis)
  {
    hide Grown, Rooted, Passes, BestOfTwo, Indexes, Arrived, Processed;
    StepMoves(s, c, e);
    match e
    case Announce(m, signed, a) =>
      ProcessedMoves(s, m, signed, a);
    case Block(b, a) =>
      ArrivedIs(s, c, b, a);
      var t := Arrived(s, c, b, a).1;
      if t != s {
        RootedGrows(s.chain.tree, t.chain.tree, b, genesis);
      }
  }

  /** A signed message for an unknown block is kept; when that block arrives later on a branch of the checkpoint, before
      any other signed message, and the disk and the database do their part, it is the checkpoint, its message is the
      one to relay, and nothing waits any more. */
  lemma AnnouncedThenDelivered(s: State, c: Config, es: seq<Event>, genesis: Hash, i: nat, j: nat, m: Message,
      prev: Hash)
    requires Known(s) && Rooted(s.chain.tree, genesis) && i < j < |es| && m.hashCheckpoint != 0
    requires es[i].Announce? && es[i].signed && es[i].message == m
    requires m.hashCheckpoint !in After(s, c, es, i).chain.tree
    requires forall k :: i < k < j ==> Waits(es[k], m.hashCheckpoint)
    requires var t := After(s, c, es, j); prev in t.chain.tree && Descends(t.chain.tree, t.sync, prev)
    requires Delivers(es[j], m.hashCheckpoint, prev)
    ensures After(s, c, es, i + 1).pending == m.hashCheckpoint && After(s, c, es, i + 1).messagePending == m
    ensures var u := After(s, c, es, j + 1);
      && u.sync == m.hashCheckpoint && u.message == m && u.pending == 0 && u.messagePending == Message(0, [])
      && InMain(u.chain, u.sync)
  {
    hide Grown, Descends, Rooted, Processed, Arrived, Delivers, Known;
    ProcessedIs(After(s, c, es, i), m, true, es[i].answers);
    RunWaits(s, c, es, m, i + 1, j);
    RootedThroughout(s, c, es, genesis, j);
    DeliveredIsTaken(After(s, c, es, j), c, es[j], m, prev, genesis);
  }

  /** A waiting checkpoint is taken exactly when its block is a strict descendant of the current one, and in the main
      chain already or the disk lets the main chain move there. */
  lemma PendingExactly(s: State, a: Answers)
    requires Known(s)
    ensures var h, tree := s.pending, s.chain.tree;
      PendingAccepted(s, a).0 <==>
        && h in tree && h != s.sync && Descends(tree, s.sync, h)
        && (InMain(s.chain, h) || (a.readOk && a.writes.ok && Related(tree, s.chain.best, h)))
        && a.writeOk && a.commitOk
  {
    hide Switched, Related, Descends, Grown;
    ZeroUnknown(s);
    if s.pending in s.chain.tree {
      SwitchedSucceeds(s.chain, s.pending, a.writes);
    }
  }

  /** The main chain moves to a valid checkpoint outside it. */
  ghost predicate ChainMoves(s: State, h: Hash, a: Answers)
    requires Known(s)
  {
    && h in s.chain.tree && h != s.sync && Descends(s.chain.tree, s.sync, h) && !InMain(s.chain, h)
    && a.readOk && a.writes.ok && Related(s.chain.tree, s.chain.best, h)
  }

  /** A block that is on another branch than the checkpoint, or to which the main chain cannot be moved, is marked
      invalid. */
  ghost predicate IsMarked(s: State, h: Hash, a: Answers)
    requires Known(s)
  {
    && h in s.chain.tree
    && (!Comparable(s.chain.tree, s.sync, h)
        || (h != s.sync && Descends(s.chain.tree, s.sync, h) && !InMain(s.chain, h) && a.readOk
            && !(a.writes.ok && Related(s.chain.tree, s.chain.best, h))))
  }

  /** What else a message does: which block becomes the best one, and which is marked invalid. The best block moves even
      if the checkpoint cannot be written afterwards. */
  lemma ProcessedElse(s: State, m: Message, signed: bool, a: Answers)
    requires Known(s)
    ensures var h, t := m.hashCheckpoint, Processed(s, m, signed, a).1;
      && (if signed && ChainMoves(s, h, a) then t.chain.best == h else t.chain == s.chain)
      && t.invalid == if signed && IsMarked(s, h, a) then h else s.invalid
  {
    hide Switched, Related, Descends, Grown;
    if m.hashCheckpoint in s.chain.tree {
      SwitchedSucceeds(s.chain, m.hashCheckpoint, a.writes);
    }
  }

  /** The same for a checkpoint that has been waiting. */
  lemma PendingElse(s: State, a: Answers)
    requires Known(s)
    ensures var h, t := s.pending, PendingAccepted(s, a).1;
      && (if ChainMoves(s, h, a) then t.chain.best == h else t.chain == s.chain)
      && t.invalid == if IsMarked(s, h, a) then h else s.invalid
  {
    hide Switched, Related, Descends, Grown;
    ZeroUnknown(s);
    if s.pending in s.chain.tree {
      SwitchedSucceeds(s.chain, s.pending, a.writes);
    }
  }

  lemma ZeroUnknown(s: State)
    requires Known(s)
    ensures 0 !in s.chain.tree
  {
  }

  /** A known block passes on its own parent if it is lower than the checkpoint, or descends from it. */
  lemma KnownBlockPasses(s: State, c: Config, hash: Hash)
    requires Known(s) && hash in s.chain.tree && s.chain.tree[hash].pprev.Some?
    ensures var t := s.chain.tree;
      Passes(s, c, hash, t[hash].pprev.hash) <==>
        c.testNet || t[hash].nHeight < t[s.sync].nHeight || Descends(t, s.sync, hash)
  {
    var t := s.chain.tree;
    if Descends(t, s.sync, hash) {
      AncestorLower(t, s.sync, hash);
    }
  }
}
