/** Safety of synchronised checkpoints over every run of block arrivals and checkpoint messages. */
module CheckpointRuns {
  import opened BlockTree
  import opened MainChain
  import opened Checkpoints

  datatype Event =
    | Block(arrival: Arrival, answers: Answers)
    | Announce(message: Message, signed: bool, answers: Answers)

  ghost function Step(s: State, c: Config, e: Event): State
    requires Known(s)
  {
    match e
    case Block(b, a) => Arrived(s, c, b, a).1
    case Announce(m, signed, a) => Processed(s, m, signed, a).1
  }

  /** Known blocks stay known, and the checkpoint stays or moves to a strict descendant. */
  ghost predicate Moves(s: State, t: State) {
    && Known(s) && Known(t) && Extends(t.chain.tree, s.chain.tree)
    && (t.sync == s.sync || (t.sync in t.chain.tree && t.sync != s.sync)) && Descends(t.chain.tree, s.sync, t.sync)
  }

  /** The message that is relayed, and the one that waits, are those of the checkpoints. */
  ghost predicate Announced(s: State) {
    && s.messagePending.hashCheckpoint == s.pending
    && (s.message.hashCheckpoint == 0 || s.message.hashCheckpoint == s.sync)
  }

  /** The successor pointers lie along the main chain. */
  ghost predicate Pointed(s: State) {
    Known(s) && PointersOk(s.chain)
  }

  /** The checkpoint is in the main chain. */
  ghost predicate Anchored(s: State) {
    Pointed(s) && InMain(s.chain, s.sync)
  }

  // ---- one step ----

  lemma ValidDescends(s: State, h: Hash)
    requires Known(s) && Validated(s, h) == (true, s)
    ensures h in s.chain.tree && h != s.sync && Descends(s.chain.tree, s.sync, h)
    ensures Descends(s.chain.tree, s.sync, s.sync)
  {
  }

  lemma AdoptedMoves(s: State, h: Hash, a: Answers)
    requires Known(s) && Validated(s, h) == (true, s)
    ensures var (ok, t) := Adopted(s, h, a);
      && Moves(s, t) && t.chain.tree == s.chain.tree
      && t.pending == s.pending && t.message == s.message && t.messagePending == s.messagePending
      && (if ok then t.sync == h != s.sync && InMain(t.chain, h) else t.sync == s.sync)
      && (PointersOk(s.chain) ==> PointersOk(t.chain))
  {
    hide Switched, PointersOk, Descends, Grown, Validated;
    ValidDescends(s, h);
    if PointersOk(s.chain) {
      SwitchedKeepsPointers(s.chain, h, a.writes);
    }
  }

  /** A failed or refused adoption leaves the checkpoint alone. */
  lemma PendingMoves(s: State, a: Answers)
    requires Known(s)
    ensures Moves(s, PendingAccepted(s, a).1) && PendingAccepted(s, a).1.chain.tree == s.chain.tree
    ensures Announced(s) ==> Announced(PendingAccepted(s, a).1)
    ensures Pointed(s) ==> Pointed(PendingAccepted(s, a).1)
  {
    if s.pending != 0 && s.pending in s.chain.tree {
      var (valid, t) := Validated(s, s.pending);
      if valid {
        AdoptedMoves(s, s.pending, a);
      }
    }
  }

  lemma ProcessedMoves(s: State, m: Message, signed: bool, a: Answers)
    requires Known(s)
    ensures Moves(s, Processed(s, m, signed, a).1) && Processed(s, m, signed, a).1.chain.tree == s.chain.tree
    ensures Announced(s) ==> Announced(Processed(s, m, signed, a).1)
    ensures Pointed(s) ==> Pointed(Processed(s, m, signed, a).1)
  {
    if signed && m.hashCheckpoint in s.chain.tree {
      var (valid, t) := Validated(s, m.hashCheckpoint);
      if valid {
        AdoptedMoves(s, m.hashCheckpoint, a);
      }
    }
  }

  lemma StoredMoves(s: State, b: Arrival)
    requires Known(s) && b.prev in s.chain.tree && b.hash !in s.chain.tree && b.hash != 0
    ensures Moves(s, Stored(s, b)) && (Pointed(s) ==> Pointed(Stored(s, b)))
    ensures forall a ::
      Descends(Stored(s, b).chain.tree, a, b.hash) <==> a == b.hash || Descends(s.chain.tree, a, b.prev)
  {
    AttachedGrows(s.chain.tree, b.hash, b.prev, b.trust);
    var t := Stored(s, b);
    hide Grown, Stored;
    if Pointed(s) {
      forall a | a in t.chain.next
        ensures var x := t.chain.next[a];
          x in t.chain.tree && t.chain.tree[x].pprev == Some(a) && Descends(t.chain.tree, x, t.chain.best)
      {
        DescentKept(s.chain.tree, t.chain.tree, s.chain.next[a], s.chain.best);
      }
    }
  }

  lemma AddedMoves(s: State, b: Arrival)
    requires Known(s) && b.prev in s.chain.tree && b.hash !in s.chain.tree && b.hash != 0
    ensures Moves(s, Added(s, b).1) && (Pointed(s) ==> Pointed(Added(s, b).1))
    ensures Added(s, b).1 == Stored(s, b).(chain := Added(s, b).1.chain)
    ensures Added(s, b).1.chain.tree == Stored(s, b).chain.tree
  {
    hide Switched, PointersOk, Stored, Descends, Grown;
    StoredMoves(s, b);
    var t := Stored(s, b);
    if Pointed(t) {
      SwitchedKeepsPointers(t.chain, b.hash, b.writes);
    }
  }

  lemma StepMoves(s: State, c: Config, e: Event)
    requires Known(s)
    ensures Moves(s, Step(s, c, e)) && (Announced(s) ==> Announced(Step(s, c, e)))
    ensures Pointed(s) ==> Pointed(Step(s, c, e))
  {
    match e
    case Announce(m, signed, a) => ProcessedMoves(s, m, signed, a);
    case Block(b, a) =>
      if Admitted(s, c, b) {
        hide Switched, PointersOk, Descends, Grown, PendingAccepted;
        AddedMoves(s, b);
        PendingMoves(Added(s, b).1, a);
      } else {
        StaysPut(s);
      }
  }

  lemma StaysPut(s: State)
    requires Known(s)
    ensures Moves(s, s)
  {
  }

  lemma MovesTwice(s: State, t: State, u: State)
    requires Moves(s, t) && Moves(t, u)
    ensures Moves(s, u)
  {
    DescentKept(t.chain.tree, u.chain.tree, s.sync, t.sync);
    DescendsTwice(u.chain.tree, s.sync, t.sync, u.sync);
  }

  // ---- the main chain ----

  /** Adopting a checkpoint keeps every block of the main chain below it there. */
  lemma AdoptedKeepsMain(s: State, h: Hash, a: Answers, x: Hash)
    requires Anchored(s) && Validated(s, h) == (true, s)
    requires x in s.chain.tree && InMain(s.chain, x) && Descends(s.chain.tree, x, s.sync)
    ensures Anchored(Adopted(s, h, a).1) && InMain(Adopted(s, h, a).1.chain, x)
  {
    hide Switched, PointersOk, Descends, Grown;
    AdoptedMoves(s, h, a);
    DescendsOn(s, h, x);
    SwitchedKeepsMain(s.chain, h, a.writes, x);
    SwitchedKeepsMain(s.chain, h, a.writes, s.sync);
  }

  lemma DescendsOn(s: State, h: Hash, x: Hash)
    requires Known(s) && Validated(s, h) == (true, s) && Descends(s.chain.tree, x, s.sync)
    ensures Descends(s.chain.tree, s.sync, h) && Descends(s.chain.tree, x, h)
  {
    DescendsTwice(s.chain.tree, x, s.sync, h);
  }

  lemma PendingKeepsMain(s: State, a: Answers, x: Hash)
    requires Anchored(s) && x in s.chain.tree && InMain(s.chain, x) && Descends(s.chain.tree, x, s.sync)
    ensures Anchored(PendingAccepted(s, a).1) && InMain(PendingAccepted(s, a).1.chain, x)
  {
    hide Descends, Grown, Adopted, PointersOk;
    if s.pending != 0 && s.pending in s.chain.tree && Validated(s, s.pending).0 {
      AdoptedKeepsMain(s, s.pending, a, x);
    }
  }

  lemma ProcessedKeepsMain(s: State, m: Message, signed: bool, a: Answers, x: Hash)
    requires Anchored(s) && x in s.chain.tree && InMain(s.chain, x) && Descends(s.chain.tree, x, s.sync)
    ensures Anchored(Processed(s, m, signed, a).1) && InMain(Processed(s, m, signed, a).1.chain, x)
  {
    hide Descends, Grown, Adopted, PointersOk;
    if signed && m.hashCheckpoint in s.chain.tree && Validated(s, m.hashCheckpoint).0 {
      AdoptedKeepsMain(s, m.hashCheckpoint, a, x);
    }
  }

  /** A block that is not known passes only as a descendant of the checkpoint. */
  lemma NewBlockPasses(s: State, c: Config, hash: Hash, prev: Hash)
    requires Known(s) && prev in s.chain.tree && hash !in s.chain.tree
    ensures Passes(s, c, hash, prev) <==> c.testNet || Descends(s.chain.tree, s.sync, prev)
  {
    if Descends(s.chain.tree, s.sync, prev) {
      AncestorLower(s.chain.tree, s.sync, prev);
    }
  }

  /** A block that descends from the checkpoint may become the best block: the main chain up to the checkpoint stays. */
  lemma AddedKeepsMain(s: State, b: Arrival, x: Hash)
    requires Anchored(s) && b.prev in s.chain.tree && b.hash !in s.chain.tree && b.hash != 0
    requires Descends(s.chain.tree, s.sync, b.prev)
    requires x in s.chain.tree && InMain(s.chain, x) && Descends(s.chain.tree, x, s.sync)
    ensures var t := Added(s, b).1;
      && Anchored(t) && t.sync == s.sync && x in t.chain.tree && InMain(t.chain, x)
      && Descends(t.chain.tree, x, t.sync) && b.hash in t.chain.tree && Descends(t.chain.tree, s.sync, b.hash)
  {
    hide Switched, PointersOk, Descends, Grown;
    StoredMoves(s, b);
    AddedMoves(s, b);
    DescendsTwice(s.chain.tree, x, s.sync, b.prev);
    var t := Stored(s, b);
    assert t.sync == s.sync && t.chain.tree == Added(s, b).1.chain.tree;
    assert InMain(t.chain, x) && InMain(t.chain, s.sync);
    DescentKept(s.chain.tree, t.chain.tree, x, s.sync);
    SwitchedKeepsMain(t.chain, b.hash, b.writes, x);
    SwitchedKeepsMain(t.chain, b.hash, b.writes, s.sync);
  }

  /** With checkpoints enforced, a step keeps the checkpoint and all the main chain below it in the main chain, and a
      block that it adds descends from the checkpoint. */
  lemma StepKeepsMain(s: State, c: Config, e: Event, x: Hash)
    requires Anchored(s) && c.enforced && !c.testNet
    requires x in s.chain.tree && InMain(s.chain, x) && Descends(s.chain.tree, x, s.sync)
    ensures var t := Step(s, c, e);
      && Anchored(t) && Moves(s, t) && InMain(t.chain, x)
      && forall h :: h in t.chain.tree && h !in s.chain.tree ==> Descends(t.chain.tree, s.sync, h)
  {
    hide Descends, Grown, PendingAccepted, Processed, Passes, Added, PointersOk;
    StepMoves(s, c, e);
    match e
    case Announce(m, signed, a) =>
      ProcessedMoves(s, m, signed, a);
      ProcessedKeepsMain(s, m, signed, a, x);
    case Block(b, a) =>
      if Admitted(s, c, b) {
        NewBlockPasses(s, c, b.hash, b.prev);
        AddedMoves(s, b);
        AddedKeepsMain(s, b, x);
        PendingMoves(Added(s, b).1, a);
        PendingKeepsMain(Added(s, b).1, a, x);
        AttachedHas(s.chain.tree, b.hash, b.prev, b.trust);
      }
  }

  // ---- runs ----

  /** The state after the first `k` events. */
  ghost function After(s: State, c: Config, es: seq<Event>, k: nat): (t: State)
    requires Known(s) && k <= |es|
    ensures Known(t)
  {
    if k == 0 then s
    else
      var t := After(s, c, es, k - 1);
      StepMoves(t, c, es[k - 1]);
      Step(t, c, es[k - 1])
  }

  /** The checkpoints of a run form one chain: each is the next one or an ancestor of it. */
  lemma {:induction false} CheckpointsChain(s: State, c: Config, es: seq<Event>, i: nat, j: nat)
    requires Known(s) && i <= j <= |es|
    ensures Moves(After(s, c, es, i), After(s, c, es, j))
  {
    hide Step, Descends, Grown;
    StaysPut(After(s, c, es, i));
    if i < j {
      CheckpointsChain(s, c, es, i, j - 1);
      StepMoves(After(s, c, es, j - 1), c, es[j - 1]);
      MovesTwice(After(s, c, es, i), After(s, c, es, j - 1), After(s, c, es, j));
    }
  }

  /** A block that `CheckSync` passes above the checkpoint descends from every checkpoint of the run so far. */
  lemma PassedDescendsFromAll(s: State, c: Config, es: seq<Event>, i: nat, j: nat, hash: Hash, prev: Hash)
    requires Known(s) && i <= j <= |es| && !c.testNet
    requires var t := After(s, c, es, j);
      prev in t.chain.tree && Passes(t, c, hash, prev) && t.chain.tree[prev].nHeight + 1 > t.chain.tree[t.sync].nHeight
    ensures Descends(After(s, c, es, j).chain.tree, After(s, c, es, i).sync, prev)
  {
    var t := After(s, c, es, j);
    CheckpointsChain(s, c, es, i, j);
    DescendsTwice(t.chain.tree, After(s, c, es, i).sync, t.sync, prev);
  }

  /** The messages always match the checkpoints. */
  lemma {:induction false} MessagesMatch(s: State, c: Config, es: seq<Event>, k: nat)
    requires Known(s) && Announced(s) && k <= |es|
    ensures Announced(After(s, c, es, k))
  {
    hide Step, Descends, Grown, Announced;
    if k > 0 {
      MessagesMatch(s, c, es, k - 1);
      StepMoves(After(s, c, es, k - 1), c, es[k - 1]);
    }
  }

  /** In every run, with checkpoints enforced or not, a block in the main chain is the best block or before it. */
  lemma {:induction false} MainChainLeadsToBest(s: State, c: Config, es: seq<Event>, k: nat, h: Hash)
    requires Pointed(s) && k <= |es| && InMain(After(s, c, es, k).chain, h)
    ensures var t := After(s, c, es, k);
      h in t.chain.tree && Descends(t.chain.tree, h, t.chain.best)
  {
    PointedThroughout(s, c, es, k);
    InMainDescends(After(s, c, es, k).chain, h);
  }

  lemma {:induction false} PointedThroughout(s: State, c: Config, es: seq<Event>, k: nat)
    requires Pointed(s) && k <= |es|
    ensures Pointed(After(s, c, es, k))
  {
    hide Step, PointersOk, Descends, Grown;
    if k > 0 {
      PointedThroughout(s, c, es, k - 1);
      StepMoves(After(s, c, es, k - 1), c, es[k - 1]);
    }
  }

  /** With checkpoints enforced, every checkpoint of the run so far is in the main chain by the code's own test, the
      best block descends from it, and so does every block added after the checkpoint was current. */
  lemma {:induction false} EnforcedRun(s: State, c: Config, es: seq<Event>, i: nat, j: nat)
    requires Anchored(s) && c.enforced && !c.testNet && i <= j <= |es|
    ensures Anchored(After(s, c, es, j))
    ensures InMain(After(s, c, es, j).chain, After(s, c, es, i).sync)
    ensures Descends(After(s, c, es, j).chain.tree, After(s, c, es, i).sync, After(s, c, es, j).chain.best)
    ensures var t, u := After(s, c, es, i), After(s, c, es, j);
      forall h :: h in u.chain.tree && h !in t.chain.tree ==> Descends(u.chain.tree, t.sync, h)
  {
    hide Step, Descends, Grown, Extends;
    var first, u := After(s, c, es, i), After(s, c, es, j);
    if i < j {
      var t := After(s, c, es, j - 1);
      EnforcedRun(s, c, es, i, j - 1);
      CheckpointsChain(s, c, es, i, j - 1);
      KnownLater(first, t);
      StepKeepsMain(t, c, es[j - 1], first.sync);
      forall h | h in u.chain.tree && h !in first.chain.tree ensures Descends(u.chain.tree, first.sync, h) {
        NewInRun(first, t, u, h);
      }
    } else {
      AnchoredThroughout(s, c, es, j);
    }
    InMainDescends(u.chain, first.sync);
  }

  lemma KnownLater(s: State, t: State)
    requires Moves(s, t)
    ensures s.sync in t.chain.tree
  {
  }

  lemma NewInRun(s: State, t: State, u: State, h: Hash)
    requires Moves(s, t) && Moves(t, u) && h in u.chain.tree
    requires h in t.chain.tree ==> Descends(t.chain.tree, s.sync, h)
    requires h !in t.chain.tree ==> Descends(u.chain.tree, t.sync, h)
    ensures Descends(u.chain.tree, s.sync, h)
  {
    if h in t.chain.tree {
      DescentKept(t.chain.tree, u.chain.tree, s.sync, h);
    } else {
      DescentKept(t.chain.tree, u.chain.tree, s.sync, t.sync);
      DescendsTwice(u.chain.tree, s.sync, t.sync, h);
    }
  }

  lemma BeforeItself(t: Tree, h: Hash)
    requires Grown(t) && h in t
    ensures Descends(t, h, h)
  {
  }

  lemma {:induction false} AnchoredThroughout(s: State, c: Config, es: seq<Event>, k: nat)
    requires Anchored(s) && c.enforced && !c.testNet && k <= |es|
    ensures Anchored(After(s, c, es, k))
  {
    hide Step, Descends, Grown, Extends;
    if k > 0 {
      AnchoredThroughout(s, c, es, k - 1);
      var t := After(s, c, es, k - 1);
      assert Descends(t.chain.tree, t.sync, t.sync) by { BeforeItself(t.chain.tree, t.sync); }
      StepKeepsMain(t, c, es[k - 1], t.sync);
    }
  }

  /** A checkpoint message is taken exactly when it is signed, names a strict descendant of the current
      checkpoint, and the block is in the main chain already or the disk lets the main chain move there. */
  lemma AdoptedExactly(s: State, m: Message, signed: bool, a: Answers)
    requires Known(s)
    ensures var h, tree := m.hashCheckpoint, s.chain.tree;
      Processed(s, m, signed, a).0 <==>
        && signed && h in tree && h != s.sync && Descends(tree, s.sync, h)
        && (InMain(s.chain, h) || (a.readOk && a.writes.ok && Related(tree, s.chain.best, h)))
        && a.writeOk && a.commitOk
    ensures var (ok, t) := Processed(s, m, signed, a);
      if ok then t.sync == m.hashCheckpoint && InMain(t.chain, t.sync) else t.sync == s.sync
  {
    hide Switched, Related, Descends, Grown;
    if m.hashCheckpoint in s.chain.tree {
      SwitchedSucceeds(s.chain, m.hashCheckpoint, a.writes);
    }
  }

  /** What a new node starts with. */
  lemma NewNodeAnchored(genesis: Hash, trust: nat)
    requires genesis != 0
    ensures var chain := Chain(map[genesis := Index(None, 0, trust)], genesis, map[]);
      var s := State(chain, genesis, 0, 0, NULL_MESSAGE, NULL_MESSAGE);
      Anchored(s) && Announced(s)
  {
  }

  /** The code goes through the states of the run; enforced checkpoints stay in its main chain. */
  method Drive(node: SyncCheckpoints, es: seq<Event>)
    requires Known(node.View())
    requires forall i :: 0 <= i < |es| && es[i].Block? ==> es[i].arrival.hash != 0
    modifies node
    ensures node.View() == After(old(node.View()), node.config, es, |es|)
    ensures Anchored(old(node.View())) && node.config.enforced && !node.config.testNet ==>
      Anchored(node.View()) && node.IsInMainChain(old(node.hashSyncCheckpoint))
  {
    hide Known, Processed, Arrived;
    for i := 0 to |es|
      invariant node.View() == After(old(node.View()), node.config, es, i)
    {
      match es[i]
      case Block(arrival, answers) => var _ := node.AcceptBlock(arrival, answers);
      case Announce(message, signed, answers) => var _ := node.ProcessSyncCheckpoint(message, signed, answers);
    }
    if Anchored(old(node.View())) && node.config.enforced && !node.config.testNet {
      EnforcedRun(old(node.View()), node.config, es, 0, |es|);
    }
  }
}
