/**
 Runs of single connects, batches, disconnects and undo pruning: whatever
 happened before, the coins are those of replaying the current chain.
 */
module ReorgRuns {
  import opened Basics
  import opened Coins
  import opened Blocks
  import opened Connect
  import opened Reorg
  import opened Batch
  import opened BatchFold

  datatype Event =
    | ConnectBlock(c: Candidate)
    | ConnectBlocks(cs: seq<Candidate>, prevalidated: bool)
    | DisconnectBlock
    | PruneUndo(hash: nat)

  /** A store together with the blocks connected above its base. */
  datatype Node = Node(store: Store, chain: seq<Candidate>)

  function TipOf(base: Tip, chain: seq<Candidate>): Tip {
    if chain == [] then base else Tip(base.height + |chain|, chain[|chain| - 1].block.hash)
  }

  predicate DistinctHashes(chain: seq<Candidate>) {
    forall i, j | 0 <= i < j < |chain| :: chain[i].block.hash != chain[j].block.hash
  }

  /** A connect meets the freshness contract, and a header chain never repeats a hash. */
  ghost predicate Admissible(n: Node, e: Event, rules: BlockRules) {
    match e
    case ConnectBlock(c) => FreshCandidate(n.store.utxos, c) && DistinctHashes(n.chain + [c])
    case ConnectBlocks(cs, prevalidated) =>
      && Prevalidated(cs, prevalidated, rules) && BatchFresh(n.store.utxos, cs, prevalidated, rules)
      && DistinctHashes(n.chain + cs)
    case _ => true
  }

  /** What an event does; a refused movement changes nothing. */
  function Step(base: Tip, n: Node, e: Event, rules: BlockRules): Node
    requires Admissible(n, e, rules)
  {
    match e
    case ConnectBlock(c) =>
      (match Connected(n.store, c, rules)
       case Err(_) => n
       case Ok(next) => Node(next, n.chain + [c]))
    case ConnectBlocks(cs, prevalidated) =>
      (match BatchConnected(n.store, cs, prevalidated, rules)
       case Err(_) => n
       case Ok(next) => Node(next, n.chain + cs))
    case DisconnectBlock =>
      if n.chain == [] then n
      else
        var rest := n.chain[..|n.chain| - 1];
        (match Disconnected(n.store, TipOf(base, rest))
         case None => n
         case Some(next) => Node(next, rest))
    case PruneUndo(hash) => Node(n.store.(undos := n.store.undos - {hash}), n.chain)
  }

  /** Sequential replay of a chain from a coin set. */
  function Replay(start: Utxos, chain: seq<Candidate>, rules: BlockRules): Option<Utxos> {
    if chain == [] then Some(start)
    else
      var last := chain[|chain| - 1];
      match Replay(start, chain[..|chain| - 1], rules)
      case None => None
      case Some(view) =>
        match ConnectOne(view, last, false, rules)
        case Err(_) => None
        case Ok(ready) => Some(ready.run.view)
  }

  /** The coins before the last block, and the undo records connecting it left. */
  ghost predicate LastBlockUndo(start: Utxos, chain: seq<Candidate>, undos: seq<Undo>, rules: BlockRules)
    requires chain != []
  {
    var last := chain[|chain| - 1];
    var before := Replay(start, chain[..|chain| - 1], rules);
    && before.Some?
    && FreshCandidate(before.value, last)
    && ConnectOne(before.value, last, false, rules).Ok?
    && var ready := ConnectOne(before.value, last, false, rules).value;
       && (forall i | 0 <= i < |ready.run.done| :: Resolved(ready.run.done[i]))
       && undos == BlockUndos(ready)
  }

  function Hashes(chain: seq<Candidate>): set<nat> {
    set i | 0 <= i < |chain| :: chain[i].block.hash
  }

  /** The store agrees with its chain: coins by replay, tip, and undo records of its own blocks only. */
  ghost predicate Sound(start: Utxos, base: Tip, n: Node, rules: BlockRules) {
    && Replay(start, n.chain, rules) == Some(n.store.utxos)
    && n.store.tip == TipOf(base, n.chain)
    && DistinctHashes(n.chain) && n.store.undos.Keys <= Hashes(n.chain)
    && (forall i | 0 <= i < |n.chain| && n.chain[i].block.hash in n.store.undos ::
          LastBlockUndo(start, n.chain[..i + 1], n.store.undos[n.chain[i].block.hash], rules))
  }

  /** Replay and undo records of a chain extended by one block. */
  lemma OneMoreBlock(start: Utxos, chain: seq<Candidate>, view: Utxos, c: Candidate, rules: BlockRules)
    requires Replay(start, chain, rules) == Some(view) && FreshCandidate(view, c)
    requires ConnectOne(view, c, false, rules).Ok?
    ensures var ready := ConnectOne(view, c, false, rules).value;
            && (forall i | 0 <= i < |ready.run.done| :: Resolved(ready.run.done[i]))
            && Replay(start, chain + [c], rules) == Some(ready.run.view)
            && LastBlockUndo(start, chain + [c], BlockUndos(ready), rules)
  {
    hide ConnectOne, FreshCandidate, Resolved, UndoOf;
    ReadyResolved(view, c, rules);
    assert (chain + [c])[..|chain|] == chain;
  }

  lemma HashesExtend(chain: seq<Candidate>, c: Candidate)
    ensures Hashes(chain + [c]) == Hashes(chain) + {c.block.hash}
  {
    assert (chain + [c])[|chain|] == c;
    forall i | 0 <= i < |chain| ensures chain[i].block.hash in Hashes(chain + [c]) {
      assert (chain + [c])[i] == chain[i];
    }
  }

  lemma ConnectStaysSound(start: Utxos, base: Tip, n: Node, c: Candidate, rules: BlockRules)
    requires Sound(start, base, n, rules) && Admissible(n, ConnectBlock(c), rules)
    ensures Sound(start, base, Step(base, n, ConnectBlock(c), rules), rules)
  {
    hide ConnectOne, FreshCandidate, Resolved, BlockUndos, LastBlockUndo, Replay;
    if Connected(n.store, c, rules).Ok? {
      OneMoreBlock(start, n.chain, n.store.utxos, c, rules);
      var chain, undos := n.chain + [c], Connected(n.store, c, rules).value.undos;
      forall i | 0 <= i < |chain| && chain[i].block.hash in undos
        ensures LastBlockUndo(start, chain[..i + 1], undos[chain[i].block.hash], rules)
      {
        if i < |n.chain| { assert chain[i].block.hash != chain[|n.chain|].block.hash; }
        assert chain[..i + 1] == if i < |n.chain| then n.chain[..i + 1] else chain;
      }
      HashesExtend(n.chain, c);
    }
  }

  /** The first `k` blocks of a batch, connected one at a time, keep a store sound. */
  lemma {:induction false} EachStaysSound(start: Utxos, base: Tip, n: Node, cs: seq<Candidate>, k: nat,
                                          rules: BlockRules)
    requires Sound(start, base, n, rules) && k <= |cs| && BatchFresh(n.store.utxos, cs, false, rules)
    requires DistinctHashes(n.chain + cs) && ConnectEach(n.store, cs, k, rules).Ok?
    ensures Sound(start, base, Node(ConnectEach(n.store, cs, k, rules).value, n.chain + cs[..k]), rules)
  {
    hide Sound, Connected, FreshCandidate, SeqConnect;
    if k == 0 {
      assert n.chain + cs[..0] == n.chain;
    } else {
      EachStaysSound(start, base, n, cs, k - 1, rules);
      var before := Node(ConnectEach(n.store, cs, k - 1, rules).value, n.chain + cs[..k - 1]);
      assert before.chain + [cs[k - 1]] == n.chain + cs[..k] == (n.chain + cs)[..|n.chain| + k];
      ConnectStaysSound(start, base, before, cs[k - 1], rules);
    }
  }

  lemma BatchStaysSound(start: Utxos, base: Tip, n: Node, cs: seq<Candidate>, prevalidated: bool, rules: BlockRules)
    requires Sound(start, base, n, rules) && Admissible(n, ConnectBlocks(cs, prevalidated), rules)
    ensures Sound(start, base, Step(base, n, ConnectBlocks(cs, prevalidated), rules), rules)
  {
    hide Sound, BatchFresh, Prevalidated, BatchConnected, ConnectEach, DistinctHashes;
    BatchIsFold(n.store, cs, prevalidated, rules);
    if BatchConnected(n.store, cs, prevalidated, rules).Ok? {
      EachStaysSound(start, base, n, cs, |cs|, rules);
      assert cs[..|cs|] == cs;
    }
  }

  /** The tip of a sound store can be disconnected exactly when its undo records were kept. */
  lemma DisconnectExactlyWhenRetained(start: Utxos, base: Tip, n: Node, parent: Tip, rules: BlockRules)
    requires Sound(start, base, n, rules) && n.chain != []
    ensures Disconnected(n.store, parent).Some? <==> n.store.tip.hash in n.store.undos
    ensures Disconnected(n.store, parent).Some? ==>
              Replay(start, n.chain[..|n.chain| - 1], rules) == Some(Disconnected(n.store, parent).value.utxos)
  {
    hide ConnectOne, FreshCandidate, Resolved, UndoOf, Revertible, RevertAll, Sound;
    var last := |n.chain| - 1;
    SoundTip(start, base, n, rules);
    if n.store.tip.hash in n.store.undos {
      var before := Replay(start, n.chain[..last], rules).value;
      ReadyResolved(before, n.chain[last], rules);
      DisconnectInvertsConnect(before, n.chain[last], false, rules);
    }
  }

  /** What a sound store says about its tip. */
  lemma SoundTip(start: Utxos, base: Tip, n: Node, rules: BlockRules)
    requires Sound(start, base, n, rules) && n.chain != []
    ensures n.store.tip == TipOf(base, n.chain) && n.store.tip.height > 0
    ensures Replay(start, n.chain, rules) == Some(n.store.utxos)
    ensures n.store.tip.hash in n.store.undos ==>
              LastBlockUndo(start, n.chain, n.store.undos[n.store.tip.hash], rules)
  {
    hide Replay, LastBlockUndo, DistinctHashes, Hashes;
    var last := |n.chain| - 1;
    assert n.chain[..last + 1] == n.chain;
    assert n.store.tip.hash == n.chain[last].block.hash;
  }

  lemma DisconnectStaysSound(start: Utxos, base: Tip, n: Node, rules: BlockRules)
    requires Sound(start, base, n, rules)
    ensures Sound(start, base, Step(base, n, DisconnectBlock, rules), rules)
  {
    hide LastBlockUndo, Replay, Revertible, RevertAll, Sound;
    if n.chain != [] {
      var rest := n.chain[..|n.chain| - 1];
      SoundTip(start, base, n, rules);
      DisconnectExactlyWhenRetained(start, base, n, TipOf(base, rest), rules);
      var next := Disconnected(n.store, TipOf(base, rest));
      if next.Some? { ShorterIsSound(start, base, n, next.value, rules); }
    }
  }

  /** A store that agrees with all but the last block, and kept no more than the others' undo records. */
  lemma ShorterIsSound(start: Utxos, base: Tip, n: Node, next: Store, rules: BlockRules)
    requires Sound(start, base, n, rules) && n.chain != []
    requires var rest := n.chain[..|n.chain| - 1];
             && Replay(start, rest, rules) == Some(next.utxos) && next.tip == TipOf(base, rest)
             && next.undos == n.store.undos - {n.chain[|n.chain| - 1].block.hash}
    ensures Sound(start, base, Node(next, n.chain[..|n.chain| - 1]), rules)
  {
    hide LastBlockUndo, Replay, Hashes;
    var last := |n.chain| - 1;
    var rest := n.chain[..last];
    forall i | 0 <= i < |rest| && rest[i].block.hash in next.undos
      ensures LastBlockUndo(start, rest[..i + 1], next.undos[rest[i].block.hash], rules)
    {
      assert rest[..i + 1] == n.chain[..i + 1];
    }
    assert n.chain == rest + [n.chain[last]];
    HashesExtend(rest, n.chain[last]);
  }

  lemma StepStaysSound(start: Utxos, base: Tip, n: Node, e: Event, rules: BlockRules)
    requires Sound(start, base, n, rules) && Admissible(n, e, rules)
    ensures Sound(start, base, Step(base, n, e, rules), rules)
  {
    hide LastBlockUndo, Replay, Connected, Disconnected, FreshCandidate, BatchConnected, BatchFresh;
    match e {
      case ConnectBlock(c) => ConnectStaysSound(start, base, n, c, rules);
      case ConnectBlocks(cs, prevalidated) => BatchStaysSound(start, base, n, cs, prevalidated, rules);
      case DisconnectBlock => DisconnectStaysSound(start, base, n, rules);
      case PruneUndo(hash) =>
    }
  }

  /** A run of admissible events. */
  ghost predicate IsRun(base: Tip, nodes: seq<Node>, events: seq<Event>, rules: BlockRules) {
    && |nodes| == |events| + 1
    && forall i | 0 <= i < |events| ::
         Admissible(nodes[i], events[i], rules) && nodes[i + 1] == Step(base, nodes[i], events[i], rules)
  }

  /**
   Path independence: after any run of single connects, batches, disconnects
   and prunings, the coins are exactly those of replaying the current chain
   from the start.
   */
  lemma {:induction false} CoinsDependOnlyOnTheChain(
      start: Utxos, base: Tip, nodes: seq<Node>, events: seq<Event>, k: nat, rules: BlockRules)
    requires IsRun(base, nodes, events, rules) && k <= |events|
    requires nodes[0] == Node(Store(start, base, map[]), [])
    ensures Sound(start, base, nodes[k], rules)
    ensures Replay(start, nodes[k].chain, rules) == Some(nodes[k].store.utxos)
  {
    hide Step, Admissible;
    if k > 0 {
      CoinsDependOnlyOnTheChain(start, base, nodes, events, k - 1, rules);
      StepStaysSound(start, base, nodes[k - 1], events[k - 1], rules);
    }
  }
}
