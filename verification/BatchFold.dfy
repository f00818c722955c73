/**
 A batch against single connects: committing a batch at once leaves the store
 that connecting its blocks one at a time leaves, or refuses when that does.
 */
module BatchFold {
  import opened Basics
  import opened Coins
  import opened Blocks
  import opened Connect
  import opened Batch
  import opened BatchCommit
  import opened Reorg

  // ----- Early structure checks -----

  /** A structure checked beforehand or on the way connects alike. */
  lemma PrevalidationIsEarly(view: Utxos, c: Candidate, rules: BlockRules)
    requires StructureError(c, rules) == None
    ensures ConnectOne(view, c, true, rules) == ConnectOne(view, c, false, rules)
  {
    hide ExecBlock, ScriptFailure, Bip30, StructureError;
  }

  lemma {:induction false} SeqConnectsAlike(base: Utxos, cs: seq<Candidate>, n: nat, prevalidated: bool,
                                            rules: BlockRules)
    requires n <= |cs| && Prevalidated(cs, prevalidated, rules)
    ensures SeqConnect(base, cs, n, prevalidated, rules) == SeqConnect(base, cs, n, false, rules)
  {
    hide ConnectOne, StructureError;
    if n > 0 && prevalidated {
      SeqConnectsAlike(base, cs, n - 1, prevalidated, rules);
      var before := SeqConnect(base, cs, n - 1, prevalidated, rules);
      if before.Ok? { PrevalidationIsEarly(before.value.view, cs[n - 1], rules); }
    }
  }

  lemma FreshAlike(base: Utxos, cs: seq<Candidate>, prevalidated: bool, rules: BlockRules)
    requires Prevalidated(cs, prevalidated, rules) && BatchFresh(base, cs, prevalidated, rules)
    ensures BatchFresh(base, cs, false, rules)
  {
    hide SeqConnect, FreshCandidate, StructureError;
    forall n | 0 <= n < |cs| && SeqConnect(base, cs, n, false, rules).Ok?
      ensures FreshCandidate(SeqConnect(base, cs, n, false, rules).value.view, cs[n])
    {
      SeqConnectsAlike(base, cs, n, prevalidated, rules);
    }
  }

  // ----- One block at a time -----

  /** The store after the first `n` blocks connected one at a time, or why one was refused. */
  function ConnectEach(s: Store, cs: seq<Candidate>, n: nat, rules: BlockRules): (r: Result<Store, StoreError>)
    requires n <= |cs| && BatchFresh(s.utxos, cs, false, rules)
    ensures r.Ok? ==> SeqConnect(s.utxos, cs, n, false, rules).Ok?
                      && r.value.utxos == SeqConnect(s.utxos, cs, n, false, rules).value.view
  {
    if n == 0 then Ok(s)
    else match ConnectEach(s, cs, n - 1, rules)
      case Err(e) => Err(e)
      case Ok(before) => Connected(before, cs[n - 1], rules)
  }

  lemma {:induction false} InsertPrefix(undos: map<nat, seq<Undo>>, rows: seq<UndoRow>, row: UndoRow, n: nat)
    requires n <= |rows|
    ensures InsertUndos(undos, rows + [row], n) == InsertUndos(undos, rows, n)
  {
    if n > 0 { InsertPrefix(undos, rows, row, n - 1); }
  }

  /** Committing one more row is committing the rows before, then one block. */
  lemma CommitOneMore(s: Store, rows: seq<UndoRow>, row: UndoRow, view: Utxos, next: Utxos)
    ensures Committed(s, rows + [row], next) ==
            match Committed(s, rows, view)
            case Err(e) => Err(e)
            case Ok(before) =>
              if row.hash in before.undos then Err(UndoExists(row.hash))
              else Ok(Store(next, Tip(before.tip.height + 1, row.hash), before.undos[row.hash := row.undos]))
  {
    InsertPrefix(s.undos, rows, row, |rows|);
  }

  /** One more block of a sequential connection. */
  lemma NextBlock(base: Utxos, cs: seq<Candidate>, n: nat, rules: BlockRules)
    requires n < |cs| && BatchFresh(base, cs, false, rules) && SeqConnect(base, cs, n + 1, false, rules).Ok?
    ensures SeqConnect(base, cs, n, false, rules).Ok?
    ensures var before := SeqConnect(base, cs, n, false, rules).value;
            var after := SeqConnect(base, cs, n + 1, false, rules).value;
            && FreshCandidate(before.view, cs[n])
            && ConnectOne(before.view, cs[n], false, rules) == Ok(after.ready[n])
            && after == Chain(after.ready[n].run.view, before.ready + [after.ready[n]])
  {
    hide ConnectOne, FreshCandidate;
  }

  /** That block with its undo row. */
  lemma RowsStep(base: Utxos, cs: seq<Candidate>, n: nat, rules: BlockRules)
    requires n < |cs| && BatchFresh(base, cs, false, rules) && SeqConnect(base, cs, n + 1, false, rules).Ok?
    requires AllResolved(SeqConnect(base, cs, n, false, rules).value.ready)
    ensures var before := SeqConnect(base, cs, n, false, rules).value;
            var after := SeqConnect(base, cs, n + 1, false, rules).value;
            && AllResolved(after.ready)
            && FreshCandidate(before.view, cs[n])
            && ConnectOne(before.view, cs[n], false, rules) == Ok(after.ready[n])
            && after.view == after.ready[n].run.view
            && DoneResolved(after.ready[n].run.done)
            && RowsOf(cs[..n + 1], after.ready) ==
               RowsOf(cs[..n], before.ready) + [UndoRow(cs[n].block.hash, BlockUndos(after.ready[n]))]
  {
    hide ConnectOne, FreshCandidate, Resolved, BlockUndos, RowsOf, AllResolved, SeqConnect, BatchFresh;
    NextBlock(base, cs, n, rules);
    var before, after := SeqConnect(base, cs, n, false, rules).value, SeqConnect(base, cs, n + 1, false, rules).value;
    ReadyResolved(before.view, cs[n], rules);
    assert DoneResolved(after.ready[n].run.done);
    RowsAppend(cs[..n], before.ready, cs[n], after.ready[n]);
    assert cs[..n + 1] == cs[..n] + [cs[n]];
  }

  lemma RowsAppend(cs: seq<Candidate>, ready: seq<Ready>, c: Candidate, last: Ready)
    requires |ready| == |cs| && AllResolved(ready) && DoneResolved(last.run.done)
    ensures AllResolved(ready + [last])
    ensures RowsOf(cs + [c], ready + [last]) == RowsOf(cs, ready) + [UndoRow(c.block.hash, BlockUndos(last))]
  {
    hide Resolved, UndoOf;
    forall k | 0 <= k < |ready| + 1 ensures DoneResolved((ready + [last])[k].run.done) {
      if k < |ready| { assert DoneResolved(ready[k].run.done); }
    }
  }

  /** As far as sequential connection gets, one at a time gives what committing at once gives. */
  lemma {:induction false} EachIsCommitted(s: Store, cs: seq<Candidate>, n: nat, rules: BlockRules)
    requires n <= |cs| && BatchFresh(s.utxos, cs, false, rules)
    ensures match SeqConnect(s.utxos, cs, n, false, rules)
            case Err(e) =>
              ConnectEach(s, cs, n, rules).Err?
              && (ConnectEach(s, cs, n, rules).error == BlockRejected(e)
                  || ConnectEach(s, cs, n, rules).error.UndoExists?)
            case Ok(chain) =>
              AllResolved(chain.ready)
              && ConnectEach(s, cs, n, rules) == Committed(s, RowsOf(cs[..n], chain.ready), chain.view)
  {
    hide ConnectOne, FreshCandidate, BatchFresh, RowsOf, Committed, AllResolved, BlockUndos, Resolved;
    if n == 0 {
      NothingCommitted(s, cs, rules);
    } else {
      EachIsCommitted(s, cs, n - 1, rules);
      var before := SeqConnect(s.utxos, cs, n - 1, false, rules);
      if SeqConnect(s.utxos, cs, n, false, rules).Ok? {
        RowsStep(s.utxos, cs, n - 1, rules);
        var ready := SeqConnect(s.utxos, cs, n, false, rules).value.ready[n - 1];
        var row := UndoRow(cs[n - 1].block.hash, BlockUndos(ready));
        CommitOneMore(s, RowsOf(cs[..n - 1], before.value.ready), row, before.value.view, ready.run.view);
      } else if before.Ok? {
        CommitRefusal(s, RowsOf(cs[..n - 1], before.value.ready), before.value.view);
      }
    }
  }

  lemma CommitRefusal(s: Store, rows: seq<UndoRow>, view: Utxos)
    ensures Committed(s, rows, view).Err? ==> Committed(s, rows, view).error.UndoExists?
  {
  }

  lemma NothingCommitted(s: Store, cs: seq<Candidate>, rules: BlockRules)
    ensures AllResolved([]) && Committed(s, RowsOf(cs[..0], []), s.utxos) == Ok(s)
  {
  }

  // ----- The batch -----

  /** The store after a batch, committed at once, or why it is refused. */
  function BatchConnected(s: Store, cs: seq<Candidate>, prevalidated: bool,
                          rules: BlockRules): Result<Store, StoreError>
    requires Prevalidated(cs, prevalidated, rules) && BatchFresh(s.utxos, cs, prevalidated, rules)
  {
    match SeqConnect(s.utxos, cs, |cs|, prevalidated, rules)
    case Err(e) => Err(BlockRejected(e))
    case Ok(chain) =>
      BatchResolved(s.utxos, cs, prevalidated, rules);
      Committed(s, RowsOf(cs, chain.ready), chain.view)
  }

  lemma BatchResolved(base: Utxos, cs: seq<Candidate>, prevalidated: bool, rules: BlockRules)
    requires Prevalidated(cs, prevalidated, rules) && BatchFresh(base, cs, prevalidated, rules)
    requires SeqConnect(base, cs, |cs|, prevalidated, rules).Ok?
    ensures AllResolved(SeqConnect(base, cs, |cs|, prevalidated, rules).value.ready)
  {
    hide SeqConnect, BatchFresh, Prevalidated, DoneResolved, FreshCandidate, Prepare;
    forall k | 0 <= k < |cs|
      ensures DoneResolved(SeqConnect(base, cs, |cs|, prevalidated, rules).value.ready[k].run.done)
    {
      ReadyAt(base, cs, k, prevalidated, rules);
    }
  }

  /** No block of the batch has been here before. */
  predicate NewHashes(s: Store, cs: seq<Candidate>) {
    && (forall i | 0 <= i < |cs| :: cs[i].block.hash !in s.undos)
    && (forall i, j | 0 <= i < j < |cs| :: cs[i].block.hash != cs[j].block.hash)
  }

  /** One at a time, only the hashes of the connected blocks are added. */
  lemma {:induction false} NoHashRefused(s: Store, cs: seq<Candidate>, n: nat, rules: BlockRules)
    requires n <= |cs| && BatchFresh(s.utxos, cs, false, rules) && NewHashes(s, cs)
    ensures var r := ConnectEach(s, cs, n, rules);
            && (r.Err? ==> r.error.BlockRejected?)
            && (r.Ok? ==> forall i | n <= i < |cs| :: cs[i].block.hash !in r.value.undos)
  {
    hide ConnectOne, FreshCandidate, BatchFresh, SeqConnect, BlockUndos;
    if n > 0 { NoHashRefused(s, cs, n - 1, rules); }
  }

  /**
   A batch is its blocks one at a time: it goes through exactly when they do
   and leaves the same store.  The reported error is the same too, unless a
   repeated hash stops the single connects before a block that is rejected,
   which batches of new blocks do not have.
   */
  lemma BatchIsFold(s: Store, cs: seq<Candidate>, prevalidated: bool, rules: BlockRules)
    requires Prevalidated(cs, prevalidated, rules) && BatchFresh(s.utxos, cs, prevalidated, rules)
    ensures BatchFresh(s.utxos, cs, false, rules)
    ensures var batch, each := BatchConnected(s, cs, prevalidated, rules), ConnectEach(s, cs, |cs|, rules);
            && (batch.Ok? <==> each.Ok?)
            && (batch == each <==> !(each.Err? && each.error.UndoExists? && batch.error.BlockRejected?))
            && (NewHashes(s, cs) ==> batch == each)
  {
    hide SeqConnect, BatchFresh, Prevalidated, RowsOf, Committed, AllResolved, ConnectEach, NewHashes;
    FreshAlike(s.utxos, cs, prevalidated, rules);
    SeqConnectsAlike(s.utxos, cs, |cs|, prevalidated, rules);
    EachIsCommitted(s, cs, |cs|, rules);
    assert cs[..|cs|] == cs;
    if NewHashes(s, cs) { NoHashRefused(s, cs, |cs|, rules); }
  }
}
