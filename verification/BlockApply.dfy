/**
 Applying a block to an overlay, one transaction at a time, rolling back every
 applied transaction when anything fails; and disconnecting one.
 */
module BlockApply {
  import opened Basics
  import opened Coins
  import opened Transactions
  import opened Blocks
  import opened Overlay
  import opened Connect

  /** What the overlay answers for each input; a coinbase resolves nothing. */
  method ResolveInputs(overlay: UtxoOverlay, tx: Tx) returns (resolved: seq<Option<Coin>>)
    requires overlay.Valid()
    modifies overlay.shards
    ensures overlay.Valid() && overlay.View() == old(overlay.View())
    ensures |resolved| == |tx.inputs|
    ensures !IsCoinbase(tx) ==> resolved == Resolve(overlay.View(), tx.inputs)
    ensures !IsCoinbase(tx) ==> forall i | 0 <= i < |tx.inputs| :: overlay.Cached(tx.inputs[i].prevout)
  {
    hide UtxoOverlay.Valid, UtxoOverlay.At, UtxoOverlay.Cached, UtxoOverlay.View;
    if IsCoinbase(tx) { return [None]; }
    ghost var view := overlay.View();
    resolved := [];
    for n := 0 to |tx.inputs|
      invariant overlay.Valid() && overlay.View() == view && |resolved| == n
      invariant forall i | 0 <= i < n :: resolved[i] == Get(view, tx.inputs[i].prevout)
      invariant forall i | 0 <= i < n :: overlay.Cached(tx.inputs[i].prevout)
    {
      var found := overlay.Load(tx.inputs[n].prevout);
      resolved := resolved + [found];
    }
  }

  /** A coinbase is checked without its inputs. */
  lemma CoinbaseIgnoresInputs(tx: Tx, a: seq<Option<Coin>>, b: seq<Option<Coin>>, env: Env, rules: Rules)
    requires IsCoinbase(tx) && |a| == |b| == 1
    ensures PrepareResolved(tx, a, env, rules) == PrepareResolved(tx, b, env, rules)
  {
  }

  /** Every output a transaction creates is absent, or spent by the transaction itself. */
  predicate FreshOrSpent(view: Utxos, tx: Tx) {
    forall o | o in CreatedKeys(tx) && o in view :: !IsCoinbase(tx) && o in Outpoints(tx.inputs)
  }

  /** Nothing about a passing check on fresh outputs can be refused by a store. */
  lemma PreparedIsApplicable(view: Utxos, tx: Tx, env: Env, rules: Rules)
    requires PrepareTx(view, tx, env, rules).Ok? && FreshOrSpent(view, tx)
    ensures var p := PrepareTx(view, tx, env, rules).value;
            && ApplyError(view, p.spent, p.created) == None
            && (forall i | 0 <= i < |p.created| :: p.created[i].0 !in view || p.created[i].0 in p.spent)
  {
    PreparedFacts(view, tx, env, rules);
    CreatedFromKeys(tx, 0, env, IsCoinbase(tx));
    var p := PrepareTx(view, tx, env, rules).value;
    hide PrepareTx, CreatedKeys, CreatedFrom;
    NoSpendError(view, p.spent, p.prevouts, |p.spent|);
    NoCreateError(view, ToSet(p.spent), p.created, |p.created|);
  }

  lemma {:induction false} NoSpendError(view: Utxos, spent: seq<OutPoint>, prevouts: seq<Coin>, n: nat)
    requires |spent| == |prevouts| && n <= |spent|
    requires forall i | 0 <= i < |spent| :: Get(view, spent[i]) == Some(prevouts[i])
    requires forall i, j | 0 <= i < j < |spent| :: spent[i] != spent[j]
    ensures SpendError(view, spent, n) == None
  {
    if n > 0 {
      NoSpendError(view, spent, prevouts, n - 1);
      assert Get(view, spent[n - 1]).Some?;
    }
  }

  lemma {:induction false} NoCreateError(view: Utxos, spent: set<OutPoint>, created: seq<(OutPoint, Coin)>, n: nat)
    requires n <= |created|
    requires forall i | 0 <= i < |created| :: created[i].0 !in view || created[i].0 in spent
    requires forall i, j | 0 <= i < j < |created| :: created[i].0.vout < created[j].0.vout
    ensures CreateError(view, spent, created, n) == None
  {
    if n > 0 { NoCreateError(view, spent, created, n - 1); }
  }

  /** Checks one transaction against the overlay and applies it; the outcome is that of checking the view. */
  method ApplyTransaction(overlay: UtxoOverlay, tx: Tx, env: Env, rules: Rules)
    returns (r: Result<(Prepared, Undo), TxError>)
    requires overlay.Valid() && FreshOrSpent(overlay.View(), tx)
    modifies overlay.shards
    ensures overlay.Valid()
    ensures match PrepareTx(old(overlay.View()), tx, env, rules)
            case Err(e) => r == Err(e) && overlay.View() == old(overlay.View())
            case Ok(p) => Resolved(p) && r == Ok((p, UndoOf(p))) && overlay.View() == After(old(overlay.View()), p)
  {
    hide UtxoOverlay.Valid, UtxoOverlay.At, UtxoOverlay.Cached, UtxoOverlay.View, CreatedKeys, PrepareResolved, UndoOf;
    hide ApplyError, Change;
    ghost var view := overlay.View();
    var resolved := ResolveInputs(overlay, tx);
    if IsCoinbase(tx) { CoinbaseIgnoresInputs(tx, resolved, Resolve(view, tx.inputs), env, rules); }
    var prepared := PrepareTransaction(tx, resolved, env, rules);
    assert prepared == PrepareTx(view, tx, env, rules);
    if prepared.Err? { return Err(prepared.error); }
    PreparedFacts(view, tx, env, rules);
    PreparedIsApplicable(view, tx, env, rules);
    PreparedUndo(view, tx, env, rules);
    var p := prepared.value;
    forall i | 0 <= i < |p.spent| ensures p.spent[i] in view ==> view[p.spent[i]] == p.prevouts[i] {
      assert Get(view, p.spent[i]) == Some(p.prevouts[i]);
    }
    var undo := overlay.ApplyFreshFromPrevouts(p.spent, p.prevouts, p.created);
    return Ok((p, undo.value));
  }

  /**
   Undoing got to `reached`, with the records after number `n` undone, and
   stopped at a coin that record `n` is to restore and that is present.
   */
  ghost predicate StuckAt(view: Utxos, undos: seq<Undo>, n: nat, reached: Utxos, e: UtxoError) {
    && n < |undos| && Revertible(view, undos[n + 1..]) && reached == RevertAll(view, undos[n + 1..])
    && e.Duplicate? && e.key in undos[n].spent && e.key in reached
  }

  ghost predicate Stuck(view: Utxos, undos: seq<Undo>, reached: Utxos, e: UtxoError) {
    exists n :: StuckAt(view, undos, n, reached, e)
  }

  /** Undoes applied transactions, last first. */
  method Rollback(overlay: UtxoOverlay, undos: seq<Undo>) returns (r: Option<UtxoError>)
    requires overlay.Valid()
    modifies overlay.shards
    ensures overlay.Valid()
    ensures r.None? <==> Revertible(old(overlay.View()), undos)
    ensures r.None? ==> overlay.View() == RevertAll(old(overlay.View()), undos)
    ensures r.Some? ==> Stuck(old(overlay.View()), undos, overlay.View(), r.value)
  {
    hide UtxoOverlay.Valid, UtxoOverlay.At, UtxoOverlay.View, Revert;
    var n := |undos|;
    assert undos[..n] == undos;
    while n > 0
      invariant n <= |undos| && overlay.Valid()
      invariant Revertible(old(overlay.View()), undos[n..])
      invariant overlay.View() == RevertAll(old(overlay.View()), undos[n..])
      invariant Revertible(old(overlay.View()), undos) <==> Revertible(overlay.View(), undos[..n])
      invariant RevertAll(old(overlay.View()), undos) == RevertAll(overlay.View(), undos[..n])
    {
      n := n - 1;
      assert undos[..n + 1][..n] == undos[..n];
      assert undos[n..] == [undos[n]] + undos[n + 1..];
      RevertAllAppend(old(overlay.View()), undos[n], undos[n + 1..]);
      var error := overlay.UndoMutation(undos[n]);
      if error.Some? {
        assert StuckAt(old(overlay.View()), undos, n, overlay.View(), error.value);
        return error;
      }
    }
    return None;
  }

  /** The least failing script of the transactions prepared so far. */
  method VerifyScripts(c: Candidate, done: seq<Prepared>, rules: BlockRules) returns (failure: Option<(nat, nat)>)
    requires |done| <= |c.block.txs|
    ensures failure == ScriptFailure(c, done, 1, rules)
  {
    var i := 1;
    while i < |done|
      invariant 1 <= i && ScriptFailure(c, done, 1, rules) == ScriptFailure(c, done, i, rules)
    {
      var error := rules.tx.scriptError(c.block.txs[i], done[i].prevouts, c.deployment.flags);
      if error.Some? { return Some((i, error.value)); }
      i := i + 1;
    }
    return None;
  }

  /** Rolls back and reports `error`, unless the rollback itself is refused. */
  method Abandon(overlay: UtxoOverlay, undos: seq<Undo>, error: BlockError) returns (reported: BlockError)
    requires overlay.Valid()
    modifies overlay.shards
    ensures overlay.Valid()
    ensures if Revertible(old(overlay.View()), undos)
            then overlay.View() == RevertAll(old(overlay.View()), undos) && reported == error
            else reported.RollbackFailed? && Stuck(old(overlay.View()), undos, overlay.View(), reported.error)
  {
    hide Stuck;
    var failure := Rollback(overlay, undos);
    return if failure.Some? then RollbackFailed(failure.value) else error;
  }

  /** Executing a block, with its scripts checked at the end unless they are deferred. */
  function Execute(view: Utxos, c: Candidate, defer: bool, rules: BlockRules): (r: Result<Running, BlockError>)
    requires WellFormed(c.block.txs)
  {
    match ExecBlock(view, c, rules)
    case Err(e) => Err(e)
    case Ok(run) =>
      if defer then Ok(run)
      else match ScriptFailure(c, run.done, 1, rules)
        case Some((index, code)) => Err(TxFailed(index, Script(code)))
        case None => Ok(run)
  }

  /** With one more transaction applied, rolling everything back still leads to the start. */
  lemma OneMoreReverts(view: Utxos, c: Candidate, n: nat, rules: BlockRules)
    requires n < |c.block.txs| && WellFormed(c.block.txs) && Fresh(view, c.block.txs)
    requires RunPrefix(view, c, n, rules).Ok?
    requires PrepareTx(RunPrefix(view, c, n, rules).value.view, c.block.txs[n], EnvOf(c), rules.tx).Ok?
    ensures var r := RunPrefix(view, c, n, rules).value;
            var p := PrepareTx(r.view, c.block.txs[n], EnvOf(c), rules.tx).value;
            && Resolved(p) && (forall i | 0 <= i < |r.done| :: Resolved(r.done[i]))
            && Revertible(After(r.view, p), UndosOf(r.done) + [UndoOf(p)])
            && RevertAll(After(r.view, p), UndosOf(r.done) + [UndoOf(p)]) == view
  {
    hide RunPrefix, PrepareTx, WellFormed, Fresh, UndoOf, Permits, Resolved, Revert, After, CreatedKeys;
    RunReverts(view, c, n, rules);
    FreshAtStep(view, c, n, rules);
    var r := RunPrefix(view, c, n, rules).value;
    PreparedIsInvertible(r.view, c.block.txs[n], EnvOf(c), rules.tx);
    var p := PrepareTx(r.view, c.block.txs[n], EnvOf(c), rules.tx).value;
    assert (UndosOf(r.done) + [UndoOf(p)])[..n] == UndosOf(r.done);
  }

  /** The state of a block being applied: the overlay has run the first `n` transactions. */
  ghost predicate Applied(overlay: UtxoOverlay, view: Utxos, c: Candidate, n: nat, rules: BlockRules,
                          done: seq<Prepared>, undos: seq<Undo>, fees: nat, sigops: nat)
    requires n <= |c.block.txs| && WellFormed(c.block.txs)
    reads overlay.shards
  {
    && overlay.Valid()
    && RunPrefix(view, c, n, rules) == Ok(Running(overlay.View(), done, fees, sigops))
    && (forall i | 0 <= i < |done| :: Resolved(done[i]))
    && undos == UndosOf(done)
    && Revertible(overlay.View(), undos)
    && RevertAll(overlay.View(), undos) == view
  }

  /** Applies transaction `n`; on failure everything applied so far is rolled back. */
  method ApplyNext(overlay: UtxoOverlay, c: Candidate, n: nat, rules: BlockRules,
                   done: seq<Prepared>, undos: seq<Undo>, fees: nat, sigops: nat, ghost view: Utxos)
    returns (failed: Option<BlockError>, done': seq<Prepared>, undos': seq<Undo>, fees': nat, sigops': nat)
    requires n < |c.block.txs| && WellFormed(c.block.txs) && Fresh(view, c.block.txs)
    requires Applied(overlay, view, c, n, rules, done, undos, fees, sigops)
    modifies overlay.shards
    ensures overlay.Valid()
    ensures match failed
            case Some(e) => RunPrefix(view, c, n + 1, rules) == Err(e) && overlay.View() == view
            case None => Applied(overlay, view, c, n + 1, rules, done', undos', fees', sigops')
  {
    hide UtxoOverlay.Valid, UtxoOverlay.View, WellFormed, Fresh, PrepareTx, After, UndoOf, Permits, Revertible;
    hide RevertAll;
    done', undos', fees', sigops' := done, undos, fees, sigops;
    ghost var running := Running(overlay.View(), done, fees, sigops);
    assert RunPrefix(view, c, n + 1, rules) == StepTx(running, c, n, rules);
    FreshAtStep(view, c, n, rules);
    CoinbaseFirst(c.block.txs, n);
    var applied := ApplyTransaction(overlay, c.block.txs[n], EnvOf(c), rules.tx);
    if applied.Err? {
      var failure := VerifyScripts(c, done, rules);
      var error := if failure.Some? then TxFailed(failure.value.0, Script(failure.value.1))
                   else TxFailed(n, applied.error);
      error := Abandon(overlay, undos, error);
      return Some(error), done, undos, fees, sigops;
    }
    OneMoreReverts(view, c, n, rules);
    PreparedFacts(running.view, c.block.txs[n], EnvOf(c), rules.tx);
    var p := applied.value.0;
    done', undos' := done + [p], undos + [applied.value.1];
    assert undos' == UndosOf(done');
    var error := None;
    if n != 0 {
      fees' := fees + (p.inputValue - p.outputValue);
      if fees' > U64_MAX {
        error := Some(FeeOverflow);
      } else if fees' > MAX_MONEY {
        error := Some(FeeOutOfRange(fees'));
      }
    }
    if error.None? {
      sigops' := sigops + p.sigopCost;
      if sigops' > U64_MAX {
        error := Some(SigopOverflow);
      } else if sigops' > MAX_BLOCK_SIGOPS_COST {
        error := Some(SigopCost(sigops'));
      }
    }
    if error.Some? {
      var reported := Abandon(overlay, undos', error.value);
      failed := Some(reported);
    } else {
      failed := None;
    }
  }

  lemma CoinbaseFirst(txs: seq<Tx>, n: nat)
    requires WellFormed(txs) && n < |txs|
    ensures IsCoinbase(txs[n]) <==> n == 0
  {
  }

  /**
   Applies a structurally valid block to an overlay.  A failure anywhere, in a
   transaction, a total, a script or the coinbase allowance, leaves the
   overlay's view exactly as it was, and the rollback itself never fails.
   */
  method ApplyBlock(overlay: UtxoOverlay, c: Candidate, defer: bool, rules: BlockRules)
    returns (r: Result<seq<Undo>, BlockError>, done: seq<Prepared>)
    requires overlay.Valid() && WellFormed(c.block.txs) && Fresh(overlay.View(), c.block.txs)
    modifies overlay.shards
    ensures overlay.Valid()
    ensures match Execute(old(overlay.View()), c, defer, rules)
            case Err(e) => r == Err(e) && overlay.View() == old(overlay.View())
            case Ok(run) =>
              && done == run.done && overlay.View() == run.view
              && (forall i | 0 <= i < |done| :: Resolved(done[i]))
              && r == Ok(UndosOf(done))
  {
    hide UtxoOverlay.Valid, UtxoOverlay.View, UtxoOverlay.At, WellFormed, Fresh, RunPrefix, Applied, Execute, Resolved;
    hide UndoOf, UndosOf, IsCoinbase;
    ghost var view := overlay.View();
    NothingApplied(overlay, c, rules);
    done := [];
    var undos: seq<Undo>, fees: nat, sigops: nat := [], 0, 0;
    for n := 0 to |c.block.txs|
      invariant Applied(overlay, view, c, n, rules, done, undos, fees, sigops)
    {
      var failed;
      failed, done, undos, fees, sigops := ApplyNext(overlay, c, n, rules, done, undos, fees, sigops, view);
      if failed.Some? {
        ExecuteFails(view, c, n + 1, defer, rules);
        return Err(failed.value), done;
      }
    }
    r := FinishBlock(overlay, c, defer, rules, done, undos, fees, sigops, view);
  }

  /** The script and coinbase checks once every transaction is applied. */
  method FinishBlock(overlay: UtxoOverlay, c: Candidate, defer: bool, rules: BlockRules,
                     done: seq<Prepared>, undos: seq<Undo>, fees: nat, ghost sigops: nat, ghost view: Utxos)
    returns (r: Result<seq<Undo>, BlockError>)
    requires WellFormed(c.block.txs) && Applied(overlay, view, c, |c.block.txs|, rules, done, undos, fees, sigops)
    modifies overlay.shards
    ensures overlay.Valid()
    ensures match Execute(view, c, defer, rules)
            case Err(e) => r == Err(e) && overlay.View() == view
            case Ok(run) =>
              && done == run.done && overlay.View() == run.view
              && (forall i | 0 <= i < |done| :: Resolved(done[i]))
              && r == Ok(UndosOf(done))
  {
    hide UtxoOverlay.Valid, UtxoOverlay.View, WellFormed, RunPrefix, Revertible, RevertAll, UndoOf, Resolved;
    NonEmpty(c.block.txs);
    var allowed := c.deployment.subsidy + fees;
    var claimed := done[0].outputValue;
    var scripts := None;
    if !defer || allowed > U64_MAX || claimed > allowed {
      scripts := VerifyScripts(c, done, rules);
    }
    if scripts.Some? {
      var error := Abandon(overlay, undos, TxFailed(scripts.value.0, Script(scripts.value.1)));
      return Err(error);
    }
    if allowed > U64_MAX {
      var error := Abandon(overlay, undos, FeeOverflow);
      return Err(error);
    }
    if claimed > allowed {
      var error := Abandon(overlay, undos, ExcessCoinbase(claimed, allowed));
      return Err(error);
    }
    return Ok(undos);
  }

  lemma ExecuteFails(view: Utxos, c: Candidate, n: nat, defer: bool, rules: BlockRules)
    requires n <= |c.block.txs| && WellFormed(c.block.txs) && RunPrefix(view, c, n, rules).Err?
    ensures Execute(view, c, defer, rules) == Err(RunPrefix(view, c, n, rules).error)
  {
    hide RunPrefix;
    FailureIsFinal(view, c, n, |c.block.txs|, rules);
  }

  lemma NothingApplied(overlay: UtxoOverlay, c: Candidate, rules: BlockRules)
    requires overlay.Valid() && WellFormed(c.block.txs)
    ensures Applied(overlay, overlay.View(), c, 0, rules, [], [], 0, 0)
  {
    assert UndosOf([]) == [];
  }

  lemma NonEmpty(txs: seq<Tx>)
    requires WellFormed(txs)
    ensures txs != []
  {
  }
}
