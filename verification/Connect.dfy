/**
 Connecting one block to a coin set: the BIP30 rules, the structure checks, the
 transactions and the deferred scripts, as plain sequential execution does it;
 the undo records it leaves, and the proof that they lead back.
 */
module Connect {
  import opened Basics
  import opened Coins
  import opened Transactions
  import opened Blocks
  import opened Overlay

  // ----- Undo records -----

  predicate Resolved(p: Prepared) {
    |p.spent| == |p.prevouts|
  }

  /** The undo record of one prepared transaction. */
  function UndoOf(p: Prepared): Undo
    requires Resolved(p)
  {
    Undo(ToMap(Zip(p.spent, p.prevouts)), ToMap(p.created).Keys)
  }

  function UndosOf(done: seq<Prepared>): (undos: seq<Undo>)
    requires forall i | 0 <= i < |done| :: Resolved(done[i])
    ensures |undos| == |done| && forall i | 0 <= i < |done| :: undos[i] == UndoOf(done[i])
  {
    seq(|done|, i requires 0 <= i < |done| => UndoOf(done[i]))
  }

  /** An undo step is refused when a coin to restore is present. */
  predicate Permits(view: Utxos, undo: Undo) {
    undo.spent.Keys !! view.Keys
  }

  /** Every undo record in turn, last first, is permitted. */
  predicate Revertible(view: Utxos, undos: seq<Undo>)
    decreases |undos|
  {
    undos == [] ||
    var last := undos[|undos| - 1];
    Permits(view, last) && Revertible(Revert(view, last), undos[..|undos| - 1])
  }

  function RevertAll(view: Utxos, undos: seq<Undo>): Utxos
    decreases |undos|
  {
    if undos == [] then view
    else RevertAll(Revert(view, undos[|undos| - 1]), undos[..|undos| - 1])
  }

  lemma {:induction false} ZipIsRestrict(view: Utxos, keys: seq<OutPoint>, coins: seq<Coin>)
    requires |keys| == |coins| && forall i | 0 <= i < |keys| :: Get(view, keys[i]) == Some(coins[i])
    ensures ToMap(Zip(keys, coins)) == Restrict(view, ToSet(keys))
  {
    if keys == [] {
      assert ToMap(Zip(keys, coins)) == map[];
    } else {
      var n := |keys| - 1;
      ZipIsRestrict(view, keys[..n], coins[..n]);
      assert Zip(keys, coins)[..n] == Zip(keys[..n], coins[..n]);
      assert keys == keys[..n] + [keys[n]];
    }
  }

  /** The undo record of a passing check holds the coins it spends and the keys it creates. */
  lemma PreparedUndo(view: Utxos, tx: Tx, env: Env, rules: Rules)
    requires PrepareTx(view, tx, env, rules).Ok?
    ensures var p := PrepareTx(view, tx, env, rules).value;
            && Resolved(p)
            && ToSet(p.spent) <= view.Keys
            && UndoOf(p) == Undo(Restrict(view, ToSet(p.spent)), ToMap(p.created).Keys)
  {
    PreparedFacts(view, tx, env, rules);
    var p := PrepareTx(view, tx, env, rules).value;
    hide PrepareTx, CreatedOutputs, CreatedKeys;
    ZipIsRestrict(view, p.spent, p.prevouts);
    forall o | o in ToSet(p.spent) ensures o in view {
      var i :| 0 <= i < |p.spent| && p.spent[i] == o;
      assert Get(view, p.spent[i]) == Some(p.prevouts[i]);
    }
  }

  /** A passing check on fresh outputs can be applied, and its undo record is the exact inverse. */
  lemma PreparedIsInvertible(view: Utxos, tx: Tx, env: Env, rules: Rules)
    requires PrepareTx(view, tx, env, rules).Ok? && CreatedKeys(tx) !! view.Keys
    ensures var p := PrepareTx(view, tx, env, rules).value;
            && Resolved(p)
            && UndoOf(p) == Undo(Restrict(view, ToSet(p.spent)), ToMap(p.created).Keys)
            && Permits(After(view, p), UndoOf(p))
            && Revert(After(view, p), UndoOf(p)) == view
  {
    PreparedFacts(view, tx, env, rules);
    PreparedUndo(view, tx, env, rules);
    CreatedMap(tx, env, IsCoinbase(tx));
    var p := PrepareTx(view, tx, env, rules).value;
    hide PrepareTx, CreatedOutputs, CreatedKeys;
    var spent := Restrict(view, ToSet(p.spent));
    assert spent.Keys == ToSet(p.spent);
    RevertUndoesChange(view, spent, ToMap(p.created));
    forall o | o in spent ensures o !in After(view, p) {
      assert Get(After(view, p), o) == None;
    }
  }

  /** The outputs of the next transaction are absent from a fresh block's running view. */
  lemma FreshAtStep(view: Utxos, c: Candidate, n: nat, rules: BlockRules)
    requires n < |c.block.txs| && WellFormed(c.block.txs) && Fresh(view, c.block.txs)
    requires RunPrefix(view, c, n, rules).Ok?
    ensures CreatedKeys(c.block.txs[n]) !! RunPrefix(view, c, n, rules).value.view.Keys
  {
    hide RunPrefix, WellFormed, Fresh, CreatedKeys, Created, Spent, Change;
    RunSettles(view, c, n, rules);
    NewKeys(view, c, n);
    var running := RunPrefix(view, c, n, rules).value.view;
    forall o | o in running.Keys ensures o in view.Keys + Created(c, n).Keys {
      assert Get(running, o).Some?;
    }
  }

  /** The facts about step `n` of a run that went through. */
  lemma StepInverts(view: Utxos, c: Candidate, n: nat, rules: BlockRules)
    requires n < |c.block.txs| && WellFormed(c.block.txs) && Fresh(view, c.block.txs)
    requires RunPrefix(view, c, n + 1, rules).Ok?
    ensures RunPrefix(view, c, n, rules).Ok?
    ensures var before, after := RunPrefix(view, c, n, rules).value, RunPrefix(view, c, n + 1, rules).value;
            var p := after.done[n];
            && after.done == before.done + [p]
            && Resolved(p)
            && Permits(after.view, UndoOf(p))
            && Revert(after.view, UndoOf(p)) == before.view
  {
    var before := RunPrefix(view, c, n, rules).value;
    assert RunPrefix(view, c, n + 1, rules) == StepTx(before, c, n, rules);
    hide RunPrefix, WellFormed, Fresh, CreatedKeys, StepTx, PrepareTx, After, UndoOf, Permits;
    StepOk(before, c, n, rules);
    FreshAtStep(view, c, n, rules);
    PreparedIsInvertible(before.view, c.block.txs[n], EnvOf(c), rules.tx);
  }

  /** Undoing a run transaction by transaction, last first, restores where it started. */
  lemma {:induction false} RunReverts(view: Utxos, c: Candidate, n: nat, rules: BlockRules)
    requires n <= |c.block.txs| && WellFormed(c.block.txs) && Fresh(view, c.block.txs)
    requires RunPrefix(view, c, n, rules).Ok?
    ensures var r := RunPrefix(view, c, n, rules).value;
            && (forall i | 0 <= i < |r.done| :: Resolved(r.done[i]))
            && Revertible(r.view, UndosOf(r.done))
            && RevertAll(r.view, UndosOf(r.done)) == view
  {
    hide StepTx, WellFormed, Fresh, UndoOf, Permits, Resolved, Revert;
    if n > 0 {
      StepInverts(view, c, n - 1, rules);
      RunReverts(view, c, n - 1, rules);
      var before, after := RunPrefix(view, c, n - 1, rules).value, RunPrefix(view, c, n, rules).value;
      assert UndosOf(after.done)[..n - 1] == UndosOf(before.done);
    }
  }

  // ----- BIP30 -----

  /** Outputs of the block that are already unspent. */
  function Collisions(view: Utxos, txs: seq<Tx>): set<OutPoint> {
    set i, o | 0 <= i < |txs| && o in CreatedKeys(txs[i]) && o in view :: o
  }

  /** The coins the block may overwrite; a collision without the exception is an error. */
  function Bip30(view: Utxos, c: Candidate): Result<set<OutPoint>, BlockError> {
    if !c.deployment.bip30Enforced && !c.deployment.bip30Overwrite then Ok({})
    else
      var collisions := Collisions(view, c.block.txs);
      if collisions == {} then Ok({})
      else if c.deployment.bip30Overwrite then Ok(collisions)
      else Err(Bip30Collision(collisions))
  }

  /**
   The freshness contract: unless BIP30 is checked or excepted, no output of
   the block is already unspent; and its transactions create distinct outputs.
   */
  predicate FreshCandidate(view: Utxos, c: Candidate) {
    && (!c.deployment.bip30Enforced && !c.deployment.bip30Overwrite ==> Collisions(view, c.block.txs) == {})
    && (forall i, j | 0 <= i < j < |c.block.txs| :: CreatedKeys(c.block.txs[i]) !! CreatedKeys(c.block.txs[j]))
  }

  /** Once the excepted coins are removed, every output of the block is new. */
  lemma FreshAfterBip30(view: Utxos, c: Candidate)
    requires FreshCandidate(view, c) && Bip30(view, c).Ok?
    ensures Fresh(view - Bip30(view, c).value, c.block.txs)
  {
    hide CreatedKeys;
    var removed := Bip30(view, c).value;
    forall i | 0 <= i < |c.block.txs| ensures CreatedKeys(c.block.txs[i]) !! (view - removed).Keys {
      forall o | o in CreatedKeys(c.block.txs[i]) ensures o !in view - removed {
        if o in view { assert o in Collisions(view, c.block.txs); }
      }
    }
  }

  // ----- Connecting -----

  /** A block that passed every check but its scripts. */
  datatype Ready = Ready(removed: Utxos, run: Running)

  /** Header-independent checks of a block in source order, scripts deferred. */
  function Prepare(view: Utxos, c: Candidate, prevalidated: bool, rules: BlockRules): (r: Result<Ready, BlockError>)
    requires prevalidated ==> StructureError(c, rules) == None
    ensures r.Ok? ==> |r.value.run.done| == |c.block.txs|
  {
    match Bip30(view, c)
    case Err(e) => Err(e)
    case Ok(keys) =>
      var structure := if prevalidated then None else StructureError(c, rules);
      if structure.Some? then Err(structure.value)
      else
        match ExecBlock(view - keys, c, rules)
        case Err(e) => Err(e)
        case Ok(run) => Ok(Ready(Restrict(view, keys), run))
  }

  /** Plain sequential connection of one block. */
  function ConnectOne(view: Utxos, c: Candidate, prevalidated: bool, rules: BlockRules): (r: Result<Ready, BlockError>)
    requires prevalidated ==> StructureError(c, rules) == None
  {
    match Prepare(view, c, prevalidated, rules)
    case Err(e) => Err(e)
    case Ok(ready) =>
      match ScriptFailure(c, ready.run.done, 1, rules)
      case Some((index, code)) => Err(TxFailed(index, Script(code)))
      case None => Ok(ready)
  }

  /** Undo records of a block: the overwritten coins first, then one per transaction. */
  function BlockUndos(ready: Ready): seq<Undo>
    requires forall i | 0 <= i < |ready.run.done| :: Resolved(ready.run.done[i])
  {
    (if ready.removed == map[] then [] else [Undo(ready.removed, {})]) + UndosOf(ready.run.done)
  }

  /** What a prepared block did, from the coins it started with. */
  lemma ReadyFacts(view: Utxos, c: Candidate, prevalidated: bool, rules: BlockRules)
    requires prevalidated ==> StructureError(c, rules) == None
    requires FreshCandidate(view, c) && Prepare(view, c, prevalidated, rules).Ok?
    ensures WellFormed(c.block.txs)
    ensures var ready := Prepare(view, c, prevalidated, rules).value;
            var start := view - ready.removed.Keys;
            && Bip30(view, c).Ok? && Bip30(view, c).value == ready.removed.Keys
            && ready.removed == Restrict(view, ready.removed.Keys)
            && Fresh(start, c.block.txs)
            && ExecBlock(start, c, rules) == Ok(ready.run)
            && RunPrefix(start, c, |c.block.txs|, rules) == Ok(ready.run)
  {
    var keys := Bip30(view, c).value;
    assert keys <= view.Keys;
    assert Restrict(view, keys).Keys == keys;
    FreshAfterBip30(view, c);
  }

  lemma {:induction false} RevertAllAppend(view: Utxos, first: Undo, rest: seq<Undo>)
    ensures RevertAll(view, [first] + rest) == Revert(RevertAll(view, rest), first)
    ensures Revertible(view, [first] + rest) <==> Revertible(view, rest) && Permits(RevertAll(view, rest), first)
    decreases |rest|
  {
    hide Revert, Permits;
    var all := [first] + rest;
    if rest == [] {
      assert all == [first] && all[..0] == [];
    } else {
      var n := |rest| - 1;
      assert all[..|all| - 1] == [first] + rest[..n];
      RevertAllAppend(Revert(view, rest[n]), first, rest[..n]);
    }
  }

  /**
   Disconnect exactly inverts connect: applying a block's undo records in
   reverse never fails and restores the coin set from before the block, coins
   overwritten under the BIP30 exception included.
   */
  lemma DisconnectInvertsConnect(view: Utxos, c: Candidate, prevalidated: bool, rules: BlockRules)
    requires prevalidated ==> StructureError(c, rules) == None
    requires FreshCandidate(view, c) && Prepare(view, c, prevalidated, rules).Ok?
    ensures var ready := Prepare(view, c, prevalidated, rules).value;
            && (forall i | 0 <= i < |ready.run.done| :: Resolved(ready.run.done[i]))
            && Revertible(ready.run.view, BlockUndos(ready))
            && RevertAll(ready.run.view, BlockUndos(ready)) == view
  {
    hide Prepare, ExecBlock, RunPrefix, Fresh, FreshCandidate, Bip30, WellFormed, Revertible, RevertAll, UndoOf, Revert;
    hide Permits;
    var ready := Prepare(view, c, prevalidated, rules).value;
    ReadyFacts(view, c, prevalidated, rules);
    var start := view - ready.removed.Keys;
    RunReverts(start, c, |c.block.txs|, rules);
    if ready.removed == map[] {
      assert start == view;
      assert BlockUndos(ready) == UndosOf(ready.run.done);
    } else {
      RevertAllAppend(ready.run.view, Undo(ready.removed, {}), UndosOf(ready.run.done));
      RemovalInverts(view, ready.removed);
    }
  }

  lemma RemovalInverts(view: Utxos, removed: Utxos)
    requires removed == Restrict(view, removed.Keys)
    ensures Permits(view - removed.Keys, Undo(removed, {}))
    ensures Revert(view - removed.Keys, Undo(removed, {})) == view
  {
    RevertUndoesChange(view, removed, map[]);
    assert Change(view, removed.Keys, map[]) == view - removed.Keys;
  }
}
