/**
 Preparing a block without writing anything: its transactions are resolved
 through a record of what the block itself has done so far, over the state it
 starts from.
 */
module Delta {
  import opened Basics
  import opened Coins
  import opened Transactions
  import opened Blocks
  import opened Overlay
  import opened Connect
  import opened Versions
  import BlockApply
  import Reorg

  /** The final word on each touched key: a coin left behind, or a key spent. */
  type DeltaState = map<OutPoint, Option<Coin>>

  /** The coins seen through a delta. */
  function Through(base: Utxos, state: DeltaState): (view: Utxos)
    ensures forall o :: Get(view, o) == if o in state then state[o] else Get(base, o)
  {
    (base - state.Keys) + map o | o in state && state[o].Some? :: state[o].value
  }

  /** Of the touched keys, exactly those that existed before the block count as spent from the base. */
  predicate Tracks(base: Utxos, state: DeltaState, spentFromBase: set<OutPoint>) {
    spentFromBase == state.Keys * base.Keys
  }

  class PreparedDelta {
    var state: DeltaState
    var spentFromBase: set<OutPoint>

    constructor ()
      ensures state == map[] && spentFromBase == {}
    {
      state, spentFromBase := map[], {};
    }

    method Spend(o: OutPoint)
      modifies this
      ensures state == old(state)[o := None]
      ensures spentFromBase == old(spentFromBase) + if o in old(state) then {} else {o}
    {
      if o !in state { spentFromBase := spentFromBase + {o}; }
      state := state[o := None];
    }

    method SpendAll(keys: seq<OutPoint>)
      modifies this
      ensures state == AllSpent(old(state), ToSet(keys))
      ensures spentFromBase == old(spentFromBase) + (ToSet(keys) - old(state).Keys)
    {
      hide AllSpent;
      NoneSpent(state);
      assert ToSet(keys[..0]) == {};
      for i := 0 to |keys|
        invariant state == AllSpent(old(state), ToSet(keys[..i]))
        invariant spentFromBase == old(spentFromBase) + (ToSet(keys[..i]) - old(state).Keys)
      {
        OneMoreSpent(old(state), ToSet(keys[..i]), keys[i]);
        assert ToSet(keys[..i + 1]) == ToSet(keys[..i]) + {keys[i]};
        Spend(keys[i]);
      }
      assert keys[..|keys|] == keys;
    }

    /** Records a checked transaction: its inputs are spent, then its outputs created. */
    method Record(p: Prepared, ghost base: Utxos)
      modifies this
      ensures Through(base, state) == After(Through(base, old(state)), p)
      ensures old(Tracks(base, state, spentFromBase)) && ToSet(p.spent) <= Through(base, old(state)).Keys
              && ToMap(p.created).Keys !! Through(base, old(state)).Keys
              ==> Tracks(base, state, spentFromBase)
    {
      hide Through, After, Tracks, ToMap, Left, AllSpent;
      SpendAll(p.spent);
      ghost var spent := state;
      NoneLeft(spent);
      for i := 0 to |p.created|
        invariant state == spent + Left(ToMap(p.created[..i]))
        invariant spentFromBase == old(spentFromBase) + (ToSet(p.spent) - old(state).Keys)
      {
        OneMoreLeft(spent, p.created, i);
        state := state[p.created[i].0 := Some(p.created[i].1)];
      }
      assert p.created[..|p.created|] == p.created;
      RecordedView(base, old(state), p);
      if old(Tracks(base, state, spentFromBase)) && ToSet(p.spent) <= Through(base, old(state)).Keys
         && ToMap(p.created).Keys !! Through(base, old(state)).Keys {
        RecordedTracks(base, old(state), old(spentFromBase), ToSet(p.spent), ToMap(p.created));
      }
    }
  }

  function AllSpent(state: DeltaState, keys: set<OutPoint>): DeltaState {
    state + map o | o in keys :: None
  }

  lemma NoneSpent(state: DeltaState)
    ensures AllSpent(state, {}) == state
  {
  }

  lemma OneMoreSpent(state: DeltaState, keys: set<OutPoint>, o: OutPoint)
    ensures AllSpent(state, keys + {o}) == AllSpent(state, keys)[o := None]
    ensures AllSpent(state, keys).Keys == state.Keys + keys
  {
  }

  function Left(coins: Utxos): DeltaState {
    map o | o in coins :: Some(coins[o])
  }

  lemma NoneLeft(state: DeltaState)
    ensures state == state + Left(ToMap([]))
  {
  }

  lemma OneMoreLeft(state: DeltaState, pairs: seq<(OutPoint, Coin)>, i: nat)
    requires i < |pairs|
    ensures state + Left(ToMap(pairs[..i + 1])) == (state + Left(ToMap(pairs[..i])))[pairs[i].0 := Some(pairs[i].1)]
  {
    assert pairs[..i + 1] == pairs[..i] + [pairs[i]];
    ToMapAppend(pairs[..i], pairs[i]);
    hide ToMap;
  }

  lemma RecordedView(base: Utxos, state: DeltaState, p: Prepared)
    ensures Through(base, AllSpent(state, ToSet(p.spent)) + Left(ToMap(p.created))) == After(Through(base, state), p)
  {
    hide Through, ToMap, Change;
    SameAnswers(Through(base, AllSpent(state, ToSet(p.spent)) + Left(ToMap(p.created))),
                After(Through(base, state), p));
  }

  lemma RecordedTracks(base: Utxos, state: DeltaState, spentFromBase: set<OutPoint>, spent: set<OutPoint>,
                       created: Utxos)
    requires Tracks(base, state, spentFromBase)
    requires spent <= Through(base, state).Keys && created.Keys !! Through(base, state).Keys
    ensures Tracks(base, AllSpent(state, spent) + Left(created), spentFromBase + (spent - state.Keys))
  {
    hide Through;
    var view := Through(base, state);
    forall o | o in spent && o !in state ensures o in base {
      assert Get(view, o).Some?;
    }
    forall o | o in created && o !in state ensures o !in base {
      assert Get(view, o) == None;
    }
  }

  /** The net effect of a delta: keys removed from the base, and coins left behind. */
  function NetChanges(state: DeltaState, spentFromBase: set<OutPoint>): (set<OutPoint>, Utxos) {
    (spentFromBase, map o | o in state && state[o].Some? :: state[o].value)
  }

  /** Applied to the coins a block started from, its net effect gives the coins it leaves. */
  lemma NetChangesApply(base: Utxos, state: DeltaState, spentFromBase: set<OutPoint>)
    requires Tracks(base, state, spentFromBase)
    ensures var (spent, created) := NetChanges(state, spentFromBase);
            && Change(base, spent, created) == Through(base, state)
            && spent <= base.Keys
            && created.Keys !! (base.Keys - spent)
  {
    var (spent, created) := NetChanges(state, spentFromBase);
    SameAnswers(Change(base, spent, created), Through(base, state));
  }

  // ----- The prepare view -----

  /** The batch view answers as `start` does, over a batch overlay showing `under`. */
  ghost predicate Serves(view: BatchVersionView, under: Utxos, start: Utxos)
    reads view.base.shards
  {
    && view.base.Valid() && view.base.View() == under
    && forall o :: Answer(under, view.versions, o, view.upto) == Get(start, o)
  }

  /** One lookup: the block's own record first, then the state it starts from. */
  method Fetch(view: BatchVersionView, delta: PreparedDelta, o: OutPoint, ghost under: Utxos, ghost start: Utxos)
    returns (found: Option<Coin>)
    requires Serves(view, under, start)
    modifies view.base.shards
    ensures Serves(view, under, start)
    ensures found == Get(Through(start, delta.state), o)
  {
    hide UtxoOverlay.Valid, UtxoOverlay.View, Answer, Through;
    if o in delta.state { return delta.state[o]; }
    found := view.Fetch(o);
  }

  /** Looks up many keys: known ones at once, the others from the base afterwards, in place. */
  method FetchMany(view: BatchVersionView, delta: PreparedDelta, keys: seq<OutPoint>, ghost under: Utxos,
                   ghost start: Utxos)
    returns (results: seq<Option<Coin>>)
    requires Serves(view, under, start)
    modifies view.base.shards
    ensures Serves(view, under, start)
    ensures |results| == |keys|
    ensures forall i | 0 <= i < |keys| :: results[i] == Get(Through(start, delta.state), keys[i])
  {
    hide UtxoOverlay.Valid, UtxoOverlay.View, Answer, Through;
    results := [];
    var positions: seq<nat> := [];
    for i := 0 to |keys|
      modifies {}
      invariant |results| == i
      invariant forall k | 0 <= k < |positions| :: positions[k] < i && keys[positions[k]] !in delta.state
      invariant forall k | 0 <= k < i ::
                  if keys[k] in delta.state then results[k] == delta.state[keys[k]] else k in positions
    {
      if keys[i] in delta.state {
        results := results + [delta.state[keys[i]]];
      } else {
        positions := positions + [i];
        results := results + [None];
      }
    }
    for j := 0 to |positions|
      invariant Serves(view, under, start)
      invariant |results| == |keys|
      invariant forall k | 0 <= k < |keys| && (keys[k] in delta.state || k in positions[..j]) ::
                  results[k] == Get(Through(start, delta.state), keys[k])
    {
      var found := view.Fetch(keys[positions[j]]);
      results := results[positions[j] := found];
    }
    assert positions[..|positions|] == positions;
  }

  method FindCollisions(view: BatchVersionView, delta: PreparedDelta, txs: seq<Tx>, ghost under: Utxos,
                        ghost start: Utxos)
    returns (collisions: set<OutPoint>)
    requires Serves(view, under, start)
    modifies view.base.shards
    ensures Serves(view, under, start)
    ensures collisions == Collisions(Through(start, delta.state), txs)
  {
    hide Serves, UtxoOverlay.Valid, UtxoOverlay.View, Through;
    ghost var coins := Through(start, delta.state);
    collisions := {};
    for i := 0 to |txs|
      invariant Serves(view, under, start)
      invariant collisions == Collisions(coins, txs[..i])
    {
      ghost var earlier := collisions;
      for vout := 0 to |txs[i].outputs|
        invariant Serves(view, under, start)
        invariant collisions == earlier + set o | o in CreatedKeys(txs[i]) && o.vout < vout && o in coins
      {
        if !IsUnspendable(txs[i].outputs[vout].script) {
          var o := OutPoint(txs[i].txid, vout);
          var found := Fetch(view, delta, o, under, start);
          assert found == Get(coins, o);
          if found.Some? { collisions := collisions + {o}; }
        }
      }
      assert collisions == Collisions(coins, txs[..i + 1]) by { Reorg.CollisionsOfOneMore(coins, txs, i); }
    }
    assert txs[..|txs|] == txs;
  }

  /** The BIP30 rules on a prepare view: overwritten coins are recorded as spent. */
  method PrepareBip30(view: BatchVersionView, delta: PreparedDelta, c: Candidate, ghost under: Utxos,
                      ghost start: Utxos)
    returns (r: Result<Utxos, BlockError>)
    requires Serves(view, under, start) && delta.state == map[] && delta.spentFromBase == {}
    modifies view.base.shards, delta
    ensures Serves(view, under, start)
    ensures match Bip30(start, c)
            case Err(e) => r == Err(e)
            case Ok(keys) =>
              && r == Ok(Restrict(start, keys))
              && Through(start, delta.state) == start - keys
              && Tracks(start, delta.state, delta.spentFromBase)
  {
    hide Serves, Through, Collisions, AllSpent;
    NothingTouched(start);
    if !c.deployment.bip30Enforced && !c.deployment.bip30Overwrite { return Ok(map[]); }
    var collisions := FindCollisions(view, delta, c.block.txs, under, start);
    if collisions == {} { return Ok(map[]); }
    if !c.deployment.bip30Overwrite { return Err(Bip30Collision(collisions)); }
    var keys := Reorg.Listed(collisions);
    var overwritten := Overwritten(view, delta, keys, c, under, start);
    delta.SpendAll(keys);
    assert ToSet(keys) == collisions;
    CollisionsSpent(start, c.block.txs);
    return Ok(overwritten);
  }

  /** Reads the coins a block overwrites. */
  method Overwritten(view: BatchVersionView, delta: PreparedDelta, keys: seq<OutPoint>, ghost c: Candidate,
                     ghost under: Utxos, ghost start: Utxos)
    returns (overwritten: Utxos)
    requires Serves(view, under, start) && Through(start, delta.state) == start
    requires ToSet(keys) == Collisions(start, c.block.txs)
    modifies view.base.shards
    ensures Serves(view, under, start)
    ensures overwritten == Restrict(start, ToSet(keys))
  {
    hide Serves, Through;
    overwritten := map[];
    for i := 0 to |keys|
      invariant Serves(view, under, start)
      invariant overwritten == Restrict(start, ToSet(keys[..i]))
    {
      var found := Fetch(view, delta, keys[i], under, start);
      assert keys[i] in start by {
        hide *;
        assert keys[i] in ToSet(keys);
        Reorg.CollisionsPresent(start, c.block.txs);
      }
      overwritten := overwritten[keys[i] := found.value];
      assert ToSet(keys[..i + 1]) == ToSet(keys[..i]) + {keys[i]};
    }
    assert keys[..|keys|] == keys;
  }

  lemma NothingTouched(start: Utxos)
    ensures Through(start, map[]) == start && Tracks(start, map[], {}) && Restrict(start, {}) == map[]
            && start - {} == start
  {
    SameAnswers(Through(start, map[]), start);
  }

  lemma CollisionsSpent(start: Utxos, txs: seq<Tx>)
    ensures var keys := Collisions(start, txs);
            && Through(start, AllSpent(map[], keys)) == start - keys
            && Tracks(start, AllSpent(map[], keys), keys)
  {
    Reorg.CollisionsPresent(start, txs);
    var keys := Collisions(start, txs);
    hide Collisions;
    SameAnswers(Through(start, AllSpent(map[], keys)), start - keys);
  }

  // ----- Preparing a block -----

  /** A prepared block: what it overwrites, its checked transactions, and its delta. */
  datatype PreparedBlock = PreparedBlock(removed: Utxos, done: seq<Prepared>, state: DeltaState,
                                         spentFromBase: set<OutPoint>)

  /** The first `n` transactions are prepared; `begin` is where they started. */
  ghost predicate Preparing(delta: PreparedDelta, start: Utxos, begin: Utxos, c: Candidate, n: nat, rules: BlockRules,
                            done: seq<Prepared>, fees: nat, sigops: nat)
    requires n <= |c.block.txs| && WellFormed(c.block.txs)
    reads delta
  {
    && RunPrefix(begin, c, n, rules) == Ok(Running(Through(start, delta.state), done, fees, sigops))
    && (Fresh(begin, c.block.txs) ==> Tracks(start, delta.state, delta.spentFromBase))
  }

  method PrepareNext(view: BatchVersionView, delta: PreparedDelta, c: Candidate, n: nat, rules: BlockRules,
                     done: seq<Prepared>, fees: nat, sigops: nat, ghost under: Utxos, ghost start: Utxos,
                     ghost begin: Utxos)
    returns (failed: Option<BlockError>, done': seq<Prepared>, fees': nat, sigops': nat)
    requires n < |c.block.txs| && WellFormed(c.block.txs) && Serves(view, under, start)
    requires Preparing(delta, start, begin, c, n, rules, done, fees, sigops)
    modifies view.base.shards, delta
    ensures Serves(view, under, start)
    ensures match failed
            case Some(e) => RunPrefix(begin, c, n + 1, rules) == Err(e)
            case None => Preparing(delta, start, begin, c, n + 1, rules, done', fees', sigops')
  {
    hide Serves, WellFormed, Fresh, Through, Tracks, After, PrepareResolved;
    done', fees', sigops' := done, fees, sigops;
    ghost var running := Running(Through(start, delta.state), done, fees, sigops);
    assert RunPrefix(begin, c, n + 1, rules) == StepTx(running, c, n, rules);
    BlockApply.CoinbaseFirst(c.block.txs, n);
    var tx := c.block.txs[n];
    var prepared := CheckThrough(view, delta, tx, EnvOf(c), rules.tx, under, start);
    if prepared.Err? {
      var failure := BlockApply.VerifyScripts(c, done, rules);
      failed := Some(if failure.Some? then TxFailed(failure.value.0, Script(failure.value.1))
                     else TxFailed(n, prepared.error));
      return;
    }
    PreparedFacts(running.view, tx, EnvOf(c), rules.tx);
    var p := prepared.value;
    if n != 0 {
      fees' := fees + (p.inputValue - p.outputValue);
      if fees' > U64_MAX { failed := Some(FeeOverflow); return; }
      if fees' > MAX_MONEY { failed := Some(FeeOutOfRange(fees')); return; }
    }
    sigops' := sigops + p.sigopCost;
    if sigops' > U64_MAX { failed := Some(SigopOverflow); return; }
    if sigops' > MAX_BLOCK_SIGOPS_COST { failed := Some(SigopCost(sigops')); return; }
    delta.Record(p, start);
    done' := done + [p];
    failed := None;
    if Fresh(begin, c.block.txs) { RecordKeeps(begin, c, n, rules); }
  }

  /** What a fresh block's next transaction spends is present, and what it creates is not. */
  lemma RecordKeeps(begin: Utxos, c: Candidate, n: nat, rules: BlockRules)
    requires n < |c.block.txs| && WellFormed(c.block.txs) && Fresh(begin, c.block.txs)
    requires RunPrefix(begin, c, n, rules).Ok?
    requires PrepareTx(RunPrefix(begin, c, n, rules).value.view, c.block.txs[n], EnvOf(c), rules.tx).Ok?
    ensures var view := RunPrefix(begin, c, n, rules).value.view;
            var p := PrepareTx(view, c.block.txs[n], EnvOf(c), rules.tx).value;
            && ToSet(p.spent) <= view.Keys && ToMap(p.created).Keys !! view.Keys
  {
    hide *;
    var view := RunPrefix(begin, c, n, rules).value.view;
    FreshAtStep(begin, c, n, rules);
    SpentByStep(view, c, n, rules);
    PreparedFacts(view, c.block.txs[n], EnvOf(c), rules.tx);
    CreatedMap(c.block.txs[n], EnvOf(c), IsCoinbase(c.block.txs[n]));
    CreatedOutputsIs(c.block.txs[n], EnvOf(c));
  }

  lemma CreatedOutputsIs(tx: Tx, env: Env)
    ensures CreatedOutputs(tx, env) == CreatedFrom(tx, 0, env, IsCoinbase(tx))
  {
  }

  /**
   Checks one transaction against the prepare view.  All inputs are fetched
   before they are checked; the source reads each as it checks it, with the
   same outcome, since a read changes no answer and none is reported early.
   */
  method CheckThrough(view: BatchVersionView, delta: PreparedDelta, tx: Tx, env: Env, rules: Rules,
                      ghost under: Utxos, ghost start: Utxos)
    returns (r: Result<Prepared, TxError>)
    requires Serves(view, under, start)
    modifies view.base.shards
    ensures Serves(view, under, start)
    ensures r == PrepareTx(Through(start, delta.state), tx, env, rules)
  {
    hide Serves, Through, PrepareResolved;
    ghost var coins := Through(start, delta.state);
    var resolved := [None];
    if IsCoinbase(tx) {
      BlockApply.CoinbaseIgnoresInputs(tx, resolved, Resolve(coins, tx.inputs), env, rules);
    } else {
      resolved := FetchMany(view, delta, Outpoints(tx.inputs), under, start);
      assert resolved == Resolve(coins, tx.inputs);
    }
    r := PrepareTransaction(tx, resolved, env, rules);
  }

  /** What preparing gives, tied to preparing against the coins the block starts from. */
  ghost predicate Prepares(r: Result<PreparedBlock, BlockError>, start: Utxos, c: Candidate, prevalidated: bool,
                           rules: BlockRules)
    requires prevalidated ==> StructureError(c, rules) == None
  {
    match Prepare(start, c, prevalidated, rules)
    case Err(e) => r == Err(e)
    case Ok(ready) =>
      && r.Ok? && r.value.removed == ready.removed && r.value.done == ready.run.done
      && Through(start, r.value.state) == ready.run.view
      && (FreshCandidate(start, c) ==> Tracks(start, r.value.state, r.value.spentFromBase))
  }

  /** Prepares a block: every check but its scripts, in order, nothing written. */
  method PrepareBlock(view: BatchVersionView, c: Candidate, prevalidated: bool, rules: BlockRules,
                      ghost under: Utxos, ghost start: Utxos)
    returns (r: Result<PreparedBlock, BlockError>)
    requires prevalidated ==> StructureError(c, rules) == None
    requires Serves(view, under, start)
    modifies view.base.shards
    ensures Serves(view, under, start)
    ensures Prepares(r, start, c, prevalidated, rules)
  {
    hide Serves, Through, Tracks, FreshCandidate, Fresh, Bip30, StructureError, WellFormed, RunPrefix, Restrict;
    var delta := new PreparedDelta();
    var removed := PrepareBip30(view, delta, c, under, start);
    if removed.Err? { return Err(removed.error); }
    ghost var keys := Bip30(start, c).value;
    ghost var begin := start - keys;
    if FreshCandidate(start, c) { FreshAfterBip30(start, c); }
    if !prevalidated {
      var structure := StructureError(c, rules);
      if structure.Some? { return Err(structure.value); }
    }
    BlockApply.NonEmpty(c.block.txs);
    NothingRunYet(begin, c, rules);
    var done: seq<Prepared>, fees: nat, sigops: nat := [], 0, 0;
    for n := 0 to |c.block.txs|
      invariant Serves(view, under, start)
      invariant Preparing(delta, start, begin, c, n, rules, done, fees, sigops)
    {
      hide Preparing;
      var failed;
      failed, done, fees, sigops := PrepareNext(view, delta, c, n, rules, done, fees, sigops, under, start, begin);
      if failed.Some? {
        FailureIsFinal(begin, c, n + 1, |c.block.txs|, rules);
        return Err(failed.value);
      }
    }
    var allowed := c.deployment.subsidy + fees;
    var claimed := done[0].outputValue;
    if allowed > U64_MAX || claimed > allowed {
      var failure := BlockApply.VerifyScripts(c, done, rules);
      if failure.Some? { return Err(TxFailed(failure.value.0, Script(failure.value.1))); }
      return Err(if allowed > U64_MAX then FeeOverflow else ExcessCoinbase(claimed, allowed));
    }
    return Ok(PreparedBlock(removed.value, done, delta.state, delta.spentFromBase));
  }

  lemma NothingRunYet(begin: Utxos, c: Candidate, rules: BlockRules)
    requires WellFormed(c.block.txs)
    ensures RunPrefix(begin, c, 0, rules) == Ok(Running(begin, [], 0, 0))
  {
  }
}
