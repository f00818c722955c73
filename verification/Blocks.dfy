/**
 What executing a block means: transactions in order against the coins left by
 the ones before, with running fee and signature-operation totals, deferred
 script checks and the coinbase allowance.
 */
module Blocks {
  import opened Basics
  import opened Coins
  import opened Transactions

  const MAX_BLOCK_SIGOPS_COST: nat := 80_000

  datatype Block = Block(hash: nat, time: nat, txs: seq<Tx>)

  /** The rules in force where a block is to be connected. */
  datatype Deployment = Deployment(
    flags: nat,
    csvActive: bool,
    bip30Enforced: bool,
    bip30Overwrite: bool,
    subsidy: nat)

  /** Candidate height, local time and the parent's median time past. */
  datatype Site = Site(height: nat, now: nat, mtp: nat)

  /** A block with everything needed to check it. */
  datatype Candidate = Candidate(block: Block, site: Site, deployment: Deployment)

  /** The foreign checks of a block: structure and commitments by error code, scripts, sigops. */
  datatype BlockRules = BlockRules(
    signet: Candidate -> Option<nat>,
    coinbaseHeight: Candidate -> Option<nat>,
    commitments: Candidate -> Option<nat>,
    tx: Rules)

  datatype BlockError =
    | Empty
    | MissingCoinbase
    | MultipleCoinbase
    | Signet(code: nat)
    | Bip34Height(code: nat)
    | Commitment(code: nat)
    | TxFailed(index: nat, source: TxError)
    | FeeOverflow
    | FeeOutOfRange(fees: nat)
    | SigopOverflow
    | SigopCost(cost: nat)
    | ExcessCoinbase(claimed: nat, allowed: nat)
    | Bip30Collision(keys: set<OutPoint>)
    | RollbackFailed(error: UtxoError)

  function EnvOf(c: Candidate): Env {
    Env(c.site.height, c.site.now, c.site.mtp,
        if c.deployment.csvActive then c.site.mtp else c.block.time,
        c.deployment.flags, c.deployment.csvActive)
  }

  /** The first transaction is the only coinbase. */
  predicate WellFormed(txs: seq<Tx>) {
    txs != [] && IsCoinbase(txs[0]) && forall i | 1 <= i < |txs| :: !IsCoinbase(txs[i])
  }

  /** Each structure error and the checks it is the first of. */
  predicate Objection(c: Candidate, e: BlockError, rules: BlockRules) {
    var txs := c.block.txs;
    if rules.signet(c).Some? then e == Signet(rules.signet(c).value)
    else
      match e
      case Empty => txs == []
      case MissingCoinbase => txs != [] && !IsCoinbase(txs[0])
      case Bip34Height(code) => txs != [] && IsCoinbase(txs[0]) && rules.coinbaseHeight(c) == Some(code)
      case MultipleCoinbase =>
        txs != [] && IsCoinbase(txs[0]) && !WellFormed(txs) && rules.coinbaseHeight(c) == None
      case Commitment(code) => WellFormed(txs) && rules.coinbaseHeight(c) == None && rules.commitments(c) == Some(code)
      case _ => false
  }

  function StructureError(c: Candidate, rules: BlockRules): (e: Option<BlockError>)
    ensures e == None <==> WellFormed(c.block.txs)
                           && rules.signet(c) == rules.coinbaseHeight(c) == rules.commitments(c) == None
    ensures e.Some? ==> Objection(c, e.value, rules)
  {
    var txs := c.block.txs;
    if rules.signet(c).Some? then Some(Signet(rules.signet(c).value))
    else if txs == [] then Some(Empty)
    else if !IsCoinbase(txs[0]) then Some(MissingCoinbase)
    else if rules.coinbaseHeight(c).Some? then Some(Bip34Height(rules.coinbaseHeight(c).value))
    else if exists i :: 1 <= i < |txs| && IsCoinbase(txs[i]) then Some(MultipleCoinbase)
    else if rules.commitments(c).Some? then Some(Commitment(rules.commitments(c).value))
    else None
  }

  /** The state of a block being executed. */
  datatype Running = Running(view: Utxos, done: seq<Prepared>, fees: nat, sigops: nat)

  /** The least transaction from `i` on whose deferred script check fails. */
  function ScriptFailure(c: Candidate, done: seq<Prepared>, i: nat, rules: BlockRules): (f: Option<(nat, nat)>)
    requires |done| <= |c.block.txs|
    ensures f.Some? ==> i <= f.value.0 < |done|
    decreases |done| - i
  {
    if i >= |done| then None
    else
      var error := rules.tx.scriptError(c.block.txs[i], done[i].prevouts, c.deployment.flags);
      if error.Some? then Some((i, error.value)) else ScriptFailure(c, done, i + 1, rules)
  }

  /** A failing script of an earlier transaction outranks another failure. */
  function Outranked(c: Candidate, done: seq<Prepared>, rules: BlockRules, otherwise: BlockError): BlockError
    requires |done| <= |c.block.txs|
  {
    match ScriptFailure(c, done, 1, rules)
    case Some((index, code)) => TxFailed(index, Script(code))
    case None => otherwise
  }

  function After(view: Utxos, p: Prepared): Utxos {
    Change(view, ToSet(p.spent), ToMap(p.created))
  }

  /** Executes transaction `i`. */
  function StepTx(r: Running, c: Candidate, i: nat, rules: BlockRules): (result: Result<Running, BlockError>)
    requires i < |c.block.txs| && WellFormed(c.block.txs) && |r.done| == i
    ensures result.Ok? ==> |result.value.done| == i + 1
  {
    var prepared := PrepareTx(r.view, c.block.txs[i], EnvOf(c), rules.tx);
    if prepared.Err? then Err(Outranked(c, r.done, rules, TxFailed(i, prepared.error)))
    else
      PreparedFacts(r.view, c.block.txs[i], EnvOf(c), rules.tx);
      Account(r, prepared.value, i)
  }

  /** Adds a prepared transaction to the running totals. */
  function Account(r: Running, p: Prepared, i: nat): (result: Result<Running, BlockError>)
    requires i != 0 ==> p.outputValue <= p.inputValue
    ensures result.Ok? ==> result.value.done == r.done + [p] && result.value.view == After(r.view, p)
    ensures result.Ok? ==> result.value.fees == r.fees + (if i == 0 then 0 else p.inputValue - p.outputValue)
  {
    var fees := r.fees + if i == 0 then 0 else p.inputValue - p.outputValue;
    var sigops := r.sigops + p.sigopCost;
    if i != 0 && fees > U64_MAX then Err(FeeOverflow)
    else if i != 0 && fees > MAX_MONEY then Err(FeeOutOfRange(fees))
    else if sigops > U64_MAX then Err(SigopOverflow)
    else if sigops > MAX_BLOCK_SIGOPS_COST then Err(SigopCost(sigops))
    else Ok(Running(After(r.view, p), r.done + [p], fees, sigops))
  }

  /** The first `n` transactions of a block, from a coin set. */
  function RunPrefix(view: Utxos, c: Candidate, n: nat, rules: BlockRules): (result: Result<Running, BlockError>)
    requires n <= |c.block.txs| && WellFormed(c.block.txs)
    ensures result.Ok? ==> |result.value.done| == n
  {
    if n == 0 then Ok(Running(view, [], 0, 0))
    else match RunPrefix(view, c, n - 1, rules)
      case Err(e) => Err(e)
      case Ok(r) => StepTx(r, c, n - 1, rules)
  }

  lemma {:induction false} FailureIsFinal(view: Utxos, c: Candidate, n: nat, m: nat, rules: BlockRules)
    requires n <= m <= |c.block.txs| && WellFormed(c.block.txs) && RunPrefix(view, c, n, rules).Err?
    ensures RunPrefix(view, c, m, rules) == RunPrefix(view, c, n, rules)
  {
    hide StepTx;
    if n < m { FailureIsFinal(view, c, n, m - 1, rules); }
  }

  /** The coinbase may claim the subsidy and the collected fees. */
  function Finish(r: Running, c: Candidate, rules: BlockRules): Result<Running, BlockError>
    requires r.done != [] && |r.done| == |c.block.txs|
  {
    var allowed := c.deployment.subsidy + r.fees;
    var claimed := r.done[0].outputValue;
    if allowed > U64_MAX then Err(Outranked(c, r.done, rules, FeeOverflow))
    else if claimed > allowed then Err(Outranked(c, r.done, rules, ExcessCoinbase(claimed, allowed)))
    else Ok(r)
  }

  /** A whole block with its script checks deferred. */
  function ExecBlock(view: Utxos, c: Candidate, rules: BlockRules): (result: Result<Running, BlockError>)
    requires WellFormed(c.block.txs)
    ensures result.Ok? ==> |result.value.done| == |c.block.txs|
  {
    match RunPrefix(view, c, |c.block.txs|, rules)
    case Err(e) => Err(e)
    case Ok(r) => Finish(r, c, rules)
  }

  // ----- The freshness contract and the effect of a block -----

  /** Everything the first `n` transactions create, spent or not. */
  function Created(c: Candidate, n: nat): Utxos
    requires n <= |c.block.txs|
  {
    if n == 0 then map[] else Created(c, n - 1) + ToMap(CreatedOutputs(c.block.txs[n - 1], EnvOf(c)))
  }

  /** Everything the first `n` transactions name as inputs; the coinbase names none. */
  function Spent(txs: seq<Tx>, n: nat): set<OutPoint>
    requires n <= |txs|
  {
    if n <= 1 then {} else Spent(txs, n - 1) + ToSet(Outpoints(txs[n - 1].inputs))
  }

  /** Coins created and not spent again are added, everything spent is removed. */
  function Settle(view: Utxos, created: Utxos, spent: set<OutPoint>): (after: Utxos)
    ensures forall o :: Get(after, o) ==
                        if o in spent then None else if o in created then Some(created[o]) else Get(view, o)
  {
    Change(view, spent, created - spent)
  }

  /** No output of the block is already unspent, and no two transactions create the same output. */
  predicate Fresh(view: Utxos, txs: seq<Tx>) {
    && (forall i | 0 <= i < |txs| :: CreatedKeys(txs[i]) !! view.Keys)
    && (forall i, j | 0 <= i < j < |txs| :: CreatedKeys(txs[i]) !! CreatedKeys(txs[j]))
  }

  lemma {:induction false} CreatedIsBlocks(c: Candidate, n: nat, o: OutPoint)
    requires n <= |c.block.txs|
    ensures o in Created(c, n) <==> exists i :: 0 <= i < n && o in CreatedKeys(c.block.txs[i])
  {
    if n > 0 {
      CreatedIsBlocks(c, n - 1, o);
      CreatedMap(c.block.txs[n - 1], EnvOf(c), IsCoinbase(c.block.txs[n - 1]));
    }
  }

  lemma SpentByStep(view: Utxos, c: Candidate, i: nat, rules: BlockRules)
    requires i < |c.block.txs| && WellFormed(c.block.txs)
    requires PrepareTx(view, c.block.txs[i], EnvOf(c), rules.tx).Ok?
    ensures var p := PrepareTx(view, c.block.txs[i], EnvOf(c), rules.tx).value;
            && Spent(c.block.txs, i + 1) == Spent(c.block.txs, i) + ToSet(p.spent)
            && p.created == CreatedOutputs(c.block.txs[i], EnvOf(c))
            && ToSet(p.spent) <= view.Keys
  {
    PreparedFacts(view, c.block.txs[i], EnvOf(c), rules.tx);
    var p := PrepareTx(view, c.block.txs[i], EnvOf(c), rules.tx).value;
    assert IsCoinbase(c.block.txs[i]) <==> i == 0;
    forall o | o in ToSet(p.spent) ensures o in view.Keys {
      var j :| 0 <= j < |p.spent| && p.spent[j] == o;
      assert Get(view, p.spent[j]) == Some(p.prevouts[j]);
    }
  }

  lemma NothingRun(view: Utxos, c: Candidate)
    ensures Settle(view, Created(c, 0), Spent(c.block.txs, 0)) == view && Spent(c.block.txs, 0) == {}
  {
    SameAnswers(view, Settle(view, map[], {}));
  }

  /** Settling one more transaction whose outputs are new. */
  lemma SettleStep(view: Utxos, created: Utxos, spent: set<OutPoint>, newSpent: set<OutPoint>, newCreated: Utxos)
    requires newCreated.Keys !! view.Keys && newCreated.Keys !! created.Keys
    requires spent <= view.Keys + created.Keys && newSpent <= Settle(view, created, spent).Keys
    ensures Change(Settle(view, created, spent), newSpent, newCreated) ==
            Settle(view, created + newCreated, spent + newSpent)
    ensures spent + newSpent <= view.Keys + (created + newCreated).Keys
  {
    hide Change, Settle;
    var settled := Settle(view, created, spent);
    forall o | o in newSpent ensures o in view.Keys + created.Keys && o !in spent {
      assert Get(settled, o).Some?;
    }
    SameAnswers(Change(settled, newSpent, newCreated), Settle(view, created + newCreated, spent + newSpent));
  }

  /** Under the contract, a transaction's outputs are new to the block. */
  lemma NewKeys(view: Utxos, c: Candidate, n: nat)
    requires n < |c.block.txs| && Fresh(view, c.block.txs)
    ensures CreatedKeys(c.block.txs[n]) !! view.Keys
    ensures CreatedKeys(c.block.txs[n]) !! Created(c, n).Keys
  {
    hide CreatedKeys, Created;
    var keys := CreatedKeys(c.block.txs[n]);
    forall o | o in keys ensures o !in Created(c, n).Keys {
      CreatedIsBlocks(c, n, o);
    }
  }

  lemma StepOk(r: Running, c: Candidate, i: nat, rules: BlockRules)
    requires i < |c.block.txs| && WellFormed(c.block.txs) && |r.done| == i && StepTx(r, c, i, rules).Ok?
    ensures var prepared := PrepareTx(r.view, c.block.txs[i], EnvOf(c), rules.tx);
            && prepared.Ok?
            && StepTx(r, c, i, rules).value.view == After(r.view, prepared.value)
            && StepTx(r, c, i, rules).value.done == r.done + [prepared.value]
  {
    hide PrepareTx;
  }

  lemma StepSettles(view: Utxos, r: Running, c: Candidate, n: nat, rules: BlockRules)
    requires n < |c.block.txs| && WellFormed(c.block.txs) && Fresh(view, c.block.txs) && |r.done| == n
    requires r.view == Settle(view, Created(c, n), Spent(c.block.txs, n))
    requires Spent(c.block.txs, n) <= view.Keys + Created(c, n).Keys
    requires StepTx(r, c, n, rules).Ok?
    ensures StepTx(r, c, n, rules).value.view == Settle(view, Created(c, n + 1), Spent(c.block.txs, n + 1))
    ensures Spent(c.block.txs, n + 1) <= view.Keys + Created(c, n + 1).Keys
  {
    var txs, env := c.block.txs, EnvOf(c);
    var added := ToMap(CreatedOutputs(txs[n], env));
    assert Created(c, n + 1) == Created(c, n) + added;
    hide *;
    StepOk(r, c, n, rules);
    SpentByStep(r.view, c, n, rules);
    CreatedMap(txs[n], env, IsCoinbase(txs[n]));
    NewKeys(view, c, n);
    var p := PrepareTx(r.view, txs[n], env, rules.tx).value;
    AfterIsChange(r.view, p);
    SettleStep(view, Created(c, n), Spent(txs, n), ToSet(p.spent), added);
  }

  lemma AfterIsChange(view: Utxos, p: Prepared)
    ensures After(view, p) == Change(view, ToSet(p.spent), ToMap(p.created))
  {
  }

  /** While a block runs, its view is its start plus all it created minus all it spent. */
  lemma {:induction false} RunSettles(view: Utxos, c: Candidate, n: nat, rules: BlockRules)
    requires n <= |c.block.txs| && WellFormed(c.block.txs) && Fresh(view, c.block.txs)
    requires RunPrefix(view, c, n, rules).Ok?
    ensures RunPrefix(view, c, n, rules).value.view == Settle(view, Created(c, n), Spent(c.block.txs, n))
    ensures Spent(c.block.txs, n) <= view.Keys + Created(c, n).Keys
  {
    hide StepTx, WellFormed, Fresh, Settle, Created, Spent;
    if n == 0 {
      NothingRun(view, c);
    } else {
      RunSettles(view, c, n - 1, rules);
      StepSettles(view, RunPrefix(view, c, n - 1, rules).value, c, n - 1, rules);
    }
  }
}
