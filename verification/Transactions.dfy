/**
 Consensus checks on one transaction against the coins its inputs resolve to:
 money range, duplicate and missing inputs, coinbase maturity, lock times and
 value accounting.  Script verification and signature-operation counting are
 arbitrary functions of the transaction and its resolved coins.
 */
module Transactions {
  import opened Basics
  import opened Coins

  const COINBASE_MATURITY: nat := 100
  const MAX_SCRIPT_SIZE: nat := 10_000
  const MAX_BASE_WEIGHT: nat := 4_000_000
  const LOCKTIME_THRESHOLD: nat := 500_000_000
  const NULL_OUTPOINT: OutPoint := OutPoint(0, U32_MAX)

  datatype TxIn = TxIn(prevout: OutPoint, sequence: nat, scriptSigLen: nat)
  datatype TxOut = TxOut(value: nat, script: seq<Byte>)
  datatype Tx = Tx(txid: Txid, version: nat, lockTime: nat, baseSize: nat, inputs: seq<TxIn>, outputs: seq<TxOut>)

  /** Where a transaction is checked: candidate height, parent median time, deployments. */
  datatype Env = Env(height: nat, now: nat, mtp: nat, lockTimeContext: nat, flags: nat, csvActive: bool)

  /** The foreign checks, for every choice of which the results below hold. */
  datatype Rules = Rules(
    scriptError: (Tx, seq<Coin>, nat) -> Option<nat>,
    sigopCost: (Tx, seq<Coin>, nat) -> nat)

  datatype TxError =
    | Utxo(error: UtxoError)
    | Script(code: nat)
    | ValueOverflow
    | Inflation
    | ImmatureCoinbase(outpoint: OutPoint, maturesAt: nat)
    | CoinbaseScriptSize
    | NoInputs
    | NoOutputs
    | MoneyRange
    | NonFinalLockTime(lockTime: nat, context: nat)
    | RelativeHeightLock(outpoint: OutPoint, minimumHeight: nat)
    | RelativeTimeLock(outpoint: OutPoint, minimumMtp: nat)
    | DuplicateInput(outpoint: OutPoint)
    | NullPrevout
    | Oversize

  /** A transaction resolved and checked, not yet written. */
  datatype Prepared = Prepared(
    inputValue: nat,
    outputValue: nat,
    sigopCost: nat,
    spent: seq<OutPoint>,
    prevouts: seq<Coin>,
    created: seq<(OutPoint, Coin)>)

  predicate IsCoinbase(tx: Tx) {
    |tx.inputs| == 1 && tx.inputs[0].prevout == NULL_OUTPOINT
  }

  predicate IsUnspendable(script: seq<Byte>) {
    (script != [] && script[0] == 0x6a) || |script| > MAX_SCRIPT_SIZE
  }

  /** The coins of the outputs from `vout` on, unspendable ones dropped. */
  function CreatedFrom(tx: Tx, vout: nat, env: Env, coinbase: bool): seq<(OutPoint, Coin)>
    decreases |tx.outputs| - vout
  {
    if vout >= |tx.outputs| then []
    else
      var output := tx.outputs[vout];
      var rest := CreatedFrom(tx, vout + 1, env, coinbase);
      if IsUnspendable(output.script) then rest
      else
        [(OutPoint(tx.txid, vout),
          Coin(output.value, env.height, coinbase, env.now, env.mtp, output.script))] + rest
  }

  function CreatedOutputs(tx: Tx, env: Env): seq<(OutPoint, Coin)> {
    CreatedFrom(tx, 0, env, IsCoinbase(tx))
  }

  /** The keys a transaction creates do not depend on where it is checked. */
  function CreatedKeys(tx: Tx): set<OutPoint> {
    set vout | 0 <= vout < |tx.outputs| && !IsUnspendable(tx.outputs[vout].script) :: OutPoint(tx.txid, vout)
  }

  /** The pairs are keyed by spendable outputs from `vout` on, in increasing order. */
  predicate KeyedInOrder(created: seq<(OutPoint, Coin)>, tx: Tx, vout: nat) {
    && (forall i | 0 <= i < |created| :: created[i].0 in CreatedKeys(tx) && created[i].0.vout >= vout)
    && (forall i, j | 0 <= i < j < |created| :: created[i].0.vout < created[j].0.vout)
  }

  lemma {:induction false} CreatedFromKeys(tx: Tx, vout: nat, env: Env, coinbase: bool)
    ensures KeyedInOrder(CreatedFrom(tx, vout, env, coinbase), tx, vout)
    decreases |tx.outputs| - vout
  {
    if vout < |tx.outputs| {
      CreatedFromKeys(tx, vout + 1, env, coinbase);
      var rest := CreatedFrom(tx, vout + 1, env, coinbase);
      if !IsUnspendable(tx.outputs[vout].script) {
        assert OutPoint(tx.txid, vout) in CreatedKeys(tx);
        assert CreatedFrom(tx, vout, env, coinbase)[1..] == rest;
      }
    }
  }

  lemma {:induction false} CreatedFromCovers(tx: Tx, vout: nat, env: Env, coinbase: bool, o: OutPoint) returns (i: nat)
    requires o in CreatedKeys(tx) && o.vout >= vout
    ensures i < |CreatedFrom(tx, vout, env, coinbase)| && CreatedFrom(tx, vout, env, coinbase)[i].0 == o
    decreases |tx.outputs| - vout
  {
    if o.vout == vout {
      i := 0;
    } else {
      i := CreatedFromCovers(tx, vout + 1, env, coinbase, o);
      if !IsUnspendable(tx.outputs[vout].script) { i := i + 1; }
    }
  }

  /** What a transaction creates, as a map over exactly its spendable outputs. */
  lemma CreatedMap(tx: Tx, env: Env, coinbase: bool)
    ensures ToMap(CreatedFrom(tx, 0, env, coinbase)).Keys == CreatedKeys(tx)
  {
    var created := CreatedFrom(tx, 0, env, coinbase);
    CreatedFromKeys(tx, 0, env, coinbase);
    forall o | o in CreatedKeys(tx) ensures o in ToMap(created) {
      var i := CreatedFromCovers(tx, 0, env, coinbase, o);
      assert created[i].0 == o;
    }
  }

  // ----- Lock times -----

  function LockTimeReference(tx: Tx, env: Env): nat {
    if tx.lockTime < LOCKTIME_THRESHOLD then env.height else env.lockTimeContext
  }

  predicate IsFinal(tx: Tx, env: Env) {
    || tx.lockTime == 0
    || tx.lockTime < LockTimeReference(tx, env)
    || forall i | 0 <= i < |tx.inputs| :: tx.inputs[i].sequence == U32_MAX
  }

  function SaturatingAdd(a: nat, b: nat): nat {
    Min(a + b, U32_MAX)
  }

  function SaturatingDec(a: nat): nat {
    if a == 0 then 0 else a - 1
  }

  /** BIP68, for version 2 and up (the version is compared as unsigned). */
  function SequenceLockError(input: TxIn, coin: Coin, env: Env): Option<TxError> {
    if input.sequence >= 0x8000_0000 then None
    else
      var relative := input.sequence % 0x1_0000;
      if (input.sequence / 0x40_0000) % 2 == 0 then
        var minimum := SaturatingDec(SaturatingAdd(coin.height, relative));
        if env.height <= minimum then Some(RelativeHeightLock(input.prevout, minimum)) else None
      else
        var minimum := SaturatingDec(SaturatingAdd(coin.creationMtp, relative * 512));
        if env.mtp <= minimum then Some(RelativeTimeLock(input.prevout, minimum)) else None
  }

  // ----- Values -----

  /** The running output total, in output order. */
  function OutputTotal(outputs: seq<TxOut>, sum: nat): Result<nat, TxError> {
    if outputs == [] then Ok(sum)
    else if outputs[0].value > MAX_MONEY then Err(MoneyRange)
    else if sum + outputs[0].value > U64_MAX then Err(ValueOverflow)
    else OutputTotal(outputs[1..], sum + outputs[0].value)
  }

  /** The first input that is null or repeats an earlier one. */
  function InputShapeError(inputs: seq<TxIn>, seen: set<OutPoint>): Option<TxError> {
    if inputs == [] then None
    else if inputs[0].prevout == NULL_OUTPOINT then Some(NullPrevout)
    else if inputs[0].prevout in seen then Some(DuplicateInput(inputs[0].prevout))
    else InputShapeError(inputs[1..], seen + {inputs[0].prevout})
  }

  function InputError(tx: Tx, input: TxIn, found: Option<Coin>, sum: nat, env: Env): Option<TxError> {
    match found
    case None => Some(Utxo(Missing(input.prevout)))
    case Some(coin) =>
      if coin.value > MAX_MONEY then Some(MoneyRange)
      else
        var maturesAt := SaturatingAdd(coin.height, COINBASE_MATURITY);
        if coin.isCoinbase && env.height < maturesAt then Some(ImmatureCoinbase(input.prevout, maturesAt))
        else
          var lock := if env.csvActive && tx.version >= 2 then SequenceLockError(input, coin, env) else None;
          if lock.Some? then lock
          else if sum + coin.value > U64_MAX then Some(ValueOverflow)
          else if sum + coin.value > MAX_MONEY then Some(MoneyRange)
          else None
  }

  /** The total of the inputs from `i` on, checked in input order. */
  function InputTotal(tx: Tx, resolved: seq<Option<Coin>>, i: nat, sum: nat, env: Env): Result<nat, TxError>
    requires |resolved| == |tx.inputs|
    decreases |tx.inputs| - i
  {
    if i >= |tx.inputs| then Ok(sum)
    else
      var error := InputError(tx, tx.inputs[i], resolved[i], sum, env);
      if error.Some? then Err(error.value)
      else InputTotal(tx, resolved, i + 1, sum + resolved[i].value.value, env)
  }

  function Outpoints(inputs: seq<TxIn>): (r: seq<OutPoint>)
    ensures |r| == |inputs| && forall i | 0 <= i < |inputs| :: r[i] == inputs[i].prevout
  {
    seq(|inputs|, i requires 0 <= i < |inputs| => inputs[i].prevout)
  }

  function Resolve(view: Utxos, inputs: seq<TxIn>): (r: seq<Option<Coin>>)
    ensures |r| == |inputs| && forall i | 0 <= i < |inputs| :: r[i] == Get(view, inputs[i].prevout)
  {
    seq(|inputs|, i requires 0 <= i < |inputs| => Get(view, inputs[i].prevout))
  }

  /** The coins of a fully resolved input list. */
  function Found(resolved: seq<Option<Coin>>): (r: seq<Coin>)
    requires forall i | 0 <= i < |resolved| :: resolved[i].Some?
    ensures |r| == |resolved| && forall i | 0 <= i < |r| :: r[i] == resolved[i].value
  {
    seq(|resolved|, i requires 0 <= i < |resolved| => resolved[i].value)
  }

  lemma {:induction false} InputTotalFound(tx: Tx, resolved: seq<Option<Coin>>, i: nat, sum: nat, env: Env)
    requires |resolved| == |tx.inputs| && InputTotal(tx, resolved, i, sum, env).Ok?
    ensures forall j | i <= j < |resolved| :: resolved[j].Some?
    ensures sum <= MAX_MONEY ==> InputTotal(tx, resolved, i, sum, env).value <= MAX_MONEY
    decreases |tx.inputs| - i
  {
    if i < |tx.inputs| {
      InputTotalFound(tx, resolved, i + 1, sum + resolved[i].value.value, env);
    }
  }

  /** Checks before any input is looked up; the output total when they pass. */
  function ShapeCheck(tx: Tx, env: Env): Result<nat, TxError> {
    if tx.baseSize * 4 > MAX_BASE_WEIGHT then Err(Oversize)
    else if !IsFinal(tx, env) then Err(NonFinalLockTime(tx.lockTime, LockTimeReference(tx, env)))
    else
      var total := OutputTotal(tx.outputs, 0);
      if total.Err? then total
      else if total.value > MAX_MONEY then Err(MoneyRange)
      else if tx.outputs == [] then Err(NoOutputs)
      else total
  }

  /** What checking a transaction against its resolved inputs gives. */
  function PrepareResolved(tx: Tx, resolved: seq<Option<Coin>>, env: Env, rules: Rules): Result<Prepared, TxError>
    requires |resolved| == |tx.inputs|
  {
    var total := ShapeCheck(tx, env);
    if total.Err? then Err(total.error)
    else if IsCoinbase(tx) then
      if !(2 <= tx.inputs[0].scriptSigLen <= 100) then Err(CoinbaseScriptSize)
      else Ok(Prepared(0, total.value, rules.sigopCost(tx, [], env.flags), [], [], CreatedOutputs(tx, env)))
    else if tx.inputs == [] then Err(NoInputs)
    else
      var shape := InputShapeError(tx.inputs, {});
      if shape.Some? then Err(shape.value)
      else
        var inputs := InputTotal(tx, resolved, 0, 0, env);
        if inputs.Err? then Err(inputs.error)
        else if total.value > inputs.value then Err(Inflation)
        else
          InputTotalFound(tx, resolved, 0, 0, env);
          var prevouts := Found(resolved);
          Ok(Prepared(inputs.value, total.value, rules.sigopCost(tx, prevouts, env.flags),
                      Outpoints(tx.inputs), prevouts, CreatedOutputs(tx, env)))
  }

  /** Checking a transaction against a coin set. */
  function PrepareTx(view: Utxos, tx: Tx, env: Env, rules: Rules): Result<Prepared, TxError> {
    PrepareResolved(tx, Resolve(view, tx.inputs), env, rules)
  }

  // ----- What a passing check guarantees -----

  lemma {:induction false} ShapeDistinct(inputs: seq<TxIn>, seen: set<OutPoint>)
    requires InputShapeError(inputs, seen) == None
    ensures forall i | 0 <= i < |inputs| :: inputs[i].prevout !in seen && inputs[i].prevout != NULL_OUTPOINT
    ensures forall i, j | 0 <= i < j < |inputs| :: inputs[i].prevout != inputs[j].prevout
  {
    if inputs != [] {
      var rest := inputs[1..];
      ShapeDistinct(rest, seen + {inputs[0].prevout});
      assert forall i | 1 <= i < |inputs| :: inputs[i] == rest[i - 1];
    }
  }

  function Total(coins: seq<Coin>): nat {
    if coins == [] then 0 else Total(coins[..|coins| - 1]) + coins[|coins| - 1].value
  }

  /** The checks passed: inputs are distinct, present, and worth no less than the outputs. */
  lemma PreparedFacts(view: Utxos, tx: Tx, env: Env, rules: Rules)
    requires PrepareTx(view, tx, env, rules).Ok?
    ensures var p := PrepareTx(view, tx, env, rules).value;
            && |p.spent| == |p.prevouts|
            && p.created == CreatedOutputs(tx, env)
            && (forall i | 0 <= i < |p.spent| :: Get(view, p.spent[i]) == Some(p.prevouts[i]))
            && (forall i, j | 0 <= i < j < |p.spent| :: p.spent[i] != p.spent[j])
            && p.spent == (if IsCoinbase(tx) then [] else Outpoints(tx.inputs))
            && (!IsCoinbase(tx) ==> p.outputValue <= p.inputValue)
  {
    if !IsCoinbase(tx) {
      ShapeDistinct(tx.inputs, {});
      InputTotalFound(tx, Resolve(view, tx.inputs), 0, 0, env);
    }
  }

  // ----- The checking loops -----

  method SumOutputs(outputs: seq<TxOut>) returns (total: Result<nat, TxError>)
    ensures total == OutputTotal(outputs, 0)
  {
    var sum: nat := 0;
    for i := 0 to |outputs|
      invariant OutputTotal(outputs, 0) == OutputTotal(outputs[i..], sum)
    {
      if outputs[i].value > MAX_MONEY { return Err(MoneyRange); }
      if sum + outputs[i].value > U64_MAX { return Err(ValueOverflow); }
      sum := sum + outputs[i].value;
    }
    return Ok(sum);
  }

  method FindShapeError(inputs: seq<TxIn>) returns (error: Option<TxError>)
    ensures error == InputShapeError(inputs, {})
  {
    var unique: set<OutPoint> := {};
    for i := 0 to |inputs|
      invariant InputShapeError(inputs, {}) == InputShapeError(inputs[i..], unique)
    {
      if inputs[i].prevout == NULL_OUTPOINT { return Some(NullPrevout); }
      if inputs[i].prevout in unique { return Some(DuplicateInput(inputs[i].prevout)); }
      unique := unique + {inputs[i].prevout};
    }
    return None;
  }

  /** Resolves and checks one transaction; nothing is written. */
  method PrepareTransaction(tx: Tx, resolved: seq<Option<Coin>>, env: Env, rules: Rules)
    returns (r: Result<Prepared, TxError>)
    requires |resolved| == |tx.inputs|
    ensures r == PrepareResolved(tx, resolved, env, rules)
  {
    hide OutputTotal, InputShapeError, CreatedOutputs, InputError;
    if tx.baseSize * 4 > MAX_BASE_WEIGHT { return Err(Oversize); }
    if !IsFinal(tx, env) { return Err(NonFinalLockTime(tx.lockTime, LockTimeReference(tx, env))); }
    var output := SumOutputs(tx.outputs);
    if output.Err? { return Err(output.error); }
    if output.value > MAX_MONEY { return Err(MoneyRange); }
    if tx.outputs == [] { return Err(NoOutputs); }
    if IsCoinbase(tx) {
      if !(2 <= tx.inputs[0].scriptSigLen <= 100) { return Err(CoinbaseScriptSize); }
      return Ok(Prepared(0, output.value, rules.sigopCost(tx, [], env.flags), [], [], CreatedOutputs(tx, env)));
    }
    if tx.inputs == [] { return Err(NoInputs); }
    var shape := FindShapeError(tx.inputs);
    if shape.Some? { return Err(shape.value); }
    var spent: seq<OutPoint>, prevouts: seq<Coin> := [], [];
    var inputValue: nat := 0;
    for i := 0 to |tx.inputs|
      invariant |spent| == |prevouts| == i
      invariant forall j | 0 <= j < i :: resolved[j] == Some(prevouts[j]) && spent[j] == tx.inputs[j].prevout
      invariant InputTotal(tx, resolved, 0, 0, env) == InputTotal(tx, resolved, i, inputValue, env)
    {
      var error := InputError(tx, tx.inputs[i], resolved[i], inputValue, env);
      if error.Some? { return Err(error.value); }
      FoundInput(tx, tx.inputs[i], resolved[i], inputValue, env);
      inputValue := inputValue + resolved[i].value.value;
      spent, prevouts := spent + [tx.inputs[i].prevout], prevouts + [resolved[i].value];
    }
    if output.value > inputValue { return Err(Inflation); }
    assert spent == Outpoints(tx.inputs) && prevouts == Found(resolved);
    return Ok(Prepared(inputValue, output.value, rules.sigopCost(tx, prevouts, env.flags),
                       spent, prevouts, CreatedOutputs(tx, env)));
  }

  lemma FoundInput(tx: Tx, input: TxIn, found: Option<Coin>, sum: nat, env: Env)
    requires InputError(tx, input, found, sum, env) == None
    ensures found.Some?
  {
  }
}
