/**
 When a transaction passes, in terms of the coins it spends and the literal
 limits, independently of the order in which it is checked; what a passing one
 spends and creates; and that every refusal names a condition that fails.
 */
module TxVerdict {
  import opened Basics
  import opened Coins
  import opened Transactions

  // ----- Values -----

  /** The value of the outputs from `vout` on. */
  function OutputValue(tx: Tx, vout: nat): nat
    decreases |tx.outputs| - vout
  {
    if vout >= |tx.outputs| then 0 else tx.outputs[vout].value + OutputValue(tx, vout + 1)
  }

  /** The outputs pass their range checks when their total is money, and then that is what they sum to. */
  lemma {:induction false} OutputTotalIs(tx: Tx, vout: nat, sum: nat)
    requires vout <= |tx.outputs|
    ensures var total := OutputTotal(tx.outputs[vout..], sum);
            && (total.Ok? ==> total.value == sum + OutputValue(tx, vout))
            && (sum + OutputValue(tx, vout) <= MAX_MONEY ==> total.Ok?)
    decreases |tx.outputs| - vout
  {
    if vout < |tx.outputs| {
      assert tx.outputs[vout..][1..] == tx.outputs[vout + 1..];
      OutputTotalIs(tx, vout + 1, sum + tx.outputs[vout].value);
    }
  }

  // ----- When a transaction passes -----

  /** A transaction that mints: one input, and that names nothing. */
  predicate Mints(tx: Tx) {
    |tx.inputs| == 1 && tx.inputs[0].prevout == OutPoint(0, 0xffff_ffff)
  }

  /** Not locked: no lock time, one already passed, or every input opts out. */
  predicate Unlocked(tx: Tx, height: nat, lockTimeContext: nat) {
    || tx.lockTime == 0
    || (tx.lockTime < 500_000_000 && tx.lockTime < height)
    || (tx.lockTime >= 500_000_000 && tx.lockTime < lockTimeContext)
    || forall i | 0 <= i < |tx.inputs| :: tx.inputs[i].sequence == 0xffff_ffff
  }

  /** A coinbase output may be spent from its hundredth successor on. */
  predicate Mature(coin: Coin, height: nat) {
    coin.isCoinbase ==> height >= coin.height + 100 || height >= 0xffff_ffff
  }

  /** The low sixteen bits of an input's sequence, in blocks or in units of 512 seconds by bit 22. */
  predicate RelativelyUnlocked(input: TxIn, coin: Coin, height: nat, mtp: nat) {
    var relative := input.sequence % 0x1_0000;
    if input.sequence / 0x40_0000 % 2 == 0
    then height >= 1 && (height >= coin.height + relative || height >= 0xffff_ffff)
    else mtp >= 1 && (mtp >= coin.creationMtp + 512 * relative || mtp >= 0xffff_ffff)
  }

  /** What an input asks of its coin. */
  predicate InputPasses(tx: Tx, input: TxIn, coin: Coin, env: Env) {
    && coin.value <= 2_100_000_000_000_000
    && Mature(coin, env.height)
    && (env.csvActive && tx.version >= 2 && input.sequence < 0x8000_0000 ==>
          RelativelyUnlocked(input, coin, env.height, env.mtp))
  }

  /** Every input is in the coin set. */
  predicate Present(view: Utxos, tx: Tx) {
    forall i | 0 <= i < |tx.inputs| :: tx.inputs[i].prevout in view
  }

  /** The coins a transaction spends, in input order; a coinbase spends none. */
  function InputCoins(view: Utxos, tx: Tx): (coins: seq<Coin>)
    requires Mints(tx) || Present(view, tx)
    ensures |coins| == if Mints(tx) then 0 else |tx.inputs|
    ensures forall i | 0 <= i < |coins| :: tx.inputs[i].prevout in view && coins[i] == view[tx.inputs[i].prevout]
  {
    if Mints(tx) then []
    else seq(|tx.inputs|, i requires 0 <= i < |tx.inputs| && Present(view, tx) => view[tx.inputs[i].prevout])
  }

  /** The conditions on a transaction that spends coins. */
  predicate SpendPasses(view: Utxos, tx: Tx, env: Env) {
    && tx.inputs != []
    && (forall i | 0 <= i < |tx.inputs| :: tx.inputs[i].prevout != OutPoint(0, 0xffff_ffff))
    && (forall i, j | 0 <= i < j < |tx.inputs| :: tx.inputs[i].prevout != tx.inputs[j].prevout)
    && Present(view, tx)
    && (forall i | 0 <= i < |tx.inputs| :: InputPasses(tx, tx.inputs[i], view[tx.inputs[i].prevout], env))
    && OutputValue(tx, 0) <= Total(InputCoins(view, tx)) <= 2_100_000_000_000_000
  }

  /** The conditions on a transaction. */
  predicate TxPasses(view: Utxos, tx: Tx, env: Env) {
    && 4 * tx.baseSize <= 4_000_000
    && Unlocked(tx, env.height, env.lockTimeContext)
    && tx.outputs != [] && OutputValue(tx, 0) <= 2_100_000_000_000_000
    && (if Mints(tx) then 2 <= tx.inputs[0].scriptSigLen <= 100 else SpendPasses(view, tx, env))
  }

  // ----- The checks, one by one -----

  lemma ShapePasses(tx: Tx, env: Env)
    ensures ShapeCheck(tx, env).Ok? <==>
            && 4 * tx.baseSize <= 4_000_000 && Unlocked(tx, env.height, env.lockTimeContext)
            && tx.outputs != [] && OutputValue(tx, 0) <= 2_100_000_000_000_000
    ensures ShapeCheck(tx, env).Ok? ==> ShapeCheck(tx, env).value == OutputValue(tx, 0)
  {
    hide OutputTotal, OutputValue;
    assert tx.outputs[0..] == tx.outputs;
    OutputTotalIs(tx, 0, 0);
  }

  lemma {:induction false} DistinctPasses(inputs: seq<TxIn>, seen: set<OutPoint>)
    requires forall i | 0 <= i < |inputs| :: inputs[i].prevout !in seen && inputs[i].prevout != NULL_OUTPOINT
    requires forall i, j | 0 <= i < j < |inputs| :: inputs[i].prevout != inputs[j].prevout
    ensures InputShapeError(inputs, seen) == None
  {
    if inputs != [] {
      var rest := inputs[1..];
      assert forall i | 0 <= i < |rest| :: rest[i] == inputs[i + 1];
      DistinctPasses(rest, seen + {inputs[0].prevout});
    }
  }

  lemma DistinctExactly(inputs: seq<TxIn>)
    ensures InputShapeError(inputs, {}) == None <==>
            && (forall i | 0 <= i < |inputs| :: inputs[i].prevout != OutPoint(0, 0xffff_ffff))
            && (forall i, j | 0 <= i < j < |inputs| :: inputs[i].prevout != inputs[j].prevout)
  {
    if InputShapeError(inputs, {}) == None { ShapeDistinct(inputs, {}); }
    if && (forall i | 0 <= i < |inputs| :: inputs[i].prevout != NULL_OUTPOINT)
       && (forall i, j | 0 <= i < j < |inputs| :: inputs[i].prevout != inputs[j].prevout) {
      DistinctPasses(inputs, {});
    }
  }

  lemma LockPasses(input: TxIn, coin: Coin, env: Env)
    ensures SequenceLockError(input, coin, env) == None <==>
            (input.sequence < 0x8000_0000 ==> RelativelyUnlocked(input, coin, env.height, env.mtp))
  {
  }

  lemma InputErrorIs(tx: Tx, input: TxIn, coin: Coin, sum: nat, env: Env)
    ensures InputError(tx, input, Some(coin), sum, env) == None <==>
            InputPasses(tx, input, coin, env) && sum + coin.value <= MAX_MONEY
  {
    hide SequenceLockError, RelativelyUnlocked;
    LockPasses(input, coin, env);
  }

  /** The value of the coins from `i` on. */
  function TotalFrom(coins: seq<Coin>, i: nat): nat
    decreases |coins| - i
  {
    if i >= |coins| then 0 else coins[i].value + TotalFrom(coins, i + 1)
  }

  lemma {:induction false} TotalSplits(coins: seq<Coin>, i: nat)
    requires i <= |coins|
    ensures Total(coins[..i]) + TotalFrom(coins, i) == Total(coins)
    decreases |coins| - i
  {
    if i < |coins| {
      TotalSplits(coins, i + 1);
      assert coins[..i + 1][..i] == coins[..i];
    } else {
      assert coins[..i] == coins;
    }
  }

  /** The inputs from `i` on pass exactly when each is present and passes and the total is money. */
  lemma {:induction false} InputTotalIs(tx: Tx, resolved: seq<Option<Coin>>, i: nat, sum: nat, env: Env)
    requires |resolved| == |tx.inputs| && i <= |tx.inputs| && sum <= MAX_MONEY
    ensures var total := InputTotal(tx, resolved, i, sum, env);
            && (total.Ok? ==> forall j | i <= j < |resolved| :: resolved[j].Some?)
            && (total.Ok? ==> forall j | i <= j < |resolved| :: InputPasses(tx, tx.inputs[j], resolved[j].value, env))
    ensures (forall j | 0 <= j < |resolved| :: resolved[j].Some?) ==>
              var total, coins := InputTotal(tx, resolved, i, sum, env), Found(resolved);
              && (total.Ok? ==> total.value == sum + TotalFrom(coins, i) <= MAX_MONEY)
              && (sum + TotalFrom(coins, i) <= MAX_MONEY
                  && (forall j | i <= j < |coins| :: InputPasses(tx, tx.inputs[j], coins[j], env)) ==>
                    total.Ok?)
    decreases |tx.inputs| - i
  {
    hide InputPasses, InputError;
    if i < |tx.inputs| {
      NeedsCoin(tx, tx.inputs[i], sum, env);
      if resolved[i].Some? {
        InputErrorIs(tx, tx.inputs[i], resolved[i].value, sum, env);
        if InputError(tx, tx.inputs[i], resolved[i], sum, env) == None {
          InputTotalIs(tx, resolved, i + 1, sum + resolved[i].value.value, env);
        }
      }
    }
  }

  lemma NeedsCoin(tx: Tx, input: TxIn, sum: nat, env: Env)
    ensures InputError(tx, input, None, sum, env) == Some(Utxo(Missing(input.prevout)))
  {
  }

  /** What a transaction that passes amounts to. */
  function PreparedAs(view: Utxos, tx: Tx, env: Env, rules: Rules): Prepared
    requires TxPasses(view, tx, env)
  {
    var coins := InputCoins(view, tx);
    Prepared(Total(coins), OutputValue(tx, 0), rules.sigopCost(tx, coins, env.flags),
             if Mints(tx) then [] else Outpoints(tx.inputs), coins, CreatedOutputs(tx, env))
  }

  lemma SpendExactly(view: Utxos, tx: Tx, env: Env, rules: Rules)
    requires !Mints(tx) && ShapeCheck(tx, env).Ok?
    ensures PrepareTx(view, tx, env, rules).Ok? <==> SpendPasses(view, tx, env)
    ensures PrepareTx(view, tx, env, rules).Ok? ==>
              PrepareTx(view, tx, env, rules).value.inputValue == Total(InputCoins(view, tx))
              && PrepareTx(view, tx, env, rules).value.prevouts == InputCoins(view, tx)
  {
    hide InputShapeError, InputTotal, ShapeCheck, InputPasses, OutputValue, CreatedOutputs;
    ShapePasses(tx, env);
    DistinctExactly(tx.inputs);
    var resolved := Resolve(view, tx.inputs);
    InputTotalIs(tx, resolved, 0, 0, env);
    if Present(view, tx) {
      var coins := InputCoins(view, tx);
      assert coins == Found(resolved);
      TotalSplits(coins, 0);
      assert coins[..0] == [];
    }
  }

  /**
   A transaction is accepted exactly when its conditions hold, and then with
   the coins it spends, their total, and the total of its outputs.
   */
  lemma AcceptedExactlyWhen(view: Utxos, tx: Tx, env: Env, rules: Rules)
    ensures PrepareTx(view, tx, env, rules).Ok? <==> TxPasses(view, tx, env)
    ensures TxPasses(view, tx, env) ==> PrepareTx(view, tx, env, rules) == Ok(PreparedAs(view, tx, env, rules))
  {
    hide InputShapeError, InputTotal, ShapeCheck, SpendPasses, OutputValue, CreatedOutputs;
    ShapePasses(tx, env);
    if ShapeCheck(tx, env).Ok? && !Mints(tx) { SpendExactly(view, tx, env, rules); }
  }

  // ----- What a transaction creates -----

  /** Neither a data carrier nor too long to be run. */
  predicate Spendable(script: seq<Byte>) {
    !(|script| > 0 && script[0] == 0x6a) && |script| <= 10_000
  }

  /** The coin of one output. */
  function CoinOf(tx: Tx, vout: nat, env: Env): Coin
    requires vout < |tx.outputs|
  {
    Coin(tx.outputs[vout].value, env.height, Mints(tx), env.now, env.mtp, tx.outputs[vout].script)
  }

  lemma {:induction false} CreatedPair(tx: Tx, vout: nat, env: Env, i: nat)
    requires i < |CreatedFrom(tx, vout, env, IsCoinbase(tx))|
    ensures var (o, coin) := CreatedFrom(tx, vout, env, IsCoinbase(tx))[i];
            && o.txid == tx.txid && o.vout < |tx.outputs| && Spendable(tx.outputs[o.vout].script)
            && coin == CoinOf(tx, o.vout, env)
    decreases |tx.outputs| - vout
  {
    if IsUnspendable(tx.outputs[vout].script) {
      CreatedPair(tx, vout + 1, env, i);
    } else if i > 0 {
      CreatedPair(tx, vout + 1, env, i - 1);
    }
  }

  lemma {:induction false} PairOf<K(!new), V>(pairs: seq<(K, V)>, k: K) returns (i: nat)
    requires k in ToMap(pairs)
    ensures i < |pairs| && pairs[i] == (k, ToMap(pairs)[k])
  {
    var n := |pairs| - 1;
    if pairs[n].0 == k { i := n; } else { i := PairOf(pairs[..n], k); }
  }

  /** Exactly the spendable outputs become coins, each with its value, script and origin. */
  lemma CreatedExactly(tx: Tx, env: Env, o: OutPoint)
    ensures Get(ToMap(CreatedOutputs(tx, env)), o) ==
            if o.txid == tx.txid && o.vout < |tx.outputs| && Spendable(tx.outputs[o.vout].script)
            then Some(CoinOf(tx, o.vout, env)) else None
  {
    hide ToMap, CreatedFrom;
    var created := CreatedOutputs(tx, env);
    CreatedMap(tx, env, IsCoinbase(tx));
    if o in ToMap(created) {
      var i := PairOf(created, o);
      CreatedPair(tx, 0, env, i);
    }
  }

  // ----- What a refusal says -----

  predicate Unlockable(tx: Tx, env: Env) {
    4 * tx.baseSize <= 4_000_000 && Unlocked(tx, env.height, env.lockTimeContext)
  }

  /** Size, lock time and outputs are in order. */
  predicate Shaped(tx: Tx, env: Env) {
    Unlockable(tx, env) && tx.outputs != [] && OutputValue(tx, 0) <= 2_100_000_000_000_000
  }

  /** The inputs are named properly. */
  predicate Named(tx: Tx) {
    && !Mints(tx) && tx.inputs != []
    && (forall i | 0 <= i < |tx.inputs| :: tx.inputs[i].prevout != OutPoint(0, 0xffff_ffff))
    && (forall i, j | 0 <= i < j < |tx.inputs| :: tx.inputs[i].prevout != tx.inputs[j].prevout)
  }

  /** The value of the first `n` inputs. */
  function ValueOf(view: Utxos, tx: Tx, n: nat): nat
    requires n <= |tx.inputs| && forall i | 0 <= i < n :: tx.inputs[i].prevout in view
  {
    if n == 0 then 0 else ValueOf(view, tx, n - 1) + view[tx.inputs[n - 1].prevout].value
  }

  /** Everything before input `n` is in order. */
  predicate Reached(view: Utxos, tx: Tx, env: Env, n: nat) {
    && n <= |tx.inputs| && Shaped(tx, env) && Named(tx)
    && (forall i | 0 <= i < n :: tx.inputs[i].prevout in view)
    && (forall i | 0 <= i < n :: InputPasses(tx, tx.inputs[i], view[tx.inputs[i].prevout], env))
    && ValueOf(view, tx, n) <= 2_100_000_000_000_000
  }

  /** Checking gets to the coin of input `i`, which is money. */
  predicate Weighs(view: Utxos, tx: Tx, env: Env, i: nat, o: OutPoint) {
    && i < |tx.inputs| && Reached(view, tx, env, i) && tx.inputs[i].prevout == o
    && o in view && view[o].value <= 2_100_000_000_000_000
  }

  ghost predicate IsMissing(view: Utxos, tx: Tx, env: Env, o: OutPoint) {
    o !in view && exists i: nat :: i < |tx.inputs| && Reached(view, tx, env, i) && tx.inputs[i].prevout == o
  }

  ghost predicate Immature(view: Utxos, tx: Tx, env: Env, o: OutPoint, at: nat) {
    exists i: nat ::
      Weighs(view, tx, env, i, o) && view[o].isCoinbase && env.height < at == Min(view[o].height + 100, 0xffff_ffff)
  }

  /** A mature coin under a relative lock that applies. */
  predicate Locks(view: Utxos, tx: Tx, env: Env, i: nat, o: OutPoint) {
    && Weighs(view, tx, env, i, o) && Mature(view[o], env.height)
    && env.csvActive && tx.version >= 2 && tx.inputs[i].sequence < 0x8000_0000
  }

  ghost predicate HeightLocked(view: Utxos, tx: Tx, env: Env, o: OutPoint, minimum: nat) {
    exists i: nat ::
      && Locks(view, tx, env, i, o) && tx.inputs[i].sequence / 0x40_0000 % 2 == 0 && minimum >= env.height
      && minimum + 1 == Max(1, Min(view[o].height + tx.inputs[i].sequence % 0x1_0000, 0xffff_ffff))
  }

  ghost predicate TimeLocked(view: Utxos, tx: Tx, env: Env, o: OutPoint, minimum: nat) {
    exists i: nat ::
      && Locks(view, tx, env, i, o) && tx.inputs[i].sequence / 0x40_0000 % 2 == 1 && minimum >= env.mtp
      && minimum + 1 == Max(1, Min(view[o].creationMtp + 512 * (tx.inputs[i].sequence % 0x1_0000), 0xffff_ffff))
  }

  /** The first input that is not money itself, or that passes and takes the total over. */
  ghost predicate OverMoney(view: Utxos, tx: Tx, env: Env) {
    exists i: nat ::
      && i < |tx.inputs| && Reached(view, tx, env, i) && tx.inputs[i].prevout in view
      && var coin := view[tx.inputs[i].prevout];
         || coin.value > 2_100_000_000_000_000
         || (InputPasses(tx, tx.inputs[i], coin, env) && ValueOf(view, tx, i) + coin.value > 2_100_000_000_000_000)
  }

  function Max(a: nat, b: nat): nat {
    if a >= b then a else b
  }

  /** The outputs before `n` are named once and are not null. */
  predicate NamedBefore(inputs: seq<TxIn>, n: nat)
    requires n <= |inputs|
  {
    && (forall i | 0 <= i < n :: inputs[i].prevout != OutPoint(0, 0xffff_ffff))
    && (forall i, j | 0 <= i < j < n :: inputs[i].prevout != inputs[j].prevout)
  }

  /** The first input out of order is null. */
  predicate FirstNull(inputs: seq<TxIn>) {
    exists n | 0 <= n < |inputs| :: NamedBefore(inputs, n) && inputs[n].prevout == OutPoint(0, 0xffff_ffff)
  }

  /** The first input out of order names `o` again. */
  predicate FirstRepeated(inputs: seq<TxIn>, o: OutPoint) {
    o != OutPoint(0, 0xffff_ffff) &&
    exists n | 0 <= n < |inputs| ::
      NamedBefore(inputs, n) && inputs[n].prevout == o && exists i | 0 <= i < n :: inputs[i].prevout == o
  }

  /** The condition an error names fails, and every condition checked before it holds. */
  ghost predicate FirstCause(view: Utxos, tx: Tx, env: Env, e: TxError) {
    match e
    case Oversize => 4 * tx.baseSize > 4_000_000
    case NonFinalLockTime(lockTime, context) =>
      && 4 * tx.baseSize <= 4_000_000
      && !Unlocked(tx, env.height, env.lockTimeContext) && lockTime == tx.lockTime >= context
      && context == if lockTime < 500_000_000 then env.height else env.lockTimeContext
    case NoOutputs => Unlockable(tx, env) && tx.outputs == []
    case CoinbaseScriptSize => Shaped(tx, env) && Mints(tx) && !(2 <= tx.inputs[0].scriptSigLen <= 100)
    case NoInputs => Shaped(tx, env) && tx.inputs == []
    case NullPrevout => Shaped(tx, env) && !Mints(tx) && FirstNull(tx.inputs)
    case DuplicateInput(o) => Shaped(tx, env) && !Mints(tx) && FirstRepeated(tx.inputs, o)
    case Utxo(error) => error.Missing? && IsMissing(view, tx, env, error.key)
    case ImmatureCoinbase(o, at) => Immature(view, tx, env, o, at)
    case RelativeHeightLock(o, minimum) => HeightLocked(view, tx, env, o, minimum)
    case RelativeTimeLock(o, minimum) => TimeLocked(view, tx, env, o, minimum)
    case MoneyRange =>
      (Unlockable(tx, env) && OutputValue(tx, 0) > 2_100_000_000_000_000) || OverMoney(view, tx, env)
    case ValueOverflow => Unlockable(tx, env) && OutputValue(tx, 0) > 0xffff_ffff_ffff_ffff
    case Inflation =>
      Reached(view, tx, env, |tx.inputs|) && OutputValue(tx, 0) > ValueOf(view, tx, |tx.inputs|)
    case Script(_) => false
  }

  lemma {:induction false} ShapeTruthful(all: seq<TxIn>, n: nat, seen: set<OutPoint>)
    requires n <= |all| && NamedBefore(all, n)
    requires forall o :: o in seen <==> exists i | 0 <= i < n :: all[i].prevout == o
    requires InputShapeError(all[n..], seen).Some?
    ensures var e := InputShapeError(all[n..], seen).value;
            (e == NullPrevout && FirstNull(all)) || (e.DuplicateInput? && FirstRepeated(all, e.outpoint))
    decreases |all| - n
  {
    var o := all[n].prevout;
    if o != NULL_OUTPOINT && o !in seen {
      assert all[n..][1..] == all[n + 1..];
      forall q ensures q in seen + {o} <==> exists i | 0 <= i < n + 1 :: all[i].prevout == q {
        if q in seen {
          var i :| 0 <= i < n && all[i].prevout == q;
        }
      }
      assert NamedBefore(all, n + 1);
      ShapeTruthful(all, n + 1, seen + {o});
    }
  }

  lemma LockTruthful(view: Utxos, tx: Tx, i: nat, env: Env)
    requires i < |tx.inputs| && Locks(view, tx, env, i, tx.inputs[i].prevout)
    requires SequenceLockError(tx.inputs[i], view[tx.inputs[i].prevout], env).Some?
    ensures FirstCause(view, tx, env, SequenceLockError(tx.inputs[i], view[tx.inputs[i].prevout], env).value)
  {
    hide Weighs, OutputValue, Unlocked;
  }

  lemma OneInputTruthful(view: Utxos, tx: Tx, i: nat, env: Env)
    requires i < |tx.inputs| && Reached(view, tx, env, i)
    ensures var o := tx.inputs[i].prevout;
            match InputError(tx, tx.inputs[i], Get(view, o), ValueOf(view, tx, i), env)
            case Some(e) => FirstCause(view, tx, env, e)
            case None => Reached(view, tx, env, i + 1)
  {
    hide OutputValue, Unlocked, SequenceLockError, RelativelyUnlocked, HeightLocked, TimeLocked, Named;
    var o := tx.inputs[i].prevout;
    if o in view {
      InputErrorIs(tx, tx.inputs[i], view[o], ValueOf(view, tx, i), env);
      LockPasses(tx.inputs[i], view[o], env);
      var error := InputError(tx, tx.inputs[i], Some(view[o]), ValueOf(view, tx, i), env);
      if view[o].value <= MAX_MONEY {
        assert Weighs(view, tx, env, i, o);
        if Locks(view, tx, env, i, o) && SequenceLockError(tx.inputs[i], view[o], env).Some? {
          LockTruthful(view, tx, i, env);
        } else if error.Some? && !error.value.ImmatureCoinbase? {
          assert InputPasses(tx, tx.inputs[i], view[o], env) && error == Some(MoneyRange);
          assert OverMoney(view, tx, env);
        }
      }
    }
  }

  lemma {:induction false} InputsTruthful(view: Utxos, tx: Tx, i: nat, env: Env)
    requires Reached(view, tx, env, i)
    ensures var total := InputTotal(tx, Resolve(view, tx.inputs), i, ValueOf(view, tx, i), env);
            match total
            case Err(e) => FirstCause(view, tx, env, e)
            case Ok(sum) => Reached(view, tx, env, |tx.inputs|) && sum == ValueOf(view, tx, |tx.inputs|)
    decreases |tx.inputs| - i
  {
    hide FirstCause, InputError, Shaped, Named, InputPasses;
    if i < |tx.inputs| {
      var o := tx.inputs[i].prevout;
      OneInputTruthful(view, tx, i, env);
      if InputError(tx, tx.inputs[i], Get(view, o), ValueOf(view, tx, i), env) == None {
        InputsTruthful(view, tx, i + 1, env);
      }
    }
  }

  lemma {:induction false} OutputsTruthful(tx: Tx, vout: nat, sum: nat)
    requires vout <= |tx.outputs|
    ensures var total := OutputTotal(tx.outputs[vout..], sum);
            && (total == Err(MoneyRange) ==> sum + OutputValue(tx, vout) > MAX_MONEY)
            && (total == Err(ValueOverflow) ==> sum + OutputValue(tx, vout) > U64_MAX)
            && (total.Err? ==> total.error.MoneyRange? || total.error.ValueOverflow?)
    decreases |tx.outputs| - vout
  {
    if vout < |tx.outputs| {
      assert tx.outputs[vout..][1..] == tx.outputs[vout + 1..];
      OutputsTruthful(tx, vout + 1, sum + tx.outputs[vout].value);
    }
  }

  lemma ShapeRefused(view: Utxos, tx: Tx, env: Env)
    requires ShapeCheck(tx, env).Err?
    ensures FirstCause(view, tx, env, ShapeCheck(tx, env).error)
  {
    hide OutputTotal, OutputValue, OverMoney;
    assert tx.outputs[0..] == tx.outputs;
    OutputTotalIs(tx, 0, 0);
    OutputsTruthful(tx, 0, 0);
  }

  lemma NamesRefused(view: Utxos, tx: Tx, env: Env)
    requires Shaped(tx, env) && !Mints(tx) && InputShapeError(tx.inputs, {}).Some?
    ensures FirstCause(view, tx, env, InputShapeError(tx.inputs, {}).value)
  {
    hide FirstNull, FirstRepeated, InputShapeError;
    assert tx.inputs[0..] == tx.inputs;
    ShapeTruthful(tx.inputs, 0, {});
  }

  /**
   A refused transaction is refused for the first condition that fails, in the
   order of the checks, with the outpoint and the bound the error names.
   */
  lemma RefusedForCause(view: Utxos, tx: Tx, env: Env, rules: Rules)
    requires PrepareTx(view, tx, env, rules).Err?
    ensures FirstCause(view, tx, env, PrepareTx(view, tx, env, rules).error)
  {
    hide InputShapeError, InputTotal, ShapeCheck, CreatedOutputs, OutputValue, InputPasses, Immature, HeightLocked;
    hide TimeLocked, OverMoney, IsMissing, FirstNull, FirstRepeated;
    ShapePasses(tx, env);
    if ShapeCheck(tx, env).Err? {
      ShapeRefused(view, tx, env);
    } else if !Mints(tx) && tx.inputs != [] {
      DistinctExactly(tx.inputs);
      if InputShapeError(tx.inputs, {}).Some? {
        NamesRefused(view, tx, env);
      } else {
        InputsTruthful(view, tx, 0, env);
      }
    }
  }
}
