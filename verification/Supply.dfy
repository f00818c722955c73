/**
 Value conservation: what a block does to the total value of the unspent coins,
 exactly; and the bound on the money supply after any run
 of connects and disconnects.
 */
module Supply {
  import opened Basics
  import opened Coins
  import opened Transactions
  import opened TxVerdict
  import opened Blocks
  import opened Overlay
  import opened Connect
  import opened Versions
  import opened Reorg
  import opened Batch
  import opened BatchFold
  import opened ReorgRuns
  import opened Subsidy

  // ----- The value of a coin set -----

  ghost function Value(coins: Utxos): nat {
    if coins == map[] then 0
    else
      var o :| o in coins;
      coins[o].value + Value(coins - {o})
  }

  lemma {:induction false} ValueRemove(coins: Utxos, o: OutPoint)
    requires o in coins
    ensures Value(coins) == coins[o].value + Value(coins - {o})
    decreases |coins|
  {
    var p :| p in coins && Value(coins) == coins[p].value + Value(coins - {p});
    if p != o {
      ValueRemove(coins - {p}, o);
      ValueRemove(coins - {o}, p);
      assert (coins - {p}) - {o} == (coins - {o}) - {p};
    }
  }

  lemma NoValue()
    ensures Value(map[]) == 0
  {
  }

  lemma RemoveFromUnion(a: Utxos, b: Utxos, o: OutPoint)
    requires o !in a && o in b
    ensures (a + b) - {o} == a + (b - {o}) && (b - {o}).Keys == b.Keys - {o} && (a + b)[o] == b[o]
  {
  }

  lemma {:induction false} ValueUnion(a: Utxos, b: Utxos)
    requires a.Keys !! b.Keys
    ensures Value(a + b) == Value(a) + Value(b)
    decreases b.Keys
  {
    hide Value;
    if b == map[] {
      assert a + b == a;
      NoValue();
    } else {
      var o :| o in b;
      ValueRemove(b, o);
      ValueRemove(a + b, o);
      RemoveFromUnion(a, b, o);
      ValueUnion(a, b - {o});
    }
  }

  lemma ValueSplit(coins: Utxos, keys: set<OutPoint>)
    ensures Value(coins) == Value(coins - keys) + Value(Restrict(coins, keys))
  {
    hide Value;
    ValueUnion(coins - keys, Restrict(coins, keys));
    assert (coins - keys) + Restrict(coins, keys) == coins;
  }

  // ----- A transaction -----

  /** The value of unspendable outputs, which never become coins. */
  function Burned(tx: Tx, vout: nat): nat
    decreases |tx.outputs| - vout
  {
    if vout >= |tx.outputs| then 0
    else (if IsUnspendable(tx.outputs[vout].script) then tx.outputs[vout].value else 0) + Burned(tx, vout + 1)
  }

  /** Outputs become coins or are burned. */
  lemma {:induction false} CreatedValue(tx: Tx, vout: nat, env: Env, coinbase: bool)
    ensures Value(ToMap(CreatedFrom(tx, vout, env, coinbase))) + Burned(tx, vout) == OutputValue(tx, vout)
    decreases |tx.outputs| - vout
  {
    if vout >= |tx.outputs| {
      assert ToMap<OutPoint, Coin>([]) == map[];
    } else {
      CreatedValue(tx, vout + 1, env, coinbase);
      var rest := CreatedFrom(tx, vout + 1, env, coinbase);
      if !IsUnspendable(tx.outputs[vout].script) {
        var output := tx.outputs[vout];
        var head :=
          (OutPoint(tx.txid, vout), Coin(output.value, env.height, coinbase, env.now, env.mtp, output.script));
        assert CreatedFrom(tx, vout, env, coinbase) == [head] + rest;
        CreatedFromKeys(tx, vout + 1, env, coinbase);
        PrependValue(head, rest);
      }
    }
  }

  lemma PrependValue(head: (OutPoint, Coin), rest: seq<(OutPoint, Coin)>)
    requires forall i | 0 <= i < |rest| :: rest[i].0 != head.0
    ensures Value(ToMap([head] + rest)) == head.1.value + Value(ToMap(rest))
  {
    hide Value;
    ToMapConcat([head], rest);
    assert ToMap([head]) == map[head.0 := head.1];
    hide ToMap;
    ValueUnion(map[head.0 := head.1], ToMap(rest));
    ValueOfOne(head.0, head.1);
  }

  lemma ValueOfOne(o: OutPoint, coin: Coin)
    ensures Value(map[o := coin]) == coin.value
  {
    ValueRemove(map[o := coin], o);
    assert map[o := coin] - {o} == map[];
  }

  lemma NoPairs(pairs: seq<(OutPoint, Coin)>)
    requires pairs == []
    ensures ToMap(pairs) == map[]
  {
  }

  lemma AppendValue(init: seq<(OutPoint, Coin)>, last: (OutPoint, Coin))
    requires forall i | 0 <= i < |init| :: init[i].0 != last.0
    ensures Value(ToMap(init + [last])) == Value(ToMap(init)) + last.1.value
  {
    hide Value, ToMap;
    ToMapAppend(init, last);
    ValueRemove(ToMap(init)[last.0 := last.1], last.0);
    assert ToMap(init)[last.0 := last.1] - {last.0} == ToMap(init);
  }

  lemma {:induction false} SpentValue(keys: seq<OutPoint>, coins: seq<Coin>)
    requires |keys| == |coins| && forall i, j | 0 <= i < j < |keys| :: keys[i] != keys[j]
    ensures Value(ToMap(Zip(keys, coins))) == Total(coins)
  {
    hide Value, ToMap;
    if keys == [] {
      NoValue();
      NoPairs(Zip(keys, coins));
    } else {
      var n := |keys| - 1;
      SpentValue(keys[..n], coins[..n]);
      var init := Zip(keys[..n], coins[..n]);
      assert Zip(keys, coins) == init + [(keys[n], coins[n])];
      AppendValue(init, (keys[n], coins[n]));
    }
  }

  /** The values a checked transaction reports are those of its coins and outputs. */
  lemma PreparedValues(view: Utxos, tx: Tx, env: Env, rules: Rules)
    requires PrepareTx(view, tx, env, rules).Ok?
    ensures var p := PrepareTx(view, tx, env, rules).value;
            && p.inputValue == Total(p.prevouts)
            && p.outputValue == OutputValue(tx, 0)
  {
    AcceptedExactlyWhen(view, tx, env, rules);
  }

  /** A transaction on fresh outputs moves exactly its value: inputs out, outputs in, burned value lost. */
  lemma TxConserves(view: Utxos, tx: Tx, env: Env, rules: Rules)
    requires PrepareTx(view, tx, env, rules).Ok? && CreatedKeys(tx) !! view.Keys
    ensures var p := PrepareTx(view, tx, env, rules).value;
            Value(After(view, p)) + p.inputValue + Burned(tx, 0) == Value(view) + p.outputValue
  {
    hide PrepareResolved, CreatedKeys, Value, CreatedFrom, ToMap, Burned, OutputValue, Total;
    var p := PrepareTx(view, tx, env, rules).value;
    PreparedFacts(view, tx, env, rules);
    PreparedValues(view, tx, env, rules);
    CreatedMap(tx, env, IsCoinbase(tx));
    CreatedValue(tx, 0, env, IsCoinbase(tx));
    ZipIsRestrict(view, p.spent, p.prevouts);
    SpentValue(p.spent, p.prevouts);
    ValueSplit(view, ToSet(p.spent));
    ValueUnion(view - ToSet(p.spent), ToMap(p.created));
  }

  // ----- A block -----

  function BurnedBy(txs: seq<Tx>, n: nat): nat
    requires n <= |txs|
  {
    if n == 0 then 0 else BurnedBy(txs, n - 1) + Burned(txs[n - 1], 0)
  }

  /** Running totals: coins, collected fees and burned value balance against the coinbase's claim. */
  lemma {:induction false} RunConserves(view: Utxos, c: Candidate, n: nat, rules: BlockRules)
    requires n <= |c.block.txs| && WellFormed(c.block.txs) && Fresh(view, c.block.txs)
    requires RunPrefix(view, c, n, rules).Ok?
    ensures var r := RunPrefix(view, c, n, rules).value;
            Value(r.view) + r.fees + BurnedBy(c.block.txs, n) ==
            Value(view) + if n == 0 then 0 else r.done[0].outputValue
  {
    hide StepTx, CreatedKeys, Value, Burned, Fresh, WellFormed;
    if n > 0 {
      RunConserves(view, c, n - 1, rules);
      FreshAtStep(view, c, n - 1, rules);
      StepValues(RunPrefix(view, c, n - 1, rules).value, c, n - 1, rules);
    }
  }

  /** One transaction of a run. */
  lemma StepValues(r: Running, c: Candidate, i: nat, rules: BlockRules)
    requires i < |c.block.txs| && WellFormed(c.block.txs) && |r.done| == i && StepTx(r, c, i, rules).Ok?
    requires CreatedKeys(c.block.txs[i]) !! r.view.Keys
    ensures var after := StepTx(r, c, i, rules).value;
            && Value(after.view) + after.fees + Burned(c.block.txs[i], 0) ==
               Value(r.view) + r.fees + (if i == 0 then after.done[0].outputValue else 0)
            && (i > 0 ==> after.done[0] == r.done[0])
  {
    hide PrepareTx, CreatedKeys, Value, Burned, After;
    TxConserves(r.view, c.block.txs[i], EnvOf(c), rules.tx);
    PreparedFacts(r.view, c.block.txs[i], EnvOf(c), rules.tx);
    CoinbaseHasNoInputs(r.view, c.block.txs[i], EnvOf(c), rules.tx);
    assert IsCoinbase(c.block.txs[i]) <==> i == 0;
  }

  lemma CoinbaseHasNoInputs(view: Utxos, tx: Tx, env: Env, rules: Rules)
    requires PrepareTx(view, tx, env, rules).Ok?
    ensures IsCoinbase(tx) ==> PrepareTx(view, tx, env, rules).value.inputValue == 0
  {
  }

  /**
   Exact conservation by a block: the coins change by what the coinbase claims,
   less the fees, the burned outputs and the coins overwritten under the BIP30
   exception; and the claim never exceeds subsidy and fees.
   */
  lemma BlockConserves(view: Utxos, c: Candidate, prevalidated: bool, rules: BlockRules)
    requires prevalidated ==> StructureError(c, rules) == None
    requires FreshCandidate(view, c) && Prepare(view, c, prevalidated, rules).Ok?
    ensures var ready := Prepare(view, c, prevalidated, rules).value;
            && ready.run.done != []
            && Value(ready.run.view) + ready.run.fees + BurnedBy(c.block.txs, |c.block.txs|) + Value(ready.removed) ==
               Value(view) + ready.run.done[0].outputValue
            && ready.run.done[0].outputValue <= c.deployment.subsidy + ready.run.fees
  {
    hide Prepare, RunPrefix, FreshCandidate, Fresh, Bip30, Value, BurnedBy;
    ReadyFacts(view, c, prevalidated, rules);
    var ready := Prepare(view, c, prevalidated, rules).value;
    RunConserves(view - ready.removed.Keys, c, |c.block.txs|, rules);
    ValueSplit(view, ready.removed.Keys);
  }

  /** No block adds more than its subsidy. */
  lemma NoInflation(view: Utxos, c: Candidate, prevalidated: bool, rules: BlockRules)
    requires prevalidated ==> StructureError(c, rules) == None
    requires FreshCandidate(view, c) && Prepare(view, c, prevalidated, rules).Ok?
    ensures Value(Prepare(view, c, prevalidated, rules).value.run.view) <= Value(view) + c.deployment.subsidy
  {
    hide Prepare, FreshCandidate, Value, BurnedBy;
    BlockConserves(view, c, prevalidated, rules);
  }

  // ----- The supply over a run -----

  /** Every block met the freshness contract where it was connected. */
  ghost predicate FreshChain(start: Utxos, chain: seq<Candidate>, rules: BlockRules) {
    chain == [] ||
    var last := |chain| - 1;
    && FreshChain(start, chain[..last], rules)
    && Replay(start, chain[..last], rules).Some?
    && FreshCandidate(Replay(start, chain[..last], rules).value, chain[last])
  }

  /** Blocks carry the heights above the base and the scheduled subsidies. */
  predicate OnSchedule(base: Tip, chain: seq<Candidate>, interval: nat)
    requires interval != 0
  {
    forall i | 0 <= i < |chain| ::
      && chain[i].site.height == base.height + 1 + i
      && chain[i].deployment.subsidy == BlockSubsidy(chain[i].site.height, interval)
  }

  /** Replaying a chain adds no more than its subsidies. */
  lemma {:induction false} ReplayMints(start: Utxos, base: Tip, chain: seq<Candidate>, interval: nat, rules: BlockRules)
    requires interval != 0 && FreshChain(start, chain, rules) && OnSchedule(base, chain, interval)
    requires Replay(start, chain, rules).Some?
    requires Value(start) <= Minted(base.height + 1, interval)
    ensures Value(Replay(start, chain, rules).value) <= Minted(base.height + 1 + |chain|, interval)
  {
    hide FreshCandidate, Value, BlockSubsidy, Prepare, ScriptFailure;
    if chain != [] {
      var last := |chain| - 1;
      ReplayMints(start, base, chain[..last], interval, rules);
      NoInflation(Replay(start, chain[..last], rules).value, chain[last], false, rules);
      assert Minted(base.height + 1 + |chain|, interval) ==
             Minted(base.height + 1 + last, interval) + BlockSubsidy(base.height + 1 + last, interval);
    }
  }

  /** Connected blocks carry the next height and its scheduled subsidy. */
  predicate Scheduled(n: Node, e: Event, interval: nat)
    requires interval != 0
  {
    match e
    case ConnectBlock(c) => OnSchedule(n.store.tip, [c], interval)
    case ConnectBlocks(cs, _) => OnSchedule(n.store.tip, cs, interval)
    case _ => true
  }

  lemma StepKeepsSchedule(start: Utxos, base: Tip, n: Node, e: Event, interval: nat, rules: BlockRules)
    requires interval != 0 && Sound(start, base, n, rules) && Admissible(n, e, rules) && Scheduled(n, e, interval)
    requires FreshChain(start, n.chain, rules) && OnSchedule(base, n.chain, interval)
    ensures FreshChain(start, Step(base, n, e, rules).chain, rules)
            && OnSchedule(base, Step(base, n, e, rules).chain, interval)
  {
    hide FreshCandidate, FreshChain, Replay, LastBlockUndo, Connected, Disconnected, OnSchedule, BatchConnected;
    hide BatchFresh, Prevalidated, DistinctHashes, ConnectEach;
    match e {
      case ConnectBlock(c) =>
        OneMoreFresh(start, n.chain, c, rules);
        ScheduleExtends(base, n.chain, [c], interval);
      case ConnectBlocks(cs, prevalidated) =>
        BatchIsFold(n.store, cs, prevalidated, rules);
        ScheduleExtends(base, n.chain, cs, interval);
        if BatchConnected(n.store, cs, prevalidated, rules).Ok? {
          BatchIsFresh(start, base, n, cs, |cs|, rules);
          assert cs[..|cs|] == cs;
        }
      case DisconnectBlock =>
        if n.chain != [] {
          OneLessFresh(start, n.chain, rules);
          ScheduleShrinks(base, n.chain, interval);
        }
      case PruneUndo(hash) =>
    }
  }

  lemma ScheduleExtends(base: Tip, chain: seq<Candidate>, cs: seq<Candidate>, interval: nat)
    requires interval != 0 && OnSchedule(base, chain, interval) && OnSchedule(TipOf(base, chain), cs, interval)
    ensures OnSchedule(base, chain + cs, interval)
  {
    hide BlockSubsidy;
    forall i | 0 <= i < |chain + cs|
      ensures (chain + cs)[i].site.height == base.height + 1 + i
              && (chain + cs)[i].deployment.subsidy == BlockSubsidy((chain + cs)[i].site.height, interval)
    {
      assert (chain + cs)[i] == if i < |chain| then chain[i] else cs[i - |chain|];
    }
  }

  lemma ScheduleShrinks(base: Tip, chain: seq<Candidate>, interval: nat)
    requires interval != 0 && OnSchedule(base, chain, interval) && chain != []
    ensures OnSchedule(base, chain[..|chain| - 1], interval)
  {
  }

  /** The blocks of a batch met the freshness contract where they were connected. */
  lemma {:induction false} BatchIsFresh(start: Utxos, base: Tip, n: Node, cs: seq<Candidate>, k: nat, rules: BlockRules)
    requires Sound(start, base, n, rules) && k <= |cs| && BatchFresh(n.store.utxos, cs, false, rules)
    requires DistinctHashes(n.chain + cs) && ConnectEach(n.store, cs, k, rules).Ok? && FreshChain(start, n.chain, rules)
    ensures FreshChain(start, n.chain + cs[..k], rules)
  {
    hide LastBlockUndo, Replay, Connected, FreshCandidate, SeqConnect, FreshChain;
    if k == 0 {
      assert n.chain + cs[..0] == n.chain;
    } else {
      BatchIsFresh(start, base, n, cs, k - 1, rules);
      EachStaysSound(start, base, n, cs, k - 1, rules);
      OneMoreFresh(start, n.chain + cs[..k - 1], cs[k - 1], rules);
      assert n.chain + cs[..k - 1] + [cs[k - 1]] == n.chain + cs[..k];
    }
  }

  lemma OneMoreFresh(start: Utxos, chain: seq<Candidate>, c: Candidate, rules: BlockRules)
    requires FreshChain(start, chain, rules) && Replay(start, chain, rules).Some?
    requires FreshCandidate(Replay(start, chain, rules).value, c)
    ensures FreshChain(start, chain + [c], rules)
  {
    hide Replay, FreshCandidate;
    assert (chain + [c])[..|chain|] == chain;
  }

  lemma OneLessFresh(start: Utxos, chain: seq<Candidate>, rules: BlockRules)
    requires FreshChain(start, chain, rules) && chain != []
    ensures FreshChain(start, chain[..|chain| - 1], rules)
  {
    hide Replay, FreshCandidate;
  }

  lemma {:induction false} RunKeepsSchedule(start: Utxos, base: Tip, nodes: seq<Node>, events: seq<Event>, k: nat,
                                            interval: nat, rules: BlockRules)
    requires interval != 0 && IsRun(base, nodes, events, rules) && k <= |events|
    requires nodes[0] == Node(Store(start, base, map[]), [])
    requires forall i | 0 <= i < |events| :: Scheduled(nodes[i], events[i], interval)
    ensures FreshChain(start, nodes[k].chain, rules) && OnSchedule(base, nodes[k].chain, interval)
  {
    hide Step, Admissible, Scheduled, Sound, FreshChain;
    if k > 0 {
      RunKeepsSchedule(start, base, nodes, events, k - 1, interval, rules);
      CoinsDependOnlyOnTheChain(start, base, nodes, events, k - 1, rules);
      StepKeepsSchedule(start, base, nodes[k - 1], events[k - 1], interval, rules);
    } else {
      NothingConnected(start, rules);
    }
  }

  lemma NothingConnected(start: Utxos, rules: BlockRules)
    ensures FreshChain(start, [], rules)
  {
  }

  /**
   The money supply: after any run of connects, batches, disconnects and
   prunings on the subsidy schedule, the coins are worth at most what was minted up to the
   tip, which on the 210,000-block schedule is within the money range.
   */
  lemma SupplyIsBounded(start: Utxos, base: Tip, nodes: seq<Node>, events: seq<Event>, k: nat, interval: nat,
                        rules: BlockRules)
    requires interval != 0 && IsRun(base, nodes, events, rules) && k <= |events|
    requires nodes[0] == Node(Store(start, base, map[]), [])
    requires forall i | 0 <= i < |events| :: Scheduled(nodes[i], events[i], interval)
    requires Value(start) <= Minted(base.height + 1, interval)
    ensures Value(nodes[k].store.utxos) <= Minted(nodes[k].store.tip.height + 1, interval)
    ensures Value(nodes[k].store.utxos) <= 2 * interval * INITIAL_SUBSIDY
    ensures interval == BITCOIN_HALVING_INTERVAL ==> Value(nodes[k].store.utxos) <= MAX_MONEY
  {
    hide Step, Admissible, Scheduled, Value, Minted, FreshChain, OnSchedule, Replay, LastBlockUndo;
    RunKeepsSchedule(start, base, nodes, events, k, interval, rules);
    CoinsDependOnlyOnTheChain(start, base, nodes, events, k, rules);
    ReplayMints(start, base, nodes[k].chain, interval, rules);
    MintedBounded(nodes[k].store.tip.height + 1, interval);
  }
}
