/**
 When a block connects, in terms of the coins each of its transactions finds:
 every transaction passes, fees, signature operations and the coinbase claim are
 within their limits, and no script fails.  And which failure is reported.
 */
module BlockVerdict {
  import opened Basics
  import opened Coins
  import opened Transactions
  import opened TxVerdict
  import opened Blocks
  import opened Overlay
  import opened Connect
  import opened Reorg

  // ----- What each transaction finds -----

  /** The coins transaction `n` finds: the start, with all earlier outputs and without all earlier inputs. */
  function ViewAt(view: Utxos, c: Candidate, n: nat): Utxos
    requires n <= |c.block.txs|
  {
    Settle(view, Created(c, n), Spent(c.block.txs, n))
  }

  /** Where the transactions of a block are checked. */
  function Place(c: Candidate): Env {
    var lockTimeContext := if c.deployment.csvActive then c.site.mtp else c.block.time;
    Env(c.site.height, c.site.now, c.site.mtp, lockTimeContext, c.deployment.flags, c.deployment.csvActive)
  }

  /** The first `n` transactions pass, each on the coins it finds. */
  predicate Pass(view: Utxos, c: Candidate, n: nat)
    requires n <= |c.block.txs|
  {
    forall i | 0 <= i < n :: TxPasses(ViewAt(view, c, i), c.block.txs[i], Place(c))
  }

  /** The coins transaction `i` spends. */
  function CoinsAt(view: Utxos, c: Candidate, i: nat): seq<Coin>
    requires i < |c.block.txs| && TxPasses(ViewAt(view, c, i), c.block.txs[i], Place(c))
  {
    InputCoins(ViewAt(view, c, i), c.block.txs[i])
  }

  /** What the transactions before `n` pay: the coins they spend less their outputs, the coinbase aside. */
  function Fees(view: Utxos, c: Candidate, n: nat): nat
    requires n <= |c.block.txs| && WellFormed(c.block.txs) && Pass(view, c, n)
  {
    if n <= 1 then 0
    else Fees(view, c, n - 1) + (Total(CoinsAt(view, c, n - 1)) - OutputValue(c.block.txs[n - 1], 0))
  }

  /** The signature operations of the transactions before `n`. */
  function Sigops(view: Utxos, c: Candidate, n: nat, rules: BlockRules): nat
    requires n <= |c.block.txs| && Pass(view, c, n)
  {
    if n == 0 then 0
    else
      Sigops(view, c, n - 1, rules) +
      rules.tx.sigopCost(c.block.txs[n - 1], CoinsAt(view, c, n - 1), c.deployment.flags)
  }

  /** The first `n` transactions run: they pass, and fees and signature operations are within their limits. */
  predicate Runs(view: Utxos, c: Candidate, n: nat, rules: BlockRules)
    requires n <= |c.block.txs| && WellFormed(c.block.txs)
  {
    && Pass(view, c, n)
    && Fees(view, c, n) <= 2_100_000_000_000_000
    && Sigops(view, c, n, rules) <= 80_000
  }

  /** What the first `n` transactions amount to. */
  function DoneAt(view: Utxos, c: Candidate, n: nat, rules: BlockRules): (done: seq<Prepared>)
    requires n <= |c.block.txs| && Pass(view, c, n)
    ensures |done| == n
    ensures forall i | 0 <= i < n ::
              done[i] == PreparedAs(ViewAt(view, c, i), c.block.txs[i], Place(c), rules.tx)
  {
    seq(n, i requires 0 <= i < n && Pass(view, c, n) =>
      PreparedAs(ViewAt(view, c, i), c.block.txs[i], Place(c), rules.tx))
  }

  // ----- Running -----

  lemma EarlierRuns(view: Utxos, c: Candidate, n: nat, rules: BlockRules)
    requires 0 < n <= |c.block.txs| && WellFormed(c.block.txs) && Runs(view, c, n, rules)
    ensures Runs(view, c, n - 1, rules)
  {
    hide ViewAt, TxPasses, WellFormed;
    FeeOf(view, c, n - 1);
  }

  /** Adding a transaction that passes to the totals: exactly the limits it may break, in order. */
  lemma AccountExactly(r: Running, p: Prepared, i: nat)
    requires r.fees <= 2_100_000_000_000_000
    requires i != 0 ==> p.outputValue <= p.inputValue <= 2_100_000_000_000_000
    ensures var fees := r.fees + if i == 0 then 0 else p.inputValue - p.outputValue;
            var sigops := r.sigops + p.sigopCost;
            Account(r, p, i) ==
            if fees > 2_100_000_000_000_000 then Err(FeeOutOfRange(fees))
            else if sigops > 0xffff_ffff_ffff_ffff then Err(SigopOverflow)
            else if sigops > 80_000 then Err(SigopCost(sigops))
            else Ok(Running(After(r.view, p), r.done + [p], fees, sigops))
  {
    hide After;
  }

  /** The state after the first `n` transactions. */
  function RunningAt(view: Utxos, c: Candidate, n: nat, rules: BlockRules): (r: Running)
    requires n <= |c.block.txs| && WellFormed(c.block.txs) && Pass(view, c, n)
    ensures |r.done| == n
  {
    Running(ViewAt(view, c, n), DoneAt(view, c, n, rules), Fees(view, c, n), Sigops(view, c, n, rules))
  }

  /** A transaction that passes is added to the totals. */
  lemma StepPasses(view: Utxos, c: Candidate, n: nat, rules: BlockRules)
    requires n < |c.block.txs| && WellFormed(c.block.txs) && Runs(view, c, n, rules) && Pass(view, c, n + 1)
    ensures Runs(view, c, n + 1, rules) ==>
              && StepTx(RunningAt(view, c, n, rules), c, n, rules).Ok?
              && StepTx(RunningAt(view, c, n, rules), c, n, rules).value.(view := ViewAt(view, c, n + 1)) ==
                 RunningAt(view, c, n + 1, rules)
    ensures !Runs(view, c, n + 1, rules) ==>
              StepTx(RunningAt(view, c, n, rules), c, n, rules) == Err(OverLimit(view, c, n + 1, rules))
  {
    hide ViewAt, TxPasses, PrepareTx, InputCoins, OutputValue, CreatedOutputs, After, Outranked, WellFormed, Account;
    hide Total;
    var r, tx := RunningAt(view, c, n, rules), c.block.txs[n];
    AcceptedExactlyWhen(r.view, tx, Place(c), rules.tx);
    FeeOf(view, c, n);
    var p := PreparedAs(r.view, tx, Place(c), rules.tx);
    AccountExactly(r, p, n);
    assert DoneAt(view, c, n + 1, rules) == DoneAt(view, c, n, rules) + [p];
  }

  /** A transaction that does not pass ends the run, unless an earlier script failed. */
  lemma StepRefused(view: Utxos, c: Candidate, n: nat, rules: BlockRules)
    requires n < |c.block.txs| && WellFormed(c.block.txs) && Runs(view, c, n, rules) && !Pass(view, c, n + 1)
    ensures var r := RunningAt(view, c, n, rules);
            && PrepareTx(r.view, c.block.txs[n], Place(c), rules.tx).Err?
            && StepTx(r, c, n, rules) ==
               Err(Outranked(c, r.done, rules,
                             TxFailed(n, PrepareTx(r.view, c.block.txs[n], Place(c), rules.tx).error)))
  {
    hide ViewAt, TxPasses, PrepareTx, Outranked, WellFormed, Account, Fees, Sigops, DoneAt;
    AcceptedExactlyWhen(ViewAt(view, c, n), c.block.txs[n], Place(c), rules.tx);
  }

  /** Which limit the first `n` transactions pass, given that they pass one by one. */
  function OverLimit(view: Utxos, c: Candidate, n: nat, rules: BlockRules): BlockError
    requires n <= |c.block.txs| && WellFormed(c.block.txs) && Pass(view, c, n)
  {
    if Fees(view, c, n) > 2_100_000_000_000_000 then FeeOutOfRange(Fees(view, c, n))
    else if Sigops(view, c, n, rules) > 0xffff_ffff_ffff_ffff then SigopOverflow
    else SigopCost(Sigops(view, c, n, rules))
  }

  /** The coinbase is first and pays no fee; any other fee is money. */
  lemma FeeOf(view: Utxos, c: Candidate, n: nat)
    requires n < |c.block.txs| && WellFormed(c.block.txs)
    requires TxPasses(ViewAt(view, c, n), c.block.txs[n], Place(c))
    ensures n == 0 ==> CoinsAt(view, c, n) == []
    ensures n > 0 ==> OutputValue(c.block.txs[n], 0) <= Total(CoinsAt(view, c, n)) <= 2_100_000_000_000_000
  {
    hide ViewAt, OutputValue, Total, InputPasses;
    assert Mints(c.block.txs[n]) <==> IsCoinbase(c.block.txs[n]);
  }

  /**
   A list of transactions runs exactly when each passes on the coins it finds
   and fees and signature operations are within their limits; and then it
   leaves those coins and totals.
   */
  lemma {:induction false} RunsExactlyWhen(view: Utxos, c: Candidate, n: nat, rules: BlockRules)
    requires n <= |c.block.txs| && WellFormed(c.block.txs) && Fresh(view, c.block.txs)
    ensures RunPrefix(view, c, n, rules).Ok? <==> Runs(view, c, n, rules)
    ensures Runs(view, c, n, rules) ==>
              RunPrefix(view, c, n, rules) == Ok(RunningAt(view, c, n, rules))
  {
    hide ViewAt, StepTx, Fresh, WellFormed, DoneAt, Fees, Sigops, TxPasses;
    if n == 0 {
      NothingRuns(view, c, rules);
    } else {
      RunsExactlyWhen(view, c, n - 1, rules);
      if Runs(view, c, n, rules) { EarlierRuns(view, c, n, rules); }
      if Runs(view, c, n - 1, rules) {
        if Pass(view, c, n) { StepPasses(view, c, n - 1, rules); } else { StepRefused(view, c, n - 1, rules); }
      }
    }
    if RunPrefix(view, c, n, rules).Ok? { RunIsSettled(view, c, n, rules); }
  }

  lemma RunIsSettled(view: Utxos, c: Candidate, n: nat, rules: BlockRules)
    requires n <= |c.block.txs| && WellFormed(c.block.txs) && Fresh(view, c.block.txs)
    requires RunPrefix(view, c, n, rules).Ok?
    ensures RunPrefix(view, c, n, rules).value.view == ViewAt(view, c, n)
  {
    hide RunPrefix, Settle;
    RunSettles(view, c, n, rules);
  }

  lemma NothingRuns(view: Utxos, c: Candidate, rules: BlockRules)
    requires WellFormed(c.block.txs)
    ensures Runs(view, c, 0, rules) && Fees(view, c, 0) == 0 && Sigops(view, c, 0, rules) == 0
    ensures DoneAt(view, c, 0, rules) == [] && ViewAt(view, c, 0) == view
  {
    NothingRun(view, c);
  }

  // ----- Scripts -----

  /** No script of the transactions before `n` fails; the coinbase has none. */
  predicate ScriptsPass(view: Utxos, c: Candidate, n: nat, rules: BlockRules)
    requires n <= |c.block.txs| && Pass(view, c, n)
  {
    forall i | 1 <= i < n ::
      rules.tx.scriptError(c.block.txs[i], CoinsAt(view, c, i), c.deployment.flags) == None
  }

  /** The first failing script among the transactions before `n` is that of transaction `j`. */
  predicate FirstBadScript(view: Utxos, c: Candidate, n: nat, j: nat, code: nat, rules: BlockRules)
    requires n <= |c.block.txs| && Pass(view, c, n)
  {
    && 1 <= j < n && ScriptsPass(view, c, j, rules)
    && rules.tx.scriptError(c.block.txs[j], CoinsAt(view, c, j), c.deployment.flags) == Some(code)
  }

  lemma {:induction false} ScriptFailureFrom(view: Utxos, c: Candidate, n: nat, i: nat, rules: BlockRules)
    requires n <= |c.block.txs| && Pass(view, c, n)
    requires if n == 0 then i == 1 else 1 <= i <= n && ScriptsPass(view, c, i, rules)
    ensures var f := ScriptFailure(c, DoneAt(view, c, n, rules), i, rules);
            match f
            case None => ScriptsPass(view, c, n, rules)
            case Some((j, code)) => FirstBadScript(view, c, n, j, code, rules)
    decreases n - i
  {
    hide ViewAt, TxPasses, InputCoins, OutputValue, CreatedOutputs;
    if i < n {
      var error := rules.tx.scriptError(c.block.txs[i], CoinsAt(view, c, i), c.deployment.flags);
      if error == None { ScriptFailureFrom(view, c, n, i + 1, rules); }
    }
  }

  /** Scripts fail on the transactions before `n` exactly when they do not pass, and the first is reported. */
  lemma ScriptsExactly(view: Utxos, c: Candidate, n: nat, rules: BlockRules)
    requires n <= |c.block.txs| && Pass(view, c, n)
    ensures var f := ScriptFailure(c, DoneAt(view, c, n, rules), 1, rules);
            && (f == None <==> ScriptsPass(view, c, n, rules))
            && (forall j: nat, code: nat | FirstBadScript(view, c, n, j, code, rules) :: f == Some((j, code)))
  {
    hide ViewAt, TxPasses, CoinsAt, DoneAt, ScriptFailure;
    ScriptFailureFrom(view, c, n, 1, rules);
  }

  // ----- Which failure is reported -----

  /**
   The transaction at which a run ends.  One that breaks a total is reported as
   that; one that does not pass is reported itself, unless the script of an
   earlier transaction failed.
   */
  lemma RunEndsWith(view: Utxos, c: Candidate, n: nat, rules: BlockRules)
    requires n < |c.block.txs| && WellFormed(c.block.txs) && Fresh(view, c.block.txs)
    requires Runs(view, c, n, rules) && !Runs(view, c, n + 1, rules)
    ensures Pass(view, c, n + 1) ==> ExecBlock(view, c, rules) == Err(OverLimit(view, c, n + 1, rules))
    ensures !Pass(view, c, n + 1) ==> PrepareTx(ViewAt(view, c, n), c.block.txs[n], Place(c), rules.tx).Err?
    ensures !Pass(view, c, n + 1) && ScriptsPass(view, c, n, rules) ==>
              ExecBlock(view, c, rules) ==
              Err(TxFailed(n, PrepareTx(ViewAt(view, c, n), c.block.txs[n], Place(c), rules.tx).error))
    ensures !Pass(view, c, n + 1) ==>
              forall j: nat, code: nat | FirstBadScript(view, c, n, j, code, rules) ::
                ExecBlock(view, c, rules) == Err(TxFailed(j, Script(code)))
  {
    hide ViewAt, TxPasses, PrepareTx, StepTx, Fresh, WellFormed, DoneAt, Fees, Sigops, CoinsAt;
    RunsExactlyWhen(view, c, n, rules);
    RunsExactlyWhen(view, c, n + 1, rules);
    FailureIsFinal(view, c, n + 1, |c.block.txs|, rules);
    if Pass(view, c, n + 1) {
      StepPasses(view, c, n, rules);
    } else {
      StepRefused(view, c, n, rules);
      ScriptsExactly(view, c, n, rules);
    }
  }

  /** The end of a block that runs: the claim against subsidy and fees, unless a script fails. */
  lemma ClaimExactly(view: Utxos, c: Candidate, rules: BlockRules)
    requires WellFormed(c.block.txs) && Fresh(view, c.block.txs) && Runs(view, c, |c.block.txs|, rules)
    ensures var n := |c.block.txs|;
            var claimed, allowed := OutputValue(c.block.txs[0], 0), c.deployment.subsidy + Fees(view, c, n);
            && (claimed <= allowed <= 0xffff_ffff_ffff_ffff ==>
                  ExecBlock(view, c, rules) == Ok(RunningAt(view, c, n, rules)))
            && (ScriptsPass(view, c, n, rules) && allowed > 0xffff_ffff_ffff_ffff ==>
                  ExecBlock(view, c, rules) == Err(FeeOverflow))
            && (ScriptsPass(view, c, n, rules) && claimed > allowed && allowed <= 0xffff_ffff_ffff_ffff ==>
                  ExecBlock(view, c, rules) == Err(ExcessCoinbase(claimed, allowed)))
            && (!(claimed <= allowed <= 0xffff_ffff_ffff_ffff) ==>
                  && ExecBlock(view, c, rules).Err?
                  && forall j: nat, code: nat | FirstBadScript(view, c, n, j, code, rules) ::
                       ExecBlock(view, c, rules) == Err(TxFailed(j, Script(code))))
  {
    hide ViewAt, TxPasses, Fresh, Fees, Sigops, CoinsAt, RunPrefix, OutputValue;
    RunsExactlyWhen(view, c, |c.block.txs|, rules);
    ScriptsExactly(view, c, |c.block.txs|, rules);
    assert DoneAt(view, c, |c.block.txs|, rules)[0].outputValue == OutputValue(c.block.txs[0], 0);
  }

  // ----- Connecting -----

  /** An output of the block that is already unspent. */
  predicate Overlaps(view: Utxos, c: Candidate, o: OutPoint) {
    && o in view
    && exists i | 0 <= i < |c.block.txs| :: CreatesOutput(c.block.txs[i], o)
  }

  predicate CreatesOutput(tx: Tx, o: OutPoint) {
    o.txid == tx.txid && o.vout < |tx.outputs| && Spendable(tx.outputs[o.vout].script)
  }

  function Overlapping(view: Utxos, c: Candidate): set<OutPoint> {
    set o | o in view && Overlaps(view, c, o)
  }

  lemma CollisionsAre(view: Utxos, c: Candidate)
    ensures Collisions(view, c.block.txs) == Overlapping(view, c)
  {
    forall i, o | 0 <= i < |c.block.txs|
      ensures o in CreatedKeys(c.block.txs[i]) <==> CreatesOutput(c.block.txs[i], o)
    {
      if CreatesOutput(c.block.txs[i], o) { assert OutPoint(o.txid, o.vout) == o; }
    }
    hide CreatedKeys, CreatesOutput;
  }

  /** Where the transactions of a block start: under the exception, without the coins it overwrites. */
  function Start(view: Utxos, c: Candidate): Utxos {
    if c.deployment.bip30Overwrite then view - Overlapping(view, c) else view
  }

  /** An enforced collision without the exception. */
  predicate Collides(view: Utxos, c: Candidate) {
    c.deployment.bip30Enforced && !c.deployment.bip30Overwrite && Overlapping(view, c) != {}
  }

  /** The coinbase first and alone, and no objection from the foreign checks. */
  predicate Structured(c: Candidate, rules: BlockRules) {
    && WellFormed(c.block.txs)
    && rules.signet(c) == None && rules.coinbaseHeight(c) == None && rules.commitments(c) == None
  }

  /** Everything a block must meet, scripts and the coinbase claim included. */
  predicate Connects(view: Utxos, c: Candidate, rules: BlockRules) {
    var start, n := Start(view, c), |c.block.txs|;
    && !Collides(view, c) && Structured(c, rules)
    && Runs(start, c, n, rules) && ScriptsPass(start, c, n, rules)
    && OutputValue(c.block.txs[0], 0) <= c.deployment.subsidy + Fees(start, c, n) <= 0xffff_ffff_ffff_ffff
  }

  lemma ExceptionIs(view: Utxos, c: Candidate)
    ensures Collides(view, c) ==> Bip30(view, c) == Err(Bip30Collision(Overlapping(view, c)))
    ensures !Collides(view, c) ==> Bip30(view, c).Ok? && view - Bip30(view, c).value == Start(view, c)
                                   && Restrict(view, Bip30(view, c).value) == view - Start(view, c).Keys
  {
    hide Collisions, Overlapping;
    CollisionsAre(view, c);
  }

  /** An executed block is ready once its scripts are checked. */
  function WithScripts(executed: Result<Running, BlockError>, removed: Utxos, c: Candidate,
                       rules: BlockRules): Result<Ready, BlockError>
    requires executed.Ok? ==> |executed.value.done| <= |c.block.txs|
  {
    if executed.Err? then Err(executed.error)
    else
      var failure := ScriptFailure(c, executed.value.done, 1, rules);
      if failure.Some? then Err(TxFailed(failure.value.0, Script(failure.value.1)))
      else Ok(Ready(removed, executed.value))
  }

  /** Connecting is executing from the start, with its scripts, once the collision and structure checks pass. */
  lemma ConnectIs(view: Utxos, c: Candidate, prevalidated: bool, rules: BlockRules)
    requires prevalidated ==> StructureError(c, rules) == None
    ensures Collides(view, c) ==>
              ConnectOne(view, c, prevalidated, rules) == Err(Bip30Collision(Overlapping(view, c)))
    ensures !Collides(view, c) && !Structured(c, rules) ==>
              StructureError(c, rules).Some?
              && ConnectOne(view, c, prevalidated, rules) == Err(StructureError(c, rules).value)
    ensures !Collides(view, c) && Structured(c, rules) ==>
              ConnectOne(view, c, prevalidated, rules) ==
              WithScripts(ExecBlock(Start(view, c), c, rules), view - Start(view, c).Keys, c, rules)
  {
    hide Collides, Start, Bip30, ExecBlock, ScriptFailure, WellFormed;
    ExceptionIs(view, c);
  }

  lemma StartIsFresh(view: Utxos, c: Candidate)
    requires FreshCandidate(view, c) && !Collides(view, c)
    ensures Fresh(Start(view, c), c.block.txs)
  {
    hide Collides, Start, Fresh, FreshCandidate, Bip30;
    ExceptionIs(view, c);
    FreshAfterBip30(view, c);
  }

  /**
   A block connects exactly when it meets its conditions: no refused collision,
   structure, transactions that run on the coins they find, scripts that pass,
   and a coinbase that claims at most the subsidy and the fees.
   */
  lemma ConnectsExactlyWhen(view: Utxos, c: Candidate, prevalidated: bool, rules: BlockRules)
    requires prevalidated ==> StructureError(c, rules) == None
    requires FreshCandidate(view, c)
    ensures ConnectOne(view, c, prevalidated, rules).Ok? <==> Connects(view, c, rules)
    ensures Connects(view, c, rules) ==>
              ConnectOne(view, c, prevalidated, rules) ==
              Ok(Ready(view - Start(view, c).Keys, RunningAt(Start(view, c), c, |c.block.txs|, rules)))
  {
    hide Collides, Start, FreshCandidate, Fresh, ExecBlock, ScriptFailure, Runs, Fees, ScriptsPass, ConnectOne;
    hide OutputValue;
    ConnectIs(view, c, prevalidated, rules);
    if !Collides(view, c) && Structured(c, rules) {
      var start, n := Start(view, c), |c.block.txs|;
      StartIsFresh(view, c);
      if Runs(start, c, n, rules) {
        RunsHavePassed(start, c, n, rules);
        ClaimExactly(start, c, rules);
        ScriptsExactly(start, c, n, rules);
      } else {
        DoesNotRun(start, c, rules);
      }
    }
  }

  lemma RunsHavePassed(view: Utxos, c: Candidate, n: nat, rules: BlockRules)
    requires n <= |c.block.txs| && WellFormed(c.block.txs) && Runs(view, c, n, rules)
    ensures Pass(view, c, n)
  {
  }

  lemma DoesNotRun(view: Utxos, c: Candidate, rules: BlockRules)
    requires WellFormed(c.block.txs) && Fresh(view, c.block.txs) && !Runs(view, c, |c.block.txs|, rules)
    ensures ExecBlock(view, c, rules).Err?
  {
    hide RunPrefix, Runs, Fresh, WellFormed;
    RunsExactlyWhen(view, c, |c.block.txs|, rules);
  }

  /** A block that runs and is refused: its first failing script, or else the claim. */
  lemma RefusedAtTheEnd(view: Utxos, c: Candidate, prevalidated: bool, rules: BlockRules)
    requires prevalidated ==> StructureError(c, rules) == None
    requires FreshCandidate(view, c) && !Collides(view, c) && Structured(c, rules)
    requires Runs(Start(view, c), c, |c.block.txs|, rules)
    ensures var start, n := Start(view, c), |c.block.txs|;
            var claimed, allowed := OutputValue(c.block.txs[0], 0), c.deployment.subsidy + Fees(start, c, n);
            && (forall j: nat, code: nat | FirstBadScript(start, c, n, j, code, rules) ::
                  ConnectOne(view, c, prevalidated, rules) == Err(TxFailed(j, Script(code))))
            && (ScriptsPass(start, c, n, rules) && allowed > 0xffff_ffff_ffff_ffff ==>
                  ConnectOne(view, c, prevalidated, rules) == Err(FeeOverflow))
            && (ScriptsPass(start, c, n, rules) && claimed > allowed && allowed <= 0xffff_ffff_ffff_ffff ==>
                  ConnectOne(view, c, prevalidated, rules) == Err(ExcessCoinbase(claimed, allowed)))
  {
    hide Collides, Start, FreshCandidate, Fresh, ExecBlock, ScriptFailure, Fees, ScriptsPass, ConnectOne, OutputValue;
    hide FirstBadScript, Pass, Sigops, DoneAt, ViewAt, WellFormed;
    ConnectIs(view, c, prevalidated, rules);
    StartIsFresh(view, c);
    ClaimExactly(Start(view, c), c, rules);
    ScriptsExactly(Start(view, c), c, |c.block.txs|, rules);
  }

  /** A block whose run ends early is refused as the run is. */
  lemma RefusedOnTheWay(view: Utxos, c: Candidate, n: nat, prevalidated: bool, rules: BlockRules)
    requires prevalidated ==> StructureError(c, rules) == None
    requires FreshCandidate(view, c) && !Collides(view, c) && Structured(c, rules) && n < |c.block.txs|
    requires Runs(Start(view, c), c, n, rules) && !Runs(Start(view, c), c, n + 1, rules)
    ensures var start, tx := Start(view, c), c.block.txs[n];
            && (Pass(start, c, n + 1) ==>
                  ConnectOne(view, c, prevalidated, rules) == Err(OverLimit(start, c, n + 1, rules)))
            && (!Pass(start, c, n + 1) && ScriptsPass(start, c, n, rules) ==>
                  exists e :: FirstCause(ViewAt(start, c, n), tx, Place(c), e)
                              && ConnectOne(view, c, prevalidated, rules) == Err(TxFailed(n, e)))
            && (!Pass(start, c, n + 1) ==>
                  forall j: nat, code: nat | FirstBadScript(start, c, n, j, code, rules) ::
                    ConnectOne(view, c, prevalidated, rules) == Err(TxFailed(j, Script(code))))
  {
    hide Collides, Start, FreshCandidate, Fresh, ExecBlock, ScriptFailure, Fees, ScriptsPass, ConnectOne, FirstCause;
    hide FirstBadScript, Pass, Sigops, DoneAt, ViewAt, WellFormed, PrepareTx, OverLimit;
    ConnectIs(view, c, prevalidated, rules);
    StartIsFresh(view, c);
    var start := Start(view, c);
    RunEndsWith(start, c, n, rules);
    if !Pass(start, c, n + 1) { RefusedForCause(ViewAt(start, c, n), c.block.txs[n], Place(c), rules.tx); }
  }

  // ----- The store -----

  /** A store connects a block exactly when it meets its conditions and is new, and then holds what it leaves. */
  lemma StoreConnectsExactlyWhen(s: Store, c: Candidate, rules: BlockRules)
    requires FreshCandidate(s.utxos, c)
    ensures Connected(s, c, rules).Ok? <==> Connects(s.utxos, c, rules) && c.block.hash !in s.undos
    ensures Connected(s, c, rules).Ok? ==>
              var t, start := Connected(s, c, rules).value, Start(s.utxos, c);
              && t.utxos == ViewAt(start, c, |c.block.txs|)
              && t.tip == Tip(s.tip.height + 1, c.block.hash)
              && t.undos.Keys == s.undos.Keys + {c.block.hash}
              && forall h | h in s.undos :: t.undos[h] == s.undos[h]
  {
    hide Connects, Start, FreshCandidate, ConnectOne, ViewAt, DoneAt, Fees, Sigops, Pass, BlockUndos, Resolved;
    ConnectsExactlyWhen(s.utxos, c, false, rules);
    if Connects(s.utxos, c, rules) { ReadyResolved(s.utxos, c, rules); }
  }
}
