/**
 The durable chain store and its two movements, connecting the next block and
 disconnecting the tip, each committed in one storage transaction; and what
 holds after any run of them.
 */
module Reorg {
  import opened Basics
  import opened Coins
  import opened Transactions
  import opened Blocks
  import opened Overlay
  import opened Connect
  import opened BlockApply

  datatype Tip = Tip(height: nat, hash: nat)

  /** Coins, execution tip and retained undo records, as one value. */
  datatype Store = Store(utxos: Utxos, tip: Tip, undos: map<nat, seq<Undo>>)

  datatype StoreError =
    | BlockRejected(error: BlockError)
    | UndoExists(hash: nat)
    | DisconnectGenesis
    | MissingUndo(hash: nat)
    | CoinsRefused(refusal: UtxoError)

  /** A prepared block of a fresh candidate carries the coins of every spent output. */
  lemma ReadyResolved(view: Utxos, c: Candidate, rules: BlockRules)
    requires FreshCandidate(view, c) && ConnectOne(view, c, false, rules).Ok?
    ensures var ready := ConnectOne(view, c, false, rules).value;
            && Prepare(view, c, false, rules) == Ok(ready)
            && (forall i | 0 <= i < |ready.run.done| :: Resolved(ready.run.done[i]))
  {
    hide Prepare;
    DisconnectInvertsConnect(view, c, false, rules);
  }

  /** The store after connecting a block, or why it is refused. */
  function Connected(s: Store, c: Candidate, rules: BlockRules): Result<Store, StoreError>
    requires FreshCandidate(s.utxos, c)
  {
    match ConnectOne(s.utxos, c, false, rules)
    case Err(e) => Err(BlockRejected(e))
    case Ok(ready) =>
      ReadyResolved(s.utxos, c, rules);
      if c.block.hash in s.undos then Err(UndoExists(c.block.hash))
      else Ok(Store(ready.run.view, Tip(s.tip.height + 1, c.block.hash), s.undos[c.block.hash := BlockUndos(ready)]))
  }

  /** The store after disconnecting its tip, when that is possible. */
  function Disconnected(s: Store, parent: Tip): Option<Store> {
    if s.tip.height == 0 || s.tip.hash !in s.undos || !Revertible(s.utxos, s.undos[s.tip.hash]) then None
    else Some(Store(RevertAll(s.utxos, s.undos[s.tip.hash]), parent, s.undos - {s.tip.hash}))
  }

  /**
   Disconnecting a block just connected restores the whole store: coins, tip
   and undo records.  So a reorganisation away from a block and back goes
   through, and leaves what connecting it once left.
   */
  lemma DisconnectUndoesConnect(s: Store, c: Candidate, rules: BlockRules)
    requires FreshCandidate(s.utxos, c) && Connected(s, c, rules).Ok?
    ensures var t := Connected(s, c, rules).value;
            Disconnected(t, s.tip) == Some(s)
  {
    hide ConnectOne, FreshCandidate, Resolved, BlockUndos, Revertible, RevertAll;
    ReadyResolved(s.utxos, c, rules);
    DisconnectInvertsConnect(s.utxos, c, false, rules);
    var t := Connected(s, c, rules).value;
    assert t.undos - {c.block.hash} == s.undos;
  }

  // ----- The store and its transactions -----

  class ChainStore {
    var utxos: Utxos
    var tip: Tip
    var undos: map<nat, seq<Undo>>

    constructor (utxos: Utxos, tip: Tip)
      ensures Value() == Store(utxos, tip, map[])
    {
      this.utxos, this.tip, this.undos := utxos, tip, map[];
    }

    ghost function Value(): Store
      reads this
    {
      Store(utxos, tip, undos)
    }

    /** Removes and inserts; every removed key must exist and no inserted one may. */
    method ApplyChanges(spent: set<OutPoint>, created: Utxos) returns (error: Option<UtxoError>)
      modifies this`utxos
      ensures error.None? <==> spent <= old(utxos).Keys && forall o | o in created :: o in spent || o !in old(utxos)
      ensures utxos == if error.None? then Change(old(utxos), spent, created) else old(utxos)
      ensures error.Some? && !(spent <= utxos.Keys) ==> error.value.Missing? && error.value.key in spent - utxos.Keys
      ensures error.Some? && spent <= utxos.Keys ==>
                error.value.Duplicate? && error.value.key in (created.Keys - spent) * utxos.Keys
    {
      var missing := spent - utxos.Keys;
      if missing != {} {
        var o :| o in missing;
        return Some(Missing(o));
      }
      assert spent <= utxos.Keys by {
        forall o | o in spent ensures o in utxos.Keys { assert o !in missing; }
      }
      var duplicates := (created.Keys - spent) * utxos.Keys;
      if duplicates != {} {
        var o :| o in duplicates;
        return Some(Duplicate(o));
      }
      assert forall o | o in created :: o in spent || o !in utxos by {
        forall o | o in created ensures o in spent || o !in utxos { assert o !in duplicates; }
      }
      utxos := Change(utxos, spent, created);
      return None;
    }

    /** The coins a block may overwrite are removed from the overlay; their undo record, if any. */
    method ApplyBip30(overlay: UtxoOverlay, c: Candidate) returns (r: Result<Option<Undo>, BlockError>)
      requires overlay.Valid()
      modifies overlay.shards
      ensures overlay.Valid()
      ensures match Bip30(old(overlay.View()), c)
              case Err(e) => r == Err(e)
              case Ok(keys) =>
                && overlay.View() == old(overlay.View()) - keys
                && r == Ok(if keys == {} then None else Some(Undo(Restrict(old(overlay.View()), keys), {})))
    {
      hide UtxoOverlay.Valid, UtxoOverlay.At, UtxoOverlay.View, UtxoOverlay.Cached, CreatedKeys, Collisions;
      ghost var view := overlay.View();
      if !c.deployment.bip30Enforced && !c.deployment.bip30Overwrite { return Ok(None); }
      var collisions := FindCollisions(overlay, c.block.txs);
      if collisions == {} { return Ok(None); }
      if !c.deployment.bip30Overwrite { return Err(Bip30Collision(collisions)); }
      CollisionsPresent(view, c.block.txs);
      var keys := Listed(collisions);
      NoSpendErrorDistinct(view, keys, |keys|);
      var undo := overlay.ApplyWithUndo(keys, []);
      assert ToMap<OutPoint, Coin>([]) == map[];
      assert ToMap<OutPoint, Coin>([]).Keys == {};
      assert Change(view, collisions, map[]) == view - collisions;
      return Ok(Some(undo.value));
    }

    /**
     Validates the next block against an overlay of the store and commits its
     net effect, undo records and tip in one transaction.
     */
    method ConnectActiveBlock(c: Candidate, rules: BlockRules) returns (r: Option<StoreError>)
      requires FreshCandidate(utxos, c)
      modifies this
      ensures match Connected(old(Value()), c, rules)
              case Err(e) => r == Some(e) && Value() == old(Value())
              case Ok(next) => r == None && Value() == next
    {
      hide UtxoOverlay.Valid, UtxoOverlay.At, UtxoOverlay.View, FreshCandidate, Execute, ScriptFailure, UndoOf, NetOf;
      hide ConnectOne, Bip30, StructureError, Fresh, WellFormed, Change, Restrict, Resolved;
      ghost var view := utxos;
      ConnectByExecute(view, c, rules);
      var overlay := new UtxoOverlay(utxos);
      var exception := ApplyBip30(overlay, c);
      if exception.Err? { return Some(BlockRejected(exception.error)); }
      var structure := StructureError(c, rules);
      if structure.Some? { return Some(BlockRejected(structure.value)); }
      FreshAfterBip30(view, c);
      ExceptionUndo(view, c);
      var applied, done := ApplyBlock(overlay, c, false, rules);
      if applied.Err? { return Some(BlockRejected(applied.error)); }
      if c.block.hash in undos { return Some(UndoExists(c.block.hash)); }
      var net := overlay.NetChanges();
      NetApplies(view, overlay.View());
      var error := ApplyChanges(net.spent, net.created);
      undos := undos[c.block.hash := (if exception.value.None? then [] else [exception.value.value]) + applied.value];
      tip := Tip(tip.height + 1, c.block.hash);
      return None;
    }

    /** Reverts the tip block on an overlay and commits the reverse change with the rewound tip. */
    method DisconnectTip(parent: Tip) returns (r: Option<StoreError>)
      modifies this
      ensures match Disconnected(old(Value()), parent)
              case None => r.Some? && Value() == old(Value())
              case Some(next) => r == None && Value() == next
      ensures old(tip).height == 0 <==> r == Some(DisconnectGenesis)
      ensures old(tip).height != 0 && old(tip).hash !in old(undos) <==> r == Some(MissingUndo(old(tip).hash))
      ensures r.Some? && r != Some(DisconnectGenesis) && r != Some(MissingUndo(old(tip).hash)) ==>
                && r.value.CoinsRefused?
                && exists reached :: Stuck(old(utxos), old(undos)[old(tip).hash], reached, r.value.refusal)
    {
      hide UtxoOverlay.Valid, UtxoOverlay.At, UtxoOverlay.View, Revertible, RevertAll, NetOf, Stuck;
      ghost var view := utxos;
      if tip.height == 0 { return Some(DisconnectGenesis); }
      if tip.hash !in undos { return Some(MissingUndo(tip.hash)); }
      var overlay := new UtxoOverlay(utxos);
      var error := Rollback(overlay, undos[tip.hash]);
      if error.Some? { return Some(CoinsRefused(error.value)); }
      var net := overlay.NetChanges();
      NetApplies(view, overlay.View());
      var refused := ApplyChanges(net.spent, net.created);
      undos := undos - {tip.hash};
      tip := parent;
      return None;
    }
  }

  /** Probes every spendable output of the block. */
  method FindCollisions(overlay: UtxoOverlay, txs: seq<Tx>) returns (collisions: set<OutPoint>)
    requires overlay.Valid()
    modifies overlay.shards
    ensures overlay.Valid() && overlay.View() == old(overlay.View())
    ensures collisions == Collisions(overlay.View(), txs)
  {
    hide UtxoOverlay.Valid, UtxoOverlay.At, UtxoOverlay.View, UtxoOverlay.Cached;
    ghost var view := overlay.View();
    collisions := {};
    for i := 0 to |txs|
      invariant overlay.Valid() && overlay.View() == view
      invariant collisions == Collisions(view, txs[..i])
    {
      ghost var earlier := collisions;
      for vout := 0 to |txs[i].outputs|
        invariant overlay.Valid() && overlay.View() == view
        invariant collisions == earlier + set o | o in CreatedKeys(txs[i]) && o.vout < vout && o in view
      {
        if !IsUnspendable(txs[i].outputs[vout].script) {
          var o := OutPoint(txs[i].txid, vout);
          var found := overlay.Load(o);
          assert found == Get(view, o);
          if found.Some? { collisions := collisions + {o}; }
        }
      }
      assert collisions == Collisions(view, txs[..i + 1]) by { CollisionsOfOneMore(view, txs, i); }
    }
    assert txs[..|txs|] == txs;
  }

  lemma CollisionsOfOneMore(view: Utxos, txs: seq<Tx>, i: nat)
    requires i < |txs|
    ensures Collisions(view, txs[..i + 1]) ==
            Collisions(view, txs[..i]) + set o | o in CreatedKeys(txs[i]) && o.vout < |txs[i].outputs| && o in view
  {
    hide IsUnspendable;
    var all, before := Collisions(view, txs[..i + 1]), Collisions(view, txs[..i]);
    forall o | o in all ensures o in before || (o in CreatedKeys(txs[i]) && o in view) {
      var j :| 0 <= j < i + 1 && o in CreatedKeys(txs[..i + 1][j]) && o in view;
      if j < i { assert o in CreatedKeys(txs[..i][j]); }
    }
    forall o | o in before ensures o in all {
      var j :| 0 <= j < i && o in CreatedKeys(txs[..i][j]) && o in view;
      assert txs[..i + 1][j] == txs[..i][j];
    }
    forall o | o in CreatedKeys(txs[i]) && o in view ensures o in all {
      assert txs[..i + 1][i] == txs[i];
    }
  }

  lemma CollisionsPresent(view: Utxos, txs: seq<Tx>)
    ensures Collisions(view, txs) <= view.Keys
  {
  }

  /** The members of a set, in some order. */
  method Listed(s: set<OutPoint>) returns (keys: seq<OutPoint>)
    ensures ToSet(keys) == s && forall i, j | 0 <= i < j < |keys| :: keys[i] != keys[j]
  {
    keys := [];
    var pending := s;
    while pending != {}
      invariant pending <= s && ToSet(keys) == s - pending
      invariant forall i, j | 0 <= i < j < |keys| :: keys[i] != keys[j]
      decreases pending
    {
      var o :| o in pending;
      assert o !in ToSet(keys) && ToSet(keys + [o]) == ToSet(keys) + {o};
      keys, pending := keys + [o], pending - {o};
    }
  }

  lemma {:induction false} NoSpendErrorDistinct(view: Utxos, spent: seq<OutPoint>, n: nat)
    requires n <= |spent| && ToSet(spent) <= view.Keys
    requires forall i, j | 0 <= i < j < |spent| :: spent[i] != spent[j]
    ensures SpendError(view, spent, n) == None
  {
    if n > 0 {
      NoSpendErrorDistinct(view, spent, n - 1);
      assert spent[n - 1] in ToSet(spent);
    }
  }

  /** A net change is always accepted by the store it was computed from, and gives the view. */
  lemma NetApplies(base: Utxos, view: Utxos)
    ensures var net := NetOf(base, view);
            && net.spent <= base.Keys
            && (forall o | o in net.created :: o in net.spent || o !in base)
            && Change(base, net.spent, net.created) == view
  {
    NetChangeIsExact(base, view);
  }

  /** Connecting is the exception, the structure, then executing what remains with its scripts. */
  lemma ConnectByExecute(view: Utxos, c: Candidate, rules: BlockRules)
    ensures StructureError(c, rules) == None ==> WellFormed(c.block.txs)
    ensures ConnectOne(view, c, false, rules) ==
            match Bip30(view, c)
            case Err(e) => Err(e)
            case Ok(keys) =>
              if StructureError(c, rules).Some? then Err(StructureError(c, rules).value)
              else match BlockApply.Execute(view - keys, c, false, rules)
                case Err(e) => Err(e)
                case Ok(run) => Ok(Ready(Restrict(view, keys), run))
  {
    hide ExecBlock, ScriptFailure, Bip30, StructureError;
  }

  /** There is an exception to undo exactly when coins were removed. */
  lemma ExceptionUndo(view: Utxos, c: Candidate)
    requires Bip30(view, c).Ok?
    ensures Restrict(view, Bip30(view, c).value) == map[] <==> Bip30(view, c).value == {}
  {
    var keys := Bip30(view, c).value;
    CollisionsPresent(view, c.block.txs);
    assert Restrict(view, keys).Keys == keys;
  }
}
