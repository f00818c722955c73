/**
 Coins, the set of unspent coins, and the net changes and undo records that
 move it.  Sorted duplicate-free key vectors of the source are sets and maps
 here.
 */
module Coins {
  import opened Basics

  /** Transaction ids are opaque symbols. */
  type Txid = nat

  datatype OutPoint = OutPoint(txid: Txid, vout: nat)

  datatype Coin = Coin(
    value: nat,
    height: nat,
    isCoinbase: bool,
    lastTouched: nat,
    creationMtp: nat,
    script: seq<Byte>)

  type Utxos = map<OutPoint, Coin>

  /** What a key-value store answers for a key. */
  function Get<K, V>(m: map<K, V>, k: K): Option<V> {
    if k in m then Some(m[k]) else None
  }

  datatype UtxoError = Duplicate(key: OutPoint) | Missing(key: OutPoint) | DuplicateSpend(key: OutPoint) | CountMismatch

  /** Coins a mutation removed, and keys it inserted. */
  datatype Undo = Undo(spent: Utxos, created: set<OutPoint>)

  /** Removals first, then insertions. */
  function Change(view: Utxos, spent: set<OutPoint>, created: Utxos): (after: Utxos)
    ensures forall o :: Get(after, o) ==
                        if o in created then Some(created[o]) else if o in spent then None else Get(view, o)
  {
    (view - spent) + created
  }

  function Revert(view: Utxos, undo: Undo): (before: Utxos)
    ensures forall o :: Get(before, o) ==
                        if o in undo.spent then Some(undo.spent[o])
                        else if o in undo.created then None else Get(view, o)
  {
    Change(view, undo.created, undo.spent)
  }

  /** Stores are equal when they answer alike. */
  lemma SameAnswers<K(!new), V>(a: map<K, V>, b: map<K, V>)
    requires forall k :: Get(a, k) == Get(b, k)
    ensures a == b
  {
    forall k ensures k in a <==> k in b {
      assert Get(a, k) == Get(b, k);
    }
    forall k | k in a ensures a[k] == b[k] {
      assert Get(a, k) == Get(b, k);
    }
  }

  /** The undo record of a mutation restores the store it was applied to. */
  lemma RevertUndoesChange(view: Utxos, spent: Utxos, created: Utxos)
    requires forall o | o in spent :: Get(view, o) == Some(spent[o])
    requires forall o | o in created :: o in spent || o !in view
    ensures Revert(Change(view, spent.Keys, created), Undo(spent, created.Keys)) == view
  {
    SameAnswers(Revert(Change(view, spent.Keys, created), Undo(spent, created.Keys)), view);
  }

  /** Key-value pairs as a map; later pairs win. */
  function ToMap<K(!new), V>(pairs: seq<(K, V)>): (m: map<K, V>)
    ensures forall k :: k in m <==> exists i :: 0 <= i < |pairs| && pairs[i].0 == k
  {
    if pairs == [] then map[]
    else
      var init := pairs[..|pairs| - 1];
      var last := pairs[|pairs| - 1];
      assert forall i | 0 <= i < |init| :: init[i] == pairs[i];
      ToMap(init)[last.0 := last.1]
  }

  function Zip<A, B>(a: seq<A>, b: seq<B>): (r: seq<(A, B)>)
    requires |a| == |b|
    ensures |r| == |a| && forall i | 0 <= i < |a| :: r[i] == (a[i], b[i])
  {
    seq(|a|, i requires 0 <= i < |a| => (a[i], b[i]))
  }

  function ToSet<T>(s: seq<T>): set<T> {
    set x | x in s
  }
}
