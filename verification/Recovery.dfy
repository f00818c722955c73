/**
 Recovery of an interrupted write-ahead transition.  Coins, tip, undo rows and
 the pending record live in separate stores, so recovery is a list of durable
 writes and may itself be interrupted after any of them.
 */
module Recovery {
  import opened Basics
  import opened Coins
  import Connect
  import opened Reorg

  datatype Kind = ConnectKind | DisconnectKind

  /** Write-ahead intent: `undo` holds every value before, `created` every value after, among the changed keys. */
  datatype Pending = Pending(kind: Kind, parent: Tip, next: Tip, undo: Undo, created: Utxos)

  datatype Durable = Durable(utxos: Utxos, tip: Tip, undos: map<nat, seq<Undo>>, pending: Option<Pending>)

  datatype RecoveryError =
    | InconsistentTransition
    | RecordMissing(hash: nat)
    | TransitionTipMismatch(tip: Tip)
    | CoinPresent
    | NonSequential(current: Tip)
    | WrongPending(hash: nat)

  /** How far an attempt gets: it ends, meets an error, or the process dies. */
  datatype Halt = Crashed | Failed(error: RecoveryError)

  // ----- Classifying the coins -----

  datatype CoinState = BeforeState | AfterState | EitherState | MixedState

  function ChangedKeys(p: Pending): set<OutPoint> {
    p.undo.spent.Keys + p.undo.created
  }

  predicate MatchesBefore(utxos: Utxos, p: Pending) {
    forall o | o in ChangedKeys(p) :: Get(utxos, o) == Get(p.undo.spent, o)
  }

  predicate MatchesAfter(utxos: Utxos, p: Pending) {
    forall o | o in ChangedKeys(p) :: Get(utxos, o) == Get(p.created, o)
  }

  function StateOf(utxos: Utxos, p: Pending): CoinState {
    if MatchesBefore(utxos, p) then (if MatchesAfter(utxos, p) then EitherState else BeforeState)
    else if MatchesAfter(utxos, p) then AfterState else MixedState
  }

  method PendingUtxoState(utxos: Utxos, p: Pending) returns (state: CoinState)
    ensures state == StateOf(utxos, p)
  {
    var before, after := true, true;
    var keys := Listed(ChangedKeys(p));
    for i := 0 to |keys|
      invariant before <==> forall j | 0 <= j < i :: Get(utxos, keys[j]) == Get(p.undo.spent, keys[j])
      invariant after <==> forall j | 0 <= j < i :: Get(utxos, keys[j]) == Get(p.created, keys[j])
    {
      var current := Get(utxos, keys[i]);
      before := before && current == Get(p.undo.spent, keys[i]);
      after := after && current == Get(p.created, keys[i]);
    }
    assert forall o | o in ChangedKeys(p) :: o in ToSet(keys);
    assert forall j | 0 <= j < |keys| :: keys[j] in ToSet(keys);
    return if before then (if after then EitherState else BeforeState) else if after then AfterState else MixedState;
  }

  // ----- Durable writes -----

  datatype Write = UndoCoins(undo: Undo) | Rewind(from: Tip, to: Tip) | RemoveUndo(hash: nat) | ClearPending(hash: nat)

  /** The durable store refuses an undo when a coin to restore is present and was not created by what is undone. */
  predicate UndoRefused(utxos: Utxos, undo: Undo) {
    exists o :: o in undo.spent && o !in undo.created && o in utxos
  }

  /** One durable write. */
  function Perform(d: Durable, w: Write): Result<Durable, RecoveryError> {
    match w
    case UndoCoins(undo) =>
      if UndoRefused(d.utxos, undo) then Err(CoinPresent) else Ok(d.(utxos := Revert(d.utxos, undo)))
    case Rewind(from, to) =>
      if d.tip != from || to.height + 1 != d.tip.height then Err(NonSequential(d.tip)) else Ok(d.(tip := to))
    case RemoveUndo(hash) => Ok(d.(undos := d.undos - {hash}))
    case ClearPending(hash) =>
      if d.pending.Some? && d.pending.value.next.hash != hash then Err(WrongPending(hash)) else Ok(d.(pending := None))
  }

  /** The writes recovery makes, decided before the first of them. */
  function Plan(d: Durable): Result<seq<Write>, RecoveryError>
    requires d.pending.Some?
  {
    var p := d.pending.value;
    var hash := p.next.hash;
    var state := StateOf(d.utxos, p);
    var back := if state == AfterState then [UndoCoins(p.undo)] else [];
    if p.kind == ConnectKind && d.tip == p.parent then
      if state == MixedState then Err(InconsistentTransition) else Ok(back + [RemoveUndo(hash), ClearPending(hash)])
    else if p.kind == ConnectKind && d.tip == p.next then
      if state != AfterState && state != EitherState then Err(InconsistentTransition)
      else if hash !in d.undos then Err(RecordMissing(hash))
      else Ok([ClearPending(hash)])
    else if p.kind == DisconnectKind && d.tip == p.next then
      if state == MixedState then Err(InconsistentTransition)
      else Ok(back + [Rewind(p.next, p.parent), RemoveUndo(hash), ClearPending(hash)])
    else if p.kind == DisconnectKind && d.tip == p.parent then
      if state != BeforeState && state != EitherState then Err(InconsistentTransition)
      else Ok([RemoveUndo(hash), ClearPending(hash)])
    else Err(TransitionTipMismatch(d.tip))
  }

  /** Writes in order until they end, one is refused, or the process dies after `budget` of them. */
  function Execute(d: Durable, ws: seq<Write>, budget: nat): (Durable, Result<bool, Halt>)
    decreases |ws|
  {
    if ws == [] then (d, Ok(true))
    else if budget == 0 then (d, Err(Crashed))
    else match Perform(d, ws[0])
      case Err(e) => (d, Err(Failed(e)))
      case Ok(next) => Execute(next, ws[1..], budget - 1)
  }

  /** One attempt at recovery. */
  function Attempt(d: Durable, budget: nat): (Durable, Result<bool, Halt>) {
    if d.pending.None? then (d, Ok(false))
    else match Plan(d)
      case Err(e) => (d, Err(Failed(e)))
      case Ok(ws) => Execute(d, ws, budget)
  }

  /** The stores, and how many more durable writes the process will live to make. */
  class Stores {
    var utxos: Utxos
    var tip: Tip
    var undos: map<nat, seq<Undo>>
    var pending: Option<Pending>
    var budget: nat

    constructor (d: Durable, budget: nat)
      ensures Value() == d && this.budget == budget
    {
      utxos, tip, undos, pending := d.utxos, d.tip, d.undos, d.pending;
      this.budget := budget;
    }

    ghost function Value(): Durable
      reads this
    {
      Durable(utxos, tip, undos, pending)
    }

    /** Makes one durable write, unless the process dies first. */
    method Commit(w: Write) returns (halt: Option<Halt>)
      modifies this
      ensures old(budget) == 0 ==> halt == Some(Crashed) && Value() == old(Value()) && budget == 0
      ensures old(budget) > 0 ==>
                match Perform(old(Value()), w)
                case Err(e) => halt == Some(Failed(e)) && Value() == old(Value())
                case Ok(next) => halt == None && Value() == next && budget == old(budget) - 1
    {
      if budget == 0 { return Some(Crashed); }
      match w {
        case UndoCoins(undo) =>
          var blocking := (undo.spent.Keys - undo.created) * utxos.Keys;
          assert UndoRefused(utxos, undo) <==> blocking != {} by { BlockingKeys(utxos, undo); }
          if blocking != {} { return Some(Failed(CoinPresent)); }
          utxos := (utxos - undo.created) + undo.spent;
        case Rewind(from, to) =>
          if tip != from || to.height + 1 != tip.height { return Some(Failed(NonSequential(tip))); }
          tip := to;
        case RemoveUndo(hash) => undos := undos - {hash};
        case ClearPending(hash) =>
          if pending.Some? && pending.value.next.hash != hash { return Some(Failed(WrongPending(hash))); }
          pending := None;
      }
      budget := budget - 1;
      return None;
    }

    /** Recovers an interrupted transition. */
    method Recover() returns (r: Result<bool, Halt>)
      modifies this
      ensures (Value(), r) == Attempt(old(Value()), old(budget))
    {
      if pending.None? { return Ok(false); }
      var p := pending.value;
      var hash := p.next.hash;
      var state := PendingUtxoState(utxos, p);
      hide StateOf, Perform;
      var ws: seq<Write>;
      if p.kind == ConnectKind && tip == p.parent {
        if state == MixedState { return Err(Failed(InconsistentTransition)); }
        ws := (if state == AfterState then [UndoCoins(p.undo)] else []) + [RemoveUndo(hash), ClearPending(hash)];
      } else if p.kind == ConnectKind && tip == p.next {
        if state != AfterState && state != EitherState { return Err(Failed(InconsistentTransition)); }
        if hash !in undos { return Err(Failed(RecordMissing(hash))); }
        ws := [ClearPending(hash)];
      } else if p.kind == DisconnectKind && tip == p.next {
        if state == MixedState { return Err(Failed(InconsistentTransition)); }
        ws := (if state == AfterState then [UndoCoins(p.undo)] else [])
          + [Rewind(p.next, p.parent), RemoveUndo(hash), ClearPending(hash)];
      } else if p.kind == DisconnectKind && tip == p.parent {
        if state != BeforeState && state != EitherState { return Err(Failed(InconsistentTransition)); }
        ws := [RemoveUndo(hash), ClearPending(hash)];
      } else {
        return Err(Failed(TransitionTipMismatch(tip)));
      }
      r := CommitAll(ws);
    }

    method CommitAll(ws: seq<Write>) returns (r: Result<bool, Halt>)
      modifies this
      ensures (Value(), r) == Execute(old(Value()), ws, old(budget))
    {
      hide Perform;
      for i := 0 to |ws|
        invariant Execute(Value(), ws[i..], budget) == Execute(old(Value()), ws, old(budget))
      {
        assert ws[i..][1..] == ws[i + 1..];
        var halt := Commit(ws[i]);
        if halt.Some? { return Err(halt.value); }
      }
      return Ok(true);
    }
  }

  lemma BlockingKeys(utxos: Utxos, undo: Undo)
    ensures UndoRefused(utxos, undo) <==> (undo.spent.Keys - undo.created) * utxos.Keys != {}
  {
    if UndoRefused(utxos, undo) {
      var o :| o in undo.spent && o !in undo.created && o in utxos;
      assert o in (undo.spent.Keys - undo.created) * utxos.Keys;
    }
    if (undo.spent.Keys - undo.created) * utxos.Keys != {} {
      var o :| o in (undo.spent.Keys - undo.created) * utxos.Keys;
    }
  }

  // ----- What recovery achieves -----

  /** A transition between consecutive tips whose record lists the same created keys on both sides. */
  predicate WellFormedPending(p: Pending) {
    p.created.Keys == p.undo.created && p.next.height == p.parent.height + 1
  }

  /** Exactly the states recovery can resolve. */
  predicate Recoverable(d: Durable)
    requires d.pending.Some?
  {
    var p := d.pending.value;
    var before, after := MatchesBefore(d.utxos, p), MatchesAfter(d.utxos, p);
    match p.kind
    case ConnectKind =>
      || (d.tip == p.parent && (before || after))
      || (d.tip == p.next && after && p.next.hash in d.undos)
    case DisconnectKind =>
      || (d.tip == p.next && (before || after))
      || (d.tip == p.parent && before)
  }

  /** Where recovery must end: the child if the tip reached it while connecting, otherwise the parent. */
  function Target(d: Durable): Durable
    requires d.pending.Some?
  {
    var p := d.pending.value;
    if p.kind == ConnectKind && d.tip == p.next then d.(pending := None)
    else Durable(Revert(d.utxos, p.undo), p.parent, d.undos - {p.next.hash}, None)
  }

  /** Reverting coins that already hold the values before changes nothing. */
  lemma RevertBefore(utxos: Utxos, p: Pending)
    requires MatchesBefore(utxos, p)
    ensures Revert(utxos, p.undo) == utxos
  {
    hide Revert;
    SameAnswers(Revert(utxos, p.undo), utxos);
  }

  /** Reverting reaches the values before, from anywhere, and is its own fixed point. */
  lemma RevertReachesBefore(utxos: Utxos, p: Pending)
    ensures MatchesBefore(Revert(utxos, p.undo), p)
    ensures Revert(Revert(utxos, p.undo), p.undo) == Revert(utxos, p.undo)
  {
    hide Revert;
    var reverted := Revert(utxos, p.undo);
    forall o | o in ChangedKeys(p) ensures Get(reverted, o) == Get(p.undo.spent, o) {}
    SameAnswers(Revert(reverted, p.undo), reverted);
  }

  lemma AfterIsNotRefused(utxos: Utxos, p: Pending)
    requires WellFormedPending(p) && MatchesAfter(utxos, p)
    ensures !UndoRefused(utxos, p.undo)
  {
    forall o | o in p.undo.spent && o !in p.undo.created ensures o !in utxos {
      assert Get(utxos, o) == Get(p.created, o);
    }
  }

  /** One interrupted or complete attempt leaves a state that still leads to the same end, or is it. */
  ghost predicate OnTheWay(d: Durable, now: Durable)
    requires d.pending.Some?
  {
    || now == Target(d)
    || (now.pending == d.pending && Recoverable(now) && Target(now) == Target(d))
  }

  lemma ClearOnly(d: Durable, budget: nat)
    requires d.pending.Some?
    ensures Execute(d, [ClearPending(d.pending.value.next.hash)], budget) ==
            if budget > 0 then (d.(pending := None), Ok(true)) else (d, Err(Crashed))
  {
    assert [ClearPending(d.pending.value.next.hash)][1..] == [];
  }

  /** Removing the row and clearing the record, the last two writes of every way back to the parent. */
  lemma TailLands(d: Durable, budget: nat)
    requires d.pending.Some? && WellFormedPending(d.pending.value) && Recoverable(d)
    requires d.tip == d.pending.value.parent && MatchesBefore(d.utxos, d.pending.value)
    ensures var p := d.pending.value;
            var end := Execute(d, [RemoveUndo(p.next.hash), ClearPending(p.next.hash)], budget);
            && OnTheWay(d, end.0)
            && end.1 == (if budget >= 2 then Ok(true) else Err(Crashed))
            && (budget >= 2 ==> end.0 == Target(d))
  {
    var p := d.pending.value;
    var hash := p.next.hash;
    RevertBefore(d.utxos, p);
    hide Revert, MatchesBefore, MatchesAfter, Execute;
    var ws := [RemoveUndo(hash), ClearPending(hash)];
    if budget > 0 {
      var next := d.(undos := d.undos - {hash});
      ExecuteFirst(d, RemoveUndo(hash), [ClearPending(hash)], budget, next);
      assert ws == [RemoveUndo(hash)] + [ClearPending(hash)];
      assert next.undos - {hash} == next.undos;
      assert Recoverable(next) && Target(next) == Target(d);
      ClearOnly(next, budget - 1);
    } else {
      NothingWritten(d, ws);
    }
  }

  /** Rewinding the tip and then the tail. */
  lemma RewindLands(d: Durable, budget: nat)
    requires d.pending.Some? && WellFormedPending(d.pending.value) && Recoverable(d)
    requires d.pending.value.kind == DisconnectKind
    requires d.tip == d.pending.value.next && MatchesBefore(d.utxos, d.pending.value)
    ensures var p := d.pending.value;
            var ws := [Rewind(p.next, p.parent), RemoveUndo(p.next.hash), ClearPending(p.next.hash)];
            var end := Execute(d, ws, budget);
            && OnTheWay(d, end.0)
            && end.1 == (if budget >= 3 then Ok(true) else Err(Crashed))
            && (budget >= 3 ==> end.0 == Target(d))
  {
    hide Revert, MatchesBefore, MatchesAfter;
    var p := d.pending.value;
    var hash := p.next.hash;
    var ws := [Rewind(p.next, p.parent), RemoveUndo(hash), ClearPending(hash)];
    assert ws[1..] == [RemoveUndo(hash), ClearPending(hash)];
    if budget > 0 {
      var next := d.(tip := p.parent);
      assert Perform(d, ws[0]) == Ok(next);
      TailLands(next, budget - 1);
    }
  }

  /** Undoing the coins first leaves a state with the values before. */
  lemma UndoLands(d: Durable)
    requires d.pending.Some? && WellFormedPending(d.pending.value) && Recoverable(d)
    requires MatchesAfter(d.utxos, d.pending.value)
    requires d.tip == if d.pending.value.kind == ConnectKind then d.pending.value.parent else d.pending.value.next
    ensures var p := d.pending.value;
            var next := d.(utxos := Revert(d.utxos, p.undo));
            && Perform(d, UndoCoins(p.undo)) == Ok(next)
            && MatchesBefore(next.utxos, p) && Recoverable(next) && Target(next) == Target(d)
  {
    hide Revert;
    var p := d.pending.value;
    AfterIsNotRefused(d.utxos, p);
    RevertReachesBefore(d.utxos, p);
  }

  /** Dropping the first write of a list. */
  lemma ExecuteFirst(d: Durable, w: Write, rest: seq<Write>, budget: nat, next: Durable)
    requires budget > 0 && Perform(d, w) == Ok(next)
    ensures Execute(d, [w] + rest, budget) == Execute(next, rest, budget - 1)
  {
    assert ([w] + rest)[1..] == rest;
  }

  /** An attempt on a recoverable state: how many writes it needs, and what any number of them leaves. */
  lemma AttemptIsSafe(d: Durable, budget: nat)
    requires d.pending.Some? && WellFormedPending(d.pending.value) && Recoverable(d)
    ensures Plan(d).Ok?
    ensures OnTheWay(d, Attempt(d, budget).0)
    ensures Attempt(d, budget).1 == (if budget >= |Plan(d).value| then Ok(true) else Err(Crashed))
    ensures budget >= |Plan(d).value| ==> Attempt(d, budget).0 == Target(d)
  {
    hide Revert, MatchesBefore, MatchesAfter, Execute, Perform, OnTheWay;
    var p := d.pending.value;
    var hash := p.next.hash;
    var tail := [RemoveUndo(hash), ClearPending(hash)];
    if p.kind == ConnectKind && d.tip == p.next {
      ClearLands(d, budget);
    } else if StateOf(d.utxos, p) == AfterState {
      UndoLands(d);
      var next := d.(utxos := Revert(d.utxos, p.undo));
      var rest := if p.kind == ConnectKind then tail else [Rewind(p.next, p.parent)] + tail;
      assert rest == if p.kind == ConnectKind then tail
                     else [Rewind(p.next, p.parent), RemoveUndo(hash), ClearPending(hash)];
      if budget > 0 {
        ExecuteFirst(d, UndoCoins(p.undo), rest, budget, next);
        if p.kind == ConnectKind { TailLands(next, budget - 1); } else { RewindLands(next, budget - 1); }
        OnTheWayFrom(d, next, Execute(next, rest, budget - 1).0);
      } else {
        NothingWritten(d, [UndoCoins(p.undo)] + rest);
      }
      assert Plan(d) == Ok([UndoCoins(p.undo)] + rest);
    } else if d.tip == p.parent {
      assert Plan(d) == Ok(tail) by { assert [] + tail == tail; }
      TailLands(d, budget);
    } else {
      var ws := [Rewind(p.next, p.parent), RemoveUndo(hash), ClearPending(hash)];
      assert Plan(d) == Ok(ws) by { assert [] + ws == ws; }
      RewindLands(d, budget);
    }
  }

  lemma OnTheWayFrom(d: Durable, next: Durable, end: Durable)
    requires d.pending.Some? && next.pending == d.pending && Target(next) == Target(d) && OnTheWay(next, end)
    ensures OnTheWay(d, end)
  {
  }

  lemma NothingWritten(d: Durable, ws: seq<Write>)
    requires d.pending.Some? && Recoverable(d) && ws != []
    ensures Execute(d, ws, 0) == (d, Err(Crashed)) && OnTheWay(d, d)
  {
  }

  lemma ClearLands(d: Durable, budget: nat)
    requires d.pending.Some? && Recoverable(d) && d.pending.value.kind == ConnectKind && d.tip == d.pending.value.next
    ensures var end := Execute(d, [ClearPending(d.pending.value.next.hash)], budget);
            && OnTheWay(d, end.0)
            && end.1 == (if budget >= 1 then Ok(true) else Err(Crashed))
            && (budget >= 1 ==> end.0 == Target(d))
  {
    hide MatchesBefore, MatchesAfter, Execute;
    ClearOnly(d, budget);
  }

  /** A recovery that is not interrupted succeeds exactly on the recoverable states; otherwise nothing is written. */
  lemma RecoversExactlyWhen(d: Durable)
    requires d.pending.Some? && WellFormedPending(d.pending.value)
    ensures Plan(d).Ok? <==> Recoverable(d)
    ensures !Recoverable(d) ==> forall budget :: Attempt(d, budget).0 == d && Attempt(d, budget).1.Err?
  {
    hide MatchesBefore, MatchesAfter;
  }

  /** Recovery interrupted again and again, each attempt dying after the given number of writes. */
  function AfterCrashes(d: Durable, crashes: seq<nat>): Durable
    decreases |crashes|
  {
    if crashes == [] then d else AfterCrashes(Attempt(d, crashes[0]).0, crashes[1..])
  }

  /**
   Crash safety: however often recovery is interrupted, after whichever writes,
   one more complete attempt ends in the one state the transition demands.
   */
  lemma {:induction false} RecoveryAlwaysLands(d: Durable, crashes: seq<nat>, budget: nat)
    requires d.pending.Some? && WellFormedPending(d.pending.value) && Recoverable(d) && budget >= 4
    ensures Attempt(AfterCrashes(d, crashes), budget).0 == Target(d)
    ensures Attempt(AfterCrashes(d, crashes), budget).1.Ok?
    decreases |crashes|
  {
    hide Attempt, Recoverable, WellFormedPending;
    if crashes == [] {
      AttemptIsSafe(d, budget);
    } else {
      AttemptIsSafe(d, crashes[0]);
      var next := Attempt(d, crashes[0]).0;
      if next == Target(d) {
        NothingPending(next, crashes[1..], budget);
      } else {
        RecoveryAlwaysLands(next, crashes[1..], budget);
      }
    }
  }

  lemma {:induction false} NothingPending(d: Durable, crashes: seq<nat>, budget: nat)
    requires d.pending.None?
    ensures Attempt(AfterCrashes(d, crashes), budget) == (d, Ok(false))
    decreases |crashes|
  {
    if crashes != [] { NothingPending(d, crashes[1..], budget); }
  }

  /**
   The end state: the whole transition is undone, coin for coin, unless the
   connected child was already the tip, and then nothing but the record goes.
   */
  lemma TargetIsConsistent(d: Durable, view: Utxos)
    requires d.pending.Some? && WellFormedPending(d.pending.value) && Recoverable(d)
    requires var p := d.pending.value;
             && (forall o | o in ChangedKeys(p) :: Get(view, o) == Get(p.undo.spent, o))
             && (d.utxos == view || d.utxos == Change(view, p.undo.spent.Keys, p.created))
    ensures Target(d).pending == None
    ensures forall h | h != d.pending.value.next.hash :: Get(Target(d).undos, h) == Get(d.undos, h)
    ensures Target(d).tip == d.pending.value.parent || Target(d).tip == d.pending.value.next
    ensures Target(d).tip == d.pending.value.next <==>
            d.pending.value.kind == ConnectKind && d.tip == d.pending.value.next
    ensures Target(d).tip == d.pending.value.parent ==>
              Target(d).utxos == view && d.pending.value.next.hash !in Target(d).undos
    ensures Target(d).tip == d.pending.value.next ==>
              Target(d).utxos == Change(view, d.pending.value.undo.spent.Keys, d.pending.value.created)
              && d.pending.value.next.hash in Target(d).undos
  {
    hide Revert, Change;
    var p := d.pending.value;
    SameAnswers(Revert(view, p.undo), view);
    SameAnswers(Revert(Change(view, p.undo.spent.Keys, p.created), p.undo), view);
    if MatchesAfter(view, p) { SameAnswers(Change(view, p.undo.spent.Keys, p.created), view); }
  }

  /**
   The two undo paths differ on keys a mutation both spent and re-created: the
   overlay refuses to undo it exactly then, the durable store never does.
   */
  lemma UndoPathsDiffer(view: Utxos, spent: Utxos, created: Utxos)
    requires forall o | o in spent :: Get(view, o) == Some(spent[o])
    requires forall o | o in created :: o in spent || o !in view
    ensures var after, undo := Change(view, spent.Keys, created), Undo(spent, created.Keys);
            && (Connect.Permits(after, undo) <==> spent.Keys !! created.Keys)
            && !UndoRefused(after, undo)
            && Revert(after, undo) == view
  {
    hide Change, Revert;
    var after := Change(view, spent.Keys, created);
    RevertUndoesChange(view, spent, created);
    forall o ensures o in spent.Keys && o in after.Keys <==> o in spent.Keys && o in created.Keys {
      assert Get(after, o) == if o in created then Some(created[o]) else if o in spent then None else Get(view, o);
    }
  }

  /**
   The difference at one input: a store of one coin, spent and created anew by
   one mutation.  The overlay refuses to undo it, the durable store undoes it.
   */
  lemma RecreatedCoinBlocksOverlay(before: Coin, replacement: Coin)
    ensures var o := OutPoint(1, 0);
            var view, created := map[o := before], map[o := replacement];
            var after, undo := Change(view, {o}, created), Undo(view, {o});
            && !Connect.Permits(after, undo)
            && !UndoRefused(after, undo)
            && Revert(after, undo) == view
  {
    hide Change, Revert;
    var o := OutPoint(1, 0);
    var view, created := map[o := before], map[o := replacement];
    assert view.Keys == {o} && created.Keys == {o};
    UndoPathsDiffer(view, view, created);
  }
}
