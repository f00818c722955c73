/**
 The in-memory overlay a block or batch is validated against: a read cache and
 a set of modifications, split over independently locked shards, over a base
 that is never written.
 */
module Overlay {
  import opened Basics
  import opened Coins

  const OVERLAY_SHARDS: nat := 64
  const PARALLEL_SEED_THRESHOLD: nat := 65_536

  /** One shard: what the base answered, and what this overlay changed. */
  datatype Shard = Shard(original: map<OutPoint, Option<Coin>>, current: map<OutPoint, Option<Coin>>)

  datatype NetChange = NetChange(spent: set<OutPoint>, created: Utxos, undo: Undo)

  /** Keys route by their transaction id. */
  function Route(o: OutPoint): (i: nat)
    ensures i < OVERLAY_SHARDS
  {
    o.txid % OVERLAY_SHARDS
  }

  /** A list of keys to spend is refused at its first repeated or absent key. */
  function SpendError(view: Utxos, spent: seq<OutPoint>, n: nat): Option<UtxoError>
    requires n <= |spent|
  {
    if n == 0 then None
    else
      var earlier := SpendError(view, spent, n - 1);
      if earlier.Some? then earlier
      else if spent[n - 1] in spent[..n - 1] then Some(DuplicateSpend(spent[n - 1]))
      else if spent[n - 1] !in view then Some(Missing(spent[n - 1]))
      else None
  }

  /** A list of coins to create is refused at its first repeated key or key still present. */
  function CreateError(view: Utxos, spent: set<OutPoint>, created: seq<(OutPoint, Coin)>, n: nat): Option<UtxoError>
    requires n <= |created|
  {
    if n == 0 then None
    else
      var earlier := CreateError(view, spent, created, n - 1);
      var o := created[n - 1].0;
      if earlier.Some? then earlier
      else if (exists i :: 0 <= i < n - 1 && created[i].0 == o) || (o !in spent && o in view) then Some(Duplicate(o))
      else None
  }

  function ApplyError(view: Utxos, spent: seq<OutPoint>, created: seq<(OutPoint, Coin)>): Option<UtxoError> {
    var error := SpendError(view, spent, |spent|);
    if error.Some? then error else CreateError(view, ToSet(spent), created, |created|)
  }

  lemma {:induction false} SpendsExactly(view: Utxos, spent: seq<OutPoint>, n: nat)
    requires n <= |spent|
    ensures SpendError(view, spent, n) == None <==>
            && (forall i | 0 <= i < n :: spent[i] in view)
            && (forall i, j | 0 <= i < j < n :: spent[i] != spent[j])
  {
    if n > 0 {
      SpendsExactly(view, spent, n - 1);
      assert spent[n - 1] in spent[..n - 1] <==> exists i | 0 <= i < n - 1 :: spent[i] == spent[n - 1];
    }
  }

  lemma {:induction false} CreatesExactly(view: Utxos, spent: set<OutPoint>, created: seq<(OutPoint, Coin)>, n: nat)
    requires n <= |created|
    ensures CreateError(view, spent, created, n) == None <==>
            && (forall i | 0 <= i < n :: created[i].0 !in view || created[i].0 in spent)
            && (forall i, j | 0 <= i < j < n :: created[i].0 != created[j].0)
  {
    if n > 0 { CreatesExactly(view, spent, created, n - 1); }
  }

  /** A mutation is accepted exactly when it spends distinct present coins and creates distinct absent ones. */
  lemma AppliesExactlyWhen(view: Utxos, spent: seq<OutPoint>, created: seq<(OutPoint, Coin)>)
    ensures ApplyError(view, spent, created) == None <==>
            && (forall i | 0 <= i < |spent| :: spent[i] in view)
            && (forall i, j | 0 <= i < j < |spent| :: spent[i] != spent[j])
            && (forall i | 0 <= i < |created| :: created[i].0 !in view || created[i].0 in spent)
            && (forall i, j | 0 <= i < j < |created| :: created[i].0 != created[j].0)
  {
    hide SpendError, CreateError;
    SpendsExactly(view, spent, |spent|);
    CreatesExactly(view, ToSet(spent), created, |created|);
  }

  /** The coins of the listed keys. */
  function Restrict(view: Utxos, keys: set<OutPoint>): Utxos {
    map o | o in keys && o in view :: view[o]
  }

  class UtxoOverlay {
    const base: Utxos
    const shards: array<Shard>

    constructor (base: Utxos)
      ensures this.base == base && fresh(shards) && Valid() && View() == base
      ensures forall o :: !Cached(o)
    {
      this.base := base;
      this.shards := new Shard[OVERLAY_SHARDS](_ => Shard(map[], map[]));
      new;
      SameAnswers(View(), base);
    }

    /** Keys sit in their own shard, cached originals are the base's, and modified keys have one. */
    ghost predicate Valid()
      reads shards
    {
      && shards.Length == OVERLAY_SHARDS
      && (forall i | 0 <= i < OVERLAY_SHARDS :: ValidShard(i, shards[i]))
    }

    ghost predicate ValidShard(i: nat, s: Shard) {
      && (forall o | o in s.original :: Route(o) == i && s.original[o] == Get(base, o))
      && s.current.Keys <= s.original.Keys
    }

    /** What the overlay answers for a key. */
    ghost function At(o: OutPoint): Option<Coin>
      requires Valid()
      reads shards
    {
      var s := shards[Route(o)];
      if o in s.current then s.current[o] else Get(base, o)
    }

    ghost predicate Cached(o: OutPoint)
      requires Valid()
      reads shards
    {
      o in shards[Route(o)].original
    }

    ghost function Modified(): set<OutPoint>
      requires Valid()
      reads shards
    {
      set i, o | 0 <= i < OVERLAY_SHARDS && o in shards[i].current :: o
    }

    /** The logical coin set. */
    ghost function View(): (view: Utxos)
      requires Valid()
      reads shards
      ensures forall o :: Get(view, o) == At(o)
    {
      map o | o in base.Keys + Modified() && At(o).Some? :: At(o).value
    }

    /** Caches one answer of the base. */
    method Seed(o: OutPoint, value: Option<Coin>)
      requires Valid() && value == Get(base, o)
      modifies shards
      ensures Valid() && View() == old(View())
      ensures forall k :: Cached(k) <==> k == o || old(Cached(k))
    {
      var i := Route(o);
      var s := shards[i];
      shards[i] := s.(original := s.original[o := value]);
      SameAnswers(View(), old(View()));
    }

    method Load(o: OutPoint) returns (found: Option<Coin>)
      requires Valid()
      modifies shards
      ensures Valid() && View() == old(View())
      ensures found == At(o) && Cached(o)
      ensures forall k :: old(Cached(k)) ==> Cached(k)
    {
      var i := Route(o);
      var s := shards[i];
      if o in s.current { return s.current[o]; }
      if o in s.original { return s.original[o]; }
      found := Get(base, o);
      Seed(o, found);
    }

    /** The cached answer for a key; `None` when it was never touched. */
    method CachedValue(o: OutPoint) returns (value: Option<Option<Coin>>)
      requires Valid()
      ensures value == if Cached(o) then Some(At(o)) else None
    {
      var s := shards[Route(o)];
      return if o in s.current then Some(s.current[o]) else Get(s.original, o);
    }

    /** Records `value` for a key; an uncached key must be absent from the base. */
    method Write(o: OutPoint, value: Option<Coin>)
      requires Valid() && (Cached(o) || o !in base)
      modifies shards
      ensures Valid()
      ensures forall k :: At(k) == if k == o then value else old(At(k))
      ensures forall k :: old(Cached(k)) ==> Cached(k)
    {
      var i := Route(o);
      var s := shards[i];
      var original := if o in s.original then s.original else s.original[o := None];
      shards[i] := Shard(original, s.current[o := value]);
    }

    /** A key may be written when its original is known: cached, or absent from the base. */
    ghost predicate Writable(o: OutPoint)
      requires Valid()
      reads shards
    {
      Cached(o) || o !in base
    }

    /** Writes a checked mutation: every spent key, then every created coin. */
    method WriteAll(spent: seq<OutPoint>, created: seq<(OutPoint, Coin)>)
      requires Valid()
      requires forall i | 0 <= i < |spent| :: Writable(spent[i])
      requires forall i | 0 <= i < |created| :: Writable(created[i].0)
      modifies shards
      ensures Valid() && View() == Change(old(View()), ToSet(spent), ToMap(created))
      ensures forall k :: old(Cached(k)) ==> Cached(k)
    {
      hide UtxoOverlay.Valid, UtxoOverlay.At, UtxoOverlay.Cached, UtxoOverlay.View;
      ghost var before := View();
      for i := 0 to |spent|
        invariant Valid() && forall k :: old(Cached(k)) ==> Cached(k)
        invariant forall k :: At(k) == if k in spent[..i] then None else Get(before, k)
      {
        Write(spent[i], None);
        assert spent[..i + 1] == spent[..i] + [spent[i]];
      }
      assert spent[..|spent|] == spent;
      for i := 0 to |created|
        invariant Valid() && forall k :: old(Cached(k)) ==> Cached(k)
        invariant forall k :: At(k) == Get(Change(before, ToSet(spent), ToMap(created[..i])), k)
      {
        hide Change, ToMap;
        ghost var done := created[..i];
        assert created[..i + 1] == done + [created[i]];
        ToMapAppend(done, created[i]);
        Write(created[i].0, Some(created[i].1));
      }
      assert created[..|created|] == created;
      SameAnswers(View(), Change(before, ToSet(spent), ToMap(created)));
    }

    /** Loads every key of a spend list; the coins read, or the first refusal. */
    method LoadSpent(spent: seq<OutPoint>) returns (r: Result<Utxos, UtxoError>)
      requires Valid()
      modifies shards
      ensures Valid() && View() == old(View())
      ensures forall k :: old(Cached(k)) ==> Cached(k)
      ensures match SpendError(old(View()), spent, |spent|)
              case Some(e) => r == Err(e)
              case None => r == Ok(Restrict(old(View()), ToSet(spent)))
                           && forall i | 0 <= i < |spent| :: Cached(spent[i])
    {
      hide UtxoOverlay.Valid, UtxoOverlay.At, UtxoOverlay.Cached, UtxoOverlay.View;
      ghost var view := View();
      var seen: set<OutPoint>, coins: Utxos := {}, map[];
      for i := 0 to |spent|
        invariant Valid() && View() == view && forall k :: old(Cached(k)) ==> Cached(k)
        invariant seen == ToSet(spent[..i]) && coins == Restrict(view, seen)
        invariant SpendError(view, spent, i) == None
        invariant forall j | 0 <= j < i :: Cached(spent[j])
      {
        assert spent[..i + 1] == spent[..i] + [spent[i]];
        SpendErrorStops(view, spent, i + 1, |spent|);
        if spent[i] in seen { return Err(DuplicateSpend(spent[i])); }
        var found := Load(spent[i]);
        assert found == Get(view, spent[i]);
        if found.None? { return Err(Missing(spent[i])); }
        seen, coins := seen + {spent[i]}, coins[spent[i] := found.value];
      }
      assert spent[..|spent|] == spent;
      return Ok(coins);
    }

    /** Applies a mutation after checking it against the logical view; on refusal nothing changes. */
    method ApplyWithUndo(spent: seq<OutPoint>, created: seq<(OutPoint, Coin)>) returns (r: Result<Undo, UtxoError>)
      requires Valid()
      modifies shards
      ensures Valid()
      ensures match ApplyError(old(View()), spent, created)
              case Some(e) => r == Err(e) && View() == old(View())
              case None =>
                && r == Ok(Undo(Restrict(old(View()), ToSet(spent)), ToMap(created).Keys))
                && View() == Change(old(View()), ToSet(spent), ToMap(created))
    {
      hide UtxoOverlay.Valid, UtxoOverlay.At, UtxoOverlay.Cached, UtxoOverlay.View;
      ghost var view := View();
      hide Change, SpendError, CreateError, Restrict;
      var coins := LoadSpent(spent);
      if coins.Err? { return Err(coins.error); }
      var error := CheckCreated(ToSet(spent), created);
      if error.Some? { return Err(error.value); }
      WriteAll(spent, created);
      return Ok(Undo(coins.value, ToMap(created).Keys));
    }

    /** Loads every created key that is not being spent; the first refusal, if any. */
    method CheckCreated(spent: set<OutPoint>, created: seq<(OutPoint, Coin)>) returns (error: Option<UtxoError>)
      requires Valid() && forall o | o in spent :: Cached(o)
      modifies shards
      ensures Valid() && View() == old(View())
      ensures forall k :: old(Cached(k)) ==> Cached(k)
      ensures error == CreateError(old(View()), spent, created, |created|)
      ensures error == None ==> forall i | 0 <= i < |created| :: Cached(created[i].0)
    {
      hide UtxoOverlay.Valid, UtxoOverlay.At, UtxoOverlay.Cached, UtxoOverlay.View;
      ghost var view := View();
      var seen: set<OutPoint> := {};
      for i := 0 to |created|
        invariant Valid() && View() == view && forall k :: old(Cached(k)) ==> Cached(k)
        invariant forall o :: o in seen <==> exists j :: 0 <= j < i && created[j].0 == o
        invariant CreateError(view, spent, created, i) == None
        invariant forall j | 0 <= j < i :: Cached(created[j].0)
      {
        var o := created[i].0;
        CreateErrorStops(view, spent, created, i + 1, |created|);
        if o in seen { return Some(Duplicate(o)); }
        if o !in spent {
          var found := Load(o);
          assert found == Get(view, o);
          if found.Some? { return Some(Duplicate(o)); }
        }
        seen := seen + {o};
      }
      return None;
    }

    /** The part of the view that can be answered from the cache. */
    ghost function CachedView(): Utxos
      reads shards
      requires Valid()
    {
      map o | o in View() && Cached(o) :: View()[o]
    }

    /** What the fast path reports: a key it has not cached counts as missing. */
    ghost function FreshError(spent: seq<OutPoint>, prevouts: seq<Coin>,
                              created: seq<(OutPoint, Coin)>): Option<UtxoError>
      reads shards
      requires Valid()
    {
      if |prevouts| != |spent| then Some(CountMismatch)
      else match SpendError(CachedView(), spent, |spent|)
        case Some(e) => Some(e)
        case None => CreateError(View(), ToSet(spent), created, |created|)
    }

    /**
     The fast path: coins already read are handed in, and created keys are not
     looked up in the base.  The caller's contract is that every created key
     is absent from the view or being spent.
     */
    method ApplyFreshFromPrevouts(spent: seq<OutPoint>, prevouts: seq<Coin>, created: seq<(OutPoint, Coin)>)
      returns (r: Result<Undo, UtxoError>)
      requires Valid()
      requires forall i | 0 <= i < |created| :: created[i].0 !in View() || created[i].0 in spent
      requires forall i | 0 <= i < |spent| && i < |prevouts| && spent[i] in View() :: View()[spent[i]] == prevouts[i]
      modifies shards
      ensures Valid() && forall k :: old(Cached(k)) ==> Cached(k)
      ensures r.Ok? <==>
              && |prevouts| == |spent|
              && (forall i | 0 <= i < |spent| :: old(Cached(spent[i])))
              && ApplyError(old(View()), spent, created) == None
      ensures r.Err? ==> View() == old(View()) && Some(r.error) == old(FreshError(spent, prevouts, created))
      ensures r.Ok? ==>
                && r == Ok(Undo(Restrict(old(View()), ToSet(spent)), ToMap(created).Keys))
                && View() == Change(old(View()), ToSet(spent), ToMap(created))
    {
      hide UtxoOverlay.Valid, UtxoOverlay.At, UtxoOverlay.Cached, UtxoOverlay.View, Change;
      ghost var view, known := View(), CachedView();
      if |prevouts| != |spent| { return Err(CountMismatch); }
      var coins := TakeCached(spent, prevouts);
      CachedSpends(view, known, spent, |spent|);
      if coins.Err? { return Err(coins.error); }
      var error := CheckFresh(ToSet(spent), created);
      if error.Some? { return Err(error.value); }
      forall i | 0 <= i < |created| ensures Writable(created[i].0) { UncachedIsBase(created[i].0); }
      WriteAll(spent, created);
      return Ok(Undo(coins.value, ToMap(created).Keys));
    }

    /** The coins to spend as handed in, checked against the cache alone. */
    method TakeCached(spent: seq<OutPoint>, prevouts: seq<Coin>) returns (r: Result<Utxos, UtxoError>)
      requires Valid() && |prevouts| == |spent|
      requires forall i | 0 <= i < |spent| && spent[i] in View() :: View()[spent[i]] == prevouts[i]
      ensures match SpendError(CachedView(), spent, |spent|)
              case Some(e) => r == Err(e)
              case None => r == Ok(Restrict(View(), ToSet(spent)))
    {
      hide UtxoOverlay.Valid, UtxoOverlay.At, UtxoOverlay.Cached, UtxoOverlay.View;
      ghost var view, known := View(), CachedView();
      var seen: set<OutPoint>, coins: Utxos := {}, map[];
      for i := 0 to |spent|
        invariant seen == ToSet(spent[..i]) && coins == Restrict(view, seen)
        invariant SpendError(known, spent, i) == None
      {
        assert spent[..i + 1] == spent[..i] + [spent[i]];
        SpendErrorStops(known, spent, i + 1, |spent|);
        if spent[i] in seen { return Err(DuplicateSpend(spent[i])); }
        var cached := CachedValue(spent[i]);
        assert cached.Some? ==> cached.value == Get(view, spent[i]);
        if cached.None? || cached.value.None? { return Err(Missing(spent[i])); }
        seen, coins := seen + {spent[i]}, coins[spent[i] := prevouts[i]];
      }
      assert spent[..|spent|] == spent;
      return Ok(coins);
    }

    /** Only cached values are consulted; under the contract that is enough. */
    method CheckFresh(spent: set<OutPoint>, created: seq<(OutPoint, Coin)>) returns (error: Option<UtxoError>)
      requires Valid() && forall i | 0 <= i < |created| :: created[i].0 !in View() || created[i].0 in spent
      ensures error == CreateError(View(), spent, created, |created|)
    {
      hide UtxoOverlay.Valid, UtxoOverlay.At, UtxoOverlay.Cached, UtxoOverlay.View;
      ghost var view := View();
      var seen: set<OutPoint> := {};
      for i := 0 to |created|
        invariant forall o :: o in seen <==> exists j :: 0 <= j < i && created[j].0 == o
        invariant CreateError(view, spent, created, i) == None
      {
        var o := created[i].0;
        CreateErrorStops(view, spent, created, i + 1, |created|);
        if o in seen { return Some(Duplicate(o)); }
        if o !in spent {
          var cached := CachedValue(o);
          assert cached.Some? ==> cached.value == Get(view, o);
          if cached.Some? && cached.value.Some? { return Some(Duplicate(o)); }
        }
        seen := seen + {o};
      }
      return None;
    }

    lemma UncachedIsBase(o: OutPoint)
      requires Valid() && (o !in View() || Cached(o))
      ensures Writable(o)
    {
      assert Get(View(), o) == At(o);
    }

    /**
     Reverses a mutation.  Refused, unchanged, exactly when a coin it would
     restore is present.
     */
    method UndoMutation(undo: Undo) returns (r: Option<UtxoError>)
      requires Valid()
      modifies shards
      ensures Valid()
      ensures r.None? <==> undo.spent.Keys !! old(View()).Keys
      ensures r.None? ==> View() == Revert(old(View()), undo)
      ensures r.Some? ==>
                View() == old(View()) && r.value.Duplicate? && r.value.key in undo.spent && r.value.key in View()
    {
      hide UtxoOverlay.Valid, UtxoOverlay.At, UtxoOverlay.Cached, UtxoOverlay.View;
      ghost var view := View();
      var pending := undo.spent.Keys;
      while pending != {}
        invariant Valid() && View() == view && pending <= undo.spent.Keys
        invariant forall o | o in undo.spent.Keys - pending :: Cached(o) && o !in view
        decreases pending
      {
        var o :| o in pending;
        var found := Load(o);
        assert found == Get(view, o);
        if found.Some? { return Some(Duplicate(o)); }
        pending := pending - {o};
      }
      RemoveCreated(undo.created);
      ghost var removed := View();
      pending := undo.spent.Keys;
      while pending != {}
        invariant Valid() && pending <= undo.spent.Keys && forall o | o in undo.spent.Keys :: Cached(o)
        invariant forall k :: At(k) == if k in undo.spent.Keys - pending then Some(undo.spent[k]) else Get(removed, k)
        decreases pending
      {
        var o :| o in pending;
        Write(o, Some(undo.spent[o]));
        pending := pending - {o};
      }
      SameAnswers(View(), Revert(view, undo));
      return None;
    }

    method RemoveCreated(created: set<OutPoint>)
      requires Valid()
      modifies shards
      ensures Valid() && forall k :: old(Cached(k)) ==> Cached(k)
      ensures forall k :: At(k) == if k in created then None else old(At(k))
    {
      hide UtxoOverlay.Valid, UtxoOverlay.At, UtxoOverlay.Cached, UtxoOverlay.View;
      var pending := created;
      while pending != {}
        invariant Valid() && pending <= created && forall k :: old(Cached(k)) ==> Cached(k)
        invariant forall k :: At(k) == if k in created - pending then None else old(At(k))
        decreases pending
      {
        var o :| o in pending;
        var _ := Load(o);
        Write(o, None);
        pending := pending - {o};
      }
    }

    // ----- Reporting -----

    /** Modified keys of the shards below `n`. */
    ghost function ModifiedBelow(n: nat): set<OutPoint>
      requires Valid() && n <= OVERLAY_SHARDS
      reads shards
    {
      set i, o | 0 <= i < n && o in shards[i].current :: o
    }

    lemma ShardValues(i: nat, o: OutPoint)
      requires Valid() && i < OVERLAY_SHARDS && o in shards[i].current
      ensures o in shards[i].original && shards[i].original[o] == Get(base, o)
      ensures shards[i].current[o] == Get(View(), o)
    {
      assert ValidShard(i, shards[i]);
      assert Get(View(), o) == At(o);
    }

    lemma UnmodifiedIsBase(o: OutPoint)
      requires Valid() && o !in ModifiedBelow(OVERLAY_SHARDS)
      ensures Get(View(), o) == Get(base, o)
    {
      assert Get(View(), o) == At(o);
    }

    lemma MoreShards(n: nat)
      requires Valid() && n < OVERLAY_SHARDS
      ensures ModifiedBelow(n + 1) == ModifiedBelow(n) + shards[n].current.Keys
    {
    }

    /** The overlay's net effect, gathered from the modified keys whose value differs from their original. */
    method NetChanges() returns (net: NetChange)
      requires Valid()
      ensures net == NetOf(base, View())
    {
      hide UtxoOverlay.Valid, UtxoOverlay.At, UtxoOverlay.View, UtxoOverlay.ModifiedBelow, NetOn;
      ghost var view := View();
      net := NetChange({}, map[], Undo(map[], {}));
      NetOnNothing(base, view);
      assert ModifiedBelow(0) == {} by { NoShards(); }
      for i := 0 to OVERLAY_SHARDS
        invariant net == NetOn(base, view, ModifiedBelow(i))
      {
        Length();
        var s := shards[i];
        MoreShards(i);
        net := AddShard(net, i, s, ModifiedBelow(i));
      }
      forall o | o !in ModifiedBelow(OVERLAY_SHARDS) ensures Get(view, o) == Get(base, o) { UnmodifiedIsBase(o); }
      NetOnEverything(base, view, ModifiedBelow(OVERLAY_SHARDS));
    }

    method AddShard(before: NetChange, i: nat, s: Shard, ghost done: set<OutPoint>) returns (net: NetChange)
      requires Valid() && i < OVERLAY_SHARDS && s == shards[i] && before == NetOn(base, View(), done)
      ensures net == NetOn(base, View(), done + s.current.Keys)
    {
      hide UtxoOverlay.Valid, UtxoOverlay.At, UtxoOverlay.View, NetOn;
      ghost var view := View();
      net := before;
      var pending := s.current.Keys;
      assert done + (s.current.Keys - pending) == done;
      while pending != {}
        invariant pending <= s.current.Keys && net == NetOn(base, view, done + (s.current.Keys - pending))
        decreases pending
      {
        var o :| o in pending;
        ShardValues(i, o);
        var original, current := s.original[o], s.current[o];
        ghost var seen := done + (s.current.Keys - pending);
        NetOnAdd(base, view, seen, o);
        if original != current {
          if original.Some? {
            net := net.(spent := net.spent + {o}, undo := net.undo.(spent := net.undo.spent[o := original.value]));
          }
          if current.Some? {
            net := net.(created := net.created[o := current.value],
                        undo := net.undo.(created := net.undo.created + {o}));
          }
        }
        assert seen + {o} == done + (s.current.Keys - (pending - {o}));
        pending := pending - {o};
      }
      assert s.current.Keys - pending == s.current.Keys;
    }

    lemma Length()
      requires Valid()
      ensures shards.Length == OVERLAY_SHARDS
    {
    }

    lemma NoShards()
      requires Valid()
      ensures ModifiedBelow(0) == {}
    {
    }

    /** The population: the base's count adjusted at each modified key. */
    method TierStats() returns (total: int)
      requires Valid()
      ensures total == |View()|
    {
      hide UtxoOverlay.Valid, UtxoOverlay.At, UtxoOverlay.View, UtxoOverlay.ModifiedBelow, Mixed;
      ghost var view := View();
      total := |base|;
      NoShards();
      MixedNothing(base.Keys, view.Keys);
      for i := 0 to OVERLAY_SHARDS
        invariant total == |Mixed(base.Keys, view.Keys, ModifiedBelow(i))|
      {
        Length();
        MoreShards(i);
        DistinctShards(i);
        var delta := CountShard(i, shards[i], ModifiedBelow(i));
        total := total + delta;
      }
      forall o | o !in ModifiedBelow(OVERLAY_SHARDS) ensures o in base.Keys <==> o in view.Keys {
        UnmodifiedIsBase(o);
      }
      MixedEverything(base.Keys, view.Keys, ModifiedBelow(OVERLAY_SHARDS));
    }

    method CountShard(i: nat, s: Shard, ghost done: set<OutPoint>) returns (delta: int)
      requires Valid() && i < OVERLAY_SHARDS && s == shards[i] && done !! s.current.Keys
      ensures |Mixed(base.Keys, View().Keys, done)| + delta ==
              |Mixed(base.Keys, View().Keys, done + s.current.Keys)|
    {
      hide UtxoOverlay.Valid, UtxoOverlay.At, UtxoOverlay.View, Mixed;
      ghost var view := View();
      delta := 0;
      var pending := s.current.Keys;
      assert done + (s.current.Keys - pending) == done;
      while pending != {}
        invariant pending <= s.current.Keys
        invariant |Mixed(base.Keys, view.Keys, done)| + delta ==
                  |Mixed(base.Keys, view.Keys, done + (s.current.Keys - pending))|
        decreases pending
      {
        var o :| o in pending;
        ShardValues(i, o);
        ghost var seen := done + (s.current.Keys - pending);
        MixedAdd(base.Keys, view.Keys, seen, o);
        delta := delta + (if s.current[o].Some? then 1 else 0) - (if s.original[o].Some? then 1 else 0);
        assert seen + {o} == done + (s.current.Keys - (pending - {o}));
        pending := pending - {o};
      }
      assert s.current.Keys - pending == s.current.Keys;
    }

    lemma DistinctShards(n: nat)
      requires Valid() && n < OVERLAY_SHARDS
      ensures ModifiedBelow(n) !! shards[n].current.Keys
    {
      forall o | o in ModifiedBelow(n) ensures o !in shards[n].current.Keys {
        var i :| 0 <= i < n && o in shards[i].current;
        assert ValidShard(i, shards[i]) && ValidShard(n, shards[n]);
      }
    }

    // ----- Seeding -----

    /**
     Caches coins read ahead of validation.  A large batch is partitioned by
     shard and inserted by workers; `order` is any order in which they get
     through the shards.
     */
    method SeedPrefetched(entries: seq<(OutPoint, Option<Coin>)>, order: seq<nat>)
      requires Valid() && forall i | 0 <= i < |entries| :: entries[i].1 == Get(base, entries[i].0)
      requires forall s | 0 <= s < OVERLAY_SHARDS :: s in order
      modifies shards
      ensures Valid() && View() == old(View())
      ensures forall k :: Cached(k) <==> old(Cached(k)) || exists i :: 0 <= i < |entries| && entries[i].0 == k
    {
      hide UtxoOverlay.Valid, UtxoOverlay.At, UtxoOverlay.Cached, UtxoOverlay.View;
      if |entries| < PARALLEL_SEED_THRESHOLD {
        SeedAll(entries);
        return;
      }
      var parts: seq<seq<(OutPoint, Option<Coin>)>> := Partition(entries);
      for w := 0 to |order|
        invariant Valid() && View() == old(View())
        invariant forall k :: Cached(k) ==> old(Cached(k)) || exists i :: 0 <= i < |entries| && entries[i].0 == k
        invariant forall k :: old(Cached(k)) ==> Cached(k)
        invariant forall v, j | 0 <= v < w && order[v] < OVERLAY_SHARDS && 0 <= j < |parts[order[v]]| ::
                    Cached(parts[order[v]][j].0)
      {
        if order[w] < OVERLAY_SHARDS {
          var part: seq<(OutPoint, Option<Coin>)> := parts[order[w]];
          forall j | 0 <= j < |part| ensures part[j].1 == Get(base, part[j].0) {
            assert part[j] in entries;
          }
          SeedAll(part);
        }
      }
      forall i | 0 <= i < |entries| ensures Cached(entries[i].0) {
        var s := Route(entries[i].0);
        assert entries[i] in parts[s];
        assert s in order;
        var w :| 0 <= w < |order| && order[w] == s;
        var j :| 0 <= j < |parts[s]| && parts[s][j] == entries[i];
        assert Cached(parts[order[w]][j].0);
      }
    }

    method SeedAll(entries: seq<(OutPoint, Option<Coin>)>)
      requires Valid() && forall i | 0 <= i < |entries| :: entries[i].1 == Get(base, entries[i].0)
      modifies shards
      ensures Valid() && View() == old(View())
      ensures forall k :: Cached(k) <==> old(Cached(k)) || exists i :: 0 <= i < |entries| && entries[i].0 == k
    {
      hide UtxoOverlay.Valid, UtxoOverlay.At, UtxoOverlay.Cached, UtxoOverlay.View;
      for n := 0 to |entries|
        invariant Valid() && View() == old(View())
        invariant forall k :: Cached(k) <==> old(Cached(k)) || exists i :: 0 <= i < n && entries[i].0 == k
      {
        Seed(entries[n].0, entries[n].1);
      }
    }
  }

  /** Splits entries by the shard of their key, keeping their order. */
  method Partition(entries: seq<(OutPoint, Option<Coin>)>) returns (parts: seq<seq<(OutPoint, Option<Coin>)>>)
    ensures |parts| == OVERLAY_SHARDS
    ensures forall i | 0 <= i < |entries| :: entries[i] in parts[Route(entries[i].0)]
    ensures forall s, j | 0 <= s < OVERLAY_SHARDS && 0 <= j < |parts[s]| :: parts[s][j] in entries
  {
    parts := seq(OVERLAY_SHARDS, _ => []);
    for n := 0 to |entries|
      invariant |parts| == OVERLAY_SHARDS
      invariant forall i | 0 <= i < n :: entries[i] in parts[Route(entries[i].0)]
      invariant forall s, j | 0 <= s < OVERLAY_SHARDS && 0 <= j < |parts[s]| :: parts[s][j] in entries
    {
      var s := Route(entries[n].0);
      parts := parts[s := parts[s] + [entries[n]]];
    }
  }

  // ----- Net changes -----

  /** The net change between two coin sets, looking only at `keys`. */
  ghost function NetOn(base: Utxos, view: Utxos, keys: set<OutPoint>): NetChange {
    var spent := set o | o in keys && o in base && Get(view, o) != Get(base, o);
    var created := map o | o in keys && o in view && Get(view, o) != Get(base, o) :: view[o];
    NetChange(spent, created, Undo(Restrict(base, spent), created.Keys))
  }

  /** The net change between two coin sets. */
  ghost function NetOf(base: Utxos, view: Utxos): NetChange {
    NetOn(base, view, base.Keys + view.Keys)
  }

  lemma NetOnNothing(base: Utxos, view: Utxos)
    ensures NetOn(base, view, {}) == NetChange({}, map[], Undo(map[], {}))
  {
  }

  lemma NetOnAdd(base: Utxos, view: Utxos, keys: set<OutPoint>, o: OutPoint)
    ensures var before, after := NetOn(base, view, keys), NetOn(base, view, keys + {o});
            && after.spent == before.spent + (if o in base && Get(view, o) != Get(base, o) then {o} else {})
            && after.created ==
               (if o in view && Get(view, o) != Get(base, o) then before.created[o := view[o]] else before.created)
            && after.undo.spent ==
               (if o in base && Get(view, o) != Get(base, o)
                then before.undo.spent[o := base[o]] else before.undo.spent)
            && after.undo.created ==
               before.undo.created + (if o in view && Get(view, o) != Get(base, o) then {o} else {})
  {
  }

  lemma NetOnEverything(base: Utxos, view: Utxos, keys: set<OutPoint>)
    requires forall o | o !in keys :: Get(view, o) == Get(base, o)
    ensures NetOn(base, view, keys) == NetOf(base, view)
  {
    var some, all := NetOn(base, view, keys), NetOf(base, view);
    assert some.spent == all.spent;
    assert some.created == all.created;
  }

  /**
   Applying the net change to the base gives the view, every key it reports
   spent is in the base, and its undo record leads back.
   */
  lemma NetChangeIsExact(base: Utxos, view: Utxos)
    ensures var net := NetOf(base, view);
            && Change(base, net.spent, net.created) == view
            && net.spent <= base.Keys
            && Revert(view, net.undo) == base
            && (forall o | o in net.spent :: Get(view, o) != Get(base, o))
            && (forall o | o in net.created :: Get(view, o) != Get(base, o))
  {
    var net := NetOf(base, view);
    SameAnswers(Change(base, net.spent, net.created), view);
    SameAnswers(Revert(view, net.undo), base);
  }

  /** The keys of `view` inside `done` and of `base` outside it. */
  ghost function Mixed(base: set<OutPoint>, view: set<OutPoint>, done: set<OutPoint>): set<OutPoint> {
    (base - done) + (view * done)
  }

  lemma MixedNothing(base: set<OutPoint>, view: set<OutPoint>)
    ensures Mixed(base, view, {}) == base
  {
  }

  lemma MixedEverything(base: set<OutPoint>, view: set<OutPoint>, done: set<OutPoint>)
    requires forall o | o !in done :: o in base <==> o in view
    ensures Mixed(base, view, done) == view
  {
  }

  lemma MixedAdd(base: set<OutPoint>, view: set<OutPoint>, done: set<OutPoint>, o: OutPoint)
    requires o !in done
    ensures |Mixed(base, view, done + {o})| ==
            |Mixed(base, view, done)| + (if o in view then 1 else 0) - (if o in base then 1 else 0)
  {
    var before, after := Mixed(base, view, done), Mixed(base, view, done + {o});
    var without := before - {o};
    assert before == if o in base then without + {o} else without;
    assert after == if o in view then without + {o} else without;
  }

  lemma ToMapAppend<K(!new), V>(pairs: seq<(K, V)>, last: (K, V))
    ensures ToMap(pairs + [last]) == ToMap(pairs)[last.0 := last.1]
  {
    assert (pairs + [last])[..|pairs|] == pairs;
  }

  lemma {:induction false} SpendErrorStops(view: Utxos, spent: seq<OutPoint>, n: nat, m: nat)
    requires n <= m <= |spent|
    ensures SpendError(view, spent, n).Some? ==> SpendError(view, spent, m) == SpendError(view, spent, n)
  {
    if n < m { SpendErrorStops(view, spent, n, m - 1); }
  }

  /** Spending from part of a view goes through when the view allows it and the part has every key. */
  lemma {:induction false} CachedSpends(view: Utxos, known: Utxos, spent: seq<OutPoint>, n: nat)
    requires n <= |spent| && known.Keys <= view.Keys
    ensures SpendError(view, spent, n) == None ==> forall i | 0 <= i < n :: spent[i] in view
    ensures SpendError(known, spent, n) == None <==>
            SpendError(view, spent, n) == None && forall i | 0 <= i < n :: spent[i] in known
  {
    if n > 0 { CachedSpends(view, known, spent, n - 1); }
  }

  lemma {:induction false} CreateErrorStops(view: Utxos, spent: set<OutPoint>, created: seq<(OutPoint, Coin)>, n: nat,
                                            m: nat)
    requires n <= m <= |created|
    ensures CreateError(view, spent, created, n).Some? ==>
              CreateError(view, spent, created, m) == CreateError(view, spent, created, n)
  {
    if n < m { CreateErrorStops(view, spent, created, n, m - 1); }
  }
}
